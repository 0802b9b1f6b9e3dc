/** Revision 0049, statement by statement: what each UPDATE, INSERT and DELETE makes of its
    table, and that it takes the tables from one stage of module WordsAndPhrases to the next. */
module WordsAndPhrasesSteps {
  import opened Schema
  import opened WordsAndPhrases
  import Sets

  // ── The statements: a table as each leaves it ───────────────────────

  function LearnPhraseOfJobs(jobs: map<int, Job>, phraseOf: map<int, int>): map<int, Job> {
    map j | j in jobs ::
      if IsPhraseLevel(jobs[j].jobType) && jobs[j].candidate.Some?
      then jobs[j].(phrase := PhraseOfCard(phraseOf, jobs[j].candidate.value)) else jobs[j]
  }

  function LearnPhraseOfReports(reports: map<int, Report>, phraseOf: map<int, int>): map<int, Report> {
    map r | r in reports :: reports[r].(phrase := PhraseOfCard(phraseOf, reports[r].candidate))
  }

  function LearnPhraseOfExports(exports: map<int, Export>, phraseOf: map<int, int>): map<int, Export> {
    map e | e in exports :: exports[e].(phrase := PhraseOfCard(phraseOf, exports[e].candidate))
  }

  function BindingsOf(
    exports: map<int, Export>, candidates: map<int, Card>, clozes: map<int, string>, now: Time)
    : map<int, Binding>
  {
    map e | e in exports && exports[e].candidate in candidates ::
      var c := exports[e].candidate;
      Binding(
        Some(c), exports[e].phrase, exports[e].note, candidates[c].spelling, candidates[c].pos,
        NoteKind(clozes, c), Some(NoteKind(clozes, c)), now, None)
  }

  function MakeManual(phrases: map<int, Phrase>, loser: int): map<int, Phrase> {
    map p | p in phrases ::
      if phrases[p].word == loser && phrases[p].origin.Auto?
      then phrases[p].(origin := Origin.Manual, shownBy := Some(User)) else phrases[p]
  }

  function RebindPhrases(phrases: map<int, Phrase>, loser: int, winner: int): map<int, Phrase> {
    map p | p in phrases ::
      if phrases[p].word == loser then phrases[p].(word := winner) else phrases[p]
  }

  function RebindJobs(jobs: map<int, Job>, loser: int, winner: int): map<int, Job> {
    map j | j in jobs ::
      if jobs[j].candidate == Some(loser) then jobs[j].(candidate := Some(winner)) else jobs[j]
  }

  function RebindBindings(bindings: map<int, Binding>, loser: int, winner: int): map<int, Binding> {
    map e | e in bindings ::
      if bindings[e].word == Some(loser) then bindings[e].(word := Some(winner)) else bindings[e]
  }

  function RebindReports(reports: map<int, Report>, loser: int, winner: int): map<int, Report> {
    map r | r in reports ::
      if reports[r].candidate == loser then reports[r].(candidate := winner) else reports[r]
  }

  /** The winner keeps its own row of a per-word table; without one it takes the loser's. */
  function InheritRow(rows: map<int, string>, loser: int, winner: int): map<int, string> {
    if winner in rows then rows - {loser}
    else if loser in rows then (rows - {loser})[winner := rows[loser]]
    else rows
  }

  function FollowWord(binding: Binding, candidates: map<int, Card>): Binding {
    if binding.word.Some? && binding.word.value in candidates
    then binding.(
      spelling := candidates[binding.word.value].spelling, pos := candidates[binding.word.value].pos)
    else binding
  }

  function FollowWords(bindings: map<int, Binding>, candidates: map<int, Card>): map<int, Binding> {
    map e | e in bindings :: FollowWord(bindings[e], candidates)
  }

  /** Whether a skipped card's phrase is an original of its word, which has an example. */
  predicate IsOriginal(phrases: map<int, Phrase>, p: int)
    requires p in phrases
  {
    && (phrases[p].origin.Auto? || phrases[p].origin.Manual?)
    && exists e :: e in phrases && phrases[e].word == phrases[p].word
                   && phrases[e].origin.Example? && e != p
  }

  function Unskip(phrases: map<int, Phrase>, p: int): map<int, Phrase>
    requires p in phrases
  {
    phrases[p := phrases[p].(choice := Unmarked, shownBy := None)]
  }

  function ReplaceSelection(phrases: map<int, Phrase>, p: int): map<int, Phrase>
    requires p in phrases
  {
    map e | e in phrases ::
      if phrases[e].origin.Example? && phrases[e].shownBy.Some? && phrases[e].word == phrases[p].word
      then phrases[e].(replacesSelection := true) else phrases[e]
  }

  predicate IsTaken(phrases: map<int, Phrase>, p: int)
    requires p in phrases
  {
    exists q :: q in phrases && phrases[q].word == phrases[p].word && phrases[q].origin.Auto?
                && q != p && phrases[q].key.Some? && phrases[q].key == phrases[p].key
  }

  function TakeBackPlace(phrases: map<int, Phrase>, p: int): map<int, Phrase>
    requires p in phrases
  {
    if phrases[p].origin.Manual? && phrases[p].key.Some? && !IsTaken(phrases, p)
    then phrases[p := phrases[p].(origin := Origin.Auto)] else phrases
  }

  /** All three, as a skipped original is released. */
  function Release(phrases: map<int, Phrase>, p: int): map<int, Phrase>
    requires p in phrases
  {
    TakeBackPlace(ReplaceSelection(Unskip(phrases, p), p), p)
  }

  function ReleaseOthers(bindings: map<int, Binding>, word: int, active: Option<int>, now: Time)
    : map<int, Binding>
  {
    map e | e in bindings ::
      if bindings[e].word == Some(word) && (bindings[e].phrase.None? || bindings[e].phrase != active)
      then bindings[e].(releasedAt := Some(now)) else bindings[e]
  }

  function TakeChoice(binding: Binding, phrases: map<int, Phrase>): Binding {
    if && binding.phrase.Some? && binding.phrase.value in phrases
       && IsDecision(phrases[binding.phrase.value].choice)
    then binding.(cardChoice := Some(phrases[binding.phrase.value].choice))
    else binding.(cardChoice := Some(binding.noteKind))
  }

  function TakeChoices(bindings: map<int, Binding>, phrases: map<int, Phrase>): map<int, Binding> {
    map e | e in bindings :: TakeChoice(bindings[e], phrases)
  }

  // ── What the statements make of the tables ──────────────────────────

  lemma RowsLearnTheirPhrase(o: Old, phraseOf: map<int, int>)
    ensures JobsMerged(o, phraseOf, {}, LearnPhraseOfJobs(o.jobs, phraseOf))
    ensures ReportsMerged(o, phraseOf, {}, LearnPhraseOfReports(o.reports, phraseOf))
  {
  }

  lemma ExportsBecomeBindings(o: Old, phraseOf: map<int, int>, now: Time)
    requires Legal(o)
    ensures BindingsMerged(
              o, phraseOf, {}, now,
              BindingsOf(LearnPhraseOfExports(o.exports, phraseOf), o.candidates, o.clozes, now))
  {
  }

  // ── Merging ─────────────────────────────────────────────────────────

  lemma LosersNeverWin(o: Old, m: set<int>, c: int, loser: int)
    requires m <= Losers(o) && IsLoser(o, loser) && loser !in m && c in o.candidates
    ensures Rebound(o, m, c) == loser <==> c == loser
  {
    OneWinner(o, Winner(o, c), Winner(o, c));
  }

  lemma PhrasesMerge(o: Old, cardOf: map<int, int>, m: set<int>, loser: int, phrases: map<int, Phrase>)
    requires Legal(o) && m <= Losers(o) && IsLoser(o, loser) && loser !in m
    requires PhrasesMerged(o, cardOf, m, phrases)
    ensures PhrasesMerged(
              o, cardOf, m + {loser}, RebindPhrases(MakeManual(phrases, loser), loser, Winner(o, loser)))
  {
    forall p | p in cardOf
      ensures RebindPhrases(MakeManual(phrases, loser), loser, Winner(o, loser))[p]
           == MergedPhrase(o, m + {loser}, cardOf[p])
    {
      LosersNeverWin(o, m, cardOf[p], loser);
    }
  }

  lemma ReboundsOnce(o: Old, m: set<int>, c: int, loser: int)
    requires m <= Losers(o) && IsLoser(o, loser) && loser !in m
    ensures Rebound(o, m + {loser}, c)
         == if Rebound(o, m, c) == loser then Winner(o, loser) else Rebound(o, m, c)
  {
    if c in o.candidates {
      LosersNeverWin(o, m, c, loser);
    }
  }

  lemma JobsMerge(o: Old, phraseOf: map<int, int>, m: set<int>, loser: int, jobs: map<int, Job>)
    requires m <= Losers(o) && IsLoser(o, loser) && loser !in m
    requires JobsMerged(o, phraseOf, m, jobs)
    ensures JobsMerged(o, phraseOf, m + {loser}, RebindJobs(jobs, loser, Winner(o, loser)))
  {
    forall j | j in jobs
      ensures RebindJobs(jobs, loser, Winner(o, loser))[j]
           == MergedJob(o, phraseOf, m + {loser}, o.jobs[j])
    {
      if o.jobs[j].candidate.Some? {
        ReboundsOnce(o, m, o.jobs[j].candidate.value, loser);
      }
    }
  }

  lemma ReportsMerge(o: Old, phraseOf: map<int, int>, m: set<int>, loser: int, reports: map<int, Report>)
    requires m <= Losers(o) && IsLoser(o, loser) && loser !in m
    requires ReportsMerged(o, phraseOf, m, reports)
    ensures ReportsMerged(o, phraseOf, m + {loser}, RebindReports(reports, loser, Winner(o, loser)))
  {
    forall r | r in reports
      ensures RebindReports(reports, loser, Winner(o, loser))[r]
           == MergedReport(o, phraseOf, m + {loser}, o.reports[r])
    {
      ReboundsOnce(o, m, o.reports[r].candidate, loser);
    }
  }

  lemma BindingsMerge(
    o: Old, phraseOf: map<int, int>, m: set<int>, now: Time, loser: int, bindings: map<int, Binding>)
    requires Legal(o) && m <= Losers(o) && IsLoser(o, loser) && loser !in m
    requires BindingsMerged(o, phraseOf, m, now, bindings)
    ensures BindingsMerged(
              o, phraseOf, m + {loser}, now, RebindBindings(bindings, loser, Winner(o, loser)))
  {
    forall e | e in bindings
      ensures RebindBindings(bindings, loser, Winner(o, loser))[e]
           == MergedBinding(o, phraseOf, m + {loser}, now, e)
    {
      ReboundsOnce(o, m, o.exports[e].candidate, loser);
    }
  }

  lemma LoserBequeaths(
    o: Old, table: map<int, string>, m: set<int>, rows: map<int, string>, loser: int,
    merged: map<int, string>)
    requires Legal(o) && m <= Losers(o)
    requires IsLoser(o, loser) && loser !in m
    requires forall d | d in m && Winner(o, d) == Winner(o, loser) :: d < loser
    requires Inherited(o, table, m, rows)
    requires merged == InheritRow(rows, loser, Winner(o, loser))
    ensures Inherited(o, table, m + {loser}, merged)
  {
    var winner := Winner(o, loser);
    var m' := m + {loser};
    OneWinner(o, winner, winner);
    // A loser has no merged losers of its own.
    forall d | d in m
      ensures Winner(o, d) != loser
    {
      OneWinner(o, Winner(o, d), Winner(o, d));
    }
    assert loser in rows <==> loser in table by {
      if loser in table {
        assert IsHeir(o, table, m, loser, loser);
      }
    }
    forall w, d | w in o.candidates && w !in m' && IsHeir(o, table, m', w, d)
      ensures w in merged && merged[w] == table[d]
    {
      if d == loser {
        assert w == winner;
        assert IsHeir(o, table, m, loser, loser);
        if w in rows {
          assert false;
        }
      } else {
        assert IsHeir(o, table, m, w, d);
      }
    }
    forall w | w in merged
      ensures w in o.candidates && w !in m' && exists d :: IsHeir(o, table, m', w, d)
    {
      if w in rows {
        var d :| IsHeir(o, table, m, w, d);
        assert IsHeir(o, table, m', w, d);
      } else {
        assert w == winner && loser in table;
        assert IsHeir(o, table, m', w, loser) by {
          forall e | e in table && e in m' && e in o.candidates && Winner(o, e) == w
            ensures loser <= e
          {
            if e != loser {
              var first := FirstHeir(o, table, m, w, e);
              assert false;
            }
          }
        }
      }
    }
  }

  lemma FirstHeir(o: Old, table: map<int, string>, m: set<int>, w: int, e: int) returns (d: int)
    requires w in o.candidates && w !in table
    requires e in table && e in m && e in o.candidates && Winner(o, e) == w
    ensures IsHeir(o, table, m, w, d)
  {
    var heirs := set c | c in m && c in table && c in o.candidates && Winner(o, c) == w;
    assert e in heirs;
    d := Sets.LeastElement(heirs);
    assert forall c | c in table && c in m && c in o.candidates && Winner(o, c) == w :: c in heirs;
  }

  lemma BindingsFollowTheirWord(
    o: Old, phraseOf: map<int, int>, now: Time, bindings: map<int, Binding>)
    requires Legal(o) && BindingsMerged(o, phraseOf, Losers(o), now, bindings)
    ensures BindingsDecided(o, phraseOf, {}, now, FollowWords(bindings, o.candidates - Losers(o)))
  {
    forall e | e in bindings
      ensures FollowWords(bindings, o.candidates - Losers(o))[e]
           == DecidedBinding(o, phraseOf, {}, now, e)
    {
      var c := o.exports[e].candidate;
      WordIsTheWinner(o, c);
      OneWinner(o, Winner(o, c), Winner(o, c));
    }
  }

  /** Once every loser is merged, rows of a card belong to its winner. */
  lemma WordIsTheWinner(o: Old, c: int)
    requires c in o.candidates
    ensures Rebound(o, Losers(o), c) == Winner(o, c)
    ensures Legal(o) ==> MergedPhrase(o, Losers(o), c).word == Winner(o, c)
  {
  }

  // ── Skipped originals ───────────────────────────────────────────────

  lemma SameWinnerIffSameWord(o: Old, a: int, b: int)
    requires a in o.candidates && b in o.candidates
    ensures Winner(o, a) == Winner(o, b) <==> SameWord(o, a, b)
  {
    if SameWord(o, a, b) {
      OneWinner(o, Winner(o, a), b);
    }
  }

  lemma HoldsOn(o: Old, e: int, d: int, c: int)
    requires Legal(o) && Holds(o, e, d) && Holds(o, d, c) && !IsWinner(o, e) && !IsWinner(o, d)
    ensures Holds(o, e, c) && e < d
  {
  }

  /** The phrase of a card holds the place of a merged card's phrase, if any does, without
      another holding its own. */
  lemma FirstHolder(o: Old, c: int) returns (d: int)
    requires Legal(o) && IsLoser(o, c) && IsHeld(o, c)
    ensures Holds(o, d, c)
    ensures IsLoser(o, d) ==> IsReleased(o, d) && d < c && !IsHeld(o, d)
  {
    hide Legal, FirstPhrase, IsReleased, Outranks;
    var holders := set d | d in o.candidates && Holds(o, d, c);
    var some :| Holds(o, some, c);
    assert some in holders;
    d := Sets.LeastElement(holders);
    assert forall x | Holds(o, x, c) :: x in holders;
    if IsWinner(o, d) {
      OneWinner(o, d, d);
    } else if IsHeld(o, d) {
      var e :| Holds(o, e, d);
      if !IsWinner(o, e) {
        HoldsOn(o, e, d, c);
        assert false;
      }
      OneWinner(o, e, c);
      OneWinner(o, e, e);
      d := e;
    }
  }

  /** Whether the phrase of a card holds its place, once the cards `done` have been seen. */
  ghost predicate Stands(o: Old, done: set<int>, d: int)
    requires Legal(o) && d in o.candidates
  {
    && FirstPhrase(o, d).origin.Auto?
    && (IsLoser(o, d) ==> d in done && IsReleased(o, d) && !IsHeld(o, d))
  }

  lemma PhraseStands(o: Old, done: set<int>, d: int)
    requires Legal(o) && d in o.candidates
    ensures var phrase := ReleasedPhrase(o, done, d);
            && phrase.word == Winner(o, d)
            && phrase.key == FirstPhrase(o, d).key
            && (phrase.origin.Auto? <==> Stands(o, done, d))
            && (phrase.origin.Example? <==> FirstPhrase(o, d).origin.Example?)
            && (phrase.origin.Example? ==> phrase.shownBy.Some?)
            && (FirstPhrase(o, d).origin.Auto? ==> phrase.key.Some?)
            && (phrase.origin.Manual? ==> FirstPhrase(o, d).origin.Auto?)
            && (d !in done && FirstPhrase(o, d).origin.Auto? ==>
                  phrase.origin == if IsLoser(o, d) then Origin.Manual else Origin.Auto)
  {
  }

  lemma ReleasedRows(o: Old, done: set<int>, c: int, d: int)
    requires Legal(o) && c in o.candidates && d in o.candidates
    requires IsReleased(o, c) && c !in done
    ensures ReleasedPhrase(o, done + {c}, d) ==
            var phrase := ReleasedPhrase(o, done, d);
            if d == c then
              phrase.(choice := Unmarked, shownBy := None,
                      origin := if IsLoser(o, c) && IsHeld(o, c) then Origin.Manual else Origin.Auto)
            else if phrase.origin.Example? && SameWord(o, c, d) then
              phrase.(replacesSelection := true)
            else phrase
  {
    hide Legal, HasExample, IsHeld, IsWinner;
  }

  lemma TakenAreHeld(
    o: Old, phraseOf: map<int, int>, cardOf: map<int, int>, done: set<int>, c: int,
    phrases: map<int, Phrase>)
    requires Legal(o) && Numbered(o.candidates.Keys, phraseOf, cardOf)
    requires IsLoser(o, c) && FirstPhrase(o, c).origin.Auto?
    requires forall d | d in o.candidates :: d in done <==> d < c
    requires forall p | p in phrases :: p in cardOf
    requires forall p | p in cardOf ::
               && p in phrases
               && phrases[p].word == Winner(o, cardOf[p])
               && phrases[p].key == FirstPhrase(o, cardOf[p]).key
               && (FirstPhrase(o, cardOf[p]).origin.Auto? ==> phrases[p].key.Some?)
               && (cardOf[p] != c ==> (phrases[p].origin.Auto? <==> Stands(o, done, cardOf[p])))
    ensures IsTaken(phrases, phraseOf[c]) ==> IsHeld(o, c)
  {
    hide Legal, FirstPhrase, IsReleased, IsWinner, HasExample, IsHeld, Holds, Winner;
    var p := phraseOf[c];
    if IsTaken(phrases, p) {
      var q :| q in phrases && phrases[q].word == phrases[p].word && phrases[q].origin.Auto?
               && q != p && phrases[q].key.Some? && phrases[q].key == phrases[p].key;
      var d := cardOf[q];
      StandingHolds(o, done, c, d);
      HolderHolds(o, d, c);
    }
  }

  /** A phrase that stands at the place of a merged card's holds it. */
  lemma StandingHolds(o: Old, done: set<int>, c: int, d: int)
    requires Legal(o) && IsLoser(o, c) && d in o.candidates && d != c
    requires forall e | e in o.candidates :: e in done <==> e < c
    requires Stands(o, done, d) && Winner(o, d) == Winner(o, c)
    requires FirstPhrase(o, d).key == FirstPhrase(o, c).key
    ensures Holds(o, d, c)
  {
    hide Legal, FirstPhrase, IsReleased, IsWinner, HasExample, IsHeld;
    SameWinnerIffSameWord(o, c, d);
    OneWinner(o, Winner(o, d), d);
  }

  lemma HolderHolds(o: Old, d: int, c: int)
    requires Legal(o) && Holds(o, d, c)
    ensures IsHeld(o, c)
  {
  }

  lemma HeldAreTaken(
    o: Old, phraseOf: map<int, int>, cardOf: map<int, int>, done: set<int>, c: int,
    phrases: map<int, Phrase>)
    requires Legal(o) && Numbered(o.candidates.Keys, phraseOf, cardOf)
    requires IsLoser(o, c) && FirstPhrase(o, c).origin.Auto?
    requires forall d | d in o.candidates :: d in done <==> d < c
    requires forall p | p in phrases :: p in cardOf
    requires forall p | p in cardOf ::
               && p in phrases
               && phrases[p].word == Winner(o, cardOf[p])
               && phrases[p].key == FirstPhrase(o, cardOf[p]).key
               && (FirstPhrase(o, cardOf[p]).origin.Auto? ==> phrases[p].key.Some?)
               && (cardOf[p] != c ==> (phrases[p].origin.Auto? <==> Stands(o, done, cardOf[p])))
    ensures IsHeld(o, c) ==> IsTaken(phrases, phraseOf[c])
  {
    hide Legal, FirstPhrase, IsReleased, IsWinner, HasExample;
    if IsHeld(o, c) {
      var d := FirstHolder(o, c);
      var q := phraseOf[d];
      SameWinnerIffSameWord(o, c, d);
      assert cardOf[q] == d;
      assert Stands(o, done, d);
      hide IsHeld, Stands, SameWord;
    }
  }

  /** In the table, a phrase of the word holds the place of card `c` exactly when one may. */
  lemma TakenIffHeld(
    o: Old, phraseOf: map<int, int>, cardOf: map<int, int>, done: set<int>, c: int,
    phrases: map<int, Phrase>)
    requires Legal(o) && Numbered(o.candidates.Keys, phraseOf, cardOf)
    requires IsLoser(o, c) && FirstPhrase(o, c).origin.Auto?
    requires forall d | d in o.candidates :: d in done <==> d < c
    requires forall p | p in phrases :: p in cardOf
    requires forall p | p in cardOf ::
               && p in phrases
               && phrases[p].word == Winner(o, cardOf[p])
               && phrases[p].key == FirstPhrase(o, cardOf[p]).key
               && (FirstPhrase(o, cardOf[p]).origin.Auto? ==> phrases[p].key.Some?)
               && (cardOf[p] != c ==> (phrases[p].origin.Auto? <==> Stands(o, done, cardOf[p])))
    ensures IsTaken(phrases, phraseOf[c]) <==> IsHeld(o, c)
  {
    hide Legal, FirstPhrase, IsReleased, IsWinner, IsHeld, IsTaken, Stands, Numbered;
    TakenAreHeld(o, phraseOf, cardOf, done, c, phrases);
    HeldAreTaken(o, phraseOf, cardOf, done, c, phrases);
  }

  lemma OriginalIffReleased(
    o: Old, phraseOf: map<int, int>, cardOf: map<int, int>, done: set<int>, c: int,
    phrases: map<int, Phrase>)
    requires Legal(o) && Numbered(o.candidates.Keys, phraseOf, cardOf)
    requires c in o.candidates && c !in done && o.candidates[c].status.Skip?
    requires PhrasesReleased(o, cardOf, done, phrases)
    ensures IsOriginal(phrases, phraseOf[c]) <==> IsReleased(o, c)
  {
    hide Legal, FirstPhrase, ReleasedPhrase, IsHeld, IsWinner;
    var p := phraseOf[c];
    PhraseStands(o, done, c);
    if IsOriginal(phrases, p) {
      var q :| q in phrases && phrases[q].word == phrases[p].word && phrases[q].origin.Example? && q != p;
      PhraseStands(o, done, cardOf[q]);
      SameWinnerIffSameWord(o, c, cardOf[q]);
    }
    if IsReleased(o, c) {
      var e :| SameWord(o, c, e) && FirstPhrase(o, e).origin.Example?;
      PhraseStands(o, done, e);
      SameWinnerIffSameWord(o, c, e);
      var q := phraseOf[e];
      assert cardOf[q] == e;
      assert phrases[q].origin.Example?;
      assert phrases[q].word == phrases[p].word;
      assert q != p;
    }
  }

  /** The table between the statements: every other phrase is as it ends. */
  lemma ReplacedRows(
    o: Old, phraseOf: map<int, int>, cardOf: map<int, int>, done: set<int>, c: int,
    phrases: map<int, Phrase>)
    requires Legal(o) && Numbered(o.candidates.Keys, phraseOf, cardOf)
    requires c in o.candidates && IsReleased(o, c) && c !in done
    requires PhrasesReleased(o, cardOf, done, phrases)
    requires phraseOf[c] in phrases
    ensures var replaced := ReplaceSelection(Unskip(phrases, phraseOf[c]), phraseOf[c]);
            && (forall q :: q in replaced <==> q in cardOf)
            && forall q | q in cardOf ::
                 && replaced[q].word == Winner(o, cardOf[q])
                 && replaced[q].key == FirstPhrase(o, cardOf[q]).key
                 && (FirstPhrase(o, cardOf[q]).origin.Auto? ==> replaced[q].key.Some?)
                 && (cardOf[q] != c ==>
                       && (replaced[q].origin.Auto? <==> Stands(o, done, cardOf[q]))
                       && replaced[q] == ReleasedPhrase(o, done + {c}, cardOf[q]))
  {
    hide Legal, FirstPhrase, ReleasedPhrase, Stands, HasExample, IsHeld, IsWinner;
    var p := phraseOf[c];
    var replaced := ReplaceSelection(Unskip(phrases, p), p);
    PhraseStands(o, done, c);
    forall q | q in cardOf
      ensures replaced[q].word == Winner(o, cardOf[q])
      ensures replaced[q].key == FirstPhrase(o, cardOf[q]).key
      ensures FirstPhrase(o, cardOf[q]).origin.Auto? ==> replaced[q].key.Some?
      ensures cardOf[q] != c ==> (replaced[q].origin.Auto? <==> Stands(o, done, cardOf[q]))
      ensures cardOf[q] != c ==> replaced[q] == ReleasedPhrase(o, done + {c}, cardOf[q])
    {
      PhraseStands(o, done, cardOf[q]);
      SameWinnerIffSameWord(o, c, cardOf[q]);
      ReleasedRows(o, done, c, cardOf[q]);
    }
  }

  lemma OneCardReleased(
    o: Old, phraseOf: map<int, int>, cardOf: map<int, int>, done: set<int>, c: int,
    phrases: map<int, Phrase>)
    requires Legal(o) && Numbered(o.candidates.Keys, phraseOf, cardOf)
    requires c in o.candidates && IsReleased(o, c)
    requires forall d | d in o.candidates :: d in done <==> d < c
    requires PhrasesReleased(o, cardOf, done, phrases)
    requires phraseOf[c] in phrases
    ensures PhrasesReleased(o, cardOf, done + {c}, Release(phrases, phraseOf[c]))
  {
    hide Legal, FirstPhrase, ReleasedPhrase, Stands, HasExample, IsHeld, IsWinner, IsTaken, SameWord,
         ReplaceSelection;
    var p := phraseOf[c];
    var replaced := ReplaceSelection(Unskip(phrases, p), p);
    ReplacedRows(o, phraseOf, cardOf, done, c, phrases);
    var released := Release(phrases, p);
    ReleasedRow(o, phraseOf, cardOf, done, c, phrases, replaced);
    forall q | q in cardOf
      ensures cardOf[q] in o.candidates && released[q] == ReleasedPhrase(o, done + {c}, cardOf[q])
    {
      if q != p {
        assert released[q] == replaced[q] && cardOf[q] != c;
      }
    }
  }

  lemma ReleasedRow(
    o: Old, phraseOf: map<int, int>, cardOf: map<int, int>, done: set<int>, c: int,
    phrases: map<int, Phrase>, replaced: map<int, Phrase>)
    requires Legal(o) && Numbered(o.candidates.Keys, phraseOf, cardOf)
    requires c in o.candidates && IsReleased(o, c)
    requires forall d | d in o.candidates :: d in done <==> d < c
    requires PhrasesReleased(o, cardOf, done, phrases)
    requires var p := phraseOf[c];
             p in phrases && replaced == ReplaceSelection(Unskip(phrases, p), p)
    ensures TakeBackPlace(replaced, phraseOf[c])[phraseOf[c]] == ReleasedPhrase(o, done + {c}, c)
  {
    hide Legal, FirstPhrase, ReleasedPhrase, Stands, HasExample, IsHeld, IsWinner, IsTaken, SameWord;
    if IsLoser(o, c) {
      ReplacedRows(o, phraseOf, cardOf, done, c, phrases);
      TakenIffHeld(o, phraseOf, cardOf, done, c, replaced);
    }
    PhraseStands(o, done, c);
    ReleasedRows(o, done, c, c);
  }

  lemma CardNotReleased(
    o: Old, cardOf: map<int, int>, done: set<int>, c: int, phrases: map<int, Phrase>)
    requires Legal(o) && PhrasesReleased(o, cardOf, done, phrases)
    requires !IsReleased(o, c)
    ensures PhrasesReleased(o, cardOf, done + {c}, phrases)
  {
    forall q | q in cardOf
      ensures ReleasedPhrase(o, done + {c}, cardOf[q]) == ReleasedPhrase(o, done, cardOf[q])
    {
    }
  }

  // ── Decisions ───────────────────────────────────────────────────────

  lemma ReadyToRelease(o: Old, cardOf: map<int, int>, phrases: map<int, Phrase>)
    requires Legal(o) && PhrasesMerged(o, cardOf, Losers(o), phrases)
    ensures PhrasesReleased(o, cardOf, {}, phrases)
  {
  }

  lemma ReadyToDecide(
    o: Old, cardOf: map<int, int>, phrases: map<int, Phrase>, candidates: map<int, Card>)
    requires Legal(o) && PhrasesReleased(o, cardOf, o.candidates.Keys, phrases)
    requires candidates == o.candidates - Losers(o)
    ensures PhrasesDecided(o, cardOf, {}, phrases)
    ensures CandidatesDecided(o, {}, candidates)
  {
  }

  function SetChoice(phrases: map<int, Phrase>, p: int, choice: Option<Choice>): map<int, Phrase>
    requires p in phrases
  {
    if choice.Some? then phrases[p := phrases[p].(choice := choice.value)] else phrases
  }

  lemma PhraseDecided(
    o: Old, phraseOf: map<int, int>, cardOf: map<int, int>, won: set<int>, w: int,
    phrases: map<int, Phrase>)
    requires Legal(o) && Numbered(o.candidates.Keys, phraseOf, cardOf)
    requires w in o.candidates && w !in won && phraseOf[w] in phrases
    requires PhrasesDecided(o, cardOf, won, phrases)
    ensures PhrasesDecided(o, cardOf, won + {w}, SetChoice(phrases, phraseOf[w], Decision(o, w)))
  {
    hide Legal, ReleasedPhrase, Decision;
    var decided := SetChoice(phrases, phraseOf[w], Decision(o, w));
    forall q | q in cardOf
      ensures q in decided && decided[q] == DecidedPhrase(o, won + {w}, cardOf[q])
    {
      assert q != phraseOf[w] ==> cardOf[q] != w;
    }
  }

  lemma CandidateDecided(o: Old, won: set<int>, w: int, candidates: map<int, Card>)
    requires w in candidates && CandidatesDecided(o, won, candidates)
    requires w !in won
    ensures CandidatesDecided(
              o, won + {w}, candidates[w := candidates[w].(status := StatusOf(o, w))])
  {
  }

  lemma BindingsOfWordDecided(
    o: Old, phraseOf: map<int, int>, cardOf: map<int, int>, won: set<int>, w: int, now: Time,
    bindings: map<int, Binding>, active: Option<int>)
    requires Legal(o) && Numbered(o.candidates.Keys, phraseOf, cardOf)
    requires w in o.candidates && !IsLoser(o, w) && w !in won
    requires BindingsDecided(o, phraseOf, won, now, bindings)
    requires active == if Decision(o, w) == Some(Choice.Known) && Exported(o, w)
                       then Some(phraseOf[w]) else None
    ensures BindingsDecided(o, phraseOf, won + {w}, now, ReleaseOthers(bindings, w, active, now))
  {
    hide Decision, IsWinner, SameWord;
    var released := ReleaseOthers(bindings, w, active, now);
    forall e | e in bindings
      ensures released[e] == DecidedBinding(o, phraseOf, won + {w}, now, e)
    {
      var c := o.exports[e].candidate;
      WordIsTheWinner(o, c);
      assert Exported(o, c);
      assert phraseOf[c] == phraseOf[w] <==> c == w;
    }
  }

  lemma ChoicesTaken(
    o: Old, phraseOf: map<int, int>, cardOf: map<int, int>, now: Time,
    phrases: map<int, Phrase>, bindings: map<int, Binding>)
    requires Legal(o) && Numbered(o.candidates.Keys, phraseOf, cardOf)
    requires PhrasesDecided(o, cardOf, Winners(o), phrases)
    requires BindingsDecided(o, phraseOf, Winners(o), now, bindings)
    ensures BindingsFinal(o, phraseOf, now, TakeChoices(bindings, phrases))
  {
    hide DecidedPhrase, IsWinner, SameWord;
    forall e | e in bindings
      ensures TakeChoices(bindings, phrases)[e] == FinalBinding(o, phraseOf, now, e)
    {
      var c := o.exports[e].candidate;
      var p := phraseOf[c];
      assert p in cardOf && cardOf[p] == c;
      assert phrases[p] == FinalPhrase(o, c);
    }
  }
}
