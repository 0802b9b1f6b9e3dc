/** The rows revision 0049 leaves, each in terms of the old rows alone and of where cards ended. */
module WordsAndPhrasesRows {
  import opened OccurrenceKeys
  import opened Schema
  import opened WordsAndPhrases
  import opened WordsAndPhrasesLaws
  import opened WordsAndPhrasesSteps

  // ── Words ───────────────────────────────────────────────────────────

  /** Cards of one lemma: of one source, alike in lower case, and both phrasal verbs or neither. */
  predicate AreAlike(o: Old, c: int, d: int) {
    && c in o.candidates && d in o.candidates
    && o.candidates[c].source == o.candidates[d].source
    && Lower(o.candidates[c].spelling) == Lower(o.candidates[d].spelling)
    && o.candidates[c].phrasal == o.candidates[d].phrasal
  }

  lemma AlikeIsSameWord(o: Old, c: int, d: int)
    ensures AreAlike(o, c, d) <==> SameWord(o, c, d)
  {
  }

  /** The word the phrase of a card belongs to; 0 if there is none. */
  function WordOfCard(t: Tables, c: int): int {
    if c in t.cardPhrase && t.cardPhrase[c] in t.phrases then t.phrases[t.cardPhrase[c]].word else 0
  }

  lemma WordOfCardIs(o: Old, now: Time, t: Tables, cardOf: map<int, int>, c: int)
    requires Legal(o) && IsUpgrade(o, now, t, cardOf) && c in o.candidates
    ensures c in t.cardPhrase && t.cardPhrase[c] in t.phrases
    ensures WordOfCard(t, c) == Winner(o, c)
    ensures WordOfCard(t, c) == c <==> !IsLoser(o, c)
  {
    hide Legal, IsUpgrade, IsWinner, SameWord;
    PhrasesAreTheCards(o, now, t, cardOf);
  }

  /** Cards end in one word if and only if they are of one lemma. */
  lemma MergedIfAlike(o: Old, now: Time, t: Tables, cardOf: map<int, int>, c: int, d: int)
    requires Legal(o) && IsUpgrade(o, now, t, cardOf) && c in o.candidates && d in o.candidates
    ensures WordOfCard(t, c) == WordOfCard(t, d) <==> AreAlike(o, c, d)
    ensures AreAlike(o, c, WordOfCard(t, c)) && WordOfCard(t, c) in t.candidates
  {
    WordOfCardIs(o, now, t, cardOf, c);
    WordOfCardIs(o, now, t, cardOf, d);
    WordsAreTheWinners(o, now, t, cardOf);
    SameWinnerIffSameWord(o, c, d);
    AlikeIsSameWord(o, c, d);
    AlikeIsSameWord(o, c, Winner(o, c));
    OneWinner(o, Winner(o, c), Winner(o, c));
    hide Legal, IsUpgrade;
  }

  /** Whether card `w` goes before card `d` of its lemma: exported before not; of two exported
      the one exported later; else decided before not, Known before Learn, the newer card. */
  ghost predicate GoesFirst(o: Old, w: int, d: int)
    requires w in o.candidates && d in o.candidates
  {
    var a, b := o.candidates[w].status, o.candidates[d].status;
    if exists e :: e in o.exports && o.exports[e].candidate == d then
      exists e, f ::
        && e in o.exports && o.exports[e].candidate == d
        && f in o.exports && o.exports[f].candidate == w && e < f
    else
      || (exists e :: e in o.exports && o.exports[e].candidate == w)
      || (&& ((b.Learn? || b.Known?) ==> (a.Learn? || a.Known?))
          && ((b.Learn? || b.Known?) == (a.Learn? || a.Known?) ==> (b.Known? ==> a.Known?))
          && ((b.Learn? || b.Known?) == (a.Learn? || a.Known?) && b.Known? == a.Known? ==> d < w))
  }

  /** The word a card ends in goes before every other card of its lemma. */
  lemma WordsGoFirst(o: Old, now: Time, t: Tables, cardOf: map<int, int>, c: int, d: int)
    requires Legal(o) && IsUpgrade(o, now, t, cardOf)
    requires AreAlike(o, c, d) && d != WordOfCard(t, c)
    ensures WordOfCard(t, c) in o.candidates && GoesFirst(o, WordOfCard(t, c), d)
  {
    IdsArePositive(o);
    hide IsUpgrade, Legal, GoesFirst, Outranks, IsWinner;
    WordOfCardIs(o, now, t, cardOf, c);
    AlikeIsSameWord(o, c, d);
    hide AreAlike, SameWord;
    WinnerOutranks(o, c, d);
    OutranksIsFirst(o, Winner(o, c), d);
  }

  lemma WinnerOutranks(o: Old, c: int, d: int)
    requires SameWord(o, c, d) && d != Winner(o, c)
    ensures d in o.candidates && Outranks(o, Winner(o, c), d)
  {
    hide Outranks;
    var w := Winner(o, c);
    assert SameWord(o, w, d);
  }

  lemma IdsArePositive(o: Old)
    requires Legal(o)
    ensures forall e | e in o.exports :: 0 < e
  {
  }

  lemma OutranksIsFirst(o: Old, w: int, d: int)
    requires w in o.candidates && d in o.candidates && Outranks(o, w, d)
    requires forall e | e in o.exports :: 0 < e
    ensures GoesFirst(o, w, d)
  {
    var a, b := RowOf(o, w), RowOf(o, d);
    assert IsRowOf(o, a) && IsRowOf(o, b);
    if Exported(o, d) && Exported(o, w) {
      assert b.latest in o.exports && a.latest in o.exports;
    }
  }

  predicate IsWordRow(o: Old, t: Tables, w: int)
    requires w in o.candidates && w in t.candidates
    requires w in t.cardPhrase && t.cardPhrase[w] in t.phrases
  {
    var choice := t.phrases[t.cardPhrase[w]].choice;
    var status :=
      if choice.Known? then Status.Known
      else if choice.Learn? || choice.Cloze? then Status.Learn
      else Status.Pending;
    t.candidates[w] == o.candidates[w].(status := status)
  }

  /** The words are the cards no card outdoes; a word keeps its row but for the status, which is
      that of the decision it has. */
  lemma WordsKeepTheirRows(o: Old, now: Time, t: Tables, cardOf: map<int, int>, w: int)
    requires Legal(o) && IsUpgrade(o, now, t, cardOf)
    ensures w in t.candidates <==> w in o.candidates && WordOfCard(t, w) == w
    ensures w in t.candidates ==> w in t.cardPhrase && t.cardPhrase[w] in t.phrases && IsWordRow(o, t, w)
  {
    WordsAreTheWinners(o, now, t, cardOf);
    if w in o.candidates {
      WordOfCardIs(o, now, t, cardOf, w);
      PhraseOfCardIs(o, now, t, cardOf, w);
      FinalPhraseIs(o, w);
    }
    hide Legal, IsUpgrade, FinalPhrase, FirstPhrase, IsWinner, Decision, IsReleased, Stands;
  }

  // ── Phrases ─────────────────────────────────────────────────────────

  predicate IsExampleCard(o: Old, c: int) {
    && c in o.candidates && o.candidates[c].source in o.roles
    && o.roles[o.candidates[c].source].Content? && o.candidates[c].text.position.None?
  }

  predicate IsOriginalCard(o: Old, c: int) {
    && c in o.candidates && o.candidates[c].source in o.roles
    && o.roles[o.candidates[c].source].Content? && o.candidates[c].text.position.Some?
  }

  /** Whether a card was skipped for an example of its lemma. */
  ghost predicate IsSkippedForExample(o: Old, c: int) {
    && IsOriginalCard(o, c) && o.candidates[c].status.Skip?
    && exists e :: AreAlike(o, c, e) && IsExampleCard(o, e)
  }

  /** Whether card `d` takes the place of the phrase of a merged card `c` of its word: as the
      word's own card, or as one before `c` that was skipped for an example. */
  ghost predicate TakesPlace(o: Old, t: Tables, d: int, c: int) {
    && AreAlike(o, c, d) && d != c && IsOriginalCard(o, d)
    && c in t.cardPhrase && t.cardPhrase[c] in t.phrases
    && d in t.cardPhrase && t.cardPhrase[d] in t.phrases
    && t.phrases[t.cardPhrase[d]].key == t.phrases[t.cardPhrase[c]].key
    && (t.phrases[t.cardPhrase[d]].word == d || (IsSkippedForExample(o, d) && d < c))
  }

  ghost predicate IsPlaceTaken(o: Old, t: Tables, c: int) {
    exists d :: TakesPlace(o, t, d, c)
  }

  /** Whether the choice of a card's phrase is as it should be: by the card's status, whether it
      was exported or had cloze markup, and the lists, if its word kept it; a skip stays but for
      cards skipped for an example. */
  ghost predicate IsChosenAsItShould(o: Old, t: Tables, c: int)
    requires c in o.candidates && c in t.cardPhrase && t.cardPhrase[c] in t.phrases
  {
    var card, phrase := o.candidates[c], t.phrases[t.cardPhrase[c]];
    var listed :=
      && (exists i :: 0 <= i < |o.known| && Lower(o.known[i].spelling) == Lower(card.spelling))
      && !(exists i :: 0 <= i < |o.unknown| && Lower(o.unknown[i].spelling) == Lower(card.spelling));
    var exported := exists e :: e in o.exports && o.exports[e].candidate == c;
    && (phrase.choice.Known? <==>
          phrase.word == c && listed && (card.status.Known? || (card.status.Learn? && exported)))
    && (phrase.choice.Cloze? <==> phrase.word == c && card.status.Learn? && !exported && c in o.clozes)
    && (phrase.choice.Learn? <==> phrase.word == c && card.status.Learn? && !exported && c !in o.clozes)
    && (phrase.choice.Skip? <==> card.status.Skip? && !IsSkippedForExample(o, c))
  }

  /** Whether a card's phrase ends shown, and of the origin and at the place it should: by the
      role of its source, its position and its status, and where its word ended. */
  ghost predicate EndsAsItShould(o: Old, t: Tables, c: int)
    requires c in o.candidates && c in t.cardPhrase && t.cardPhrase[c] in t.phrases
    requires ValidTarget(o.candidates[c].text.source)
  {
    var card, phrase := o.candidates[c], t.phrases[t.cardPhrase[c]];
    var released := IsSkippedForExample(o, c);
    && phrase.text == card.text
    && (phrase.shownBy.None? <==> released)
    && (phrase.shownBy == Some(Selection) <==> IsOriginalCard(o, c) && !released && phrase.word == c)
    && (phrase.origin.Example? <==> IsExampleCard(o, c))
    && (phrase.origin.Collected? <==> !IsExampleCard(o, c) && !IsOriginalCard(o, c))
    && (phrase.origin.Auto? <==>
          IsOriginalCard(o, c) && (phrase.word == c || (released && !IsPlaceTaken(o, t, c))))
    && (phrase.replacesSelection <==>
          IsExampleCard(o, c) && exists d :: AreAlike(o, c, d) && IsSkippedForExample(o, d))
    && (phrase.key.Some? <==> IsOriginalCard(o, c))
    && (phrase.key.Some? && card.text.position.Some? ==>
          var block := card.text.position.value.block;
          var lines := if card.source in o.documents && block in o.documents[card.source]
                       then o.documents[card.source][block] else [];
          IsOfFirstWord(lines, card.text.position.value, card.text.source, phrase.key.value))
  }

  /** A phrase as it is made, in terms of its card alone. */
  lemma FirstPhraseIs(o: Old, c: int)
    requires Legal(o) && c in o.candidates
    ensures var card, phrase := o.candidates[c], FirstPhrase(o, c);
            && (phrase.origin.Auto? <==> IsOriginalCard(o, c))
            && (phrase.origin.Example? <==> IsExampleCard(o, c))
            && (phrase.origin.Collected? <==> !IsExampleCard(o, c) && !IsOriginalCard(o, c))
            && (phrase.key.Some? <==> IsOriginalCard(o, c))
            && (phrase.key.Some? && card.text.position.Some? ==>
                  var block := card.text.position.value.block;
                  var lines := if card.source in o.documents && block in o.documents[card.source]
                               then o.documents[card.source][block] else [];
                  IsOfFirstWord(lines, card.text.position.value, card.text.source, phrase.key.value))
  {
    hide KeyOf, IsOfFirstWord;
    var card := o.candidates[c];
    if IsOriginalCard(o, c) {
      KeyIsOfTheFirstWord(card.text.position.value, card.text.source, LinesOfSource(o, card.source));
    }
  }

  lemma ReleasedIsSkippedForExample(o: Old, c: int)
    requires Legal(o) && c in o.candidates
    ensures IsReleased(o, c) <==> IsSkippedForExample(o, c)
  {
    hide Legal, FirstPhrase, SameWord, IsExampleCard, IsOriginalCard;
    FirstPhraseIs(o, c);
    forall e | SameWord(o, c, e)
      ensures e in o.candidates
      ensures FirstPhrase(o, e).origin.Example? <==> IsExampleCard(o, e)
    {
      OfWordIsACard(o, c, e);
      FirstPhraseIs(o, e);
    }
    forall e
      ensures AreAlike(o, c, e) <==> SameWord(o, c, e)
    {
      AlikeIsSameWord(o, c, e);
    }
    hide AreAlike;
  }

  lemma OfWordIsACard(o: Old, c: int, e: int)
    requires SameWord(o, c, e)
    ensures e in o.candidates
  {
  }

  lemma HoldsIff(o: Old, now: Time, t: Tables, cardOf: map<int, int>, d: int, c: int)
    requires Legal(o) && IsUpgrade(o, now, t, cardOf)
    ensures Holds(o, d, c) <==> TakesPlace(o, t, d, c)
  {
    hide Legal, IsUpgrade, FirstPhrase, FinalPhrase, IsReleased, IsSkippedForExample, IsOriginalCard, IsWinner, Stands,
         Decision;
    if SameWord(o, c, d) {
      PhraseOfCardIs(o, now, t, cardOf, c);
      PhraseOfCardIs(o, now, t, cardOf, d);
      FinalPhraseIs(o, c);
      FinalPhraseIs(o, d);
      FirstPhraseIs(o, d);
      ReleasedIsSkippedForExample(o, d);
      WinnersAreNoLosers(o, d);
    }
  }

  lemma HeldIsTaken(o: Old, now: Time, t: Tables, cardOf: map<int, int>, c: int)
    requires Legal(o) && IsUpgrade(o, now, t, cardOf)
    ensures IsHeld(o, c) <==> IsPlaceTaken(o, t, c)
  {
    hide Legal, IsUpgrade, Holds, TakesPlace;
    forall d
      ensures Holds(o, d, c) <==> TakesPlace(o, t, d, c)
    {
      HoldsIff(o, now, t, cardOf, d, c);
    }
  }

  lemma FinalChoiceAndShown(o: Old, c: int)
    requires Legal(o) && c in o.candidates
    ensures var phrase := FinalPhrase(o, c);
            && (phrase.choice.Skip? <==> o.candidates[c].status.Skip? && !IsReleased(o, c))
            && (phrase.shownBy == Some(Selection) <==>
                  FirstPhrase(o, c).origin.Auto? && !IsReleased(o, c) && !IsLoser(o, c))
            && (phrase.origin.Collected? <==> FirstPhrase(o, c).origin.Collected?)
  {
    hide HasExample, IsHeld, IsWinner, SameWord, IsListed, Exported;
  }

  lemma ReplacesIfSkippedFor(o: Old, c: int)
    requires Legal(o) && c in o.candidates
    ensures FinalPhrase(o, c).replacesSelection <==>
              IsExampleCard(o, c) && exists d :: AreAlike(o, c, d) && IsSkippedForExample(o, d)
  {
    ReplacesIffReleased(o, c);
    FirstPhraseIs(o, c);
    hide Legal, FirstPhrase, FinalPhrase, IsReleased, IsSkippedForExample, IsExampleCard, IsOriginalCard;
    forall d
      ensures IsReleased(o, d) && SameWord(o, c, d) <==> AreAlike(o, c, d) && IsSkippedForExample(o, d)
    {
      AlikeIsSameWord(o, c, d);
      if d in o.candidates {
        ReleasedIsSkippedForExample(o, d);
      } else {
        OnlyCardsAreReleased(o, d);
      }
    }
    hide AreAlike, SameWord;
  }

  lemma OnlyCardsAreReleased(o: Old, d: int)
    requires Legal(o) && d !in o.candidates
    ensures !IsReleased(o, d) && !IsSkippedForExample(o, d)
  {
  }

  /** Every phrase ends shown, of the origin and at the place its old card says, with its text. */
  lemma PhrasesEndAsTheyShould(o: Old, now: Time, t: Tables, cardOf: map<int, int>, c: int)
    requires Legal(o) && IsUpgrade(o, now, t, cardOf) && c in o.candidates
    ensures ValidTarget(o.candidates[c].text.source)
    ensures c in t.cardPhrase && t.cardPhrase[c] in t.phrases && EndsAsItShould(o, t, c)
  {
    assert ValidTarget(o.candidates[c].text.source);
    hide Legal, IsUpgrade, FirstPhrase, FinalPhrase, IsReleased, IsSkippedForExample, IsOriginalCard, IsExampleCard,
         IsWinner, Decision, IsHeld, IsPlaceTaken, IsOfFirstWord, ValidTarget, AreAlike;
    PhraseOfCardIs(o, now, t, cardOf, c);
    FinalPhraseIs(o, c);
    FinalChoiceAndShown(o, c);
    FirstPhraseIs(o, c);
    ReplacesIfSkippedFor(o, c);
    ReleasedIsSkippedForExample(o, c);
    HeldIsTaken(o, now, t, cardOf, c);
  }

  lemma ListedIs(o: Old, c: int)
    requires c in o.candidates
    ensures IsListed(o, Lower(o.candidates[c].spelling)) <==>
              && (exists i :: 0 <= i < |o.known| && Lower(o.known[i].spelling) == Lower(o.candidates[c].spelling))
              && !(exists i :: 0 <= i < |o.unknown| && Lower(o.unknown[i].spelling) == Lower(o.candidates[c].spelling))
    ensures Exported(o, c) <==> exists e :: e in o.exports && o.exports[e].candidate == c
  {
  }

  /** Every phrase ends with the choice the old rows say: a decision of the card its word kept,
      a skip, or none. */
  lemma PhrasesAreChosenAsTheyShould(o: Old, now: Time, t: Tables, cardOf: map<int, int>, c: int)
    requires Legal(o) && IsUpgrade(o, now, t, cardOf) && c in o.candidates
    ensures c in t.cardPhrase && t.cardPhrase[c] in t.phrases && IsChosenAsItShould(o, t, c)
  {
    hide Legal, IsUpgrade, FirstPhrase, FinalPhrase, IsReleased, IsSkippedForExample, IsWinner, IsListed, Exported,
         Lower;
    PhraseOfCardIs(o, now, t, cardOf, c);
    FinalChoiceAndShown(o, c);
    ReleasedIsSkippedForExample(o, c);
    WhichCardsDecide(o, now, t, cardOf, c);
    WordOfCardIs(o, now, t, cardOf, c);
    WinnersAreNoLosers(o, c);
    ListedIs(o, c);
  }

  // ── Rows about cards ────────────────────────────────────────────────

  /** What a job is about: a word's phrase, or the word. */
  predicate IsAboutPhrase(jobType: JobType) {
    jobType.Polish? || jobType.Meaning? || jobType.Media? || jobType.Tts?
  }

  /** A job of a card is about the card's word, and about the card's phrase if its type is. */
  predicate IsJobRow(o: Old, t: Tables, j: int)
    requires j in o.jobs && j in t.jobs
  {
    var job := o.jobs[j];
    if job.candidate.None? then t.jobs[j] == job
    else
      && job.candidate.value in t.cardPhrase
      && t.jobs[j] == Job(
           job.jobType, Some(WordOfCard(t, job.candidate.value)),
           if IsAboutPhrase(job.jobType) then Some(t.cardPhrase[job.candidate.value]) else job.phrase)
  }

  lemma JobsAre(o: Old, now: Time, t: Tables, cardOf: map<int, int>, j: int)
    requires Legal(o) && IsUpgrade(o, now, t, cardOf)
    ensures j in t.jobs <==> j in o.jobs
    ensures j in t.jobs ==> IsJobRow(o, t, j)
  {
    hide IsUpgrade, Legal, IsWinner, SameWord, WordOfCard;
    JobRow(o, now, t, cardOf, j);
    if j in o.jobs && o.jobs[j].candidate.Some? {
      var c := o.jobs[j].candidate.value;
      WordOfCardIs(o, now, t, cardOf, c);
      WordIsTheWinner(o, c);
    }
    hide Winner, Losers;
  }

  lemma JobRow(o: Old, now: Time, t: Tables, cardOf: map<int, int>, j: int)
    requires Legal(o) && IsUpgrade(o, now, t, cardOf)
    ensures j in t.jobs <==> j in o.jobs
    ensures j in t.jobs ==> t.jobs[j] == MergedJob(o, t.cardPhrase, Losers(o), o.jobs[j])
    ensures j in t.jobs && o.jobs[j].candidate.Some? ==> o.jobs[j].candidate.value in o.candidates
  {
    hide PhrasesDecided, CandidatesDecided, ReportsMerged, BindingsFinal, Inherited, PronunciationsFinal, Rekeyed,
         Numbered, MergedJob, Losers;
  }

  lemma ReportsAre(o: Old, now: Time, t: Tables, cardOf: map<int, int>, r: int)
    requires Legal(o) && IsUpgrade(o, now, t, cardOf)
    ensures r in t.reports <==> r in o.reports
    ensures r in t.reports && o.reports[r].candidate in t.cardPhrase ==>
              var c := o.reports[r].candidate;
              t.reports[r] == Report(WordOfCard(t, c), Some(t.cardPhrase[c]))
    ensures r in t.reports && o.reports[r].candidate !in t.cardPhrase ==>
              t.reports[r] == Report(o.reports[r].candidate, None)
  {
    assert ReportsMerged(o, t.cardPhrase, Losers(o), t.reports);
    assert t.cardPhrase.Keys == o.candidates.Keys;
    if r in o.reports && o.reports[r].candidate in o.candidates {
      var c := o.reports[r].candidate;
      WordOfCardIs(o, now, t, cardOf, c);
      WordIsTheWinner(o, c);
    }
    hide IsUpgrade, Legal, IsWinner, SameWord, Winner, WordOfCard;
  }

  /** The binding an export record becomes: of its card's word and phrase, under the lemma and
      part of speech of the word; a cloze if its card had cloze markup; with the choice of its
      phrase, if that is a decision; active if its phrase ends Known, else released at once. */
  function BindingOfExport(o: Old, now: Time, t: Tables, e: int): Binding
    requires e in o.exports && o.exports[e].candidate in t.cardPhrase
    requires t.cardPhrase[o.exports[e].candidate] in t.phrases
    requires WordOfCard(t, o.exports[e].candidate) in t.candidates
  {
    var c := o.exports[e].candidate;
    var word, choice := t.candidates[WordOfCard(t, c)], t.phrases[t.cardPhrase[c]].choice;
    var kind := if c in o.clozes then Choice.Cloze else Choice.Learn;
    Binding(
      Some(WordOfCard(t, c)), Some(t.cardPhrase[c]), o.exports[e].note, word.spelling, word.pos, kind,
      Some(if choice.Learn? || choice.Cloze? || choice.Known? then choice else kind), now,
      if choice.Known? then None else Some(now))
  }

  lemma BindingsAre(o: Old, now: Time, t: Tables, cardOf: map<int, int>, e: int)
    requires Legal(o) && IsUpgrade(o, now, t, cardOf)
    ensures e in t.bindings <==> e in o.exports
    ensures e in t.bindings ==>
              && o.exports[e].candidate in t.cardPhrase && t.cardPhrase[o.exports[e].candidate] in t.phrases
              && WordOfCard(t, o.exports[e].candidate) in t.candidates
              && t.bindings[e] == BindingOfExport(o, now, t, e)
  {
    BindingRow(o, now, t, e);
    if e in o.exports {
      var c := o.exports[e].candidate;
      WordOfCardIs(o, now, t, cardOf, c);
      WordIsTheWinner(o, c);
      MergedIfAlike(o, now, t, cardOf, c, c);
      WordsKeepTheirRows(o, now, t, cardOf, Winner(o, c));
      PhraseOfCardIs(o, now, t, cardOf, c);
      FinalPhraseIs(o, c);
      FinalIsKnownIfActive(o, c);
    }
    hide IsUpgrade, Legal, IsWinner, SameWord, FinalPhrase, FirstPhrase, StaysActive, Winners, Stands, Decision,
         IsReleased;
  }

  lemma BindingRow(o: Old, now: Time, t: Tables, e: int)
    requires Legal(o) && BindingsFinal(o, t.cardPhrase, now, t.bindings)
    ensures e in t.bindings <==> e in o.exports
    ensures e in t.bindings ==> t.bindings[e] == FinalBinding(o, t.cardPhrase, now, e)
  {
    hide FinalBinding;
  }

  lemma FinalIsKnownIfActive(o: Old, c: int)
    requires Legal(o) && c in o.candidates
    ensures FinalPhrase(o, c).choice.Known? <==> StaysActive(o, c)
  {
    hide HasExample, IsHeld, IsWinner, SameWord, IsListed, Exported;
  }

  // ── Rows of words ───────────────────────────────────────────────────

  /** A card with a transcription. */
  predicate IsTranscribed(o: Old, c: int) {
    c in o.candidates && c in o.ipas && o.ipas[c] != ""
  }

  /** Whether the transcription of card `c` is the one its word gets: that of the word's decision,
      or without one there that of the card with the lowest phrase id. */
  ghost predicate IsTranscriptionOf(o: Old, t: Tables, w: int, c: int) {
    && AreAlike(o, w, c) && IsTranscribed(o, c) && c in t.cardPhrase && t.cardPhrase[c] in t.phrases
    && var choice := t.phrases[t.cardPhrase[c]].choice;
    && (choice.Learn? || choice.Cloze? || choice.Known?
        || forall d | AreAlike(o, w, d) && IsTranscribed(o, d) && d != c && d in t.cardPhrase
                      && t.cardPhrase[d] in t.phrases ::
             && t.cardPhrase[c] < t.cardPhrase[d]
             && t.phrases[t.cardPhrase[d]].choice !in {Choice.Learn, Choice.Cloze, Choice.Known})
  }

  /** Whether a card of a word is the one whose row of a per-word table the word keeps: its own,
      or if that has none the first of the others that has one. */
  ghost predicate IsKeptRowOf(o: Old, table: map<int, string>, w: int, c: int) {
    && AreAlike(o, w, c) && c in table
    && (c == w || (w !in table && forall d | AreAlike(o, w, d) && d in table :: c <= d))
  }

  /** A per-word table: a word has a row if and only if a card of its lemma had one. */
  ghost predicate KeepsRow(o: Old, table: map<int, string>, w: int, row: Option<string>) {
    match row
    case None => forall c :: AreAlike(o, w, c) ==> c !in table
    case Some(text) => exists c :: IsKeptRowOf(o, table, w, c) && table[c] == text
  }

  lemma RowsAreKept(o: Old, table: map<int, string>, rows: map<int, string>, w: int)
    requires table.Keys <= o.candidates.Keys && Inherited(o, table, Losers(o), rows)
    requires w in o.candidates && !IsLoser(o, w)
    ensures KeepsRow(o, table, w, RowOfTable(rows, w))
  {
    OneRowPerWord(o, table, rows, w);
    forall c
      ensures AreAlike(o, w, c) <==> SameWord(o, w, c)
    {
      AlikeIsSameWord(o, w, c);
    }
    assert AreAlike(o, w, w);
    hide Inherited, AreAlike, SameWord;
    if w in table {
      assert IsKeptRowOf(o, table, w, w);
    } else if w in rows {
      var c :| SameWord(o, w, c) && c in table && rows[w] == table[c]
               && forall d | SameWord(o, w, d) && d in table :: c <= d;
      assert IsKeptRowOf(o, table, w, c);
    }
  }

  lemma ImagesAre(o: Old, now: Time, t: Tables, cardOf: map<int, int>, w: int)
    requires Legal(o) && IsUpgrade(o, now, t, cardOf) && w in t.candidates
    ensures KeepsRow(o, o.images, w, if w in t.images then Some(t.images[w]) else None)
    ensures w in t.breakdowns <==> w in o.breakdowns
  {
    WordsAreTheWinners(o, now, t, cardOf);
    assert Inherited(o, o.images, Losers(o), t.images) && o.images.Keys <= o.candidates.Keys;
    assert t.breakdowns == o.breakdowns - Losers(o);
    hide Legal, IsUpgrade, Inherited;
    RowsAreKept(o, o.images, t.images, w);
    hide KeepsRow;
  }

  /** The results of a card are its phrase's. */
  lemma ResultsAre(o: Old, now: Time, t: Tables, cardOf: map<int, int>, c: int)
    requires Legal(o) && IsUpgrade(o, now, t, cardOf) && c in o.candidates
    ensures c in t.cardPhrase
    ensures RowOfTable(t.meanings, t.cardPhrase[c]) == RowOfTable(o.meanings, c)
    ensures RowOfTable(t.media, t.cardPhrase[c]) == RowOfTable(o.media, c)
    ensures RowOfTable(t.tts, t.cardPhrase[c]) == RowOfTable(o.tts, c)
    ensures RowOfTable(t.clozes, t.cardPhrase[c]) == RowOfTable(o.clozes, c)
    ensures forall p | p in t.meanings || p in t.media || p in t.tts || p in t.clozes :: p in t.phrases
  {
    hide Legal, DecidedPhrase, CandidatesDecided, JobsMerged, ReportsMerged, BindingsFinal, Inherited,
         PronunciationsFinal;
    var p := t.cardPhrase[c];
    assert p in cardOf && cardOf[p] == c;
  }

  /** Whether a word's transcription is the one that goes first; none if no card has any. */
  ghost predicate IsTranscription(o: Old, t: Tables, w: int, ipa: Option<string>) {
    match ipa
    case None => forall c :: AreAlike(o, w, c) ==> !IsTranscribed(o, c)
    case Some(text) => exists c :: IsTranscriptionOf(o, t, w, c) && o.ipas[c] == text
  }

  lemma SameInOldTerms(o: Old, w: int)
    ensures forall c :: AreAlike(o, w, c) <==> SameWord(o, w, c)
    ensures forall c :: HasIpa(o, c) <==> IsTranscribed(o, c)
  {
    forall c
      ensures AreAlike(o, w, c) <==> SameWord(o, w, c)
    {
      AlikeIsSameWord(o, w, c);
    }
  }

  /** A word's pronunciation: there is a row if and only if a card of its lemma had a sound or a
      transcription; it has the sound kept, and the transcription that goes first. */
  lemma PronunciationsAre(o: Old, now: Time, t: Tables, cardOf: map<int, int>, w: int)
    requires Legal(o) && IsUpgrade(o, now, t, cardOf) && w in t.candidates
    ensures w in t.pronunciations <==>
              exists c :: AreAlike(o, w, c) && (c in o.pronunciations || IsTranscribed(o, c))
    ensures w in t.pronunciations ==> KeepsRow(o, o.pronunciations, w, t.pronunciations[w].sound)
    ensures w in t.pronunciations ==> IsTranscription(o, t, w, t.pronunciations[w].ipa)
  {
    hide Legal, IsUpgrade, Inherited, KeepsRow, IsTranscription, DecidedCard, IsPronunciationOf, AreAlike, SameWord,
         HasIpa, IsTranscribed, IpaIs;
    WordsAreTheWinners(o, now, t, cardOf);
    var sounds := SoundsLeft(o, now, t, cardOf);
    PronunciationOfWord(o, now, t, cardOf, w);
    SameInOldTerms(o, w);
    RowsAreKept(o, o.pronunciations, sounds, w);
    if w in t.pronunciations {
      TranscriptionIs(o, now, t, cardOf, w, t.pronunciations[w].ipa);
    }
  }

  lemma TranscriptionIs(o: Old, now: Time, t: Tables, cardOf: map<int, int>, w: int, ipa: Option<string>)
    requires Legal(o) && IsUpgrade(o, now, t, cardOf) && w in o.candidates && !IsLoser(o, w) && IpaIs(o, w, ipa)
    ensures IsTranscription(o, t, w, ipa)
  {
    hide Legal, IsUpgrade, AreAlike, SameWord, IsTranscribed, IpaBefore, IsTranscriptionOf;
    SomeTranscription(o, w);
    SameInOldTerms(o, w);
    if ipa.Some? {
      var c :| IsIpaOf(o, w, c) && o.ipas[c] == ipa.value;
      GoesFirstIs(o, now, t, cardOf, w, c);
    }
  }

  lemma DecidedBefore(t: Tables)
    ensures forall c :: IsDecisionCard(t, c) <==>
              && c in t.cardPhrase && t.cardPhrase[c] in t.phrases
              && t.phrases[t.cardPhrase[c]].choice in {Choice.Learn, Choice.Cloze, Choice.Known}
  {
  }

  lemma GoesFirstIs(o: Old, now: Time, t: Tables, cardOf: map<int, int>, w: int, c: int)
    requires Legal(o) && IsUpgrade(o, now, t, cardOf) && w in o.candidates && !IsLoser(o, w) && IsIpaOf(o, w, c)
    ensures IsTranscriptionOf(o, t, w, c)
  {
    hide Legal, IsUpgrade, IpaBefore, IsDecisionCard, IsWinner;
    SameWinnerIffSameWord(o, w, c);
    AlikeIsSameWord(o, w, c);
    PhraseOfCardIs(o, now, t, cardOf, c);
    forall d | AreAlike(o, w, d) && IsTranscribed(o, d) && d != c
      ensures GoesBefore(t, c, d)
    {
      AlikeIsSameWord(o, w, d);
      SameWinnerIffSameWord(o, w, d);
      BeforeIsBefore(o, now, t, cardOf, c, d);
    }
    DecidedBefore(t);
    hide AreAlike, SameWord, FinalPhrase, IsTranscribed, Winner;
  }
}
