/** Revision 0055, step by step, over the tables it updates in place. */
module BindingChoiceUpgrade {
  import opened Schema
  import opened Ranking
  import opened BindingChoice
  import WordMarks
  import Sets

  // ── The statements of a drop ────────────────────────────────────────

  function Unchoose(phrases: map<int, Phrase>, p: int): map<int, Phrase>
    requires p in phrases
  {
    phrases[p := phrases[p].(choice := Unmarked)]
  }

  predicate HasMarkedPhrase(phrases: map<int, Phrase>, w: int) {
    exists p :: p in phrases && phrases[p].word == w && !phrases[p].choice.Unmarked?
  }

  function ResetWord(words: map<int, Word>, phrases: map<int, Phrase>, w: int): map<int, Word>
    requires w in words
  {
    var word := words[w].(status := Status.Pending);
    words[w := if HasMarkedPhrase(phrases, w) then word else word.(studiedAt := None)]
  }

  function ReleaseActive(bindings: map<int, Binding>, p: int, now: Time): map<int, Binding> {
    map e | e in bindings ::
      if IsActiveOf(bindings[e], p) then bindings[e].(releasedAt := Some(now)) else bindings[e]
  }

  lemma OneDrop(t: Tables, now: Time, d: set<int>, p: int, s: Tables)
    requires p in t.phrases && t.phrases[p].word in t.words && p in s.phrases
    requires PhrasesDropped(t, d, s.phrases) && WordsDropped(t, d, s.words)
    requires BindingsDropped(t, now, d, s.bindings)
    ensures var phrases := Unchoose(s.phrases, p);
            && PhrasesDropped(t, d + {p}, phrases)
            && t.phrases[p].word in s.words
            && WordsDropped(t, d + {p}, ResetWord(s.words, phrases, t.phrases[p].word))
            && BindingsDropped(t, now, d + {p}, ReleaseActive(s.bindings, p, now))
  {
    var phrases := Unchoose(s.phrases, p);
    assert PhrasesDropped(t, d + {p}, phrases);
    WordsDrop(t, d, p, s.words, phrases);
    BindingsDrop(t, now, d, p, s.bindings);
  }

  lemma WordsDrop(t: Tables, d: set<int>, p: int, words: map<int, Word>, phrases: map<int, Phrase>)
    requires p in t.phrases && t.phrases[p].word in t.words
    requires WordsDropped(t, d, words) && PhrasesDropped(t, d + {p}, phrases)
    ensures t.phrases[p].word in words
    ensures WordsDropped(t, d + {p}, ResetWord(words, phrases, t.phrases[p].word))
  {
    var w := t.phrases[p].word;
    var reset := ResetWord(words, phrases, w);
    assert HasMarkedPhrase(phrases, w) <==> StillMarked(t, d + {p}, w) by {
      if HasMarkedPhrase(phrases, w) {
        var q :| q in phrases && phrases[q].word == w && !phrases[q].choice.Unmarked?;
        assert q in t.phrases && q !in d + {p};
      }
      if StillMarked(t, d + {p}, w) {
        var q :| q in t.phrases && q !in d + {p} && t.phrases[q].word == w && !t.phrases[q].choice.Unmarked?;
        assert q in phrases && phrases[q] == t.phrases[q];
      }
    }
    forall v | v in words
      ensures v in reset && reset[v] == DroppedWord(t, d + {p}, v)
    {
      if v == w {
        assert LostDecision(t, d + {p}, v);
        assert StillMarked(t, d + {p}, v) ==> StillMarked(t, d, v);
      } else {
        assert LostDecision(t, d + {p}, v) <==> LostDecision(t, d, v);
        assert StillMarked(t, d + {p}, v) <==> StillMarked(t, d, v);
      }
    }
  }

  lemma BindingsDrop(t: Tables, now: Time, d: set<int>, p: int, bindings: map<int, Binding>)
    requires BindingsDropped(t, now, d, bindings)
    ensures BindingsDropped(t, now, d + {p}, ReleaseActive(bindings, p, now))
  {
  }

  // ── The decisions of every lemma ────────────────────────────────────

  /** The decisions of a lemma, each once, in any order. */
  ghost predicate AreDecisions(t: Tables, folded: string, decisions: seq<Decision>) {
    && DistinctPhrases(decisions)
    && (forall i | 0 <= i < |decisions| ::
          && Decides(t, folded, decisions[i].phrase)
          && decisions[i] == DecisionOf(t, decisions[i].phrase))
    && (forall p | Decides(t, folded, p) :: DecisionOf(t, p) in decisions)
  }

  lemma ConflictIffTwo(t: Tables, folded: string, decisions: seq<Decision>)
    requires AreDecisions(t, folded, decisions)
    ensures InConflict(t, folded) <==> |decisions| >= 2
  {
    if |decisions| >= 2 {
      assert decisions[0].phrase != decisions[1].phrase;
    }
    if InConflict(t, folded) {
      var p, q :| p != q && Decides(t, folded, p) && Decides(t, folded, q);
      assert DecisionOf(t, p) in decisions && DecisionOf(t, q) in decisions;
    }
  }

  lemma HeadWins(t: Tables, folded: string, decisions: seq<Decision>)
    requires AreDecisions(t, folded, decisions) && decisions != []
    ensures |RankedList(decisions)| == |decisions|
    ensures AreRanked(t, folded, RankedList(decisions))
  {
    var ranked := RankedList(decisions);
    RankedByTheRule(decisions);
    HeadBeatsAll(decisions);
    assert |ranked| == |multiset(ranked)| == |multiset(decisions)| == |decisions|;
    forall i | 0 <= i < |ranked|
      ensures Decides(t, folded, ranked[i].phrase) && ranked[i] == DecisionOf(t, ranked[i].phrase)
    {
      assert ranked[i] in multiset(decisions);
    }
    forall p | Decides(t, folded, p)
      ensures DecisionOf(t, p) in ranked
    {
      assert DecisionOf(t, p) in multiset(ranked);
    }
    forall i | 0 <= i < |ranked|
      ensures Wins(t, folded, ranked[i].phrase) <==> i == 0
    {
      if i == 0 {
        forall q | Decides(t, folded, q) && q != ranked[0].phrase
          ensures Beats(ranked[0], DecisionOf(t, q))
        {
          assert DecisionOf(t, q) in decisions;
        }
      } else {
        assert Beats(ranked[0], ranked[i]);
      }
    }
  }

  lemma NothingDropped(t: Tables, now: Time)
    ensures PhrasesDropped(t, {}, t.phrases) && WordsDropped(t, {}, t.words)
    ensures BindingsDropped(t, now, {}, t.bindings)
    ensures MarksFollowed(t, now, {}, t.marks, t.knownPos)
  {
  }

  lemma AllLemmas(t: Tables, lemmas: set<string>, d: set<int>, done: set<string>)
    requires forall l, p | Decides(t, l, p) :: l in lemmas
    requires forall l | l in lemmas :: l in done
    requires forall p :: p in d <==> exists l :: l in done && Loses(t, l, p)
    ensures forall p :: p in d <==> IsDropped(t, p)
    ensures forall l: string :: InConflict(t, l) ==> l in done
    ensures forall line :: TellsConflict(t, line) ==> line.folded in done
  {
  }

  /** The decisions of a lemma, best first. */
  ghost predicate AreRanked(t: Tables, folded: string, ranked: seq<Decision>) {
    && DistinctPhrases(ranked)
    && (forall i | 0 <= i < |ranked| ::
          && Decides(t, folded, ranked[i].phrase)
          && ranked[i] == DecisionOf(t, ranked[i].phrase)
          && (Wins(t, folded, ranked[i].phrase) <==> i == 0))
    && (forall p | Decides(t, folded, p) :: DecisionOf(t, p) in ranked)
  }

  /** Whether a phrase is that of one of the first losers. */
  ghost predicate IsAmong(ranked: seq<Decision>, n: int, p: int) {
    exists k :: 1 <= k < n && k < |ranked| && ranked[k].phrase == p
  }

  lemma OneMore(ranked: seq<Decision>, n: int)
    requires 1 <= n < |ranked|
    ensures forall p :: IsAmong(ranked, n + 1, p) <==> IsAmong(ranked, n, p) || p == ranked[n].phrase
  {
    forall p
      ensures IsAmong(ranked, n + 1, p) <==> IsAmong(ranked, n, p) || p == ranked[n].phrase
    {
      if p == ranked[n].phrase {
        assert 1 <= n < n + 1 && ranked[n].phrase == p;
      }
    }
  }

  lemma RankedLoser(t: Tables, folded: string, ranked: seq<Decision>, i: int)
    requires AreRanked(t, folded, ranked) && 1 <= i < |ranked|
    ensures var loser := ranked[i];
            && loser.phrase in t.phrases && t.phrases[loser.phrase].word in t.words
            && loser == DecisionOf(t, loser.phrase)
            && !IsAmong(ranked, i, loser.phrase)
  {
  }

  lemma SameActive(t: Tables, now: Time, d: set<int>, p: int, bindings: map<int, Binding>)
    requires BindingsDropped(t, now, d, bindings) && p !in d
    ensures forall e :: e in bindings && IsActiveOf(bindings[e], p) <==>
                        e in t.bindings && IsActiveOf(t.bindings[e], p)
  {
  }

  lemma LineOfDrop(t: Tables, folded: string, ranked: seq<Decision>, i: int, line: LogLine)
    requires AreRanked(t, folded, ranked) && 1 <= i < |ranked|
    requires line.DecisionConflict? && line.folded == folded
    requires line.kept == ranked[0].phrase && line.dropped == ranked[i].phrase
    requires line.why == Why(ranked[0], ranked[i])
    requires forall e :: e in line.released <==> e in t.bindings && IsActiveOf(t.bindings[e], line.dropped)
    ensures TellsConflict(t, line)
    ensures forall other: LogLine | other.DecisionConflict? && TellsConflict(t, other) ::
              other.folded == folded && other.dropped == line.dropped ==> other == line
  {
    assert Wins(t, folded, line.kept) && !Wins(t, folded, line.dropped);
    OneLineOfDrop(t, line);
  }

  lemma LosersAreRanked(t: Tables, folded: string, ranked: seq<Decision>)
    requires AreRanked(t, folded, ranked)
    ensures forall p :: Loses(t, folded, p) <==> IsAmong(ranked, |ranked|, p)
    ensures forall line: LogLine | line.DecisionConflict? && TellsConflict(t, line) ::
              line.folded == folded ==> IsAmong(ranked, |ranked|, line.dropped)
  {
    forall p
      ensures Loses(t, folded, p) <==> IsAmong(ranked, |ranked|, p)
    {
      if Loses(t, folded, p) {
        var k :| 0 <= k < |ranked| && ranked[k] == DecisionOf(t, p);
        assert ranked[k].phrase == p;
      }
    }
  }

  lemma OneLineOfDrop(t: Tables, line: LogLine)
    requires line.DecisionConflict? && TellsConflict(t, line)
    ensures forall other: LogLine | other.DecisionConflict? && TellsConflict(t, other) ::
              other.folded == line.folded && other.dropped == line.dropped ==> other == line
  {
    forall other: LogLine | other.DecisionConflict? && TellsConflict(t, other)
      ensures other.folded == line.folded && other.dropped == line.dropped ==> other == line
    {
      if other.folded == line.folded && other.dropped == line.dropped {
        OneWins(t, line.folded, line.kept, other.kept);
        assert forall e | e in other.released :: e in line.released;
        assert forall e | e in line.released :: e in other.released;
        assert other.released == line.released;
      }
    }
  }

  lemma NoConflictNoChange(
    t: Tables, now: Time, done: set<string>, folded: string, marks: map<string, Mark>,
    knownPos: set<KnownPos>)
    requires !InConflict(t, folded) && folded !in done
    requires MarksFollowed(t, now, done, marks, knownPos)
    ensures MarksFollowed(t, now, done + {folded}, marks, knownPos)
    ensures forall line | TellsConflict(t, line) :: line.folded != folded
    ensures forall p :: !Loses(t, folded, p)
  {
    assert MarkKept(t, folded, marks, knownPos);
    forall p
      ensures !Loses(t, folded, p)
    {
    }
  }

  lemma OneWins(t: Tables, folded: string, p: int, q: int)
    requires Wins(t, folded, p) && Wins(t, folded, q)
    ensures p == q
  {
  }

  // ── The database ────────────────────────────────────────────────────

  class Database {
    ghost const before: Tables
    ghost const now: Time

    var words: map<int, Word>
    var phrases: map<int, Phrase>
    var bindings: map<int, Binding>
    var marks: map<string, Mark>
    var knownPos: set<KnownPos>

    function Value(): Tables
      reads this
    {
      Tables(words, phrases, bindings, marks, knownPos)
    }

    constructor (t: Tables, ghost time: Time)
      ensures before == t && now == time && Value() == t
    {
      before, now := t, time;
      words, phrases, bindings, marks, knownPos := t.words, t.phrases, t.bindings, t.marks, t.knownPos;
    }

    /** The tables of cards, the decisions `d` dropped. */
    ghost predicate Dropped(d: set<int>)
      reads this
    {
      && PhrasesDropped(before, d, phrases)
      && WordsDropped(before, d, words)
      && BindingsDropped(before, now, d, bindings)
    }

    method ReadDecisions() returns (byLemma: map<string, seq<Decision>>)
      requires Value() == before
      ensures forall l | l in byLemma :: byLemma[l] != [] && AreDecisions(before, l, byLemma[l])
      ensures forall l, p | Decides(before, l, p) :: l in byLemma
    {
      byLemma := map[];
      var rest := phrases.Keys;
      while rest != {}
        invariant rest <= phrases.Keys
        invariant forall l | l in byLemma ::
                    && byLemma[l] != [] && DistinctPhrases(byLemma[l])
                    && (forall i | 0 <= i < |byLemma[l]| ::
                          && Decides(before, l, byLemma[l][i].phrase)
                          && byLemma[l][i].phrase !in rest
                          && byLemma[l][i] == DecisionOf(before, byLemma[l][i].phrase))
        invariant forall l, p | Decides(before, l, p) && p !in rest ::
                    l in byLemma && DecisionOf(before, p) in byLemma[l]
        decreases rest
      {
        ghost var some := Sets.SomeElement(rest);
        var p :| p in rest;
        rest := rest - {p};
        if IsDecision(phrases[p].choice) && phrases[p].word in words {
          var l := Lower(words[phrases[p].word].spelling);
          var decision := DecisionOf(Tables(words, phrases, bindings, marks, knownPos), p);
          byLemma := byLemma[l := (if l in byLemma then byLemma[l] else []) + [decision]];
        }
      }
    }

    method Drop(loser: Decision, ghost d: set<int>)
      requires Dropped(d)
      requires loser.phrase in before.phrases && before.phrases[loser.phrase].word in before.words
      requires loser == DecisionOf(before, loser.phrase)
      modifies this`phrases, this`words
      ensures PhrasesDropped(before, d + {loser.phrase}, phrases)
      ensures WordsDropped(before, d + {loser.phrase}, words)
    {
      OneDrop(before, now, d, loser.phrase, Value());
      phrases := Unchoose(phrases, loser.phrase);
      words := ResetWord(words, phrases, loser.word);
    }

    /** The loser's active bindings are released; the ids they have. */
    method Release(loser: Decision, time: Time, ghost d: set<int>) returns (ids: set<int>)
      requires BindingsDropped(before, now, d, bindings) && time == now
      modifies this`bindings
      ensures BindingsDropped(before, now, d + {loser.phrase}, bindings)
      ensures forall e :: e in ids <==> e in old(bindings) && IsActiveOf(old(bindings)[e], loser.phrase)
      ensures forall e | e in bindings && e !in ids :: bindings[e] == old(bindings)[e]
    {
      BindingsDrop(before, now, d, loser.phrase, bindings);
      ids := set e | e in bindings && IsActiveOf(bindings[e], loser.phrase);
      bindings := ReleaseActive(bindings, loser.phrase, time);
    }

    /** The marks and parts of speech of one lemma in conflict, set as its winner says; no other
        lemma's change. */
    method MarkFollows(folded: string, winner: Decision, time: Time, ghost done: set<string>)
      returns (lines: seq<LogLine>)
      requires time == now && folded !in done
      requires InConflict(before, folded) && Wins(before, folded, winner.phrase)
      requires winner == DecisionOf(before, winner.phrase)
      requires PosUnderKnown(marks, knownPos)
      requires MarksFollowed(before, now, done, marks, knownPos)
      modifies this`marks, this`knownPos
      ensures PosUnderKnown(marks, knownPos)
      ensures MarksFollowed(before, now, done + {folded}, marks, knownPos)
      ensures forall line :: line in lines <==>
                TellsConflict(before, line) && line.folded == folded && !line.DecisionConflict?
    {
      lines := [];
      assert MarkKept(before, folded, marks, knownPos);
      ghost var marks0, pos0 := marks, knownPos;
      var mark := MarkOf(marks, folded);
      if winner.choice != Choice.Known {
        if mark.Some? && mark.value.kind == KnownMark {
          knownPos := set row | row in knownPos && row.folded != folded;
          marks := marks - {folded};
          lines := [KnownRemoved(folded, winner.phrase)];
        }
      } else if !(mark.Some? && mark.value.kind == KnownMark) {
        marks := marks[folded := Mark(KnownMark, time)];
        assert forall pos :: WordMarks.KnownPos(folded, pos) !in knownPos;
        knownPos := knownPos + {WordMarks.KnownPos(folded, winner.pos)};
        lines := [KnownAdded(folded, winner.phrase, mark)];
      }
      MarkHasFollowed(done, folded, winner.phrase, marks0, pos0);
      LinesOfMark(folded, winner.phrase, lines);
    }

    lemma MarkHasFollowed(
      done: set<string>, folded: string, winner: int, marks0: map<string, Mark>, pos0: set<KnownPos>)
      requires folded !in done && InConflict(before, folded) && Wins(before, folded, winner)
      requires MarksFollowed(before, now, done, marks0, pos0)
      requires forall l: string | l != folded ::
                 MarkOf(marks, l) == MarkOf(marks0, l) && PosOf(knownPos, l) == PosOf(pos0, l)
      requires MarkOf(marks, folded) == MarkAfter(before, now, folded, winner)
      requires PosOf(knownPos, folded) == PosAfter(before, folded, winner)
      ensures MarksFollowed(before, now, done + {folded}, marks, knownPos)
    {
    }

    lemma LinesOfMark(folded: string, winner: int, lines: seq<LogLine>)
      requires InConflict(before, folded) && Wins(before, folded, winner)
      requires lines ==
               if !before.phrases[winner].choice.Known? && IsMarked(before.marks, folded, KnownMark)
               then [KnownRemoved(folded, winner)]
               else if before.phrases[winner].choice.Known? && !IsMarked(before.marks, folded, KnownMark)
               then [KnownAdded(folded, winner, MarkOf(before.marks, folded))]
               else []
      ensures forall line :: line in lines <==>
                TellsConflict(before, line) && line.folded == folded && !line.DecisionConflict?
    {
      forall kept | Wins(before, folded, kept)
        ensures kept == winner
      {
        OneWins(before, folded, kept, winner);
      }
    }

    /** The losers of one lemma: each is dropped, its bindings released, and the log says why. */
    method DropLosers(folded: string, ranked: seq<Decision>, time: Time, ghost d: set<int>)
      returns (lines: seq<LogLine>, ghost d': set<int>)
      requires Dropped(d) && time == now
      requires AreRanked(before, folded, ranked) && |ranked| >= 2
      requires forall i | 0 <= i < |ranked| :: ranked[i].phrase !in d
      modifies this`phrases, this`words, this`bindings
      ensures Dropped(d')
      ensures forall p :: p in d' <==> p in d || Loses(before, folded, p)
      ensures forall line :: line in lines <==>
                TellsConflict(before, line) && line.DecisionConflict? && line.folded == folded
    {
      hide AreRanked, Wins, Loses, Decides, TellsConflict, PhrasesDropped, WordsDropped, BindingsDropped;
      lines, d' := [], d;
      for i := 1 to |ranked|
        invariant Dropped(d')
        invariant forall p :: p in d' <==> p in d || IsAmong(ranked, i, p)
        invariant forall line :: line in lines <==>
                    && TellsConflict(before, line) && line.DecisionConflict? && line.folded == folded
                    && IsAmong(ranked, i, line.dropped)
      {
        var loser := ranked[i];
        RankedLoser(before, folded, ranked, i);
        SameActive(before, now, d', loser.phrase, bindings);
        Drop(loser, d');
        var ids := Release(loser, time, d');
        var line := DecisionConflict(
          folded, ranked[0].phrase, loser.phrase, Why(ranked[0], loser), ids);
        LineOfDrop(before, folded, ranked, i, line);
        lines := lines + [line];
        d' := d' + {loser.phrase};
        OneMore(ranked, i);
      }
      LosersAreRanked(before, folded, ranked);
    }

    method OneDecisionPerLemma(time: Time) returns (log: seq<LogLine>)
      requires Value() == before && time == now && PosUnderKnown(marks, knownPos)
      modifies this
      ensures IsResolved(before, now, Value()) && PosUnderKnown(marks, knownPos)
      ensures forall line :: line in log <==> TellsConflict(before, line)
    {
      hide Wins, Loses, Decides, InConflict, TellsConflict, PhrasesDropped, WordsDropped,
           BindingsDropped, MarksFollowed, AreDecisions, PosUnderKnown;
      var byLemma := ReadDecisions();
      log := [];
      ghost var d: set<int>, done: set<string> := {}, {};
      NothingDropped(before, now);
      var rest := byLemma.Keys;
      while rest != {}
        invariant rest <= byLemma.Keys
        invariant Dropped(d) && PosUnderKnown(marks, knownPos)
        invariant MarksFollowed(before, now, done, marks, knownPos)
        invariant forall l :: l in done <==> l in byLemma && l !in rest
        invariant forall p :: p in d <==> exists l :: l in done && Loses(before, l, p)
        invariant forall line :: line in log <==> TellsConflict(before, line) && line.folded in done
        decreases rest
      {
        ghost var some := Sets.SomeElement(rest);
        var l :| l in rest;
        rest := rest - {l};
        var lines, dropped := OneLemma(l, byLemma[l], time, d, done);
        log := log + lines;
        d := dropped;
        done := done + {l};
      }
      AllLemmas(before, byLemma.Keys, d, done);
      assert IsResolvedBy(before, now, d, done, Value());
    }

    method OneLemma(
      folded: string, decisions: seq<Decision>, time: Time, ghost d: set<int>, ghost done: set<string>)
      returns (lines: seq<LogLine>, ghost d': set<int>)
      requires Dropped(d) && time == now && PosUnderKnown(marks, knownPos)
      requires AreDecisions(before, folded, decisions) && folded !in done
      requires MarksFollowed(before, now, done, marks, knownPos)
      requires forall p :: p in d <==> exists l :: l in done && Loses(before, l, p)
      modifies this
      ensures Dropped(d') && PosUnderKnown(marks, knownPos)
      ensures MarksFollowed(before, now, done + {folded}, marks, knownPos)
      ensures forall p :: p in d' <==> p in d || Loses(before, folded, p)
      ensures forall line :: line in lines <==> TellsConflict(before, line) && line.folded == folded
    {
      hide Wins, InConflict, TellsConflict, PhrasesDropped, WordsDropped, BindingsDropped,
           MarksFollowed, PosUnderKnown, RankedList;
      lines, d' := [], d;
      ConflictIffTwo(before, folded, decisions);
      if |decisions| >= 2 {
        var ranked := Ranked(decisions);
        HeadWins(before, folded, decisions);
        var drops;
        drops, d' := DropLosers(folded, ranked, time, d);
        var marked := MarkFollows(folded, ranked[0], time, done);
        lines := drops + marked;
      } else {
        NoConflictNoChange(before, now, done, folded, marks, knownPos);
      }
    }

    /** The second pass touches the marks only, and of these just the Unknown ones it logs. */
    method LearnBeatsUnknown() returns (log: seq<LogLine>)
      modifies this`marks
      ensures IsUnmarked(old(Value()), Value())
      ensures forall line :: line in log <==> TellsUnknown(old(Value()), line)
    {
      log := [];
      var start := Value();
      var rest := marks.Keys;
      while rest != {}
        invariant rest <= start.marks.Keys
        invariant Value() == start.(marks := marks)
        invariant forall l: string :: MarkOf(marks, l) ==
                    if l !in rest && LosesUnknown(start, l) then None else MarkOf(start.marks, l)
        invariant forall line :: line in log <==> TellsUnknown(start, line) && line.folded !in rest
        decreases rest
      {
        ghost var some := Sets.SomeElement(rest);
        var l :| l in rest;
        rest := rest - {l};
        assert MarkOf(marks, l) == MarkOf(start.marks, l);
        if marks[l].kind == UnknownMark {
          var learned := IsLearned(start, l);
          var bound := HasActiveBinding(start, l);
          if learned || bound {
            marks := marks - {l};
            log := log + [UnknownRemoved(l, learned, bound)];
          }
        }
      }
    }

    /** The card choice of a binding is kept only once its card is gone. */
    method ChoiceOnlyOnOrphans()
      modifies this`bindings
      ensures Value() == ChoiceOnOrphans(old(Value()))
    {
      bindings := map e | e in bindings :: OrphanChoice(bindings[e]);
    }

    method Upgrade(time: Time) returns (log: seq<LogLine>)
      requires Value() == before && time == now && PosUnderKnown(marks, knownPos)
      modifies this
      ensures IsUpgrade(before, now, Value())
      ensures exists resolved ::
                && IsResolved(before, now, resolved)
                && forall line :: line in log <==> TellsConflict(before, line) || TellsUnknown(resolved, line)
    {
      hide IsResolved, IsUnmarked, TellsConflict, TellsUnknown, ChoiceOnOrphans;
      var conflicts := OneDecisionPerLemma(time);
      ghost var resolved := Value();
      var unknowns := LearnBeatsUnknown();
      log := conflicts + unknowns;
      ghost var unmarked := Value();
      ChoiceOnlyOnOrphans();
      assert IsResolved(before, now, resolved) && IsUnmarked(resolved, unmarked);
    }
  }
}
