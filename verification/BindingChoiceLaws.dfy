/** What revision 0055 guarantees of the tables it leaves. */
module BindingChoiceLaws {
  import opened Schema
  import opened Ranking
  import opened BindingChoice
  import WordMarks
  import Sets

  // ── What it is run on ───────────────────────────────────────────────

  /** Every phrase has its word, and a word has one decision at most (0049's indexes). */
  ghost predicate Legal(t: Tables) {
    && (forall p | p in t.phrases :: t.phrases[p].word in t.words)
    && (forall p, q | p in t.phrases && q in t.phrases ::
          (&& IsDecision(t.phrases[p].choice) && IsDecision(t.phrases[q].choice)
           && t.phrases[p].word == t.phrases[q].word)
          ==> p == q)
  }

  /** An active binding with a card is on a decision card. */
  ghost predicate ActiveOnDecisions(t: Tables) {
    forall e | e in t.bindings && t.bindings[e].releasedAt.None? && t.bindings[e].phrase.Some? ::
      var p := t.bindings[e].phrase.value;
      p in t.phrases && IsDecision(t.phrases[p].choice)
  }

  /** A phrase has one active binding at most. */
  ghost predicate ActiveAreUnique(t: Tables) {
    forall e, f, p | e in t.bindings && f in t.bindings ::
      IsActiveOf(t.bindings[e], p) && IsActiveOf(t.bindings[f], p) ==> e == f
  }

  /** Every Known mark has a part of speech. */
  ghost predicate KnownHasPos(t: Tables) {
    forall l: string | IsMarked(t.marks, l, KnownMark) :: exists pos :: pos in PosOf(t.knownPos, l)
  }

  /** The lemma of a Known decision card is marked Known. */
  ghost predicate KnownIsMarked(t: Tables) {
    forall l, p | Decides(t, l, p) && t.phrases[p].choice.Known? :: IsMarked(t.marks, l, KnownMark)
  }

  // ── A winner for every lemma ────────────────────────────────────────

  ghost predicate Outdoes(t: Tables, folded: string, p: int, q: int) {
    Decides(t, folded, p) && Decides(t, folded, q) && Beats(DecisionOf(t, p), DecisionOf(t, q))
  }

  lemma {:induction false} SomeDecisionIsBest(t: Tables, folded: string, ps: set<int>) returns (best: int)
    requires ps != {}
    requires forall p | p in ps :: Decides(t, folded, p)
    ensures best in ps
    ensures forall p | p in ps && p != best :: Outdoes(t, folded, best, p)
  {
    var p := Sets.SomeElement(ps);
    best := p;
    var others := ps - {p};
    if others != {} {
      var other := SomeDecisionIsBest(t, folded, others);
      if !Outdoes(t, folded, p, other) {
        best := other;
      }
    }
    forall q | q in ps && q != best
      ensures Outdoes(t, folded, best, q)
    {
      assert q == p || q in others;
      assert Decides(t, folded, q) && Decides(t, folded, p) && Decides(t, folded, best);
    }
  }

  lemma SomeDecisionWins(t: Tables, folded: string, p: int) returns (winner: int)
    requires Decides(t, folded, p)
    ensures Wins(t, folded, winner)
  {
    var ps := set q | q in t.phrases && Decides(t, folded, q);
    assert p in ps;
    winner := SomeDecisionIsBest(t, folded, ps);
    forall q | Decides(t, folded, q) && q != winner
      ensures Beats(DecisionOf(t, winner), DecisionOf(t, q))
    {
      assert q in ps;
      assert Outdoes(t, folded, winner, q);
    }
  }

  // ── The tables of cards after the upgrade ───────────────────────────

  /** A decision after the upgrade is one that had won before. */
  lemma DecisionsLeft(t: Tables, now: Time, s: Tables)
    requires IsUpgrade(t, now, s)
    ensures forall l, p :: Decides(s, l, p) <==> Wins(t, l, p)
    ensures forall p | p in s.phrases ::
              && p in t.phrases && s.phrases[p].word == t.phrases[p].word
              && (IsDecision(s.phrases[p].choice) ==> s.phrases[p] == t.phrases[p])
  {
    var r, u :| IsResolved(t, now, r) && IsUnmarked(r, u) && s == ChoiceOnOrphans(u);
    forall l, p
      ensures Decides(r, l, p) <==> Wins(t, l, p)
    {
      ResolvedDecisions(t, now, r, l, p);
    }
    ResolvedPhrases(t, now, r);
  }

  lemma ResolvedPhrases(t: Tables, now: Time, r: Tables)
    requires IsResolved(t, now, r)
    ensures forall p :: p in r.phrases <==> p in t.phrases
    ensures forall w :: w in r.words <==> w in t.words
    ensures forall p | p in r.phrases ::
              r.phrases[p] == if IsDropped(t, p) then t.phrases[p].(choice := Unmarked) else t.phrases[p]
    ensures forall w | w in r.words ::
              && r.words[w].spelling == t.words[w].spelling && r.words[w].pos == t.words[w].pos
    ensures forall e :: e in r.bindings <==> e in t.bindings
    ensures forall e | e in r.bindings ::
              r.bindings[e] == var b := t.bindings[e];
                if b.releasedAt.None? && b.phrase.Some? && IsDropped(t, b.phrase.value)
                then b.(releasedAt := Some(now)) else b
  {
    hide IsDropped, MarksFollowed, InConflict;
  }

  lemma ResolvedDecisions(t: Tables, now: Time, r: Tables, l: string, p: int)
    requires IsResolved(t, now, r)
    ensures Decides(r, l, p) <==> Wins(t, l, p)
  {
    ResolvedPhrases(t, now, r);
    hide IsResolved, Wins;
    if Decides(t, l, p) {
      assert IsDropped(t, p) <==> Loses(t, l, p);
    }
    if Decides(r, l, p) {
      assert Decides(t, l, p);
    }
    assert Wins(t, l, p) ==> Decides(t, l, p) by {
      WinnersDecide(t, l, p);
    }
  }

  lemma WinnersDecide(t: Tables, l: string, p: int)
    ensures Wins(t, l, p) ==> Decides(t, l, p)
  {
  }

  // ── One decision of a lemma ─────────────────────────────────────────

  /** Every lemma that had a decision keeps exactly one: the one that beats the others. It and
      its mark of being bound are as they were. */
  lemma OneDecisionPerLemma(t: Tables, now: Time, s: Tables)
    requires IsUpgrade(t, now, s)
    ensures forall l, p, q | Decides(s, l, p) && Decides(s, l, q) :: p == q
    ensures forall l, p | Decides(t, l, p) :: exists winner :: Decides(s, l, winner)
    ensures forall l, p :: Decides(s, l, p) <==> Wins(t, l, p)
    ensures forall l, p | Decides(s, l, p) :: s.phrases[p] == t.phrases[p]
  {
    DecisionsLeft(t, now, s);
    forall l, p | Decides(t, l, p)
      ensures exists winner :: Decides(s, l, winner)
    {
      var winner := SomeDecisionWins(t, l, p);
      assert Decides(s, l, winner);
    }
    hide IsUpgrade;
  }

  /** The word of the decision that stays keeps its status and when it was studied, and its
      bindings are not released. */
  lemma WinnersAreKept(t: Tables, now: Time, s: Tables, l: string, p: int)
    requires Legal(t) && IsUpgrade(t, now, s) && Decides(s, l, p)
    ensures s.phrases[p].word in s.words && s.words[s.phrases[p].word] == t.words[t.phrases[p].word]
    ensures forall e | e in t.bindings && t.bindings[e].phrase == Some(p) ::
              e in s.bindings && s.bindings[e].releasedAt == t.bindings[e].releasedAt
    ensures IsBound(s.bindings, p) <==> IsBound(t.bindings, p)
  {
    var r, u :| IsResolved(t, now, r) && IsUnmarked(r, u) && s == ChoiceOnOrphans(u);
    ResolvedPhrases(t, now, r);
    ResolvedDecisions(t, now, r, l, p);
    forall m | Loses(t, m, p)
      ensures m == l
    {
    }
    assert !IsDropped(t, p);
    WordKept(t, now, r, t.phrases[p].word, p);
    hide IsResolved, IsUnmarked, IsDropped, Wins;
    assert forall e | e in s.bindings ::
        s.bindings[e].phrase == r.bindings[e].phrase && s.bindings[e].releasedAt == r.bindings[e].releasedAt;
  }

  lemma WordKept(t: Tables, now: Time, r: Tables, w: int, p: int)
    requires Legal(t) && IsResolved(t, now, r)
    requires w in t.words && p in t.phrases && t.phrases[p].word == w
    requires IsDecision(t.phrases[p].choice) && !IsDropped(t, p)
    ensures w in r.words && r.words[w] == t.words[w]
  {
    hide MarksFollowed, InConflict;
    var d, done :| IsResolvedBy(t, now, d, done, r);
    forall q | q in d && q in t.phrases
      ensures t.phrases[q].word != w
    {
      var l :| Loses(t, l, q);
    }
    assert !LostDecision(t, d, w);
  }

  // ── Status of words ─────────────────────────────────────────────────

  ghost predicate HasDecision(t: Tables, w: int) {
    exists p :: p in t.phrases && t.phrases[p].word == w && IsDecision(t.phrases[p].choice)
  }

  /** The stored status of a word is the one of its decision; pending without one. */
  ghost predicate StatusFollows(t: Tables) {
    && (forall p | p in t.phrases && IsDecision(t.phrases[p].choice) ::
          && t.phrases[p].word in t.words
          && t.words[t.phrases[p].word].status == StatusOfChoice(t.phrases[p].choice))
    && (forall w | w in t.words && !HasDecision(t, w) :: t.words[w].status == Status.Pending)
  }

  /** The status of every word still follows its decision, though 0055 sets only those of the
      words that lose one; and a word still has one decision at most. */
  lemma StatusStillFollows(t: Tables, now: Time, s: Tables)
    requires Legal(t) && StatusFollows(t) && IsUpgrade(t, now, s)
    ensures Legal(s) && StatusFollows(s)
  {
    DecisionsLeft(t, now, s);
    UpgradeKeepsRows(t, now, s);
    hide IsUpgrade, Wins;
    forall p | p in s.phrases && IsDecision(s.phrases[p].choice)
      ensures s.phrases[p] == t.phrases[p]
      ensures s.words[s.phrases[p].word] == t.words[t.phrases[p].word]
    {
      WinnersAreKept(t, now, s, Lower(t.words[t.phrases[p].word].spelling), p);
    }
    forall w | w in s.words && !HasDecision(s, w)
      ensures s.words[w].status == Status.Pending
    {
      WithoutDecisionPending(t, now, s, w);
    }
  }

  ghost predicate HasMarkedCard(t: Tables, w: int) {
    exists p :: p in t.phrases && t.phrases[p].word == w && !t.phrases[p].choice.Unmarked?
  }

  /** A word forgets when it was studied exactly when it lost its decision and has no marked card
      left; no other word does, and none is studied anew. */
  lemma StudiedAtIsForgotten(t: Tables, now: Time, s: Tables, w: int)
    requires Legal(t) && IsUpgrade(t, now, s) && w in t.words
    ensures w in s.words
    ensures s.words[w].studiedAt ==
            if HasDecision(t, w) && !HasDecision(s, w) && !HasMarkedCard(s, w) then None
            else t.words[w].studiedAt
  {
    var r, u :| IsResolved(t, now, r) && IsUnmarked(r, u) && s == ChoiceOnOrphans(u);
    var d, done :| IsResolvedBy(t, now, d, done, r);
    ResolvedPhrases(t, now, r);
    assert r.words[w] == DroppedWord(t, d, w);
    hide IsResolved, IsUnmarked, MarksFollowed, InConflict, BindingsDropped;
    LostIffLost(t, d, r, w);
    if LostDecision(t, d, w) {
      MarkedIffMarked(t, d, r, w);
    }
  }

  lemma LostIffLost(t: Tables, d: set<int>, r: Tables, w: int)
    requires Legal(t) && PhrasesDropped(t, d, r.phrases) && forall p :: p in d <==> IsDropped(t, p)
    ensures LostDecision(t, d, w) <==> HasDecision(t, w) && !HasDecision(r, w)
  {
    forall p | p in d
      ensures p in t.phrases && IsDecision(t.phrases[p].choice)
    {
      var l :| Loses(t, l, p);
    }
    hide IsDropped;
    if LostDecision(t, d, w) {
      var p :| p in d && p in t.phrases && t.phrases[p].word == w;
      assert HasDecision(t, w);
      forall q | q in r.phrases && r.phrases[q].word == w
        ensures !IsDecision(r.phrases[q].choice)
      {
      }
    }
    if HasDecision(t, w) && !HasDecision(r, w) {
      var p :| p in t.phrases && t.phrases[p].word == w && IsDecision(t.phrases[p].choice);
      assert p in r.phrases && r.phrases[p] == DroppedPhrase(t, d, p);
      assert p in d;
    }
  }

  lemma MarkedIffMarked(t: Tables, d: set<int>, r: Tables, w: int)
    requires PhrasesDropped(t, d, r.phrases)
    ensures StillMarked(t, d, w) <==> HasMarkedCard(r, w)
  {
    if StillMarked(t, d, w) {
      var p :| p in t.phrases && p !in d && t.phrases[p].word == w && !t.phrases[p].choice.Unmarked?;
      assert p in r.phrases && r.phrases[p] == DroppedPhrase(t, d, p);
    }
    if HasMarkedCard(r, w) {
      var p :| p in r.phrases && r.phrases[p].word == w && !r.phrases[p].choice.Unmarked?;
      assert r.phrases[p] == DroppedPhrase(t, d, p);
    }
  }

  lemma UpgradeKeepsRows(t: Tables, now: Time, s: Tables)
    requires IsUpgrade(t, now, s)
    ensures forall p :: p in s.phrases <==> p in t.phrases
    ensures forall p | p in s.phrases :: s.phrases[p].word == t.phrases[p].word
    ensures forall w :: w in s.words <==> w in t.words
    ensures forall w | w in s.words :: s.words[w].spelling == t.words[w].spelling
  {
    var r, u :| IsResolved(t, now, r) && IsUnmarked(r, u) && s == ChoiceOnOrphans(u);
    ResolvedPhrases(t, now, r);
    hide IsResolved, IsDropped;
  }

  lemma WithoutDecisionPending(t: Tables, now: Time, s: Tables, w: int)
    requires Legal(t) && StatusFollows(t) && IsUpgrade(t, now, s)
    requires w in s.words && !HasDecision(s, w)
    ensures s.words[w].status == Status.Pending
  {
    var r, u :| IsResolved(t, now, r) && IsUnmarked(r, u) && s == ChoiceOnOrphans(u);
    var d, done :| IsResolvedBy(t, now, d, done, r);
    ResolvedPhrases(t, now, r);
    assert r.words[w] == DroppedWord(t, d, w);
    if HasDecision(t, w) {
      var p :| p in t.phrases && t.phrases[p].word == w && IsDecision(t.phrases[p].choice);
      assert p in s.phrases && IsDropped(t, p);
      assert LostDecision(t, d, w);
    }
  }

  // ── Bindings ────────────────────────────────────────────────────────

  /** An active binding with a card stays on a decision card, and is still the only one. */
  lemma ActiveStayOnDecisions(t: Tables, now: Time, s: Tables)
    requires IsUpgrade(t, now, s) && ActiveOnDecisions(t) && ActiveAreUnique(t)
    ensures ActiveOnDecisions(s) && ActiveAreUnique(s)
    ensures forall e | e in s.bindings && s.bindings[e].phrase.Some? :: s.bindings[e].cardChoice.None?
    ensures forall e | e in t.bindings ::
              && e in s.bindings
              && (t.bindings[e].releasedAt.Some? ==> s.bindings[e].releasedAt == t.bindings[e].releasedAt)
              && (t.bindings[e].phrase.None? ==> s.bindings[e] == t.bindings[e])
  {
    hide IsUpgrade, ActiveOnDecisions;
    BindingsLeft(t, now, s);
    forall e, p | e in s.bindings && IsActiveOf(s.bindings[e], p)
      ensures IsActiveOf(t.bindings[e], p)
    {
    }
    DecisionsUnderActive(t, now, s);
  }

  /** What the upgrade makes of each binding. */
  lemma BindingsLeft(t: Tables, now: Time, s: Tables)
    requires IsUpgrade(t, now, s)
    ensures forall e :: e in s.bindings <==> e in t.bindings
    ensures forall e | e in s.bindings ::
              s.bindings[e] == var b := t.bindings[e];
                if b.phrase.None? then b
                else if b.releasedAt.None? && IsDropped(t, b.phrase.value)
                then b.(releasedAt := Some(now), cardChoice := None)
                else b.(cardChoice := None)
  {
    var r, u :| IsResolved(t, now, r) && IsUnmarked(r, u) && s == ChoiceOnOrphans(u);
    ResolvedPhrases(t, now, r);
    hide IsResolved, IsUnmarked, IsDropped;
    forall e | e in s.bindings
      ensures e in r.bindings && s.bindings[e] == OrphanChoice(r.bindings[e])
    {
    }
  }

  lemma DecisionsUnderActive(t: Tables, now: Time, s: Tables)
    requires IsUpgrade(t, now, s) && ActiveOnDecisions(t)
    ensures ActiveOnDecisions(s)
  {
    BindingsLeft(t, now, s);
    var r, u :| IsResolved(t, now, r) && IsUnmarked(r, u) && s == ChoiceOnOrphans(u);
    ResolvedPhrases(t, now, r);
    hide IsUpgrade, IsResolved, IsUnmarked, IsDropped;
    forall e | e in s.bindings && s.bindings[e].releasedAt.None? && s.bindings[e].phrase.Some?
      ensures var p := s.bindings[e].phrase.value; p in s.phrases && IsDecision(s.phrases[p].choice)
    {
      assert t.bindings[e].releasedAt.None? && t.bindings[e].phrase == s.bindings[e].phrase;
    }
  }

  // ── Marks ───────────────────────────────────────────────────────────

  lemma ResolvedMarks(t: Tables, now: Time, r: Tables, l: string)
    requires IsResolved(t, now, r)
    ensures InConflict(t, l) ==> MarkFollowed(t, now, l, r.marks, r.knownPos)
    ensures !InConflict(t, l) ==> MarkKept(t, l, r.marks, r.knownPos)
  {
    hide InConflict, PhrasesDropped, WordsDropped, BindingsDropped, IsDropped, MarkKept;
    var d, done :| IsResolvedBy(t, now, d, done, r);
  }

  /** The marks the upgrade leaves a lemma: those the first pass leaves, but for Unknown beside
      a Learn or Cloze decision or an active binding of the lemma. */
  lemma MarksLeft(t: Tables, now: Time, s: Tables) returns (r: Tables)
    requires IsUpgrade(t, now, s)
    ensures IsResolved(t, now, r)
    ensures s.knownPos == r.knownPos
    ensures forall l: string ::
              MarkOf(s.marks, l) == if LosesUnknown(r, l) then None else MarkOf(r.marks, l)
    ensures forall l: string :: IsLearned(r, l) <==> IsLearned(s, l)
    ensures forall l: string :: HasActiveBinding(r, l) <==> HasActiveBinding(s, l)
  {
    var u;
    r, u :| IsResolved(t, now, r) && IsUnmarked(r, u) && s == ChoiceOnOrphans(u);
    hide IsResolved;
    forall l: string
      ensures IsLearned(r, l) <==> IsLearned(s, l)
      ensures HasActiveBinding(r, l) <==> HasActiveBinding(s, l)
    {
      SameCardsSameReasons(r, s, l);
    }
  }

  lemma SameCardsSameReasons(r: Tables, s: Tables, l: string)
    requires s.words == r.words && s.phrases == r.phrases
    requires s.bindings == map e | e in r.bindings :: OrphanChoice(r.bindings[e])
    ensures IsLearned(r, l) <==> IsLearned(s, l)
    ensures HasActiveBinding(r, l) <==> HasActiveBinding(s, l)
  {
    if HasActiveBinding(r, l) {
      var e :| e in r.bindings && r.bindings[e].releasedAt.None? && Lower(r.bindings[e].spelling) == l;
      assert e in s.bindings;
    }
  }

  /** A conflict leaves its lemma the Known mark with a part of speech, when a Known decision
      won it; and no mark at all, when a Learn or Cloze did. */
  lemma ConflictsSettleMarks(t: Tables, now: Time, s: Tables, l: string, winner: int)
    requires IsUpgrade(t, now, s) && PosUnderKnown(t.marks, t.knownPos) && KnownHasPos(t)
    requires InConflict(t, l) && Wins(t, l, winner)
    ensures t.phrases[winner].choice.Known? ==>
              IsMarked(s.marks, l, KnownMark) && exists pos :: pos in PosOf(s.knownPos, l)
    ensures !t.phrases[winner].choice.Known? ==>
              l !in s.marks && forall pos :: pos !in PosOf(s.knownPos, l)
  {
    var r := MarksLeft(t, now, s);
    ResolvedMarks(t, now, r, l);
    WinnerIsOne(t, l, winner);
    var p :| && Wins(t, l, p)
             && MarkOf(r.marks, l) == MarkAfter(t, now, l, p)
             && PosOf(r.knownPos, l) == PosAfter(t, l, p);
    ResolvedDecisions(t, now, r, l, winner);
    ResolvedPhrases(t, now, r);
    hide IsResolved, IsUpgrade, InConflict, Wins, KnownHasPos, PosUnderKnown;
    SettledMark(t, now, l, winner);
    if !t.phrases[winner].choice.Known? {
      assert IsLearned(r, l);
    }
    assert MarkOf(s.marks, l) == if LosesUnknown(r, l) then None else MarkOf(r.marks, l);
  }

  lemma SettledMark(t: Tables, now: Time, l: string, winner: int)
    requires PosUnderKnown(t.marks, t.knownPos) && KnownHasPos(t) && Decides(t, l, winner)
    ensures t.phrases[winner].choice.Known? ==>
              && MarkAfter(t, now, l, winner).Some? && MarkAfter(t, now, l, winner).value.kind == KnownMark
              && exists pos :: pos in PosAfter(t, l, winner)
    ensures !t.phrases[winner].choice.Known? ==>
              && (MarkAfter(t, now, l, winner).Some? ==>
                    MarkAfter(t, now, l, winner).value.kind == UnknownMark)
              && forall pos :: pos !in PosAfter(t, l, winner)
  {
    if t.phrases[winner].choice.Known? {
      if !IsMarked(t.marks, l, KnownMark) {
        assert t.words[t.phrases[winner].word].pos in PosAfter(t, l, winner);
      } else {
        var pos :| pos in PosOf(t.knownPos, l);
        assert pos in PosAfter(t, l, winner);
      }
    } else if !IsMarked(t.marks, l, KnownMark) {
      assert forall row | row in t.knownPos :: row.folded != l;
    }
  }

  /** Parts of speech stay with Known marks only, and every Known mark keeps one. */
  lemma PosStaysUnderKnown(t: Tables, now: Time, s: Tables)
    requires IsUpgrade(t, now, s) && PosUnderKnown(t.marks, t.knownPos)
    ensures PosUnderKnown(s.marks, s.knownPos)
    ensures KnownHasPos(t) ==> KnownHasPos(s)
  {
    var r := MarksLeft(t, now, s);
    forall l: string, pos | pos in PosOf(s.knownPos, l)
      ensures IsMarked(s.marks, l, KnownMark)
    {
      ResolvedPos(t, now, r, l);
      assert IsMarked(r.marks, l, KnownMark);
      assert !LosesUnknown(r, l);
      assert MarkOf(s.marks, l) == MarkOf(r.marks, l);
    }
    assert forall row | row in s.knownPos :: row.pos in PosOf(s.knownPos, row.folded);
    forall l: string | KnownHasPos(t) && IsMarked(s.marks, l, KnownMark)
      ensures exists pos :: pos in PosOf(s.knownPos, l)
    {
      assert MarkOf(s.marks, l) == MarkOf(r.marks, l);
      ResolvedPos(t, now, r, l);
    }
  }

  lemma ResolvedPos(t: Tables, now: Time, r: Tables, l: string)
    requires IsResolved(t, now, r) && PosUnderKnown(t.marks, t.knownPos)
    ensures forall pos | pos in PosOf(r.knownPos, l) :: IsMarked(r.marks, l, KnownMark)
    ensures KnownHasPos(t) && IsMarked(r.marks, l, KnownMark) ==> exists pos :: pos in PosOf(r.knownPos, l)
  {
    ResolvedMarks(t, now, r, l);
    hide IsResolved, InConflict;
    if InConflict(t, l) {
      var p :| && Wins(t, l, p)
               && MarkOf(r.marks, l) == MarkAfter(t, now, l, p)
               && PosOf(r.knownPos, l) == PosAfter(t, l, p);
      hide Wins;
      assert t.words[t.phrases[p].word].pos in iset{t.words[t.phrases[p].word].pos};
    }
  }

  /** The upgrade marks Known the winners of conflicts only: every Known decision ends with its
      lemma marked Known if and only if those without a rival were so before. */
  lemma KnownIsMarkedIff(t: Tables, now: Time, s: Tables)
    requires IsUpgrade(t, now, s)
    ensures KnownIsMarked(s) <==>
              forall l, p | Decides(t, l, p) && t.phrases[p].choice.Known? && !InConflict(t, l) ::
                IsMarked(t.marks, l, KnownMark)
  {
    DecisionsLeft(t, now, s);
    forall l, p | Decides(s, l, p) && s.phrases[p].choice.Known?
      ensures Decides(t, l, p) && t.phrases[p] == s.phrases[p]
      ensures IsMarked(s.marks, l, KnownMark) <==> InConflict(t, l) || IsMarked(t.marks, l, KnownMark)
    {
      WinnersMark(t, now, s, l, p);
    }
    forall l, p | Decides(t, l, p) && !InConflict(t, l)
      ensures Decides(s, l, p)
    {
      AloneWins(t, l, p);
    }
    hide IsUpgrade, InConflict, Wins;
  }

  lemma AloneWins(t: Tables, l: string, p: int)
    requires Decides(t, l, p) && !InConflict(t, l)
    ensures Wins(t, l, p)
  {
  }

  lemma WinnersMark(t: Tables, now: Time, s: Tables, l: string, p: int)
    requires IsUpgrade(t, now, s) && Wins(t, l, p) && t.phrases[p].choice.Known?
    ensures Decides(t, l, p)
    ensures IsMarked(s.marks, l, KnownMark) <==> InConflict(t, l) || IsMarked(t.marks, l, KnownMark)
  {
    var r := MarksLeft(t, now, s);
    ResolvedMarks(t, now, r, l);
    WinnerIsOne(t, l, p);
    hide IsUpgrade, IsResolved, InConflict, Wins;
    assert IsMarked(s.marks, l, KnownMark) <==> IsMarked(r.marks, l, KnownMark) by {
      assert MarkOf(s.marks, l) == if LosesUnknown(r, l) then None else MarkOf(r.marks, l);
    }
  }

  lemma WinnerIsOne(t: Tables, l: string, p: int)
    requires Wins(t, l, p)
    ensures forall q | Wins(t, l, q) :: q == p
  {
  }

  /** No lemma marked Unknown has a Learn or Cloze decision or an active binding. */
  lemma UnknownIsFree(t: Tables, now: Time, s: Tables)
    requires IsUpgrade(t, now, s)
    ensures forall l: string | IsMarked(s.marks, l, UnknownMark) ::
              !IsLearned(s, l) && !HasActiveBinding(s, l)
  {
    var r := MarksLeft(t, now, s);
    hide IsUpgrade, IsResolved, IsLearned, HasActiveBinding;
    forall l: string | IsMarked(s.marks, l, UnknownMark)
      ensures !IsLearned(s, l) && !HasActiveBinding(s, l)
    {
      assert MarkOf(s.marks, l) == MarkOf(r.marks, l);
      assert !LosesUnknown(r, l);
    }
  }

  // ── Running it again ────────────────────────────────────────────────

  /** Running the upgrade again, at any time, changes nothing. */
  lemma UpgradeTwiceIsOnce(t: Tables, now: Time, s: Tables, later: Time, s': Tables)
    requires IsUpgrade(t, now, s) && IsUpgrade(s, later, s')
    ensures s' == s
  {
    OneDecisionPerLemma(t, now, s);
    UnknownIsFree(t, now, s);
    assert forall e | e in s.bindings :: OrphanChoice(s.bindings[e]) == s.bindings[e];
    hide IsDropped, Wins;
    var r, u :| IsResolved(s, later, r) && IsUnmarked(r, u) && s' == ChoiceOnOrphans(u);
    NoConflictNoChange(s, later, r);
    UnknownStays(r, u);
  }

  lemma NoConflictNoChange(s: Tables, now: Time, r: Tables)
    requires forall l, p, q | Decides(s, l, p) && Decides(s, l, q) :: p == q
    requires IsResolved(s, now, r)
    ensures r == s
  {
    forall p
      ensures !IsDropped(s, p)
    {
      assert forall l :: !Loses(s, l, p);
    }
    forall l: string
      ensures MarkKept(s, l, r.marks, r.knownPos)
    {
      assert !InConflict(s, l);
      ResolvedMarks(s, now, r, l);
    }
    SameMarks(s, r);
    ResolvedPhrases(s, now, r);
    SameRows(r.phrases, s.phrases);
    SameRows(r.bindings, s.bindings);
    NothingDroppedNoWordChanged(s, now, r);
  }

  lemma NothingDroppedNoWordChanged(s: Tables, now: Time, r: Tables)
    requires forall p :: !IsDropped(s, p)
    requires IsResolved(s, now, r)
    ensures r.words == s.words
  {
    hide MarksFollowed, InConflict, IsDropped, PhrasesDropped, BindingsDropped;
    var d, done :| IsResolvedBy(s, now, d, done, r);
    forall p
      ensures p !in d
    {
      assert !IsDropped(s, p);
    }
    forall w | w in r.words
      ensures r.words[w] == s.words[w]
    {
      assert !LostDecision(s, d, w);
    }
    SameRows(r.words, s.words);
  }

  /** Tables with the same rows are equal. */
  lemma SameRows<Row>(a: map<int, Row>, b: map<int, Row>)
    requires forall k :: k in a <==> k in b
    requires forall k | k in a :: a[k] == b[k]
    ensures a == b
  {
    forall row | row in a.Items
      ensures row in b.Items
    {
      SameRowAt(a, b, row.0);
    }
    forall row | row in b.Items
      ensures row in a.Items
    {
      SameRowAt(b, a, row.0);
    }
    assert a.Items == b.Items;
    SameItems(a, b);
  }

  lemma SameRowAt<Row>(a: map<int, Row>, b: map<int, Row>, k: int)
    requires k in a
    requires k in a <==> k in b
    requires k in a && k in b ==> a[k] == b[k]
    ensures k in b && (k, a[k]) in b.Items
  {
  }

  lemma SameItems<K, Row>(a: map<K, Row>, b: map<K, Row>)
    requires a.Items == b.Items
    ensures a == b
  {
    forall k | k in a
      ensures k in b && b[k] == a[k]
    {
      assert (k, a[k]) in a.Items;
    }
    forall k | k in b
      ensures k in a
    {
      assert (k, b[k]) in b.Items;
    }
  }

  lemma SameMarks(s: Tables, r: Tables)
    requires forall l: string :: MarkKept(s, l, r.marks, r.knownPos)
    ensures r.marks == s.marks && r.knownPos == s.knownPos
  {
    forall l: string
      ensures MarkOf(r.marks, l) == MarkOf(s.marks, l)
    {
      assert MarkKept(s, l, r.marks, r.knownPos);
    }
    assert forall l: string :: l in r.marks <==> MarkOf(r.marks, l).Some?;
    forall row: KnownPos
      ensures row in r.knownPos <==> row in s.knownPos
    {
      assert MarkKept(s, row.folded, r.marks, r.knownPos);
      assert row.pos in PosOf(r.knownPos, row.folded) <==> row.pos in PosOf(s.knownPos, row.folded);
      assert row == WordMarks.KnownPos(row.folded, row.pos);
    }
  }

  lemma UnknownStays(s: Tables, u: Tables)
    requires forall l: string | IsMarked(s.marks, l, UnknownMark) :: !IsLearned(s, l) && !HasActiveBinding(s, l)
    requires IsUnmarked(s, u)
    ensures u == s
  {
    hide IsLearned, HasActiveBinding;
    forall l: string
      ensures MarkOf(u.marks, l) == MarkOf(s.marks, l)
    {
      assert !LosesUnknown(s, l);
    }
    assert forall l: string :: l in u.marks <==> MarkOf(u.marks, l).Some?;
    assert u.marks == s.marks;
  }
}
