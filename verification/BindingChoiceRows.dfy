/** The rows revision 0055 leaves, each in terms of the rows it finds and of which decisions stay. */
module BindingChoiceRows {
  import opened Schema
  import opened Ranking
  import opened BindingChoice
  import opened BindingChoiceLaws
  import WordMarks

  // ── Decisions ───────────────────────────────────────────────────────

  /** A phrase that is learned, learned as a cloze or known, of a word of the lemma. */
  predicate IsDecisionOf(t: Tables, l: string, p: int) {
    && p in t.phrases && t.phrases[p].choice in {Choice.Learn, Choice.Cloze, Choice.Known}
    && t.phrases[p].word in t.words && Lower(t.words[t.phrases[p].word].spelling) == l
  }

  lemma DecisionIs(t: Tables, l: string, p: int)
    ensures IsDecisionOf(t, l, p) <==> Decides(t, l, p)
  {
  }

  /** Every lemma that had decisions keeps exactly one of them. */
  lemma OneStays(t: Tables, now: Time, s: Tables, l: string, p: int)
    requires IsUpgrade(t, now, s) && IsDecisionOf(t, l, p)
    ensures exists kept :: IsDecisionOf(s, l, kept) && IsDecisionOf(t, l, kept)
    ensures forall q, r | IsDecisionOf(s, l, q) && IsDecisionOf(s, l, r) :: q == r
  {
    OneDecisionPerLemma(t, now, s);
    hide IsUpgrade, IsDecisionOf, Wins, Decides;
    DecisionIs(t, l, p);
    var kept :| Decides(s, l, kept);
    forall q
      ensures IsDecisionOf(s, l, q) <==> Decides(s, l, q)
    {
      DecisionIs(s, l, q);
    }
    WinnersDecide(t, l, kept);
    DecisionIs(t, l, kept);
  }

  /** Whether one time of study counts for no less than another; none counts least. */
  predicate StudiedNoEarlier(a: Option<Time>, b: Option<Time>) {
    b.None? || (a.Some? && a.value >= b.value)
  }

  /** Whether a phrase has a binding that is not released. */
  ghost predicate IsActivelyBound(t: Tables, p: int) {
    exists e :: e in t.bindings && t.bindings[e].phrase == Some(p) && t.bindings[e].releasedAt == None
  }

  lemma BoundIff(t: Tables, p: int)
    ensures IsBound(t.bindings, p) <==> IsActivelyBound(t, p)
  {
    if e :| e in t.bindings && IsActiveOf(t.bindings[e], p) {
      assert t.bindings[e].phrase == Some(p) && t.bindings[e].releasedAt == None;
    }
    if e :| e in t.bindings && t.bindings[e].phrase == Some(p) && t.bindings[e].releasedAt == None {
      assert IsActiveOf(t.bindings[e], p);
    }
  }

  /** The decision a lemma keeps is actively bound if any of the lemma was; of those bound as it
      is, no word was studied later than its own, and of those studied at the same time it has
      the lowest phrase id. */
  lemma KeptByTheRule(t: Tables, now: Time, s: Tables, l: string, p: int, q: int)
    requires Legal(t) && IsUpgrade(t, now, s)
    requires IsDecisionOf(s, l, p) && IsDecisionOf(t, l, q) && q != p
    ensures p in t.phrases && t.phrases[p].word in t.words
    ensures IsActivelyBound(t, q) ==> IsActivelyBound(t, p) && IsActivelyBound(s, p)
    ensures (IsActivelyBound(t, q) <==> IsActivelyBound(t, p)) ==>
              var kept, other := t.words[t.phrases[p].word].studiedAt, t.words[t.phrases[q].word].studiedAt;
              StudiedNoEarlier(kept, other) && (kept == other ==> p < q)
  {
    DecisionIs(s, l, p);
    DecisionIs(t, l, q);
    DecisionsLeft(t, now, s);
    WinnersAreKept(t, now, s, l, p);
    hide IsUpgrade, Legal;
    assert Wins(t, l, p);
    BoundIff(t, p);
    BoundIff(t, q);
    BoundIff(s, p);
    hide IsBound, IsActivelyBound;
  }

  // ── Phrases and words ───────────────────────────────────────────────

  /** Whether a decision goes, since its lemma keeps another. */
  ghost predicate HasKeptRival(t: Tables, s: Tables, p: int) {
    exists l, q :: q != p && IsDecisionOf(t, l, p) && IsDecisionOf(t, l, q) && IsDecisionOf(s, l, q)
  }

  lemma DroppedIsRivalled(t: Tables, now: Time, s: Tables, p: int)
    requires IsUpgrade(t, now, s)
    ensures IsDropped(t, p) <==> HasKeptRival(t, s, p)
  {
    OneDecisionPerLemma(t, now, s);
    hide IsUpgrade, IsDecisionOf, Wins, Decides;
    forall l, q
      ensures IsDecisionOf(t, l, q) <==> Decides(t, l, q)
      ensures IsDecisionOf(s, l, q) <==> Decides(s, l, q)
      ensures Wins(t, l, q) ==> Decides(t, l, q)
    {
      DecisionIs(t, l, q);
      DecisionIs(s, l, q);
      WinnersDecide(t, l, q);
    }
    if IsDropped(t, p) {
      var l :| Loses(t, l, p);
      var kept :| Decides(s, l, kept);
      assert kept != p && IsDecisionOf(t, l, kept);
    }
    if HasKeptRival(t, s, p) {
      var l, q :| q != p && IsDecisionOf(t, l, p) && IsDecisionOf(t, l, q) && IsDecisionOf(s, l, q);
      assert Loses(t, l, p);
    }
  }

  /** A phrase loses its choice if it is a decision whose lemma keeps another; nothing else of
      any phrase changes. */
  lemma PhrasesAre(t: Tables, now: Time, s: Tables, p: int)
    requires IsUpgrade(t, now, s)
    ensures p in s.phrases <==> p in t.phrases
    ensures p in s.phrases ==>
              s.phrases[p] == if HasKeptRival(t, s, p) then t.phrases[p].(choice := Unmarked) else t.phrases[p]
  {
    DroppedIsRivalled(t, now, s, p);
    var r, u :| IsResolved(t, now, r) && IsUnmarked(r, u) && s == ChoiceOnOrphans(u);
    ResolvedPhrases(t, now, r);
    hide IsUpgrade, IsResolved, HasKeptRival, IsDropped;
  }

  ghost predicate LosesDecision(t: Tables, s: Tables, w: int) {
    exists p :: p in t.phrases && t.phrases[p].word == w && HasKeptRival(t, s, p)
  }

  /** A word that loses a decision is pending, and forgets when it was studied unless a card of it
      is still marked; nothing else of any word changes. */
  lemma WordsAre(t: Tables, now: Time, s: Tables, w: int)
    requires IsUpgrade(t, now, s)
    ensures w in s.words <==> w in t.words
    ensures w in s.words ==>
              s.words[w] ==
              if !LosesDecision(t, s, w) then t.words[w]
              else if exists p :: p in s.phrases && s.phrases[p].word == w && s.phrases[p].choice != Unmarked
              then t.words[w].(status := Status.Pending)
              else t.words[w].(status := Status.Pending, studiedAt := None)
  {
    hide HasKeptRival, IsDropped;
    forall p
      ensures IsDropped(t, p) <==> HasKeptRival(t, s, p)
    {
      DroppedIsRivalled(t, now, s, p);
    }
    var r, u :| IsResolved(t, now, r) && IsUnmarked(r, u) && s == ChoiceOnOrphans(u);
    var d, done :| IsResolvedBy(t, now, d, done, r);
    assert s.words == r.words && s.phrases == r.phrases;
    hide IsResolved, IsUpgrade, MarksFollowed, BindingsDropped, IsUnmarked;
    assert LostDecision(t, d, w) <==> LosesDecision(t, s, w);
    MarkedIffMarked(t, d, r, w);
    assert HasMarkedCard(r, w) <==>
        exists p :: p in s.phrases && s.phrases[p].word == w && s.phrases[p].choice != Unmarked;
    hide LosesDecision, LostDecision, StillMarked, PhrasesDropped, HasMarkedCard;
  }

  // ── Bindings ────────────────────────────────────────────────────────

  /** An active binding of a decision that goes is released; a binding with a phrase has no card
      choice; nothing else of any binding changes. */
  lemma BindingsAre(t: Tables, now: Time, s: Tables, e: int)
    requires IsUpgrade(t, now, s)
    ensures e in s.bindings <==> e in t.bindings
    ensures e in s.bindings ==>
              var was := t.bindings[e];
              s.bindings[e] == was.(
                cardChoice := if was.phrase.Some? then None else was.cardChoice,
                releasedAt := if was.releasedAt.None? && was.phrase.Some? && HasKeptRival(t, s, was.phrase.value)
                              then Some(now) else was.releasedAt)
  {
    BindingsLeft(t, now, s);
    hide IsUpgrade, HasKeptRival, IsDropped;
    if e in t.bindings && t.bindings[e].phrase.Some? {
      DroppedIsRivalled(t, now, s, t.bindings[e].phrase.value);
    }
  }

  // ── Marks ───────────────────────────────────────────────────────────

  function MarkAt(t: Tables, l: string): Option<Mark> {
    if l in t.marks then Some(t.marks[l]) else None
  }

  predicate HasPart(t: Tables, l: string, pos: Option<string>) {
    WordMarks.KnownPos(l, pos) in t.knownPos
  }

  predicate WasKnown(t: Tables, l: string) {
    l in t.marks && t.marks[l].kind == KnownMark
  }

  /** The first pass leaves a lemma in conflict what follows from its winner. */
  lemma ConflictIsFollowed(t: Tables, now: Time, r: Tables, l: string, p: int)
    requires IsResolved(t, now, r) && InConflict(t, l) && Wins(t, l, p)
    ensures Decides(t, l, p)
    ensures MarkOf(r.marks, l) == MarkAfter(t, now, l, p) && PosOf(r.knownPos, l) == PosAfter(t, l, p)
  {
    ResolvedMarks(t, now, r, l);
    WinnerIsOne(t, l, p);
    WinnersDecide(t, l, p);
    hide IsResolved, Wins, InConflict, MarkAfter, PosAfter;
  }

  lemma WinsItsConflict(t: Tables, now: Time, s: Tables, l: string, p: int, q: int)
    requires IsUpgrade(t, now, s)
    requires IsDecisionOf(s, l, p) && IsDecisionOf(t, l, q) && q != p
    ensures InConflict(t, l) && Wins(t, l, p) && Decides(t, l, p) && Decides(s, l, p)
    ensures s.phrases[p] == t.phrases[p]
  {
    DecisionIs(s, l, p);
    DecisionIs(t, l, q);
    DecisionsLeft(t, now, s);
    WinnersDecide(t, l, p);
    hide IsUpgrade, Wins;
  }

  /** Where a decision `p` won its lemma against another: Known is marked, as it was or anew, with
      the part of speech of the word; any other takes every mark away. */
  lemma MarksOfConflictsAre(t: Tables, now: Time, s: Tables, l: string, p: int, q: int)
    requires IsUpgrade(t, now, s)
    requires IsDecisionOf(s, l, p) && IsDecisionOf(t, l, q) && q != p
    ensures p in t.phrases
    ensures t.phrases[p].choice.Known? ==>
              MarkAt(s, l) == Some(if WasKnown(t, l) then t.marks[l] else Mark(KnownMark, now))
    ensures !t.phrases[p].choice.Known? ==> MarkAt(s, l) == None
  {
    hide IsUpgrade, IsResolved, Wins, InConflict, IsDecisionOf, HasActiveBinding;
    WinsItsConflict(t, now, s, l, p, q);
    var r := MarksLeft(t, now, s);
    ConflictIsFollowed(t, now, r, l, p);
    assert MarkOf(s.marks, l) == if LosesUnknown(r, l) then None else MarkOf(r.marks, l);
    assert !t.phrases[p].choice.Known? ==> IsLearned(s, l);
    hide IsLearned, Decides;
  }

  lemma PartsOfConflictsAre(t: Tables, now: Time, s: Tables, l: string, p: int, q: int, pos: Option<string>)
    requires IsUpgrade(t, now, s)
    requires IsDecisionOf(s, l, p) && IsDecisionOf(t, l, q) && q != p
    ensures p in t.phrases && t.phrases[p].word in t.words
    ensures HasPart(s, l, pos) <==>
              if t.phrases[p].choice.Known? then
                HasPart(t, l, pos) || (!WasKnown(t, l) && pos == t.words[t.phrases[p].word].pos)
              else HasPart(t, l, pos) && !WasKnown(t, l)
  {
    hide IsUpgrade, IsResolved, Wins, InConflict, IsDecisionOf;
    WinsItsConflict(t, now, s, l, p, q);
    var r := MarksLeft(t, now, s);
    ConflictIsFollowed(t, now, r, l, p);
    assert HasPart(s, l, pos) <==> pos in PosOf(r.knownPos, l);
    assert HasPart(t, l, pos) <==> pos in PosOf(t.knownPos, l);
  }

  /** Where no decision goes, the lemma keeps its parts of speech and its mark, but for Unknown
      beside a decision to learn or an active binding under the lemma. */
  lemma MarksOfOthersAre(t: Tables, now: Time, s: Tables, l: string)
    requires IsUpgrade(t, now, s)
    requires forall p, q | IsDecisionOf(t, l, p) && IsDecisionOf(t, l, q) :: p == q
    ensures MarkAt(s, l) ==
            if l in t.marks && t.marks[l].kind == UnknownMark
               && ((exists p :: IsDecisionOf(t, l, p) && t.phrases[p].choice != Choice.Known)
                   || exists e :: e in s.bindings && s.bindings[e].releasedAt == None
                                  && Lower(s.bindings[e].spelling) == l)
            then None else MarkAt(t, l)
    ensures forall pos :: HasPart(s, l, pos) <==> HasPart(t, l, pos)
  {
    forall p
      ensures IsDecisionOf(t, l, p) <==> Decides(t, l, p)
    {
      DecisionIs(t, l, p);
    }
    assert !InConflict(t, l);
    var r := MarksLeft(t, now, s);
    ResolvedMarks(t, now, r, l);
    LearnedAsBefore(t, now, s, l);
    hide IsUpgrade, IsResolved, InConflict, IsDecisionOf, Decides;
    assert MarkOf(s.marks, l) == if LosesUnknown(r, l) then None else MarkOf(r.marks, l);
    assert PosOf(r.knownPos, l) == PosOf(t.knownPos, l);
    forall pos
      ensures HasPart(s, l, pos) <==> pos in PosOf(r.knownPos, l)
      ensures HasPart(t, l, pos) <==> pos in PosOf(t.knownPos, l)
    {
    }
    hide IsLearned;
  }

  lemma LearnedAsBefore(t: Tables, now: Time, s: Tables, l: string)
    requires IsUpgrade(t, now, s) && !InConflict(t, l)
    ensures IsLearned(s, l) <==> exists p :: IsDecisionOf(t, l, p) && t.phrases[p].choice != Choice.Known
  {
    OneDecisionPerLemma(t, now, s);
    hide IsUpgrade, InConflict;
    forall p
      ensures IsDecisionOf(t, l, p) <==> Decides(t, l, p)
      ensures Decides(s, l, p) <==> Decides(t, l, p)
    {
      DecisionIs(t, l, p);
      WinnersDecide(t, l, p);
      if Decides(t, l, p) {
        AloneWins(t, l, p);
      }
    }
    hide IsDecisionOf, Decides, Wins;
    if IsLearned(s, l) {
      var p :| p in s.phrases && Decides(s, l, p) && !s.phrases[p].choice.Known?;
      assert IsDecisionOf(t, l, p) && s.phrases[p] == t.phrases[p];
    }
    if p :| IsDecisionOf(t, l, p) && t.phrases[p].choice != Choice.Known {
      assert Decides(s, l, p) && s.phrases[p] == t.phrases[p];
    }
  }

  // ── The log ─────────────────────────────────────────────────────────

  /** What the log says of a lemma in conflict: each decision dropped beside the one kept, why,
      and the bindings released with it. */
  lemma ConflictLinesTell(
    t: Tables, now: Time, s: Tables, l: string, kept: int, dropped: int, why: Reason, released: set<int>)
    requires IsUpgrade(t, now, s)
    ensures TellsConflict(t, DecisionConflict(l, kept, dropped, why, released)) <==>
              && IsDecisionOf(s, l, kept) && IsDecisionOf(t, l, kept) && IsDecisionOf(t, l, dropped) && kept != dropped
              && why == (if IsActivelyBound(t, kept) != IsActivelyBound(t, dropped) then ByBinding
                         else if t.words[t.phrases[kept].word].studiedAt != t.words[t.phrases[dropped].word].studiedAt
                         then ByStudiedAt else ById)
              && forall e :: e in released <==>
                   e in t.bindings && t.bindings[e].phrase == Some(dropped) && t.bindings[e].releasedAt == None
  {
    OneDecisionPerLemma(t, now, s);
    hide IsUpgrade, IsBound, IsActivelyBound;
    DecisionIs(s, l, kept);
    DecisionIs(t, l, kept);
    DecisionIs(t, l, dropped);
    BoundIff(t, kept);
    BoundIff(t, dropped);
    WinnersDecide(t, l, kept);
    assert Wins(t, l, kept) ==> forall q | Wins(t, l, q) :: q == kept by {
      if Wins(t, l, kept) {
        WinnerIsOne(t, l, kept);
      }
    }
    hide Wins, IsDecisionOf;
  }

  /** What it says of the Known mark of such a lemma: taken away by a decision to learn, or added
      by a Known one. */
  lemma KnownLinesTell(t: Tables, now: Time, s: Tables, l: string, kept: int, was: Option<Mark>)
    requires IsUpgrade(t, now, s)
    ensures TellsConflict(t, KnownRemoved(l, kept)) <==>
              && IsDecisionOf(s, l, kept) && (exists q :: q != kept && IsDecisionOf(t, l, q))
              && s.phrases[kept].choice != Choice.Known && WasKnown(t, l)
    ensures TellsConflict(t, KnownAdded(l, kept, was)) <==>
              && IsDecisionOf(s, l, kept) && (exists q :: q != kept && IsDecisionOf(t, l, q))
              && s.phrases[kept].choice == Choice.Known && !WasKnown(t, l) && was == MarkAt(t, l)
  {
    OneDecisionPerLemma(t, now, s);
    DecisionIs(s, l, kept);
    WinnersDecide(t, l, kept);
    forall q
      ensures IsDecisionOf(t, l, q) <==> Decides(t, l, q)
    {
      DecisionIs(t, l, q);
    }
    assert Decides(t, l, kept) ==> (InConflict(t, l) <==> exists q :: q != kept && IsDecisionOf(t, l, q)) by {
      hide IsUpgrade, IsDecisionOf, Wins, Decides;
    }
    hide IsUpgrade, IsDecisionOf, Wins, InConflict, Decides;
  }
}
