/** How revision 0055 ranks the decisions of one lemma: three stable sorts, one after another. */
module Ranking {
  import opened Orders
  import opened Schema

  /** A decision card; `phrase` is its phrase's id. */
  datatype Decision = Decision(
    phrase: int, word: int, pos: Option<string>, choice: Choice, studiedAt: Option<Time>, bound: bool)

  // ── The three keys ──────────────────────────────────────────────────

  predicate LowerId(a: Decision, b: Decision) {
    a.phrase < b.phrase
  }

  /** Never studied is before any time, so last when the later comes first. */
  predicate StudiedLater(a: Decision, b: Decision) {
    a.studiedAt.Some? && (b.studiedAt.None? || b.studiedAt.value < a.studiedAt.value)
  }

  predicate BoundFirst(a: Decision, b: Decision) {
    a.bound && !b.bound
  }

  function RankedList(decisions: seq<Decision>): seq<Decision> {
    StableSort(StableSort(StableSort(decisions, LowerId), StudiedLater), BoundFirst)
  }

  /** The rule: the bound card first, then the one studied later, then the lower id. */
  predicate Beats(a: Decision, b: Decision) {
    if a.bound != b.bound then a.bound
    else if a.studiedAt != b.studiedAt then StudiedLater(a, b)
    else a.phrase < b.phrase
  }

  ghost predicate DistinctPhrases(decisions: seq<Decision>) {
    forall i, j | 0 <= i < j < |decisions| :: decisions[i].phrase != decisions[j].phrase
  }

  lemma KeysAreWeakOrders()
    ensures IsWeakOrder(LowerId) && IsWeakOrder(StudiedLater) && IsWeakOrder(BoundFirst)
  {
  }

  predicate DifferentIds(a: Decision, b: Decision) {
    a.phrase != b.phrase
  }

  /** By one key after another is by the rule. */
  lemma ThenIsTheRule(a: Decision, b: Decision)
    requires Then(BoundFirst, Then(StudiedLater, Then(LowerId, DifferentIds)))(a, b)
    ensures Beats(a, b)
  {
    var byId := Then(LowerId, DifferentIds);
    var byStudied := Then(StudiedLater, byId);
    assert BoundFirst(a, b) || (!BoundFirst(b, a) && byStudied(a, b));
    assert byStudied(a, b) ==> StudiedLater(a, b) || (!StudiedLater(b, a) && byId(a, b));
    assert byId(a, b) ==> LowerId(a, b) || (!LowerId(b, a) && DifferentIds(a, b));
  }

  /** The three sorts are one sort by the rule, of the same decisions. */
  lemma RankedByTheRule(decisions: seq<Decision>)
    requires DistinctPhrases(decisions)
    ensures SortedBy(RankedList(decisions), Beats)
    ensures multiset(RankedList(decisions)) == multiset(decisions)
  {
    KeysAreWeakOrders();
    assert SortedBy(decisions, DifferentIds);
    hide IsWeakOrder, Then, StableSort, Beats, SortedBy;
    var byId := StableSort(decisions, LowerId);
    var byStudied := StableSort(byId, StudiedLater);
    StableSortRefines(decisions, LowerId, DifferentIds);
    StableSortRefines(byId, StudiedLater, Then(LowerId, DifferentIds));
    StableSortRefines(byStudied, BoundFirst, Then(StudiedLater, Then(LowerId, DifferentIds)));
    SortedByTheRule(RankedList(decisions));
  }

  lemma SortedByTheRule(list: seq<Decision>)
    requires SortedBy(list, Then(BoundFirst, Then(StudiedLater, Then(LowerId, DifferentIds))))
    ensures SortedBy(list, Beats)
  {
    hide Then, Beats;
    forall i, j | 0 <= i < j < |list|
      ensures Beats(list[i], list[j])
    {
      ThenIsTheRule(list[i], list[j]);
    }
  }

  lemma SortingKeepsElements(list: seq<Decision>, before: (Decision, Decision) -> bool)
    requires IsWeakOrder(before)
    ensures multiset(StableSort(list, before)) == multiset(list)
  {
    var any := (a: Decision, b: Decision) => true;
    StableSortRefines(list, before, any);
  }

  /** The list sorted in place three times: the same decisions, in the order of the rule. */
  method Ranked(decisions: seq<Decision>) returns (ranked: seq<Decision>)
    ensures multiset(ranked) == multiset(decisions)
    ensures DistinctPhrases(decisions) ==> SortedBy(ranked, Beats)
    ensures ranked == RankedList(decisions)
  {
    KeysAreWeakOrders();
    if DistinctPhrases(decisions) {
      RankedByTheRule(decisions);
    }
    hide IsWeakOrder, StableSort, SortedBy;
    SortingKeepsElements(decisions, LowerId);
    ranked := StableSort(decisions, LowerId);
    SortingKeepsElements(ranked, StudiedLater);
    ranked := StableSort(ranked, StudiedLater);
    SortingKeepsElements(ranked, BoundFirst);
    ranked := StableSort(ranked, BoundFirst);
  }

  lemma {:induction false} OneOrder(a: seq<Decision>, b: seq<Decision>)
    requires SortedBy(a, Beats) && SortedBy(b, Beats)
    requires |a| == |b| && forall d :: d in a <==> d in b
    ensures a == b
  {
    if a != [] {
      assert a[0] in b;
      assert b[0] in a;
      var k :| 0 <= k < |b| && b[k] == a[0];
      var l :| 0 <= l < |a| && a[l] == b[0];
      assert a[0] == b[0];
      TailIsTheRest(a);
      TailIsTheRest(b);
      OneOrder(a[1..], b[1..]);
      assert a == [a[0]] + a[1..] && b == [b[0]] + b[1..];
    }
  }

  lemma TailIsTheRest(a: seq<Decision>)
    requires a != [] && SortedBy(a, Beats)
    ensures forall d :: d in a[1..] <==> d in a && d != a[0]
  {
    forall d
      ensures d in a[1..] <==> d in a && d != a[0]
    {
      if d in a[1..] {
        var i :| 0 <= i < |a[1..]| && a[1..][i] == d;
        assert a[i + 1] == d;
      }
      if d in a && d != a[0] {
        var i :| 0 <= i < |a| && a[i] == d;
        assert a[1..][i - 1] == d;
      }
    }
  }

  /** The ranking does not depend on the order the rows were read in. */
  lemma RankedInAnyOrder(a: seq<Decision>, b: seq<Decision>)
    requires DistinctPhrases(a) && DistinctPhrases(b) && multiset(a) == multiset(b)
    ensures RankedList(a) == RankedList(b)
  {
    RankedByTheRule(a);
    RankedByTheRule(b);
    assert |RankedList(a)| == |multiset(a)| == |RankedList(b)|;
    forall d
      ensures d in RankedList(a) <==> d in RankedList(b)
    {
      assert d in multiset(RankedList(a)) <==> d in multiset(RankedList(b));
    }
    OneOrder(RankedList(a), RankedList(b));
  }

  /** The head of the ranking beats every other decision. */
  lemma HeadBeatsAll(decisions: seq<Decision>)
    requires decisions != [] && DistinctPhrases(decisions)
    ensures RankedList(decisions) != [] && RankedList(decisions)[0] in decisions
    ensures forall d | d in decisions && d != RankedList(decisions)[0] :: Beats(RankedList(decisions)[0], d)
  {
    var ranked := RankedList(decisions);
    RankedByTheRule(decisions);
    assert decisions[0] in multiset(ranked);
    assert ranked[0] in multiset(decisions);
    forall d | d in decisions && d != ranked[0]
      ensures Beats(ranked[0], d)
    {
      assert d in multiset(ranked);
      var i :| 0 <= i < |ranked| && ranked[i] == d;
    }
  }

  // ── Why one won ─────────────────────────────────────────────────────

  datatype Reason = ByBinding | ByStudiedAt | ById

  function Why(winner: Decision, loser: Decision): Reason {
    if winner.bound != loser.bound then ByBinding
    else if winner.studiedAt != loser.studiedAt then ByStudiedAt
    else ById
  }

  /** The reason given is the first key the two differ by, and the winner is ahead by it. */
  lemma WhyNamesTheKey(winner: Decision, loser: Decision)
    requires Beats(winner, loser)
    ensures Why(winner, loser).ByBinding? <==> BoundFirst(winner, loser)
    ensures Why(winner, loser).ByStudiedAt? <==>
              winner.bound == loser.bound && StudiedLater(winner, loser)
    ensures Why(winner, loser).ById? <==>
              winner.bound == loser.bound && winner.studiedAt == loser.studiedAt
    ensures Why(winner, loser).ById? ==> LowerId(winner, loser)
  {
  }
}
