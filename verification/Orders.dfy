/** Orders of texts, and sorting by a key. */
module Orders {

  // ── Order of texts ──────────────────────────────────────────────────

  /** Whether a text comes before another in alphabetical order. */
  predicate Precedes(a: string, b: string) {
    if b == [] then false
    else if a == [] then true
    else if a[0] != b[0] then a[0] < b[0]
    else Precedes(a[1..], b[1..])
  }

  lemma SameFirst(a: string, b: string, k: nat)
    requires k <= |a| && k <= |b| && a[..k] == b[..k]
    ensures k > 0 ==> a != [] && b != [] && a[0] == b[0] && a[1..][..k - 1] == b[1..][..k - 1]
  {
    if k > 0 {
      assert a[..k][0] == b[..k][0];
      assert a[1..][..k - 1] == a[..k][1..] == b[..k][1..] == b[1..][..k - 1];
    }
  }

  /** Whether two texts go the same way for so long, and then the first ends or goes on with the
      lesser character. */
  predicate PartsAt(a: string, b: string, k: int) {
    0 <= k <= |a| && k < |b| && a[..k] == b[..k] && (k < |a| ==> a[k] < b[k])
  }

  lemma {:induction false} PrecedesIs(a: string, b: string)
    ensures Precedes(a, b) <==> exists k :: PartsAt(a, b, k)
  {
    if k :| PartsAt(a, b, k) {
      SameFirst(a, b, k);
      if k > 0 {
        PrecedesIs(a[1..], b[1..]);
        assert PartsAt(a[1..], b[1..], k - 1);
      }
    }
    if Precedes(a, b) {
      if a == [] || a[0] != b[0] {
        assert PartsAt(a, b, 0);
      } else {
        PrecedesIs(a[1..], b[1..]);
        var k :| PartsAt(a[1..], b[1..], k);
        assert a[..k + 1] == [a[0]] + a[1..][..k] && b[..k + 1] == [b[0]] + b[1..][..k];
        assert PartsAt(a, b, k + 1);
      }
    }
  }

  lemma {:induction false} PrecedesIsTotal(a: string, b: string)
    ensures !(Precedes(a, b) && Precedes(b, a))
    ensures a != b ==> Precedes(a, b) || Precedes(b, a)
  {
    if a != [] && b != [] && a[0] == b[0] {
      assert a == [a[0]] + a[1..] && b == [b[0]] + b[1..];
      PrecedesIsTotal(a[1..], b[1..]);
    }
  }

  lemma {:induction false} PrecedesIsTransitive(a: string, b: string, c: string)
    requires Precedes(a, b) && Precedes(b, c)
    ensures Precedes(a, c)
  {
    if a != [] && b != [] && c != [] && a[0] == b[0] == c[0] {
      PrecedesIsTransitive(a[1..], b[1..], c[1..]);
    }
  }

  // ── A stable sort ───────────────────────────────────────────────────

  function Insert<T>(d: T, sorted: seq<T>, before: (T, T) -> bool): seq<T> {
    if sorted == [] then [d]
    else if before(sorted[0], d) then [sorted[0]] + Insert(d, sorted[1..], before)
    else [d] + sorted
  }

  /** The list sorted by a key, as the language's own sort does it: `before` says that one key
      is less, and elements of equal keys keep their order. */
  function StableSort<T>(list: seq<T>, before: (T, T) -> bool): seq<T> {
    if list == [] then [] else Insert(list[0], StableSort(list[1..], before), before)
  }

  ghost predicate IsWeakOrder<T(!new)>(before: (T, T) -> bool) {
    && (forall a, b :: before(a, b) ==> !before(b, a))
    && (forall a, b, c :: before(a, b) ==> before(a, c) || before(c, b))
  }

  ghost predicate SortedBy<T>(list: seq<T>, order: (T, T) -> bool) {
    forall i, j | 0 <= i < j < |list| :: order(list[i], list[j])
  }

  /** First by one order, then by another. */
  function Then<T>(before: (T, T) -> bool, order: (T, T) -> bool): (T, T) -> bool {
    (a, b) => before(a, b) || (!before(b, a) && order(a, b))
  }

  lemma {:induction false} InsertKeepsElements<T(!new)>(
    d: T, sorted: seq<T>, before: (T, T) -> bool)
    ensures multiset(Insert(d, sorted, before)) == multiset(sorted) + multiset{d}
    ensures forall other | other in Insert(d, sorted, before) :: other == d || other in sorted
  {
    if sorted != [] {
      assert sorted == [sorted[0]] + sorted[1..];
      InsertKeepsElements(d, sorted[1..], before);
    }
  }

  lemma {:induction false} InsertKeepsOrder<T(!new)>(
    d: T, sorted: seq<T>, before: (T, T) -> bool,
    order: (T, T) -> bool)
    requires IsWeakOrder(before)
    requires SortedBy(sorted, Then(before, order))
    requires forall other | other in sorted :: order(d, other)
    ensures SortedBy(Insert(d, sorted, before), Then(before, order))
  {
    if sorted != [] {
      var first := sorted[0];
      if before(first, d) {
        InsertKeepsOrder(d, sorted[1..], before, order);
        InsertKeepsElements(d, sorted[1..], before);
        var rest := Insert(d, sorted[1..], before);
        forall j | 0 <= j < |rest|
          ensures Then(before, order)(first, rest[j])
        {
          assert rest[j] in rest;
          if rest[j] != d {
            var k :| 0 <= k < |sorted[1..]| && sorted[1..][k] == rest[j];
            assert sorted[k + 1] == rest[j];
          }
        }
      } else {
        forall j | 0 <= j < |sorted|
          ensures Then(before, order)(d, sorted[j])
        {
          var other := sorted[j];
          assert order(d, other);
          assert j > 0 ==> Then(before, order)(first, other);
          assert before(other, d) ==> before(other, first) || before(first, d);
        }
      }
    }
  }

  /** Sorting by a key refines the order the list had: equal keys stay in that order. */
  lemma {:induction false} StableSortRefines<T(!new)>(
    list: seq<T>, before: (T, T) -> bool, order: (T, T) -> bool)
    requires IsWeakOrder(before) && SortedBy(list, order)
    ensures SortedBy(StableSort(list, before), Then(before, order))
    ensures multiset(StableSort(list, before)) == multiset(list)
  {
    if list != [] {
      assert list == [list[0]] + list[1..];
      var rest := StableSort(list[1..], before);
      StableSortRefines(list[1..], before, order);
      InsertKeepsElements(list[0], rest, before);
      forall other | other in rest
        ensures order(list[0], other)
      {
        assert other in multiset(rest);
      }
      InsertKeepsOrder(list[0], rest, before, order);
    }
  }
}
