/** Finite sets of row ids. */
module Sets {

  lemma SomeElement<T>(s: set<T>) returns (x: T)
    requires s != {}
    ensures x in s
  {
    x :| x in s;
  }

  lemma {:induction false} LeastElement(s: set<int>) returns (least: int)
    requires s != {}
    ensures least in s && forall x | x in s :: least <= x
  {
    var x := SomeElement(s);
    least := x;
    var others := s - {x};
    if others != {} {
      var rest := LeastElement(others);
      least := if rest < x then rest else x;
    }
    forall y | y in s
      ensures least <= y
    {
      assert y == x || y in others;
    }
  }

  ghost predicate Ascending(ids: seq<int>) {
    forall i, j | 0 <= i < j < |ids| :: ids[i] < ids[j]
  }

  /** There is one ascending list of the same ids. */
  lemma {:induction false} OneAscendingList(a: seq<int>, b: seq<int>)
    requires Ascending(a) && Ascending(b)
    requires forall x :: x in a <==> x in b
    ensures a == b
  {
    assert |a| > 0 ==> a[0] in a && a[0] in b;
    assert |b| > 0 ==> b[0] in b && b[0] in a;
    if a != [] && b != [] {
      var m, n := |a| - 1, |b| - 1;
      assert a[m] in b && b[n] in a;
      assert a[m] == b[n];
      forall x
        ensures x in a[..m] <==> x in b[..n]
      {
        assert x in a[..m] <==> x in a && x != a[m];
        assert x in b[..n] <==> x in b && x != b[n];
      }
      OneAscendingList(a[..m], b[..n]);
      assert a == a[..m] + [a[m]] && b == b[..n] + [b[n]];
    }
  }

  /** The ids of a table, as ORDER BY id gives them. */
  method Sorted(ids: set<int>) returns (sorted: seq<int>)
    ensures Ascending(sorted)
    ensures forall x :: x in sorted <==> x in ids
  {
    sorted := [];
    var rest := ids;
    while rest != {}
      invariant rest <= ids
      invariant Ascending(sorted)
      invariant forall x :: x in sorted <==> x in ids && x !in rest
      invariant forall x, y | x in sorted && y in rest :: x < y
      decreases rest
    {
      ghost var known := LeastElement(rest);
      var least :| least in rest && forall x | x in rest :: least <= x;
      assert forall i | 0 <= i < |sorted| :: sorted[i] in sorted;
      sorted := sorted + [least];
      rest := rest - {least};
    }
  }
}
