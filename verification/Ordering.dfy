/** Sorting under an arbitrary total order, as the source's `sorted` does. */
module Ordering {
  import opened Sequences

  ghost predicate TotalPreorder<T(!new)>(leq: (T, T) -> bool) {
    && (forall x, y :: leq(x, y) || leq(y, x))
    && (forall x, y, z :: leq(x, y) && leq(y, z) ==> leq(x, z))
  }

  ghost predicate TotalOrder<T(!new)>(leq: (T, T) -> bool) {
    TotalPreorder(leq) && forall x, y :: leq(x, y) && leq(y, x) ==> x == y
  }

  ghost predicate Sorted<T>(leq: (T, T) -> bool, s: seq<T>) {
    forall i, j :: 0 <= i < j < |s| ==> leq(s[i], s[j])
  }

  ghost predicate Ascending<T>(leq: (T, T) -> bool, s: seq<T>) {
    forall i, j :: 0 <= i < j < |s| ==> leq(s[i], s[j]) && s[i] != s[j]
  }

  /** Puts `x` after everything not greater, so equal elements keep their order. */
  function Insert<T>(leq: (T, T) -> bool, s: seq<T>, x: T): (r: seq<T>)
    ensures |r| == |s| + 1
  {
    if s == [] || leq(s[|s| - 1], x) then s + [x]
    else Insert(leq, s[..|s| - 1], x) + [s[|s| - 1]]
  }

  function Sort<T>(leq: (T, T) -> bool, s: seq<T>): (r: seq<T>)
    ensures |r| == |s|
  {
    if s == [] then [] else Insert(leq, Sort(leq, s[..|s| - 1]), s[|s| - 1])
  }

  lemma {:induction false} InsertCounts<T>(leq: (T, T) -> bool, s: seq<T>, x: T)
    ensures multiset(Insert(leq, s, x)) == multiset(s) + multiset{x}
  {
    if s != [] && !leq(s[|s| - 1], x) {
      assert s == s[..|s| - 1] + [s[|s| - 1]];
      InsertCounts(leq, s[..|s| - 1], x);
    }
  }

  lemma SortedOneMore<T>(leq: (T, T) -> bool, s: seq<T>, x: T)
    requires Sorted(leq, s) && forall y :: y in s ==> leq(y, x)
    ensures Sorted(leq, s + [x])
  {}

  lemma {:induction false} InsertSorts<T(!new)>(leq: (T, T) -> bool, s: seq<T>, x: T)
    requires TotalPreorder(leq) && Sorted(leq, s)
    ensures Sorted(leq, Insert(leq, s, x))
  {
    if s == [] || leq(s[|s| - 1], x) {
      SortedOneMore(leq, s, x);
    } else {
      var init, last := s[..|s| - 1], s[|s| - 1];
      InsertSorts(leq, init, x);
      InsertCounts(leq, init, x);
      forall y | y in Insert(leq, init, x) ensures leq(y, last) {
        assert y in multiset(Insert(leq, init, x));
      }
      SortedOneMore(leq, Insert(leq, init, x), last);
    }
  }

  lemma {:induction false} SortSorts<T(!new)>(leq: (T, T) -> bool, s: seq<T>)
    requires TotalPreorder(leq)
    ensures Sorted(leq, Sort(leq, s)) && multiset(Sort(leq, s)) == multiset(s)
  {
    if s != [] {
      assert s == s[..|s| - 1] + [s[|s| - 1]];
      SortSorts(leq, s[..|s| - 1]);
      InsertSorts(leq, Sort(leq, s[..|s| - 1]), s[|s| - 1]);
      InsertCounts(leq, Sort(leq, s[..|s| - 1]), s[|s| - 1]);
    }
  }

  lemma SortOneMore<T>(leq: (T, T) -> bool, s: seq<T>, x: T)
    ensures Sort(leq, s + [x]) == Insert(leq, Sort(leq, s), x)
  {
    assert (s + [x])[..|s|] == s;
  }

  lemma InsertLast<T>(leq: (T, T) -> bool, s: seq<T>, x: T)
    requires Sorted(leq, s + [x])
    ensures Insert(leq, s, x) == s + [x] && Sorted(leq, s)
  {
    var all := s + [x];
    assert forall i :: 0 <= i < |s| ==> s[i] == all[i];
    if s != [] {
      assert leq(all[|s| - 1], all[|s|]);
    }
  }

  /** Sorting is stable: what is sorted already stays as it is. */
  lemma {:induction false} SortedStays<T(!new)>(leq: (T, T) -> bool, s: seq<T>)
    requires Sorted(leq, s)
    ensures Sort(leq, s) == s
  {
    if s != [] {
      var init, last := s[..|s| - 1], s[|s| - 1];
      assert s == init + [last];
      InsertLast(leq, init, last);
      SortedStays(leq, init);
      SortOneMore(leq, init, last);
    }
  }

  lemma MembersOfSort<T(!new)>(leq: (T, T) -> bool, s: seq<T>)
    requires TotalPreorder(leq)
    ensures forall x :: x in Sort(leq, s) <==> x in s
  {
    SortSorts(leq, s);
    forall x ensures x in Sort(leq, s) <==> x in s {
      assert x in multiset(Sort(leq, s)) <==> x in multiset(s);
    }
  }

  /** The elements of a set in ascending order, as `sorted(set)` gives them. */
  method SortedKeys<T(==,!new)>(leq: (T, T) -> bool, keys: set<T>) returns (r: seq<T>)
    requires TotalOrder(leq)
    ensures Ascending(leq, r) && forall x :: x in r <==> x in keys
  {
    r := [];
    var rest := keys;
    while rest != {}
      invariant rest <= keys && Ascending(leq, r) && forall x :: x in r <==> x in keys - rest
      decreases rest
    {
      var x :| x in rest;
      InsertAscends(leq, r, x);
      r := Insert(leq, r, x);
      rest := rest - {x};
    }
  }

  lemma InsertAscends<T(!new)>(leq: (T, T) -> bool, s: seq<T>, x: T)
    requires TotalOrder(leq) && Ascending(leq, s) && x !in s
    ensures Ascending(leq, Insert(leq, s, x)) && forall y :: y in Insert(leq, s, x) <==> y in s || y == x
  {
    InsertSorts(leq, s, x);
    InsertCounts(leq, s, x);
    var r := Insert(leq, s, x);
    forall y ensures y in r <==> y in s || y == x {
      assert y in multiset(r) <==> y in multiset(s) || y == x;
    }
    NoRepeatsOneMore(s, x);
    RearrangedNoRepeats(s + [x], r);
  }

  /** Only one ascending listing of a set exists. */
  lemma {:induction false} AscendingUnique<T(!new)>(leq: (T, T) -> bool, a: seq<T>, b: seq<T>)
    requires TotalOrder(leq) && Ascending(leq, a) && Ascending(leq, b) && forall x :: x in a <==> x in b
    ensures a == b
  {
    if a == [] {
      assert forall i :: 0 <= i < |b| ==> b[i] in a;
    } else {
      var x := a[0];
      assert x in b;
      var j :| 0 <= j < |b| && b[j] == x;
      assert b[0] in a;
      assert j == 0;
      forall y ensures y in a[1..] <==> y in b[1..] {
        assert y in a[1..] ==> y in a && y != x;
        assert y in b[1..] ==> y in b && y != x;
        assert y in a && y != x ==> y in a[1..] by { AfterFirst(a, y); }
        assert y in b && y != x ==> y in b[1..] by { AfterFirst(b, y); }
      }
      AscendingUnique(leq, a[1..], b[1..]);
      assert a == [x] + a[1..] && b == [x] + b[1..];
    }
  }

  lemma AfterFirst<T>(s: seq<T>, y: T)
    requires s != []
    ensures y in s && y != s[0] ==> y in s[1..]
  {
    assert s == [s[0]] + s[1..];
  }

  /** Sorting distinct elements lists them in ascending order. */
  lemma SortAscends<T(!new)>(leq: (T, T) -> bool, s: seq<T>)
    requires TotalPreorder(leq) && NoRepeats(s)
    ensures Ascending(leq, Sort(leq, s)) && forall x :: x in Sort(leq, s) <==> x in s
  {
    SortSorts(leq, s);
    MembersOfSort(leq, s);
    RearrangedNoRepeats(s, Sort(leq, s));
  }
}
