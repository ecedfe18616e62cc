/** Filtering, grouping and chaining of sequences, as comprehensions and ordered dicts do. */
module Grouping {
  import opened Sequences

  function Filter<T>(s: seq<T>, keep: T -> bool): (r: seq<T>)
    ensures |r| <= |s|
  {
    if s == [] then []
    else if keep(s[|s| - 1]) then Filter(s[..|s| - 1], keep) + [s[|s| - 1]] else Filter(s[..|s| - 1], keep)
  }

  lemma FilterOneMore<T>(s: seq<T>, x: T, keep: T -> bool)
    ensures Filter(s + [x], keep) == if keep(x) then Filter(s, keep) + [x] else Filter(s, keep)
  {
    assert (s + [x])[..|s|] == s;
  }

  lemma {:induction false} FilterMembers<T>(s: seq<T>, keep: T -> bool, x: T)
    ensures x in Filter(s, keep) <==> x in s && keep(x)
  {
    if s != [] {
      assert s == s[..|s| - 1] + [s[|s| - 1]];
      FilterMembers(s[..|s| - 1], keep, x);
    }
  }

  lemma {:induction false} FilterNoRepeats<T>(s: seq<T>, keep: T -> bool)
    requires NoRepeats(s)
    ensures NoRepeats(Filter(s, keep))
  {
    if s != [] {
      var init, last := s[..|s| - 1], s[|s| - 1];
      assert s == init + [last];
      NoRepeatsOneMore(init, last);
      FilterNoRepeats(init, keep);
      FilterMembers(init, keep, last);
      NoRepeatsOneMore(Filter(init, keep), last);
    }
  }

  /** The pieces of the items, one after another. */
  function Chain<A, B>(items: seq<A>, piece: A -> seq<B>): seq<B> {
    if items == [] then [] else Chain(items[..|items| - 1], piece) + piece(items[|items| - 1])
  }

  lemma ChainOneMore<A, B>(items: seq<A>, a: A, piece: A -> seq<B>)
    ensures Chain(items + [a], piece) == Chain(items, piece) + piece(a)
  {
    assert (items + [a])[..|items|] == items;
  }

  lemma {:induction false} ChainConcat<A, B>(a: seq<A>, b: seq<A>, piece: A -> seq<B>)
    ensures Chain(a + b, piece) == Chain(a, piece) + Chain(b, piece)
  {
    if b == [] {
      assert a + b == a;
    } else {
      assert (a + b)[..|a + b| - 1] == a + b[..|b| - 1];
      ChainConcat(a, b[..|b| - 1], piece);
    }
  }

  lemma {:induction false} ChainMembers<A, B>(items: seq<A>, piece: A -> seq<B>, b: B)
    ensures b in Chain(items, piece) <==> exists a :: a in items && b in piece(a)
  {
    if items != [] {
      var init, last := items[..|items| - 1], items[|items| - 1];
      assert items == init + [last];
      ChainMembers(init, piece, b);
      if a :| a in items && b in piece(a) {
        assert a in init || a == last;
      }
    }
  }

  /** Pieces without repeats that share nothing chain to a sequence without repeats. */
  lemma {:induction false} ChainNoRepeats<A, B>(items: seq<A>, piece: A -> seq<B>)
    requires NoRepeats(items)
    requires forall a :: a in items ==> NoRepeats(piece(a))
    requires forall a, b, x :: a in items && b in items && x in piece(a) && x in piece(b) ==> a == b
    ensures NoRepeats(Chain(items, piece))
  {
    if items != [] {
      var init, last := items[..|items| - 1], items[|items| - 1];
      assert items == init + [last];
      NoRepeatsOneMore(init, last);
      ChainNoRepeats(init, piece);
      forall x | x in Chain(init, piece) ensures x !in piece(last) {
        ChainMembers(init, piece, x);
      }
      NoRepeatsConcat(Chain(init, piece), piece(last));
    }
  }

  lemma {:induction false} FilterConcat<T>(a: seq<T>, b: seq<T>, keep: T -> bool)
    ensures Filter(a + b, keep) == Filter(a, keep) + Filter(b, keep)
  {
    if b == [] {
      assert a + b == a;
    } else {
      var init, last := b[..|b| - 1], b[|b| - 1];
      assert a + b == (a + init) + [last] && b == init + [last];
      FilterOneMore(a + init, last, keep);
      FilterOneMore(init, last, keep);
      FilterConcat(a, init, keep);
    }
  }

  lemma {:induction false} FilterAll<T>(s: seq<T>, keep: T -> bool)
    requires forall x :: x in s ==> keep(x)
    ensures Filter(s, keep) == s
  {
    if s != [] {
      assert s == s[..|s| - 1] + [s[|s| - 1]];
      FilterAll(s[..|s| - 1], keep);
    }
  }

  lemma FilterNone<T>(s: seq<T>, keep: T -> bool)
    requires forall x :: x in s ==> !keep(x)
    ensures Filter(s, keep) == []
  {
    var kept := Filter(s, keep);
    if kept != [] {
      FilterMembers(s, keep, kept[0]);
    }
  }

  lemma {:induction false} FilterSame<T>(s: seq<T>, f: T -> bool, g: T -> bool)
    requires forall x :: x in s ==> f(x) == g(x)
    ensures Filter(s, f) == Filter(s, g)
  {
    if s != [] {
      assert s[|s| - 1] in s;
      FilterSame(s[..|s| - 1], f, g);
    }
  }

  lemma {:induction false} FilterTwice<T(!new)>(s: seq<T>, first: T -> bool, second: T -> bool, both: T -> bool)
    requires forall x :: both(x) <==> first(x) && second(x)
    ensures Filter(Filter(s, first), second) == Filter(s, both)
  {
    if s != [] {
      var init, last := s[..|s| - 1], s[|s| - 1];
      FilterTwice(init, first, second, both);
      FilterOneMore(Filter(init, first), last, second);
    }
  }

  /** `i` is the only place where the test holds. */
  ghost predicate OnlyAt<T>(s: seq<T>, keep: T -> bool, i: nat) {
    i < |s| && keep(s[i]) && forall j :: 0 <= j < |s| && j != i ==> !keep(s[j])
  }

  lemma OnlyAtOneMore<T(!new)>(init: seq<T>, last: T, keep: T -> bool, i: nat)
    ensures OnlyAt(init + [last], keep, i)
            <==> if i < |init| then OnlyAt(init, keep, i) && !keep(last)
                 else i == |init| && keep(last) && forall x :: x in init ==> !keep(x)
  {
    var s := init + [last];
    assert forall j :: 0 <= j < |init| ==> s[j] == init[j] && init[j] in init;
    assert s[|init|] == last;
  }

  /** Filtering leaves one element exactly when the test holds at one place. */
  lemma {:induction false} FilterOne<T(!new)>(s: seq<T>, keep: T -> bool, x: T)
    ensures Filter(s, keep) == [x] <==> exists i: nat :: OnlyAt(s, keep, i) && s[i] == x
  {
    if s != [] {
      var init, last := s[..|s| - 1], s[|s| - 1];
      assert s == init + [last];
      FilterOne(init, keep, x);
      FilterOneMore(init, last, keep);
      if keep(last) {
        OnlyAtOneMore(init, last, keep, |init|);
        if Filter(s, keep) == [x] {
          assert |Filter(init, keep)| == 0;
          FilterNoneBack(init, keep);
          assert Filter(s, keep)[0] == last;
          assert OnlyAt(s, keep, |init|) && s[|init|] == x;
        }
        if i: nat :| OnlyAt(s, keep, i) && s[i] == x {
          OnlyAtOneMore(init, last, keep, i);
          FilterNone(init, keep);
        }
      } else {
        if i: nat :| OnlyAt(init, keep, i) && init[i] == x {
          OnlyAtOneMore(init, last, keep, i);
          assert s[i] == x;
        }
        if i: nat :| OnlyAt(s, keep, i) && s[i] == x {
          OnlyAtOneMore(init, last, keep, i);
          assert init[i] == x;
        }
      }
    }
  }

  lemma FilterNoneBack<T(!new)>(s: seq<T>, keep: T -> bool)
    requires Filter(s, keep) == []
    ensures forall x :: x in s ==> !keep(x)
  {
    forall x | x in s ensures !keep(x) {
      FilterMembers(s, keep, x);
    }
  }

  /** When only the piece of `a` holds anything to keep, that is what is kept of the chain. */
  lemma {:induction false} FilterOfOnePiece<A, B>(items: seq<A>, piece: A -> seq<B>, keep: B -> bool, a: A)
    requires NoRepeats(items)
    requires forall b, x :: b in items && b != a && x in piece(b) ==> !keep(x)
    ensures Filter(Chain(items, piece), keep) == if a in items then Filter(piece(a), keep) else []
  {
    if items != [] {
      var init, last := items[..|items| - 1], items[|items| - 1];
      assert items == init + [last];
      NoRepeatsOneMore(init, last);
      FilterOfOnePiece(init, piece, keep, a);
      FilterConcat(Chain(init, piece), piece(last), keep);
      if last != a {
        FilterNone(piece(last), keep);
      }
    }
  }

  // ----- pairs -----

  function PairsWith<T>(a: T, s: seq<T>): (r: seq<(T, T)>)
    ensures |r| == |s| && forall j :: 0 <= j < |s| ==> r[j] == (a, s[j])
  {
    seq(|s|, j requires 0 <= j < |s| => (a, s[j]))
  }

  /** Every element with every later one. */
  function Pairs<T>(s: seq<T>): seq<(T, T)> {
    if s == [] then [] else PairsWith(s[0], s[1..]) + Pairs(s[1..])
  }

  lemma {:induction false} PairsMembers<T>(s: seq<T>, a: T, b: T)
    ensures (a, b) in Pairs(s) <==> exists i, j :: 0 <= i < j < |s| && s[i] == a && s[j] == b
  {
    if s != [] {
      var rest := s[1..];
      PairsMembers(rest, a, b);
      if i, j :| 0 <= i < j < |s| && s[i] == a && s[j] == b {
        if i == 0 {
          assert PairsWith(s[0], rest)[j - 1] == (a, b);
        } else {
          assert rest[i - 1] == a && rest[j - 1] == b;
        }
      }
      if (a, b) in PairsWith(s[0], rest) {
        var j :| 0 <= j < |rest| && PairsWith(s[0], rest)[j] == (a, b);
        assert s[0] == a && s[j + 1] == b;
      }
      if i, j :| 0 <= i < j < |rest| && rest[i] == a && rest[j] == b {
        assert s[i + 1] == a && s[j + 1] == b;
      }
    }
  }

  lemma {:induction false} PairsNoRepeats<T>(s: seq<T>)
    requires NoRepeats(s)
    ensures NoRepeats(Pairs(s))
  {
    if s != [] {
      PairsNoRepeats(s[1..]);
      forall p | p in PairsWith(s[0], s[1..]) ensures p !in Pairs(s[1..]) {
        PairsMembers(s[1..], p.0, p.1);
      }
      NoRepeatsConcat(PairsWith(s[0], s[1..]), Pairs(s[1..]));
    }
  }

  // ----- grouping -----

  /** The keys of the items, in order of first appearance. */
  function FirstSeen<K(==), V>(items: seq<V>, key: V -> K): seq<K> {
    if items == [] then []
    else
      var before := FirstSeen(items[..|items| - 1], key);
      if key(items[|items| - 1]) in before then before else before + [key(items[|items| - 1])]
  }

  function Having<K(==), V>(items: seq<V>, key: V -> K, k: K): seq<V> {
    Filter(items, v => key(v) == k)
  }

  lemma FirstSeenOneMore<K, V>(items: seq<V>, v: V, key: V -> K)
    ensures FirstSeen(items + [v], key)
         == if key(v) in FirstSeen(items, key) then FirstSeen(items, key) else FirstSeen(items, key) + [key(v)]
  {
    assert (items + [v])[..|items|] == items;
  }

  lemma {:induction false} FirstSeenExactly<K(!new), V>(items: seq<V>, key: V -> K)
    ensures NoRepeats(FirstSeen(items, key))
    ensures forall k :: k in FirstSeen(items, key) <==> exists v :: v in items && key(v) == k
  {
    if items != [] {
      var init, last := items[..|items| - 1], items[|items| - 1];
      assert items == init + [last];
      FirstSeenExactly(init, key);
      NoRepeatsOneMore(FirstSeen(init, key), key(last));
      FirstSeenOneMore(init, last, key);
      forall k ensures k in FirstSeen(items, key) <==> exists v :: v in items && key(v) == k {
        if v :| v in items && key(v) == k {
          assert v in init || v == last;
        }
        if k == key(last) {
          assert last in items;
        }
      }
    }
  }

  ghost predicate GroupedBy<K(!new), V>(items: seq<V>, key: V -> K, order: seq<K>, groups: map<K, seq<V>>) {
    && order == FirstSeen(items, key)
    && (forall k :: k in groups <==> k in order)
    && Groups(items, key, groups)
  }

  ghost predicate Groups<K(!new), V>(items: seq<V>, key: V -> K, groups: map<K, seq<V>>) {
    forall k :: Having(items, key, k) == if k in groups then groups[k] else []
  }

  lemma GroupsGrow<K(!new), V>(items: seq<V>, v: V, key: V -> K, groups: map<K, seq<V>>)
    requires Groups(items, key, groups)
    ensures var group := if key(v) in groups then groups[key(v)] else [];
            Groups(items + [v], key, groups[key(v) := group + [v]])
  {
    var group := if key(v) in groups then groups[key(v)] else [];
    var grown := groups[key(v) := group + [v]];
    forall k: K ensures Having(items + [v], key, k) == if k in grown then grown[k] else [] {
      FilterOneMore(items, v, (w: V) => key(w) == k);
      HavingIsFilter(items, key, k);
      HavingIsFilter(items + [v], key, k);
    }
  }

  lemma HavingIsFilter<K, V>(items: seq<V>, key: V -> K, k: K)
    ensures Having(items, key, k) == Filter(items, (w: V) => key(w) == k)
  {}

  lemma HavingMembers<K, V>(items: seq<V>, key: V -> K, k: K, v: V)
    ensures v in Having(items, key, k) <==> v in items && key(v) == k
  {
    FilterMembers(items, (w: V) => key(w) == k, v);
  }

  method GroupBy<K(==,!new), V>(items: seq<V>, key: V -> K) returns (order: seq<K>, groups: map<K, seq<V>>)
    ensures GroupedBy(items, key, order, groups)
  {
    order, groups := [], map[];
    for i := 0 to |items|
      invariant GroupedBy(items[..i], key, order, groups)
    {
      assert items[..i + 1] == items[..i] + [items[i]];
      FirstSeenOneMore(items[..i], items[i], key);
      GroupsGrow(items[..i], items[i], key, groups);
      var k := key(items[i]);
      if k !in groups {
        order := order + [k];
      }
      groups := groups[k := (if k in groups then groups[k] else []) + [items[i]]];
    }
    assert items[..|items|] == items;
  }
}
