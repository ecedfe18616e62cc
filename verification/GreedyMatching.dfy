/** One-to-one matching of expected rows against actual rows: each expected row takes
    the first remaining actual row that matches it. How good is that? */
module GreedyMatching {
  import opened Wrappers

  /** The first index from `start` on that is still left and whose row matches. */
  function FirstMatch<A, E>(actual: seq<A>, left: set<nat>, e: E, matches: (A, E) -> bool, start: nat): (found: Option<nat>)
    requires start <= |actual|
    ensures found.Some? ==> start <= found.value < |actual| && found.value in left && matches(actual[found.value], e)
    ensures forall i :: start <= i < |actual| && i in left && (found.Some? ==> i < found.value) ==> !matches(actual[i], e)
    decreases |actual| - start
  {
    if start == |actual| then None
    else if start in left && matches(actual[start], e) then Some(start)
    else FirstMatch(actual, left, e, matches, start + 1)
  }

  /** Which actual row each expected row from `next` on takes, out of the rows still `left`. */
  ghost function Greedy<A, E>(actual: seq<A>, expected: seq<E>, matches: (A, E) -> bool, next: nat, left: set<nat>): map<nat, nat>
    requires next <= |expected|
    decreases |expected| - next
  {
    if next == |expected| then map[]
    else
      match FirstMatch(actual, left, expected[next], matches, 0)
      case None => Greedy(actual, expected, matches, next + 1, left)
      case Some(i) => Greedy(actual, expected, matches, next + 1, left - {i})[next := i]
  }

  /** A one-to-one matching from expected index to actual index. */
  ghost predicate Pairing<A, E>(actual: seq<A>, expected: seq<E>, matches: (A, E) -> bool, pairs: map<nat, nat>) {
    && (forall j :: j in pairs ==> j < |expected| && pairs[j] < |actual| && matches(actual[pairs[j]], expected[j]))
    && OneToOne(pairs)
  }

  ghost predicate OneToOne(pairs: map<nat, nat>) {
    forall i, j :: i in pairs && j in pairs && i != j ==> pairs[i] != pairs[j]
  }

  ghost predicate Within(pairs: map<nat, nat>, next: nat, left: set<nat>) {
    forall j :: j in pairs ==> next <= j && pairs[j] in left
  }

  lemma {:induction false} GreedyIsPairing<A, E>(actual: seq<A>, expected: seq<E>, matches: (A, E) -> bool,
                                                 next: nat, left: set<nat>)
    requires next <= |expected|
    ensures var pairs := Greedy(actual, expected, matches, next, left);
            Pairing(actual, expected, matches, pairs) && Within(pairs, next, left)
    decreases |expected| - next
  {
    if next < |expected| {
      match FirstMatch(actual, left, expected[next], matches, 0)
      case None => GreedyIsPairing(actual, expected, matches, next + 1, left);
      case Some(i) => GreedyIsPairing(actual, expected, matches, next + 1, left - {i});
    }
  }

  // ----- at least half of any matching -----

  lemma {:induction false} SubsetSize<T>(a: set<T>, b: set<T>)
    requires a <= b
    ensures |a| <= |b|
    decreases a
  {
    if x :| x in a {
      SubsetSize(a - {x}, b - {x});
    }
  }

  /** What is left of `pairs` once the pair of `next` and the pair using `taken` are gone. */
  ghost function Avoid(pairs: map<nat, nat>, next: nat, taken: nat): map<nat, nat> {
    map j | j in pairs && j != next && pairs[j] != taken :: pairs[j]
  }

  lemma AvoidCosts(pairs: map<nat, nat>, next: nat, taken: nat)
    requires OneToOne(pairs)
    ensures |pairs| <= |Avoid(pairs, next, taken)| + if next in pairs then 2 else 1
  {
    var avoided := Avoid(pairs, next, taken);
    var users := set j | j in pairs && pairs[j] == taken;
    if user :| user in users {
      assert users == {user};
    }
    var lost := users + if next in pairs then {next} else {};
    assert pairs.Keys == avoided.Keys + lost;
    assert |avoided.Keys + lost| <= |avoided.Keys| + |lost|;
  }

  lemma NothingToPair<A, E>(actual: seq<A>, expected: seq<E>, matches: (A, E) -> bool,
                            next: nat, left: set<nat>, other: map<nat, nat>)
    requires next < |expected|
    requires Pairing(actual, expected, matches, other) && Within(other, next, left)
    requires FirstMatch(actual, left, expected[next], matches, 0).None?
    ensures Within(other, next + 1, left)
  {
    forall i | 0 <= i < |actual| && i in left ensures !matches(actual[i], expected[next]) {}
  }

  /** No one-to-one matching has more than twice as many pairs as the greedy one. */
  lemma {:induction false} AtLeastHalf<A, E>(actual: seq<A>, expected: seq<E>, matches: (A, E) -> bool,
                                             next: nat, left: set<nat>, other: map<nat, nat>)
    requires next <= |expected|
    requires Pairing(actual, expected, matches, other) && Within(other, next, left)
    ensures |other| <= 2 * |Greedy(actual, expected, matches, next, left)|
    decreases |expected| - next
  {
    if next == |expected| {
      assert other == map[];
    } else {
      match FirstMatch(actual, left, expected[next], matches, 0)
      case None =>
        NothingToPair(actual, expected, matches, next, left, other);
        AtLeastHalf(actual, expected, matches, next + 1, left, other);
      case Some(i) =>
        AvoidCosts(other, next, i);
        GreedyIsPairing(actual, expected, matches, next + 1, left - {i});
        AtLeastHalf(actual, expected, matches, next + 1, left - {i}, Avoid(other, next, i));
    }
  }

  // ----- a maximum matching when later rows can stand in -----

  /** If row `a` fits expected rows `d` and the later `e`, and `b` fits `d`, then `b` fits `e`. */
  ghost predicate Exchangeable<A, E>(expected: seq<E>, matches: (A, E) -> bool, a: A, b: A, d: nat, e: nat) {
    d < e < |expected| && matches(a, expected[d]) && matches(a, expected[e]) && matches(b, expected[d])
    ==> matches(b, expected[e])
  }

  /** So it is for the rows at hand: whoever loses a row to an earlier one can use what that one leaves. */
  ghost predicate OrderlyOn<A, E>(actual: seq<A>, expected: seq<E>, matches: (A, E) -> bool) {
    forall a, b, d, e :: 0 <= a < |actual| && 0 <= b < |actual| ==> Exchangeable(expected, matches, actual[a], actual[b], d, e)
  }

  /** `pairs` without `next`, once whoever used `taken` has moved to the row `next` had. */
  ghost function Reroute(pairs: map<nat, nat>, next: nat, taken: nat): map<nat, nat> {
    if next in pairs then
      map j | j in pairs && j != next :: if pairs[j] == taken then pairs[next] else pairs[j]
    else Avoid(pairs, next, taken)
  }

  lemma RerouteOneToOne(other: map<nat, nat>, next: nat, taken: nat)
    requires OneToOne(other)
    ensures var rerouted := Reroute(other, next, taken);
            && OneToOne(rerouted) && (forall j :: j in rerouted ==> rerouted[j] != taken)
            && |other| <= |rerouted| + 1
  {
    if next in other {
      assert other.Keys == Reroute(other, next, taken).Keys + {next};
    } else {
      AvoidCosts(other, next, taken);
    }
  }

  lemma RerouteIsPairing<A, E>(actual: seq<A>, expected: seq<E>, matches: (A, E) -> bool,
                               next: nat, left: set<nat>, taken: nat, other: map<nat, nat>)
    requires next < |expected| && taken < |actual| && matches(actual[taken], expected[next])
    requires OrderlyOn(actual, expected, matches)
    requires Pairing(actual, expected, matches, other) && Within(other, next, left)
    ensures var rerouted := Reroute(other, next, taken);
            && Pairing(actual, expected, matches, rerouted) && Within(rerouted, next + 1, left - {taken})
            && |other| <= |rerouted| + 1
  {
    var rerouted := Reroute(other, next, taken);
    RerouteOneToOne(other, next, taken);
    forall j | j in rerouted ensures matches(actual[rerouted[j]], expected[j]) {
      assert next in other ==> Exchangeable(expected, matches, actual[taken], actual[other[next]], next, j);
    }
  }

  /** Then no matching has more pairs than the greedy one. */
  lemma {:induction false} MaximumWhenOrderly<A, E>(actual: seq<A>, expected: seq<E>, matches: (A, E) -> bool,
                                                        next: nat, left: set<nat>, other: map<nat, nat>)
    requires next <= |expected| && OrderlyOn(actual, expected, matches)
    requires Pairing(actual, expected, matches, other) && Within(other, next, left)
    ensures |other| <= |Greedy(actual, expected, matches, next, left)|
    decreases |expected| - next
  {
    if next == |expected| {
      assert other == map[];
    } else {
      match FirstMatch(actual, left, expected[next], matches, 0)
      case None =>
        NothingToPair(actual, expected, matches, next, left, other);
        MaximumWhenOrderly(actual, expected, matches, next + 1, left, other);
      case Some(i) =>
        RerouteIsPairing(actual, expected, matches, next, left, i, other);
        GreedyIsPairing(actual, expected, matches, next + 1, left - {i});
        MaximumWhenOrderly(actual, expected, matches, next + 1, left - {i}, Reroute(other, next, i));
    }
  }

  // ----- when that is so for every list of actual rows -----

  ghost function Indices(n: nat): (all: set<nat>)
    ensures forall i: nat :: i in all <==> i < n
  {
    if n == 0 then {} else Indices(n - 1) + {n - 1}
  }

  ghost predicate Orderly<A(!new), E>(expected: seq<E>, matches: (A, E) -> bool) {
    forall a: A, b: A, d: nat, e: nat :: Exchangeable(expected, matches, a, b, d, e)
  }

  /** No one-to-one matching of these rows has more pairs than the greedy one. */
  ghost predicate GreedyIsMaximum<A, E>(actual: seq<A>, expected: seq<E>, matches: (A, E) -> bool) {
    forall other :: Pairing(actual, expected, matches, other) ==>
      |other| <= |Greedy(actual, expected, matches, 0, Indices(|actual|))|
  }

  ghost function Shifted(left: set<nat>): set<nat> {
    set i | i in left :: i + 1
  }

  lemma {:induction false} FirstMatchShifts<A, E>(x: A, actual: seq<A>, left: set<nat>, e: E, matches: (A, E) -> bool, start: nat)
    requires start <= |actual|
    ensures FirstMatch([x] + actual, Shifted(left), e, matches, start + 1)
         == match FirstMatch(actual, left, e, matches, start) case None => None case Some(i) => Some(i + 1)
    decreases |actual| - start
  {
    assert start + 1 in Shifted(left) <==> start in left;
    if start < |actual| {
      FirstMatchShifts(x, actual, left, e, matches, start + 1);
    }
  }

  lemma InShifted(left: set<nat>, k: nat)
    ensures k in Shifted(left) <==> k > 0 && k - 1 in left
  {
    if k > 0 && k - 1 in left {
      assert (k - 1) + 1 in Shifted(left);
    }
  }

  lemma ShiftedWithout(left: set<nat>, i: nat)
    ensures Shifted(left - {i}) == Shifted(left) - {i + 1}
  {
    forall k: nat ensures k in Shifted(left - {i}) <==> k in Shifted(left) - {i + 1} {
      InShifted(left, k);
      InShifted(left - {i}, k);
    }
  }

  /** A row that finds a match adds one pair. */
  lemma GreedyTakes<A, E>(actual: seq<A>, expected: seq<E>, matches: (A, E) -> bool, next: nat, left: set<nat>, i: nat)
    requires next < |expected| && FirstMatch(actual, left, expected[next], matches, 0) == Some(i)
    ensures |Greedy(actual, expected, matches, next, left)| == |Greedy(actual, expected, matches, next + 1, left - {i})| + 1
  {
    GreedyIsPairing(actual, expected, matches, next + 1, left - {i});
    var rest := Greedy(actual, expected, matches, next + 1, left - {i});
    assert next !in rest && rest[next := i].Keys == rest.Keys + {next};
    assert |rest.Keys| == |rest| && |rest[next := i].Keys| == |rest[next := i]|;
  }

  /** A row in front that is no longer left changes nothing. */
  lemma {:induction false} GreedyShifts<A, E>(x: A, actual: seq<A>, expected: seq<E>, matches: (A, E) -> bool, next: nat, left: set<nat>)
    requires next <= |expected|
    ensures |Greedy([x] + actual, expected, matches, next, Shifted(left))| == |Greedy(actual, expected, matches, next, left)|
    decreases |expected| - next
  {
    if next < |expected| {
      FirstMatchShifts(x, actual, left, expected[next], matches, 0);
      match FirstMatch(actual, left, expected[next], matches, 0)
      case None =>
        GreedyShifts(x, actual, expected, matches, next + 1, left);
      case Some(i) =>
        ShiftedWithout(left, i);
        GreedyShifts(x, actual, expected, matches, next + 1, left - {i});
        GreedyTakes(actual, expected, matches, next, left, i);
        GreedyTakes([x] + actual, expected, matches, next, Shifted(left), i + 1);
    }
  }

  /** `a` fits `d` and the later `e`, and `b` fits `d` only. */
  ghost predicate Contested<A, E>(expected: seq<E>, matches: (A, E) -> bool, a: A, b: A, d: nat, e: nat) {
    d < e < |expected| && matches(a, expected[d]) && matches(a, expected[e]) && matches(b, expected[d]) && !matches(b, expected[e])
  }

  /** The rows after `d`, other than `e`, that `b` fits. */
  ghost function Late<A, E>(expected: seq<E>, matches: (A, E) -> bool, b: A, d: nat, e: nat): set<nat> {
    set i: nat | i < |expected| && d < i && i != e && matches(b, expected[i])
  }

  ghost function OneThenMany<A>(a: A, b: A, n: nat): (rows: seq<A>)
    ensures |rows| == n + 1 && rows[0] == a && forall i :: 0 < i <= n ==> rows[i] == b
  {
    [a] + seq(n, _ => b)
  }

  /** `e` uses the `a`; `d` and the late rows use a `b` each. */
  ghost function Served(late: set<nat>, d: nat, e: nat): (other: map<nat, nat>)
    ensures other.Keys == late + {d, e} && forall i :: i in other ==> other[i] == if i == e then 0 else i + 1
  {
    map i | i in late + {d, e} :: if i == e then 0 else i + 1
  }

  lemma ServedSize(late: set<nat>, d: nat, e: nat)
    requires d !in late && e !in late && d != e
    ensures |Served(late, d, e)| == |late| + 2
  {
    assert |Served(late, d, e).Keys| == |Served(late, d, e)|;
  }

  lemma AllServed<A, E>(expected: seq<E>, matches: (A, E) -> bool, a: A, b: A, d: nat, e: nat)
    requires Contested(expected, matches, a, b, d, e)
    ensures var actual, other := OneThenMany(a, b, |expected|), Served(Late(expected, matches, b, d, e), d, e);
            Pairing(actual, expected, matches, other) && Within(other, d, Indices(|actual|))
  {
  }

  /** Once the `a` is taken, only the late rows find a match. */
  lemma OnlyLateLeft<A, E>(expected: seq<E>, matches: (A, E) -> bool, a: A, b: A, d: nat, e: nat, left: set<nat>)
    requires Contested(expected, matches, a, b, d, e) && 0 !in left
    ensures |Greedy(OneThenMany(a, b, |expected|), expected, matches, d + 1, left)| <= |Late(expected, matches, b, d, e)|
  {
    var rest := Greedy(OneThenMany(a, b, |expected|), expected, matches, d + 1, left);
    GreedyIsPairing(OneThenMany(a, b, |expected|), expected, matches, d + 1, left);
    SubsetSize(rest.Keys, Late(expected, matches, b, d, e));
    assert |rest.Keys| == |rest|;
  }

  /** One `a` in front of many `b`: row `d` takes the `a` that row `e` needs. */
  lemma GreedyMissesOne<A, E>(expected: seq<E>, matches: (A, E) -> bool, a: A, b: A, d: nat, e: nat)
    returns (actual: seq<A>, other: map<nat, nat>)
    requires Contested(expected, matches, a, b, d, e)
    ensures Missed(actual, expected, matches, d, other)
  {
    actual := OneThenMany(a, b, |expected|);
    other := Served(Late(expected, matches, b, d, e), d, e);
    AllServed(expected, matches, a, b, d, e);
    ServedSize(Late(expected, matches, b, d, e), d, e);
    assert FirstMatch(actual, Indices(|actual|), expected[d], matches, 0) == Some(0);
    GreedyTakes(actual, expected, matches, d, Indices(|actual|), 0);
    OnlyLateLeft(expected, matches, a, b, d, e, Indices(|actual|) - {0});
  }

  /** The greedy matching from `next` on misses a pair that `other` finds. */
  ghost predicate Missed<A, E>(actual: seq<A>, expected: seq<E>, matches: (A, E) -> bool, next: nat, other: map<nat, nat>)
    requires next <= |expected|
  {
    && Pairing(actual, expected, matches, other) && Within(other, next, Indices(|actual|))
    && |Greedy(actual, expected, matches, next, Indices(|actual|))| < |other|
  }

  lemma StillMissesOne<A, E>(x: A, rows: seq<A>, expected: seq<E>, matches: (A, E) -> bool, next: nat, pairs: map<nat, nat>)
    requires next < |expected| && matches(x, expected[next]) && next !in pairs
    requires |Greedy(rows, expected, matches, next + 1, Indices(|rows|))| < |pairs|
    ensures |Greedy([x] + rows, expected, matches, next, Indices(|[x] + rows|))| < |InFront(pairs, next)|
  {
    assert |[x] + rows| == |rows| + 1;
    GreedyInFront(x, rows, expected, matches, next);
    InFrontSize(pairs, next);
  }

  lemma MissedInFront<A, E>(x: A, rows: seq<A>, expected: seq<E>, matches: (A, E) -> bool, next: nat, pairs: map<nat, nat>)
    requires next < |expected| && matches(x, expected[next]) && Missed(rows, expected, matches, next + 1, pairs)
    ensures Missed([x] + rows, expected, matches, next, InFront(pairs, next))
  {
    InFrontFits(x, rows, expected, matches, next, pairs);
    InFrontWithin(x, rows, pairs, next);
    StillMissesOne(x, rows, expected, matches, next, pairs);
  }

  lemma NoneFits<A, E>(rows: seq<A>, expected: seq<E>, matches: (A, E) -> bool, next: nat, pairs: map<nat, nat>)
    requires next < |expected| && Missed(rows, expected, matches, next + 1, pairs)
    requires forall i :: 0 <= i < |rows| ==> !matches(rows[i], expected[next])
    ensures Missed(rows, expected, matches, next, pairs)
  {
    assert FirstMatch(rows, Indices(|rows|), expected[next], matches, 0).None?;
  }

  /** The same behind any number of earlier expected rows: each gets a row of its own in front. */
  lemma {:induction false} GreedyMissesOneFrom<A, E>(expected: seq<E>, matches: (A, E) -> bool, a: A, b: A, d: nat, e: nat, next: nat)
    returns (actual: seq<A>, other: map<nat, nat>)
    requires Contested(expected, matches, a, b, d, e) && next <= d
    ensures Missed(actual, expected, matches, next, other)
    decreases d - next
  {
    if next == d {
      actual, other := GreedyMissesOne(expected, matches, a, b, d, e);
    } else {
      actual, other := GreedyMissesOneFrom(expected, matches, a, b, d, e, next + 1);
      if i: nat :| i < |actual| && matches(actual[i], expected[next]) {
        MissedInFront(actual[i], actual, expected, matches, next, other);
        actual, other := [actual[i]] + actual, InFront(other, next);
      } else {
        NoneFits(actual, expected, matches, next, other);
      }
    }
  }

  lemma IndicesShift(n: nat)
    ensures Indices(n + 1) - {0} == Shifted(Indices(n))
  {
    forall i: nat ensures i in Indices(n + 1) - {0} <==> i in Shifted(Indices(n)) {
      InShifted(Indices(n), i);
    }
  }

  /** The pairs one place further on, with `next` paired to the row in front. */
  ghost function InFront(pairs: map<nat, nat>, next: nat): (other: map<nat, nat>)
    ensures other.Keys == pairs.Keys + {next}
    ensures forall j :: j in other ==> other[j] == if j == next then 0 else pairs[j] + 1
  {
    map j | j in pairs.Keys + {next} :: if j == next then 0 else pairs[j] + 1
  }

  lemma InFrontSize(pairs: map<nat, nat>, next: nat)
    requires next !in pairs
    ensures |InFront(pairs, next)| == |pairs| + 1
  {
    assert |InFront(pairs, next).Keys| == |InFront(pairs, next)| && |pairs.Keys| == |pairs|;
  }

  lemma InFrontFits<A, E>(x: A, rows: seq<A>, expected: seq<E>, matches: (A, E) -> bool, next: nat, pairs: map<nat, nat>)
    requires next < |expected| && matches(x, expected[next])
    requires Pairing(rows, expected, matches, pairs)
    ensures Pairing([x] + rows, expected, matches, InFront(pairs, next))
  {
    var other := InFront(pairs, next);
    forall j | j in other ensures j < |expected| && other[j] < |rows| + 1 && matches(([x] + rows)[other[j]], expected[j]) {}
  }

  lemma InFrontWithin<A>(x: A, rows: seq<A>, pairs: map<nat, nat>, next: nat)
    requires Within(pairs, next + 1, Indices(|rows|))
    ensures Within(InFront(pairs, next), next, Indices(|[x] + rows|)) && next !in pairs
  {
    assert |[x] + rows| == |rows| + 1;
  }

  lemma GreedyInFront<A, E>(x: A, rows: seq<A>, expected: seq<E>, matches: (A, E) -> bool, next: nat)
    requires next < |expected| && matches(x, expected[next])
    ensures |Greedy([x] + rows, expected, matches, next, Indices(|rows| + 1))|
         == |Greedy(rows, expected, matches, next + 1, Indices(|rows|))| + 1
  {
    var left := Indices(|rows| + 1);
    assert FirstMatch([x] + rows, left, expected[next], matches, 0) == Some(0);
    GreedyTakes([x] + rows, expected, matches, next, left, 0);
    IndicesShift(|rows|);
    GreedyShifts(x, rows, expected, matches, next + 1, Indices(|rows|));
  }

  /** For a list of expected rows, the greedy matching is maximum whatever the actual rows
      exactly when, of any two expected rows that compete for a row, the later one can use
      every row the earlier one can. */
  lemma MaximumExactly<A(!new), E>(expected: seq<E>, matches: (A, E) -> bool)
    ensures (forall actual: seq<A> :: GreedyIsMaximum(actual, expected, matches)) <==> Orderly(expected, matches)
  {
    if Orderly(expected, matches) {
      forall actual: seq<A>, other | Pairing(actual, expected, matches, other)
        ensures |other| <= |Greedy(actual, expected, matches, 0, Indices(|actual|))|
      {
        MaximumWhenOrderly(actual, expected, matches, 0, Indices(|actual|), other);
      }
    } else {
      var a, b, d, e :| !Exchangeable(expected, matches, a, b, d, e);
      var actual, other := GreedyMissesOneFrom(expected, matches, a, b, d, e, 0);
      assert !GreedyIsMaximum(actual, expected, matches);
    }
  }
}
