/** Which rows fit an expected row: its own rendering does, and for strict rows nothing else. */
module RenderedRows {
  import opened Wrappers
  import opened GreedyMatching
  import opened CompareTransactions
  import opened CompetingRows

  /** The row that renders an expected one as it stands, with this kind. */
  function Rendered(e: ExpectedRow, kind: string): ActualRow {
    ActualRow(kind, e.exchange, e.trade, e.comment, e.txId, e.date, e.feeCurrency, e.fee)
  }

  predicate Allows(e: ExpectedRow, kind: string) {
    e.allowedKinds == {} || kind in e.allowedKinds
  }

  predicate Tolerant(e: ExpectedRow) {
    (e.date.Some? ==> e.windowSeconds >= 0) && e.feeTolerance >= 0.0
  }

  /** A row's own rendering fits it exactly when its kind is allowed and its window and
      tolerance are not negative. */
  lemma RenderingFitsExactly(e: ExpectedRow, kind: string, allowed: Option<set<string>>)
    ensures TransactionsMatch(Rendered(e, kind), e, allowed) <==> Allows(e, kind) && Tolerant(e)
  {}

  predicate Strict(e: ExpectedRow) {
    e.exactComment && !e.ignoreTxId && e.windowSeconds == 0 && e.feeTolerance == 0.0
  }

  /** Up to interchangeable exchanges, nothing but its own rendering fits a strict row. */
  lemma OnlyRenderingFits(a: ActualRow, e: ExpectedRow, allowed: Option<set<string>>)
    requires Strict(e)
    ensures TransactionsMatch(a, e, allowed)
            <==> && Allows(e, a.kind) && a == Rendered(e, a.kind).(exchange := a.exchange)
                 && (a.exchange == e.exchange || (allowed.Some? && {a.exchange, e.exchange} <= allowed.value))
  {}

  /** What a row leaves open may differ, and nothing else: the comment, the id, the date within
      the window, the fee within the tolerance. */
  lemma FitsWithin(a: ActualRow, e: ExpectedRow)
    requires Allows(e, a.kind)
    ensures TransactionsMatch(a, e, None)
            <==> && a == Rendered(e, a.kind).(comment := a.comment, txId := a.txId, date := a.date, fee := a.fee)
                 && (e.exactComment ==> a.comment == e.comment) && (e.ignoreTxId || a.txId == e.txId)
                 && (a.date.Some? <==> e.date.Some?)
                 && (e.date.Some? ==> e.date.value - e.windowSeconds <= a.date.value <= e.date.value + e.windowSeconds)
                 && e.fee - e.feeTolerance <= a.fee <= e.fee + e.feeTolerance
  {}

  // ----- comparing a list with its own rows -----

  lemma {:induction false} IndicesSize(n: nat)
    ensures |Indices(n)| == n
  {
    if n > 0 { IndicesSize(n - 1); }
  }

  lemma SameSize<T>(a: set<T>, b: set<T>)
    requires a <= b && |a| == |b|
    ensures a == b
  {
    assert |b - a| == 0;
  }

  lemma {:induction false} ValuesSize(pairs: map<nat, nat>)
    requires OneToOne(pairs)
    ensures |pairs.Values| == |pairs|
  {
    if pairs != map[] {
      var j :| j in pairs;
      var rest := map i | i in pairs && i != j :: pairs[i];
      assert pairs == rest[j := pairs[j]];
      assert pairs.Keys == rest.Keys + {j};
      assert pairs.Values == rest.Values + {pairs[j]};
      ValuesSize(rest);
    }
  }

  lemma {:induction false} PickNone<T>(rows: seq<T>, n: nat)
    requires n <= |rows|
    ensures Pick(rows, {}, n) == []
  {
    if n > 0 { PickNone(rows, n - 1); }
  }

  lemma NoKeyLeft(pairs: map<nat, nat>, n: nat)
    requires |pairs| == n && forall j :: j in pairs ==> j < n
    ensures Indices(n) - pairs.Keys == {}
  {
    IndicesSize(n);
    SameSize(pairs.Keys, Indices(n));
  }

  lemma NoValueLeft(pairs: map<nat, nat>, n: nat)
    requires |pairs| == n && OneToOne(pairs) && forall j :: j in pairs ==> pairs[j] < n
    ensures Indices(n) - pairs.Values == {}
  {
    IndicesSize(n);
    ValuesSize(pairs);
    SameSize(pairs.Values, Indices(n));
  }

  /** A pairing as large as both lists leaves no row out. */
  lemma NothingLeft<A, E>(actual: seq<A>, expected: seq<E>, matches: (A, E) -> bool, pairs: map<nat, nat>)
    requires Pairing(actual, expected, matches, pairs) && |pairs| == |expected| == |actual|
    ensures Pick(expected, Indices(|expected|) - pairs.Keys, |expected|) == []
    ensures Pick(actual, Indices(|actual|) - pairs.Values, |actual|) == []
  {
    NoKeyLeft(pairs, |expected|);
    NoValueLeft(pairs, |actual|);
    PickNone(expected, |expected|);
    PickNone(actual, |actual|);
  }

  lemma PairingSize<A, E>(actual: seq<A>, expected: seq<E>, matches: (A, E) -> bool, pairs: map<nat, nat>)
    requires Pairing(actual, expected, matches, pairs)
    ensures |pairs| <= |expected|
  {
    IndicesSize(|expected|);
    assert pairs.Keys <= Indices(|expected|);
    SubsetSize(pairs.Keys, Indices(|expected|));
  }

  /** If all rows of both lists can be paired, a list whose rows are each apart from or inside
      every later one is compared without a missing or an extra row. */
  lemma ComparesClean(actual: seq<ActualRow>, expected: seq<ExpectedRow>, allowed: Option<set<string>>, other: map<nat, nat>)
    requires EachApartOrInside(expected, allowed)
    requires Pairing(actual, expected, Matcher(allowed), other) && |other| == |expected| == |actual|
    ensures var pairs := Greedy(actual, expected, Matcher(allowed), 0, Indices(|actual|));
            && Pick(expected, Indices(|expected|) - pairs.Keys, |expected|) == []
            && Pick(actual, Indices(|actual|) - pairs.Values, |actual|) == []
  {
    var pairs := Greedy(actual, expected, Matcher(allowed), 0, Indices(|actual|));
    FindsMaximumExactly(expected, allowed);
    assert GreedyIsMaximum(actual, expected, Matcher(allowed));
    GreedyIsPairing(actual, expected, Matcher(allowed), 0, Indices(|actual|));
    PairingSize(actual, expected, Matcher(allowed), pairs);
    NothingLeft(actual, expected, Matcher(allowed), pairs);
  }

  /** Such a list, compared with its own renderings in whatever order, is matched whole: nothing
      is missing and nothing is extra. */
  lemma OwnRowsLeaveNothing(actual: seq<ActualRow>, expected: seq<ExpectedRow>, kinds: seq<string>, places: map<nat, nat>,
                            allowed: Option<set<string>>)
    requires EachApartOrInside(expected, allowed) && |kinds| == |expected| == |actual| == |places| && OneToOne(places)
    requires forall i: nat :: i < |expected| ==> Allows(expected[i], kinds[i]) && Tolerant(expected[i])
    requires forall i :: i in places ==> i < |expected| && places[i] < |actual| && actual[places[i]] == Rendered(expected[i], kinds[i])
    ensures var pairs := Greedy(actual, expected, Matcher(allowed), 0, Indices(|actual|));
            && Pick(expected, Indices(|expected|) - pairs.Keys, |expected|) == []
            && Pick(actual, Indices(|actual|) - pairs.Values, |actual|) == []
  {
    forall i | i in places ensures Matcher(allowed)(actual[places[i]], expected[i]) {
      RenderingFitsExactly(expected[i], kinds[i], allowed);
    }
    ComparesClean(actual, expected, allowed, places);
  }
}
