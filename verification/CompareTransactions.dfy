/** Comparing rendered transactions with expected ones. */
module CompareTransactions {
  import opened Wrappers
  import opened GreedyMatching

  /** The compared texts are the trimmed ones; dates, fees and tolerances are parsed. */
  datatype ActualRow = ActualRow(
    kind: string, exchange: string, trade: TradeFields, comment: string, txId: string,
    date: Option<int>, feeCurrency: string, fee: real)

  datatype TradeFields = TradeFields(buy: string, buyCurrency: string, sell: string, sellCurrency: string, group: string)

  /** An expected row also says how strictly it is to be compared. */
  datatype ExpectedRow = ExpectedRow(
    allowedKinds: set<string>, exchange: string, trade: TradeFields, comment: string, txId: string,
    date: Option<int>, feeCurrency: string, fee: real,
    exactComment: bool, ignoreTxId: bool, windowSeconds: int, feeTolerance: real)

  // ----- when two rows match -----

  predicate KindMatches(a: ActualRow, e: ExpectedRow) {
    e.allowedKinds == {} || a.kind in e.allowedKinds
  }

  predicate ExchangeMatches(a: ActualRow, e: ExpectedRow, allowed: Option<set<string>>) {
    (allowed.Some? && a.exchange in allowed.value && e.exchange in allowed.value) || a.exchange == e.exchange
  }

  predicate CommentMatches(a: ActualRow, e: ExpectedRow) {
    !e.exactComment || a.comment == e.comment
  }

  predicate TxIdMatches(a: ActualRow, e: ExpectedRow) {
    e.ignoreTxId || a.txId == e.txId
  }

  predicate TimestampMatches(a: ActualRow, e: ExpectedRow) {
    if a.date.None? || e.date.None? then a.date == e.date
    else -e.windowSeconds <= a.date.value - e.date.value <= e.windowSeconds
  }

  predicate FeeMatches(a: ActualRow, e: ExpectedRow) {
    a.feeCurrency == e.feeCurrency && -e.feeTolerance <= a.fee - e.fee <= e.feeTolerance
  }

  predicate TransactionsMatch(a: ActualRow, e: ExpectedRow, allowed: Option<set<string>>) {
    && KindMatches(a, e) && ExchangeMatches(a, e, allowed) && a.trade == e.trade && CommentMatches(a, e)
    && TxIdMatches(a, e) && TimestampMatches(a, e) && FeeMatches(a, e)
  }

  function Matcher(allowed: Option<set<string>>): (ActualRow, ExpectedRow) -> bool {
    (a, e) => TransactionsMatch(a, e, allowed)
  }

  // ----- picking rows by index -----

  /** Those of the first `n` rows whose index is in `keep`, in their old order. */
  ghost function Pick<T>(rows: seq<T>, keep: set<nat>, n: nat): seq<T>
    requires n <= |rows|
  {
    if n == 0 then []
    else Pick(rows, keep, n - 1) + if n - 1 in keep then [rows[n - 1]] else []
  }

  lemma {:induction false} PickedFrom<T>(rows: seq<T>, keep: set<nat>, n: nat, k: nat) returns (i: nat)
    requires n <= |rows| && k < |Pick(rows, keep, n)|
    ensures i < n && i in keep && rows[i] == Pick(rows, keep, n)[k]
  {
    if k < |Pick(rows, keep, n - 1)| {
      i := PickedFrom(rows, keep, n - 1, k);
    } else {
      i := n - 1;
    }
  }

  lemma {:induction false} PickSame<T>(rows: seq<T>, a: set<nat>, b: set<nat>, n: nat)
    requires n <= |rows| && forall i: nat :: i < n ==> (i in a <==> i in b)
    ensures Pick(rows, a, n) == Pick(rows, b, n)
  {
    if n > 0 { PickSame(rows, a, b, n - 1); }
  }

  lemma {:induction false} PickAll<T>(rows: seq<T>, n: nat)
    requires n <= |rows|
    ensures Pick(rows, Indices(n), n) == rows[..n]
  {
    if n > 0 {
      PickAll(rows, n - 1);
      PickSame(rows, Indices(n - 1), Indices(n), n - 1);
    }
  }

  /** Row `i` stands right after those picked before it, and taking it out leaves the others. */
  lemma {:induction false} PickWithout<T>(rows: seq<T>, keep: set<nat>, i: nat, n: nat)
    requires i < n <= |rows| && i in keep
    ensures var p, k := Pick(rows, keep, n), |Pick(rows, keep, i)|;
            && k < |p| && p[k] == rows[i] && p[..k] == Pick(rows, keep, i)
            && Pick(rows, keep - {i}, n) == p[..k] + p[k + 1..]
  {
    if n == i + 1 {
      PickSame(rows, keep, keep - {i}, i);
    } else {
      PickWithout(rows, keep, i, n - 1);
    }
  }

  /** The first remaining row that matches is the greedy choice. */
  lemma FirstPicked<A, E>(actual: seq<A>, left: set<nat>, e: E, matches: (A, E) -> bool, k: nat) returns (taken: nat)
    requires var remaining := Pick(actual, left, |actual|);
             k < |remaining| && matches(remaining[k], e) && forall m :: 0 <= m < k ==> !matches(remaining[m], e)
    ensures taken in left && taken < |actual| && FirstMatch(actual, left, e, matches, 0) == Some(taken)
    ensures k == |Pick(actual, left, taken)|
  {
    var remaining := Pick(actual, left, |actual|);
    var i := PickedFrom(actual, left, |actual|, k);
    taken := FirstMatch(actual, left, e, matches, 0).value;
    PickWithout(actual, left, taken, |actual|);
    var before := Pick(actual, left, taken);
    forall m: nat | m < |before| ensures !matches(remaining[m], e) {
      var j := PickedFrom(actual, left, taken, m);
      assert before[m] == remaining[m];
    }
  }

  lemma NonePicked<A, E>(actual: seq<A>, left: set<nat>, e: E, matches: (A, E) -> bool)
    requires forall a :: a in Pick(actual, left, |actual|) ==> !matches(a, e)
    ensures FirstMatch(actual, left, e, matches, 0) == None
  {
    var found := FirstMatch(actual, left, e, matches, 0);
    if found.Some? {
      PickWithout(actual, left, found.value, |actual|);
    }
  }

  // ----- the comparison -----

  method FindMatch(remaining: seq<ActualRow>, e: ExpectedRow, allowed: Option<set<string>>) returns (k: nat)
    ensures k <= |remaining| && forall m :: 0 <= m < k ==> !Matcher(allowed)(remaining[m], e)
    ensures k < |remaining| ==> Matcher(allowed)(remaining[k], e)
  {
    k := 0;
    while k < |remaining| && !TransactionsMatch(remaining[k], e, allowed)
      invariant k <= |remaining| && forall m :: 0 <= m < k ==> !Matcher(allowed)(remaining[m], e)
    {
      k := k + 1;
    }
  }

  /** The rows not taken are what remains. */
  ghost predicate NotTaken(actual: seq<ActualRow>, remaining: seq<ActualRow>, pairs: map<nat, nat>) {
    remaining == Pick(actual, Indices(|actual|) - pairs.Values, |actual|) && |remaining| + |pairs| == |actual|
  }

  /** The first `j` expected rows are split by whether they are paired. */
  ghost predicate SplitUpTo(expected: seq<ExpectedRow>, j: nat, matched: seq<ExpectedRow>, missing: seq<ExpectedRow>, pairs: map<nat, nat>)
    requires j <= |expected|
  {
    && matched == Pick(expected, pairs.Keys, j) && missing == Pick(expected, Indices(|expected|) - pairs.Keys, j)
    && |matched| == |pairs| && |matched| + |missing| == j && (forall i :: i in pairs ==> i < j)
  }

  /** What is paired and what the greedy matching still does make up the whole of it. */
  ghost predicate OnTheWay(actual: seq<ActualRow>, expected: seq<ExpectedRow>, matches: (ActualRow, ExpectedRow) -> bool, j: nat,
                           pairs: map<nat, nat>)
    requires j <= |expected|
  {
    Greedy(actual, expected, matches, 0, Indices(|actual|))
    == Greedy(actual, expected, matches, j, Indices(|actual|) - pairs.Values) + pairs
  }

  /** Where the comparison stands after its first `j` expected rows. */
  ghost predicate Midway(actual: seq<ActualRow>, expected: seq<ExpectedRow>, matches: (ActualRow, ExpectedRow) -> bool, j: nat,
                         remaining: seq<ActualRow>, matched: seq<ExpectedRow>, missing: seq<ExpectedRow>, pairs: map<nat, nat>)
    requires j <= |expected|
  {
    && NotTaken(actual, remaining, pairs) && SplitUpTo(expected, j, matched, missing, pairs)
    && OnTheWay(actual, expected, matches, j, pairs) && Unmatched(remaining, missing, matches)
  }

  ghost predicate Unmatched<A, E>(extra: seq<A>, missing: seq<E>, matches: (A, E) -> bool) {
    forall a, e :: a in extra && e in missing ==> !matches(a, e)
  }

  lemma StartMatching(actual: seq<ActualRow>, expected: seq<ExpectedRow>, matches: (ActualRow, ExpectedRow) -> bool)
    ensures Midway(actual, expected, matches, 0, actual, [], [], map[])
  {
    var none: map<nat, nat> := map[];
    assert Indices(|actual|) - none.Values == Indices(|actual|);
    PickAll(actual, |actual|);
    var all := Greedy(actual, expected, matches, 0, Indices(|actual|));
    assert all + none == all;
  }

  lemma Miss(actual: seq<ActualRow>, expected: seq<ExpectedRow>, matches: (ActualRow, ExpectedRow) -> bool, j: nat,
             remaining: seq<ActualRow>, matched: seq<ExpectedRow>, missing: seq<ExpectedRow>, pairs: map<nat, nat>)
    requires j < |expected| && Midway(actual, expected, matches, j, remaining, matched, missing, pairs)
    requires forall a :: a in remaining ==> !matches(a, expected[j])
    ensures Midway(actual, expected, matches, j + 1, remaining, matched, missing + [expected[j]], pairs)
  {
    NonePicked(actual, Indices(|actual|) - pairs.Values, expected[j], matches);
  }

  lemma DropUnmatched<A, E>(extra: seq<A>, missing: seq<E>, matches: (A, E) -> bool, k: nat)
    requires k < |extra| && Unmatched(extra, missing, matches)
    ensures Unmatched(extra[..k] + extra[k + 1..], missing, matches)
  {
    forall a | a in extra[..k] + extra[k + 1..] ensures a in extra {}
  }

  lemma HitTakes(actual: seq<ActualRow>, remaining: seq<ActualRow>, pairs: map<nat, nat>, j: nat, taken: nat, k: nat)
    requires NotTaken(actual, remaining, pairs) && j !in pairs
    requires taken < |actual| && taken in Indices(|actual|) - pairs.Values
    requires k == |Pick(actual, Indices(|actual|) - pairs.Values, taken)|
    ensures k < |remaining| && NotTaken(actual, remaining[..k] + remaining[k + 1..], pairs[j := taken])
  {
    PickWithout(actual, Indices(|actual|) - pairs.Values, taken, |actual|);
    AddPair(Indices(|actual|), pairs, j, taken);
  }

  lemma HitSplits(expected: seq<ExpectedRow>, j: nat, matched: seq<ExpectedRow>, missing: seq<ExpectedRow>, pairs: map<nat, nat>, taken: nat)
    requires j < |expected| && SplitUpTo(expected, j, matched, missing, pairs)
    ensures SplitUpTo(expected, j + 1, matched + [expected[j]], missing, pairs[j := taken])
  {
    PickSame(expected, pairs.Keys, pairs[j := taken].Keys, j);
    PickSame(expected, Indices(|expected|) - pairs.Keys, Indices(|expected|) - pairs[j := taken].Keys, j);
    AddPair(Indices(|expected|), pairs, j, taken);
  }

  lemma HitFollows(actual: seq<ActualRow>, expected: seq<ExpectedRow>, matches: (ActualRow, ExpectedRow) -> bool, j: nat,
                   pairs: map<nat, nat>, taken: nat)
    requires j < |expected| && j !in pairs && OnTheWay(actual, expected, matches, j, pairs)
    requires FirstMatch(actual, Indices(|actual|) - pairs.Values, expected[j], matches, 0) == Some(taken)
    ensures OnTheWay(actual, expected, matches, j + 1, pairs[j := taken])
  {
    var left := Indices(|actual|) - pairs.Values;
    AddPair(Indices(|actual|), pairs, j, taken);
    MovePair(Greedy(actual, expected, matches, j + 1, left - {taken}), pairs, j, taken);
  }

  lemma Hit(actual: seq<ActualRow>, expected: seq<ExpectedRow>, matches: (ActualRow, ExpectedRow) -> bool, j: nat,
            remaining: seq<ActualRow>, matched: seq<ExpectedRow>, missing: seq<ExpectedRow>, pairs: map<nat, nat>, k: nat)
    returns (pairs': map<nat, nat>)
    requires j < |expected| && Midway(actual, expected, matches, j, remaining, matched, missing, pairs)
    requires k < |remaining| && matches(remaining[k], expected[j]) && forall m :: 0 <= m < k ==> !matches(remaining[m], expected[j])
    ensures Midway(actual, expected, matches, j + 1, remaining[..k] + remaining[k + 1..], matched + [expected[j]], missing, pairs')
  {
    var taken := FirstPicked(actual, Indices(|actual|) - pairs.Values, expected[j], matches, k);
    pairs' := pairs[j := taken];
    HitTakes(actual, remaining, pairs, j, taken, k);
    HitSplits(expected, j, matched, missing, pairs, taken);
    HitFollows(actual, expected, matches, j, pairs, taken);
    DropUnmatched(remaining, missing, matches, k);
  }

  /** The result splits both inputs along the greedy matching, and what is missing
      matches nothing that is extra. */
  method CompareTransactions(actual: seq<ActualRow>, expected: seq<ExpectedRow>, allowed: Option<set<string>>)
    returns (matched: seq<ExpectedRow>, missing: seq<ExpectedRow>, extra: seq<ActualRow>, ghost pairs: map<nat, nat>)
    ensures pairs == Greedy(actual, expected, Matcher(allowed), 0, Indices(|actual|))
    ensures matched == Pick(expected, pairs.Keys, |expected|)
    ensures missing == Pick(expected, Indices(|expected|) - pairs.Keys, |expected|)
    ensures extra == Pick(actual, Indices(|actual|) - pairs.Values, |actual|)
    ensures |matched| == |pairs| && |matched| + |missing| == |expected| && |matched| + |extra| == |actual|
    ensures Unmatched(extra, missing, Matcher(allowed))
  {
    ghost var matches := Matcher(allowed);
    var remaining := actual;
    matched, missing, pairs := [], [], map[];
    StartMatching(actual, expected, matches);
    for j := 0 to |expected|
      invariant Midway(actual, expected, matches, j, remaining, matched, missing, pairs)
    {
      var k := FindMatch(remaining, expected[j], allowed);
      if k == |remaining| {
        Miss(actual, expected, matches, j, remaining, matched, missing, pairs);
        missing := missing + [expected[j]];
      } else {
        pairs := Hit(actual, expected, matches, j, remaining, matched, missing, pairs, k);
        matched := matched + [expected[j]];
        remaining := remaining[..k] + remaining[k + 1..];
      }
    }
    extra := remaining;
  }

  lemma MovePair(rest: map<nat, nat>, pairs: map<nat, nat>, j: nat, taken: nat)
    requires j !in pairs
    ensures rest[j := taken] + pairs == rest + pairs[j := taken]
  {
  }

  lemma AddPair(start: set<nat>, pairs: map<nat, nat>, j: nat, taken: nat)
    requires j !in pairs
    ensures |pairs[j := taken]| == |pairs| + 1
    ensures start - pairs[j := taken].Values == start - pairs.Values - {taken}
  {
    var pairs' := pairs[j := taken];
    assert pairs'[j] == taken;
    assert forall i :: i in pairs ==> pairs'[i] == pairs[i];
    assert pairs'.Values == pairs.Values + {taken};
  }

  // ----- quality -----

  /** Against any other one-to-one matching of the same rows, the comparison finds at
      least half as many pairs. */
  lemma FindsAtLeastHalf(actual: seq<ActualRow>, expected: seq<ExpectedRow>, allowed: Option<set<string>>, other: map<nat, nat>)
    requires Pairing(actual, expected, Matcher(allowed), other)
    ensures |other| <= 2 * |Greedy(actual, expected, Matcher(allowed), 0, Indices(|actual|))|
  {
    AtLeastHalf(actual, expected, Matcher(allowed), 0, Indices(|actual|), other);
  }

  /** Half can be all there is: a wide time window takes the only row a narrow one could
      have used. */
  lemma HalfCanHappen() returns (actual: seq<ActualRow>, expected: seq<ExpectedRow>, other: map<nat, nat>)
    ensures Pairing(actual, expected, Matcher(None), other) && |other| == 2
    ensures |Greedy(actual, expected, Matcher(None), 0, Indices(|actual|))| == 1
  {
    var trade := TradeFields("1", "BTC", "", "", "");
    var early := ActualRow("Trade", "Kraken", trade, "", "", Some(0), "", 0.0);
    var late := early.(date := Some(10));
    var wide := ExpectedRow({}, "Kraken", trade, "", "", Some(10), "", 0.0, false, false, 10, 0.0);
    var narrow := wide.(windowSeconds := 0);
    actual, expected, other := [late, early], [wide, narrow], map[0 := 1, 1 := 0];
    CrossedRows(late, early, wide, narrow, Matcher(None));
  }

  lemma CrossedRows<A, E>(late: A, early: A, wide: E, narrow: E, matches: (A, E) -> bool)
    requires matches(late, wide) && matches(early, wide) && matches(late, narrow) && !matches(early, narrow)
    ensures Pairing([late, early], [wide, narrow], matches, map[0 := 1, 1 := 0])
    ensures |Greedy([late, early], [wide, narrow], matches, 0, Indices(2))| == 1
  {
    var actual, expected, left := [late, early], [wide, narrow], Indices(2);
    assert FirstMatch(actual, left, wide, matches, 0) == Some(0);
    assert FirstMatch(actual, left - {0}, narrow, matches, 0) == None;
    assert Greedy(actual, expected, matches, 2, left - {0}) == map[];
    assert Greedy(actual, expected, matches, 1, left - {0}) == map[];
  }
}
