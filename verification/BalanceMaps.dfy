/** Balances summed per key, and the differences between two such sums. */
module BalanceMaps {
  import opened Sequences
  import opened Ordering
  import opened Grouping

  /** One row's contribution: the key is a ticker, or an exchange and a currency. */
  datatype Amount<K> = Amount(key: K, value: real)

  function TotalOf<K(==)>(rows: seq<Amount<K>>, k: K): real {
    if rows == [] then 0.0
    else TotalOf(rows[..|rows| - 1], k) + if rows[|rows| - 1].key == k then rows[|rows| - 1].value else 0.0
  }

  function At<K>(balances: map<K, real>, k: K): real {
    if k in balances then balances[k] else 0.0
  }

  ghost predicate IsBalanceMap<K(!new)>(rows: seq<Amount<K>>, balances: map<K, real>) {
    && (forall k :: k in balances <==> exists row :: row in rows && row.key == k)
    && (forall k :: k in balances ==> balances[k] == TotalOf(rows, k))
  }

  lemma TotalOneMore<K>(rows: seq<Amount<K>>, row: Amount<K>, k: K)
    ensures TotalOf(rows + [row], k) == TotalOf(rows, k) + if row.key == k then row.value else 0.0
  {
    assert (rows + [row])[..|rows|] == rows;
  }

  lemma {:induction false} NoRowsNoTotal<K>(rows: seq<Amount<K>>, k: K)
    requires forall row :: row in rows ==> row.key != k
    ensures TotalOf(rows, k) == 0.0
  {
    if rows != [] {
      assert rows[|rows| - 1] in rows;
      NoRowsNoTotal(rows[..|rows| - 1], k);
    }
  }

  lemma MapGrows<K(!new)>(rows: seq<Amount<K>>, balances: map<K, real>, row: Amount<K>)
    requires IsBalanceMap(rows, balances)
    ensures IsBalanceMap(rows + [row], balances[row.key := At(balances, row.key) + row.value])
  {
    var grown := balances[row.key := At(balances, row.key) + row.value];
    assert row in rows + [row];
    assert forall r :: r in rows + [row] <==> r in rows || r == row;
    forall k | k in grown ensures grown[k] == TotalOf(rows + [row], k) {
      TotalOneMore(rows, row, k);
      if k !in balances { NoRowsNoTotal(rows, k); }
    }
    forall k ensures k in grown <==> exists r :: r in rows + [row] && r.key == k {
      if r :| r in rows && r.key == k { assert r in rows + [row]; }
    }
  }

  method BuildBalanceMap<K(==,!new)>(rows: seq<Amount<K>>) returns (balances: map<K, real>)
    ensures IsBalanceMap(rows, balances)
  {
    balances := map[];
    for i := 0 to |rows|
      invariant IsBalanceMap(rows[..i], balances)
    {
      MapGrows(rows[..i], balances, rows[i]);
      assert rows[..i + 1] == rows[..i] + [rows[i]];
      balances := balances[rows[i].key := At(balances, rows[i].key) + rows[i].value];
    }
    assert rows[..|rows|] == rows;
  }

  lemma MapTotals<K(!new)>(rows: seq<Amount<K>>, balances: map<K, real>, k: K)
    requires IsBalanceMap(rows, balances)
    ensures At(balances, k) == TotalOf(rows, k)
  {
    if k !in balances { NoRowsNoTotal(rows, k); }
  }

  lemma {:induction false} TotalConcat<K>(a: seq<Amount<K>>, b: seq<Amount<K>>, k: K)
    ensures TotalOf(a + b, k) == TotalOf(a, k) + TotalOf(b, k)
  {
    if b == [] {
      assert a + b == a;
    } else {
      assert (a + b)[..|a + b| - 1] == a + b[..|b| - 1];
      TotalConcat(a, b[..|b| - 1], k);
    }
  }

  /** Putting rows together adds their balances, key by key. */
  lemma ConcatenationAdds<K(!new)>(a: seq<Amount<K>>, b: seq<Amount<K>>, ma: map<K, real>, mb: map<K, real>, both: map<K, real>)
    requires IsBalanceMap(a, ma) && IsBalanceMap(b, mb) && IsBalanceMap(a + b, both)
    ensures both.Keys == ma.Keys + mb.Keys && forall k :: At(both, k) == At(ma, k) + At(mb, k)
  {
    forall k ensures At(both, k) == At(ma, k) + At(mb, k) {
      MapTotals(a, ma, k);
      MapTotals(b, mb, k);
      MapTotals(a + b, both, k);
      TotalConcat(a, b, k);
    }
    assert forall row :: row in a + b <==> row in a || row in b;
    forall k ensures k in both <==> k in ma || k in mb {
      if row :| row in a && row.key == k { assert row in a + b; }
      if row :| row in b && row.key == k { assert row in a + b; }
    }
  }

  // ----- differences -----

  datatype Delta<K> = Delta(key: K, previous: real, current: real, difference: real)

  function DeltaAt<K>(previous: map<K, real>, current: map<K, real>, k: K): Delta<K> {
    Delta(k, At(previous, k), At(current, k), At(current, k) - At(previous, k))
  }

  /** The deltas among the listed keys: those whose balance changed. */
  function Changed<K(==)>(previous: map<K, real>, current: map<K, real>, keys: seq<K>): seq<Delta<K>> {
    if keys == [] then []
    else
      var last := keys[|keys| - 1];
      Changed(previous, current, keys[..|keys| - 1])
      + if At(current, last) == At(previous, last) then [] else [DeltaAt(previous, current, last)]
  }

  function KeysOf<K>(deltas: seq<Delta<K>>): (r: seq<K>)
    ensures |r| == |deltas| && forall i :: 0 <= i < |r| ==> r[i] == deltas[i].key
  {
    seq(|deltas|, i requires 0 <= i < |deltas| => deltas[i].key)
  }

  /** Exactly the keys whose balance changed, in ascending order, each with its change. */
  ghost predicate Deltas<K(!new)>(leq: (K, K) -> bool, previous: map<K, real>, current: map<K, real>, deltas: seq<Delta<K>>) {
    && Ascending(leq, KeysOf(deltas))
    && (forall k :: k in KeysOf(deltas) <==> At(previous, k) != At(current, k))
    && (forall d :: d in deltas ==>
          d.previous == At(previous, d.key) && d.current == At(current, d.key) && d.previous + d.difference == d.current)
  }

  lemma {:induction false} ChangedMembers<K>(previous: map<K, real>, current: map<K, real>, keys: seq<K>, k: K)
    ensures k in KeysOf(Changed(previous, current, keys)) <==> k in keys && At(previous, k) != At(current, k)
  {
    if keys != [] {
      var init, last := keys[..|keys| - 1], keys[|keys| - 1];
      assert keys == init + [last];
      ChangedMembers(previous, current, init, k);
      var before, d := Changed(previous, current, init), DeltaAt(previous, current, last);
      KeysOneMore(before, d);
      assert before + [] == before;
      assert Changed(previous, current, keys) == if At(current, last) == At(previous, last) then before else before + [d];
    }
  }

  lemma {:induction false} ChangedFields<K>(previous: map<K, real>, current: map<K, real>, keys: seq<K>, d: Delta<K>)
    ensures d in Changed(previous, current, keys) ==> d == DeltaAt(previous, current, d.key)
  {
    if keys != [] {
      ChangedFields(previous, current, keys[..|keys| - 1], d);
    }
  }

  lemma {:induction false} ChangedInOrder<K(!new)>(leq: (K, K) -> bool, previous: map<K, real>, current: map<K, real>, keys: seq<K>)
    requires Ascending(leq, keys)
    ensures Ascending(leq, KeysOf(Changed(previous, current, keys)))
  {
    if keys != [] {
      var init, last := keys[..|keys| - 1], keys[|keys| - 1];
      assert keys == init + [last];
      AscendingBefore(leq, init, last);
      ChangedInOrder(leq, previous, current, init);
      var before := Changed(previous, current, init);
      KeysOneMore(before, DeltaAt(previous, current, last));
      forall k | k in KeysOf(before) ensures k in init {
        ChangedMembers(previous, current, init, k);
      }
      AscendsOneMore(leq, KeysOf(before), init, last);
    }
  }

  lemma ChangedAreDeltas<K(!new)>(leq: (K, K) -> bool, previous: map<K, real>, current: map<K, real>, keys: seq<K>)
    requires Ascending(leq, keys) && forall k :: k in keys <==> k in previous || k in current
    ensures Deltas(leq, previous, current, Changed(previous, current, keys))
  {
    ChangedInOrder(leq, previous, current, keys);
    forall k ensures k in KeysOf(Changed(previous, current, keys)) <==> At(previous, k) != At(current, k) {
      ChangedMembers(previous, current, keys, k);
    }
    forall d | d in Changed(previous, current, keys) ensures d == DeltaAt(previous, current, d.key) {
      ChangedFields(previous, current, keys, d);
    }
  }

  lemma KeysOneMore<K>(deltas: seq<Delta<K>>, d: Delta<K>)
    ensures KeysOf(deltas + [d]) == KeysOf(deltas) + [d.key]
  {}

  lemma AscendsOneMore<K>(leq: (K, K) -> bool, some: seq<K>, all: seq<K>, last: K)
    requires Ascending(leq, some) && Ascending(leq, all + [last]) && forall k :: k in some ==> k in all
    ensures Ascending(leq, some + [last])
  {
    forall k | k in some ensures leq(k, last) && k != last {
      var i :| 0 <= i < |all| && all[i] == k;
      assert (all + [last])[i] == k && (all + [last])[|all|] == last;
    }
    forall i, j | 0 <= i < j < |some + [last]| ensures leq((some + [last])[i], (some + [last])[j]) && (some + [last])[i] != (some + [last])[j] {
      assert some[i] in some;
    }
  }

  method CompareBalanceMaps<K(==,!new)>(leq: (K, K) -> bool, previous: map<K, real>, current: map<K, real>)
    returns (deltas: seq<Delta<K>>)
    requires TotalOrder(leq)
    ensures Deltas(leq, previous, current, deltas)
  {
    var keys := SortedKeys(leq, previous.Keys + current.Keys);
    ChangedAreDeltas(leq, previous, current, keys);
    deltas := ListChanges(previous, current, keys);
  }

  method ListChanges<K(==)>(previous: map<K, real>, current: map<K, real>, keys: seq<K>) returns (deltas: seq<Delta<K>>)
    ensures deltas == Changed(previous, current, keys)
  {
    deltas := [];
    for i := 0 to |keys|
      invariant deltas == Changed(previous, current, keys[..i])
    {
      assert keys[..i + 1][..i] == keys[..i];
      var difference := At(current, keys[i]) - At(previous, keys[i]);
      if difference == 0.0 {
        continue;
      }
      deltas := deltas + [Delta(keys[i], At(previous, keys[i]), At(current, keys[i]), difference)];
    }
    assert keys[..|keys|] == keys;
  }

  /** The deltas as contributions. */
  function AsAmounts<K>(deltas: seq<Delta<K>>): (r: seq<Amount<K>>)
    ensures |r| == |deltas| && forall i :: 0 <= i < |r| ==> r[i] == Amount(deltas[i].key, deltas[i].difference)
  {
    seq(|deltas|, i requires 0 <= i < |deltas| => Amount(deltas[i].key, deltas[i].difference))
  }

  lemma NotListed<K>(deltas: seq<Delta<K>>, k: K)
    requires k !in KeysOf(deltas)
    ensures TotalOf(AsAmounts(deltas), k) == 0.0
  {
    forall row | row in AsAmounts(deltas) ensures row.key != k {
      var j :| 0 <= j < |deltas| && AsAmounts(deltas)[j] == row;
      assert KeysOf(deltas)[j] == row.key;
    }
    NoRowsNoTotal(AsAmounts(deltas), k);
  }

  lemma AmountsOneMore<K>(deltas: seq<Delta<K>>, d: Delta<K>, k: K)
    ensures TotalOf(AsAmounts(deltas + [d]), k) == TotalOf(AsAmounts(deltas), k) + if d.key == k then d.difference else 0.0
  {
    assert AsAmounts(deltas + [d]) == AsAmounts(deltas) + [Amount(d.key, d.difference)];
    TotalOneMore(AsAmounts(deltas), Amount(d.key, d.difference), k);
  }

  lemma {:induction false} ListedOnce<K>(leq: (K, K) -> bool, deltas: seq<Delta<K>>, i: nat)
    requires Ascending(leq, KeysOf(deltas)) && i < |deltas|
    ensures TotalOf(AsAmounts(deltas), deltas[i].key) == deltas[i].difference
  {
    var init, last := deltas[..|deltas| - 1], deltas[|deltas| - 1];
    assert deltas == init + [last];
    KeysOneMore(init, last);
    AscendingBefore(leq, KeysOf(init), last.key);
    AmountsOneMore(init, last, deltas[i].key);
    if i < |init| {
      assert KeysOf(init)[i] == deltas[i].key;
      ListedOnce(leq, init, i);
    } else {
      NotListed(init, last.key);
    }
  }

  lemma AscendingBefore<K>(leq: (K, K) -> bool, init: seq<K>, last: K)
    requires Ascending(leq, init + [last])
    ensures Ascending(leq, init) && last !in init
  {
    forall i, j | 0 <= i < j < |init| ensures leq(init[i], init[j]) && init[i] != init[j] {
      assert (init + [last])[i] == init[i] && (init + [last])[j] == init[j];
    }
    forall i | 0 <= i < |init| ensures init[i] != last {
      assert (init + [last])[i] == init[i] && (init + [last])[|init|] == last;
    }
  }

  /** Previous balances plus the deltas are the current balances. */
  lemma DeltasReconstruct<K(!new)>(leq: (K, K) -> bool, previous: map<K, real>, current: map<K, real>, deltas: seq<Delta<K>>, k: K)
    requires Deltas(leq, previous, current, deltas)
    ensures At(previous, k) + TotalOf(AsAmounts(deltas), k) == At(current, k)
  {
    if k in KeysOf(deltas) {
      var i :| 0 <= i < |deltas| && KeysOf(deltas)[i] == k;
      assert deltas[i] in deltas;
      ListedOnce(leq, deltas, i);
    } else {
      NotListed(deltas, k);
    }
  }

  /** Appending the deltas to the previous rows gives the current balances everywhere. */
  lemma AppendedDeltas<K(!new)>(leq: (K, K) -> bool, previousRows: seq<Amount<K>>, previous: map<K, real>, current: map<K, real>,
                                deltas: seq<Delta<K>>, appended: map<K, real>)
    requires IsBalanceMap(previousRows, previous) && Deltas(leq, previous, current, deltas)
    requires IsBalanceMap(previousRows + AsAmounts(deltas), appended)
    ensures forall k :: At(appended, k) == At(current, k)
  {
    forall k ensures At(appended, k) == At(current, k) {
      MapTotals(previousRows, previous, k);
      MapTotals(previousRows + AsAmounts(deltas), appended, k);
      TotalConcat(previousRows, AsAmounts(deltas), k);
      DeltasReconstruct(leq, previous, current, deltas, k);
    }
  }

  // ----- balances against expectations -----

  datatype ActualBalance = ActualBalance(exchange: string, currency: string, amount: real)

  datatype ExpectedBalance = ExpectedBalance(source: string, kind: string, asset: string, quantity: real)

  datatype BalanceRow = BalanceRow(asset: string, expected: real, actual: real, difference: real, matched: bool)

  function ActualPiece(source: string): ActualBalance -> seq<Amount<string>> {
    (row: ActualBalance) => if row.exchange == source then [Amount(row.currency, row.amount)] else []
  }

  function ExpectedPiece(source: string): ExpectedBalance -> seq<Amount<string>> {
    (row: ExpectedBalance) => if row.source == source && row.kind == "asset_balance" then [Amount(row.asset, row.quantity)] else []
  }

  lemma PieceAddsNothing<T>(rows: seq<T>, row: T, piece: T -> seq<Amount<string>>)
    requires piece(row) == []
    ensures Chain(rows + [row], piece) == Chain(rows, piece)
  {
    ChainOneMore(rows, row, piece);
  }

  lemma PieceAddsOne<T>(rows: seq<T>, row: T, piece: T -> seq<Amount<string>>, amount: Amount<string>, balances: map<string, real>)
    requires piece(row) == [amount] && IsBalanceMap(Chain(rows, piece), balances)
    ensures IsBalanceMap(Chain(rows + [row], piece), balances[amount.key := At(balances, amount.key) + amount.value])
  {
    ChainOneMore(rows, row, piece);
    MapGrows(Chain(rows, piece), balances, amount);
  }

  method SumActual(rows: seq<ActualBalance>, source: string) returns (balances: map<string, real>)
    ensures IsBalanceMap(Chain(rows, ActualPiece(source)), balances)
  {
    balances := map[];
    ghost var done: seq<ActualBalance> := [];
    for i := 0 to |rows|
      invariant done == rows[..i] && IsBalanceMap(Chain(done, ActualPiece(source)), balances)
    {
      var row := rows[i];
      TakenOneMore(rows, i, done);
      if row.exchange != source {
        PieceAddsNothing(done, row, ActualPiece(source));
        done := done + [row];
        continue;
      }
      PieceAddsOne(done, row, ActualPiece(source), Amount(row.currency, row.amount), balances);
      balances := balances[row.currency := At(balances, row.currency) + row.amount];
      done := done + [row];
    }
    TakenAll(rows, done);
  }

  method SumExpected(rows: seq<ExpectedBalance>, source: string) returns (balances: map<string, real>)
    ensures IsBalanceMap(Chain(rows, ExpectedPiece(source)), balances)
  {
    balances := map[];
    ghost var done: seq<ExpectedBalance> := [];
    for i := 0 to |rows|
      invariant done == rows[..i] && IsBalanceMap(Chain(done, ExpectedPiece(source)), balances)
    {
      var row := rows[i];
      TakenOneMore(rows, i, done);
      if row.source != source || row.kind != "asset_balance" {
        PieceAddsNothing(done, row, ExpectedPiece(source));
        done := done + [row];
        continue;
      }
      PieceAddsOne(done, row, ExpectedPiece(source), Amount(row.asset, row.quantity), balances);
      balances := balances[row.asset := At(balances, row.asset) + row.quantity];
      done := done + [row];
    }
    TakenAll(rows, done);
  }

  function Magnitude(x: real): real {
    if x < 0.0 then -x else x
  }

  predicate Mentions<K(==)>(rows: seq<Amount<K>>, k: K) {
    exists row | row in rows :: row.key == k
  }

  function AssetsOf(rows: seq<BalanceRow>): (r: seq<string>)
    ensures |r| == |rows| && forall i :: 0 <= i < |r| ==> r[i] == rows[i].asset
  {
    seq(|rows|, i requires 0 <= i < |rows| => rows[i].asset)
  }

  /** The rows as they would be expected of their own exchanges. */
  function AsExpected(rows: seq<ActualBalance>): (r: seq<ExpectedBalance>)
    ensures |r| == |rows|
    ensures forall i :: 0 <= i < |r| ==> r[i] == ExpectedBalance(rows[i].exchange, "asset_balance", rows[i].currency, rows[i].amount)
  {
    seq(|rows|, i requires 0 <= i < |rows| => ExpectedBalance(rows[i].exchange, "asset_balance", rows[i].currency, rows[i].amount))
  }

  lemma {:induction false} ExpectedPieces(rows: seq<ActualBalance>, source: string)
    ensures Chain(AsExpected(rows), ExpectedPiece(source)) == Chain(rows, ActualPiece(source))
  {
    if rows != [] {
      var init, last := rows[..|rows| - 1], rows[|rows| - 1];
      assert AsExpected(rows)[..|rows| - 1] == AsExpected(init);
      ExpectedPieces(init, source);
      assert ExpectedPiece(source)(AsExpected(rows)[|rows| - 1]) == ActualPiece(source)(last);
    }
  }

  /** One row per asset of either side, ascending; it matches exactly when the sums agree. */
  ghost predicate Compared(leq: (string, string) -> bool, actual: seq<Amount<string>>, expected: seq<Amount<string>>, rows: seq<BalanceRow>) {
    && Ascending(leq, AssetsOf(rows))
    && (forall asset :: asset in AssetsOf(rows) <==> Mentions(actual, asset) || Mentions(expected, asset))
    && (forall row :: row in rows ==>
          && row.expected == TotalOf(expected, row.asset) && row.actual == TotalOf(actual, row.asset)
          && row.difference >= 0.0 && row.difference in {row.actual - row.expected, row.expected - row.actual}
          && (row.matched <==> row.actual == row.expected))
  }

  function RowFor(actual: map<string, real>, expected: map<string, real>, asset: string): BalanceRow {
    var difference := Magnitude(At(actual, asset) - At(expected, asset));
    BalanceRow(asset, At(expected, asset), At(actual, asset), difference, difference == 0.0)
  }

  lemma RowsCompare(leq: (string, string) -> bool, a: seq<Amount<string>>, e: seq<Amount<string>>, actual: map<string, real>,
                    expected: map<string, real>, assets: seq<string>, rows: seq<BalanceRow>)
    requires IsBalanceMap(a, actual) && IsBalanceMap(e, expected) && Ascending(leq, assets)
    requires forall asset :: asset in assets <==> asset in actual || asset in expected
    requires |rows| == |assets| && forall i :: 0 <= i < |rows| ==> rows[i] == RowFor(actual, expected, assets[i])
    ensures Compared(leq, a, e, rows)
  {
    assert AssetsOf(rows) == assets;
    forall row | row in rows ensures row.expected == TotalOf(e, row.asset) && row.actual == TotalOf(a, row.asset) {
      MapTotals(a, actual, row.asset);
      MapTotals(e, expected, row.asset);
    }
  }

  method CompareBalances(leq: (string, string) -> bool, actualRows: seq<ActualBalance>, expectedRows: seq<ExpectedBalance>, source: string)
    returns (rows: seq<BalanceRow>)
    requires TotalOrder(leq)
    ensures Compared(leq, Chain(actualRows, ActualPiece(source)), Chain(expectedRows, ExpectedPiece(source)), rows)
  {
    var actual := SumActual(actualRows, source);
    var expected := SumExpected(expectedRows, source);
    var assets := SortedKeys(leq, actual.Keys + expected.Keys);
    rows := ListBalances(actual, expected, assets);
    RowsCompare(leq, Chain(actualRows, ActualPiece(source)), Chain(expectedRows, ExpectedPiece(source)), actual, expected, assets, rows);
  }

  /** Balances compared with themselves match, row by row. */
  lemma OwnBalancesMatch(leq: (string, string) -> bool, actual: seq<ActualBalance>, source: string, rows: seq<BalanceRow>)
    requires Compared(leq, Chain(actual, ActualPiece(source)), Chain(AsExpected(actual), ExpectedPiece(source)), rows)
    ensures forall row :: row in rows ==> row.matched && row.difference == 0.0
  {
    ExpectedPieces(actual, source);
  }

  /** An actual row adds to its own exchange only, and an expected one to its own source, and
      only if it is of the right kind. */
  lemma RowsOfOthers(actual: seq<ActualBalance>, expected: seq<ExpectedBalance>, source: string, a: ActualBalance, e: ExpectedBalance, k: string)
    ensures TotalOf(Chain(actual + [a], ActualPiece(source)), k)
         == TotalOf(Chain(actual, ActualPiece(source)), k) + if a.exchange == source && a.currency == k then a.amount else 0.0
    ensures TotalOf(Chain(expected + [e], ExpectedPiece(source)), k)
         == TotalOf(Chain(expected, ExpectedPiece(source)), k)
            + if e.source == source && e.kind == "asset_balance" && e.asset == k then e.quantity else 0.0
  {
    ChainOneMore(actual, a, ActualPiece(source));
    ChainOneMore(expected, e, ExpectedPiece(source));
    if a.exchange == source {
      TotalOneMore(Chain(actual, ActualPiece(source)), Amount(a.currency, a.amount), k);
    } else {
      assert Chain(actual, ActualPiece(source)) + [] == Chain(actual, ActualPiece(source));
    }
    if e.source == source && e.kind == "asset_balance" {
      TotalOneMore(Chain(expected, ExpectedPiece(source)), Amount(e.asset, e.quantity), k);
    } else {
      assert Chain(expected, ExpectedPiece(source)) + [] == Chain(expected, ExpectedPiece(source));
    }
  }

  method ListBalances(actual: map<string, real>, expected: map<string, real>, assets: seq<string>) returns (rows: seq<BalanceRow>)
    ensures |rows| == |assets| && forall i :: 0 <= i < |rows| ==> rows[i] == RowFor(actual, expected, assets[i])
  {
    rows := [];
    for i := 0 to |assets|
      invariant |rows| == i && forall k :: 0 <= k < i ==> rows[k] == RowFor(actual, expected, assets[k])
    {
      var difference := Magnitude(At(actual, assets[i]) - At(expected, assets[i]));
      rows := rows + [BalanceRow(assets[i], At(expected, assets[i]), At(actual, assets[i]), difference, difference == 0.0)];
    }
  }
}
