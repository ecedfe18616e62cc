/** Which lists of expected rows the greedy comparison always matches as well as can be. */
module CompetingRows {
  import opened Wrappers
  import opened GreedyMatching
  import opened CompareTransactions

  // ----- field by field: no row fits both, or whatever fits `d` fits `e` -----

  predicate KindsApart(d: ExpectedRow, e: ExpectedRow) {
    d.allowedKinds != {} && e.allowedKinds != {} && d.allowedKinds * e.allowedKinds == {}
  }

  predicate KindsInside(d: ExpectedRow, e: ExpectedRow) {
    e.allowedKinds == {} || (d.allowedKinds != {} && d.allowedKinds <= e.allowedKinds)
  }

  /** Exchanges are either interchangeable or have nothing in common. */
  predicate SameExchange(d: ExpectedRow, e: ExpectedRow, allowed: Option<set<string>>) {
    (allowed.Some? && d.exchange in allowed.value && e.exchange in allowed.value) || d.exchange == e.exchange
  }

  predicate CommentsApart(d: ExpectedRow, e: ExpectedRow) {
    d.exactComment && e.exactComment && d.comment != e.comment
  }

  predicate CommentsInside(d: ExpectedRow, e: ExpectedRow) {
    !e.exactComment || (d.exactComment && d.comment == e.comment)
  }

  predicate TxIdsApart(d: ExpectedRow, e: ExpectedRow) {
    !d.ignoreTxId && !e.ignoreTxId && d.txId != e.txId
  }

  predicate TxIdsInside(d: ExpectedRow, e: ExpectedRow) {
    e.ignoreTxId || (!d.ignoreTxId && d.txId == e.txId)
  }

  predicate DatesApart(d: ExpectedRow, e: ExpectedRow) {
    if d.date.None? || e.date.None? then d.date != e.date
    else
      || d.windowSeconds < 0 || e.windowSeconds < 0
      || d.date.value + d.windowSeconds < e.date.value - e.windowSeconds
      || e.date.value + e.windowSeconds < d.date.value - d.windowSeconds
  }

  predicate DatesInside(d: ExpectedRow, e: ExpectedRow) {
    if d.date.None? || e.date.None? then d.date == e.date
    else
      && e.date.value - e.windowSeconds <= d.date.value - d.windowSeconds
      && d.date.value + d.windowSeconds <= e.date.value + e.windowSeconds
  }

  predicate FeesApart(d: ExpectedRow, e: ExpectedRow) {
    || d.feeCurrency != e.feeCurrency
    || d.feeTolerance < 0.0 || e.feeTolerance < 0.0
    || d.fee + d.feeTolerance < e.fee - e.feeTolerance
    || e.fee + e.feeTolerance < d.fee - d.feeTolerance
  }

  predicate FeesInside(d: ExpectedRow, e: ExpectedRow) {
    && d.feeCurrency == e.feeCurrency
    && e.fee - e.feeTolerance <= d.fee - d.feeTolerance
    && d.fee + d.feeTolerance <= e.fee + e.feeTolerance
  }

  /** Some field keeps the two rows apart. */
  predicate Apart(d: ExpectedRow, e: ExpectedRow, allowed: Option<set<string>>) {
    || KindsApart(d, e) || !SameExchange(d, e, allowed) || d.trade != e.trade || CommentsApart(d, e)
    || TxIdsApart(d, e) || DatesApart(d, e) || FeesApart(d, e)
  }

  /** In every field `e` is at least as lenient as `d`. */
  predicate Inside(d: ExpectedRow, e: ExpectedRow, allowed: Option<set<string>>) {
    && KindsInside(d, e) && SameExchange(d, e, allowed) && d.trade == e.trade && CommentsInside(d, e)
    && TxIdsInside(d, e) && DatesInside(d, e) && FeesInside(d, e)
  }

  // ----- these are what they say -----

  lemma KindForBoth(d: ExpectedRow, e: ExpectedRow) returns (kind: string)
    requires !KindsApart(d, e)
    ensures (d.allowedKinds == {} || kind in d.allowedKinds) && (e.allowedKinds == {} || kind in e.allowedKinds)
  {
    if d.allowedKinds == {} && e.allowedKinds == {} {
      kind := "";
    } else if d.allowedKinds == {} {
      kind :| kind in e.allowedKinds;
    } else if e.allowedKinds == {} {
      kind :| kind in d.allowedKinds;
    } else {
      kind :| kind in d.allowedKinds * e.allowedKinds;
    }
  }

  /** A row that fits both. */
  lemma Common(d: ExpectedRow, e: ExpectedRow, allowed: Option<set<string>>) returns (a: ActualRow)
    requires !Apart(d, e, allowed)
    ensures TransactionsMatch(a, d, allowed) && TransactionsMatch(a, e, allowed)
  {
    var kind := KindForBoth(d, e);
    var low := d.fee - d.feeTolerance;
    a := ActualRow(kind, e.exchange, d.trade,
      if d.exactComment then d.comment else e.comment,
      if d.ignoreTxId then e.txId else d.txId,
      if d.date.None? || e.date.None? then None
      else if d.date.value - d.windowSeconds < e.date.value - e.windowSeconds then Some(e.date.value - e.windowSeconds)
      else Some(d.date.value - d.windowSeconds),
      d.feeCurrency,
      if low < e.fee - e.feeTolerance then e.fee - e.feeTolerance else low);
  }

  lemma KindInBoth(a: ActualRow, d: ExpectedRow, e: ExpectedRow)
    ensures KindMatches(a, d) && KindMatches(a, e) ==> !KindsApart(d, e)
  {
    if KindMatches(a, d) && KindMatches(a, e) && d.allowedKinds != {} && e.allowedKinds != {} {
      assert a.kind in d.allowedKinds * e.allowedKinds;
    }
  }

  /** Two expected rows are apart exactly when no row fits both. */
  lemma ApartExactly(d: ExpectedRow, e: ExpectedRow, allowed: Option<set<string>>)
    ensures Apart(d, e, allowed) <==> forall a :: !(TransactionsMatch(a, d, allowed) && TransactionsMatch(a, e, allowed))
  {
    if Apart(d, e, allowed) {
      forall a | TransactionsMatch(a, d, allowed) ensures !TransactionsMatch(a, e, allowed) {
        KindInBoth(a, d, e);
      }
    } else {
      var a := Common(d, e, allowed);
    }
  }

  lemma {:induction false} LongerThanAll(texts: set<string>) returns (n: nat)
    ensures forall t :: t in texts ==> |t| <= n
    decreases texts
  {
    if t :| t in texts {
      n := LongerThanAll(texts - {t});
      n := if |t| > n then |t| else n;
    } else {
      n := 0;
    }
  }

  lemma FreshText(texts: set<string>) returns (t: string)
    ensures t !in texts
  {
    var n := LongerThanAll(texts);
    t := seq(n + 1, _ => 'x');
  }

  /** A kind that `d` allows and `e` does not. */
  lemma KindOutside(d: ExpectedRow, e: ExpectedRow) returns (kind: string)
    requires !KindsInside(d, e)
    ensures (d.allowedKinds == {} || kind in d.allowedKinds) && e.allowedKinds != {} && kind !in e.allowedKinds
  {
    if d.allowedKinds == {} {
      kind := FreshText(e.allowedKinds);
    } else {
      kind :| kind in d.allowedKinds && kind !in e.allowedKinds;
    }
  }

  /** A row that fits `d` and not `e`, made from one that fits both by changing one field. */
  lemma Outside(d: ExpectedRow, e: ExpectedRow, allowed: Option<set<string>>) returns (b: ActualRow)
    requires !Apart(d, e, allowed) && !Inside(d, e, allowed)
    ensures TransactionsMatch(b, d, allowed) && !TransactionsMatch(b, e, allowed)
  {
    b := Common(d, e, allowed);
    if !KindsInside(d, e) {
      var kind := KindOutside(d, e);
      b := b.(kind := kind);
    } else if !CommentsInside(d, e) {
      b := b.(comment := e.comment + "x");
      assert |b.comment| != |e.comment|;
    } else if !TxIdsInside(d, e) {
      b := b.(txId := e.txId + "x");
      assert |b.txId| != |e.txId|;
    } else if !DatesInside(d, e) {
      var low := d.date.value - d.windowSeconds < e.date.value - e.windowSeconds;
      b := b.(date := Some(if low then d.date.value - d.windowSeconds else d.date.value + d.windowSeconds));
    } else {
      var low := d.fee - d.feeTolerance < e.fee - e.feeTolerance;
      b := b.(fee := if low then d.fee - d.feeTolerance else d.fee + d.feeTolerance);
    }
  }

  /** Of two rows that are not apart, one is inside the other exactly when it fits no row
      that the other does not. */
  lemma InsideExactly(d: ExpectedRow, e: ExpectedRow, allowed: Option<set<string>>)
    requires !Apart(d, e, allowed)
    ensures Inside(d, e, allowed) <==> forall b :: TransactionsMatch(b, d, allowed) ==> TransactionsMatch(b, e, allowed)
  {
    if !Inside(d, e, allowed) {
      var b := Outside(d, e, allowed);
    }
  }

  // ----- lists that always match as well as can be -----

  /** Every row is apart from each later one or inside it. */
  predicate EachApartOrInside(expected: seq<ExpectedRow>, allowed: Option<set<string>>) {
    forall d, e :: 0 <= d < e < |expected| ==> Apart(expected[d], expected[e], allowed) || Inside(expected[d], expected[e], allowed)
  }

  lemma OrderlyExactly(expected: seq<ExpectedRow>, allowed: Option<set<string>>)
    ensures Orderly(expected, Matcher(allowed)) <==> EachApartOrInside(expected, allowed)
  {
    if EachApartOrInside(expected, allowed) {
      forall a: ActualRow, b: ActualRow, d: nat, e: nat ensures Exchangeable(expected, Matcher(allowed), a, b, d, e) {
        if d < e < |expected| {
          ApartExactly(expected[d], expected[e], allowed);
          if !Apart(expected[d], expected[e], allowed) {
            InsideExactly(expected[d], expected[e], allowed);
          }
        }
      }
    } else {
      var d, e :| 0 <= d < e < |expected| && !Apart(expected[d], expected[e], allowed) && !Inside(expected[d], expected[e], allowed);
      var a := Common(expected[d], expected[e], allowed);
      var b := Outside(expected[d], expected[e], allowed);
      assert !Exchangeable(expected, Matcher(allowed), a, b, d, e);
    }
  }

  /** The comparison finds as many pairs as possible, whatever the actual rows, exactly when
      each expected row is, field by field, apart from every later one or inside it. */
  lemma FindsMaximumExactly(expected: seq<ExpectedRow>, allowed: Option<set<string>>)
    ensures (forall actual: seq<ActualRow> :: GreedyIsMaximum(actual, expected, Matcher(allowed)))
            <==> EachApartOrInside(expected, allowed)
  {
    MaximumExactly<ActualRow, ExpectedRow>(expected, Matcher(allowed));
    OrderlyExactly(expected, allowed);
  }
}
