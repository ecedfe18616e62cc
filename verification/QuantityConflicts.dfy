/** When the quantity texts of merged rows conflict, told by their numbers. */
module QuantityConflicts {
  import opened Wrappers
  import opened Ordering
  import opened Decimals
  import opened DecimalText
  import opened BalanceMerge

  /** The quantity of a row as the printer writes it. */
  function Printed<V>(amount: V -> Decimal, precision: nat): V -> string
    requires precision > 0
  {
    (v: V) => FormatDecimal(Some(amount(v)), precision)
  }

  ghost predicate Reported<V(!new), K(!new)>(leq: (K, K) -> bool, rows: seq<V>, semantic: V -> K, text: V -> string, k: K) {
    exists c :: c in ConflictIssues(leq, rows, semantic, text) && c.key == k
  }

  /** Whether two rows differ in the value of their quantity. */
  function Unequal<V>(amount: V -> Decimal): (V, V) -> bool {
    (a: V, b: V) => !SameValue(amount(a), amount(b))
  }

  /** Some two rows of the key differ. */
  ghost predicate Differ<V(!new), K>(rows: seq<V>, semantic: V -> K, unequal: (V, V) -> bool, k: K) {
    exists a, b :: a in rows && b in rows && semantic(a) == k && semantic(b) == k && unequal(a, b)
  }

  lemma PrintedApart<V>(amount: V -> Decimal, precision: nat, a: V, b: V)
    requires precision > 0
    ensures Printed(amount, precision)(a) != Printed(amount, precision)(b) ==> Unequal(amount)(a, b)
    ensures Representable(amount(a), precision) && Representable(amount(b), precision) && Unequal(amount)(a, b) ==>
              Printed(amount, precision)(a) != Printed(amount, precision)(b)
  {
    Canonical(amount(a), amount(b), precision);
  }

  lemma ReportedWhenTextsTell<V(!new), K(!new)>(leq: (K, K) -> bool, rows: seq<V>, semantic: V -> K, text: V -> string,
                                                unequal: (V, V) -> bool, k: K)
    requires TotalOrder(leq) && forall a, b :: text(a) != text(b) ==> unequal(a, b)
    ensures Reported(leq, rows, semantic, text, k) ==> Differ(rows, semantic, unequal, k)
    ensures (forall a, b :: a in rows && b in rows && semantic(a) == k && semantic(b) == k && unequal(a, b) ==> text(a) != text(b))
            ==> (Reported(leq, rows, semantic, text, k) <==> Differ(rows, semantic, unequal, k))
  {
    ConflictsExactly(leq, rows, semantic, text, k);
    if Conflicted(rows, semantic, text, k) {
      var a, b :| a in rows && b in rows && semantic(a) == k && semantic(b) == k && text(a) != text(b);
      assert unequal(a, b);
    }
  }

  /** With quantities as printed, a conflict is reported exactly when two of a key differ in
      value, provided they are representable. Of longer numbers a difference may go unnoticed,
      but what is reported does differ. */
  lemma PrintedConflicts<V(!new), K(!new)>(leq: (K, K) -> bool, rows: seq<V>, semantic: V -> K, amount: V -> Decimal, precision: nat, k: K)
    requires TotalOrder(leq) && precision > 0
    ensures Reported(leq, rows, semantic, Printed(amount, precision), k) ==> Differ(rows, semantic, Unequal(amount), k)
    ensures (forall v :: v in rows && semantic(v) == k ==> Representable(amount(v), precision)) ==>
              (Reported(leq, rows, semantic, Printed(amount, precision), k) <==> Differ(rows, semantic, Unequal(amount), k))
  {
    var text, unequal := Printed(amount, precision), Unequal(amount);
    forall a, b
      ensures text(a) != text(b) ==> unequal(a, b)
      ensures Representable(amount(a), precision) && Representable(amount(b), precision) && unequal(a, b) ==> text(a) != text(b)
    {
      PrintedApart(amount, precision, a, b);
    }
    ReportedWhenTextsTell(leq, rows, semantic, text, unequal, k);
  }

  lemma ReadWithZeros(digits: string, n: nat)
    requires digits != "" && AllDigits(digits)
    ensures ReadNumber(digits) == Value(Decimal(false, Number(digits), 0))
    ensures ReadNumber(digits + "." + Zeros(n)) == Value(Decimal(false, Number(digits + Zeros(n)), 0 - n))
  {
    DigitsAreNotSpecial(digits);
    FindAfterDigits(digits, "");
    assert digits + "" == digits && digits[..|digits|] == digits;
    var text := digits + ("." + Zeros(n));
    assert text == digits + "." + Zeros(n);
    FindAfterDigits(digits, "." + Zeros(n));
    assert text[..|digits|] == digits && text[|digits| + 1..] == Zeros(n);
  }

  lemma TrimDigits(text: string)
    requires text != "" && IsDigit(text[0])
    requires IsDigit(text[|text| - 1]) || text[|text| - 1] == '.'
    ensures Trim(text) == text
  {
    TrimNothing(text);
  }

  /** A whole number reads the same with any number of zeros after a point. */
  lemma ZerosReadAlike(digits: string, n: nat, precision: nat)
    requires digits != "" && AllDigits(digits) && precision > 0
    ensures ParseDecimal(digits + "." + Zeros(n), precision) == ParseDecimal(digits, precision)
  {
    var text := digits + "." + Zeros(n);
    ReadWithZeros(digits, n);
    assert text[0] == digits[0];
    TrimDigits(digits);
    TrimDigits(text);
    var whole, zeros := Decimal(false, Number(digits), 0), Decimal(false, Number(digits + Zeros(n)), 0 - n);
    TrailingZeros(digits, n);
    SameAtScale(zeros, whole);
    SameValueSameForm(zeros, whole, precision);
  }

  lemma RowsWithTexts<K>(rows: seq<(K, string)>, k: K, s: string, t: string)
    requires rows == [(k, s), (k, t)] && s != t
    ensures Conflicted(rows, (row: (K, string)) => row.0, (row: (K, string)) => row.1, k)
  {
    assert rows[0] in rows && rows[1] in rows;
  }

  /** So texts as captured conflict although they read as the same number: 1.0 beside 1. */
  lemma RawTextsConflict<K(!new)>(leq: (K, K) -> bool, k: K, digits: string, n: nat, precision: nat)
    requires TotalOrder(leq) && precision > 0 && digits != "" && AllDigits(digits)
    ensures var written := digits + "." + Zeros(n);
            && ParseDecimal(written, precision) == ParseDecimal(digits, precision)
            && Reported(leq, [(k, written), (k, digits)], (row: (K, string)) => row.0, (row: (K, string)) => row.1, k)
  {
    var written := digits + "." + Zeros(n);
    var rows := [(k, written), (k, digits)];
    ZerosReadAlike(digits, n, precision);
    RowsWithTexts(rows, k, written, digits);
    ConflictsExactly(leq, rows, (row: (K, string)) => row.0, (row: (K, string)) => row.1, k);
  }
}
