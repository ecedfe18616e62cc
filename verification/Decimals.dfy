/** Canonical decimals: normalize, print positionally, parse back. The context precision
    is a parameter, at least one digit. */
module Decimals {

  /** The number (-1)^negative * coefficient * 10^exponent. */
  datatype Decimal = Decimal(negative: bool, coefficient: nat, exponent: int)

  const ZERO := Decimal(false, 0, 0)

  // ----- digits -----

  function Pow10(n: nat): (p: nat)
    ensures p >= 1
  {
    if n == 0 then 1 else 10 * Pow10(n - 1)
  }

  predicate IsDigit(c: char) {
    '0' <= c <= '9'
  }

  function Digits(n: nat): (s: string)
    ensures s != [] && forall i :: 0 <= i < |s| ==> IsDigit(s[i])
  {
    if n < 10 then [('0' as int + n) as char] else Digits(n / 10) + [('0' as int + n % 10) as char]
  }

  function Number(s: string): nat
    requires forall i :: 0 <= i < |s| ==> IsDigit(s[i])
  {
    if s == [] then 0
    else
      assert IsDigit(s[|s| - 1]);
      10 * Number(s[..|s| - 1]) + (s[|s| - 1] as int - '0' as int)
  }

  function Zeros(n: nat): (s: string)
    ensures |s| == n && forall i :: 0 <= i < n ==> s[i] == '0'
  {
    seq(n, i => '0')
  }

  lemma {:induction false} NumberOfDigits(n: nat)
    ensures Number(Digits(n)) == n
  {
    if n >= 10 {
      NumberOfDigits(n / 10);
      assert Digits(n)[..|Digits(n)| - 1] == Digits(n / 10);
    }
  }

  lemma {:induction false} LeadingZeros(k: nat, s: string)
    requires forall i :: 0 <= i < |s| ==> IsDigit(s[i])
    ensures Number(Zeros(k) + s) == Number(s)
    decreases |s|, k
  {
    if s == [] {
      assert Zeros(k) + s == Zeros(k);
      if k > 0 {
        assert Zeros(k)[..k - 1] == Zeros(k - 1) + s;
        LeadingZeros(k - 1, s);
      }
    } else {
      assert (Zeros(k) + s)[..k + |s| - 1] == Zeros(k) + s[..|s| - 1];
      LeadingZeros(k, s[..|s| - 1]);
    }
  }

  lemma TenTimesPower(n: nat, k: nat)
    requires k > 0
    ensures n * Pow10(k) == 10 * (n * Pow10(k - 1))
  {
    assert Pow10(k) == 10 * Pow10(k - 1);
    Associate(n, 10, Pow10(k - 1));
    Associate(10, n, Pow10(k - 1));
  }

  lemma {:induction false} TrailingZeros(s: string, k: nat)
    requires forall i :: 0 <= i < |s| ==> IsDigit(s[i])
    ensures Number(s + Zeros(k)) == Number(s) * Pow10(k)
  {
    var longer := s + Zeros(k);
    if k == 0 {
      assert longer == s;
    } else {
      assert longer[..|longer| - 1] == s + Zeros(k - 1) && longer[|longer| - 1] == '0';
      assert Number(longer) == 10 * Number(s + Zeros(k - 1));
      TrailingZeros(s, k - 1);
      TenTimesPower(Number(s), k);
    }
  }

  // ----- normalizing -----

  function Quotient(n: nat, d: nat): nat
    requires d > 0
  {
    n / d
  }

  /** Whether dropping the last digits of `n`, with value below `d`, rounds up: half to even. */
  predicate RoundsUp(n: nat, d: nat)
    requires d > 0
  {
    2 * (n % d) > d || (2 * (n % d) == d && Quotient(n, d) % 2 == 1)
  }

  /** Round half even to `precision` digits. */
  function Rounded(x: Decimal, precision: nat): Decimal {
    var digits := |Digits(x.coefficient)|;
    if digits <= precision then x
    else
      var dropped := digits - precision;
      var kept := Quotient(x.coefficient, Pow10(dropped));
      Decimal(x.negative, if RoundsUp(x.coefficient, Pow10(dropped)) then kept + 1 else kept, x.exponent + dropped)
  }

  function Stripped(x: Decimal): (s: Decimal)
    requires x.coefficient > 0
    ensures s.coefficient > 0 && s.coefficient % 10 != 0 && s.negative == x.negative && s.exponent >= x.exponent
    ensures x.coefficient == s.coefficient * Pow10(s.exponent - x.exponent)
    decreases x.coefficient
  {
    if x.coefficient % 10 == 0 then Stripped(Decimal(x.negative, x.coefficient / 10, x.exponent + 1)) else x
  }

  function QuantizeDecimal(x: Decimal, precision: nat): Decimal
    requires precision > 0
  {
    if x.coefficient == 0 then ZERO
    else
      RoundedPositive(x, precision);
      Stripped(Rounded(x, precision))
  }

  lemma {:induction false} DigitsBound(n: nat)
    ensures n < Pow10(|Digits(n)|)
    ensures n > 0 ==> Pow10(|Digits(n)| - 1) <= n
  {
    if n >= 10 { DigitsBound(n / 10); }
  }

  lemma {:induction false} PowMonotone(a: nat, b: nat)
    requires a <= b
    ensures Pow10(a) <= Pow10(b)
    decreases b - a
  {
    if a < b { PowMonotone(a + 1, b); }
  }

  lemma {:induction false} PowSum(a: nat, b: nat)
    ensures Pow10(a + b) == Pow10(a) * Pow10(b)
  {
    if a > 0 {
      PowSum(a - 1, b);
      assert a + b - 1 == (a - 1) + b;
    }
  }

  /** What rounding keeps of a coefficient that is too long has exactly the precision's digits. */
  lemma KeptBounds(n: nat, precision: nat)
    requires precision > 0 && |Digits(n)| > precision
    ensures Pow10(precision - 1) <= n / Pow10(|Digits(n)| - precision) < Pow10(precision)
  {
    var dropped := |Digits(n)| - precision;
    DigitsBound(n);
    PowSum(precision, dropped);
    PowSum(precision - 1, dropped);
    DivBounds(n, Pow10(dropped), Pow10(precision - 1), Pow10(precision));
  }

  lemma DivBounds(n: nat, d: nat, low: nat, high: nat)
    requires d > 0 && low * d <= n < high * d
    ensures low <= n / d < high
  {
    var q := n / d;
    assert q * d <= n < (q + 1) * d;
    MulMonotone(q + 1, low, d);
    MulMonotone(high, q, d);
  }

  lemma MulMonotone(a: int, b: int, d: nat)
    ensures a <= b ==> a * d <= b * d
  {
  }

  lemma RoundedPositive(x: Decimal, precision: nat)
    requires precision > 0 && x.coefficient > 0
    ensures 0 < Rounded(x, precision).coefficient <= Pow10(precision)
  {
    if |Digits(x.coefficient)| > precision {
      KeptBounds(x.coefficient, precision);
    } else {
      DigitsBound(x.coefficient);
      PowMonotone(|Digits(x.coefficient)|, precision);
    }
  }

  // ----- one number, one normal form -----

  lemma TimesTen(n: nat, d: nat)
    requires d > 0
    ensures (10 * n) / (10 * d) == n / d && (10 * n) % (10 * d) == 10 * (n % d)
  {
    var q, r := n / d, n % d;
    assert n == q * d + r;
    assert 10 * n == q * (10 * d) + 10 * r;
    DivUnique(10 * n, 10 * d, q, 10 * r);
  }

  lemma DivUnique(n: nat, d: nat, q: nat, r: nat)
    requires d > 0 && n == q * d + r && r < d
    ensures n / d == q && n % d == r
  {
    var q', r' := n / d, n % d;
    assert n == q' * d + r';
    MulMonotone(q' + 1, q, d);
    MulMonotone(q + 1, q', d);
  }

  /** A trailing zero in the coefficient is as good as one more in the exponent. */
  lemma QuantizeShift(x: Decimal, precision: nat)
    requires precision > 0
    ensures QuantizeDecimal(Decimal(x.negative, 10 * x.coefficient, x.exponent), precision)
            == QuantizeDecimal(Decimal(x.negative, x.coefficient, x.exponent + 1), precision)
  {
    var n := x.coefficient;
    if n > 0 {
      assert Digits(10 * n) == Digits(n) + ['0'];
      if |Digits(n)| >= precision {
        TimesTen(n, Pow10(|Digits(n)| - precision));
      }
    }
  }

  lemma {:induction false} QuantizeScale(negative: bool, n: nat, exponent: int, k: nat, precision: nat)
    requires precision > 0
    ensures QuantizeDecimal(Decimal(negative, n * Pow10(k), exponent), precision)
            == QuantizeDecimal(Decimal(negative, n, exponent + k), precision)
    decreases k
  {
    if k > 0 {
      var m := n * Pow10(k - 1);
      TenTimesPower(n, k);
      QuantizeShift(Decimal(negative, m, exponent), precision);
      QuantizeScale(negative, n, exponent + 1, k - 1, precision);
    } else {
      assert n * Pow10(0) == n;
    }
  }

  /** The coefficient the number would have with the given exponent. */
  function Scaled(x: Decimal, exponent: int): int
    requires exponent <= x.exponent
  {
    var magnitude := x.coefficient * Pow10(x.exponent - exponent);
    if x.negative then -magnitude else magnitude
  }

  /** Numeric equality, whatever sign of zero and trailing zeros the representations carry. */
  predicate SameValue(x: Decimal, y: Decimal) {
    var common := if x.exponent < y.exponent then x.exponent else y.exponent;
    Scaled(x, common) == Scaled(y, common)
  }

  predicate Fits(x: Decimal, precision: nat) {
    |Digits(x.coefficient)| <= precision
  }

  predicate Normal(x: Decimal, precision: nat) {
    x == ZERO || (x.coefficient > 0 && x.coefficient % 10 != 0 && Fits(x, precision))
  }

  lemma ScaledSign(x: Decimal, exponent: int)
    requires exponent <= x.exponent
    ensures Scaled(x, exponent) == 0 <==> x.coefficient == 0
    ensures x.coefficient > 0 ==> (Scaled(x, exponent) < 0 <==> x.negative)
    ensures x.coefficient * Pow10(x.exponent - exponent) == if Scaled(x, exponent) < 0 then -Scaled(x, exponent) else Scaled(x, exponent)
  {
    var magnitude := x.coefficient * Pow10(x.exponent - exponent);
    if x.coefficient > 0 { assert magnitude >= x.coefficient; }
  }

  /** The normal form can be read off at any scale the number has. */
  lemma FormAtScale(x: Decimal, exponent: int, precision: nat)
    requires precision > 0 && exponent <= x.exponent
    ensures var n := Scaled(x, exponent);
            QuantizeDecimal(x, precision) == QuantizeDecimal(Decimal(n < 0, if n < 0 then -n else n, exponent), precision)
  {
    ScaledSign(x, exponent);
    if x.coefficient > 0 {
      QuantizeScale(x.negative, x.coefficient, exponent, x.exponent - exponent, precision);
    }
  }

  /** Numerically equal numbers, however long, have one normal form. */
  lemma SameValueSameForm(x: Decimal, y: Decimal, precision: nat)
    requires precision > 0 && SameValue(x, y)
    ensures QuantizeDecimal(x, precision) == QuantizeDecimal(y, precision)
  {
    var common := if x.exponent < y.exponent then x.exponent else y.exponent;
    FormAtScale(x, common, precision);
    FormAtScale(y, common, precision);
  }

  lemma DigitsFit(n: nat, precision: nat)
    requires precision > 0 && n < Pow10(precision)
    ensures |Digits(n)| <= precision
  {
    DigitsBound(n);
    if |Digits(n)| > precision { PowMonotone(precision, |Digits(n)| - 1); }
  }

  lemma StrippedFits(x: Decimal, precision: nat)
    requires precision > 0 && 0 < x.coefficient <= Pow10(precision)
    ensures Stripped(x).coefficient < Pow10(precision)
  {
    var s := Stripped(x);
    var k := s.exponent - x.exponent;
    if k == 0 {
      assert x.coefficient == s.coefficient;
      assert Pow10(precision) == 10 * Pow10(precision - 1);
    } else {
      PowMonotone(1, k);
      FactorBelow(s.coefficient, Pow10(k), Pow10(precision));
    }
  }

  lemma FactorBelow(n: nat, f: nat, bound: nat)
    requires n > 0 && f >= 10 && n * f <= bound
    ensures n < bound
  {
    MulMonotone(10, f, n);
  }

  lemma QuantizeIsNormal(x: Decimal, precision: nat)
    requires precision > 0
    ensures Normal(QuantizeDecimal(x, precision), precision)
  {
    if x.coefficient > 0 {
      RoundedPositive(x, precision);
      StrippedFits(Rounded(x, precision), precision);
      DigitsFit(Stripped(Rounded(x, precision)).coefficient, precision);
    }
  }

  lemma QuantizeNormal(x: Decimal, precision: nat)
    requires precision > 0 && Normal(x, precision)
    ensures QuantizeDecimal(x, precision) == x
  {
  }

  /** Whether the number, leaving trailing zeros aside, has at most `precision` digits. */
  predicate Representable(x: Decimal, precision: nat) {
    x.coefficient == 0 || Fits(Stripped(x), precision)
  }

  lemma SameAtScale(x: Decimal, y: Decimal)
    requires x.exponent <= y.exponent && x.negative == y.negative
    requires x.coefficient == y.coefficient * Pow10(y.exponent - x.exponent)
    ensures SameValue(y, x)
  {
    assert x.coefficient * Pow10(0) == x.coefficient;
  }

  lemma StrippedKeepsValue(x: Decimal)
    requires x.coefficient > 0
    ensures SameValue(Stripped(x), x)
  {
    var s := Stripped(x);
    var factor := Pow10(s.exponent - x.exponent);
    assert x.coefficient == s.coefficient * factor;
    SameAtScale(x, s);
  }

  /** Normal forms are equal when their values are. */
  lemma NormalUnique(x: Decimal, y: Decimal, p: nat, q: nat)
    requires p > 0 && q > 0 && Normal(x, p) && Normal(y, q) && SameValue(x, y)
    ensures x == y
  {
    var wide := if p > q then p else q;
    QuantizeNormal(x, wide);
    QuantizeNormal(y, wide);
    SameValueSameForm(x, y, wide);
  }

  /** Cutting a coefficient off to so many digits, rounding half to even. */
  ghost predicate NearestEven(n: nat, unit: nat, c: nat) {
    var twice: int := 2 * (c * unit) - 2 * n;
    0 - unit <= twice <= unit && (twice == unit || twice == 0 - unit ==> c % 2 == 0)
  }

  lemma CutIsNearest(n: nat, unit: nat)
    requires unit > 0
    ensures NearestEven(n, unit, if RoundsUp(n, unit) then Quotient(n, unit) + 1 else Quotient(n, unit))
  {
    var q, r := n / unit, n % unit;
    assert n == q * unit + r;
    assert (q + 1) * unit == q * unit + unit;
  }

  lemma NotBothNearest(n: nat, unit: nat, c: nat, d: nat)
    requires unit > 0 && c < d
    ensures !(NearestEven(n, unit, c) && NearestEven(n, unit, d))
  {
    assert d * unit == c * unit + (d - c) * unit;
    MulMonotone(1, d - c, unit);
    MulMonotone(2, d - c, unit);
  }

  /** Only one coefficient is nearest. */
  lemma NearestIsUnique(n: nat, unit: nat, c: nat, d: nat)
    requires unit > 0 && NearestEven(n, unit, c) && NearestEven(n, unit, d)
    ensures c == d
  {
    if c < d {
      NotBothNearest(n, unit, c, d);
    } else if d < c {
      NotBothNearest(n, unit, d, c);
    }
  }

  /** A number too long for the precision is rounded to the nearest one that fits, half to even. */
  lemma QuantizeIsNearest(x: Decimal, precision: nat) returns (dropped: nat, c: nat)
    requires precision > 0 && x.coefficient > 0 && |Digits(x.coefficient)| > precision
    ensures dropped == |Digits(x.coefficient)| - precision && NearestEven(x.coefficient, Pow10(dropped), c)
    ensures SameValue(QuantizeDecimal(x, precision), Decimal(x.negative, c, x.exponent + dropped))
  {
    dropped := |Digits(x.coefficient)| - precision;
    CutIsNearest(x.coefficient, Pow10(dropped));
    var r := Rounded(x, precision);
    c := r.coefficient;
    RoundedPositive(x, precision);
    StrippedKeepsValue(r);
  }

  /** A number keeps its value exactly when it is representable. */
  lemma QuantizeKeepsValueExactly(x: Decimal, precision: nat)
    requires precision > 0
    ensures SameValue(QuantizeDecimal(x, precision), x) <==> Representable(x, precision)
  {
    if x.coefficient > 0 {
      var s, q := Stripped(x), QuantizeDecimal(x, precision);
      StrippedKeepsValue(x);
      if Fits(s, precision) {
        SameValueSameForm(s, x, precision);
        QuantizeNormal(s, precision);
      }
      if SameValue(q, x) {
        QuantizeIsNormal(x, precision);
        SameValueTransitive(q, x, s);
        NormalUnique(q, s, precision, |Digits(s.coefficient)|);
      }
    }
  }

  /** Representability is a property of the value. */
  lemma RepresentableByValue(x: Decimal, y: Decimal, precision: nat)
    requires precision > 0 && SameValue(x, y)
    ensures Representable(x, precision) <==> Representable(y, precision)
  {
    QuantizeKeepsValueExactly(x, precision);
    QuantizeKeepsValueExactly(y, precision);
    SameValueSameForm(x, y, precision);
    var q := QuantizeDecimal(x, precision);
    if SameValue(q, x) { SameValueTransitive(q, x, y); }
    if SameValue(q, y) { SameValueTransitive(q, y, x); }
  }

  lemma SameValueTransitive(x: Decimal, y: Decimal, z: Decimal)
    requires SameValue(x, y) && SameValue(y, z)
    ensures SameValue(x, z)
  {
    var low := if x.exponent <= y.exponent && x.exponent <= z.exponent then x.exponent
               else if y.exponent <= z.exponent then y.exponent else z.exponent;
    CommonScale(x, y, low);
    CommonScale(y, z, low);
    CommonScale(x, z, low);
  }

  lemma CommonScale(x: Decimal, y: Decimal, low: int)
    requires low <= x.exponent && low <= y.exponent
    ensures SameValue(x, y) <==> Scaled(x, low) == Scaled(y, low)
  {
    var common := if x.exponent < y.exponent then x.exponent else y.exponent;
    Rescale(x, common, low);
    Rescale(y, common, low);
    CancelFactor(Scaled(x, common), Scaled(y, common), Pow10(common - low));
  }

  lemma CancelFactor(a: int, b: int, f: nat)
    requires f > 0
    ensures a * f == b * f <==> a == b
  {
    if a < b { MulMonotone(a + 1, b, f); }
    if b < a { MulMonotone(b + 1, a, f); }
  }

  lemma Rescale(x: Decimal, common: int, low: int)
    requires low <= common <= x.exponent
    ensures Scaled(x, low) == Scaled(x, common) * Pow10(common - low)
  {
    PowSum(x.exponent - common, common - low);
    Associate(x.coefficient, Pow10(x.exponent - common), Pow10(common - low));
  }

  lemma Associate(a: int, b: int, c: int)
    ensures a * (b * c) == (a * b) * c && (-(a * b)) * c == -((a * b) * c)
  {
  }
}
