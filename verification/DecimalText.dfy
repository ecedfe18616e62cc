/** Decimals as text: the canonical printer, the parser and the fraction-digit count. */
module DecimalText {
  import opened Wrappers
  import opened Decimals

  // ----- printing -----

  /** The digits before and after the decimal point. */
  function IntegerPart(x: Decimal): (s: string)
    ensures s != [] && forall i :: 0 <= i < |s| ==> IsDigit(s[i])
  {
    var digits := Digits(x.coefficient);
    var point := x.exponent + |digits|;
    if point <= 0 then "0" else if point > |digits| then digits + Zeros(point - |digits|) else digits[..point]
  }

  function FractionPart(x: Decimal): (s: string)
    ensures forall i :: 0 <= i < |s| ==> IsDigit(s[i])
    ensures |s| == if x.exponent < 0 then -x.exponent else 0
  {
    var digits := Digits(x.coefficient);
    var point := x.exponent + |digits|;
    if point < 0 then Zeros(-point) + digits else if point > |digits| then "" else digits[point..]
  }

  function Unsigned(x: Decimal): string {
    IntegerPart(x) + (if FractionPart(x) == "" then "" else "." + FractionPart(x))
  }

  function Positional(x: Decimal): string {
    if x.negative then ['-'] + Unsigned(x) else Unsigned(x)
  }

  function FormatDecimal(value: Option<Decimal>, precision: nat): string
    requires precision > 0
  {
    match value
    case None => ""
    case Some(x) => Positional(QuantizeDecimal(x, precision))
  }

  // ----- parsing -----

  predicate IsSpace(c: char) {
    c == ' ' || c == '\t' || c == '\n' || c == '\r'
  }

  function TrimStart(s: string): string {
    if s != [] && IsSpace(s[0]) then TrimStart(s[1..]) else s
  }

  function TrimEnd(s: string): string {
    if s != [] && IsSpace(s[|s| - 1]) then TrimEnd(s[..|s| - 1]) else s
  }

  function Trim(s: string): string {
    TrimEnd(TrimStart(s))
  }

  predicate AllDigits(s: string) {
    forall i :: 0 <= i < |s| ==> IsDigit(s[i])
  }

  /** Where the first `c` stands, or the length of the text. */
  function Find(s: string, c: char): (i: nat)
    ensures i <= |s| && (i < |s| ==> s[i] == c) && forall k :: 0 <= k < i ==> s[k] != c
  {
    if s == [] || s[0] == c then 0 else Find(s[1..], c) + 1
  }

  /** Blank text, a number in positional notation, or anything else. */
  datatype Reading = Blank | Value(value: Decimal) | NotPositional

  function ReadUnsigned(negative: bool, s: string): Reading {
    var point := Find(s, '.');
    var whole, fraction := s[..point], if point < |s| then s[point + 1..] else "";
    if whole + fraction == "" || !AllDigits(whole + fraction) then NotPositional
    else Value(Decimal(negative, Number(whole + fraction), -|fraction|))
  }

  function ReadNumber(s: string): Reading {
    if s != [] && s[0] == '-' then ReadUnsigned(true, s[1..])
    else if s != [] && s[0] == '+' then ReadUnsigned(false, s[1..])
    else ReadUnsigned(false, s)
  }

  function ParseDecimal(text: string, precision: nat): Reading
    requires precision > 0
  {
    var trimmed := Trim(text);
    if trimmed == "" then Blank
    else match ReadNumber(trimmed)
      case Value(x) => Value(QuantizeDecimal(x, precision))
      case other => other
  }

  function WithoutSign(s: string): string {
    if s != "" && (s[0] == '+' || s[0] == '-') then s[1..] else s
  }

  function DigitsAfterPoint(s: string): nat {
    var point := Find(s, '.');
    if point == |s| then 0 else |s| - point - 1
  }

  /** The digits written after the point, for text in positional notation. */
  function DecimalFractionDigits(text: string, precision: nat): Option<nat>
    requires precision > 0
  {
    var normalized := Trim(text);
    if !ParseDecimal(normalized, precision).Value? then None
    else Some(DigitsAfterPoint(WithoutSign(normalized)))
  }

  // ----- what the printed text says -----

  lemma DigitsAreNotSpecial(s: string)
    requires AllDigits(s)
    ensures forall i :: 0 <= i < |s| ==> !IsSpace(s[i]) && s[i] != '.' && s[i] != '-' && s[i] != '+'
  {
  }

  lemma FindAfterDigits(whole: string, rest: string)
    requires AllDigits(whole) && (rest != "" ==> rest[0] == '.')
    ensures Find(whole + rest, '.') == |whole|
  {
    var s := whole + rest;
    DigitsAreNotSpecial(whole);
    forall k | 0 <= k < |whole| ensures s[k] != '.' {}
    assert |whole| < |s| ==> s[|whole|] == '.';
  }

  /** The digits of both parts together are the coefficient, shifted if the exponent is positive. */
  lemma PartsValue(x: Decimal)
    ensures AllDigits(IntegerPart(x) + FractionPart(x))
    ensures Number(IntegerPart(x) + FractionPart(x)) == x.coefficient * if x.exponent > 0 then Pow10(x.exponent) else 1
  {
    var digits := Digits(x.coefficient);
    var point := x.exponent + |digits|;
    NumberOfDigits(x.coefficient);
    if point <= 0 {
      assert Zeros(1) == "0";
      if point < 0 {
        assert "0" + (Zeros(-point) + digits) == Zeros(1 - point) + digits;
        LeadingZeros(1 - point, digits);
      } else {
        assert "0" + digits[0..] == Zeros(1) + digits;
        LeadingZeros(1, digits);
      }
    } else if point > |digits| {
      assert IntegerPart(x) + FractionPart(x) == digits + Zeros(x.exponent);
      TrailingZeros(digits, x.exponent);
    } else {
      assert digits[..point] + digits[point..] == digits;
    }
  }

  lemma UnsignedRead(x: Decimal)
    ensures ReadUnsigned(x.negative, Unsigned(x)) ==
            Value(Decimal(x.negative, x.coefficient * (if x.exponent > 0 then Pow10(x.exponent) else 1),
                          if x.exponent < 0 then x.exponent else 0))
  {
    var whole, fraction := IntegerPart(x), FractionPart(x);
    var rest := if fraction == "" then "" else "." + fraction;
    FindAfterDigits(whole, rest);
    assert Unsigned(x)[..|whole|] == whole;
    assert fraction != "" ==> Unsigned(x)[|whole| + 1..] == fraction;
    PartsValue(x);
  }

  lemma TrimNothing(s: string)
    requires s != "" && !IsSpace(s[0]) && !IsSpace(s[|s| - 1])
    ensures Trim(s) == s
  {
  }

  lemma UnsignedEnds(x: Decimal)
    ensures var u := Unsigned(x); u != "" && IsDigit(u[0]) && IsDigit(u[|u| - 1])
  {
    var u := Unsigned(x);
    assert u[0] == IntegerPart(x)[0];
    var last := if FractionPart(x) == "" then IntegerPart(x) else FractionPart(x);
    assert u[|u| - 1] == last[|last| - 1];
  }

  lemma PositionalRead(x: Decimal)
    ensures Positional(x) != "" && Trim(Positional(x)) == Positional(x)
    ensures ReadNumber(Positional(x)) == ReadUnsigned(x.negative, Unsigned(x))
    ensures if x.negative then Positional(x)[0] == '-' && Positional(x)[1..] == Unsigned(x)
            else IsDigit(Positional(x)[0]) && Positional(x) == Unsigned(x)
  {
    UnsignedEnds(x);
    TrimNothing(Positional(x));
  }

  lemma {:induction false} TrimmedStart(s: string)
    ensures TrimStart(s) == "" <==> forall i :: 0 <= i < |s| ==> IsSpace(s[i])
    ensures TrimStart(s) != "" ==> !IsSpace(TrimStart(s)[0])
  {
    if s != [] && IsSpace(s[0]) {
      TrimmedStart(s[1..]);
    }
  }

  lemma {:induction false} TrimmedEnd(s: string)
    requires s != "" && !IsSpace(s[0])
    ensures TrimEnd(s) != "" && TrimEnd(s) <= s
  {
    if IsSpace(s[|s| - 1]) { TrimmedEnd(s[..|s| - 1]); }
  }

  /** Only white space reads as no number at all. */
  lemma BlankExactly(text: string, precision: nat)
    requires precision > 0
    ensures ParseDecimal(text, precision) == Blank <==> forall i :: 0 <= i < |text| ==> IsSpace(text[i])
  {
    TrimmedStart(text);
    if TrimStart(text) != "" {
      TrimmedEnd(TrimStart(text));
    }
  }

  /** An unsigned text in positional notation: digits, and after a point more digits. */
  predicate IsPositional(whole: string, fraction: string) {
    AllDigits(whole) && AllDigits(fraction) && whole + fraction != ""
  }

  lemma PositionalValue(negative: bool, whole: string, fraction: string)
    requires IsPositional(whole, fraction)
    ensures AllDigits(whole + fraction)
    ensures ReadUnsigned(negative, whole + "." + fraction) == Value(Decimal(negative, Number(whole + fraction), -|fraction|))
    ensures fraction == "" ==> ReadUnsigned(negative, whole) == Value(Decimal(negative, Number(whole), 0))
  {
    var text := whole + ("." + fraction);
    assert text == whole + "." + fraction;
    FindAfterDigits(whole, "." + fraction);
    assert text[..|whole|] == whole && text[|whole| + 1..] == fraction;
    FindAfterDigits(whole, "");
    assert whole + "" == whole && whole[..|whole|] == whole;
  }

  lemma UnsignedStart(whole: string, fraction: string)
    requires IsPositional(whole, fraction)
    ensures var text := whole + "." + fraction;
            text[0] != '+' && text[0] != '-' && Trim(text) == text && Trim("+" + text) == "+" + text && Trim("-" + text) == "-" + text
  {
    var text := whole + "." + fraction;
    assert text[0] == if whole != "" then whole[0] else '.';
    assert text[|text| - 1] == if fraction != "" then fraction[|fraction| - 1] else '.';
    TrimNothing(text);
    TrimNothing("+" + text);
    TrimNothing("-" + text);
  }

  lemma UnsignedReads(text: string, precision: nat)
    requires precision > 0 && text != "" && text[0] != '+' && text[0] != '-' && Trim(text) == text
    requires ReadUnsigned(false, text).Value?
    ensures ParseDecimal(text, precision) == Value(QuantizeDecimal(ReadUnsigned(false, text).value, precision))
  {}

  lemma SignedReads(sign: char, text: string, precision: nat)
    requires precision > 0 && sign in "+-" && Trim([sign] + text) == [sign] + text && ReadUnsigned(sign == '-', text).Value?
    ensures ParseDecimal([sign] + text, precision) == Value(QuantizeDecimal(ReadUnsigned(sign == '-', text).value, precision))
  {
    assert ([sign] + text)[1..] == text;
  }

  /** A text in positional notation reads as the number its digits denote, in normal form; a
      plus sign changes nothing and a minus sign negates. */
  lemma SignedValue(whole: string, fraction: string, precision: nat)
    requires precision > 0 && IsPositional(whole, fraction)
    ensures AllDigits(whole + fraction)
    ensures var text, n := whole + "." + fraction, Number(whole + fraction);
            && ParseDecimal(text, precision) == Value(QuantizeDecimal(Decimal(false, n, -|fraction|), precision))
            && ParseDecimal("+" + text, precision) == ParseDecimal(text, precision)
            && ParseDecimal("-" + text, precision) == Value(QuantizeDecimal(Decimal(true, n, -|fraction|), precision))
  {
    var text := whole + "." + fraction;
    PositionalValue(false, whole, fraction);
    PositionalValue(true, whole, fraction);
    UnsignedStart(whole, fraction);
    UnsignedReads(text, precision);
    SignedReads('+', text, precision);
    SignedReads('-', text, precision);
  }

  lemma {:induction false} DigitsShape(n: nat)
    ensures n > 0 ==> Digits(n)[0] != '0'
    ensures Digits(n)[|Digits(n)| - 1] == ('0' as int + n % 10) as char
  {
    if n >= 10 { DigitsShape(n / 10); }
  }

  lemma IntegerPartShape(x: Decimal)
    ensures IntegerPart(x)[0] == '0' ==> IntegerPart(x) == "0" || x.coefficient == 0
  {
    DigitsShape(x.coefficient);
  }

  lemma FractionPartShape(x: Decimal)
    requires x.coefficient % 10 != 0 && FractionPart(x) != ""
    ensures FractionPart(x)[|FractionPart(x)| - 1] != '0'
  {
    DigitsShape(x.coefficient);
  }

  /** Printed text has no needless zeros, at the front or after the point, no plus sign and no
      negative zero. */
  lemma PrintedShape(x: Decimal, precision: nat)
    requires precision > 0
    ensures var q := QuantizeDecimal(x, precision);
            var text, whole, fraction := FormatDecimal(Some(x), precision), IntegerPart(q), FractionPart(q);
            && text == (if q.negative then "-" else "") + whole + (if fraction == "" then "" else "." + fraction)
            && AllDigits(whole) && AllDigits(fraction)
            && (whole[0] == '0' ==> whole == "0")
            && (fraction != "" ==> fraction[|fraction| - 1] != '0')
            && (q.negative && fraction == "" ==> whole != "0")
  {
    var q := QuantizeDecimal(x, precision);
    QuantizeIsNormal(x, precision);
    IntegerPartShape(q);
    if q.coefficient == 0 {
      assert Digits(0) == "0";
      assert IntegerPart(q) == "0" && FractionPart(q) == "";
    } else if FractionPart(q) != "" {
      FractionPartShape(q);
    } else {
      WholeIsNotZero(q);
    }
  }

  lemma WholeIsNotZero(x: Decimal)
    requires x.coefficient > 0 && FractionPart(x) == ""
    ensures IntegerPart(x)[0] != '0'
  {
    DigitsShape(x.coefficient);
  }

  /** Printing and parsing back gives the normal form, for every number and precision. */
  lemma RoundTrip(x: Decimal, precision: nat)
    requires precision > 0
    ensures ParseDecimal(FormatDecimal(Some(x), precision), precision) == Value(QuantizeDecimal(x, precision))
  {
    var q := QuantizeDecimal(x, precision);
    QuantizeIsNormal(x, precision);
    PositionalRead(q);
    UnsignedRead(q);
    QuantizeNormal(q, precision);
    if q.exponent > 0 {
      QuantizeScale(q.negative, q.coefficient, 0, q.exponent, precision);
    }
  }

  /** A number survives the round trip in value exactly when it is representable. */
  lemma RoundTripKeepsValue(x: Decimal, precision: nat)
    requires precision > 0
    ensures var reading := ParseDecimal(FormatDecimal(Some(x), precision), precision);
            reading.Value? && (SameValue(reading.value, x) <==> Representable(x, precision))
  {
    RoundTrip(x, precision);
    QuantizeKeepsValueExactly(x, precision);
  }

  /** The text identifies the normal form; equal numbers always print alike, and
      representable numbers print alike only when they are equal. */
  lemma Canonical(x: Decimal, y: Decimal, precision: nat)
    requires precision > 0
    ensures FormatDecimal(Some(x), precision) == FormatDecimal(Some(y), precision)
            <==> QuantizeDecimal(x, precision) == QuantizeDecimal(y, precision)
    ensures SameValue(x, y) ==> FormatDecimal(Some(x), precision) == FormatDecimal(Some(y), precision)
    ensures Representable(x, precision) && Representable(y, precision) ==>
              (FormatDecimal(Some(x), precision) == FormatDecimal(Some(y), precision) <==> SameValue(x, y))
  {
    RoundTrip(x, precision);
    RoundTrip(y, precision);
    if SameValue(x, y) {
      SameValueSameForm(x, y, precision);
    }
    if Representable(x, precision) && Representable(y, precision) && QuantizeDecimal(x, precision) == QuantizeDecimal(y, precision) {
      QuantizeKeepsValueExactly(x, precision);
      QuantizeKeepsValueExactly(y, precision);
      SameValueTransitive(x, QuantizeDecimal(x, precision), y);
    }
  }

  lemma RoundedDown(n: nat, r: nat, precision: nat)
    requires precision > 0 && n == Pow10(precision) + r && r < 5
    ensures Rounded(Decimal(false, n, 0), precision) == Decimal(false, Pow10(precision - 1), 1)
  {
    DigitsBound(n);
    assert Pow10(precision) == 10 * Pow10(precision - 1) && Pow10(1) == 10;
    assert n < Pow10(precision + 1);
    assert |Digits(n)| == precision + 1 by {
      if |Digits(n)| > precision + 1 {
        PowMonotone(precision + 1, |Digits(n)| - 1);
      } else if |Digits(n)| < precision + 1 {
        PowMonotone(|Digits(n)|, precision);
      }
    }
    DivUnique(n, 10, Pow10(precision - 1), r);
  }

  lemma IntegersDiffer(m: nat, n: nat)
    requires m != n
    ensures !SameValue(Decimal(false, m, 0), Decimal(false, n, 0))
  {
    assert Scaled(Decimal(false, m, 0), 0) == m && Scaled(Decimal(false, n, 0), 0) == n;
  }

  lemma SameRoundedPrintAlike(x: Decimal, y: Decimal, precision: nat)
    requires precision > 0 && x.coefficient > 0 && y.coefficient > 0 && Rounded(x, precision) == Rounded(y, precision)
    ensures FormatDecimal(Some(x), precision) == FormatDecimal(Some(y), precision)
  {
  }

  /** At every precision two different numbers one digit too long print alike. */
  lemma LongNumbersCollide(precision: nat)
    requires precision > 0
    ensures var x, y := Decimal(false, Pow10(precision) + 1, 0), Decimal(false, Pow10(precision) + 2, 0);
            !SameValue(x, y) && FormatDecimal(Some(x), precision) == FormatDecimal(Some(y), precision)
  {
    var m, n := Pow10(precision) + 1, Pow10(precision) + 2;
    RoundedDown(m, 1, precision);
    RoundedDown(n, 2, precision);
    IntegersDiffer(m, n);
    SameRoundedPrintAlike(Decimal(false, m, 0), Decimal(false, n, 0), precision);
  }

  /** Whatever is not representable prints like a representable number of another value. */
  lemma LongNumberCollides(x: Decimal, precision: nat)
    requires precision > 0 && !Representable(x, precision)
    ensures var y := QuantizeDecimal(x, precision);
            Representable(y, precision) && !SameValue(y, x) && FormatDecimal(Some(y), precision) == FormatDecimal(Some(x), precision)
  {
    var y := QuantizeDecimal(x, precision);
    QuantizeIsNormal(x, precision);
    QuantizeNormal(y, precision);
    QuantizeKeepsValueExactly(x, precision);
    QuantizeKeepsValueExactly(y, precision);
  }

  /** Whether ten to the `digits` times the number is an integer. */
  predicate Integral(x: Decimal, digits: nat) {
    x.exponent + digits >= 0 || x.coefficient % Pow10(-(x.exponent + digits)) == 0
  }

  lemma DivisibleScaled(n: nat, f: nat, m: nat)
    requires f > 0 && m > 0
    ensures (n * f) % (m * f) == 0 <==> n % m == 0
  {
    var q, r := n / m, n % m;
    Associate(q, m, f);
    assert n * f == (q * m) * f + r * f;
    assert r * f < m * f by { MulMonotone(r + 1, m, f); }
    DivUnique(n * f, m * f, q, r * f);
  }

  /** Whether the number is integral at `digits` can be read off at any common scale. */
  lemma IntegralAtScale(x: Decimal, digits: nat, low: int)
    requires low <= x.exponent && low + digits <= 0
    ensures Integral(x, digits) <==> (x.coefficient * Pow10(x.exponent - low)) % Pow10(-(low + digits)) == 0
  {
    var up, m := x.exponent - low, -(low + digits);
    if x.exponent + digits >= 0 {
      PowSum(up - m, m);
      Associate(x.coefficient, Pow10(up - m), Pow10(m));
      DivUnique(x.coefficient * Pow10(up), Pow10(m), x.coefficient * Pow10(up - m), 0);
    } else {
      PowSum(m - up, up);
      DivisibleScaled(x.coefficient, Pow10(up), Pow10(m - up));
    }
  }

  /** Being integral is a property of the value. */
  lemma IntegralByValue(x: Decimal, y: Decimal, digits: nat)
    requires SameValue(x, y)
    ensures Integral(x, digits) <==> Integral(y, digits)
  {
    var least := if x.exponent <= y.exponent then x.exponent else y.exponent;
    var low := if least + digits <= 0 then least else 0 - digits;
    CommonScale(x, y, low);
    ScaledSign(x, low);
    ScaledSign(y, low);
    IntegralAtScale(x, digits, low);
    IntegralAtScale(y, digits, low);
  }

  /** `digits` is the least number of fraction digits that represents the number. */
  ghost predicate LeastFractionDigits(x: Decimal, digits: nat) {
    Integral(x, digits) && forall fewer: nat :: fewer < digits ==> !Integral(x, fewer)
  }

  /** The fraction digits counted in canonical text are the fewest that represent what is
      printed, and so those of the number itself when it is representable. */
  lemma FractionDigitsAreLeast(x: Decimal, precision: nat)
    requires precision > 0
    ensures var digits := DecimalFractionDigits(FormatDecimal(Some(x), precision), precision);
            && digits.Some?
            && LeastFractionDigits(QuantizeDecimal(x, precision), digits.value)
            && (Representable(x, precision) ==> LeastFractionDigits(x, digits.value))
  {
    var q := QuantizeDecimal(x, precision);
    QuantizeIsNormal(x, precision);
    PrintedFractionDigits(x, precision);
    var digits := |FractionPart(q)|;
    forall fewer: nat | fewer < digits ensures !Integral(q, fewer) {
      FewerNotEnough(q, fewer);
    }
    QuantizeKeepsValueExactly(x, precision);
    if SameValue(q, x) {
      forall d: nat ensures Integral(q, d) <==> Integral(x, d) {
        IntegralByValue(q, x, d);
      }
    }
  }

  lemma FewerNotEnough(q: Decimal, fewer: nat)
    requires q.coefficient % 10 != 0 && fewer < -q.exponent
    ensures !Integral(q, fewer)
  {
    NotDivisible(q.coefficient, -(q.exponent + fewer));
  }

  lemma PrintedFractionDigits(x: Decimal, precision: nat)
    requires precision > 0
    ensures DecimalFractionDigits(FormatDecimal(Some(x), precision), precision)
            == Some(|FractionPart(QuantizeDecimal(x, precision))|)
  {
    var q := QuantizeDecimal(x, precision);
    RoundTrip(x, precision);
    PositionalRead(q);
    UnsignedFraction(q);
  }

  lemma UnsignedFraction(q: Decimal)
    ensures DigitsAfterPoint(Unsigned(q)) == |FractionPart(q)| && WithoutSign(Positional(q)) == Unsigned(q)
  {
    PositionalRead(q);
    var fraction := FractionPart(q);
    FindAfterDigits(IntegerPart(q), if fraction == "" then "" else "." + fraction);
  }

  lemma NotDivisible(n: nat, k: nat)
    requires n % 10 != 0 && k > 0
    ensures n % Pow10(k) != 0
  {
    var f, r := n / Pow10(k), n % Pow10(k);
    MultipleOfTen(f, Pow10(k - 1));
    assert n == f * (10 * Pow10(k - 1)) + r;
  }

  lemma MultipleOfTen(f: nat, p: nat)
    ensures (f * (10 * p)) % 10 == 0
  {
    assert f * (10 * p) == 10 * (f * p);
    DivUnique(f * (10 * p), 10, f * p, 0);
  }
}
