/** Number literals of the fraud rule language, as exact decimals. */
module FraudNumbers {
  import opened Digits
  import opened FraudTokens

  /** digits / 10^scale with a sign, in lowest terms: the last digit of a fraction is not zero. */
  datatype Decimal = Decimal(mantissa: int, scale: nat)

  predicate Normal(d: Decimal) {
    d.scale > 0 ==> d.mantissa % 10 != 0
  }

  /** Drops trailing zeros of the fraction. */
  function Reduce(n: nat, scale: nat): (r: (nat, nat))
    ensures r.1 > 0 ==> r.0 % 10 != 0
  {
    if scale > 0 && n % 10 == 0 then Reduce(n / 10, scale - 1) else (n, scale)
  }

  /** Digits, and possibly a point and a fraction. */
  function Unsigned(body: string): (r: (nat, nat))
    ensures r.1 > 0 ==> r.0 % 10 != 0
  {
    var whole := Span(IsDigit, body);
    var fraction := if whole < |body| then body[whole + 1..] else "";
    Reduce(DigitsToNat(body[..whole] + fraction), |fraction|)
  }

  /** The value of a number lexeme. */
  function NumberOf(text: string): (d: Decimal)
    ensures Normal(d)
  {
    if text != "" && text[0] == '-' then
      var (n, scale) := Unsigned(text[1..]);
      var size: int := n;
      Decimal(-size, scale)
    else
      var (n, scale) := Unsigned(text);
      Decimal(n, scale)
  }

  function Abs(n: int): nat { if n < 0 then -n else n }

  /** At least one digit before the point. */
  function PaddedDigits(d: Decimal): (s: string)
    ensures |s| > d.scale && forall i :: 0 <= i < |s| ==> IsDigit(s[i])
  {
    var digits := NatToDigits(Abs(d.mantissa));
    if |digits| > d.scale then digits else Zeros(d.scale + 1 - |digits|) + digits
  }

  function UnsignedText(digits: string, scale: nat): string
    requires scale < |digits|
  {
    if scale == 0 then digits else digits[..|digits| - scale] + ("." + digits[|digits| - scale..])
  }

  /** Sign, digits, and the fraction if there is one. */
  function PlainText(d: Decimal): string {
    (if d.mantissa < 0 then "-" else "") + UnsignedText(PaddedDigits(d), d.scale)
  }

  // ---------- Number to text ----------

  /** Where the point stands, counted from the first digit. */
  function PointAt(d: Decimal): int {
    |NatToDigits(Abs(d.mantissa))| - d.scale
  }

  /** The numbers that are shown without an exponent: zero, and sizes from 1e-6 to below 1e21. */
  predicate Plain(d: Decimal) {
    -6 < PointAt(d) <= 21
  }

  function WithoutZeros(n: nat): (m: nat)
    ensures m > 0 ==> m % 10 != 0
  {
    if n > 0 && n % 10 == 0 then WithoutZeros(n / 10) else n
  }

  /** The significant digits with the point behind the first. */
  function Leading(d: Decimal): Decimal {
    var digits := WithoutZeros(Abs(d.mantissa));
    var size: int := digits;
    Decimal(if d.mantissa < 0 then -size else size, |NatToDigits(digits)| - 1)
  }

  /** How the language shows a number: plainly, or as leading digits with a power of ten. */
  function NumberText(d: Decimal): string {
    if Plain(d) then PlainText(d)
    else
      var power := PointAt(d) - 1;
      PlainText(Leading(d)) + ((if power < 0 then "e-" else "e+") + NatToDigits(Abs(power)))
  }

  lemma PaddedDigitsValue(d: Decimal)
    ensures DigitsToNat(PaddedDigits(d)) == Abs(d.mantissa)
  {
    var digits := NatToDigits(Abs(d.mantissa));
    if |digits| <= d.scale { LeadingZerosCountNothing(d.scale + 1 - |digits|, digits); }
  }

  lemma UnsignedRoundTrip(digits: string, scale: nat)
    requires scale < |digits| && forall i :: 0 <= i < |digits| ==> IsDigit(digits[i])
    ensures Unsigned(UnsignedText(digits, scale)) == Reduce(DigitsToNat(digits), scale)
  {
    var body := UnsignedText(digits, scale);
    var whole := |digits| - scale;
    assert forall i :: 0 <= i < whole ==> body[i] == digits[i];
    assert scale > 0 ==> body[whole] == '.';
    assert Span(IsDigit, body) == whole;
    if scale == 0 {
      assert digits[..whole] + "" == digits;
    } else {
      assert body[..whole] == digits[..whole];
      assert body[whole + 1..] == digits[whole..];
      assert digits[..whole] + digits[whole..] == digits;
    }
  }

  /** Reading a plainly printed number gives the number back. */
  lemma NumberRoundTrip(d: Decimal)
    requires Normal(d)
    ensures NumberOf(PlainText(d)) == d
  {
    hide UnsignedText, Unsigned, DigitsToNat, NatToDigits;
    var digits := PaddedDigits(d);
    PaddedDigitsValue(d);
    UnsignedRoundTrip(digits, d.scale);
    assert Reduce(Abs(d.mantissa), d.scale) == (Abs(d.mantissa), d.scale);
    var body := UnsignedText(digits, d.scale);
    UnsignedStartsWithDigit(digits, d.scale);
    if d.mantissa < 0 {
      assert PlainText(d) == "-" + body && PlainText(d)[1..] == body;
    } else {
      assert PlainText(d) == body;
    }
  }

  lemma UnsignedStartsWithDigit(digits: string, scale: nat)
    requires scale < |digits| && forall i :: 0 <= i < |digits| ==> IsDigit(digits[i])
    ensures UnsignedText(digits, scale) != "" && IsDigit(UnsignedText(digits, scale)[0])
  {}
}
