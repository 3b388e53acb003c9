/** What number literals are worth: decimals as real numbers. */
module FraudValues {
  import opened Digits
  import opened FraudTokens
  import opened FraudNumbers

  function Pow10(n: nat): (p: nat)
    ensures p > 0
  {
    if n == 0 then 1 else 10 * Pow10(n - 1)
  }

  predicate Less(a: Decimal, b: Decimal) {
    a.mantissa * Pow10(b.scale) < b.mantissa * Pow10(a.scale)
  }

  /** The real number a decimal stands for. */
  function RealValue(d: Decimal): real
    decreases d.scale
  {
    if d.scale == 0 then d.mantissa as real else RealValue(Decimal(d.mantissa, d.scale - 1)) / 10.0
  }

  lemma {:induction false} ScaledUp(d: Decimal)
    ensures RealValue(d) * Pow10(d.scale) as real == d.mantissa as real
    decreases d.scale
  {
    if d.scale > 0 {
      ScaledUp(Decimal(d.mantissa, d.scale - 1));
      var r, p := RealValue(Decimal(d.mantissa, d.scale - 1)), Pow10(d.scale - 1);
      assert Pow10(d.scale) as real == 10.0 * p as real;
      assert (r / 10.0) * (10.0 * p as real) == r * p as real;
    }
  }

  lemma ScaledCompare(x: real, y: real, p: real)
    requires p > 0.0
    ensures x * p < y * p <==> x < y
  {}

  lemma LessIsBySize(a: Decimal, b: Decimal)
    ensures Less(a, b) <==> RealValue(a) < RealValue(b)
  {
    var x, y := RealValue(a), RealValue(b);
    var p, q := Pow10(a.scale) as real, Pow10(b.scale) as real;
    ScaledUp(a);
    ScaledUp(b);
    hide RealValue, Pow10;
    CrossScaled(a.mantissa as real, b.mantissa as real, x, y, p, q);
    Casts(a.mantissa, Pow10(b.scale));
    Casts(b.mantissa, Pow10(a.scale));
  }

  lemma Casts(m: int, n: int)
    ensures (m * n) as real == m as real * n as real
  {}

  lemma CrossScaled(m: real, n: real, x: real, y: real, p: real, q: real)
    requires m == x * p && n == y * q && p > 0.0 && q > 0.0
    ensures m * q < n * p <==> x < y
  {
    assert m * q == x * (p * q) && n * p == y * (p * q);
    assert p * q > 0.0;
    ScaledCompare(x, y, p * q);
  }

  // ---------- What a literal is worth ----------

  predicate AllDigits(s: string) {
    s != "" && forall i :: 0 <= i < |s| ==> IsDigit(s[i])
  }

  /** A number literal stands for its digits, divided by ten once for each digit behind the point. */
  lemma LiteralValue(whole: string, fraction: string)
    requires AllDigits(whole) && AllDigits(fraction)
    ensures RealValue(NumberOf(whole + "." + fraction)) == RealValue(Decimal(DigitsToNat(whole + fraction), |fraction|))
    ensures RealValue(NumberOf("-" + whole + "." + fraction)) == -RealValue(Decimal(DigitsToNat(whole + fraction), |fraction|))
    ensures RealValue(NumberOf(whole)) == DigitsToNat(whole) as real == -RealValue(NumberOf("-" + whole))
  {
    hide RealValue, DigitsToNat, Unsigned, Span;
    UnsignedValue(whole, fraction);
    var body := whole + "." + fraction;
    assert "-" + whole + "." + fraction == "-" + body;
    SignedValue(body);
    SignedValue(whole);
    WholeSize(DigitsToNat(whole));
  }

  lemma SignedValue(body: string)
    requires body != "" && IsDigit(body[0])
    ensures RealValue(NumberOf(body)) == RealValue(Decimal(Unsigned(body).0, Unsigned(body).1))
    ensures RealValue(NumberOf("-" + body)) == -RealValue(NumberOf(body))
  {
    hide RealValue, Unsigned;
    assert ("-" + body)[1..] == body;
    NegatedSize(Unsigned(body).0, Unsigned(body).1);
  }

  lemma UnsignedValue(whole: string, fraction: string)
    requires AllDigits(whole) && AllDigits(fraction)
    ensures var (n, scale) := Unsigned(whole + "." + fraction);
      RealValue(Decimal(n, scale)) == RealValue(Decimal(DigitsToNat(whole + fraction), |fraction|))
    ensures Unsigned(whole) == (DigitsToNat(whole), 0)
  {
    hide RealValue, DigitsToNat, Unsigned, Reduce;
    UnsignedRoundTrip(whole + fraction, |fraction|);
    assert UnsignedText(whole + fraction, |fraction|) == whole + "." + fraction;
    ReduceKeepsSize(DigitsToNat(whole + fraction), |fraction|);
    UnsignedRoundTrip(whole, 0);
    assert Reduce(DigitsToNat(whole), 0) == (DigitsToNat(whole), 0) by { WholeIsReduced(DigitsToNat(whole)); }
  }

  lemma WholeIsReduced(n: nat)
    ensures Reduce(n, 0) == (n, 0)
  {}

  lemma WholeSize(n: int)
    ensures RealValue(Decimal(n, 0)) == n as real && RealValue(Decimal(-n, 0)) == -(n as real)
  {}

  lemma {:induction false} NegatedSize(n: int, scale: nat)
    ensures RealValue(Decimal(-n, scale)) == -RealValue(Decimal(n, scale))
  {
    if scale > 0 { NegatedSize(n, scale - 1); }
  }

  /** Dropping zeros behind the point does not change the size. */
  lemma {:induction false} ReduceKeepsSize(n: nat, scale: nat)
    ensures RealValue(Decimal(Reduce(n, scale).0, Reduce(n, scale).1)) == RealValue(Decimal(n, scale))
    decreases scale
  {
    if scale > 0 && n % 10 == 0 {
      ReduceKeepsSize(n / 10, scale - 1);
      TenthSize(n / 10, scale - 1);
    }
  }

  lemma {:induction false} TenthSize(n: int, scale: nat)
    ensures RealValue(Decimal(10 * n, scale + 1)) == RealValue(Decimal(n, scale))
  {
    if scale > 0 { TenthSize(n, scale - 1); }
  }

  // ---------- Which numbers are shown plainly ----------

  lemma {:induction false} DigitsBoundTheNumber(n: nat)
    ensures n < Pow10(|NatToDigits(n)|) && (n > 0 ==> n >= Pow10(|NatToDigits(n)| - 1))
  {
    if n >= 10 {
      DigitsBoundTheNumber(n / 10);
      assert NatToDigits(n) == NatToDigits(n / 10) + [CharOf(n % 10)];
    } else {
      assert Pow10(1) == 10 * Pow10(0);
    }
  }

  lemma {:induction false} Pow10IsMonotone(m: nat, n: nat)
    requires m <= n
    ensures Pow10(m) <= Pow10(n)
  {
    if m < n { Pow10IsMonotone(m, n - 1); }
  }

  lemma {:induction false} Pow10Adds(m: nat, n: nat)
    ensures Pow10(m + n) == Pow10(m) * Pow10(n)
  {
    if n > 0 {
      Pow10Adds(m, n - 1);
      assert Pow10(m) * (10 * Pow10(n - 1)) == 10 * (Pow10(m) * Pow10(n - 1));
    }
  }

  /** Whether a size with d digits before scaling reaches 10^p once scaled down by 10^scale. */
  lemma ReachesPower(n: nat, scale: nat, p: nat)
    requires n > 0
    ensures |NatToDigits(n)| - scale > p <==> n >= Pow10(p + scale)
  {
    DigitsBoundTheNumber(n);
    hide Pow10;
    var d := |NatToDigits(n)|;
    if d > p + scale { Pow10IsMonotone(p + scale, d - 1); } else { Pow10IsMonotone(d, p + scale); }
  }

  lemma ReachesFraction(n: nat, scale: nat, p: nat)
    requires n > 0
    ensures |NatToDigits(n)| + p > scale <==> n * Pow10(p) >= Pow10(scale)
  {
    DigitsBoundTheNumber(n);
    hide Pow10, NatToDigits;
    var d := |NatToDigits(n)|;
    var low, high, q := Pow10(d - 1), Pow10(d), Pow10(p);
    Pow10Adds(d - 1, p);
    Pow10Adds(d, p);
    Scaled(low, n, high, q);
    if d + p > scale { Pow10IsMonotone(scale, d - 1 + p); } else { Pow10IsMonotone(d + p, scale); }
  }

  lemma Scaled(low: nat, n: nat, high: nat, q: nat)
    requires low <= n < high && q > 0
    ensures low * q <= n * q < high * q
  {}

  /** A number is shown without an exponent exactly when it is zero or its size lies between a
      millionth and 10^21. */
  lemma PlainIsBySize(d: Decimal)
    requires Normal(d)
    ensures Plain(d) <==>
      RealValue(d) == 0.0
      || 0.000001 <= RealValue(d) < 1_000_000_000_000_000_000_000.0
      || 0.000001 <= -RealValue(d) < 1_000_000_000_000_000_000_000.0
  {
    hide *;
    ScaledUp(d);
    if d.mantissa == 0 {
      ZeroIsPlain(d);
    } else {
      NegatedProduct(RealValue(d), Pow10(d.scale) as real);
      PlainBySize(d, if d.mantissa < 0 then -RealValue(d) else RealValue(d));
    }
  }

  lemma ZeroIsPlain(d: Decimal)
    requires Normal(d) && d.mantissa == 0
    ensures Plain(d) && RealValue(d) == 0.0
  {
    assert NatToDigits(0) == "0";
  }

  lemma PlainBySize(d: Decimal, size: real)
    requires d.mantissa != 0 && size * Pow10(d.scale) as real == (if d.mantissa < 0 then -d.mantissa else d.mantissa) as real
    ensures size > 0.0 && (Plain(d) <==> 0.000001 <= size < 1_000_000_000_000_000_000_000.0)
  {
    hide Plain, Pow10;
    PlainReaches(d);
    SmallPowers();
    Pow10Adds(21, d.scale);
    SizeBounds(size, Abs(d.mantissa), Pow10(d.scale), 1_000_000, 1_000_000_000_000_000_000_000);
  }

  lemma NegatedProduct(x: real, y: real)
    ensures -x * y == -(x * y)
  {}

  lemma PlainReaches(d: Decimal)
    requires d.mantissa != 0
    ensures Plain(d) <==>
      Abs(d.mantissa) * Pow10(6) >= Pow10(d.scale) && Abs(d.mantissa) < Pow10(21 + d.scale)
  {
    hide Pow10, NatToDigits;
    ReachesPower(Abs(d.mantissa), d.scale, 21);
    ReachesFraction(Abs(d.mantissa), d.scale, 6);
  }

  lemma SmallPowers()
    ensures Pow10(6) == 1_000_000 && Pow10(21) == 1_000_000_000_000_000_000_000
  {
    assert Pow10(3) == 1000;
    Pow10Adds(3, 3);
    Pow10Adds(6, 6);
    Pow10Adds(6, 12);
    Pow10Adds(3, 18);
  }

  lemma SizeBounds(size: real, n: nat, q: nat, low: nat, high: nat)
    requires size * q as real == n as real && q > 0 && n > 0 && low > 0
    ensures size > 0.0
    ensures n >= high * q <==> size >= high as real
    ensures n * low >= q <==> size >= 1.0 / low as real
  {
    assert (high * q) as real == high as real * q as real;
    ScaledCompare(size, high as real, q as real);
    ScaledCompare(0.0, size, q as real);
    var part := 1.0 / low as real;
    assert part * low as real == 1.0;
    assert (n * low) as real == size * q as real * low as real;
    assert q as real == (part * low as real) * q as real == part * (q as real * low as real);
    assert size * q as real * low as real == size * (q as real * low as real);
    assert q as real * low as real > 0.0;
    ScaledCompare(size, part, q as real * low as real);
  }
}
