/** The amortised instalment of a loan, over exact real numbers. */
module Amortisation {
  import opened Powers

  /** Twenty percent a year, by the month. */
  const MONTHLY_RATE := 0.2 / 12.0

  /** The formula before rounding: amount * r / (1 - (1 + r)^-n). */
  function ExactInstalment(amount: real, r: real, n: nat): real
    requires r > 0.0 && n >= 1
  {
    GrowthIsReal(r, n);
    amount * r / (1.0 - 1.0 / Pow(1.0 + r, n))
  }

  /** Rounds half up, as the language's rounding does. */
  function Round(x: real): int {
    (x + 0.5).Floor
  }

  function MonthlyInstalment(amount: int, n: nat): int
    requires n >= 1
  {
    Round(ExactInstalment(amount as real, MONTHLY_RATE, n))
  }

  /** What is still owed after k months of interest and payment. */
  function Owed(amount: real, r: real, payment: real, k: nat): real {
    if k == 0 then amount else Owed(amount, r, payment, k - 1) * (1.0 + r) - payment
  }

  /** The instalment is the exact one at a sixtieth a month, to the nearest unit, halves up. */
  lemma InstalmentIsTheNearest(amount: int, n: nat)
    requires n >= 1
    ensures var exact := ExactInstalment(amount as real, 1.0 / 60.0, n);
      MonthlyInstalment(amount, n) as real - 0.5 <= exact < MonthlyInstalment(amount, n) as real + 0.5
  {
    hide ExactInstalment;
    assert MONTHLY_RATE == 1.0 / 60.0;
  }

  // ---------- Growth ----------

  lemma {:induction false} GrowthIsReal(r: real, n: nat)
    requires r > 0.0
    ensures Pow(1.0 + r, n) >= 1.0 && (n >= 1 ==> Pow(1.0 + r, n) > 1.0)
  {
    if n > 0 {
      GrowthIsReal(r, n - 1);
      var q := Pow(1.0 + r, n - 1);
      assert q * (1.0 + r) == q + q * r;
      assert q * r >= r by { TimesAtLeast(q, r); }
    }
  }

  lemma Signs(x: real, y: real)
    ensures x > 0.0 && y > 0.0 ==> x * y > 0.0
    ensures x >= 0.0 && y >= 0.0 ==> x * y >= 0.0
    ensures x <= 0.0 && y >= 0.0 ==> x * y <= 0.0
    ensures x < 0.0 && y > 0.0 ==> x * y < 0.0
  {}

  lemma TimesAtLeast(q: real, r: real)
    requires q >= 1.0 && r > 0.0
    ensures q * r >= r
  {
    assert (q - 1.0) * r >= 0.0;
  }

  lemma {:induction false} GrowthIsMonotone(r: real, n: nat, m: nat)
    requires r > 0.0 && n <= m
    ensures Pow(1.0 + r, n) <= Pow(1.0 + r, m)
    decreases m
  {
    if n < m {
      GrowthIsMonotone(r, n, m - 1);
      GrowthIsReal(r, m - 1);
      var q := Pow(1.0 + r, m - 1);
      assert q * (1.0 + r) == q + q * r;
      assert q * r >= 0.0;
    }
  }

  // ---------- Paying off ----------

  /** Month by month, in closed form. */
  lemma {:induction false} OwedInClosedForm(amount: real, r: real, payment: real, k: nat)
    ensures r * Owed(amount, r, payment, k) == r * amount * Pow(1.0 + r, k) - payment * (Pow(1.0 + r, k) - 1.0)
  {
    if k == 0 {
      ClosedFormAtStart(amount, r, payment);
    } else {
      OwedInClosedForm(amount, r, payment, k - 1);
      var o, q := Owed(amount, r, payment, k - 1), Pow(1.0 + r, k - 1);
      OneMonth(amount, r, payment, o, q, Owed(amount, r, payment, k), Pow(1.0 + r, k));
      hide *;
    }
  }

  lemma ClosedFormAtStart(amount: real, r: real, payment: real)
    ensures r * amount == r * amount * 1.0 - payment * (1.0 - 1.0)
  {}

  lemma OneMonth(amount: real, r: real, p: real, o: real, q: real, o': real, q': real)
    requires r * o == r * amount * q - p * (q - 1.0)
    requires o' == o * (1.0 + r) - p && q' == q * (1.0 + r)
    ensures r * o' == r * amount * q' - p * (q' - 1.0)
  {
    calc {
      r * (o * (1.0 + r) - p);
      (r * o) * (1.0 + r) - r * p;
      (r * amount * q - p * (q - 1.0)) * (1.0 + r) - r * p;
      (r * amount * q) * (1.0 + r) - (p * q - p) * (1.0 + r) - r * p;
      (r * amount * q) * (1.0 + r) - (p * q) * (1.0 + r) + p;
      r * amount * (q * (1.0 + r)) - p * (q * (1.0 + r)) + p;
      r * amount * (q * (1.0 + r)) - p * (q * (1.0 + r) - 1.0);
    }
  }

  /** The instalment times the growth less one is the interest-laden debt. */
  lemma InstalmentEquation(amount: real, r: real, n: nat)
    requires r > 0.0 && n >= 1
    ensures ExactInstalment(amount, r, n) * (Pow(1.0 + r, n) - 1.0) == amount * r * Pow(1.0 + r, n)
  {
    GrowthIsReal(r, n);
    var q := Pow(1.0 + r, n);
    var d := 1.0 - 1.0 / q;
    var p := amount * r / d;
    assert q * (1.0 / q) == 1.0;
    assert d * q == q - 1.0;
    Signs(d, q);
    assert p * d == amount * r;
    assert p * (q - 1.0) == p * (d * q) == (p * d) * q;
  }

  lemma Cancel(r: real, a: real, b: real)
    requires r > 0.0 && r * a == r * b
    ensures a == b
  {}

  lemma Excess(amount: real, r: real, n: nat, payment: real)
    requires r > 0.0 && n >= 1
    ensures r * Owed(amount, r, payment, n) == (ExactInstalment(amount, r, n) - payment) * (Pow(1.0 + r, n) - 1.0)
    ensures Pow(1.0 + r, n) > 1.0
  {
    GrowthIsReal(r, n);
    OwedInClosedForm(amount, r, payment, n);
    InstalmentEquation(amount, r, n);
    var q, o, p := Pow(1.0 + r, n), Owed(amount, r, payment, n), ExactInstalment(amount, r, n);
    hide *;
    Distribute(p, payment, q - 1.0);
    assert r * amount * q == amount * r * q;
  }

  lemma Distribute(a: real, b: real, c: real)
    ensures (a - b) * c == a * c - b * c
  {}

  /** The unrounded instalment, and no other payment, clears the debt in exactly n months. */
  lemma ExactInstalmentClears(amount: real, r: real, n: nat, payment: real)
    requires r > 0.0 && n >= 1
    ensures Owed(amount, r, payment, n) == 0.0 <==> payment == ExactInstalment(amount, r, n)
  {
    Excess(amount, r, n, payment);
    var q, o, p := Pow(1.0 + r, n), Owed(amount, r, payment, n), ExactInstalment(amount, r, n);
    hide *;
    ZeroProduct(o, r, r * o);
    ZeroProduct(p - payment, q - 1.0, r * o);
  }

  lemma ZeroProduct(x: real, y: real, z: real)
    requires y > 0.0 && z == x * y
    ensures z == 0.0 <==> x == 0.0
  {
    Signs(x, y);
    Signs(-x, y);
  }

  /** Rounding the instalment leaves at most ((1 + r)^n - 1) / 2r, over or under, after n months. */
  lemma RoundedResidual(amount: int, n: nat)
    requires n >= 1
    ensures var r := MONTHLY_RATE;
      var bound := (Pow(1.0 + r, n) - 1.0) / (2.0 * r);
      -bound <= Owed(amount as real, r, MonthlyInstalment(amount, n) as real, n) <= bound
  {
    RateIsPositive();
    var exact := ExactInstalment(amount as real, MONTHLY_RATE, n);
    RoundIsNear(exact);
    NearlyCleared(amount as real, MONTHLY_RATE, n, MonthlyInstalment(amount, n) as real);
  }

  lemma RateIsPositive()
    ensures MONTHLY_RATE > 0.0
  {}

  lemma RoundIsNear(x: real)
    ensures -0.5 <= x - Round(x) as real <= 0.5
  {}

  lemma NearlyCleared(amount: real, r: real, n: nat, payment: real)
    requires r > 0.0 && n >= 1 && -0.5 <= ExactInstalment(amount, r, n) - payment <= 0.5
    ensures var bound := (Pow(1.0 + r, n) - 1.0) / (2.0 * r); -bound <= Owed(amount, r, payment, n) <= bound
  {
    Excess(amount, r, n, payment);
    var q, o, p := Pow(1.0 + r, n), Owed(amount, r, payment, n), ExactInstalment(amount, r, n);
    hide Pow, Owed, ExactInstalment;
    Scaled(p - payment, q - 1.0, r * o);
    Bounded(r, o, q - 1.0, r * o);
  }

  lemma Bounded(r: real, o: real, x: real, y: real)
    requires r > 0.0 && r * o == y && -0.5 * x <= y <= 0.5 * x
    ensures -(x / (2.0 * r)) <= o <= x / (2.0 * r)
  {
    var bound := x / (2.0 * r);
    assert bound * (2.0 * r) == x;
    assert r * bound == 0.5 * x && r * -bound == -0.5 * x;
    Unscaled(r, -bound, o);
    Unscaled(r, o, bound);
  }

  lemma Scaled(x: real, y: real, z: real)
    requires -0.5 <= x <= 0.5 && y >= 0.0 && z == x * y
    ensures -0.5 * y <= z <= 0.5 * y
  {
    Signs(0.5 - x, y);
    Distribute(0.5, x, y);
    Signs(x + 0.5, y);
    Distribute(x, -0.5, y);
  }

  lemma Unscaled(r: real, a: real, b: real)
    requires r > 0.0 && r * a <= r * b
    ensures a <= b
  {
    Signs(r, a - b);
    assert r * (a - b) == r * a - r * b;
  }

  // ---------- Larger loans, longer terms ----------

  /** A larger amount never means a smaller instalment, and a longer term never a larger one. */
  lemma InstalmentIsMonotone(amount: int, n: nat, amount': int, n': nat)
    requires 0 <= amount' <= amount && 1 <= n <= n'
    ensures MonthlyInstalment(amount', n') <= MonthlyInstalment(amount, n)
  {
    var r := MONTHLY_RATE;
    var a, a' := amount as real, amount' as real;
    GrowthIsReal(r, n);
    GrowthIsReal(r, n');
    GrowthIsMonotone(r, n, n');
    InstalmentEquation(a, r, n);
    InstalmentEquation(a', r, n');
    var q, q', p, p' := Pow(1.0 + r, n), Pow(1.0 + r, n'), ExactInstalment(a, r, n), ExactInstalment(a', r, n');
    LowerInstalment(a, a', r, q, q', p, p');
  }

  lemma LowerInstalment(a: real, a': real, r: real, q: real, q': real, p: real, p': real)
    requires 0.0 <= a' <= a && r > 0.0 && 1.0 < q <= q'
    requires p * (q - 1.0) == a * r * q && p' * (q' - 1.0) == a' * r * q'
    ensures p' <= p
  {
    var d, d' := q - 1.0, q' - 1.0;
    assert a' * r <= a * r;
    assert p == a * r + a * r / d by { Share(p, a * r, d); }
    assert p' == a' * r + a' * r / d' by { Share(p', a' * r, d'); }
    Smaller(a' * r, a * r, d, d');
  }

  lemma Share(p: real, x: real, d: real)
    requires d > 0.0 && p * d == x * (d + 1.0)
    ensures p == x + x / d
  {
    var y := x / d;
    assert y * d == x;
    assert d * p == d * (x + y);
    Cancel(d, p, x + y);
  }

  lemma Smaller(x': real, x: real, d: real, d': real)
    requires 0.0 <= x' <= x && 0.0 < d <= d'
    ensures x' / d' <= x / d
  {
    var y, y' := x / d, x' / d';
    assert y * d == x && y' * d' == x';
    Signs(y', d');
    assert y' * d <= y' * d' by { assert y' * (d' - d) >= 0.0; }
    assert d * y' <= d * y;
    Unscaled(d, y', y);
  }

  /** Each exact instalment pays more than the month's interest, so what is owed falls every month
      and is never negative before the end. */
  lemma {:induction false} OwedFalls(amount: real, r: real, n: nat, k: nat)
    requires amount > 0.0 && r > 0.0 && k < n
    ensures var p := ExactInstalment(amount, r, n);
      0.0 <= Owed(amount, r, p, k + 1) < Owed(amount, r, p, k)
  {
    var p := ExactInstalment(amount, r, n);
    GrowthIsReal(r, n);
    GrowthIsReal(r, k);
    GrowthIsReal(r, k + 1);
    GrowthIsMonotone(r, k + 1, n);
    InstalmentEquation(amount, r, n);
    OwedInClosedForm(amount, r, p, k);
    OwedInClosedForm(amount, r, p, k + 1);
    var o, o', q, qn, q' := Owed(amount, r, p, k), Owed(amount, r, p, k + 1), Pow(1.0 + r, k), Pow(1.0 + r, n), Pow(1.0 + r, k + 1);
    assert q' == q * (1.0 + r);
    hide *;
    PaysMoreThanInterest(amount, r, p, qn);
    Falling(amount, r, p, q, q', qn, o, o');
  }

  lemma Falling(amount: real, r: real, p: real, q: real, q': real, qn: real, o: real, o': real)
    requires r > 0.0 && q >= 1.0 && q' == q * (1.0 + r) <= qn && p > r * amount
    requires r * o == r * amount * q - p * (q - 1.0) && r * o' == r * amount * q' - p * (q' - 1.0)
    requires p * (qn - 1.0) == amount * r * qn
    ensures 0.0 <= o' < o
  {
    var x := p - r * amount;
    assert r * o == p - x * q by { Distribute(p, r * amount, q); }
    assert r * o' == p - x * q' by { Distribute(p, r * amount, q'); }
    assert 0.0 == p - x * qn by { Distribute(p, r * amount, qn); }
    Signs(q, r);
    Signs(x, q' - q);
    Distribute(q', q, x);
    Signs(x, qn - q');
    Distribute(qn, q', x);
    Unscaled(r, 0.0, o');
    Signs(r, o' - o);
    Distribute(o', o, r);
  }

  lemma PaysMoreThanInterest(amount: real, r: real, p: real, q: real)
    requires amount > 0.0 && r > 0.0 && q > 1.0 && p * (q - 1.0) == amount * r * q
    ensures p > r * amount
  {
    var x := p - r * amount;
    assert x * (q - 1.0) == r * amount by {
      assert (p - r * amount) * (q - 1.0) == p * (q - 1.0) - r * amount * (q - 1.0);
      assert r * amount * (q - 1.0) == amount * r * q - r * amount;
    }
    Signs(r, amount);
    Signs(x, q - 1.0);
  }
}
