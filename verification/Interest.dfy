/** Monthly interest by account type, and the tax withheld on it, with exact rates and floors. */
module Interest {
  import opened Powers

  datatype AccountType = SAVINGS | CURRENT | FIXED_DEPOSIT

  const SLAB := 100_000_000

  const BONUS_PERCENT := 1.5

  // ---------- Strategies ----------

  function Flat(balance: int, rate: real): int {
    (balance as real * rate / 100.0 / 12.0).Floor
  }

  function Yearly(balance: int, rate: real): real {
    var base := if balance < SLAB then balance else SLAB;
    var above := if balance - SLAB > 0 then balance - SLAB else 0;
    base as real * rate + above as real * (rate + BONUS_PERCENT)
  }

  /** What is above the slab earns one and a half percent more. */
  function Tiered(balance: int, rate: real): int {
    (Yearly(balance, rate) / 100.0 / 12.0).Floor
  }

  function CompoundMonthly(balance: int, rate: real): int {
    (balance as real * (Pow(1.0 + rate / 100.0 / 12.0, 1) - 1.0)).Floor
  }

  function MonthlyInterest(t: AccountType, balance: int, rate: real): int {
    match t
    case CURRENT => 0
    case SAVINGS => Tiered(balance, rate)
    case FIXED_DEPOSIT => CompoundMonthly(balance, rate)
  }

  /** The visitor's rate for each kind of account, on the interest of the month. */
  function WithholdingTax(t: AccountType, balance: int, rate: real): int {
    match t
    case SAVINGS => MonthlyInterest(t, balance, rate) * 15 / 100
    case CURRENT => 0
    case FIXED_DEPOSIT => MonthlyInterest(t, balance, rate) * 20 / 100
  }

  // ---------- Arithmetic ----------

  lemma Product(x: real, y: real)
    requires x >= 0.0 && y >= 0.0
    ensures x * y >= 0.0
  {}

  lemma FloorIsMonotone(x: real, y: real)
    requires x <= y
    ensures x.Floor <= y.Floor
  {}

  lemma FloorIsSuperadditive(x: real, y: real)
    ensures x.Floor + y.Floor <= (x + y).Floor
  {}

  lemma Distribute(a: real, b: real, c: real)
    ensures (a + b) * c == a * c + b * c
    ensures (a - b) * c == a * c - b * c
  {}

  /** The tiers as one line: the rate on everything, and the bonus on what is above the slab. */
  lemma YearlyIsRatePlusBonus(balance: int, rate: real)
    ensures Yearly(balance, rate) == balance as real * rate + Above(balance) as real * BONUS_PERCENT
  {}

  function Above(balance: int): nat {
    if balance > SLAB then balance - SLAB else 0
  }

  // ---------- Tiered interest ----------

  /** Up to the slab tiered interest is flat interest; it is never below it. */
  lemma TieredAgainstFlat(balance: int, rate: real)
    ensures balance <= SLAB ==> Tiered(balance, rate) == Flat(balance, rate)
    ensures Flat(balance, rate) <= Tiered(balance, rate)
    ensures balance > 100_000_000 ==>
      Tiered(balance, rate) == ((balance as real * rate + (balance - 100_000_000) as real * 1.5) / 1200.0).Floor
  {
    YearlyIsRatePlusBonus(balance, rate);
    FloorIsMonotone(balance as real * rate / 100.0 / 12.0, Yearly(balance, rate) / 100.0 / 12.0);
  }

  /** A larger balance never earns less. */
  lemma TieredIsMonotone(balance: int, more: int, rate: real)
    requires balance <= more && rate >= 0.0
    ensures Tiered(balance, rate) <= Tiered(more, rate)
  {
    YearlyIsRatePlusBonus(balance, rate);
    YearlyIsRatePlusBonus(more, rate);
    Product((more - balance) as real, rate);
    Distribute(more as real, balance as real, rate);
    FloorIsMonotone(Yearly(balance, rate) / 100.0 / 12.0, Yearly(more, rate) / 100.0 / 12.0);
  }

  lemma TieredIsSuperadditive(x: nat, y: nat, rate: real)
    requires rate >= 0.0
    ensures Tiered(x, rate) + Tiered(y, rate) <= Tiered(x + y, rate)
  {
    YearlyIsRatePlusBonus(x, rate);
    YearlyIsRatePlusBonus(y, rate);
    YearlyIsRatePlusBonus(x + y, rate);
    Distribute(x as real, y as real, rate);
    var a, b, c := Yearly(x, rate) / 100.0 / 12.0, Yearly(y, rate) / 100.0 / 12.0, Yearly(x + y, rate) / 100.0 / 12.0;
    FloorIsSuperadditive(a, b);
    FloorIsMonotone(a + b, c);
  }

  function Total(balances: seq<nat>): nat {
    if balances == [] then 0 else balances[0] + Total(balances[1..])
  }

  function TotalTiered(balances: seq<nat>, rate: real): int {
    if balances == [] then 0 else Tiered(balances[0], rate) + TotalTiered(balances[1..], rate)
  }

  /** Spreading money over any number of savings accounts never earns more than keeping it in one. */
  lemma {:induction false} SplittingNeverPays(balances: seq<nat>, rate: real)
    requires rate >= 0.0
    ensures TotalTiered(balances, rate) <= Tiered(Total(balances), rate)
  {
    if balances != [] {
      SplittingNeverPays(balances[1..], rate);
      TieredIsSuperadditive(balances[0], Total(balances[1..]), rate);
    }
  }

  /** With one period a month, compounding earns exactly the flat interest. */
  lemma CompoundIsFlat(balance: int, rate: real)
    ensures CompoundMonthly(balance, rate) == Flat(balance, rate)
  {
    var m := rate / 100.0 / 12.0;
    assert Pow(1.0 + m, 1) == (1.0 + m) * Pow(1.0 + m, 0) == 1.0 + m;
    assert balance as real * m == balance as real * rate / 100.0 / 12.0;
  }

  // ---------- Every account type ----------

  /** What an account earns in a month: a current account nothing; any other the rate by twelfths,
      rounded down; a savings account one and a half percent more on what is above a million rupees. */
  lemma MonthlyInterestIs(balance: int, rate: real)
    ensures MonthlyInterest(CURRENT, balance, rate) == 0
    ensures MonthlyInterest(FIXED_DEPOSIT, balance, rate) == (balance as real * rate / 1200.0).Floor
    ensures MonthlyInterest(SAVINGS, balance, rate) ==
      (if balance <= 100_000_000 then (balance as real * rate / 1200.0).Floor
       else ((balance as real * rate + (balance - 100_000_000) as real * 1.5) / 1200.0).Floor)
  {
    TieredAgainstFlat(balance, rate);
    CompoundIsFlat(balance, rate);
    assert balance as real * rate / 100.0 / 12.0 == balance as real * rate / 1200.0;
  }

  lemma InterestIsMonotone(t: AccountType, balance: nat, more: nat, rate: real)
    requires balance <= more && rate >= 0.0
    ensures 0 <= MonthlyInterest(t, balance, rate) <= MonthlyInterest(t, more, rate)
  {
    match t
    case CURRENT =>
    case SAVINGS =>
      TieredIsMonotone(0, balance, rate);
      TieredIsMonotone(balance, more, rate);
    case FIXED_DEPOSIT =>
      CompoundIsFlat(balance, rate);
      CompoundIsFlat(more, rate);
      Product(balance as real, rate);
      Product((more - balance) as real, rate);
      Distribute(more as real, balance as real, rate);
      FloorIsMonotone(0.0, balance as real * rate / 100.0 / 12.0);
      FloorIsMonotone(balance as real * rate / 100.0 / 12.0, more as real * rate / 100.0 / 12.0);
  }

  /** The tax never exceeds the interest it is withheld from, and what is left after tax never falls
      as the balance grows. */
  lemma TaxNeverExceedsInterest(t: AccountType, balance: nat, more: nat, rate: real)
    requires balance <= more && rate >= 0.0
    ensures 0 <= WithholdingTax(t, balance, rate) <= MonthlyInterest(t, balance, rate)
    ensures var percent := match t case SAVINGS => 15 case CURRENT => 0 case FIXED_DEPOSIT => 20;
      100 * WithholdingTax(t, balance, rate) <= percent * MonthlyInterest(t, balance, rate) < 100 * WithholdingTax(t, balance, rate) + 100
    ensures MonthlyInterest(t, balance, rate) - WithholdingTax(t, balance, rate)
      <= MonthlyInterest(t, more, rate) - WithholdingTax(t, more, rate)
  {
    InterestIsMonotone(t, balance, more, rate);
  }
}
