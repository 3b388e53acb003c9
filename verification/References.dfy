/** The generator of reference numbers, and how far apart two equal ones must be. */
module References {
  import opened Digits

  const CYCLE := 1_000_000

  /** What one call is given: a prefix, the date as eight digits, and a random number below 36 * 36. */
  datatype Request = Request(prefix: string, date: string, random: nat)

  function Base36(n: nat): char
    requires n < 36
  {
    if n < 10 then ('0' as int + n) as char else ('A' as int + (n - 10)) as char
  }

  /** A random number as two characters. */
  function RandomText(n: nat): (s: string)
    requires n < 1296
    ensures |s| == 2
  {
    [Base36(n / 36), Base36(n % 36)]
  }

  function PadStart(s: string, n: nat): string {
    if |s| >= n then s else Zeros(n - |s|) + s
  }

  function Reference(q: Request, tag: string, sequence: nat): string
    requires q.random < 1296
  {
    q.prefix + "-" + q.date + "-" + tag + "-" + (PadStart(NatToDigits(sequence), 6) + RandomText(q.random))
  }

  class ReferenceNumberGenerator {
    const nodeTag: string
    var sequence: nat

    constructor (nodeTag: string)
      ensures this.nodeTag == nodeTag && sequence == 0
    {
      this.nodeTag, sequence := nodeTag, 0;
    }

    method Next(q: Request) returns (r: string)
      requires q.random < 1296
      modifies this
      ensures sequence == (old(sequence) + 1) % CYCLE
      ensures r == Reference(q, nodeTag, sequence)
    {
      sequence := (sequence + 1) % CYCLE;
      r := q.prefix + "-" + q.date + "-" + nodeTag + "-" + (PadStart(NatToDigits(sequence), 6) + RandomText(q.random));
    }
  }

  // ---------- Whole runs ----------

  /** The counter before the k-th call of a run that starts at `start`. */
  function Counter(start: nat, k: nat): (n: nat)
    requires start < CYCLE
    ensures n < CYCLE
  {
    if k == 0 then start else (Counter(start, k - 1) + 1) % CYCLE
  }

  lemma {:induction false} CounterInClosedForm(start: nat, k: nat)
    requires start < CYCLE
    ensures Counter(start, k) == (start + k) % CYCLE
  {
    if k > 0 {
      CounterInClosedForm(start, k - 1);
      AddOne(start + k - 1);
    }
  }

  lemma AddOne(n: nat)
    ensures (n % CYCLE + 1) % CYCLE == (n + 1) % CYCLE
  {}

  /** The reference the k-th call hands out. */
  function Issued(start: nat, tag: string, qs: seq<Request>, k: nat): string
    requires start < CYCLE && k < |qs| && qs[k].random < 1296
  {
    Reference(qs[k], tag, Counter(start, k + 1))
  }

  // ---------- Six digits ----------

  /** Six characters are enough for the counter, and they tell its value. */
  lemma SixDigits(n: nat)
    requires n < 1_000_000
    ensures |PadStart(NatToDigits(n), 6)| == 6
    ensures DigitsToNat(PadStart(NatToDigits(n), 6)) == n
  {
    AtMost(n, 6, CYCLE);
    LeadingZerosCountNothing(6 - |NatToDigits(n)|, NatToDigits(n));
  }

  function PowerOfTen(k: nat): nat {
    if k == 0 then 1 else 10 * PowerOfTen(k - 1)
  }

  lemma {:induction false} DigitCount(n: nat, k: nat)
    requires k >= 1 && n < PowerOfTen(k)
    ensures |NatToDigits(n)| <= k
  {
    if n >= 10 {
      assert PowerOfTen(1) == 10 * PowerOfTen(0) == 10;
      assert k >= 2;
      assert n / 10 < PowerOfTen(k - 1);
      DigitCount(n / 10, k - 1);
    }
  }

  lemma AtMost(n: nat, k: nat, bound: nat)
    requires n < bound == CYCLE && k == 6
    ensures |NatToDigits(n)| <= k
  {
    assert PowerOfTen(0) == 1 && PowerOfTen(1) == 10 && PowerOfTen(2) == 100 && PowerOfTen(3) == 1000;
    assert PowerOfTen(4) == 10_000 && PowerOfTen(5) == 100_000 && PowerOfTen(6) == CYCLE;
    DigitCount(n, 6);
  }

  /** The six digits stand just before the last two characters. */
  function DigitField(reference: string): string
    requires |reference| >= 8
  {
    reference[|reference| - 8..|reference| - 2]
  }

  lemma FieldTellsTheCounter(q: Request, tag: string, sequence: nat)
    requires q.random < 1296 && sequence < CYCLE
    ensures |Reference(q, tag, sequence)| >= 8
    ensures DigitsToNat(DigitField(Reference(q, tag, sequence))) == sequence
    ensures var r := Reference(q, tag, sequence); r[..|r| - 8] == q.prefix + "-" + q.date + "-" + tag + "-"
  {
    SixDigits(sequence);
    var head := q.prefix + "-" + q.date + "-" + tag + "-";
    var digits, random := PadStart(NatToDigits(sequence), 6), RandomText(q.random);
    assert Reference(q, tag, sequence) == head + (digits + random);
    assert DigitField(head + (digits + random)) == digits;
  }

  /** Two calls of one generator hand out the same six digits exactly when their distance is a
      multiple of a million, whatever the prefixes, dates and random endings. */
  lemma DigitsRepeatEveryMillion(start: nat, tag: string, qs: seq<Request>, i: nat, j: nat)
    requires start < CYCLE && i <= j < |qs| && qs[i].random < 1296 && qs[j].random < 1296
    ensures |Issued(start, tag, qs, i)| >= 8 && |Issued(start, tag, qs, j)| >= 8
    ensures DigitField(Issued(start, tag, qs, i)) == DigitField(Issued(start, tag, qs, j)) <==> (j - i) % 1_000_000 == 0
  {
    hide Counter, Reference, DigitField, DigitsToNat;
    CounterInClosedForm(start, i + 1);
    CounterInClosedForm(start, j + 1);
    FieldTellsTheCounter(qs[i], tag, Counter(start, i + 1));
    FieldTellsTheCounter(qs[j], tag, Counter(start, j + 1));
    SameRemainder(start + i + 1, start + j + 1);
    if Counter(start, i + 1) == Counter(start, j + 1) {
      SameField(qs[i], qs[j], tag, Counter(start, i + 1));
    }
  }

  /** The last two characters are digits or capitals and tell the random number. */
  lemma EndingTellsTheRandom(p: Request, q: Request, tag: string, m: nat, n: nat)
    requires p.random < 1296 && q.random < 1296
    ensures |Reference(p, tag, m)| >= 2 && |Reference(q, tag, n)| >= 2
    ensures var r, s := Reference(p, tag, m), Reference(q, tag, n);
      && (r[|r| - 2..] == s[|s| - 2..] <==> p.random == q.random)
      && forall i :: |r| - 2 <= i < |r| ==> '0' <= r[i] <= '9' || 'A' <= r[i] <= 'Z'
  {
    var _ := Ending(p, tag, m);
    var _ := Ending(q, tag, n);
    hide Reference;
    if RandomText(p.random) == RandomText(q.random) {
      assert RandomText(p.random)[0] == RandomText(q.random)[0] && RandomText(p.random)[1] == RandomText(q.random)[1];
    }
  }

  lemma Ending(q: Request, tag: string, sequence: nat) returns (head: string)
    requires q.random < 1296
    ensures Reference(q, tag, sequence) == head + RandomText(q.random)
  {
    head := q.prefix + "-" + q.date + "-" + tag + "-" + PadStart(NatToDigits(sequence), 6);
  }

  lemma SameField(p: Request, q: Request, tag: string, sequence: nat)
    requires p.random < 1296 && q.random < 1296 && sequence < CYCLE
    ensures |Reference(p, tag, sequence)| >= 8 && |Reference(q, tag, sequence)| >= 8
    ensures DigitField(Reference(p, tag, sequence)) == DigitField(Reference(q, tag, sequence))
  {}

  lemma SameRemainder(a: nat, b: nat)
    requires a <= b
    ensures a % CYCLE == b % CYCLE <==> (b - a) % CYCLE == 0
  {}

  /** So within any million consecutive calls every reference is new. */
  lemma ReferencesAreFresh(start: nat, tag: string, qs: seq<Request>, i: nat, j: nat)
    requires start < CYCLE && i < j < |qs| && j - i < 1_000_000 && qs[i].random < 1296 && qs[j].random < 1296
    ensures Issued(start, tag, qs, i) != Issued(start, tag, qs, j)
  {
    hide Issued, Reference, DigitField;
    DigitsRepeatEveryMillion(start, tag, qs, i, j);
    assert 0 < j - i < 1_000_000 && (j - i) % 1_000_000 == j - i;
  }
}
