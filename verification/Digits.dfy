/** Decimal digits, and natural numbers written with them. */
module Digits {
  predicate IsDigit(c: char) { '0' <= c <= '9' }

  function DigitOf(c: char): nat {
    if IsDigit(c) then c as int - '0' as int else 0
  }

  function CharOf(n: nat): (c: char)
    requires n < 10
    ensures IsDigit(c) && DigitOf(c) == n
  {
    ('0' as int + n) as char
  }

  function DigitsToNat(s: string): nat {
    if s == "" then 0 else 10 * DigitsToNat(s[..|s| - 1]) + DigitOf(s[|s| - 1])
  }

  function NatToDigits(n: nat): (s: string)
    ensures s != "" && forall i :: 0 <= i < |s| ==> IsDigit(s[i])
    ensures DigitsToNat(s) == n
  {
    if n < 10 then [CharOf(n)] else NatToDigits(n / 10) + [CharOf(n % 10)]
  }

  function Zeros(n: nat): (s: string)
    ensures |s| == n && forall i :: 0 <= i < n ==> s[i] == '0'
  {
    seq(n, _ => '0')
  }

  lemma {:induction false} LeadingZerosCountNothing(n: nat, s: string)
    ensures DigitsToNat(Zeros(n) + s) == DigitsToNat(s)
    decreases n, |s|
  {
    if s == "" {
      assert Zeros(n) + s == Zeros(n);
      if n > 0 {
        assert Zeros(n)[..n - 1] == Zeros(n - 1);
        LeadingZerosCountNothing(n - 1, "");
        assert Zeros(n - 1) + "" == Zeros(n - 1);
      }
    } else {
      assert (Zeros(n) + s)[..|Zeros(n) + s| - 1] == Zeros(n) + s[..|s| - 1];
      LeadingZerosCountNothing(n, s[..|s| - 1]);
    }
  }
}
