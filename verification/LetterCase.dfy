/** Lower-casing of texts. */
module LetterCase {
  /** Covers A to Z. */
  function LowerChar(c: char): char {
    if 'A' <= c <= 'Z' then (c as int + 32) as char else c
  }

  function Lower(s: string): (r: string)
    ensures |r| == |s| && forall i :: 0 <= i < |s| ==> r[i] == LowerChar(s[i])
  {
    if s == "" then "" else [LowerChar(s[0])] + Lower(s[1..])
  }

  const CAPITALS := "ABCDEFGHIJKLMNOPQRSTUVWXYZ"

  const SMALL := "abcdefghijklmnopqrstuvwxyz"

  /** The k-th capital becomes the k-th small letter, and nothing else changes. */
  lemma LowersTheCapitals(s: string)
    ensures |CAPITALS| == |SMALL| == 26
    ensures forall i, k :: 0 <= i < |s| && 0 <= k < 26 && s[i] == CAPITALS[k] ==> Lower(s)[i] == SMALL[k]
    ensures forall i :: 0 <= i < |s| && s[i] !in CAPITALS ==> Lower(s)[i] == s[i]
  {
    assert forall k :: 0 <= k < 26 ==> CAPITALS[k] as int == 'A' as int + k;
    assert forall k :: 0 <= k < 26 ==> SMALL[k] as int == 'a' as int + k;
    forall i | 0 <= i < |s| && 'A' <= s[i] <= 'Z' ensures s[i] in CAPITALS {
      assert CAPITALS[s[i] as int - 'A' as int] == s[i];
    }
  }
}
