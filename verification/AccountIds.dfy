/** Account ids as callers write them, and the rows they name. */
module AccountIds {
  import opened LetterCase

  /** The text of a uuid: requests may write its letters in either case. */
  type AccountId = string

  /** The row a text names: the database takes a uuid in any letter case and shows it in lower case. */
  function Row(id: AccountId): AccountId {
    Lower(id)
  }

  predicate Canonical(id: AccountId) {
    Row(id) == id
  }

  /** The order in which texts are sorted. */
  predicate Less(a: AccountId, b: AccountId) {
    b != "" && (a == "" || a[0] < b[0] || (a[0] == b[0] && Less(a[1..], b[1..])))
  }

  lemma {:induction false} LessIsIrreflexive(a: AccountId)
    ensures !Less(a, a)
  {
    if a != "" { LessIsIrreflexive(a[1..]); }
  }

  lemma {:induction false} LessIsTransitive(a: AccountId, b: AccountId, c: AccountId)
    requires Less(a, b) && Less(b, c)
    ensures Less(a, c)
  {
    if a != "" && a[0] == b[0] && b[0] == c[0] { LessIsTransitive(a[1..], b[1..], c[1..]); }
  }

  lemma {:induction false} LessIsTotal(a: AccountId, b: AccountId)
    ensures Less(a, b) || a == b || Less(b, a)
  {
    if a != "" && b != "" && a[0] == b[0] {
      LessIsTotal(a[1..], b[1..]);
      assert a == [a[0]] + a[1..] && b == [b[0]] + b[1..];
    }
  }

  lemma {:induction false} LessIsAsymmetric(a: AccountId, b: AccountId)
    requires Less(a, b)
    ensures a != b && !Less(b, a)
  {
    LessIsIrreflexive(a);
    if Less(b, a) { LessIsTransitive(a, b, a); }
  }

  lemma {:induction false} RowIsCanonical(id: AccountId)
    ensures Canonical(Row(id))
  {
    assert forall i :: 0 <= i < |id| ==> LowerChar(LowerChar(id[i])) == LowerChar(id[i]);
    assert Row(Row(id)) == Row(id);
  }

  /** Capitals come before small letters: the lower-case spelling of an id sorts last. */
  lemma {:induction false} RowSortsLast(id: AccountId)
    ensures Canonical(id) || Less(id, Row(id))
  {
    if id != "" {
      RowSortsLast(id[1..]);
      assert Row(id) == [LowerChar(id[0])] + Row(id[1..]) && id == [id[0]] + id[1..];
    }
  }

  /** Of two spellings of one row the larger may be canonical, never the smaller. */
  lemma {:induction false} SmallerSpellingIsNotCanonical(a: AccountId, b: AccountId)
    requires Less(a, b) && Row(a) == Row(b)
    ensures !Canonical(a)
  {
    LessIsAsymmetric(a, b);
    RowSortsLast(b);
  }

  /** A canonical text that sorts first names the row that sorts first. */
  lemma CanonicalKeepsTheOrder(a: AccountId, b: AccountId)
    requires Less(a, b) && Canonical(a)
    ensures Less(Row(a), Row(b))
  {
    RowSortsLast(b);
    if !Canonical(b) { LessIsTransitive(a, b, Row(b)); }
  }
}
