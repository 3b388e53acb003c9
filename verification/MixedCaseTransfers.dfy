/** Transfers whose texts are not the ids of their rows: what the comparison of texts gets wrong, and when. */
module MixedCaseTransfers {
  import opened Wrappers
  import opened AccountIds
  import opened AccountState
  import opened Entities
  import opened Ledger
  import opened LedgerInvariants
  import opened LedgerTransfer
  import opened LedgerRuns
  import opened LetterCase

  // ---------- Roles ----------

  lemma TextsAreSorted(op: Op)
    requires op.Transfer? && op.from != op.to
    ensures Less(First(op), Second(op)) && {First(op), Second(op)} == {op.from, op.to}
  {
    LessIsTotal(op.from, op.to);
    hide Less;
  }

  /** The sender's row pays and the receiver's row, another one, is paid exactly when the text that sorts
      first is the id of its row. */
  lemma RolesAreExact(op: Op)
    requires op.Transfer? && op.from != op.to
    ensures Payer(op) == Row(op.from) && Payee(op) == Row(op.to) && Row(op.from) != Row(op.to) <==> Canonical(First(op))
  {
    TextsAreSorted(op);
    RowIsCanonical(Second(op));
    if Row(op.from) == Row(op.to) { SmallerSpellingIsNotCanonical(First(op), Second(op)); }
    hide Less, Row;
  }

  /** Otherwise one row is payer and payee at once: the second. */
  lemma OneRowPaysItself(op: Op)
    requires op.Transfer? && op.from != op.to
    ensures PaysItself(op) <==> !Canonical(First(op))
    ensures PaysItself(op) ==> Payer(op) == Row(Second(op))
  {
    TextsAreSorted(op);
    RolesAreExact(op);
    RowIsCanonical(First(op));
    RowIsCanonical(Second(op));
    hide Less, Row;
    CopiesShareTheRow(op);
  }

  /** It works on two copies of the row exactly when both texts name it and the second is its id. */
  lemma CopiesExactly(op: Op)
    requires op.Transfer? && op.from != op.to
    ensures TwoCopies(op) <==> Row(op.from) == Row(op.to) && Canonical(Second(op))
  {
    TextsAreSorted(op);
    if Row(op.from) == Row(op.to) { SmallerSpellingIsNotCanonical(First(op), Second(op)); }
    hide Less, Row;
  }

  /** The rows are locked in their order whenever the text that sorts first is the id of its row. */
  lemma CanonicalFirstIsInRowOrder(op: Op)
    requires op.Transfer? && Canonical(First(op))
    ensures InRowOrder(op)
  {
    LessIsTotal(op.from, op.to);
    if op.from != op.to { CanonicalKeepsTheOrder(First(op), Second(op)); }
  }

  // ---------- The transfer that was meant ----------

  /** The same transfer between the ids of the rows. */
  function Plain(op: Op): Op
    requires op.Transfer?
  {
    op.(from := Row(op.from), to := Row(op.to))
  }

  lemma PlainRoles(op: Op)
    requires op.Transfer?
    ensures Payer(Plain(op)) == Row(op.from) && Payee(Plain(op)) == Row(op.to) && !TwoCopies(Plain(op))
  {
    RowIsCanonical(op.from);
    RowIsCanonical(op.to);
    hide Less, Row;
  }

  /** A transfer that commits leaves the tables as the transfer between the ids of the rows would exactly
      when the text that sorts first is the id of its row. */
  lemma MeansThePlainTransfer(b: Book, op: Op)
    requires Solvent(b) && op.Transfer? && Step(b, op).Committed?
    ensures Step(b, Plain(op)).Committed? && Step(b, Plain(op)).book == Step(b, op).book <==> Canonical(First(op))
  {
    TransferMeans(b, op);
    TransferMeans(b, Plain(op));
    PlainRoles(op);
    RowIsCanonical(op.from);
    RowIsCanonical(op.to);
    CopiesShareTheRow(op);
    assert op.from != op.to && op.amount > 0;
    RolesAreExact(op);
    hide Step, Less, Row, Payer, Payee, First, TwoCopies, WithdrawnSince;
    if Canonical(First(op)) {
      SamePartiesSameBooks(b, op);
    } else {
      OneRowPaysItself(op);
      if Step(b, Plain(op)).Committed? { OtherRowDiffers(b, op); }
    }
  }

  lemma SamePartiesSameBooks(b: Book, op: Op)
    requires op.Transfer? && TransferAllowed(b, op)
    requires Payer(Plain(op)) == Payer(op) == Row(op.from) && Payee(Plain(op)) == Payee(op) == Row(op.to)
    requires Row(op.from) != Row(op.to) && !TwoCopies(op) && !TwoCopies(Plain(op))
    requires Row(Row(op.from)) == Row(op.from) && Row(Row(op.to)) == Row(op.to)
    ensures TransferAllowed(b, Plain(op))
    ensures Settled(b.accounts, Plain(op)) == Settled(b.accounts, op) && TransferEntries(b, Plain(op)) == TransferEntries(b, op)
  {
    hide Row, Payer, Payee, TwoCopies, WithdrawnSince;
  }

  /** One of the two rows moves under the plain transfer and does not when the other pays itself. */
  lemma OtherRowDiffers(b: Book, op: Op)
    requires op.Transfer? && TransferAllowed(b, op) && TransferAllowed(b, Plain(op)) && op.amount > 0
    requires Payer(op) == Payee(op)
    requires Payer(Plain(op)) == Row(op.from) && Payee(Plain(op)) == Row(op.to) && !TwoCopies(Plain(op))
    ensures Settled(b.accounts, Plain(op)) != Settled(b.accounts, op)
  {
    hide Row, Payer, Payee, TwoCopies, WithdrawnSince;
    var other := if Payer(op) == Row(op.from) then Row(op.to) else Row(op.from);
    assert Row(op.from) != Row(op.to);
    assert Settled(b.accounts, op)[other] == b.accounts[other];
    assert Settled(b.accounts, Plain(op))[other] != b.accounts[other];
  }

  // ---------- Three inputs ----------

  const TAIL := "1000000-" + ("0000-" + ("4000-" + ("8000-" + "000000000000")))

  const CAPITAL_A := "A" + TAIL
  const SMALL_A := "a" + TAIL
  const CAPITAL_B := "B" + TAIL
  const SMALL_B := "b" + TAIL

  /** Four texts, two rows. */
  lemma FourSpellings()
    ensures Row(CAPITAL_A) == Row(SMALL_A) == SMALL_A && Row(CAPITAL_B) == Row(SMALL_B) == SMALL_B
    ensures Less(CAPITAL_A, SMALL_A) && Less(CAPITAL_A, SMALL_B) && Less(CAPITAL_B, SMALL_A) && Less(SMALL_A, SMALL_B)
    ensures SMALL_A != SMALL_B
  {
    TailIsCanonical();
    RowOfLetter('A');
    RowOfLetter('a');
    RowOfLetter('B');
    RowOfLetter('b');
    assert SMALL_A[0] != SMALL_B[0];
  }

  lemma RowOfLetter(c: char)
    ensures Row([c] + TAIL) == [LowerChar(c)] + TAIL
  {
    TailIsCanonical();
    assert ([c] + TAIL)[1..] == TAIL;
  }

  lemma TailIsCanonical()
    ensures Canonical(TAIL)
  {
    PiecesAreCanonical();
    hide Row;
    CanonicalConcat("8000-", "000000000000");
    CanonicalConcat("4000-", "8000-" + "000000000000");
    CanonicalConcat("0000-", "4000-" + ("8000-" + "000000000000"));
    CanonicalConcat("1000000-", "0000-" + ("4000-" + ("8000-" + "000000000000")));
  }

  lemma PiecesAreCanonical()
    ensures Canonical("1000000-") && Canonical("0000-") && Canonical("4000-") && Canonical("8000-") && Canonical("000000000000")
  {
    NoCapitals("000000000000");
    NoCapitals("8000-");
    NoCapitals("4000-");
    NoCapitals("0000-");
    NoCapitals("1000000-");
  }

  lemma NoCapitals(s: string)
    requires forall i :: 0 <= i < |s| ==> !('A' <= s[i] <= 'Z')
    ensures Canonical(s)
  {}

  lemma CanonicalConcat(s: string, t: string)
    requires Canonical(s) && Canonical(t)
    ensures Canonical(s + t)
  {
    assert Row(s + t) == Row(s) + Row(t);
  }

  /** From an account to itself in two spellings: the account ends with the amount on top of what it had,
      although its entries say that it has only paid the fee. A deposit and this transfer take an empty
      bank to books that are not balanced. */
  lemma MoneyFromNothing(b: Book, x: int, fee: nat, now: int)
    requires EmptyBank(b) && x > 0
    requires SMALL_A in b.accounts && b.accounts[SMALL_A].status == ACTIVE && b.accounts[SMALL_A].dailyLimit >= x + fee
    ensures var qs := [Move(Deposit(SMALL_A, x + fee, DEPOSIT_ENTRY, "", "DEP-1", now)),
                       Move(Transfer(CAPITAL_A, SMALL_A, x, fee, None, "TRF-1", now))];
      && LegalRun(b, qs) && SMALL_A in After(b, qs).accounts
      && After(b, qs).accounts[SMALL_A].balance == (x + fee) + x
      && SumFor(After(b, qs).entries, SMALL_A) == (x + fee) - fee
      && !Balanced(After(b, qs))
  {
    var dep, op := Deposit(SMALL_A, x + fee, DEPOSIT_ENTRY, "", "DEP-1", now), Transfer(CAPITAL_A, SMALL_A, x, fee, None, "TRF-1", now);
    EmptyBankIsReady(b, dep);
    hide Row, Less, Step, After, LegalRun, Balanced, Solvent, Legal, CAPITAL_A, SMALL_A;
    var b1 := FirstDeposit(b, dep);
    var b2 := ToItselfInTwoSpellings(b1, op);
    assert Legal(b1, Move(op)) by { StillLegal(b1, op); }
    ServeMove(b, dep);
    ServeMove(b1, op);
    RunOfTwo(b, Move(dep), Move(op));
    SurplusUnbalances(b2, SMALL_A);
  }

  lemma SurplusUnbalances(b: Book, id: AccountId)
    requires id in b.accounts && Surplus(b, id) != 0
    ensures !Balanced(b)
  {}

  lemma StillLegal(b: Book, op: Op)
    requires op.Transfer? && op.reference == "TRF-1" && |b.entries| == 1 && b.entries[0].reference == "DEP-1"
    ensures Legal(b, Move(op))
  {
    assert "DEP-1"[0] != "TRF-1"[0];
  }

  lemma FirstDeposit(b: Book, dep: Op) returns (b1: Book)
    requires EmptyBank(b) && dep.Deposit? && dep.amount > 0 && dep.kind == DEPOSIT_ENTRY
    requires dep.account in b.accounts && b.accounts[dep.account].status == ACTIVE
    ensures Step(b, dep).Committed? && b1 == Step(b, dep).book && Solvent(b1)
    ensures b1.accounts == b.accounts[dep.account := b.accounts[dep.account].(balance := dep.amount)]
    ensures |b1.entries| == 1 && b1.entries[0].reference == dep.reference
    ensures forall id, since :: WithdrawnSince(b1.entries, id, since) == 0
    ensures Surplus(b1, dep.account) == 0
  {
    hide Step, Surplus, SumFor, Drift, TwoCopies, WithdrawnSince;
    DepositMeans(b, dep);
    b1 := Step(b, dep).book;
    StepKeepsSolvent(b, dep);
    EmptyBankHasNoSurplus(b, dep.account);
    NothingToFind(b, dep);
    StepDrifts(b, dep, dep.account);
    DepositIsNoWithdrawal(b1.entries);
  }

  lemma DepositIsNoWithdrawal(es: seq<Entry>)
    requires |es| == 1 && es[0].kind == DEPOSIT_ENTRY
    ensures forall id, since :: WithdrawnSince(es, id, since) == 0
  {
    assert es[..0] == [];
  }

  lemma ToItselfInTwoSpellings(b: Book, op: Op) returns (b': Book)
    requires Solvent(b) && op.Transfer? && op.from == CAPITAL_A && op.to == SMALL_A && op.amount > 0
    requires SMALL_A in b.accounts && b.accounts[SMALL_A].status == ACTIVE && Surplus(b, SMALL_A) == 0
    requires op.amount + op.fee <= b.accounts[SMALL_A].balance && op.amount + op.fee <= b.accounts[SMALL_A].dailyLimit
    requires WithdrawnSince(b.entries, SMALL_A, StartOfDay(op.now)) == 0
    ensures Step(b, op).Committed? && b' == Step(b, op).book && SMALL_A in b'.accounts
    ensures b'.accounts[SMALL_A].balance == b.accounts[SMALL_A].balance + op.amount
    ensures Surplus(b', SMALL_A) == op.amount + op.fee
  {
    FourSpellings();
    CopiesExactly(op);
    CopiesShareTheRow(op);
    TransferMeans(b, op);
    hide Row, Less, Step, First, WithdrawnSince, SumFor;
    b' := Step(b, op).book;
    StepDrifts(b, op, SMALL_A);
  }

  /** Between two accounts, the sender written in capitals: the sender is never debited, and the receiver
      pays the fee of a transfer to itself. */
  lemma ReceiverPays(b: Book, op: Op)
    requires Solvent(b) && op.Transfer? && op.from == CAPITAL_A && op.to == SMALL_B && op.amount > 0
    requires SMALL_A in b.accounts && SMALL_B in b.accounts && b.accounts[SMALL_B].status == ACTIVE
    requires op.amount + op.fee <= b.accounts[SMALL_B].balance
    requires WithdrawnSince(b.entries, SMALL_B, StartOfDay(op.now)) + op.amount + op.fee <= b.accounts[SMALL_B].dailyLimit
    ensures Step(b, op).Committed?
    ensures Step(b, op).book.accounts == b.accounts[SMALL_B := b.accounts[SMALL_B].(balance := b.accounts[SMALL_B].balance - op.fee)]
  {
    hide Row, Less, Step, Payer, Payee, TwoCopies, WithdrawnSince, TransferEntries, CAPITAL_A, SMALL_A, SMALL_B;
    SecondRowIsBoth(op);
    TransferMeans(b, op);
  }

  lemma SecondRowIsBoth(op: Op)
    requires op.Transfer? && op.from == CAPITAL_A && op.to == SMALL_B
    ensures op.from != op.to && Row(op.from) == SMALL_A && Row(op.to) == SMALL_B
    ensures Payer(op) == Payee(op) == SMALL_B && !TwoCopies(op)
  {
    FourSpellings();
    OneRowPaysItself(op);
    LessIsAsymmetric(CAPITAL_A, SMALL_B);
    hide Less, Lower;
  }
}
