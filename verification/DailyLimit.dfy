/** The daily withdrawal limit. */
module DailyLimit {
  import opened AccountIds
  import opened AccountState
  import opened Entities
  import opened Ledger
  import opened LedgerInvariants
  import opened LedgerTransfer
  import V = ValidationChain

  /** What left an account on one day, counted in days of 86,400,000 milliseconds, by withdrawal or
      outgoing transfer; fees do not count. */
  function DayTotal(es: seq<Entry>, id: AccountId, day: int): int {
    if es == [] then 0
    else DayTotal(es[..|es| - 1], id, day) + DayShare(es[|es| - 1], id, day)
  }

  function DayShare(e: Entry, id: AccountId, day: int): int {
    if e.account == id && (e.kind == WITHDRAWAL_ENTRY || e.kind == TRANSFER_OUT) && e.createdAt / 86_400_000 == day
    then -e.amount
    else 0
  }

  lemma DayTotalAppend(es: seq<Entry>, e: Entry, id: AccountId, day: int)
    ensures DayTotal(es + [e], id, day) == DayTotal(es, id, day) + DayShare(e, id, day)
  {}

  lemma {:induction false} DayTotalConcat(es: seq<Entry>, fs: seq<Entry>, id: AccountId, day: int)
    ensures DayTotal(es + fs, id, day) == DayTotal(es, id, day) + DayTotal(fs, id, day)
    decreases |fs|
  {
    if fs == [] {
      assert es + fs == es;
    } else {
      var last := fs[|fs| - 1];
      assert es + fs == (es + fs[..|fs| - 1]) + [last];
      DayTotalAppend(es + fs[..|fs| - 1], last, id, day);
      DayTotalConcat(es, fs[..|fs| - 1], id, day);
    }
  }

  predicate CountedAreDebits(es: seq<Entry>) {
    forall e :: e in es && (e.kind == WITHDRAWAL_ENTRY || e.kind == TRANSFER_OUT) ==> e.amount < 0
  }

  /** What the query adds up is at least what was taken out on the day of `now`, whatever the clock did;
      it is exactly that when the account has no such entry of a later day. */
  lemma {:induction false} QueryCoversTheDay(es: seq<Entry>, id: AccountId, now: int)
    requires CountedAreDebits(es)
    ensures DayTotal(es, id, now / 86_400_000) <= WithdrawnSince(es, id, StartOfDay(now))
    ensures DayTotal(es, id, now / 86_400_000) == WithdrawnSince(es, id, StartOfDay(now)) <==>
      forall e :: e in es && e.account == id && (e.kind == WITHDRAWAL_ENTRY || e.kind == TRANSFER_OUT) ==>
        e.createdAt / 86_400_000 <= now / 86_400_000
  {
    if es != [] {
      QueryCoversTheDay(es[..|es| - 1], id, now);
      var last := es[|es| - 1];
      SinceMidnight(last.createdAt, now);
      assert es == es[..|es| - 1] + [last];
      assert last in es;
    }
  }

  /** Without an entry of a later day the query adds up the day of `now` and nothing else. */
  lemma {:induction false} QueryIsTheDay(es: seq<Entry>, id: AccountId, now: int)
    requires forall e :: e in es ==> e.createdAt / 86_400_000 <= now / 86_400_000
    ensures WithdrawnSince(es, id, StartOfDay(now)) == DayTotal(es, id, now / 86_400_000)
  {
    if es != [] {
      QueryIsTheDay(es[..|es| - 1], id, now);
      SinceMidnight(es[|es| - 1].createdAt, now);
    }
  }

  /** A time is past the midnight before `now` exactly when its day is that of `now` or a later one. */
  lemma SinceMidnight(t: int, now: int)
    ensures t >= StartOfDay(now) <==> t / 86_400_000 >= now / 86_400_000
  {}

  ghost predicate WithinLimits(b: Book) {
    && CountedAreDebits(b.entries)
    && forall id, day :: id in b.accounts ==> Within(DayTotal(b.entries, id, day), b.accounts[id].dailyLimit)
  }

  predicate Within(total: int, limit: int) { total <= 0 || total <= limit }

  /** With no entry of a later day, a withdrawal commits exactly when it is a positive amount covered by
      the balance and by what the limit leaves of this day; beyond that the limit refuses it. */
  lemma WithdrawalOfTheDay(b: Book, op: Op)
    requires op.Withdraw?
    requires forall e :: e in b.entries ==> e.createdAt / 86_400_000 <= op.now / 86_400_000
    requires op.account in b.accounts && b.accounts[op.account].status == ACTIVE
    requires 0 < op.amount <= b.accounts[op.account].balance
    ensures DayTotal(b.entries, op.account, op.now / 86_400_000) + op.amount <= b.accounts[op.account].dailyLimit
            <==> Step(b, op).Committed?
    ensures Step(b, op).Refused? ==> Step(b, op).why == DailyLimitExceeded
  {
    QueryIsTheDay(b.entries, op.account, op.now);
    WithdrawMeans(b, op);
    var rows := SingleLock(b, op);
    V.ObjectionsInOrder(V.Context(V.WITHDRAWAL, op.amount, rows[op.account], Withdrawn(b.entries, op)));
  }

  /** The same for a transfer to an open account of the same currency: the day must bear the fee too. */
  lemma TransferOfTheDay(b: Book, op: Op)
    requires Solvent(b) && op.Transfer?
    requires forall e :: e in b.entries ==> e.createdAt / 86_400_000 <= op.now / 86_400_000
    requires op.from != op.to && Row(op.from) in b.accounts && Row(op.to) in b.accounts
    requires b.accounts[Payer(op)].currency == b.accounts[Payee(op)].currency
    requires b.accounts[Payer(op)].status == ACTIVE && b.accounts[Payee(op)].status != CLOSED
    requires 0 < op.amount && op.amount + op.fee <= b.accounts[Payer(op)].balance
    ensures DayTotal(b.entries, Payer(op), op.now / 86_400_000) + op.amount + op.fee <= b.accounts[Payer(op)].dailyLimit
            <==> Step(b, op).Committed?
    ensures Step(b, op).Refused? ==> Step(b, op).why == DailyLimitExceeded
  {
    hide Step, Row, Less, Payer, Payee, LockOrder;
    QueryIsTheDay(b.entries, Payer(op), op.now);
    TransferMeans(b, op);
    var rows := TransferLocks(b, op);
    V.ObjectionsInOrder(V.Context(V.WITHDRAWAL, op.amount + op.fee, rows[Payer(op)], Withdrawn(b.entries, op)));
    StepOnLockedRows(b, op, rows);
  }

  /** The types the callers of the service pass: only interest overrides the default. */
  predicate Ordinary(op: Op) {
    && (op.Deposit? ==> op.kind == DEPOSIT_ENTRY || op.kind == INTEREST)
    && (op.Withdraw? ==> op.kind == WITHDRAWAL_ENTRY)
  }

  /** What an operation counts against the limit of an account: the amount, never the fee. */
  function Charge(op: Op, id: AccountId): int {
    match op
    case Withdraw(a, amount, _, _, _, _) => if a == id then amount else 0
    case Transfer(_, _, amount, _, _, _, _) => if Payer(op) == id then amount else 0
    case _ => 0
  }

  lemma {:induction false} NothingCounts(es: seq<Entry>, id: AccountId, day: int)
    requires forall e :: e in es ==> e.kind != WITHDRAWAL_ENTRY && e.kind != TRANSFER_OUT
    ensures DayTotal(es, id, day) == 0
  {
    if es != [] { NothingCounts(es[..|es| - 1], id, day); }
  }

  /** The day a committed operation runs on is charged its amount; no other day changes. */
  lemma StepCharges(b: Book, op: Op, id: AccountId, day: int)
    requires Solvent(b) && Ordinary(op) && Step(b, op).Committed?
    ensures DayTotal(Step(b, op).book.entries, id, day)
            == DayTotal(b.entries, id, day) + if day == op.now / 86_400_000 then Charge(op, id) else 0
  {
    hide Step, Solvent, DayTotal;
    match op
    case Deposit(_, _, _, _, _, _) =>
      DepositMeans(b, op);
      DayTotalAppend(b.entries, Step(b, op).book.entries[|b.entries|], id, day);
    case Withdraw(_, _, _, _, _, _) =>
      WithdrawMeans(b, op);
      DayTotalAppend(b.entries, Step(b, op).book.entries[|b.entries|], id, day);
    case Transfer(_, _, _, _, _, _, _) =>
      TransferMeans(b, op);
      TransferCharges(b, op, id, day);
    case Reverse(_, _, _, _) =>
      var written := ReversalsAreReversals(b, op);
      NothingCounts(written, id, day);
      DayTotalConcat(b.entries, written, id, day);
  }

  lemma TransferCharges(b: Book, op: Op, id: AccountId, day: int)
    requires op.Transfer? && Payer(op) in b.accounts && Payee(op) in b.accounts
    ensures DayTotal(b.entries + TransferEntries(b, op), id, day)
            == DayTotal(b.entries, id, day) + if day == op.now / 86_400_000 then Charge(op, id) else 0
  {
    hide Payer, Payee, TwoCopies, Text;
    var es := TransferEntries(b, op);
    DayTotalConcat(b.entries, es, id, day);
    DayTotalConcat([es[0]], es[1..], id, day);
    assert es == [es[0]] + es[1..];
    DayTotalAppend([], es[0], id, day);
    assert [] + [es[0]] == [es[0]];
    NothingCounts(es[1..], id, day);
  }

  lemma ReversalsAreReversals(b: Book, op: Op) returns (written: seq<Entry>)
    requires op.Reverse? && Step(b, op).Committed?
    ensures Step(b, op).book.entries == b.entries + written
    ensures forall e :: e in written ==> e.kind == REVERSAL && e.description == "REVERSAL_OF:" + op.original
  {
    var rows, ps;
    rows, ps, written := StepWrites(b, op);
    forall e | e in written ensures e.kind == REVERSAL && e.description == "REVERSAL_OF:" + op.original {
      var i :| 0 <= i < |written| && written[i] == e;
    }
  }

  lemma StepKeepsDebits(b: Book, op: Op)
    requires Solvent(b) && Ordinary(op) && Step(b, op).Committed? && CountedAreDebits(b.entries)
    ensures CountedAreDebits(Step(b, op).book.entries)
  {
    hide Step, Solvent;
    match op
    case Deposit(_, _, _, _, _, _) => DepositMeans(b, op);
    case Withdraw(_, _, _, _, _, _) => WithdrawMeans(b, op);
    case Transfer(_, _, _, _, _, _, _) => TransferMeans(b, op);
    case Reverse(_, _, _, _) => var _ := ReversalsAreReversals(b, op);
  }

  /** No operation takes an account over its daily limit. */
  lemma StepKeepsLimits(b: Book, op: Op)
    requires Solvent(b) && Ordinary(op) && WithinLimits(b) && Step(b, op).Committed?
    ensures WithinLimits(Step(b, op).book)
  {
    StepKeepsDebits(b, op);
    StepFrame(b, op);
    var b' := Step(b, op).book;
    forall id, day | id in b'.accounts
      ensures Within(DayTotal(b'.entries, id, day), b'.accounts[id].dailyLimit)
    {
      StepCharges(b, op, id, day);
      assert b'.accounts[id].(balance := 0) == b.accounts[id].(balance := 0);
      assert Within(DayTotal(b.entries, id, day), b.accounts[id].dailyLimit);
      if day == op.now / 86_400_000 {
        QueryCoversTheDay(b.entries, id, op.now);
        if op.Withdraw? { WithdrawMeans(b, op); }
        if op.Transfer? { TransferMeans(b, op); }
      }
    }
  }

  /** An account whose limit is zero has never been debited by withdrawal or transfer. */
  lemma {:induction false} NoLimitNoWithdrawal(es: seq<Entry>, id: AccountId)
    requires CountedAreDebits(es) && forall day :: DayTotal(es, id, day) <= 0
    ensures forall e :: e in es && e.account == id ==> e.kind != WITHDRAWAL_ENTRY && e.kind != TRANSFER_OUT
  {
    if e :| e in es && e.account == id && (e.kind == WITHDRAWAL_ENTRY || e.kind == TRANSFER_OUT) {
      var k :| 0 <= k < |es| && es[k] == e;
      var day := e.createdAt / 86_400_000;
      assert es == (es[..k] + [e]) + es[k + 1..];
      DayTotalConcat(es[..k] + [e], es[k + 1..], id, day);
      DayTotalAppend(es[..k], e, id, day);
      DebitsAddUp(es[..k], id, day);
      DebitsAddUp(es[k + 1..], id, day);
    }
  }

  lemma {:induction false} DebitsAddUp(es: seq<Entry>, id: AccountId, day: int)
    requires CountedAreDebits(es)
    ensures DayTotal(es, id, day) >= 0
  {
    if es != [] { DebitsAddUp(es[..|es| - 1], id, day); }
  }
}
