/** What a caller is told: for every request, whether it is refused and which reason comes first. */
module Refusals {
  import opened Wrappers
  import opened AccountIds
  import opened AccountState
  import opened Entities
  import opened Ledger
  import opened LedgerInvariants
  import opened LedgerTransfer
  import opened Reversal
  import V = ValidationChain

  function Reason(o: Outcome): Option<Refusal> {
    match o
    case Committed(_, _) => None
    case Refused(why) => Some(why)
  }

  lemma DepositReason(b: Book, op: Op)
    requires Solvent(b) && op.Deposit?
    ensures Reason(Step(b, op)) ==
      if op.account !in b.accounts then Some(AccountNotFound(op.account))
      else if op.amount <= 0 then Some(AmountNotPositive)
      else if b.accounts[op.account].status == CLOSED then Some(StatusForbids)
      else None
  {
    DepositMeans(b, op);
    hide Step, Solvent;
    var rows := SingleLock(b, op);
    if op.account in b.accounts {
      V.ObjectionsInOrder(V.Context(V.DEPOSIT, op.amount, rows[op.account], 0));
    }
  }

  lemma WithdrawalReason(b: Book, op: Op)
    requires op.Withdraw?
    ensures Reason(Step(b, op)) ==
      if op.account !in b.accounts then Some(AccountNotFound(op.account))
      else
        var row := b.accounts[op.account];
        if op.amount <= 0 then Some(AmountNotPositive)
        else if row.status != ACTIVE then Some(StatusForbids)
        else if op.amount > row.balance then Some(InsufficientFunds)
        else if WithdrawnSince(b.entries, op.account, StartOfDay(op.now)) + op.amount > row.dailyLimit
        then Some(DailyLimitExceeded)
        else None
  {
    WithdrawMeans(b, op);
    hide Step, WithdrawnSince;
    var rows := SingleLock(b, op);
    if op.account in b.accounts {
      V.ObjectionsInOrder(V.Context(V.WITHDRAWAL, op.amount, rows[op.account], Withdrawn(b.entries, op)));
    }
  }

  /** A transfer is checked in this order: the two texts, the two rows as they are locked, the
      currencies, the payer for amount and fee, the payee for the amount. */
  lemma TransferReason(b: Book, op: Op)
    requires Solvent(b) && op.Transfer?
    ensures Row(First(op)) in b.accounts && Row(Second(op)) in b.accounts ==> Payer(op) in b.accounts && Payee(op) in b.accounts
    ensures Reason(Step(b, op)) ==
      if op.from == op.to then Some(SameAccount)
      else if Row(First(op)) !in b.accounts then Some(AccountNotFound(Row(First(op))))
      else if Row(Second(op)) !in b.accounts then Some(AccountNotFound(Row(Second(op))))
      else
        var payer, payee, debit := b.accounts[Payer(op)], b.accounts[Payee(op)], op.amount + op.fee;
        if payer.currency != payee.currency then Some(CrossCurrency)
        else if debit <= 0 then Some(AmountNotPositive)
        else if payer.status != ACTIVE then Some(StatusForbids)
        else if debit > payer.balance then Some(InsufficientFunds)
        else if WithdrawnSince(b.entries, Payer(op), StartOfDay(op.now)) + debit > payer.dailyLimit then Some(DailyLimitExceeded)
        else if op.amount <= 0 then Some(AmountNotPositive)
        else if payee.status == CLOSED then Some(StatusForbids)
        else None
  {
    TransferLockOrder(op);
    if op.from != op.to {
      if Row(op.from) in b.accounts && Row(op.to) in b.accounts {
        LockedTransferReason(b, op);
      } else {
        MissingRow(b, op);
      }
    }
    hide Step, Solvent, Less, Row, Payer, Payee, LockOrder, WithdrawnSince;
    assert op.from == op.to ==> EarlyRefusal(b.entries, op) == Some(SameAccount);
    if op.from == op.to { EarlyStep(b, op); }
  }

  lemma MissingRow(b: Book, op: Op)
    requires op.Transfer? && op.from != op.to && (Row(op.from) !in b.accounts || Row(op.to) !in b.accounts)
    ensures Step(b, op) == Refused(AccountNotFound(
      if Row(First(op)) !in b.accounts then Row(First(op)) else Row(Second(op))))
    ensures Row(First(op)) !in b.accounts || Row(Second(op)) !in b.accounts
  {
    hide Step, Less, Row, Payer, Payee;
    var x, y := Row(First(op)), Row(Second(op));
    assert LockOrder(op) == if x == y then [x] else [x, y];
    assert [x, y][1..] == [y];
    assert LockAll(b.accounts, LockOrder(op)) == Failure(AccountNotFound(if x !in b.accounts then x else y));
    UnlockedStep(b, op);
  }

  lemma LockedTransferReason(b: Book, op: Op)
    requires Solvent(b) && op.Transfer? && op.from != op.to && Row(op.from) in b.accounts && Row(op.to) in b.accounts
    ensures Payer(op) in b.accounts && Payee(op) in b.accounts
    ensures Row(First(op)) in b.accounts && Row(Second(op)) in b.accounts
    ensures Reason(Step(b, op)) ==
      var payer, payee, debit := b.accounts[Payer(op)], b.accounts[Payee(op)], op.amount + op.fee;
      if payer.currency != payee.currency then Some(CrossCurrency)
      else if debit <= 0 then Some(AmountNotPositive)
      else if payer.status != ACTIVE then Some(StatusForbids)
      else if debit > payer.balance then Some(InsufficientFunds)
      else if WithdrawnSince(b.entries, Payer(op), StartOfDay(op.now)) + debit > payer.dailyLimit then Some(DailyLimitExceeded)
      else if op.amount <= 0 then Some(AmountNotPositive)
      else if payee.status == CLOSED then Some(StatusForbids)
      else None
  {
    hide Step, Solvent, Less, Row, Payer, Payee, LockOrder, WithdrawnSince;
    var rows := TransferLocks(b, op);
    TransferMeans(b, op);
    TransferDecision(b, op, rows);
    StepOnLockedRows(b, op, rows);
    V.ObjectionsInOrder(V.Context(V.WITHDRAWAL, op.amount + op.fee, rows[Payer(op)], Withdrawn(b.entries, op)));
    V.ObjectionsInOrder(V.Context(V.DEPOSIT, op.amount, rows[Payee(op)], 0));
  }

  /** A reversal is refused for the mark of an earlier one, for want of entries, or at the first entry
      that would leave its account below zero. */
  lemma ReversalReason(b: Book, op: Op) returns (k: nat)
    requires Solvent(b) && op.Reverse? && Answers(b.entries, op)
    ensures
      var marked := exists e :: e in b.entries && e.description == "REVERSAL_OF:" + op.original;
      var known := exists e :: e in b.entries && e.reference == op.original;
      && (marked ==> Reason(Step(b, op)) == Some(AlreadyReversed))
      && (!marked && !known ==> Reason(Step(b, op)) == Some(NoSuchTransaction))
    ensures
      var marked := exists e :: e in b.entries && e.description == "REVERSAL_OF:" + op.original;
      var known := exists e :: e in b.entries && e.reference == op.original;
      !marked && known && Step(b, op).Refused? ==>
      && k < |op.found| && op.found[k].account in b.accounts
      && Step(b, op).why == NotEnoughBalance(op.found[k].account)
      && b.accounts[op.found[k].account].balance < SumFor(op.found[..k + 1], op.found[k].account)
      && BearableInOrder(b, op.found[..k])
  {
    hide Step, Solvent, SumFor, Answers, BearableInOrder;
    k := 0;
    MarkIsAText(b.entries, op.original);
    assert EntriesOf(b.entries, op.original) == [] <==> forall e :: e in b.entries ==> e.reference != op.original by {
      EntriesOfMembers(b.entries, op.original);
      if EntriesOf(b.entries, op.original) != [] { assert EntriesOf(b.entries, op.original)[0] in b.entries; }
    }
    FoundIsReal(b, op);
    if EarlyRefusal(b.entries, op).Some? {
      EarlyStep(b, op);
    } else if Step(b, op).Refused? {
      k := StopsAt(b, op);
    }
  }

  lemma MarkIsAText(es: seq<Entry>, original: string)
    ensures MarkedReversed(es, original) <==> exists e :: e in es && e.description == "REVERSAL_OF:" + original
  {}

  lemma StopsAt(b: Book, op: Op) returns (k: nat)
    requires Solvent(b) && op.Reverse? && Answers(b.entries, op) && EarlyRefusal(b.entries, op).None? && Step(b, op).Refused?
    ensures k < |op.found| && op.found[k].account in b.accounts
    ensures Step(b, op).why == NotEnoughBalance(op.found[k].account)
    ensures b.accounts[op.found[k].account].balance < SumFor(op.found[..k + 1], op.found[k].account)
    ensures BearableInOrder(b, op.found[..k])
  {
    hide Step, SumFor, Answers, PostAll, PostSum, LockOrder, BearableInOrder, Bears;
    var rows := ReverseRows(b, op);
    StepOnLockedRows(b, op, rows);
    var ps := Negations(op.original, op.found);
    DecidedPostable(op, rows, 0);
    k := PostAllStops(Workspace(rows, []), ps, op.reference, op.now);
    var id := op.found[k].account;
    assert ps[..k + 1] == Negations(op.original, op.found[..k + 1]) && ps[..k] == Negations(op.original, op.found[..k]);
    NegationSums(op.original, op.found[..k + 1], id);
    PrefixBears(b, op, rows, k);
  }

  lemma PrefixBears(b: Book, op: Op, rows: map<AccountId, Account>, k: nat)
    requires Solvent(b) && op.Reverse? && k <= |op.found|
    requires forall id :: id in rows <==> id in LockOrder(op)
    requires forall id :: id in rows ==> id in b.accounts && rows[id] == b.accounts[id]
    requires Bears(rows, Negations(op.original, op.found)[..k])
    ensures BearableInOrder(b, op.found[..k])
  {
    hide SumFor, PostSum, LockOrder, Negations;
    var ps := Negations(op.original, op.found);
    forall j, id | 0 <= j <= k && id in b.accounts ensures b.accounts[id].balance - SumFor(op.found[..k][..j], id) >= 0 {
      assert op.found[..k][..j] == op.found[..j] && ps[..k][..j] == ps[..j];
      assert ps[..j] == Negations(op.original, op.found[..j]);
      NegationSums(op.original, op.found[..j], id);
      if id in rows {
        assert rows[id].balance + PostSum(ps[..k][..j], id) >= 0;
      } else {
        NegationsAreLocked(op);
        SumForOthers(op.found[..j], id);
        NotNegative(b, id);
      }
    }
  }

  lemma NotNegative(b: Book, id: AccountId)
    requires Solvent(b) && id in b.accounts
    ensures b.accounts[id].balance >= 0
  {}

  /** Posting stops at the first posting its account cannot bear. */
  lemma {:induction false} PostAllStops(w: Workspace, ps: seq<Posting>, reference: string, now: int) returns (k: nat)
    requires Postable(w.rows, ps) && NoneMissed(ps) && PostAll(w, ps, reference, now).Failure?
    requires forall id :: id in w.rows ==> w.rows[id].balance >= 0
    ensures k < |ps| && ps[k].account in w.rows
    ensures PostAll(w, ps, reference, now).error == NotEnoughBalance(ps[k].account)
    ensures w.rows[ps[k].account].balance + PostSum(ps[..k + 1], ps[k].account) < 0
    ensures Bears(w.rows, ps[..k])
    decreases |ps|
  {
    if BalanceLeft(w.rows, ps[0]) < 0 {
      k := 0;
      assert ps[..1][1..] == [];
    } else {
      var j := PostAllStops(Posted(w, ps[0], reference, now), ps[1..], reference, now);
      k := j + 1;
      assert ps[1..][..j] == ps[..k][1..] && ps[1..][..j + 1] == ps[..k + 1][1..];
      BearsCons(w.rows, ps[..k]);
      hide Bears;
    }
  }
}
