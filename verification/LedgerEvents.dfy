/** What the ledger publishes: every event of a committed operation passes its contract. */
module LedgerEvents {
  import opened Wrappers
  import opened AccountIds
  import opened DomainEvents
  import opened Entities
  import opened Ledger
  import opened LedgerInvariants
  import opened LedgerTransfer
  import V = ValidationChain

  /** The text by which an operation's k-th event names its account: for a transfer the sender, as the
      caller wrote it. */
  function Subject(op: Op, k: nat): AccountId
    requires op.Reverse? ==> k < |op.found|
  {
    match op
    case Deposit(a, _, _, _, _, _) => a
    case Withdraw(a, _, _, _, _, _) => a
    case Transfer(a, _, _, _, _, _, _) => a
    case Reverse(_, found, _, _) => found[k].account
  }

  /** Every event the ledger publishes satisfies the schema its consumers check, carries the operation's
      reference, and is keyed by a text of an account the operation locked: the row's own id, or for a
      transfer the sender's text. A reference that is not empty is all it takes: validation has already
      ruled out amounts the schema would reject. */
  lemma CommittedEventsAreValid(b: Book, op: Op, k: nat)
    requires Step(b, op).Committed?
    requires op.reference != "" && (op.Reverse? ==> op.original != "")
    requires k < |Step(b, op).events|
    ensures ValidPayload(Step(b, op).events[k])
    ensures Step(b, op).events[k].payload["reference"] == Text(op.reference)
    ensures (op.Reverse? ==> k < |op.found|) && PartitionKey(Step(b, op).events[k]) == Some(Id(Subject(op, k)))
    ensures (if op.Transfer? then Row(Subject(op, k)) else Subject(op, k)) in LockOrder(op)
  {
    var rows, ps, w := CommittedRuns(b, op);
    assert Step(b, op).events == EventsOf(op, w.rows);
    if !op.Reverse? { AmountIsPositive(b, op); }
    hide *;
    EventsOfAreValid(op, w.rows, k);
  }

  lemma EventsOfAreValid(op: Op, rows: map<AccountId, Account>, k: nat)
    requires Covers(rows, op) && (!op.Reverse? ==> op.amount > 0)
    requires op.reference != "" && (op.Reverse? ==> op.original != "")
    requires k < |EventsOf(op, rows)|
    ensures ValidPayload(EventsOf(op, rows)[k])
    ensures EventsOf(op, rows)[k].payload["reference"] == Text(op.reference)
    ensures (op.Reverse? ==> k < |op.found|) && PartitionKey(EventsOf(op, rows)[k]) == Some(Id(Subject(op, k)))
    ensures (if op.Transfer? then Row(Subject(op, k)) else Subject(op, k)) in LockOrder(op)
  {
    hide ValidPayload, PartitionKey, LockOrder, Row, Less;
    match op
    case Deposit(a, amount, _, _, _, _) =>
      AccountIsLocked(op);
      MovementEventValid(MONEY_DEPOSITED, a, amount, rows[a].balance, op.reference);
    case Withdraw(a, amount, _, _, _, _) =>
      AccountIsLocked(op);
      MovementEventValid(MONEY_WITHDRAWN, a, amount, rows[a].balance, op.reference);
    case Transfer(a, z, amount, fee, _, _, _) =>
      TransferLockOrder(op);
      TransferEventValid(a, z, amount, fee, op.reference);
    case Reverse(original, found, _, _) =>
      NegationsAreLocked(op);
      ReversalEventValid(found[k].account, original, op.reference, -found[k].amount);
  }

  lemma AmountIsPositive(b: Book, op: Op)
    requires Step(b, op).Committed? && !op.Reverse?
    ensures op.amount > 0
  {
    var rows, ps, w := CommittedRuns(b, op);
    hide Step, PostAll, LockOrder, Less, Row, Payer, Payee, WithdrawnSince, MarkedReversed;
    if op.Transfer? {
      RolesAreLocked(op);
      V.ValidMeans(V.Context(V.DEPOSIT, op.amount, rows[Payee(op)], 0));
    } else {
      AccountIsLocked(op);
      V.ValidMeans(V.Context(if op.Deposit? then V.DEPOSIT else V.WITHDRAWAL, op.amount, rows[op.account], Withdrawn(b.entries, op)));
    }
  }

  lemma MovementEventValid(t: EventType, a: AccountId, amount: int, balance: int, reference: string)
    requires t == MONEY_DEPOSITED || t == MONEY_WITHDRAWN
    requires amount > 0 && reference != ""
    ensures var e := DomainEvent(t, map["accountId" := Id(a), "amountMinor" := Whole(amount),
        "balanceAfterMinor" := Whole(balance), "reference" := Text(reference)]);
      ValidPayload(e) && PartitionKey(e) == Some(Id(a))
  {}

  lemma TransferEventValid(a: AccountId, z: AccountId, amount: int, fee: nat, reference: string)
    requires amount > 0 && reference != ""
    ensures var e := DomainEvent(MONEY_TRANSFERRED, map["fromAccountId" := Id(a), "toAccountId" := Id(z),
        "amountMinor" := Whole(amount), "feeMinor" := Whole(fee), "reference" := Text(reference)]);
      ValidPayload(e) && PartitionKey(e) == Some(Id(a))
  {}

  lemma ReversalEventValid(a: AccountId, original: string, reference: string, amount: int)
    requires original != "" && reference != ""
    ensures var e := DomainEvent(TRANSACTION_REVERSED, map["accountId" := Id(a), "originalReference" := Text(original),
        "reference" := Text(reference), "amountMinor" := Whole(amount)]);
      ValidPayload(e) && PartitionKey(e) == Some(Id(a))
  {}

  /** The balance a deposit or withdrawal announces is the balance the table then shows. */
  lemma AnnouncedBalanceIsTheBalance(b: Book, op: Op)
    requires Solvent(b) && (op.Deposit? || op.Withdraw?) && Step(b, op).Committed?
    ensures op.account in b.accounts && op.account in Step(b, op).book.accounts
    ensures |Step(b, op).events| == 1
    ensures Step(b, op).events[0].payload["balanceAfterMinor"] == Whole(Step(b, op).book.accounts[op.account].balance)
  {
    var rows, ps, w := CommittedRuns(b, op);
    if op.Deposit? { DepositMeans(b, op); } else { WithdrawMeans(b, op); }
    AccountIsLocked(op);
  }

  // ---------- Events against the table ----------

  lemma PublishedEvents(b: Book, op: Op) returns (rows: map<AccountId, Account>)
    requires Step(b, op).Committed?
    ensures Covers(rows, op) && Step(b, op).events == EventsOf(op, rows)
    ensures forall id :: id in rows ==> id in Step(b, op).book.accounts && Step(b, op).book.accounts[id] == rows[id]
  {
    hide EventsOf;
    var locked, ps, w := CommittedRuns(b, op);
    rows := w.rows;
  }

  /** A deposit or withdrawal announces what the table shows: which account moved, which way and by
      how much. */
  lemma MovementIsAnnounced(b: Book, op: Op)
    requires Solvent(b) && (op.Deposit? || op.Withdraw?) && Step(b, op).Committed?
    ensures op.account in b.accounts && op.account in Step(b, op).book.accounts && |Step(b, op).events| == 1
    ensures var moved := Step(b, op).book.accounts[op.account].balance - b.accounts[op.account].balance;
      var e := Step(b, op).events[0];
      && e.payload["accountId"] == Id(op.account)
      && (moved > 0 ==> e.eventType == MONEY_DEPOSITED && e.payload["amountMinor"] == Whole(moved))
      && (moved < 0 ==> e.eventType == MONEY_WITHDRAWN && e.payload["amountMinor"] == Whole(-moved))
      && moved != 0
  {
    hide Step, Solvent, WithdrawnSince;
    var rows := PublishedEvents(b, op);
    AccountIsLocked(op);
    if op.Deposit? { DepositMeans(b, op); } else { WithdrawMeans(b, op); }
  }

  /** A transfer announces the two texts it was sent, what left the payer and what of that was the fee. */
  lemma TransferIsAnnounced(b: Book, op: Op)
    requires Solvent(b) && op.Transfer? && Step(b, op).Committed? && Payer(op) != Payee(op)
    ensures |Step(b, op).events| == 1
    ensures Payer(op) in b.accounts && Payee(op) in b.accounts
    ensures Payer(op) in Step(b, op).book.accounts && Payee(op) in Step(b, op).book.accounts
    ensures var before, after, e := b.accounts, Step(b, op).book.accounts, Step(b, op).events[0];
      && e.eventType == MONEY_TRANSFERRED
      && e.payload["fromAccountId"] == Id(op.from) && e.payload["toAccountId"] == Id(op.to)
      && e.payload["amountMinor"] == Whole(after[Payee(op)].balance - before[Payee(op)].balance)
      && e.payload["feeMinor"]
         == Whole(before[Payer(op)].balance - after[Payer(op)].balance - (after[Payee(op)].balance - before[Payee(op)].balance))
  {
    hide Step, Solvent, WithdrawnSince, Payer, Payee, LockOrder, TransferEntries;
    var rows := PublishedEvents(b, op);
    TransferMeans(b, op);
  }

  /** A reversal announces each entry it writes, in order: its account, its amount, the reference it
      cancels. */
  lemma ReversalIsAnnounced(b: Book, op: Op, k: nat)
    requires op.Reverse? && Step(b, op).Committed? && k < |Step(b, op).events|
    ensures |Step(b, op).book.entries| == |b.entries| + |Step(b, op).events|
    ensures var e, line := Step(b, op).events[k], Step(b, op).book.entries[|b.entries| + k];
      && e.eventType == TRANSACTION_REVERSED
      && e.payload["accountId"] == Id(line.account) && e.payload["amountMinor"] == Whole(line.amount)
      && e.payload["originalReference"] == Text(op.original) && e.payload["reference"] == Text(line.reference)
  {
    hide Step, MarkedReversed;
    var rows := PublishedEvents(b, op);
    var _, _, written := StepWrites(b, op);
  }
}
