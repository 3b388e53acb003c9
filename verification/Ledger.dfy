/** The ledger as values: what each operation reads, decides, posts and commits. */
module Ledger {
  import opened Wrappers
  import opened AccountIds
  import opened Entities
  import opened DomainEvents
  import V = ValidationChain

  datatype Book = Book(accounts: map<AccountId, Account>, entries: seq<Entry>)

  const REVERSAL_PREFIX := "REVERSAL_OF:"

  const DAY_MS := 86_400_000

  function StartOfDay(now: int): int {
    now - now % DAY_MS
  }

  /** One request. A transfer names its accounts by the texts it was sent, in any letter case; for the
      other operations a text does nothing but find its row, and they hold the row's id. `reference` is the number the generator hands out for it and `now` its clock
      reading; `found` is the answer of the query for the entries of the original transaction. */
  datatype Op =
    | Deposit(account: AccountId, amount: int, kind: EntryKind, description: string, reference: string, now: int)
    | Withdraw(account: AccountId, amount: int, kind: EntryKind, description: string, reference: string, now: int)
    | Transfer(from: AccountId, to: AccountId, amount: int, fee: nat, note: Option<string>, reference: string, now: int)
    | Reverse(original: string, found: seq<Entry>, reference: string, now: int)

  /** One call of `post`: a signed amount for an account. `missed` is by how much the object posted to
      has fallen behind its row, when another copy of the row was written since it was read. */
  datatype Posting = Posting(account: AccountId, kind: EntryKind, amount: int, description: string, missed: int := 0)

  /** What a transaction has locked and written so far. */
  datatype Workspace = Workspace(rows: map<AccountId, Account>, written: seq<Entry>)

  /** The table as the transaction would leave it. */
  function Overlay(b: Book, w: Workspace): Book {
    Book(b.accounts + w.rows, b.entries + w.written)
  }

  // ---------- Queries ----------

  function EntriesOf(es: seq<Entry>, reference: string): seq<Entry> {
    if es == [] then []
    else EntriesOf(es[..|es| - 1], reference) + if es[|es| - 1].reference == reference then [es[|es| - 1]] else []
  }

  predicate MarkedReversed(es: seq<Entry>, original: string) {
    exists i :: 0 <= i < |es| && es[i].description == REVERSAL_PREFIX + original
  }

  predicate CountsAsWithdrawal(e: Entry, account: AccountId) {
    e.account == account && (e.kind == WITHDRAWAL_ENTRY || e.kind == TRANSFER_OUT)
  }

  function WithdrawnSince(es: seq<Entry>, account: AccountId, since: int): int {
    if es == [] then 0
    else
      var last := es[|es| - 1];
      WithdrawnSince(es[..|es| - 1], account, since)
        - if CountsAsWithdrawal(last, account) && last.createdAt >= since then last.amount else 0
  }

  /** The database may return the entries of one reference in any order: they share one timestamp. */
  ghost predicate Answers(es: seq<Entry>, op: Op) {
    op.Reverse? ==> multiset(op.found) == multiset(EntriesOf(es, op.original))
  }

  // ---------- Locks ----------

  function Insert(id: AccountId, ids: seq<AccountId>): seq<AccountId> {
    if ids == [] || Less(id, ids[0]) then [id] + ids
    else if id == ids[0] then ids
    else [ids[0]] + Insert(id, ids[1..])
  }

  /** The distinct accounts of some entries, sorted. */
  function SortedAccounts(es: seq<Entry>): seq<AccountId> {
    if es == [] then [] else Insert(es[0].account, SortedAccounts(es[1..]))
  }

  /** The two texts of a transfer as they are sorted. */
  function First(op: Op): AccountId
    requires op.Transfer?
  {
    if Less(op.to, op.from) then op.to else op.from
  }

  function Second(op: Op): AccountId
    requires op.Transfer?
  {
    if Less(op.to, op.from) then op.from else op.to
  }

  /** The row that pays: the first one if its id is the sender's text, else the second. */
  function Payer(op: Op): AccountId
    requires op.Transfer?
  {
    if Row(First(op)) == op.from then Row(First(op)) else Row(Second(op))
  }

  /** The row that is paid, found the same way from the receiver's text. */
  function Payee(op: Op): AccountId
    requires op.Transfer?
  {
    if Row(First(op)) == op.to then Row(First(op)) else Row(Second(op))
  }

  /** Payer and payee are two objects read from one row. */
  predicate TwoCopies(op: Op) {
    && op.Transfer? && Row(op.from) == Row(op.to)
    && (Row(First(op)) == op.from) != (Row(First(op)) == op.to)
  }

  /** Payer and payee are one row, read once or twice. */
  predicate PaysItself(op: Op) {
    op.Transfer? && Payer(op) == Payee(op)
  }

  /** The rows an operation locks, each once: locking a row again changes nothing. */
  function LockOrder(op: Op): seq<AccountId> {
    match op
    case Deposit(a, _, _, _, _, _) => [a]
    case Withdraw(a, _, _, _, _, _) => [a]
    case Transfer(_, _, _, _, _, _, _) =>
      var first, second := Row(First(op)), Row(Second(op));
      if first == second then [first] else [first, second]
    case Reverse(_, found, _, _) => SortedAccounts(found)
  }

  function LockAll(accounts: map<AccountId, Account>, ids: seq<AccountId>): Result<map<AccountId, Account>, Refusal> {
    if ids == [] then Success(map[])
    else if ids[0] !in accounts then Failure(AccountNotFound(ids[0]))
    else
      var rest :- LockAll(accounts, ids[1..]);
      Success(rest[ids[0] := accounts[ids[0]]])
  }

  // ---------- Decisions ----------

  /** Refusals that need no lock: they come first. */
  function EarlyRefusal(es: seq<Entry>, op: Op): Option<Refusal> {
    match op
    case Transfer(a, b, _, _, _, _, _) => if a == b then Some(SameAccount) else None
    case Reverse(original, found, _, _) =>
      if MarkedReversed(es, original) then Some(AlreadyReversed)
      else if found == [] then Some(NoSuchTransaction)
      else None
    case _ => None
  }

  /** The money taken out today by the account that pays, read after the locks are held. */
  function Withdrawn(es: seq<Entry>, op: Op): int {
    match op
    case Withdraw(a, _, _, _, _, now) => WithdrawnSince(es, a, StartOfDay(now))
    case Transfer(_, _, _, _, _, _, now) => WithdrawnSince(es, Payer(op), StartOfDay(now))
    case _ => 0
  }

  function Negations(original: string, found: seq<Entry>): (ps: seq<Posting>)
    ensures |ps| == |found|
    ensures forall i :: 0 <= i < |ps| ==>
      ps[i] == Posting(found[i].account, REVERSAL, -found[i].amount, REVERSAL_PREFIX + original)
  {
    seq(|found|, i requires 0 <= i < |found| =>
      Posting(found[i].account, REVERSAL, -found[i].amount, REVERSAL_PREFIX + original))
  }

  /** The legs of a transfer: out, the fee if there is one, in. A second copy of the payer's row does
      not know of the first two. */
  function Legs(payer: AccountId, payee: AccountId, amount: int, fee: int, text: string, copies: bool): seq<Posting> {
    [Posting(payer, TRANSFER_OUT, -amount, text)]
    + (if fee > 0 then [Posting(payer, FEE, -fee, "Transfer fee")] else [])
    + [Posting(payee, TRANSFER_IN, amount, text, if copies then amount + fee else 0)]
  }

  function TransferText(note: Option<string>, payer: Account, payee: Account): string {
    if note.Some? then note.value else "Transfer " + payer.number + " -> " + payee.number
  }

  /** The accounts an operation needs are all among the rows it locked. */
  predicate Covers(rows: map<AccountId, Account>, op: Op) {
    forall id :: id in LockOrder(op) ==> id in rows
  }

  /** Validation, and the postings it permits. */
  function Decide(op: Op, rows: map<AccountId, Account>, withdrawn: int): Result<seq<Posting>, Refusal>
    requires Covers(rows, op)
  {
    match op
    case Deposit(a, amount, kind, description, _, _) =>
      assert a in LockOrder(op);
      var objection := V.Validate(V.Context(V.DEPOSIT, amount, rows[a], 0));
      if objection.Some? then Failure(objection.value) else Success([Posting(a, kind, amount, description)])
    case Withdraw(a, amount, kind, description, _, _) =>
      assert a in LockOrder(op);
      var objection := V.Validate(V.Context(V.WITHDRAWAL, amount, rows[a], withdrawn));
      if objection.Some? then Failure(objection.value) else Success([Posting(a, kind, -amount, description)])
    case Transfer(_, _, amount, fee, note, _, _) =>
      var a, b := Payer(op), Payee(op);
      assert a in LockOrder(op) && b in LockOrder(op);
      if rows[a].currency != rows[b].currency then Failure(CrossCurrency) else
      var debit := V.Validate(V.Context(V.WITHDRAWAL, amount + fee, rows[a], withdrawn));
      if debit.Some? then Failure(debit.value) else
      var credit := V.Validate(V.Context(V.DEPOSIT, amount, rows[b], 0));
      if credit.Some? then Failure(credit.value) else
      Success(Legs(a, b, amount, fee, TransferText(note, rows[a], rows[b]), TwoCopies(op)))
    case Reverse(original, found, _, _) =>
      Success(Negations(original, found))
  }

  // ---------- Posting ----------

  /** The balance a posting leaves: that of the object posted to, moved by the amount. */
  function BalanceLeft(rows: map<AccountId, Account>, p: Posting): int
    requires p.account in rows
  {
    rows[p.account].balance + p.missed + p.amount
  }

  /** One posting on top of what the transaction wrote so far. */
  function Posted(w: Workspace, p: Posting, reference: string, now: int): Workspace
    requires p.account in w.rows
  {
    var row := w.rows[p.account];
    var balance := BalanceLeft(w.rows, p);
    Workspace(w.rows[p.account := row.(balance := balance)],
              w.written + [Entry(p.account, p.kind, p.amount, balance, reference, p.description, now)])
  }

  predicate Postable(rows: map<AccountId, Account>, ps: seq<Posting>) {
    forall i :: 0 <= i < |ps| ==> ps[i].account in rows
  }

  /** The postings in order; one that would leave a balance below zero stops the transaction,
      either by the check of `reverse` or by the constraint on the balance column. */
  function PostAll(w: Workspace, ps: seq<Posting>, reference: string, now: int): Result<Workspace, Refusal>
    requires Postable(w.rows, ps)
    decreases |ps|
  {
    if ps == [] then Success(w)
    else if BalanceLeft(w.rows, ps[0]) < 0 then Failure(NotEnoughBalance(ps[0].account))
    else PostAll(Posted(w, ps[0], reference, now), ps[1..], reference, now)
  }

  // ---------- Events ----------

  function ReversalEvents(original: string, reference: string, found: seq<Entry>): (events: seq<DomainEvent>)
    ensures |events| == |found|
    ensures forall i :: 0 <= i < |events| ==>
      events[i] == DomainEvent(TRANSACTION_REVERSED,
        map["accountId" := Id(found[i].account), "originalReference" := Text(original),
            "reference" := Text(reference), "amountMinor" := Whole(-found[i].amount)])
  {
    seq(|found|, i requires 0 <= i < |found| =>
      DomainEvent(TRANSACTION_REVERSED,
        map["accountId" := Id(found[i].account), "originalReference" := Text(original),
            "reference" := Text(reference), "amountMinor" := Whole(-found[i].amount)]))
  }

  /** What is published once the transaction has committed with these rows. */
  function EventsOf(op: Op, rows: map<AccountId, Account>): seq<DomainEvent>
    requires Covers(rows, op)
  {
    match op
    case Deposit(a, amount, _, _, reference, _) =>
      assert a in LockOrder(op);
      [DomainEvent(MONEY_DEPOSITED, map["accountId" := Id(a), "amountMinor" := Whole(amount),
        "balanceAfterMinor" := Whole(rows[a].balance), "reference" := Text(reference)])]
    case Withdraw(a, amount, _, _, reference, _) =>
      assert a in LockOrder(op);
      [DomainEvent(MONEY_WITHDRAWN, map["accountId" := Id(a), "amountMinor" := Whole(amount),
        "balanceAfterMinor" := Whole(rows[a].balance), "reference" := Text(reference)])]
    case Transfer(a, b, amount, fee, _, reference, _) =>
      [DomainEvent(MONEY_TRANSFERRED, map["fromAccountId" := Id(a), "toAccountId" := Id(b),
        "amountMinor" := Whole(amount), "feeMinor" := Whole(fee), "reference" := Text(reference)])]
    case Reverse(original, found, reference, _) => ReversalEvents(original, reference, found)
  }

  // ---------- The whole operation ----------

  datatype Outcome = Committed(book: Book, events: seq<DomainEvent>) | Refused(why: Refusal)

  /** From the locks to the last posting: everything after the early refusals. */
  function Work(op: Op, rows: map<AccountId, Account>, withdrawn: int): Result<Workspace, Refusal>
    requires Covers(rows, op)
  {
    var ps :- Decide(op, rows, withdrawn);
    DecidedPostable(op, rows, withdrawn);
    PostAll(Workspace(rows, []), ps, op.reference, op.now)
  }

  /** One operation run alone: all of it, or nothing. */
  function Step(b: Book, op: Op): Outcome {
    var early := EarlyRefusal(b.entries, op);
    if early.Some? then Refused(early.value) else
    match LockAll(b.accounts, LockOrder(op))
    case Failure(why) => Refused(why)
    case Success(rows) =>
      LockAllYields(b.accounts, LockOrder(op));
      match Work(op, rows, Withdrawn(b.entries, op))
      case Failure(why) => Refused(why)
      case Success(w) =>
        WorkKeepsRows(op, rows, Withdrawn(b.entries, op));
        Committed(Overlay(b, w), EventsOf(op, w.rows))
  }

  // ---------- Facts about locks and postings ----------

  /** Strictly increasing ids. */
  predicate Increasing(ids: seq<AccountId>) {
    forall i, j :: 0 <= i < j < |ids| ==> Less(ids[i], ids[j])
  }

  lemma ConsIncreasing(id: AccountId, ids: seq<AccountId>)
    requires Increasing(ids) && forall x :: x in ids ==> Less(id, x)
    ensures Increasing([id] + ids)
  {
    forall i, j | 0 <= i < j < |[id] + ids| ensures Less(([id] + ids)[i], ([id] + ids)[j]) {
      assert ids[j - 1] in ids;
    }
  }

  lemma {:induction false} InsertSorts(id: AccountId, ids: seq<AccountId>)
    requires Increasing(ids)
    ensures Increasing(Insert(id, ids))
    ensures forall x :: x in Insert(id, ids) <==> x == id || x in ids
  {
    if ids != [] && !Less(id, ids[0]) && id != ids[0] {
      LessIsTotal(id, ids[0]);
      var rest := Insert(id, ids[1..]);
      InsertSorts(id, ids[1..]);
      assert Insert(id, ids) == [ids[0]] + rest;
      hide Insert;
      assert ids == [ids[0]] + ids[1..];
      forall x | x in rest ensures Less(ids[0], x) {
        if x in ids[1..] { var k :| 0 <= k < |ids[1..]| && ids[1..][k] == x; assert ids[k + 1] == x; }
      }
      ConsIncreasing(ids[0], rest);
    } else if ids != [] && Less(id, ids[0]) {
      forall x | x in ids ensures Less(id, x) {
        var k :| 0 <= k < |ids| && ids[k] == x;
        if k > 0 { LessIsTransitive(id, ids[0], x); }
      }
      ConsIncreasing(id, ids);
    }
  }

  lemma {:induction false} SortedAccountsSorts(es: seq<Entry>)
    ensures Increasing(SortedAccounts(es))
    ensures forall x :: x in SortedAccounts(es) <==> exists i :: 0 <= i < |es| && es[i].account == x
  {
    if es != [] {
      SortedAccountsSorts(es[1..]);
      InsertSorts(es[0].account, SortedAccounts(es[1..]));
      forall x ensures x in SortedAccounts(es) <==> exists i :: 0 <= i < |es| && es[i].account == x {
        if i :| 0 <= i < |es[1..]| && es[1..][i].account == x { assert es[i + 1].account == x; }
        if i :| 0 <= i < |es| && es[i].account == x && i > 0 { assert es[1..][i - 1].account == x; }
      }
    }
  }

  predicate Distinct(ids: seq<AccountId>) {
    forall i, j :: 0 <= i < j < |ids| ==> ids[i] != ids[j]
  }

  lemma IncreasingIsDistinct(ids: seq<AccountId>)
    requires Increasing(ids)
    ensures Distinct(ids)
  {
    forall i, j | 0 <= i < j < |ids| ensures ids[i] != ids[j] { LessIsAsymmetric(ids[i], ids[j]); }
  }

  /** The texts of a transfer sort as the rows they name do. */
  predicate InRowOrder(op: Op) {
    op.Transfer? ==> Row(First(op)) == Row(Second(op)) || Less(Row(First(op)), Row(Second(op)))
  }

  /** An operation locks each row once, and at least one unless it reverses nothing. It locks them in
      increasing order exactly when it is no transfer, or one whose texts sort as their rows do. */
  lemma LocksAreOrdered(op: Op)
    ensures Distinct(LockOrder(op)) && (LockOrder(op) == [] ==> op.Reverse? && op.found == [])
    ensures Increasing(LockOrder(op)) <==> InRowOrder(op)
  {
    hide Less, Row;
    if op.Reverse? {
      SortedAccountsSorts(op.found);
      IncreasingIsDistinct(LockOrder(op));
      if op.found != [] { assert op.found[0].account in SortedAccounts(op.found); }
    }
    if op.Transfer? && |LockOrder(op)| == 2 {
      assert Less(LockOrder(op)[0], LockOrder(op)[1]) ==> Increasing(LockOrder(op));
    }
  }

  lemma {:induction false} LockAllYields(accounts: map<AccountId, Account>, ids: seq<AccountId>)
    ensures LockAll(accounts, ids).Success? <==> forall id :: id in ids ==> id in accounts
    ensures LockAll(accounts, ids).Success? ==>
      var rows := LockAll(accounts, ids).value;
      && (forall id :: id in rows <==> id in ids)
      && forall id :: id in rows ==> rows[id] == accounts[id]
  {
    if ids != [] {
      LockAllYields(accounts, ids[1..]);
      assert forall id :: id in ids <==> id == ids[0] || id in ids[1..];
    }
  }

  lemma RolesAreLocked(op: Op)
    requires op.Transfer?
    ensures Payer(op) in LockOrder(op) && Payee(op) in LockOrder(op)
  {
    hide Less, Row;
    assert Row(First(op)) in LockOrder(op) && Row(Second(op)) in LockOrder(op);
  }

  lemma {:induction false} LockAllFailsAt(accounts: map<AccountId, Account>, ids: seq<AccountId>, k: nat)
    requires k < |ids| && ids[k] !in accounts && forall i :: 0 <= i < k ==> ids[i] in accounts
    ensures LockAll(accounts, ids) == Failure(AccountNotFound(ids[k]))
  {
    if k > 0 { LockAllFailsAt(accounts, ids[1..], k - 1); }
  }

  lemma AccountIsLocked(op: Op)
    requires op.Deposit? || op.Withdraw?
    ensures op.account in LockOrder(op)
  {}

  lemma NegationsAreLocked(op: Op)
    requires op.Reverse?
    ensures forall i :: 0 <= i < |op.found| ==> op.found[i].account in LockOrder(op)
  {
    SortedAccountsSorts(op.found);
  }

  lemma DecidedPostable(op: Op, rows: map<AccountId, Account>, withdrawn: int)
    requires Covers(rows, op)
    ensures Decide(op, rows, withdrawn).Success? ==> Postable(rows, Decide(op, rows, withdrawn).value)
  {
    hide Less, Row, LockOrder, Payer, Payee, V.Validate;
    if op.Reverse? {
      NegationsAreLocked(op);
    } else if op.Transfer? {
      RolesAreLocked(op);
    } else {
      AccountIsLocked(op);
    }
  }

  /** Posting changes balances only: no row appears, disappears or changes anything else,
      and the entries written are the postings, in order. */
  lemma {:induction false} PostAllKeepsRows(w: Workspace, ps: seq<Posting>, reference: string, now: int)
    requires Postable(w.rows, ps) && PostAll(w, ps, reference, now).Success?
    ensures var w' := PostAll(w, ps, reference, now).value;
      && w'.rows.Keys == w.rows.Keys
      && (forall id :: id in w.rows ==> w'.rows[id].(balance := 0) == w.rows[id].(balance := 0))
      && |w'.written| == |w.written| + |ps| && w.written <= w'.written
      && forall i :: 0 <= i < |ps| ==>
           var e := w'.written[|w.written| + i];
           e == Entry(ps[i].account, ps[i].kind, ps[i].amount, e.balanceAfter, reference, ps[i].description, now)
    decreases |ps|
  {
    if ps != [] {
      var w1 := Posted(w, ps[0], reference, now);
      PostAllKeepsRows(w1, ps[1..], reference, now);
      var w' := PostAll(w1, ps[1..], reference, now).value;
      assert w'.written[|w.written|] == w1.written[|w.written|];
      forall i | 0 <= i < |ps|
        ensures var e := w'.written[|w.written| + i];
          e == Entry(ps[i].account, ps[i].kind, ps[i].amount, e.balanceAfter, reference, ps[i].description, now)
      {
        if i > 0 { assert ps[i] == ps[1..][i - 1]; }
      }
    }
  }

  lemma WorkKeepsRows(op: Op, rows: map<AccountId, Account>, withdrawn: int)
    requires Covers(rows, op) && Work(op, rows, withdrawn).Success?
    ensures Work(op, rows, withdrawn).value.rows.Keys == rows.Keys
    ensures Covers(Work(op, rows, withdrawn).value.rows, op)
  {
    DecidedPostable(op, rows, withdrawn);
    PostAllKeepsRows(Workspace(rows, []), Decide(op, rows, withdrawn).value, op.reference, op.now);
  }
}
