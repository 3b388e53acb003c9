/** The service itself: the only code that changes balances. */
module LedgerService {
  import opened Wrappers
  import opened AccountIds
  import opened Entities
  import opened DomainEvents
  import opened Ledger
  import opened LedgerInvariants
  import opened LedgerTransfer
  import V = ValidationChain

  datatype PostingResult = PostingResult(reference: string, account: AccountId, amount: int, balanceAfter: int)

  datatype TransferResult = TransferResult(reference: string, fee: nat, fromBalanceAfter: int, toBalanceAfter: int)

  datatype ReverseResult = ReverseResult(reference: string, reversedEntries: nat)

  /** The object a row is read into. A row read twice is two objects, which know nothing of each other. */
  class AccountEntity {
    const id: AccountId
    var row: Account

    constructor (id: AccountId, row: Account)
      ensures this.id == id && this.row == row
    {
      this.id, this.row := id, row;
    }
  }

  /** A database transaction: the rows it has locked, as it has left them, and the entries it has inserted. */
  class Transaction {
    const table: map<AccountId, Account>
    var rows: map<AccountId, Account>
    var written: seq<Entry>

    constructor (table: map<AccountId, Account>)
      ensures this.table == table && rows == map[] && written == []
    {
      this.table := table;
      rows := map[];
      written := [];
    }

    function Space(): Workspace
      reads this
    {
      Workspace(rows, written)
    }

    /** SELECT ... FOR UPDATE: a new object each time. */
    method LockAccount(id: AccountId) returns (r: Result<AccountEntity, Refusal>)
      modifies this`rows
      ensures id !in table ==> r == Failure(AccountNotFound(id)) && rows == old(rows)
      ensures id in table ==>
        && r.Success? && fresh(r.value) && r.value.id == id
        && rows == old(rows)[id := if id in old(rows) then old(rows)[id] else table[id]]
        && r.value.row == rows[id]
    {
      if id !in table { return Failure(AccountNotFound(id)); }
      if id !in rows { rows := rows[id := table[id]]; }
      var account := new AccountEntity(id, rows[id]);
      return Success(account);
    }

    /** Moves the balance of an object, saves the object over its row and inserts the entry; the column
        constraint refuses a negative balance. */
    method Post(account: AccountEntity, signedAmount: int, kind: EntryKind, reference: string, description: string, now: int)
      returns (r: Result<PostingResult, Refusal>)
      requires account.id in rows && account.row.(balance := 0) == rows[account.id].(balance := 0)
      modifies this, account
      ensures account.row == old(account.row).(balance := old(account.row.balance) + signedAmount)
      ensures account.row.balance < 0 ==> r == Failure(NotEnoughBalance(account.id)) && Space() == old(Space())
      ensures account.row.balance >= 0 ==>
        && Space() == Posted(old(Space()),
             Posting(account.id, kind, signedAmount, description, old(account.row.balance) - old(rows[account.id].balance)), reference, now)
        && rows[account.id] == account.row
        && r == Success(PostingResult(reference, account.id, if signedAmount < 0 then -signedAmount else signedAmount, account.row.balance))
    {
      account.row := account.row.(balance := account.row.balance + signedAmount);
      if account.row.balance < 0 { return Failure(NotEnoughBalance(account.id)); }
      rows := rows[account.id := account.row];
      written := written + [Entry(account.id, kind, signedAmount, account.row.balance, reference, description, now)];
      return Success(PostingResult(reference, account.id, if signedAmount < 0 then -signedAmount else signedAmount, account.row.balance));
    }

    /** One object for each row, all as the rows are. */
    ghost predicate Mirrors(objects: map<AccountId, AccountEntity>)
      reads this, objects.Values
    {
      && objects.Keys == rows.Keys
      && forall id :: id in objects ==> objects[id] in objects.Values && objects[id].id == id && objects[id].row == rows[id]
    }

    /** Locks the accounts one by one, in the order given. */
    method LockAccounts(ids: seq<AccountId>) returns (r: Result<map<AccountId, AccountEntity>, Refusal>)
      requires rows == map[]
      modifies this`rows
      ensures LockAll(table, ids).Failure? ==> r == Failure(LockAll(table, ids).error)
      ensures LockAll(table, ids).Success? ==>
        r.Success? && rows == LockAll(table, ids).value && Mirrors(r.value) && fresh(r.value.Values)
    {
      var k := 0;
      var objects: map<AccountId, AccountEntity> := map[];
      while k < |ids|
        invariant 0 <= k <= |ids| && Mirrors(objects) && fresh(objects.Values)
        invariant forall i :: 0 <= i < k ==> ids[i] in table
        invariant forall id :: id in rows <==> id in ids[..k]
        invariant forall id :: id in rows ==> id in table && rows[id] == table[id]
      {
        if ids[k] !in table { LockAllFailsAt(table, ids, k); }
        var account :- LockAccount(ids[k]);
        objects := objects[ids[k] := account];
        assert ids[..k + 1] == ids[..k] + [ids[k]];
        k := k + 1;
      }
      assert ids[..k] == ids;
      LockAllYields(table, ids);
      assert rows == LockAll(table, ids).value;
      return Success(objects);
    }

    /** Posts the legs of a transfer, in order. Payer and payee may be one object, two objects of one row,
        or two rows. */
    method PostLegs(from: AccountEntity, to: AccountEntity, amount: int, fee: nat, text: string, reference: string, now: int)
      returns (r: Result<PostingResult, Refusal>)
      requires from.id in rows && to.id in rows && from.row == rows[from.id] && to.row == rows[to.id]
      modifies this, from, to
      ensures Postable(old(rows), Legs(from.id, to.id, amount, fee, text, from != to && from.id == to.id))
      ensures var posted := PostAll(old(Space()), Legs(from.id, to.id, amount, fee, text, from != to && from.id == to.id), reference, now);
        && (posted.Failure? ==> r == Failure(posted.error))
        && (posted.Success? ==>
              && Space() == posted.value && from.id in rows && to.id in rows
              && r.Success? && r.value.balanceAfter == rows[to.id].balance
              && from.row.balance == if from != to && from.id == to.id then old(from.row.balance) - amount - fee else rows[from.id].balance)
    {
      hide PostAll;
      ghost var copies := from != to && from.id == to.id;
      ghost var debit := Posting(from.id, TRANSFER_OUT, -amount, text);
      ghost var charge := Posting(from.id, FEE, -(fee as int), "Transfer fee");
      ghost var credit := Posting(to.id, TRANSFER_IN, amount, text, if copies then amount + fee else 0);
      ghost var rest := if fee > 0 then [charge] + [credit] else [credit];
      assert Legs(from.id, to.id, amount, fee, text, copies) == [debit] + rest;
      PostCons(Space(), debit, rest, reference, now);
      var _ :- Post(from, -amount, TRANSFER_OUT, reference, text, now);
      if fee > 0 {
        PostCons(Space(), charge, [credit], reference, now);
        var _ :- Post(from, -(fee as int), FEE, reference, "Transfer fee", now);
      }
      PostOne(Space(), credit, reference, now);
      r := Post(to, amount, TRANSFER_IN, reference, text, now);
    }

    /** Posts the opposite of every entry, refusing as soon as an account cannot bear it. */
    method PostOpposites(original: string, found: seq<Entry>, objects: map<AccountId, AccountEntity>, reference: string, now: int)
      returns (r: Result<(), Refusal>)
      requires Postable(rows, Negations(original, found)) && Mirrors(objects)
      modifies this, objects.Values
      ensures var posted := PostAll(old(Space()), Negations(original, found), reference, now);
        && (posted.Failure? ==> r == Failure(posted.error))
        && (posted.Success? ==> r.Success? && Space() == posted.value)
    {
      hide PostAll;
      ghost var ps := Negations(original, found);
      var n := 0;
      while n < |found|
        invariant 0 <= n <= |found| && Postable(rows, ps[n..]) && Mirrors(objects)
        invariant PostAll(old(Space()), ps, reference, now) == PostAll(Space(), ps[n..], reference, now)
      {
        var entry := found[n];
        assert ps[n..] == [ps[n]] + ps[n + 1..];
        PostCons(Space(), ps[n], ps[n + 1..], reference, now);
        var account := objects[entry.account];
        if account.row.balance - entry.amount < 0 {
          return Failure(NotEnoughBalance(entry.account));
        }
        var _ := Post(account, -entry.amount, REVERSAL, reference, REVERSAL_PREFIX + original, now);
        n := n + 1;
      }
      assert ps[n..] == [];
      PostNone(Space(), reference, now);
      return Success(());
    }
  }

  /** The postings and the event of an operation on one account. */
  function SignedAmount(op: Op): int
    requires op.Deposit? || op.Withdraw?
  {
    if op.Deposit? then op.amount else -op.amount
  }

  lemma SingleOutcome(b: Book, op: Op)
    requires op.Deposit? || op.Withdraw?
    ensures op.account !in b.accounts ==> Step(b, op) == Refused(AccountNotFound(op.account))
    ensures op.account in b.accounts ==>
      var row := b.accounts[op.account];
      var c := V.Context(if op.Deposit? then V.DEPOSIT else V.WITHDRAWAL, op.amount, row, Withdrawn(b.entries, op));
      var objection := V.FirstObjection(V.DEFAULT_CHECKS, c);
      var balance := row.balance + SignedAmount(op);
      && (objection.Some? ==> Step(b, op) == Refused(objection.value))
      && (objection.None? ==> op.amount > 0)
      && (objection.None? && balance < 0 ==> Step(b, op) == Refused(NotEnoughBalance(op.account)))
      && (objection.None? && balance >= 0 ==>
            Step(b, op) == Committed(
              Book(b.accounts + map[op.account := row.(balance := balance)],
                   b.entries + [Entry(op.account, op.kind, SignedAmount(op), balance, op.reference, op.description, op.now)]),
              [DomainEvent(if op.Deposit? then MONEY_DEPOSITED else MONEY_WITHDRAWN,
                 map["accountId" := Id(op.account), "amountMinor" := Whole(op.amount),
                     "balanceAfterMinor" := Whole(balance), "reference" := Text(op.reference)])]))
  {
    var rows := SingleLock(b, op);
    if op.account in b.accounts {
      V.ValidMeans(V.Context(if op.Deposit? then V.DEPOSIT else V.WITHDRAWAL, op.amount, rows[op.account], Withdrawn(b.entries, op)));
      var p := Posting(op.account, op.kind, SignedAmount(op), op.description);
      PostOne(Workspace(rows, []), p, op.reference, op.now);
      LockAllYields(b.accounts, LockOrder(op));
      assert LockAll(b.accounts, LockOrder(op)).value == rows;
      assert rows[op.account := rows[op.account].(balance := rows[op.account].balance + SignedAmount(op))]
             == map[op.account := rows[op.account].(balance := rows[op.account].balance + SignedAmount(op))];
    }
  }

  /** A transfer's checks in order, and its postings when none objects. */
  lemma TransferDecided(op: Op, rows: map<AccountId, Account>, withdrawn: int)
    requires op.Transfer? && Payer(op) in rows && Payee(op) in rows && Covers(rows, op)
    ensures var payer, payee := rows[Payer(op)], rows[Payee(op)];
      var debit := V.FirstObjection(V.DEFAULT_CHECKS, V.Context(V.WITHDRAWAL, op.amount + op.fee, payer, withdrawn));
      var credit := V.FirstObjection(V.DEFAULT_CHECKS, V.Context(V.DEPOSIT, op.amount, payee, 0));
      Decide(op, rows, withdrawn) ==
        if payer.currency != payee.currency then Failure(CrossCurrency)
        else if debit.Some? then Failure(debit.value)
        else if credit.Some? then Failure(credit.value)
        else Success(Legs(Payer(op), Payee(op), op.amount, op.fee, TransferText(op.note, payer, payee), TwoCopies(op)))
  {
    hide LockOrder, Payer, Payee, TwoCopies, V.FirstObjection, Legs;
  }

  lemma SelfTransferRefused(b: Book, op: Op)
    requires op.Transfer? && op.from == op.to
    ensures Step(b, op) == Refused(SameAccount)
  {}

  /** The locks of a transfer between two texts: the row of the text that sorts first is looked for first. */
  lemma TransferLocked(b: Book, op: Op)
    requires op.Transfer? && op.from != op.to
    ensures EarlyRefusal(b.entries, op).None?
    ensures var first, second := Row(First(op)), Row(Second(op));
      && (first !in b.accounts ==> Step(b, op) == Refused(AccountNotFound(first)))
      && (first in b.accounts && second !in b.accounts ==> Step(b, op) == Refused(AccountNotFound(second)))
      && (first in b.accounts && second in b.accounts ==>
            LockAll(b.accounts, LockOrder(op)) == Success(map[first := b.accounts[first]][second := b.accounts[second]]))
  {
    var first, second := Row(First(op)), Row(Second(op));
    LockPair(b.accounts, first, second);
    hide Less, Row, Payer, Payee, Decide, TwoCopies, WithdrawnSince, EventsOf;
    assert LockAll(b.accounts, LockOrder(op)) == LockAll(b.accounts, [first, second]) by {
      LockOnce(b.accounts, first);
    }
  }

  /** Once its locks are held an operation does what its decision says: it is refused for the decision's
      reason, or for that of a posting, or all its postings are committed and announced. */
  lemma OutcomeOfWork(b: Book, op: Op, rows: map<AccountId, Account>)
    requires EarlyRefusal(b.entries, op).None? && LockAll(b.accounts, LockOrder(op)) == Success(rows)
    ensures Covers(rows, op)
    ensures Decide(op, rows, Withdrawn(b.entries, op)).Failure? ==> Step(b, op) == Refused(Decide(op, rows, Withdrawn(b.entries, op)).error)
    ensures Decide(op, rows, Withdrawn(b.entries, op)).Success? ==>
      var ps := Decide(op, rows, Withdrawn(b.entries, op)).value;
      && Postable(rows, ps)
      && match PostAll(Workspace(rows, []), ps, op.reference, op.now)
         case Failure(why) => Step(b, op) == Refused(why)
         case Success(w) => Covers(w.rows, op) && Step(b, op) == Committed(Overlay(b, w), EventsOf(op, w.rows))
  {
    LockAllYields(b.accounts, LockOrder(op));
    hide Decide, Withdrawn, EventsOf, LockOrder, EarlyRefusal, LockAll;
    if Decide(op, rows, Withdrawn(b.entries, op)).Success? {
      DecidedIsPosted(op, rows, Withdrawn(b.entries, op), Decide(op, rows, Withdrawn(b.entries, op)).value);
      if Work(op, rows, Withdrawn(b.entries, op)).Success? { WorkKeepsRows(op, rows, Withdrawn(b.entries, op)); }
    }
  }

  lemma LockOnce(accounts: map<AccountId, Account>, id: AccountId)
    ensures LockAll(accounts, [id]) == LockAll(accounts, [id, id])
  {
    LockPair(accounts, id, id);
    assert [id][1..] == [] && LockAll(accounts, []) == Success(map[]);
    if id in accounts { assert map[id := accounts[id]][id := accounts[id]] == map[id := accounts[id]]; }
  }

  lemma LockPair(accounts: map<AccountId, Account>, first: AccountId, second: AccountId)
    ensures LockAll(accounts, [first, second]) ==
      if first !in accounts then Failure(AccountNotFound(first))
      else if second !in accounts then Failure(AccountNotFound(second))
      else Success(map[first := accounts[first]][second := accounts[second]])
  {
    assert [first, second][1..] == [second] && [second][1..] == [];
    assert LockAll(accounts, []) == Success(map[]);
    if first in accounts && second in accounts {
      assert map[second := accounts[second]][first := accounts[first]] == map[first := accounts[first]][second := accounts[second]];
    }
  }

  /** The roles as the service finds them: by comparing the id of the first row with both texts. */
  lemma RolesFound(op: Op)
    requires op.Transfer?
    ensures var first, second := Row(First(op)), Row(Second(op));
      && Payer(op) == (if first == op.from then first else second)
      && Payee(op) == (if first == op.to then first else second)
      && (TwoCopies(op) <==> first == second && (first == op.from) != (first == op.to))
    ensures First(op) == (if Less(op.to, op.from) then op.to else op.from)
    ensures Second(op) == (if Less(op.to, op.from) then op.from else op.to)
    ensures forall es :: Withdrawn(es, op) == WithdrawnSince(es, Payer(op), StartOfDay(op.now))
  {
    hide Less, Row;
  }

  lemma TransferEvent(op: Op, rows: map<AccountId, Account>)
    requires op.Transfer? && Covers(rows, op)
    ensures EventsOf(op, rows) ==
      [DomainEvent(MONEY_TRANSFERRED, map["fromAccountId" := Id(op.from), "toAccountId" := Id(op.to),
        "amountMinor" := Whole(op.amount), "feeMinor" := Whole(op.fee), "reference" := Text(op.reference)])]
  {}

  lemma ReversalDecided(op: Op, rows: map<AccountId, Account>)
    requires op.Reverse? && Covers(rows, op)
    ensures Decide(op, rows, 0) == Success(Negations(op.original, op.found))
  {}

  class LedgerService {
    var accounts: map<AccountId, Account>
    var entries: seq<Entry>
    var published: seq<DomainEvent>
    const validationChain: V.ValidationHandler
    ghost const links: seq<V.ValidationHandler>

    ghost predicate Valid()
      reads this, links
    {
      V.Linked(links) && links[0] == validationChain && V.ChecksOf(links) == V.DEFAULT_CHECKS
    }

    function State(): Book
      reads this
    {
      Book(accounts, entries)
    }

    constructor (accounts: map<AccountId, Account>, entries: seq<Entry>)
      ensures Valid() && State() == Book(accounts, entries) && published == []
    {
      var head, chain := V.BuildTransactionValidationChain();
      validationChain, links := head, chain;
      this.accounts, this.entries, published := accounts, entries, [];
    }

    /** The table and the events are those of the operation run on `before`, or nothing happened. */
    twostate predicate Performed(op: Op)
      reads this
    {
      match Step(old(State()), op)
      case Committed(book, events) => State() == book && published == old(published) + events
      case Refused(_) => State() == old(State()) && published == old(published)
    }

    /** Commits what the transaction wrote, then publishes. */
    method Commit(tx: Transaction, events: seq<DomainEvent>)
      modifies this
      ensures State() == Overlay(old(State()), old(tx.Space()))
      ensures published == old(published) + events
    {
      accounts := accounts + tx.rows;
      entries := entries + tx.written;
      published := published + events;
    }

    /** The text of an account does nothing but find the row. */
    method Deposit(accountId: AccountId, amount: int, kind: EntryKind, description: string, reference: string, now: int)
      returns (r: Result<PostingResult, Refusal>)
      requires Valid()
      modifies this
      ensures Valid() && Performed(Op.Deposit(Row(accountId), amount, kind, description, reference, now))
      ensures var o := Step(old(State()), Op.Deposit(Row(accountId), amount, kind, description, reference, now));
        && (o.Refused? ==> r == Failure(o.why))
        && (o.Committed? ==> Row(accountId) in accounts && amount > 0
                             && r == Success(PostingResult(reference, Row(accountId), amount, accounts[Row(accountId)].balance)))
    {
      ghost var op := Op.Deposit(Row(accountId), amount, kind, description, reference, now);
      hide Step, WithdrawnSince, V.FirstObjection, V.Verdict, V.Linked, V.ChecksOf;
      SingleOutcome(State(), op);
      var tx := new Transaction(accounts);
      var account :- tx.LockAccount(Row(accountId));
      var objection := validationChain.Run(V.Context(V.DEPOSIT, amount, account.row, 0), links);
      if objection.Some? { return Failure(objection.value); }
      r := tx.Post(account, amount, kind, reference, description, now);
      if r.Success? {
        Commit(tx, [DomainEvent(MONEY_DEPOSITED, map["accountId" := Id(r.value.account), "amountMinor" := Whole(amount),
          "balanceAfterMinor" := Whole(r.value.balanceAfter), "reference" := Text(reference)])]);
      }
    }

    method Withdraw(accountId: AccountId, amount: int, kind: EntryKind, description: string, reference: string, now: int)
      returns (r: Result<PostingResult, Refusal>)
      requires Valid()
      modifies this
      ensures Valid() && Performed(Op.Withdraw(Row(accountId), amount, kind, description, reference, now))
      ensures var o := Step(old(State()), Op.Withdraw(Row(accountId), amount, kind, description, reference, now));
        && (o.Refused? ==> r == Failure(o.why))
        && (o.Committed? ==> Row(accountId) in accounts && amount > 0
                             && r == Success(PostingResult(reference, Row(accountId), amount, accounts[Row(accountId)].balance)))
    {
      ghost var op := Op.Withdraw(Row(accountId), amount, kind, description, reference, now);
      hide Step, WithdrawnSince, V.FirstObjection, V.Verdict, V.Linked, V.ChecksOf;
      SingleOutcome(State(), op);
      var tx := new Transaction(accounts);
      var account :- tx.LockAccount(Row(accountId));
      var withdrawnToday := WithdrawnSince(entries, Row(accountId), StartOfDay(now));
      var objection := validationChain.Run(V.Context(V.WITHDRAWAL, amount, account.row, withdrawnToday), links);
      if objection.Some? { return Failure(objection.value); }
      r := tx.Post(account, -amount, kind, reference, description, now);
      if r.Success? {
        Commit(tx, [DomainEvent(MONEY_WITHDRAWN, map["accountId" := Id(r.value.account), "amountMinor" := Whole(amount),
          "balanceAfterMinor" := Whole(r.value.balanceAfter), "reference" := Text(reference)])]);
      }
    }

    /** The balances a transfer reports: a copy of the payer's row shows what it was saved with. */
    ghost predicate Reported(op: Op, rows: map<AccountId, Account>, result: TransferResult)
      reads this
      requires op.Transfer?
    {
      && Payer(op) in accounts && Payer(op) in rows && Payee(op) in rows
      && var shown := if TwoCopies(op) then accounts[Payer(op)].balance - op.amount - op.fee else rows[Payer(op)].balance;
         result == TransferResult(op.reference, op.fee, shown, rows[Payee(op)].balance)
    }

    /** What a transfer does inside its database transaction. The texts are sorted as they were sent, and
        the id of the first row locked is compared with each of them. */
    method TransferInside(tx: Transaction, from: AccountId, to: AccountId, amount: int, fee: nat, note: Option<string>,
                          reference: string, now: int)
      returns (r: Result<TransferResult, Refusal>)
      requires Valid() && from != to && tx.table == accounts && tx.rows == map[] && tx.written == []
      modifies tx
      ensures var op := Op.Transfer(from, to, amount, fee, note, reference, now);
        match Step(State(), op)
        case Refused(why) => r == Failure(why)
        case Committed(book, events) =>
          && Covers(tx.rows, op) && book == Overlay(State(), tx.Space()) && events == EventsOf(op, tx.rows)
          && r.Success? && Reported(op, tx.rows, r.value)
    {
      hide Step, Decide, PostAll, LockAll, EarlyRefusal, Withdrawn, WithdrawnSince, Legs, Less, Row, First, Second, Payer, Payee, TwoCopies,
        LockOrder, Covers, Postable, Overlay, EventsOf, TransferText, StartOfDay, V.FirstObjection, V.Verdict, V.Linked, V.ChecksOf;
      ghost var op := Op.Transfer(from, to, amount, fee, note, reference, now);
      var firstId, secondId := if Less(to, from) then to else from, if Less(to, from) then from else to;
      RolesFound(op);
      TransferLocked(State(), op);
      var first :- tx.LockAccount(Row(firstId));
      var second :- tx.LockAccount(Row(secondId));
      var payer, payee := if first.id == from then first else second, if first.id == to then first else second;
      assert payer.id == Payer(op) && payee.id == Payee(op) && (payer != payee && payer.id == payee.id <==> TwoCopies(op));
      OutcomeOfWork(State(), op, tx.rows);
      TransferDecided(op, tx.rows, Withdrawn(entries, op));

      if payer.row.currency != payee.row.currency { return Failure(CrossCurrency); }
      var withdrawnToday := WithdrawnSince(entries, payer.id, StartOfDay(now));
      var objection := validationChain.Run(V.Context(V.WITHDRAWAL, amount + fee, payer.row, withdrawnToday), links);
      if objection.Some? { return Failure(objection.value); }
      objection := validationChain.Run(V.Context(V.DEPOSIT, amount, payee.row, 0), links);
      if objection.Some? { return Failure(objection.value); }

      var description := TransferText(note, payer.row, payee.row);
      var credited :- tx.PostLegs(payer, payee, amount, fee, description, reference, now);
      r := Success(TransferResult(reference, fee, payer.row.balance, credited.balanceAfter));
    }

    method Transfer(from: AccountId, to: AccountId, amount: int, fee: nat, note: Option<string>, reference: string, now: int)
      returns (r: Result<TransferResult, Refusal>)
      requires Valid()
      modifies this
      ensures Valid() && Performed(Op.Transfer(from, to, amount, fee, note, reference, now))
      ensures var op := Op.Transfer(from, to, amount, fee, note, reference, now);
        var o := Step(old(State()), op);
        && (o.Refused? ==> r == Failure(o.why))
        && (o.Committed? ==> r.Success? && old(Reported(op, o.book.accounts, r.value)))
    {
      hide Step, Less, Row, Payer, Payee, TwoCopies, LockOrder, Covers, EventsOf, V.Linked, V.ChecksOf;
      ghost var op := Op.Transfer(from, to, amount, fee, note, reference, now);
      if from == to {
        SelfTransferRefused(State(), op);
        return Failure(SameAccount);
      }
      var tx := new Transaction(accounts);
      var result :- TransferInside(tx, from, to, amount, fee, note, reference, now);
      TransferEvent(op, tx.rows);
      Commit(tx, [DomainEvent(MONEY_TRANSFERRED, map["fromAccountId" := Id(from), "toAccountId" := Id(to),
        "amountMinor" := Whole(amount), "feeMinor" := Whole(fee), "reference" := Text(reference)])]);
      return Success(result);
    }

    /** Undoes a transaction by writing opposite entries; a refusal part-way rolls everything back. */
    method Reverse(original: string, found: seq<Entry>, reference: string, now: int)
      returns (r: Result<ReverseResult, Refusal>)
      requires Valid() && Answers(entries, Op.Reverse(original, found, reference, now))
      modifies this
      ensures Valid() && Performed(Op.Reverse(original, found, reference, now))
      ensures var o := Step(old(State()), Op.Reverse(original, found, reference, now));
        && (o.Refused? ==> r == Failure(o.why))
        && (o.Committed? ==> r == Success(ReverseResult(reference, |found|)))
    {
      hide Step, Decide, PostAll, LockAll, SortedAccounts, WithdrawnSince, V.Linked, V.ChecksOf;
      ghost var op := Op.Reverse(original, found, reference, now);
      if EarlyRefusal(entries, op).Some? { EarlyStep(State(), op); }
      if exists i :: 0 <= i < |entries| && entries[i].description == REVERSAL_PREFIX + original {
        return Failure(AlreadyReversed);
      }
      if found == [] { return Failure(NoSuchTransaction); }
      var tx := new Transaction(accounts);
      if LockAll(accounts, LockOrder(op)).Failure? { UnlockedStep(State(), op); }
      var objects :- tx.LockAccounts(SortedAccounts(found));
      OutcomeOfWork(State(), op, tx.rows);
      ReversalDecided(op, tx.rows);
      var _ :- tx.PostOpposites(original, found, objects, reference, now);
      Commit(tx, ReversalEvents(original, reference, found));
      r := Success(ReverseResult(reference, |found|));
    }
  }
}
