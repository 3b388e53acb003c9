/** What operations keep: nothing goes below zero, and balances are sums of entries unless a transfer
    works on two copies of one row. */
module LedgerInvariants {
  import opened Wrappers
  import opened AccountIds
  import opened AccountState
  import opened Entities
  import opened Ledger
  import V = ValidationChain

  /** The sum of an account's entries. */
  function SumFor(es: seq<Entry>, id: AccountId): int {
    if es == [] then 0
    else SumFor(es[..|es| - 1], id) + if es[|es| - 1].account == id then es[|es| - 1].amount else 0
  }

  lemma SumForAppend(es: seq<Entry>, e: Entry, id: AccountId)
    ensures SumFor(es + [e], id) == SumFor(es, id) + if e.account == id then e.amount else 0
  {}

  lemma {:induction false} SumForConcat(es: seq<Entry>, fs: seq<Entry>, id: AccountId)
    ensures SumFor(es + fs, id) == SumFor(es, id) + SumFor(fs, id)
    decreases |fs|
  {
    if fs == [] {
      assert es + fs == es;
    } else {
      var last := fs[|fs| - 1];
      assert es + fs == (es + fs[..|fs| - 1]) + [last];
      SumForAppend(es + fs[..|fs| - 1], last, id);
      SumForConcat(es, fs[..|fs| - 1], id);
    }
  }

  // ---------- Books ----------

  /** No balance is negative, and entries are on accounts of the bank. */
  ghost predicate Solvent(b: Book) {
    && (forall id :: id in b.accounts ==> b.accounts[id].balance >= 0)
    && (forall e :: e in b.entries ==> e.account in b.accounts)
  }

  /** What the entries of an account say is so: its balance is their sum, and the balance each of them
      recorded is the sum so far in posting order, which was never negative. */
  ghost predicate BalancedOn(b: Book, id: AccountId) {
    && (id in b.accounts ==> b.accounts[id].balance == SumFor(b.entries, id))
    && (forall i :: 0 <= i < |b.entries| && b.entries[i].account == id ==> EntryBalanced(b.entries, i))
  }

  ghost predicate EntryBalanced(es: seq<Entry>, i: nat)
    requires i < |es|
  {
    es[i].balanceAfter == SumFor(es[..i + 1], es[i].account) && es[i].balanceAfter >= 0
  }

  ghost predicate Balanced(b: Book) {
    Solvent(b) && forall id :: id in b.accounts ==> BalancedOn(b, id)
  }

  predicate NoneMissedOn(ps: seq<Posting>, id: AccountId) {
    forall i :: 0 <= i < |ps| && ps[i].account == id ==> ps[i].missed == 0
  }

  lemma PostedKeepsBalanced(b: Book, w: Workspace, p: Posting, reference: string, now: int, id: AccountId)
    requires BalancedOn(Overlay(b, w), id) && p.account in w.rows && (p.account == id ==> p.missed == 0)
    requires BalanceLeft(w.rows, p) >= 0
    ensures BalancedOn(Overlay(b, Posted(w, p, reference, now)), id)
  {
    var o, o' := Overlay(b, w), Overlay(b, Posted(w, p, reference, now));
    var e := Posted(w, p, reference, now).written[|w.written|];
    assert o'.entries == o.entries + [e];
    assert o.accounts[p.account] == w.rows[p.account];
    SumForAppend(o.entries, e, id);
    hide SumFor;
    forall i | 0 <= i < |o'.entries| && o'.entries[i].account == id ensures EntryBalanced(o'.entries, i) {
      if i < |o.entries| {
        assert EntryBalanced(o.entries, i);
        assert o'.entries[..i + 1] == o.entries[..i + 1];
      } else {
        assert o'.entries[..i + 1] == o'.entries;
      }
    }
  }

  lemma {:induction false} PostAllKeepsBalanced(b: Book, w: Workspace, ps: seq<Posting>, reference: string, now: int, id: AccountId)
    requires BalancedOn(Overlay(b, w), id) && Postable(w.rows, ps) && NoneMissedOn(ps, id)
    requires PostAll(w, ps, reference, now).Success?
    ensures BalancedOn(Overlay(b, PostAll(w, ps, reference, now).value), id)
    decreases |ps|
  {
    if ps != [] {
      hide BalancedOn;
      PostedKeepsBalanced(b, w, ps[0], reference, now, id);
      PostAllKeepsBalanced(b, Posted(w, ps[0], reference, now), ps[1..], reference, now, id);
    }
  }

  predicate NoneMissed(ps: seq<Posting>) {
    forall i :: 0 <= i < |ps| ==> ps[i].missed == 0
  }

  lemma {:induction false} PostAllKeepsSolvent(b: Book, w: Workspace, ps: seq<Posting>, reference: string, now: int)
    requires Solvent(Overlay(b, w)) && Postable(w.rows, ps)
    requires PostAll(w, ps, reference, now).Success?
    ensures Solvent(Overlay(b, PostAll(w, ps, reference, now).value))
    decreases |ps|
  {
    if ps != [] { PostAllKeepsSolvent(b, Posted(w, ps[0], reference, now), ps[1..], reference, now); }
  }

  /** By how much an account holds more than its entries say. */
  function Surplus(b: Book, id: AccountId): int
    requires id in b.accounts
  {
    b.accounts[id].balance - SumFor(b.entries, id)
  }

  function MissedSum(ps: seq<Posting>, id: AccountId): int {
    if ps == [] then 0
    else (if ps[0].account == id then ps[0].missed else 0) + MissedSum(ps[1..], id)
  }

  lemma {:induction false} PostAllAddsMissed(b: Book, w: Workspace, ps: seq<Posting>, reference: string, now: int, id: AccountId)
    requires Postable(w.rows, ps) && PostAll(w, ps, reference, now).Success? && id in Overlay(b, w).accounts
    ensures id in Overlay(b, PostAll(w, ps, reference, now).value).accounts
    ensures Surplus(Overlay(b, PostAll(w, ps, reference, now).value), id) == Surplus(Overlay(b, w), id) + MissedSum(ps, id)
    decreases |ps|
  {
    if ps != [] {
      var w1 := Posted(w, ps[0], reference, now);
      var o, e := Overlay(b, w), w1.written[|w.written|];
      assert Overlay(b, w1).entries == o.entries + [e];
      SumForAppend(o.entries, e, id);
      PostAllAddsMissed(b, w1, ps[1..], reference, now, id);
    }
  }

  /** The last entry on an account, if there is one, shows its balance. */
  ghost predicate Shown(b: Book) {
    forall i :: 0 <= i < |b.entries| && LastOn(b.entries, i) && b.entries[i].account in b.accounts ==>
      b.accounts[b.entries[i].account].balance == b.entries[i].balanceAfter
  }

  predicate LastOn(es: seq<Entry>, i: nat)
    requires i < |es|
  {
    forall j :: i < j < |es| ==> es[j].account != es[i].account
  }

  lemma {:induction false} PostAllKeepsShown(b: Book, w: Workspace, ps: seq<Posting>, reference: string, now: int)
    requires Shown(Overlay(b, w)) && Postable(w.rows, ps)
    requires PostAll(w, ps, reference, now).Success?
    ensures Shown(Overlay(b, PostAll(w, ps, reference, now).value))
    decreases |ps|
  {
    if ps != [] {
      PostedKeepsShown(b, w, ps[0], reference, now);
      PostAllKeepsShown(b, Posted(w, ps[0], reference, now), ps[1..], reference, now);
    }
  }

  lemma PostedKeepsShown(b: Book, w: Workspace, p: Posting, reference: string, now: int)
    requires Shown(Overlay(b, w)) && p.account in w.rows
    ensures Shown(Overlay(b, Posted(w, p, reference, now)))
  {
    var o, o' := Overlay(b, w), Overlay(b, Posted(w, p, reference, now));
    var e := Posted(w, p, reference, now).written[|w.written|];
    assert o'.entries == o.entries + [e];
    forall i | 0 <= i < |o'.entries| && LastOn(o'.entries, i) && o'.entries[i].account in o'.accounts
      ensures o'.accounts[o'.entries[i].account].balance == o'.entries[i].balanceAfter
    {
      if i < |o.entries| {
        assert o'.entries[|o.entries|] == e;
        assert LastOn(o.entries, i) by {
          forall j | i < j < |o.entries| ensures o.entries[j].account != o.entries[i].account {
            assert o'.entries[j] == o.entries[j];
          }
        }
      }
    }
  }

  // ---------- Steps ----------

  /** The rows an operation locks, and the postings it decides on, when it commits. */
  ghost predicate Runs(b: Book, op: Op, rows: map<AccountId, Account>, ps: seq<Posting>, w: Workspace) {
    && EarlyRefusal(b.entries, op).None?
    && Covers(rows, op)
    && rows.Keys == (set id | id in LockOrder(op))
    && (forall id :: id in rows ==> id in b.accounts && rows[id] == b.accounts[id])
    && Decide(op, rows, Withdrawn(b.entries, op)) == Success(ps)
    && Postable(rows, ps)
    && PostAll(Workspace(rows, []), ps, op.reference, op.now) == Success(w)
    && w.rows.Keys == rows.Keys
    && Step(b, op) == Committed(Overlay(b, w), EventsOf(op, w.rows))
  }

  /** The parts of a committed operation. */
  lemma CommittedRuns(b: Book, op: Op) returns (rows: map<AccountId, Account>, ps: seq<Posting>, w: Workspace)
    requires Step(b, op).Committed?
    ensures Runs(b, op, rows, ps, w)
  {
    LockAllYields(b.accounts, LockOrder(op));
    rows := LockAll(b.accounts, LockOrder(op)).value;
    DecidedPostable(op, rows, Withdrawn(b.entries, op));
    ps := Decide(op, rows, Withdrawn(b.entries, op)).value;
    w := Work(op, rows, Withdrawn(b.entries, op)).value;
    WorkKeepsRows(op, rows, Withdrawn(b.entries, op));
  }

  /** The entries a committed operation adds are its postings, in order, under its reference and time. */
  lemma StepWrites(b: Book, op: Op) returns (rows: map<AccountId, Account>, ps: seq<Posting>, written: seq<Entry>)
    requires Step(b, op).Committed?
    ensures EarlyRefusal(b.entries, op).None? && Covers(rows, op)
    ensures Decide(op, rows, Withdrawn(b.entries, op)) == Success(ps)
    ensures Step(b, op).book.entries == b.entries + written && |written| == |ps|
    ensures forall i :: 0 <= i < |ps| ==>
      written[i] == Entry(ps[i].account, ps[i].kind, ps[i].amount, written[i].balanceAfter, op.reference, ps[i].description, op.now)
  {
    var w;
    rows, ps, w := CommittedRuns(b, op);
    PostAllKeepsRows(Workspace(rows, []), ps, op.reference, op.now);
    written := w.written;
  }

  lemma OverlayOfNothing(b: Book, rows: map<AccountId, Account>)
    requires forall id :: id in rows ==> id in b.accounts && rows[id] == b.accounts[id]
    ensures Overlay(b, Workspace(rows, [])) == b
  {}

  /** What a transfer adds to an account without an entry: the second copy of the row is saved with
      the balance it was read with, so what was taken through the first copy comes back. */
  function Drift(op: Op, id: AccountId): int {
    if TwoCopies(op) && Payer(op) == id then op.amount + op.fee else 0
  }

  lemma DecidedMisses(op: Op, rows: map<AccountId, Account>, withdrawn: int, id: AccountId)
    requires Covers(rows, op) && Decide(op, rows, withdrawn).Success?
    ensures MissedSum(Decide(op, rows, withdrawn).value, id) == Drift(op, id)
    ensures !(TwoCopies(op) && Payer(op) == id) ==> NoneMissedOn(Decide(op, rows, withdrawn).value, id)
    ensures TwoCopies(op) ==> op.amount > 0
  {
    hide Less, Row, LockOrder;
    var ps := Decide(op, rows, withdrawn).value;
    if op.Transfer? {
      TransferMisses(op, rows, withdrawn, id);
    } else {
      MissNothing(ps, id);
    }
  }

  lemma TransferMisses(op: Op, rows: map<AccountId, Account>, withdrawn: int, id: AccountId)
    requires op.Transfer? && Covers(rows, op) && Decide(op, rows, withdrawn).Success?
    ensures MissedSum(Decide(op, rows, withdrawn).value, id) == Drift(op, id)
    ensures !(TwoCopies(op) && Payer(op) == id) ==> NoneMissedOn(Decide(op, rows, withdrawn).value, id)
    ensures op.amount > 0
  {
    RolesAreLocked(op);
    CopiesShareTheRow(op);
    hide Less, Row, LockOrder, Payer, Payee, TwoCopies, Legs, MissedSum;
    V.ValidMeans(V.Context(V.DEPOSIT, op.amount, rows[Payee(op)], 0));
    LegsMiss(Payer(op), Payee(op), op.amount, op.fee, TransferText(op.note, rows[Payer(op)], rows[Payee(op)]), TwoCopies(op), id);
  }

  lemma LegsMiss(payer: AccountId, payee: AccountId, amount: int, fee: int, text: string, copies: bool, id: AccountId)
    ensures var ps := Legs(payer, payee, amount, fee, text, copies);
      && MissedSum(ps, id) == (if copies && payee == id then amount + fee else 0)
      && (!(copies && payee == id) ==> NoneMissedOn(ps, id))
  {
    var ps := Legs(payer, payee, amount, fee, text, copies);
    assert ps[|ps| - 1..][1..] == [];
    assert MissedSum(ps[|ps| - 1..], id) == if ps[|ps| - 1].account == id then ps[|ps| - 1].missed else 0;
    if |ps| == 3 { assert ps[1..][1..] == ps[2..]; }
  }

  lemma CopiesShareTheRow(op: Op)
    ensures TwoCopies(op) ==> Payee(op) == Payer(op) == Row(op.from) == Row(op.to)
  {
    hide Less, Row;
  }

  lemma {:induction false} MissNothing(ps: seq<Posting>, id: AccountId)
    requires NoneMissed(ps)
    ensures MissedSum(ps, id) == 0
  {
    if ps != [] { MissNothing(ps[1..], id); }
  }

  /** An operation moves a balance by what its entries say, and by its drift. */
  lemma StepDrifts(b: Book, op: Op, id: AccountId)
    requires Step(b, op).Committed? && id in b.accounts
    ensures id in Step(b, op).book.accounts
    ensures Surplus(Step(b, op).book, id) == Surplus(b, id) + Drift(op, id)
    ensures Drift(op, id) >= 0 && (Drift(op, id) > 0 <==> TwoCopies(op) && Payer(op) == id)
  {
    var rows, ps, w := CommittedRuns(b, op);
    OverlayOfNothing(b, rows);
    hide Step, Decide, PostAll, Covers, Postable, TwoCopies, Surplus;
    PostAllAddsMissed(b, Workspace(rows, []), ps, op.reference, op.now, id);
    DecidedMisses(op, rows, Withdrawn(b.entries, op), id);
  }

  lemma StepKeepsSolvent(b: Book, op: Op)
    requires Solvent(b) && Step(b, op).Committed?
    ensures Solvent(Step(b, op).book)
  {
    var rows, ps, w := CommittedRuns(b, op);
    OverlayOfNothing(b, rows);
    PostAllKeepsSolvent(b, Workspace(rows, []), ps, op.reference, op.now);
  }

  lemma StepKeepsShown(b: Book, op: Op)
    requires Shown(b) && Step(b, op).Committed?
    ensures Shown(Step(b, op).book)
  {
    var rows, ps, w := CommittedRuns(b, op);
    OverlayOfNothing(b, rows);
    PostAllKeepsShown(b, Workspace(rows, []), ps, op.reference, op.now);
  }

  /** An operation keeps what the entries of an account say true exactly when nothing drifts in. */
  lemma StepKeepsBalancedOn(b: Book, op: Op, id: AccountId)
    requires BalancedOn(b, id) && Step(b, op).Committed?
    ensures BalancedOn(Step(b, op).book, id) <==> !(TwoCopies(op) && Payer(op) == id)
  {
    var rows, ps, w := CommittedRuns(b, op);
    OverlayOfNothing(b, rows);
    hide Step, Decide, PostAll, TwoCopies, Less, Row, EntryBalanced, SumFor;
    if op.Transfer? && TwoCopies(op) && Payer(op) == id {
      RolesAreLocked(op);
      assert id in rows;
      StepDrifts(b, op, id);
    } else {
      DecidedMisses(op, rows, Withdrawn(b.entries, op), id);
      PostAllKeepsBalanced(b, Workspace(rows, []), ps, op.reference, op.now, id);
    }
  }

  /** An operation keeps the books balanced exactly when it is not a transfer on two copies of a row. */
  lemma StepKeepsBalanced(b: Book, op: Op)
    requires Balanced(b) && Step(b, op).Committed?
    ensures Balanced(Step(b, op).book) <==> !TwoCopies(op)
  {
    StepKeepsSolvent(b, op);
    StepFrame(b, op);
    hide Step, BalancedOn, Solvent, Row, Less;
    forall id | id in b.accounts ensures BalancedOn(Step(b, op).book, id) <==> !(TwoCopies(op) && Payer(op) == id) {
      StepKeepsBalancedOn(b, op, id);
    }
    if TwoCopies(op) { var id := SomeoneDrifts(b, op); }
  }

  lemma SomeoneDrifts(b: Book, op: Op) returns (id: AccountId)
    requires TwoCopies(op) && Step(b, op).Committed?
    ensures id == Payer(op) && id in b.accounts && Drift(op, id) > 0
  {
    var rows, ps, w := CommittedRuns(b, op);
    RolesAreLocked(op);
    id := Payer(op);
    StepDrifts(b, op, id);
  }

  /** No account appears or disappears, and only balances of locked accounts change. */
  lemma StepFrame(b: Book, op: Op)
    requires Step(b, op).Committed?
    ensures var b' := Step(b, op).book;
      && b'.accounts.Keys == b.accounts.Keys
      && b.entries <= b'.entries
      && (forall id :: id in b.accounts ==> b'.accounts[id].(balance := 0) == b.accounts[id].(balance := 0))
      && (forall id :: id in b.accounts && id !in LockOrder(op) ==> b'.accounts[id] == b.accounts[id])
      && (forall i :: |b.entries| <= i < |b'.entries| ==>
            b'.entries[i].reference == op.reference && b'.entries[i].createdAt == op.now)
      && (forall i :: |b.entries| <= i < |b'.entries| ==> b'.entries[i].account in LockOrder(op))
  {
    hide Step, Decide, PostAll, LockOrder, LockAll, Withdrawn, EventsOf, EarlyRefusal, Covers;
    var rows, ps, w := CommittedRuns(b, op);
    PostAllKeepsRows(Workspace(rows, []), ps, op.reference, op.now);
    var b' := Step(b, op).book;
    forall i | |b.entries| <= i < |b'.entries|
      ensures b'.entries[i].reference == op.reference && b'.entries[i].createdAt == op.now
      ensures b'.entries[i].account in LockOrder(op)
    {
      var j := i - |b.entries|;
      assert b'.entries[i] == w.written[j] && ps[j].account in rows;
    }
  }

  lemma {:induction false} SumForOthers(es: seq<Entry>, id: AccountId)
    requires forall j :: 0 <= j < |es| ==> es[j].account != id
    ensures SumFor(es, id) == 0
  {
    if es != [] { SumForOthers(es[..|es| - 1], id); }
  }

  // ---------- What each operation does, in plain words ----------

  /** A deposit goes through exactly when the account exists and is not closed and the amount is
      positive; then that account gains the amount and nothing else changes. */
  lemma DepositMeans(b: Book, op: Op)
    requires Solvent(b) && op.Deposit?
    ensures Step(b, op).Committed? <==> op.account in b.accounts && op.amount > 0 && CanDeposit(b.accounts[op.account].status)
    ensures Step(b, op).Committed? ==>
      var row := b.accounts[op.account].(balance := b.accounts[op.account].balance + op.amount);
      Step(b, op).book == Book(b.accounts[op.account := row],
        b.entries + [Entry(op.account, op.kind, op.amount, row.balance, op.reference, op.description, op.now)])
  {
    var rows := SingleLock(b, op);
    if op.account in b.accounts {
      V.ValidMeans(V.Context(V.DEPOSIT, op.amount, rows[op.account], 0));
      var p := Posting(op.account, op.kind, op.amount, op.description);
      PostOne(Workspace(rows, []), p, op.reference, op.now);
      assert b.accounts + rows[op.account := rows[op.account].(balance := rows[op.account].balance + op.amount)]
             == b.accounts[op.account := rows[op.account].(balance := rows[op.account].balance + op.amount)];
    }
  }

  /** A withdrawal goes through exactly when the account is active and both its balance and what is
      left of its daily limit cover a positive amount. */
  lemma WithdrawMeans(b: Book, op: Op)
    requires op.Withdraw?
    ensures Step(b, op).Committed? <==>
      && op.account in b.accounts && op.amount > 0
      && b.accounts[op.account].status == ACTIVE
      && op.amount <= b.accounts[op.account].balance
      && WithdrawnSince(b.entries, op.account, StartOfDay(op.now)) + op.amount <= b.accounts[op.account].dailyLimit
    ensures Step(b, op).Committed? ==>
      var row := b.accounts[op.account].(balance := b.accounts[op.account].balance - op.amount);
      Step(b, op).book == Book(b.accounts[op.account := row],
        b.entries + [Entry(op.account, op.kind, -op.amount, row.balance, op.reference, op.description, op.now)])
  {
    var rows := SingleLock(b, op);
    if op.account in b.accounts {
      V.ValidMeans(V.Context(V.WITHDRAWAL, op.amount, rows[op.account], Withdrawn(b.entries, op)));
      var p := Posting(op.account, op.kind, -op.amount, op.description);
      PostOne(Workspace(rows, []), p, op.reference, op.now);
      assert b.accounts + rows[op.account := rows[op.account].(balance := rows[op.account].balance - op.amount)]
             == b.accounts[op.account := rows[op.account].(balance := rows[op.account].balance - op.amount)];
    }
  }

  lemma EarlyStep(b: Book, op: Op)
    requires EarlyRefusal(b.entries, op).Some?
    ensures Step(b, op) == Refused(EarlyRefusal(b.entries, op).value)
  {}

  lemma UnlockedStep(b: Book, op: Op)
    requires EarlyRefusal(b.entries, op).None? && LockAll(b.accounts, LockOrder(op)).Failure?
    ensures Step(b, op) == Refused(LockAll(b.accounts, LockOrder(op)).error)
  {}

  /** Once the locks are held, an operation is its work on the locked rows. */
  lemma StepOnLockedRows(b: Book, op: Op, rows: map<AccountId, Account>)
    requires EarlyRefusal(b.entries, op).None? && LockAll(b.accounts, LockOrder(op)) == Success(rows)
    ensures Covers(rows, op)
    ensures Work(op, rows, Withdrawn(b.entries, op)).Failure? ==>
      Step(b, op) == Refused(Work(op, rows, Withdrawn(b.entries, op)).error)
    ensures Work(op, rows, Withdrawn(b.entries, op)).Success? ==>
      Step(b, op).Committed? && Step(b, op).book == Overlay(b, Work(op, rows, Withdrawn(b.entries, op)).value)
  {
    LockAllYields(b.accounts, LockOrder(op));
    if Work(op, rows, Withdrawn(b.entries, op)).Success? {
      WorkKeepsRows(op, rows, Withdrawn(b.entries, op));
    }
  }

  lemma SingleLock(b: Book, op: Op) returns (rows: map<AccountId, Account>)
    requires op.Deposit? || op.Withdraw?
    ensures op.account !in b.accounts ==> Step(b, op) == Refused(AccountNotFound(op.account))
    ensures op.account in b.accounts ==>
      && rows == map[op.account := b.accounts[op.account]] && Covers(rows, op)
      && (Work(op, rows, Withdrawn(b.entries, op)).Failure? ==>
            Step(b, op) == Refused(Work(op, rows, Withdrawn(b.entries, op)).error))
      && (Work(op, rows, Withdrawn(b.entries, op)).Success? ==>
            Step(b, op).Committed? && Step(b, op).book == Overlay(b, Work(op, rows, Withdrawn(b.entries, op)).value))
  {
    assert LockOrder(op)[1..] == [];
    rows := map[];
    if op.account in b.accounts {
      rows := map[op.account := b.accounts[op.account]];
      assert LockAll(b.accounts, LockOrder(op)[1..]) == Success(map[]);
      assert LockAll(b.accounts, LockOrder(op)) == Success(rows);
      StepOnLockedRows(b, op, rows);
    }
  }

  lemma PostCons(w: Workspace, p: Posting, ps: seq<Posting>, reference: string, now: int)
    requires Postable(w.rows, [p] + ps) && p.account in w.rows
    ensures Postable(Posted(w, p, reference, now).rows, ps)
    ensures PostAll(w, [p] + ps, reference, now) ==
      if BalanceLeft(w.rows, p) < 0 then Failure(NotEnoughBalance(p.account))
      else PostAll(Posted(w, p, reference, now), ps, reference, now)
  {
    assert ([p] + ps)[0] == p && ([p] + ps)[1..] == ps;
    forall i | 0 <= i < |ps| ensures ps[i].account in w.rows {
      assert ([p] + ps)[i + 1] == ps[i];
    }
  }

  lemma PostNone(w: Workspace, reference: string, now: int)
    ensures PostAll(w, [], reference, now) == Success(w)
  {}

  lemma PostOne(w: Workspace, p: Posting, reference: string, now: int)
    requires p.account in w.rows
    ensures PostAll(w, [p], reference, now) ==
      if BalanceLeft(w.rows, p) < 0 then Failure(NotEnoughBalance(p.account))
      else Success(Posted(w, p, reference, now))
  {}
}
