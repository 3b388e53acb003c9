/** A reversal can commit on a stale check: two overlapping reversals of one transaction. */
module OverlappingReversals {
  import opened AccountState
  import opened AccountIds
  import opened Entities
  import opened Ledger
  import opened Reversal
  import opened LedgerRuns
  import opened Concurrency
  import opened Serialisability

  lemma ConsRun(w: World, l: Label, ls: seq<Label>)
    requires Enabled(w, l) && Possible(Next(w, l), ls)
    ensures Possible(w, [l] + ls) && Execute(w, [l] + ls) == Execute(Next(w, l), ls)
  {}

  lemma {:induction false} ConcatRun(w: World, ls: seq<Label>, ms: seq<Label>)
    requires Possible(w, ls) && Possible(Execute(w, ls), ms)
    ensures Possible(w, ls + ms) && Execute(w, ls + ms) == Execute(Execute(w, ls), ms)
    decreases |ls|
  {
    hide Enabled, Next;
    if ls == [] {
      assert ls + ms == ms;
    } else {
      ConcatRun(Next(w, ls[0]), ls[1..], ms);
      assert ls + ms == [ls[0]] + (ls[1..] + ms);
      ConsRun(w, ls[0], ls[1..] + ms);
    }
  }

  /** The reversal of a transaction of one entry, before and after it has found that entry. */
  function Asking(e: Entry, r: string, now: int): Op {
    Op.Reverse(e.reference, [], r, now)
  }

  function Undoing(e: Entry, r: string, now: int): Op {
    Op.Reverse(e.reference, [e], r, now)
  }

  /** A reversal that has passed its check, on a free account that can bear it. */
  ghost predicate Unopposed(w: World, e: Entry, r: string, now: int) {
    && r in w.txns && w.txns[r] == Txn(Asking(e, r, now), Checked)
    && e.account in w.book.accounts && e.account !in w.locks
    && (forall id :: id in w.locks ==> w.locks[id] != r)
    && EntriesOf(w.book.entries, e.reference) == [e]
    && w.book.accounts[e.account].balance >= e.amount
  }

  lemma LocksOfOne(e: Entry, r: string, now: int)
    ensures LockOrder(Undoing(e, r, now)) == [e.account]
  {
    assert [e][1..] == [];
    assert SortedAccounts([e]) == Insert(e.account, []);
  }

  /** It finds its entry, is granted the lock and reads. */
  lemma ReachesDecision(w: World, e: Entry, r: string, now: int) returns (w1: World, w2: World, w3: World)
    requires Unopposed(w, e, r, now)
    ensures Enabled(w, Find(r, [e])) && w1 == Next(w, Find(r, [e]))
    ensures Enabled(w1, Lock(r)) && w2 == Next(w1, Lock(r)) && Enabled(w2, Read(r)) && w3 == Next(w2, Read(r))
    ensures w3 == w.(txns := w.txns[r := Txn(Undoing(e, r, now), Deciding(map[e.account := w.book.accounts[e.account]], 0))],
                     locks := w.locks[e.account := r])
  {
    hide EntriesOf, Fresh, MarkedReversed, Decide, Posted, EventsOf, Accepted, Serve;
    LocksOfOne(e, r, now);
    var a, op := e.account, Undoing(e, r, now);
    w1 := Next(w, Find(r, [e]));
    assert w1.txns[r] == Txn(op, Locking([a], map[]));
    w2 := Next(w1, Lock(r));
    assert [a][1..] == [] && w2.txns[r] == Txn(op, Locking([], map[a := w.book.accounts[a]]));
    w3 := Next(w2, Read(r));
    assert w3.txns == w.txns[r := Txn(op, Deciding(map[a := w.book.accounts[a]], 0))];
  }

  function Opposite(e: Entry): Posting {
    Posting(e.account, REVERSAL, -e.amount, REVERSAL_PREFIX + e.reference)
  }

  /** It validates, posts and is ready to commit. */
  lemma ReachesCommit(w: World, e: Entry, r: string, now: int, row: Account) returns (w1: World, w2: World)
    requires r in w.txns && w.txns[r] == Txn(Undoing(e, r, now), Deciding(map[e.account := row], 0))
    requires row.balance >= e.amount
    ensures Enabled(w, Validate(r)) && w1 == Next(w, Validate(r)) && Enabled(w1, Post(r)) && w2 == Next(w1, Post(r))
    ensures Enabled(w2, Commit(r))
    ensures w2 == w.(txns := w.txns[r :=
      Txn(Undoing(e, r, now), Writing(Posted(Workspace(map[e.account := row], []), Opposite(e), r, now), []))])
  {
    hide EntriesOf, Fresh, MarkedReversed, EventsOf, Accepted, Serve, Withdrawn;
    LocksOfOne(e, r, now);
    assert Negations(e.reference, [e]) == [Opposite(e)];
    w1 := Next(w, Validate(r));
    assert w1.txns[r].phase == Writing(Workspace(map[e.account := row], []), [Opposite(e)]);
    assert [Opposite(e)][1..] == [];
    w2 := Next(w1, Post(r));
    assert w2.txns == w.txns[r :=
      Txn(Undoing(e, r, now), Writing(Posted(Workspace(map[e.account := row], []), Opposite(e), r, now), []))];
  }

  /** Nothing stops it from committing, whatever happened to the mark since its check. */
  lemma UnopposedCommits(w: World, e: Entry, r: string, now: int) returns (ls: seq<Label>)
    requires Unopposed(w, e, r, now)
    ensures Possible(w, ls)
    ensures var w' := Execute(w, ls);
      var balance := w.book.accounts[e.account].balance - e.amount;
      && w'.log == w.log + [Move(Undoing(e, r, now))] && w'.locks == w.locks
      && w'.txns.Keys == w.txns.Keys && (forall q :: q in w.txns && q != r ==> w'.txns[q] == w.txns[q])
      && w'.book.accounts == w.book.accounts[e.account := w.book.accounts[e.account].(balance := balance)]
      && w'.book.entries == w.book.entries
           + [Entry(e.account, REVERSAL, -e.amount, balance, r, REVERSAL_PREFIX + e.reference, now)]
  {
    hide EntriesOf, Fresh, MarkedReversed, Possible, Execute, EventsOf, Decide, Answers, Accepted, Serve, Withdrawn;
    var row := w.book.accounts[e.account];
    var w1, w2, w3 := ReachesDecision(w, e, r, now);
    var w4, w5 := ReachesCommit(w3, e, r, now, row);
    SixSteps(w, Find(r, [e]), w1, Lock(r), w2, Read(r), w3, Validate(r), w4, Post(r), w5, Commit(r));
    ls := [Find(r, [e]), Lock(r), Read(r), Validate(r), Post(r), Commit(r)];
    CommitOfOne(w, w5, e, r, now, row);
  }

  lemma CommitOfOne(w: World, w5: World, e: Entry, r: string, now: int, row: Account)
    requires Unopposed(w, e, r, now) && row == w.book.accounts[e.account] && Enabled(w5, Commit(r))
    requires w5 == w.(txns := w.txns[r :=
        Txn(Undoing(e, r, now), Writing(Posted(Workspace(map[e.account := row], []), Opposite(e), r, now), []))],
      locks := w.locks[e.account := r])
    ensures var w' := Next(w5, Commit(r));
      var balance := row.balance - e.amount;
      && w'.log == w.log + [Move(Undoing(e, r, now))] && w'.locks == w.locks
      && w'.txns.Keys == w.txns.Keys && (forall q :: q in w.txns && q != r ==> w'.txns[q] == w.txns[q])
      && w'.book.accounts == w.book.accounts[e.account := row.(balance := balance)]
      && w'.book.entries == w.book.entries
           + [Entry(e.account, REVERSAL, -e.amount, balance, r, REVERSAL_PREFIX + e.reference, now)]
  {
    hide EntriesOf, Fresh, MarkedReversed, Possible, Execute, EventsOf, Decide, Answers, Accepted, Serve, Withdrawn;
    var changed := row.(balance := row.balance - e.amount);
    assert Released(w.locks[e.account := r], r) == w.locks;
    assert map[e.account := row][e.account := changed] == map[e.account := changed];
    assert w.book.accounts + map[e.account := changed] == w.book.accounts[e.account := changed];
  }

  lemma SixSteps(w0: World, l1: Label, w1: World, l2: Label, w2: World, l3: Label, w3: World,
                 l4: Label, w4: World, l5: Label, w5: World, l6: Label)
    requires Enabled(w0, l1) && w1 == Next(w0, l1) && Enabled(w1, l2) && w2 == Next(w1, l2)
    requires Enabled(w2, l3) && w3 == Next(w2, l3) && Enabled(w3, l4) && w4 == Next(w3, l4)
    requires Enabled(w4, l5) && w5 == Next(w4, l5) && Enabled(w5, l6)
    ensures Possible(w0, [l1, l2, l3, l4, l5, l6]) && Execute(w0, [l1, l2, l3, l4, l5, l6]) == Next(w5, l6)
  {
    hide Enabled, Next;
    ConsRun(w5, l6, []);
    assert [l6] == [l6] + [];
    ConsRun(w4, l5, [l6]);
    assert [l5, l6] == [l5] + [l6];
    ConsRun(w3, l4, [l5, l6]);
    assert [l4, l5, l6] == [l4] + [l5, l6];
    ConsRun(w2, l3, [l4, l5, l6]);
    assert [l3, l4, l5, l6] == [l3] + [l4, l5, l6];
    ConsRun(w1, l2, [l3, l4, l5, l6]);
    assert [l2, l3, l4, l5, l6] == [l2] + [l3, l4, l5, l6];
    ConsRun(w0, l1, [l2, l3, l4, l5, l6]);
    assert [l1, l2, l3, l4, l5, l6] == [l1] + [l2, l3, l4, l5, l6];
  }

  /** Two reversals of one transaction that both pass their check before either commits both commit,
      whenever the account can bear it: the transaction is reversed twice. */
  lemma OverlappingReversalsBothCommit(b: Book, e: Entry, r1: string, r2: string, now: int) returns (ls: seq<Label>)
    requires EntriesOf(b.entries, e.reference) == [e] && !MarkedReversed(b.entries, e.reference)
    requires e.account in b.accounts && b.accounts[e.account].balance >= e.amount
    requires b.accounts[e.account].balance >= 2 * e.amount
    requires Fresh(b.entries, r1) && Fresh(b.entries, r2) && r1 != r2 && e.reference != r1
    ensures Possible(Start(b), ls)
    ensures Execute(Start(b), ls).log == [Move(Undoing(e, r1, now)), Move(Undoing(e, r2, now))]
    ensures e.account in Execute(Start(b), ls).book.accounts
    ensures Execute(Start(b), ls).book.accounts[e.account].balance == b.accounts[e.account].balance - 2 * e.amount
  {
    hide EntriesOf, MarkedReversed, Possible, Execute;
    var op1, op2 := Asking(e, r1, now), Asking(e, r2, now);
    var w0 := Start(b);
    var w1 := Next(w0, Begin(op1));
    var w2 := Next(w1, Begin(op2));
    var w3 := Next(w2, Check(r1));
    assert w3.txns[r1] == Txn(op1, Checked);
    var w4 := Next(w3, Check(r2));
    assert w4 == World(b, map[r1 := Txn(op1, Checked), r2 := Txn(op2, Checked)], map[], [], map[]);
    FourSteps(w0, Begin(op1), w1, Begin(op2), w2, Check(r1), w3, Check(r2));
    var first := [Begin(op1), Begin(op2), Check(r1), Check(r2)];
    var ms := UnopposedCommits(w4, e, r1, now);
    var w5 := Execute(w4, ms);
    var extra := Entry(e.account, REVERSAL, -e.amount, b.accounts[e.account].balance - e.amount, r1, REVERSAL_PREFIX + e.reference, now);
    EntriesOfAppend(b.entries, extra, e.reference);
    var ns := UnopposedCommits(w5, e, r2, now);
    ConcatRun(w4, ms, ns);
    ConcatRun(w0, first, ms + ns);
    ls := first + (ms + ns);
  }

  /** Such a table is reached from an empty bank: two deposits, the second at least as large as the
      first, and then the first deposit can be reversed twice. */
  lemma DoubleReversalIsReachable(b: Book, id: AccountId, x: int, y: int, now: int) returns (ls: seq<Label>)
    requires EmptyBank(b) && id in b.accounts && b.accounts[id].status == ACTIVE && 0 < x <= y
    ensures var qs := [Move(Deposit(id, x, DEPOSIT_ENTRY, "", "DEP-1", now)), Move(Deposit(id, y, DEPOSIT_ENTRY, "", "DEP-2", now))];
      var e := Entry(id, DEPOSIT_ENTRY, x, x, "DEP-1", "", now);
      && LegalRun(b, qs) && Possible(Start(After(b, qs)), ls)
      && var w := Execute(Start(After(b, qs)), ls);
         && w.log == [Move(Undoing(e, "REV-1", now)), Move(Undoing(e, "REV-2", now))]
         && id in w.book.accounts && w.book.accounts[id].balance == y - x
  {
    var qs := [Move(Deposit(id, x, DEPOSIT_ENTRY, "", "DEP-1", now)), Move(Deposit(id, y, DEPOSIT_ENTRY, "", "DEP-2", now))];
    var e, f := Entry(id, DEPOSIT_ENTRY, x, x, "DEP-1", "", now), Entry(id, DEPOSIT_ENTRY, y, x + y, "DEP-2", "", now);
    hide After, LegalRun, EmptyBank, Possible, Execute, EntriesOf, MarkedReversed, Fresh;
    assert "DEP-1"[4] != "DEP-2"[4];
    TwoDeposits(b, Deposit(id, x, DEPOSIT_ENTRY, "", "DEP-1", now), Deposit(id, y, DEPOSIT_ENTRY, "", "DEP-2", now));
    FirstOfTwo(e, f);
    ls := OverlappingReversalsBothCommit(After(b, qs), e, "REV-1", "REV-2", now);
  }

  lemma FirstOfTwo(e: Entry, f: Entry)
    requires e.reference == "DEP-1" && f.reference == "DEP-2" && e.description == f.description == ""
    ensures EntriesOf([e, f], "DEP-1") == [e] && !MarkedReversed([e, f], "DEP-1")
    ensures Fresh([e, f], "REV-1") && Fresh([e, f], "REV-2") && "REV-1" != "REV-2" && "DEP-1" != "REV-1"
  {
    assert [] + [e] == [e] && [e] + [f] == [e, f];
    EntriesOfAppend([], e, "DEP-1");
    EntriesOfAppend([e], f, "DEP-1");
    assert "DEP-1"[4] != "DEP-2"[4] && "REV-1"[4] != "REV-2"[4] && "DEP-1"[0] != "REV-1"[0] == "REV-2"[0];
    assert "DEP-2"[0] == 'D';
    assert REVERSAL_PREFIX + "DEP-1" != "" by { assert |REVERSAL_PREFIX + "DEP-1"| > 0; }
  }

  lemma FourSteps(w0: World, l1: Label, w1: World, l2: Label, w2: World, l3: Label, w3: World, l4: Label)
    requires Enabled(w0, l1) && w1 == Next(w0, l1) && Enabled(w1, l2) && w2 == Next(w1, l2)
    requires Enabled(w2, l3) && w3 == Next(w2, l3) && Enabled(w3, l4)
    ensures Possible(w0, [l1, l2, l3, l4]) && Execute(w0, [l1, l2, l3, l4]) == Next(w3, l4)
  {
    hide Enabled, Next;
    ConsRun(w3, l4, []);
    assert [l4] == [l4] + [];
    ConsRun(w2, l3, [l4]);
    assert [l3, l4] == [l3] + [l4];
    ConsRun(w1, l2, [l3, l4]);
    assert [l2, l3, l4] == [l2] + [l3, l4];
    ConsRun(w0, l1, [l2, l3, l4]);
    assert [l1, l2, l3, l4] == [l1] + [l2, l3, l4];
  }
}
