/** Locking in the order of the rows: nobody waits for ever, and every transaction comes to an end. */
module Liveness {
  import opened AccountIds
  import opened Entities
  import opened Ledger
  import opened LedgerRuns
  import opened Reversal
  import opened Sums
  import opened Concurrency

  /** A step of a transaction already begun. */
  predicate Progress(l: Label) {
    !l.Begin? && !l.Admin?
  }

  predicate Waiting(w: World, r: string) {
    r in w.txns && w.txns[r].phase.Locking? && w.txns[r].phase.todo != [] && w.txns[r].phase.todo[0] in w.locks
  }

  lemma WellPrepared(b: Book, t: Txn)
    requires UpToDate(b, t)
    ensures t.phase.Deciding? ==> Covers(t.phase.rows, t.op)
    ensures t.phase.Writing? ==> Covers(t.phase.space.rows, t.op)
    ensures t.phase.Writing? && t.phase.pending != [] ==> t.phase.pending[0].account in t.phase.space.rows
  {}

  /** An active transaction that does not wait for a lock can take its next step. */
  lemma StepAhead(w: World, r: string) returns (l: Label)
    requires Orderly(w) && r in w.txns && Active(w.txns[r]) && !Waiting(w, r)
    ensures Progress(l) && Enabled(w, l)
  {
    hide Held, Fresh, UpToDate, Covers, EntriesOf;
    var t := w.txns[r];
    WellPrepared(w.book, t);
    match t.phase
    case Queued => l := Check(r);
    case Checked =>
      l := Find(r, EntriesOf(w.book.entries, if t.op.Reverse? then t.op.original else ""));
    case Locking(todo, _) => l := if todo == [] then Read(r) else Lock(r);
    case Deciding(_, _) => l := Validate(r);
    case Writing(_, pending) => l := if pending == [] then Commit(r) else Post(r);
    case Durable(_) => l := Publish(r);
  }

  /** The texts of every transfer begun sort as their rows do. */
  ghost predicate AllInRowOrder(w: World) {
    forall r :: r in w.txns ==> InRowOrder(w.txns[r].op)
  }

  /** The locks a transaction holds come before those it still wants. */
  lemma HeldComeFirst(b: Book, t: Txn, id: AccountId)
    requires UpToDate(b, t) && t.phase.Locking? && t.phase.todo != [] && id in Held(t) && InRowOrder(t.op)
    ensures Less(id, t.phase.todo[0])
  {
    LocksAreOrdered(t.op);
    hide LockOrder, InRowOrder, Less;
    var ids, todo := LockOrder(t.op), t.phase.todo;
    var k :| 0 <= k < |ids| && ids[k] == id;
    assert ids[|ids| - |todo|] == todo[0];
  }

  /** Whoever holds the lock another waits for waits, if at all, for a greater one. */
  lemma HolderIsAhead(w: World, r: string) returns (q: string)
    requires Orderly(w) && AllInRowOrder(w) && Waiting(w, r)
    ensures q in w.txns && Active(w.txns[q])
    ensures Waiting(w, q) ==> Less(w.txns[r].phase.todo[0], w.txns[q].phase.todo[0])
  {
    hide Fresh, UpToDate, Held, Less, InRowOrder;
    var id := w.txns[r].phase.todo[0];
    q := w.locks[id];
    assert id in Held(w.txns[q]) && UpToDate(w.book, w.txns[q]);
    HoldersAreActive(w.txns[q], id);
    if Waiting(w, q) { HeldComeFirst(w.book, w.txns[q], id); }
  }

  lemma HoldersAreActive(t: Txn, id: AccountId)
    requires id in Held(t)
    ensures Active(t)
  {}

  ghost function LocksFrom(w: World, id: AccountId): set<AccountId> {
    set x | x in w.locks && (x == id || Less(id, x))
  }

  lemma FewerLocksAhead(w: World, x: AccountId, y: AccountId)
    requires x in w.locks && Less(x, y)
    ensures |LocksFrom(w, y)| < |LocksFrom(w, x)|
  {
    LessIsAsymmetric(x, y);
    hide Less;
    forall z | z in LocksFrom(w, y) ensures z in LocksFrom(w, x) {
      if z != y { LessIsTransitive(x, y, z); }
    }
    assert x in LocksFrom(w, x) && x !in LocksFrom(w, y);
    SmallerSet(LocksFrom(w, y), LocksFrom(w, x));
  }

  /** Deadlock freedom, when texts sort as rows do: while any transaction is unfinished, some transaction
      can step. */
  lemma {:induction false} SomeoneCanStep(w: World, r: string) returns (l: Label)
    requires Orderly(w) && AllInRowOrder(w) && r in w.txns && Active(w.txns[r])
    ensures Progress(l) && Enabled(w, l)
    decreases if Waiting(w, r) then 1 + |LocksFrom(w, w.txns[r].phase.todo[0])| else 0
  {
    hide Orderly, Enabled, AllInRowOrder, LocksFrom, Less;
    if Waiting(w, r) {
      var q := HolderIsAhead(w, r);
      if Waiting(w, q) { FewerLocksAhead(w, w.txns[r].phase.todo[0], w.txns[q].phase.todo[0]); }
      l := SomeoneCanStep(w, q);
    } else {
      l := StepAhead(w, r);
    }
  }

  lemma SmallerSet(a: set<AccountId>, b: set<AccountId>)
    requires a < b
    ensures |a| < |b|
  {
    var x :| x in b && x !in a;
    assert a <= b - {x};
    SubsetSize(a, b - {x});
  }

  lemma {:induction false} SubsetSize(a: set<AccountId>, b: set<AccountId>)
    requires a <= b
    ensures |a| <= |b|
    decreases a
  {
    if x :| x in a { SubsetSize(a - {x}, b - {x}); }
  }

  // ---------- Termination ----------

  /** Steps left before the operation knows its postings. */
  function Early(t: Txn): int {
    match t.phase
    case Queued => 2
    case Checked => 1
    case _ => 0
  }

  function MostPostings(op: Op): nat {
    if op.Reverse? then |op.found| else 3
  }

  /** Steps left after that. */
  function Late(t: Txn): int {
    match t.phase
    case Locking(todo, _) => |todo| + MostPostings(t.op) + 4
    case Deciding(_, _) => MostPostings(t.op) + 3
    case Writing(_, pending) => |pending| + 2
    case Durable(_) => 1
    case _ => 0
  }

  ghost function EarlyLeft(w: World): int {
    MapSum(map r | r in w.txns :: Early(w.txns[r]))
  }

  ghost function LateLeft(w: World): int {
    MapSum(map r | r in w.txns :: Late(w.txns[r]))
  }

  lemma LeftIsNatural(w: World)
    ensures EarlyLeft(w) >= 0 && LateLeft(w) >= 0
  {
    MapSumNonNegative(map r | r in w.txns :: Early(w.txns[r]));
    MapSumNonNegative(map r | r in w.txns :: Late(w.txns[r]));
  }

  lemma LeftAfter(w: World, w': World, r: string, t: Txn)
    requires r in w.txns && w'.txns == w.txns[r := t]
    ensures EarlyLeft(w') == EarlyLeft(w) + Early(t) - Early(w.txns[r])
    ensures LateLeft(w') == LateLeft(w) + Late(t) - Late(w.txns[r])
  {
    EarlyAfter(w, w', r, t);
    LateAfter(w, w', r, t);
  }

  lemma EarlyAfter(w: World, w': World, r: string, t: Txn)
    requires r in w.txns && w'.txns == w.txns[r := t]
    ensures EarlyLeft(w') == EarlyLeft(w) + Early(t) - Early(w.txns[r])
  {
    hide Early, MapSum;
    var before := map q | q in w.txns :: Early(w.txns[q]);
    MapSumUpdate(before, r, Early(t));
    assert (map q | q in w'.txns :: Early(w'.txns[q])) == before[r := Early(t)];
  }

  lemma LateAfter(w: World, w': World, r: string, t: Txn)
    requires r in w.txns && w'.txns == w.txns[r := t]
    ensures LateLeft(w') == LateLeft(w) + Late(t) - Late(w.txns[r])
  {
    hide Late, MapSum;
    var before := map q | q in w.txns :: Late(w.txns[q]);
    MapSumUpdate(before, r, Late(t));
    assert (map q | q in w'.txns :: Late(w'.txns[q])) == before[r := Late(t)];
  }

  lemma OnlyTheActorMoves(w: World, l: Label) returns (t: Txn)
    requires Enabled(w, l) && Progress(l)
    ensures l.r in w.txns && Next(w, l).txns == w.txns[l.r := t]
    ensures Early(t) < Early(w.txns[l.r]) || (Early(t) == Early(w.txns[l.r]) && Late(t) < Late(w.txns[l.r]))
  {
    hide Decide, Posted, Withdrawn, LockOrder, Fresh, Accepted, EventsOf, MarkedReversed, Less, Row;
    t := Next(w, l).txns[l.r];
    if l.Validate? { FewPostings(w.txns[l.r].op, w.txns[l.r].phase.rows, w.txns[l.r].phase.withdrawn); }
  }

  lemma FewPostings(op: Op, rows: map<AccountId, Account>, withdrawn: int)
    requires Covers(rows, op)
    ensures Decide(op, rows, withdrawn).Success? ==> |Decide(op, rows, withdrawn).value| <= MostPostings(op)
  {
    hide Less, Row, LockOrder, Payer, Payee, TwoCopies, TransferText;
    if op.Transfer? {
      RolesAreLocked(op);
    } else if !op.Reverse? {
      AccountIsLocked(op);
    }
  }

  /** Every step of a begun transaction lowers what is left to do. */
  lemma ProgressDescends(w: World, l: Label)
    requires Enabled(w, l) && Progress(l)
    ensures EarlyLeft(Next(w, l)) < EarlyLeft(w)
            || (EarlyLeft(Next(w, l)) == EarlyLeft(w) && LateLeft(Next(w, l)) < LateLeft(w))
  {
    hide Enabled, Next;
    var t := OnlyTheActorMoves(w, l);
    LeftAfter(w, Next(w, l), l.r, t);
  }

  ghost predicate Steps(w: World, l: Label, w': World) {
    Progress(l) && Enabled(w, l) && w' == Next(w, l)
  }

  /** No schedule goes on for ever: in every sequence of worlds the begun transactions come to rest. */
  lemma {:induction false} EveryScheduleEnds(run: nat -> World, steps: nat -> Label, n: nat) returns (i: nat)
    ensures i >= n && !Steps(run(i), steps(i), run(i + 1))
    decreases EarlyLeft(run(n)), LateLeft(run(n))
  {
    hide Enabled, Next;
    if Steps(run(n), steps(n), run(n + 1)) {
      ProgressDescends(run(n), steps(n));
      LeftIsNatural(run(n));
      LeftIsNatural(run(n + 1));
      i := EveryScheduleEnds(run, steps, n + 1);
    } else {
      i := n;
    }
  }

  /** And where it comes to rest, when texts sort as rows do, everybody is done: committed and announced,
      or aborted. */
  lemma AtRestEverybodyIsDone(w: World)
    requires Orderly(w) && AllInRowOrder(w) && forall l :: Progress(l) ==> !Enabled(w, l)
    ensures forall r :: r in w.txns ==> w.txns[r].phase.Finished? || w.txns[r].phase.Aborted?
    ensures w.locks == map[]
  {
    hide UpToDate, Fresh, InRowOrder;
    forall r | r in w.txns ensures w.txns[r].phase.Finished? || w.txns[r].phase.Aborted? {
      if Active(w.txns[r]) {
        var l := SomeoneCanStep(w, r);
        assert false;
      }
    }
    assert forall r :: r in w.txns ==> Held(w.txns[r]) == {};
  }
}
