/** Which transfers can deadlock: those whose texts do not sort as their rows do. */
module Deadlocks {
  import opened Wrappers
  import opened AccountIds
  import opened Ledger
  import opened Reversal
  import opened LedgerRuns
  import opened Concurrency
  import opened Serialisability
  import opened Liveness
  import opened OverlappingReversals
  import opened MixedCaseTransfers

  // ---------- In company of transfers in row order ----------

  lemma StepKeepsRowOrder(w: World, l: Label)
    requires AllInRowOrder(w) && Enabled(w, l) && (l.Begin? ==> InRowOrder(l.op))
    ensures AllInRowOrder(Next(w, l))
  {
    hide Decide, Posted, Withdrawn, MarkedReversed, LockOrder, Fresh, Accepted, EventsOf, Released, Covers, Answers, Less, Row;
  }

  lemma {:induction false} RunsKeepRowOrder(w: World, ls: seq<Label>)
    requires AllInRowOrder(w) && Possible(w, ls)
    requires forall i :: 0 <= i < |ls| && ls[i].Begin? ==> InRowOrder(ls[i].op)
    ensures AllInRowOrder(Execute(w, ls))
    decreases |ls|
  {
    hide AllInRowOrder, Enabled, Next, InRowOrder;
    if ls != [] {
      StepKeepsRowOrder(w, ls[0]);
      RunsKeepRowOrder(Next(w, ls[0]), ls[1..]);
    }
  }

  /** Nobody is stuck: whenever a transaction is unfinished, some transaction can step. */
  ghost predicate NobodyStuck(w: World) {
    forall r :: r in w.txns && Active(w.txns[r]) ==> exists l :: Progress(l) && Enabled(w, l)
  }

  /** When the texts of every transfer begun sort as their rows do, no schedule gets stuck. */
  lemma RowOrderNeverSticks(b: Book, ls: seq<Label>)
    requires Possible(Start(b), ls)
    requires forall i :: 0 <= i < |ls| && ls[i].Begin? ==> InRowOrder(ls[i].op)
    ensures NobodyStuck(Execute(Start(b), ls))
  {
    hide Possible, Execute, Enabled, Orderly, AllInRowOrder, InRowOrder;
    StartIsSteady(b);
    RunsAreSteady(Start(b), ls);
    assert AllInRowOrder(Start(b)) by { NobodyYet(b); }
    RunsKeepRowOrder(Start(b), ls);
    var w := Execute(Start(b), ls);
    forall r | r in w.txns && Active(w.txns[r]) ensures exists l :: Progress(l) && Enabled(w, l) {
      var l := SomeoneCanStep(w, r);
    }
  }

  lemma NobodyYet(b: Book)
    ensures AllInRowOrder(Start(b))
  {}

  // ---------- Against a transfer the other way ----------

  /** The opposite transfer between the ids of the rows. */
  function Back(op: Op, r: string): Op
    requires op.Transfer?
  {
    Transfer(Row(Second(op)), Row(First(op)), 1, 0, None, r, op.now)
  }

  lemma OppositeOrders(op: Op, r: string)
    requires op.Transfer? && !InRowOrder(op)
    ensures var x, y := Row(First(op)), Row(Second(op));
      && x != y && LockOrder(op) == [x, y] && LockOrder(Back(op, r)) == [y, x]
      && InRowOrder(Back(op, r)) && Back(op, r).from != Back(op, r).to
  {
    var x, y, back := Row(First(op)), Row(Second(op)), Back(op, r);
    LessIsTotal(x, y);
    LessIsAsymmetric(y, x);
    RowIsCanonical(First(op));
    RowIsCanonical(Second(op));
    hide Less, Row;
    assert First(back) == y && Second(back) == x;
  }

  /** Two transactions, each holding the row the other wants next. */
  ghost predicate Crossed(w: World, q: string, r: string, x: AccountId, y: AccountId) {
    && q != r && x != y && w.txns.Keys == {q, r} && w.locks == map[x := q, y := r]
    && w.txns[q].phase.Locking? && w.txns[q].phase.todo == [y]
    && w.txns[r].phase.Locking? && w.txns[r].phase.todo == [x]
  }

  lemma CrossedIsStuck(w: World, q: string, r: string, x: AccountId, y: AccountId)
    requires Crossed(w, q, r, x, y)
    ensures Active(w.txns[q]) && Active(w.txns[r]) && forall l :: Progress(l) ==> !Enabled(w, l)
    ensures !NobodyStuck(w)
  {
    hide Decide, Posted, Withdrawn, MarkedReversed, LockOrder, Fresh, Accepted, EventsOf, Covers, Answers;
  }

  /** A transfer out of row order gets stuck with the opposite transfer between the ids of its rows: each
      locks its first row and then waits for the other for ever. */
  lemma OutOfOrderSticks(b: Book, op: Op, r: string) returns (ls: seq<Label>)
    requires op.Transfer? && op.from != op.to && !InRowOrder(op)
    requires Row(op.from) in b.accounts && Row(op.to) in b.accounts
    requires Fresh(b.entries, op.reference) && Fresh(b.entries, r) && r != op.reference
    ensures Possible(Start(b), ls) && forall i :: 0 <= i < |ls| && ls[i].Begin? ==> ls[i].op == op || ls[i].op == Back(op, r)
    ensures Crossed(Execute(Start(b), ls), op.reference, r, Row(First(op)), Row(Second(op)))
  {
    hide Less, Row, First, Second, Fresh, MarkedReversed, Possible, Execute, Answers, InRowOrder, LockOrder;
    var q, back := op.reference, Back(op, r);
    OppositeOrders(op, r);
    var x, y := Row(First(op)), Row(Second(op));
    RowsOfTexts(op);
    var w0 := Start(b);
    var w4 := World(b, map[q := Txn(op, Checked), r := Txn(back, Checked)], map[], [], map[]);
    var first := BothChecked(b, op, back);
    var w8 := World(b, map[q := Txn(op, Locking([y], map[x := b.accounts[x]])), r := Txn(back, Locking([x], map[y := b.accounts[y]]))],
                    map[x := q, y := r], [], map[]);
    var second := BothLocked(b, op, back, w4, w8, x, y);
    ConcatRun(w0, first, second);
    ls := first + second;
  }

  lemma RowsOfTexts(op: Op)
    requires op.Transfer?
    ensures {Row(First(op)), Row(Second(op))} == {Row(op.from), Row(op.to)}
  {
    hide Less, Row;
  }

  lemma BothChecked(b: Book, op: Op, back: Op) returns (ls: seq<Label>)
    requires op.Transfer? && op.from != op.to && back.Transfer? && back.from != back.to && op.reference != back.reference
    requires Fresh(b.entries, op.reference) && Fresh(b.entries, back.reference)
    ensures ls == [Begin(op), Begin(back), Check(op.reference), Check(back.reference)] && Possible(Start(b), ls)
    ensures Execute(Start(b), ls)
            == World(b, map[op.reference := Txn(op, Checked), back.reference := Txn(back, Checked)], map[], [], map[])
  {
    hide Fresh, MarkedReversed, Possible, Execute, LockOrder;
    var q, r := op.reference, back.reference;
    var w0 := Start(b);
    var w1 := Next(w0, Begin(op));
    var w2 := Next(w1, Begin(back));
    var w3 := Next(w2, Check(q));
    assert w3.txns[q] == Txn(op, Checked);
    var w4 := Next(w3, Check(r));
    assert w4.txns == map[q := Txn(op, Checked), r := Txn(back, Checked)];
    FourSteps(w0, Begin(op), w1, Begin(back), w2, Check(q), w3, Check(r));
    ls := [Begin(op), Begin(back), Check(q), Check(r)];
  }

  lemma BothLocked(b: Book, op: Op, back: Op, w4: World, w8: World, x: AccountId, y: AccountId) returns (ls: seq<Label>)
    requires op.Transfer? && back.Transfer? && op.reference != back.reference
    requires x != y && x in b.accounts && y in b.accounts && LockOrder(op) == [x, y] && LockOrder(back) == [y, x]
    requires w4 == World(b, map[op.reference := Txn(op, Checked), back.reference := Txn(back, Checked)], map[], [], map[])
    requires w8 == World(b, map[op.reference := Txn(op, Locking([y], map[x := b.accounts[x]])),
                                back.reference := Txn(back, Locking([x], map[y := b.accounts[y]]))],
                         map[x := op.reference, y := back.reference], [], map[])
    ensures ls == [Find(op.reference, []), Find(back.reference, []), Lock(op.reference), Lock(back.reference)]
    ensures Possible(w4, ls) && Execute(w4, ls) == w8
  {
    hide Fresh, MarkedReversed, Possible, Execute, LockOrder, EntriesOf;
    var q, r := op.reference, back.reference;
    var w5 := Next(w4, Find(q, []));
    assert w5.txns[q] == Txn(op, Locking([x, y], map[]));
    var w6 := Next(w5, Find(r, []));
    assert w6.txns == map[q := Txn(op, Locking([x, y], map[])), r := Txn(back, Locking([y, x], map[]))];
    assert [x, y][1..] == [y] && [y, x][1..] == [x];
    var w7 := Next(w6, Lock(q));
    assert w7.txns[q] == Txn(op, Locking([y], map[x := b.accounts[x]]));
    assert Next(w7, Lock(r)).txns == w8.txns;
    FourSteps(w4, Find(q, []), w5, Find(r, []), w6, Lock(q), w7, Lock(r));
    ls := [Find(q, []), Find(r, []), Lock(q), Lock(r)];
  }

  /** A transfer between existing rows can be part of a schedule that gets stuck, among operations that
      lock in row order, exactly when its own texts do not sort as their rows do. */
  lemma SticksExactly(b: Book, op: Op, r: string)
    requires op.Transfer? && op.from != op.to && Row(op.from) in b.accounts && Row(op.to) in b.accounts
    requires Fresh(b.entries, op.reference) && Fresh(b.entries, r) && r != op.reference
    ensures InRowOrder(op) <==>
      forall ls :: Possible(Start(b), ls) && Company(op, ls) ==> NobodyStuck(Execute(Start(b), ls))
  {
    hide Possible, Execute, InRowOrder, Fresh, Row, NobodyStuck, Crossed;
    if InRowOrder(op) {
      forall ls | Possible(Start(b), ls) && Company(op, ls) ensures NobodyStuck(Execute(Start(b), ls)) {
        RowOrderNeverSticks(b, ls);
      }
    } else {
      var ls := OutOfOrderSticks(b, op, r);
      OppositeOrders(op, r);
      CrossedIsStuck(Execute(Start(b), ls), op.reference, r, Row(First(op)), Row(Second(op)));
    }
  }

  /** Only this transfer, and operations that lock in row order, are begun. */
  ghost predicate Company(op: Op, ls: seq<Label>) {
    forall i :: 0 <= i < |ls| && ls[i].Begin? ==> ls[i].op == op || InRowOrder(ls[i].op)
  }

  /** Two opposite transfers between two accounts, the first text of one in capitals, wait for each other. */
  lemma CapitalLetterDeadlocks(b: Book, x: int, now: int) returns (ls: seq<Label>)
    requires b.entries == [] && SMALL_A in b.accounts && SMALL_B in b.accounts
    ensures var there, back := Transfer(CAPITAL_B, SMALL_A, x, 0, None, "TRF-1", now), Transfer(SMALL_A, SMALL_B, 1, 0, None, "TRF-2", now);
      && Possible(Start(b), ls) && (forall i :: 0 <= i < |ls| && ls[i].Begin? ==> ls[i].op == there || ls[i].op == back)
      && Crossed(Execute(Start(b), ls), "TRF-1", "TRF-2", SMALL_B, SMALL_A)
      && forall l :: Progress(l) ==> !Enabled(Execute(Start(b), ls), l)
  {
    var there := Transfer(CAPITAL_B, SMALL_A, x, 0, None, "TRF-1", now);
    FourSpellings();
    LessIsAsymmetric(CAPITAL_B, SMALL_A);
    LessIsAsymmetric(SMALL_A, SMALL_B);
    assert "TRF-1"[4] != "TRF-2"[4];
    hide Less, Row, Possible, Execute, Enabled, Crossed;
    assert First(there) == CAPITAL_B && Second(there) == SMALL_A && !InRowOrder(there);
    ls := OutOfOrderSticks(b, there, "TRF-2");
    CrossedIsStuck(Execute(Start(b), ls), "TRF-1", "TRF-2", SMALL_B, SMALL_A);
  }
}
