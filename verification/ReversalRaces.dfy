/** When a reversal commits on a check that is no longer true. */
module ReversalRaces {
  import opened Entities
  import opened Ledger
  import opened LedgerRuns
  import opened Concurrency
  import opened Serialisability

  // ---------- The worlds a schedule passes through ----------

  lemma {:induction false} PrefixIsPossible(w: World, ls: seq<Label>, k: nat)
    requires Possible(w, ls) && k <= |ls|
    ensures Possible(w, ls[..k])
    ensures k < |ls| ==>
      && Enabled(Execute(w, ls[..k]), ls[k]) && Possible(w, ls[..k + 1])
      && Execute(w, ls[..k + 1]) == Next(Execute(w, ls[..k]), ls[k])
    decreases k
  {
    hide Enabled, Next;
    if k == 0 {
      if ls != [] { assert ls[..1] == [ls[0]] && ls[..1][1..] == []; }
    } else {
      PrefixIsPossible(Next(w, ls[0]), ls[1..], k - 1);
      assert ls[..k][1..] == ls[1..][..k - 1];
      if k < |ls| { assert ls[..k + 1][1..] == ls[1..][..k]; }
    }
  }

  /** The world before the k-th step, or after the last. */
  ghost function WorldAt(b: Book, ls: seq<Label>, k: nat): World
    requires Possible(Start(b), ls) && k <= |ls|
  {
    PrefixIsPossible(Start(b), ls, k);
    Execute(Start(b), ls[..k])
  }

  lemma StepAt(b: Book, ls: seq<Label>, k: nat)
    requires Possible(Start(b), ls) && k < |ls|
    ensures Enabled(WorldAt(b, ls, k), ls[k]) && Steady(WorldAt(b, ls, k))
    ensures WorldAt(b, ls, k + 1) == Next(WorldAt(b, ls, k), ls[k])
  {
    hide Enabled, Next, Steady;
    PrefixIsPossible(Start(b), ls, k);
    StartIsSteady(b);
    RunsAreSteady(Start(b), ls[..k]);
  }

  // ---------- Where marks come from ----------

  /** Entries a transaction commits carry a mark exactly when its operation writes it. */
  lemma CommitMarks(w: World, r: string, x: string)
    requires Steady(w) && Enabled(w, Commit(r))
    ensures MarkedReversed(Next(w, Commit(r)).book.entries, x) <==>
      MarkedReversed(w.book.entries, x) || WritesMark(w.txns[r].op, x)
  {
    var t, space := w.txns[r], w.txns[r].phase.space;
    assert Next(w, Commit(r)).book.entries == w.book.entries + space.written;
    assert UpToDate(w.book, t) && FoundAll(w.book, t);
    hide Enabled, Next, UpToDate, Steady, FoundAll, Held, WritesMark, MarkedReversed, LockAll, LockOrder, Covers;
    WrittenTexts(w.book, t, x);
    MarkedConcat(w.book.entries, space.written, x);
  }

  lemma MarkedConcat(es: seq<Entry>, fs: seq<Entry>, x: string)
    ensures MarkedReversed(es + fs, x) <==> MarkedReversed(es, x) || MarkedReversed(fs, x)
  {
    if i :| 0 <= i < |es| && es[i].description == REVERSAL_PREFIX + x { assert (es + fs)[i] == es[i]; }
    if i :| 0 <= i < |fs| && fs[i].description == REVERSAL_PREFIX + x { assert (es + fs)[|es| + i] == fs[i]; }
  }

  lemma WrittenTexts(b: Book, t: Txn, x: string)
    requires t.phase.Writing? && t.phase.pending == [] && UpToDate(b, t) && FoundAll(b, t)
    ensures MarkedReversed(t.phase.space.written, x) <==> WritesMark(t.op, x)
  {
    var space := t.phase.space;
    assert t.op.Reverse? ==> t.op.found != [];
    hide UpToDate, FoundAll, Held, WritesMark, LockAll, LockOrder, Covers;
    var rows := WorkIsDone(b, t, space);
    var withdrawn := Withdrawn(b.entries, t.op);
    var ps := Decide(t.op, rows, withdrawn).value;
    hide Decide, Withdrawn;
    DecidedPostable(t.op, rows, withdrawn);
    PostAllKeepsRows(Workspace(rows, []), ps, t.op.reference, t.op.now);
    assert |space.written| == |ps| && forall i :: 0 <= i < |ps| ==> space.written[i].description == ps[i].description;
    if WritesMark(t.op, x) {
      FirstTextMarks(t.op, rows, withdrawn, x);
      assert space.written[0].description == REVERSAL_PREFIX + x;
    } else {
      TextsLackMark(t.op, rows, withdrawn, x);
    }
  }

  /** The k-th step commits an operation that writes the mark of x. */
  ghost predicate MarksAt(b: Book, ls: seq<Label>, k: nat, x: string)
    requires Possible(Start(b), ls) && k < |ls|
  {
    ls[k].Commit? && ls[k].r in WorldAt(b, ls, k).txns && WritesMark(WorldAt(b, ls, k).txns[ls[k].r].op, x)
  }

  lemma OneStepMarks(b: Book, ls: seq<Label>, k: nat, x: string)
    requires Possible(Start(b), ls) && k < |ls|
    ensures MarkedReversed(WorldAt(b, ls, k + 1).book.entries, x) <==>
      MarkedReversed(WorldAt(b, ls, k).book.entries, x) || MarksAt(b, ls, k, x)
  {
    StepAt(b, ls, k);
    var w := WorldAt(b, ls, k);
    if ls[k].Commit? {
      assert ls[k].r in w.txns;
      CommitMarks(w, ls[k].r, x);
    } else {
      hide WorldAt, Possible, MarkedReversed, Steady;
      EntriesStay(w, ls[k]);
    }
  }

  lemma EntriesStay(w: World, l: Label)
    requires Enabled(w, l) && !l.Commit?
    ensures Next(w, l).book.entries == w.book.entries
  {
    hide Decide, Posted, Withdrawn, MarkedReversed, LockOrder, EventsOf, Released, Covers, Answers;
  }

  /** Between two moments a mark appears exactly when an operation that writes it commits. */
  lemma {:induction false} MarkAppears(b: Book, ls: seq<Label>, i: nat, j: nat, x: string)
    requires Possible(Start(b), ls) && i <= j <= |ls|
    ensures MarkedReversed(WorldAt(b, ls, j).book.entries, x) <==>
      MarkedReversed(WorldAt(b, ls, i).book.entries, x) || exists k :: i <= k < j && MarksAt(b, ls, k, x)
    decreases j
  {
    hide Possible, WorldAt, MarkedReversed, MarksAt;
    if i < j {
      MarkAppears(b, ls, i, j - 1, x);
      OneStepMarks(b, ls, j - 1, x);
    }
  }

  // ---------- What a committing reversal has checked ----------

  predicate PastCheck(t: Txn) {
    !t.phase.Queued? && !t.phase.Aborted?
  }

  /** A reversal past its check stood at its check once, before, and its original was unmarked then. */
  lemma {:induction false} CheckedBefore(b: Book, ls: seq<Label>, j: nat, r: string) returns (i: nat)
    requires Possible(Start(b), ls) && j <= |ls|
    requires var w := WorldAt(b, ls, j); r in w.txns && w.txns[r].op.Reverse? && PastCheck(w.txns[r])
    ensures i < j && ls[i] == Check(r)
    ensures !MarkedReversed(WorldAt(b, ls, i).book.entries, WorldAt(b, ls, j).txns[r].op.original)
    decreases j
  {
    assert WorldAt(b, ls, 0) == Start(b) by { assert ls[..0] == []; }
    assert j > 0;
    StepAt(b, ls, j - 1);
    var w, l := WorldAt(b, ls, j - 1), ls[j - 1];
    hide WorldAt, Possible, Steady;
    CheckComesFirst(w, l, r);
    if r in w.txns && PastCheck(w.txns[r]) {
      i := CheckedBefore(b, ls, j - 1, r);
    } else {
      i := j - 1;
    }
  }

  lemma CheckComesFirst(w: World, l: Label, r: string)
    requires Enabled(w, l) && r in Next(w, l).txns && Next(w, l).txns[r].op.Reverse? && PastCheck(Next(w, l).txns[r])
    ensures r in w.txns && w.txns[r].op.Reverse? && w.txns[r].op.original == Next(w, l).txns[r].op.original
    ensures PastCheck(w.txns[r]) || (l == Check(r) && !MarkedReversed(w.book.entries, w.txns[r].op.original))
  {
    hide Decide, Posted, Withdrawn, MarkedReversed, LockOrder, EventsOf, Released, Covers, Answers;
  }

  /** A reversal commits on a stale check exactly when, between its check and its commit, an operation
      that writes the mark of its original has committed. */
  lemma StaleCommits(b: Book, ls: seq<Label>, j: nat, r: string) returns (i: nat)
    requires Possible(Start(b), ls) && j < |ls| && ls[j] == Commit(r)
    requires var w := WorldAt(b, ls, j); r in w.txns && w.txns[r].op.Reverse?
    ensures i < j && ls[i] == Check(r)
    ensures !CarefulStep(WorldAt(b, ls, j), ls[j]) <==>
      exists k :: i < k < j && MarksAt(b, ls, k, WorldAt(b, ls, j).txns[r].op.original)
  {
    StepAt(b, ls, j);
    var x := WorldAt(b, ls, j).txns[r].op.original;
    assert PastCheck(WorldAt(b, ls, j).txns[r]);
    hide WorldAt, Possible, Steady, Enabled, MarkedReversed;
    i := CheckedBefore(b, ls, j, r);
    MarkAppears(b, ls, i, j, x);
    assert !MarksAt(b, ls, i, x);
  }

  /** Two reversals of one transaction both commit only if they overlap: the later one has checked
      before the earlier one committed. */
  lemma TwoReversalsOverlap(b: Book, ls: seq<Label>, i: nat, j: nat, q: string, r: string) returns (k: nat)
    requires Possible(Start(b), ls) && i < j < |ls| && ls[i] == Commit(q) && ls[j] == Commit(r)
    requires q in WorldAt(b, ls, i).txns && r in WorldAt(b, ls, j).txns
    requires var first, second := WorldAt(b, ls, i).txns[q].op, WorldAt(b, ls, j).txns[r].op;
      first.Reverse? && second.Reverse? && first.original == second.original
    ensures k < i && ls[k] == Check(r)
  {
    StepAt(b, ls, j);
    var x := WorldAt(b, ls, j).txns[r].op.original;
    assert PastCheck(WorldAt(b, ls, j).txns[r]);
    assert MarksAt(b, ls, i, x);
    hide WorldAt, Possible, Steady, Enabled, MarkedReversed, MarksAt;
    k := CheckedBefore(b, ls, j, r);
    assert k != i;
    if i < k { MarkAppears(b, ls, i, k, x); }
  }
}
