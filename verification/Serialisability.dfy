/** Interleaved transactions end as if they had run one by one, in commit order. */
module Serialisability {
  import opened Wrappers
  import opened AccountIds
  import opened Entities
  import opened DomainEvents
  import opened Ledger
  import opened LedgerInvariants
  import opened LedgerTransfer
  import opened Reversal
  import opened LedgerRuns
  import opened Concurrency

  // ---------- Schedules ----------

  ghost predicate Possible(w: World, ls: seq<Label>)
    decreases |ls|
  {
    ls == [] || (Enabled(w, ls[0]) && Possible(Next(w, ls[0]), ls[1..]))
  }

  ghost function Execute(w: World, ls: seq<Label>): World
    requires Possible(w, ls)
    decreases |ls|
  {
    if ls == [] then w else Execute(Next(w, ls[0]), ls[1..])
  }

  predicate Uncommitted(t: Txn) {
    t.phase.Queued? || t.phase.Checked? || t.phase.Locking? || t.phase.Deciding? || t.phase.Writing?
  }

  /** No text in the table marks what this operation would reverse. */
  predicate Unmarked(b: Book, op: Op) {
    op.Reverse? ==> !MarkedReversed(b.entries, op.original)
  }

  /** A reversal does not commit while its original is marked as reversed. */
  predicate CarefulStep(w: World, l: Label) {
    l.Commit? && l.r in w.txns ==> Unmarked(w.book, w.txns[l.r].op)
  }

  ghost predicate Careful(w: World, ls: seq<Label>)
    requires Possible(w, ls)
    decreases |ls|
  {
    ls != [] ==> CarefulStep(w, ls[0]) && Careful(Next(w, ls[0]), ls[1..])
  }

  // ---------- What every schedule keeps ----------

  /** Nothing is below zero, and the log explains every surplus: without a transfer on two copies of one
      row the books are balanced. */
  ghost predicate Accounted(w: World) {
    && Orderly(w) && Solvent(w.book)
    && (forall id :: LogExplains(w.book, w.log, id))
    && (Clean(w.log) ==> Balanced(w.book))
  }

  lemma StartIsAccounted(b: Book)
    requires Balanced(b)
    ensures Accounted(Start(b))
  {
  }

  /** The postings a commit makes durable. */
  lemma CommitParts(w: World, r: string) returns (rows: map<AccountId, Account>, ps: seq<Posting>)
    requires Orderly(w) && Enabled(w, Commit(r))
    ensures var op := w.txns[r].op;
      && Covers(rows, op) && Decide(op, rows, Withdrawn(w.book.entries, op)) == Success(ps) && Postable(rows, ps)
      && PostAll(Workspace(rows, []), ps, op.reference, op.now) == Success(w.txns[r].phase.space)
    ensures Overlay(w.book, Workspace(rows, [])) == w.book && rows.Keys <= w.book.accounts.Keys
    ensures Next(w, Commit(r)).book == Overlay(w.book, w.txns[r].phase.space)
    ensures Next(w, Commit(r)).log == w.log + [Move(w.txns[r].op)]
  {
    hide UpToDate, Held, EventsOf, Fresh, Decide, Withdrawn, Work, PostAll, Less, Row, Covers;
    var t := w.txns[r];
    rows := WorkIsDone(w.book, t, t.phase.space);
    WorkIsDecided(t.op, rows, Withdrawn(w.book.entries, t.op));
    ps := Decide(t.op, rows, Withdrawn(w.book.entries, t.op)).value;
    DecidedIsPosted(t.op, rows, Withdrawn(w.book.entries, t.op), ps);
    OverlayOfNothing(w.book, rows);
  }

  lemma WorkIsDecided(op: Op, rows: map<AccountId, Account>, withdrawn: int)
    requires Covers(rows, op) && Work(op, rows, withdrawn).Success?
    ensures Decide(op, rows, withdrawn).Success?
  {
    hide Decide, Covers;
  }

  lemma CommitAddsDrift(w: World, r: string, id: AccountId)
    requires Orderly(w) && Enabled(w, Commit(r))
    ensures AddsDrift(w.book, Move(w.txns[r].op), Next(w, Commit(r)).book, id)
  {
    hide Orderly, Next, EventsOf, Decide, Withdrawn, PostAll, Less, Row, Covers, Surplus, Overlay, LockOrder;
    var rows, ps := CommitParts(w, r);
    var op, space := w.txns[r].op, w.txns[r].phase.space;
    DecidedMisses(op, rows, Withdrawn(w.book.entries, op), id);
    if id in w.book.accounts {
      PostAllAddsMissed(w.book, Workspace(rows, []), ps, op.reference, op.now, id);
    } else {
      PostAllKeepsRows(Workspace(rows, []), ps, op.reference, op.now);
      SameAccounts(w.book, space, id);
      if op.Transfer? { PayerIsCovered(op, rows); }
    }
  }

  lemma SameKeys(b: Book, space: Workspace)
    requires space.rows.Keys <= b.accounts.Keys
    ensures Overlay(b, space).accounts.Keys == b.accounts.Keys
  {}

  lemma SameAccounts(b: Book, space: Workspace, id: AccountId)
    requires id !in b.accounts && space.rows.Keys <= b.accounts.Keys
    ensures id !in Overlay(b, space).accounts
  {}

  lemma PayerIsCovered(op: Op, rows: map<AccountId, Account>)
    requires op.Transfer? && Covers(rows, op)
    ensures Payer(op) in rows
  {
    RolesAreLocked(op);
  }

  lemma CommitKeepsSolvent(w: World, r: string)
    requires Orderly(w) && Enabled(w, Commit(r)) && Solvent(w.book)
    ensures Solvent(Next(w, Commit(r)).book)
  {
    hide Orderly, Next, Decide, PostAll, Covers, Solvent;
    var rows, ps := CommitParts(w, r);
    PostAllKeepsSolvent(w.book, Workspace(rows, []), ps, w.txns[r].op.reference, w.txns[r].op.now);
  }

  lemma CommitKeepsBalanced(w: World, r: string)
    requires Orderly(w) && Enabled(w, Commit(r)) && Balanced(w.book) && !TwoCopies(w.txns[r].op)
    ensures Balanced(Next(w, Commit(r)).book)
  {
    hide Orderly, Next, Decide, PostAll, Covers, BalancedOn, Solvent, TwoCopies, Overlay;
    var rows, ps := CommitParts(w, r);
    forall id | BalancedOn(w.book, id) ensures BalancedOn(Next(w, Commit(r)).book, id) {
      DecidedMisses(w.txns[r].op, rows, Withdrawn(w.book.entries, w.txns[r].op), id);
      PostAllKeepsBalanced(w.book, Workspace(rows, []), ps, w.txns[r].op.reference, w.txns[r].op.now, id);
    }
    CommitKeepsSolvent(w, r);
    PostAllKeepsRows(Workspace(rows, []), ps, w.txns[r].op.reference, w.txns[r].op.now);
    SameKeys(w.book, w.txns[r].phase.space);
  }

  lemma CommitKeepsAccounted(w: World, r: string)
    requires Accounted(w) && Enabled(w, Commit(r))
    ensures Accounted(Next(w, Commit(r)))
  {
    StepKeepsOrderly(w, Commit(r));
    hide Orderly, Balanced, Solvent, LogExplains, AddsDrift, TwoCopies, Clean, Next;
    var w', q := Next(w, Commit(r)), Move(w.txns[r].op);
    var rows, ps := CommitParts(w, r);
    forall id ensures LogExplains(w'.book, w'.log, id) {
      CommitAddsDrift(w, r, id);
      StillExplains(w.book, w.log, q, w'.book, id);
    }
    CommitKeepsSolvent(w, r);
    CleanPrefix(w.log, q);
    if Clean(w'.log) { CommitKeepsBalanced(w, r); }
  }

  lemma AdminKeepsAccounted(w: World, q: Request)
    requires Accounted(w) && Enabled(w, Admin(q))
    ensures Accounted(Next(w, Admin(q)))
  {
    StepKeepsOrderly(w, Admin(q));
    hide Orderly, Balanced, Solvent, LogExplains, AddsDrift, TwoCopies, Clean, Accepted, Serve;
    var w' := Next(w, Admin(q));
    forall id ensures LogExplains(w'.book, w'.log, id) {
      ServeDrifts(w.book, q, id);
      StillExplains(w.book, w.log, q, w'.book, id);
    }
    ServeKeepsSolvent(w.book, q);
    CleanPrefix(w.log, q);
    if Clean(w'.log) { AdminKeepsBalanced(w.book, q); }
  }

  lemma StepKeepsAccounted(w: World, l: Label)
    requires Accounted(w) && Enabled(w, l)
    ensures Accounted(Next(w, l))
  {
    match l
    case Commit(r) => CommitKeepsAccounted(w, r);
    case Admin(q) => AdminKeepsAccounted(w, q);
    case _ =>
      hide Orderly, Balanced, Solvent, LogExplains, Clean, Next, Enabled;
      StepKeepsOrderly(w, l);
      StaysPut(w, l);
  }

  lemma CleanPrefix(log: seq<Request>, q: Request)
    ensures Clean(log + [q]) ==> Clean(log) && (q.Move? ==> !TwoCopies(q.op))
  {
    hide TwoCopies;
    assert (log + [q])[|log|] == q;
    assert forall i :: 0 <= i < |log| ==> (log + [q])[i] == log[i];
  }

  lemma StaysPut(w: World, l: Label)
    requires Enabled(w, l) && !l.Commit? && !l.Admin?
    ensures Next(w, l).book == w.book && Next(w, l).log == w.log
  {
    hide Decide, Posted, Withdrawn, MarkedReversed, LockOrder, Fresh, Accepted, EventsOf, Released, Covers, Answers;
  }

  lemma {:induction false} RunsAreAccounted(w: World, ls: seq<Label>)
    requires Accounted(w) && Possible(w, ls)
    ensures Accounted(Execute(w, ls))
    decreases |ls|
  {
    hide Accounted, Enabled, Next;
    if ls != [] {
      StepKeepsAccounted(w, ls[0]);
      RunsAreAccounted(Next(w, ls[0]), ls[1..]);
    }
  }

  /** Under every schedule whatsoever, overlapping reversals included, no balance is ever negative. Every
      balance is the sum of its entries, and the money in the bank the sum of all entries, exactly when
      no committed transfer worked on two copies of one row; every such transfer adds to its account
      what it says it has taken from it. */
  lemma MoneyIsSafe(b: Book, ls: seq<Label>)
    requires Balanced(b) && Possible(Start(b), ls)
    ensures var w := Execute(Start(b), ls);
      && Orderly(w) && Solvent(w.book)
      && (Balanced(w.book) <==> Clean(w.log))
      && (Balanced(w.book) ==> TotalBalance(w.book.accounts) == TotalAmount(w.book.entries))
      && (forall id :: id in w.book.accounts ==> w.book.accounts[id].balance == SumFor(w.book.entries, id) + Drifted(w.log, id))
  {
    StartIsAccounted(b);
    RunsAreAccounted(Start(b), ls);
    hide Possible, Execute, Orderly, Balanced, Drifted;
    var w := Execute(Start(b), ls);
    forall id | id in w.book.accounts
      ensures w.book.accounts[id].balance == SumFor(w.book.entries, id) + Drifted(w.log, id)
    {
      assert LogExplains(w.book, w.log, id);
    }
    if !Clean(w.log) { UncleanIsUnbalanced(w.book, w.log); }
    if Balanced(w.book) { TotalsAgree(w.book); }
  }

  /** A reversal past its query still knows all entries of its original, and there are some. */
  ghost predicate FoundAll(b: Book, t: Txn) {
    t.op.Reverse? && (t.phase.Locking? || t.phase.Deciding? || t.phase.Writing?) ==>
      Answers(b.entries, t.op) && t.op.found != []
  }

  ghost predicate Steady(w: World) {
    Orderly(w) && forall r :: r in w.txns ==> FoundAll(w.book, w.txns[r])
  }

  /** No commit adds entries to a transaction that already has some. */
  lemma CommitSparesReversal(b: Book, b': Book, added: seq<Entry>, reference: string, t: Txn)
    requires b'.entries == b.entries + added && forall e :: e in added ==> e.reference == reference
    requires Fresh(b.entries, reference) && FoundAll(b, t)
    ensures FoundAll(b', t)
  {
    if t.op.Reverse? && (t.phase.Locking? || t.phase.Deciding? || t.phase.Writing?) {
      var original := t.op.original;
      assert |t.op.found| == |multiset(t.op.found)| == |EntriesOf(b.entries, original)|;
      EntriesOfNone(b.entries, reference);
      assert original != reference;
      EntriesOfConcat(b.entries, added, original);
      EntriesOfNone(added, original);
    }
  }

  lemma CommitKeepsSteady(w: World, r: string)
    requires Steady(w) && Enabled(w, Commit(r))
    ensures Steady(Next(w, Commit(r)))
  {
    CommitKeepsOrderly(w, r);
    hide UpToDate, Held, EventsOf, Covers, LockAll, Work, Withdrawn, FoundAll;
    var w', t := Next(w, Commit(r)), w.txns[r];
    var rows := WorkIsDone(w.book, t, t.phase.space);
    forall q | q in w'.txns ensures FoundAll(w'.book, w'.txns[q]) {
      if q == r {
        NothingFound(w'.book, w'.txns[q]);
      } else {
        CommitSparesReversal(w.book, w'.book, t.phase.space.written, r, w.txns[q]);
      }
    }
  }

  lemma NothingFound(b: Book, t: Txn)
    requires !t.phase.Locking? && !t.phase.Deciding? && !t.phase.Writing?
    ensures FoundAll(b, t)
  {}

  /** Every step but a commit or an administrative one touches one transaction and no table. */
  lemma StepOfOne(w: World, l: Label) returns (r: string, t: Txn)
    requires Enabled(w, l) && !l.Commit? && !l.Admin?
    ensures var w' := Next(w, l); w'.txns == w.txns[r := t] && w'.book == w.book && w'.log == w.log
    ensures r in w.txns && FoundAll(w.book, w.txns[r]) ==> FoundAll(w.book, t)
    ensures l.Publish? ==>
      && r in w.txns && w.txns[r].phase.Durable? && t.phase.Finished?
      && Next(w, l).published == w.published[r := w.txns[r].phase.events]
    ensures !l.Publish? ==>
      && Next(w, l).published == w.published && !t.phase.Durable? && !t.phase.Finished?
      && (r in w.txns ==> !w.txns[r].phase.Durable? && !w.txns[r].phase.Finished?)
    ensures r !in w.txns ==> FoundAll(w.book, t)
  {
    hide Decide, Posted, Withdrawn, MarkedReversed, LockOrder, Fresh, Accepted, EventsOf, Released, Covers, Answers;
    r := if l.Begin? then l.op.reference else l.r;
    t := Next(w, l).txns[r];
  }

  lemma OthersKeepSteady(w: World, l: Label)
    requires Steady(w) && Enabled(w, l) && !l.Commit?
    ensures Steady(Next(w, l))
  {
    StepKeepsOrderly(w, l);
    if l.Admin? {
      assert Next(w, l).txns == w.txns && Next(w, l).book.entries == w.book.entries;
    } else {
      hide Orderly, Enabled, Next, FoundAll;
      var r, t := StepOfOne(w, l);
    }
  }

  lemma StepKeepsSteady(w: World, l: Label)
    requires Steady(w) && Enabled(w, l)
    ensures Steady(Next(w, l))
  {
    hide Steady, Enabled, Next;
    if l.Commit? { CommitKeepsSteady(w, l.r); } else { OthersKeepSteady(w, l); }
  }

  lemma StartIsSteady(b: Book)
    ensures Steady(Start(b))
  {}

  lemma {:induction false} RunsAreSteady(w: World, ls: seq<Label>)
    requires Steady(w) && Possible(w, ls)
    ensures Steady(Execute(w, ls))
    decreases |ls|
  {
    hide Steady, Enabled, Next;
    if ls != [] {
      StepKeepsSteady(w, ls[0]);
      RunsAreSteady(Next(w, ls[0]), ls[1..]);
    }
  }

  // ---------- The serial run that explains a world ----------

  /** The events are those of the serial step of this reference. */
  ghost predicate ExplainedBy(b: Book, log: seq<Request>, r: string, events: seq<DomainEvent>, i: nat) {
    && i < |log| && log[i].Move? && log[i].op.reference == r
    && Step(After(b, log[..i]), log[i].op).Committed?
    && Step(After(b, log[..i]), log[i].op).events == events
  }

  ghost predicate Explained(b: Book, log: seq<Request>, r: string, events: seq<DomainEvent>) {
    exists i: nat :: ExplainedBy(b, log, r, events, i)
  }

  ghost predicate SerialLog(b: Book, w: World) {
    && EmptyBank(b)
    && w.book == After(b, w.log) && LegalRun(b, w.log)
    && forall i :: 0 <= i < |w.log| ==> Accepted(After(b, w.log[..i]), w.log[i])
  }

  ghost predicate Announcements(b: Book, w: World) {
    && (forall r :: r in w.published ==> Explained(b, w.log, r, w.published[r]))
    && (forall r :: r in w.txns && w.txns[r].phase.Durable? ==> Explained(b, w.log, r, w.txns[r].phase.events))
    && (forall r :: r in w.txns && w.txns[r].phase.Finished? ==> r in w.published)
    && (forall i :: 0 <= i < |w.log| && w.log[i].Move? ==>
          var r := w.log[i].op.reference;
          r in w.txns && (w.txns[r].phase.Durable? || w.txns[r].phase.Finished?))
  }

  ghost predicate Serial(b: Book, w: World) {
    SerialLog(b, w) && Announcements(b, w)
  }

  // ---------- Commits ----------

  /** A commit is the serial step of its operation on the committed tables. */
  lemma CommitIsStep(b: Book, t: Txn, space: Workspace)
    requires UpToDate(b, t) && t.phase == Writing(space, []) && FoundAll(b, t)
    requires Unmarked(b, t.op)
    ensures EarlyRefusal(b.entries, t.op).None? && Covers(space.rows, t.op)
    ensures Step(b, t.op) == Outcome.Committed(Overlay(b, space), EventsOf(t.op, space.rows))
  {
    hide Decide, Withdrawn, EventsOf, MarkedReversed, Work;
    var rows := WorkIsDone(b, t, space);
    StepOnLockedRows(b, t.op, rows);
    WorkKeepsRows(t.op, rows, Withdrawn(b.entries, t.op));
  }

  lemma ExtendRun(b: Book, log: seq<Request>, q: Request)
    requires LegalRun(b, log) && Legal(After(b, log), q)
    requires forall i :: 0 <= i < |log| ==> Accepted(After(b, log[..i]), log[i])
    requires Accepted(After(b, log), q)
    ensures After(b, log + [q]) == Serve(After(b, log), q) && LegalRun(b, log + [q])
    ensures forall i :: 0 <= i < |log + [q]| ==> Accepted(After(b, (log + [q])[..i]), (log + [q])[i])
    ensures forall r, events :: Explained(b, log, r, events) ==> Explained(b, log + [q], r, events)
  {
    hide Accepted, Legal, Serve, Step;
    var log' := log + [q];
    assert log'[..|log|] == log;
    forall i | 0 <= i < |log'|
      ensures Legal(After(b, log'[..i]), log'[i]) && Accepted(After(b, log'[..i]), log'[i])
    {
      if i < |log| { assert log'[..i] == log[..i]; }
    }
    forall r, events | Explained(b, log, r, events) ensures Explained(b, log', r, events) {
      var i: nat :| ExplainedBy(b, log, r, events, i);
      assert log'[..i] == log[..i];
      assert ExplainedBy(b, log', r, events, i);
    }
  }

  lemma ExtendSerialLog(b: Book, w: World, w': World, q: Request)
    requires SerialLog(b, w) && Legal(w.book, q) && Accepted(w.book, q)
    requires w'.log == w.log + [q] && w'.book == Serve(w.book, q)
    ensures SerialLog(b, w')
    ensures forall r, events :: Explained(b, w.log, r, events) ==> Explained(b, w'.log, r, events)
  {
    hide Legal, Accepted, Serve, Explained;
    ExtendRun(b, w.log, q);
  }

  lemma CommitKeepsAnnouncements(b: Book, w: World, w': World, r: string, op: Op, events: seq<DomainEvent>)
    requires Announcements(b, w) && r !in w.published
    requires w'.published == w.published && w'.log == w.log + [Move(op)] && w'.txns == w.txns[r := Txn(op, Durable(events))]
    requires op.reference == r && Explained(b, w'.log, r, events)
    requires forall q, ev :: Explained(b, w.log, q, ev) ==> Explained(b, w'.log, q, ev)
    ensures Announcements(b, w')
  {
    hide Explained;
  }

  lemma CommitExplains(b: Book, log: seq<Request>, op: Op, events: seq<DomainEvent>)
    requires Step(After(b, log), op).Committed? && Step(After(b, log), op).events == events
    ensures Explained(b, log + [Move(op)], op.reference, events)
  {
    hide Step;
    assert (log + [Move(op)])[..|log|] == log;
    assert ExplainedBy(b, log + [Move(op)], op.reference, events, |log|);
  }

  lemma CommitKeepsSerial(b: Book, w: World, r: string)
    requires Steady(w) && Serial(b, w) && Enabled(w, Commit(r)) && CarefulStep(w, Commit(r))
    ensures Serial(b, Next(w, Commit(r)))
  {
    hide UpToDate, Held, EventsOf, Step, FoundAll, Fresh, SerialLog, Explained, Announcements, Overlay, Legal, Covers, MarkedReversed;
    var w' := Next(w, Commit(r));
    var t, op, space := w.txns[r], w.txns[r].op, w.txns[r].phase.space;
    CommitIsStep(w.book, t, space);
    CommitIsLegal(w.book, t);
    ExtendSerialLog(b, w, w', Move(op));
    BookIsAfter(b, w);
    CommitExplains(b, w.log, op, EventsOf(op, space.rows));
    CommitKeepsAnnouncements(b, w, w', r, op, EventsOf(op, space.rows));
  }

  lemma BookIsAfter(b: Book, w: World)
    requires SerialLog(b, w)
    ensures w.book == After(b, w.log)
  {}

  lemma CommitIsLegal(b: Book, t: Txn)
    requires FoundAll(b, t) && t.phase.Writing? && Fresh(b.entries, t.op.reference)
    ensures Legal(b, Move(t.op))
  {}

  // ---------- The other steps ----------

  lemma AdminKeepsSerial(b: Book, w: World, q: Request)
    requires Serial(b, w) && Enabled(w, Admin(q))
    ensures Serial(b, Next(w, Admin(q)))
  {
    hide SerialLog, Explained, Step;
    var w' := Next(w, Admin(q));
    ExtendSerialLog(b, w, w', q);
    assert Announcements(b, w');
  }

  lemma SameLog(b: Book, w: World, w': World)
    requires SerialLog(b, w) && w'.book == w.book && w'.log == w.log
    ensures SerialLog(b, w')
  {}

  lemma OthersKeepSerial(b: Book, w: World, l: Label)
    requires Orderly(w) && Serial(b, w) && Enabled(w, l) && !l.Commit? && !l.Admin?
    ensures Serial(b, Next(w, l))
  {
    hide UpToDate, Held, Explained, SerialLog, Enabled, Next, FoundAll;
    var r, t := StepOfOne(w, l);
    SameLog(b, w, Next(w, l));
  }

  lemma StepKeepsSerial(b: Book, w: World, l: Label)
    requires Steady(w) && Serial(b, w) && Enabled(w, l) && CarefulStep(w, l)
    ensures Serial(b, Next(w, l))
  {
    hide Orderly, Serial, Enabled, Next, FoundAll, CarefulStep;
    match l
    case Commit(r) => CommitKeepsSerial(b, w, r);
    case Admin(q) => AdminKeepsSerial(b, w, q);
    case _ => OthersKeepSerial(b, w, l);
  }

  // ---------- Refusals ----------

  lemma NothingRefusesEarly(b: Book, t: Txn)
    requires UpToDate(b, t) && FoundAll(b, t) && Unmarked(b, t.op)
    requires t.phase.Locking? || t.phase.Deciding? || t.phase.Writing?
    ensures EarlyRefusal(b.entries, t.op).None?
  {}

  lemma LockRefusal(b: Book, t: Txn)
    requires UpToDate(b, t) && FoundAll(b, t) && Unmarked(b, t.op)
    requires t.phase.Locking? && t.phase.todo != [] && t.phase.todo[0] !in b.accounts
    ensures Step(b, t.op) == Refused(AccountNotFound(t.phase.todo[0]))
  {
    NothingRefusesEarly(b, t);
    hide MarkedReversed, Decide, PostAll, Work, Withdrawn, EarlyRefusal;
    var ids, todo := LockOrder(t.op), t.phase.todo;
    var k := |ids| - |todo|;
    forall i | 0 <= i < k ensures ids[i] in b.accounts {
      assert ids[i] !in todo by {
        forall j | 0 <= j < |todo| ensures todo[j] != ids[i] { assert todo[j] == ids[k + j]; }
      }
      assert ids[i] in Held(t);
    }
    assert ids[k] == todo[0];
    LockAllFailsAt(b.accounts, ids, k);
  }

  lemma WorkRefusal(b: Book, t: Txn, why: Refusal)
    requires EarlyRefusal(b.entries, t.op).None? && Covers(Rows(b, t.op), t.op)
    requires Work(t.op, Rows(b, t.op), Withdrawn(b.entries, t.op)) == Failure(why)
    ensures Step(b, t.op) == Refused(why)
  {
    hide Decide, PostAll, Work, Withdrawn, EarlyRefusal;
    LockAllYields(b.accounts, LockOrder(t.op));
    assert LockAll(b.accounts, LockOrder(t.op)).value == Rows(b, t.op);
    StepOnLockedRows(b, t.op, Rows(b, t.op));
  }

  lemma DecisionRefusal(b: Book, t: Txn, why: Refusal)
    requires UpToDate(b, t) && FoundAll(b, t) && Unmarked(b, t.op) && t.phase.Deciding? && Covers(t.phase.rows, t.op)
    requires Decide(t.op, t.phase.rows, t.phase.withdrawn) == Failure(why)
    ensures Step(b, t.op) == Refused(why)
  {
    NothingRefusesEarly(b, t);
    hide Decide, PostAll, Withdrawn, EarlyRefusal;
    WorkRefusal(b, t, why);
  }

  lemma PostRefusal(b: Book, t: Txn)
    requires UpToDate(b, t) && FoundAll(b, t) && Unmarked(b, t.op) && t.phase.Writing? && t.phase.pending != []
    requires var p := t.phase.pending[0]; p.account in t.phase.space.rows && BalanceLeft(t.phase.space.rows, p) < 0
    ensures Step(b, t.op) == Refused(NotEnoughBalance(t.phase.pending[0].account))
  {
    NothingRefusesEarly(b, t);
    hide Decide, Withdrawn, EarlyRefusal, Work;
    WorkRefusal(b, t, NotEnoughBalance(t.phase.pending[0].account));
  }

  /** The operation a step works with: `reverse` learns its entries when it finds them. */
  function Acting(w: World, l: Label): Op
    requires l.Check? || l.Find? || l.Lock? || l.Validate? || l.Post?
    requires l.r in w.txns
  {
    if l.Find? then Known(w.txns[l.r].op, l.found) else w.txns[l.r].op
  }

  /** Whatever a step aborts its transaction for, in whatever schedule, the serial operation on the
      tables of that moment would have been refused too, and for the same reason, unless a reversal's
      original has been marked since its check: then it would be because of the mark. */
  lemma AbortsAreJustified(b: Book, ls: seq<Label>, l: Label)
    requires Possible(Start(b), ls) && Enabled(Execute(Start(b), ls), l)
    requires l.Check? || l.Find? || l.Lock? || l.Validate? || l.Post?
    ensures var w := Execute(Start(b), ls);
      && l.r in w.txns && l.r in Next(w, l).txns
      && (Next(w, l).txns[l.r].phase.Aborted? ==>
            Step(w.book, Acting(w, l)) ==
              Refused(if Unmarked(w.book, Acting(w, l)) then Next(w, l).txns[l.r].phase.why else AlreadyReversed))
  {
    StartIsSteady(b);
    RunsAreSteady(Start(b), ls);
    hide Possible, Execute;
    AbortIsJustified(Execute(Start(b), ls), l);
  }

  lemma AbortIsJustified(w: World, l: Label)
    requires Steady(w) && Enabled(w, l)
    requires l.Check? || l.Find? || l.Lock? || l.Validate? || l.Post?
    ensures l.r in w.txns && l.r in Next(w, l).txns
    ensures Next(w, l).txns[l.r].phase.Aborted? ==>
      Step(w.book, Acting(w, l)) ==
        Refused(if Unmarked(w.book, Acting(w, l)) then Next(w, l).txns[l.r].phase.why else AlreadyReversed)
  {
    ActorStays(w, l);
    hide Enabled, Next, Step, Steady, Acting, Unmarked;
    if !Unmarked(w.book, Acting(w, l)) {
      MarkedStep(w.book, Acting(w, l));
    } else if Next(w, l).txns[l.r].phase.Aborted? {
      match l
      case Check(r) => CheckAbort(w, r);
      case Find(r, found) => FindAbort(w, r, found);
      case Lock(r) => LockAbort(w, r);
      case Validate(r) => ValidateAbort(w, r);
      case Post(r) => PostAbort(w, r);
    }
  }

  lemma ActorStays(w: World, l: Label)
    requires Enabled(w, l) && (l.Check? || l.Find? || l.Lock? || l.Validate? || l.Post?)
    ensures l.r in w.txns && l.r in Next(w, l).txns
  {
    hide Decide, Posted, Withdrawn, MarkedReversed, LockOrder, Fresh, Covers, Answers;
  }

  lemma CheckAbort(w: World, r: string)
    requires Enabled(w, Check(r)) && Next(w, Check(r)).txns[r].phase.Aborted?
    ensures Step(w.book, w.txns[r].op) == Refused(Next(w, Check(r)).txns[r].phase.why)
  {
    hide Step, MarkedReversed;
    EarlyStep(w.book, w.txns[r].op);
  }

  lemma FindAbort(w: World, r: string, found: seq<Entry>)
    requires Enabled(w, Find(r, found)) && Next(w, Find(r, found)).txns[r].phase.Aborted?
    requires Unmarked(w.book, Known(w.txns[r].op, found))
    ensures Step(w.book, Known(w.txns[r].op, found)) == Refused(Next(w, Find(r, found)).txns[r].phase.why)
  {
    hide Step, MarkedReversed, Answers, LockOrder;
    FindRefusal(w.book, w.txns[r], found);
  }

  lemma LockAbort(w: World, r: string)
    requires Steady(w) && Enabled(w, Lock(r)) && Next(w, Lock(r)).txns[r].phase.Aborted? && Unmarked(w.book, w.txns[r].op)
    ensures Step(w.book, w.txns[r].op) == Refused(Next(w, Lock(r)).txns[r].phase.why)
  {
    hide Step, UpToDate, Held, Fresh, FoundAll, MarkedReversed;
    LockRefusal(w.book, w.txns[r]);
  }

  lemma ValidateAbort(w: World, r: string)
    requires Steady(w) && Enabled(w, Validate(r)) && Next(w, Validate(r)).txns[r].phase.Aborted? && Unmarked(w.book, w.txns[r].op)
    ensures Step(w.book, w.txns[r].op) == Refused(Next(w, Validate(r)).txns[r].phase.why)
  {
    hide Step, UpToDate, Held, Fresh, FoundAll, MarkedReversed, Decide, Covers;
    DecisionRefusal(w.book, w.txns[r], Next(w, Validate(r)).txns[r].phase.why);
  }

  lemma PostAbort(w: World, r: string)
    requires Steady(w) && Enabled(w, Post(r)) && Next(w, Post(r)).txns[r].phase.Aborted? && Unmarked(w.book, w.txns[r].op)
    ensures Step(w.book, w.txns[r].op) == Refused(Next(w, Post(r)).txns[r].phase.why)
  {
    hide Step, UpToDate, Held, Fresh, FoundAll, MarkedReversed, Posted;
    PostRefusal(w.book, w.txns[r]);
  }

  lemma FindRefusal(b: Book, t: Txn, found: seq<Entry>)
    requires Unmarked(b, Known(t.op, found)) && t.phase.Checked? && t.op.Reverse? && found == []
    ensures Step(b, Known(t.op, found)) == Refused(NoSuchTransaction)
  {}

  lemma MarkedStep(b: Book, op: Op)
    requires !Unmarked(b, op)
    ensures Step(b, op) == Refused(AlreadyReversed)
  {}

  // ---------- The theorem ----------

  lemma {:induction false} CarefulStaysSerial(b: Book, w: World, ls: seq<Label>)
    requires Steady(w) && Serial(b, w) && Possible(w, ls) && Careful(w, ls)
    ensures Serial(b, Execute(w, ls))
    decreases |ls|
  {
    hide Steady, Serial, Enabled, Next, CarefulStep;
    if ls != [] {
      StepKeepsSteady(w, ls[0]);
      StepKeepsSerial(b, w, ls[0]);
      CarefulStaysSerial(b, Next(w, ls[0]), ls[1..]);
    }
  }

  lemma StartIsSerial(b: Book)
    requires EmptyBank(b)
    ensures Serial(b, Start(b))
  {}

  lemma {:induction false} LogGrows(w: World, ls: seq<Label>)
    requires Possible(w, ls)
    ensures w.log <= Execute(w, ls).log
    decreases |ls|
  {
    if ls != [] {
      LogGrows(Next(w, ls[0]), ls[1..]);
      StepExtendsLog(w, ls[0]);
    }
  }

  lemma StepExtendsLog(w: World, l: Label)
    requires Enabled(w, l)
    ensures w.log <= Next(w, l).log
    ensures l.Commit? ==> l.r in w.txns && Next(w, l).log == w.log + [Move(w.txns[l.r].op)]
  {}

  /** The requests of a log, each accepted where it stands. */
  ghost predicate AllAccepted(b: Book, log: seq<Request>) {
    forall i :: 0 <= i < |log| ==> Accepted(After(b, log[..i]), log[i])
  }

  /** A reversal that commits although its original is marked is one the serial bank would refuse. */
  lemma {:induction false} CarelessIsNotSerial(b: Book, w: World, ls: seq<Label>) returns (i: nat)
    requires Steady(w) && Serial(b, w) && Possible(w, ls) && !Careful(w, ls)
    ensures var log := Execute(w, ls).log; i < |log| && !Accepted(After(b, log[..i]), log[i])
    decreases |ls|
  {
    hide Steady, Serial, Enabled, Next, CarefulStep, Accepted, After;
    if CarefulStep(w, ls[0]) {
      StepKeepsSteady(w, ls[0]);
      StepKeepsSerial(b, w, ls[0]);
      i := CarelessIsNotSerial(b, Next(w, ls[0]), ls[1..]);
    } else {
      i := |w.log|;
      var log := Execute(w, ls).log;
      LogGrows(Next(w, ls[0]), ls[1..]);
      StepExtendsLog(w, ls[0]);
      CarelessCommit(b, w, ls[0]);
      assert Next(w, ls[0]).log <= log;
      assert log[..i] == w.log && log[i] == Move(w.txns[ls[0].r].op);
    }
  }

  lemma CarelessCommit(b: Book, w: World, l: Label)
    requires Serial(b, w) && !CarefulStep(w, l)
    ensures l.Commit? && l.r in w.txns && !Accepted(After(b, w.log), Move(w.txns[l.r].op))
  {
    MarkedStep(w.book, w.txns[l.r].op);
  }

  /** Every interleaving of any number of transactions leaves the tables as the committed operations
      run one by one in commit order would, each of them accepted there, if and only if no reversal
      commits while its original is marked. Then what was published for a reference is what its serial
      step announces. */
  lemma Serialisable(b: Book, ls: seq<Label>)
    requires EmptyBank(b) && Possible(Start(b), ls)
    ensures var w := Execute(Start(b), ls);
      Careful(Start(b), ls) <==> w.book == After(b, w.log) && LegalRun(b, w.log) && AllAccepted(b, w.log)
    ensures Careful(Start(b), ls) ==>
      var w := Execute(Start(b), ls); forall r :: r in w.published ==> Explained(b, w.log, r, w.published[r])
  {
    hide Explained, Accepted, LegalRun, After, Possible, Execute, Steady, EmptyBank;
    StartIsSteady(b);
    StartIsSerial(b);
    if Careful(Start(b), ls) {
      CarefulStaysSerial(b, Start(b), ls);
    } else {
      var i := CarelessIsNotSerial(b, Start(b), ls);
    }
  }

  /** In every schedule a transaction that has not committed, or was refused, has left no entry and
      announced nothing. */
  lemma UncommittedLeavesNoTrace(b: Book, ls: seq<Label>, r: string)
    requires Possible(Start(b), ls)
    requires var w := Execute(Start(b), ls); r in w.txns && (Uncommitted(w.txns[r]) || w.txns[r].phase.Aborted?)
    ensures var w := Execute(Start(b), ls); Fresh(w.book.entries, r) && r !in w.published
  {
    hide Possible, Execute, Fresh, UpToDate, Held;
    StartIsSteady(b);
    RunsAreSteady(Start(b), ls);
  }

  predicate StartsReversal(l: Label) {
    l.Begin? && l.op.Reverse?
  }

  ghost predicate NoReversalInFlight(w: World) {
    forall r :: r in w.txns ==> !w.txns[r].op.Reverse?
  }

  /** Without reversals every schedule is careful, so every interleaving of deposits, withdrawals and
      transfers is serialisable. */
  lemma {:induction false} WithoutReversalsCareful(w: World, ls: seq<Label>)
    requires Possible(w, ls) && NoReversalInFlight(w)
    requires forall i :: 0 <= i < |ls| ==> !StartsReversal(ls[i])
    ensures Careful(w, ls)
    decreases |ls|
  {
    hide Enabled, Next;
    if ls != [] {
      NoReversalArises(w, ls[0]);
      WithoutReversalsCareful(Next(w, ls[0]), ls[1..]);
    }
  }

  lemma NoReversalArises(w: World, l: Label)
    requires Enabled(w, l) && NoReversalInFlight(w) && !StartsReversal(l)
    ensures NoReversalInFlight(Next(w, l))
  {
    hide Decide, Posted, Withdrawn, MarkedReversed, LockOrder, Fresh, Accepted, EventsOf, Serve;
  }

  /** In a careful schedule concurrent reversals too reverse each transaction at most once. */
  lemma CarefulReversesAtMostOnce(b: Book, ls: seq<Label>, i: nat, j: nat)
    requires EmptyBank(b) && Possible(Start(b), ls) && Careful(Start(b), ls)
    requires var log := Execute(Start(b), ls).log;
      i < j < |log| && log[i].Move? && log[i].op.Reverse? && log[j].Move? && log[j].op.Reverse?
    ensures var log := Execute(Start(b), ls).log; log[i].op.original != log[j].op.original
  {
    hide Step, LegalRun, After, Possible, Execute, Careful;
    var log := Execute(Start(b), ls).log;
    Serialisable(b, ls);
    assert ReversesAt(b, log, i) && ReversesAt(b, log, j);
    ReversedAtMostOnce(b, log, i, j);
  }
}
