/** Any number of ledger transactions at once, under row locks. */
module Concurrency {
  import opened Wrappers
  import opened AccountIds
  import opened Entities
  import opened DomainEvents
  import opened Ledger
  import opened Reversal
  import opened LedgerRuns

  /** How far a transaction has come. */
  datatype Phase =
    | Queued                                                      // begun, nothing read
    | Checked                                                     // `reverse` has seen no mark
    | Locking(todo: seq<AccountId>, rows: map<AccountId, Account>) // rows read as each lock is granted
    | Deciding(rows: map<AccountId, Account>, withdrawn: int)      // today's withdrawals read as well
    | Writing(space: Workspace, pending: seq<Posting>)             // validated, writing
    | Durable(events: seq<DomainEvent>)                           // durable, not yet announced
    | Finished
    | Aborted(why: Refusal)

  datatype Txn = Txn(op: Op, phase: Phase)

  /** The committed tables, the transactions by reference, the owner of each row lock, the accepted
      requests in commit order, and what has been published for each reference. */
  datatype World = World(book: Book, txns: map<string, Txn>, locks: map<AccountId, string>,
                         log: seq<Request>, published: map<string, seq<DomainEvent>>)

  datatype Label =
    | Begin(op: Op)
    | Check(r: string)
    | Find(r: string, found: seq<Entry>)
    | Lock(r: string)
    | Read(r: string)
    | Validate(r: string)
    | Post(r: string)
    | Commit(r: string)
    | Publish(r: string)
    | Admin(q: Request)

  function Start(b: Book): World {
    World(b, map[], map[], [], map[])
  }

  function Moved(w: World, r: string, phase: Phase): World
    requires r in w.txns
  {
    w.(txns := w.txns[r := w.txns[r].(phase := phase)])
  }

  function Released(locks: map<AccountId, string>, r: string): map<AccountId, string> {
    map id | id in locks && locks[id] != r :: locks[id]
  }

  function Abort(w: World, r: string, why: Refusal): World
    requires r in w.txns
  {
    Moved(w, r, Aborted(why)).(locks := Released(w.locks, r))
  }

  predicate Active(t: Txn) {
    !t.phase.Finished? && !t.phase.Aborted?
  }

  function Known(op: Op, found: seq<Entry>): Op {
    if op.Reverse? then op.(found := found) else op
  }

  /** When a step may be taken. A lock waits for its owner; an administrative update waits for the row. */
  ghost predicate Enabled(w: World, l: Label) {
    match l
    case Begin(op) => op.reference !in w.txns && Fresh(w.book.entries, op.reference)
    case Check(r) => r in w.txns && w.txns[r].phase.Queued?
    case Find(r, found) =>
      r in w.txns && w.txns[r].phase.Checked? && Answers(w.book.entries, Known(w.txns[r].op, found))
    case Lock(r) =>
      r in w.txns && w.txns[r].phase.Locking? && w.txns[r].phase.todo != [] && w.txns[r].phase.todo[0] !in w.locks
    case Read(r) => r in w.txns && w.txns[r].phase.Locking? && w.txns[r].phase.todo == []
    case Validate(r) => r in w.txns && w.txns[r].phase.Deciding? && Covers(w.txns[r].phase.rows, w.txns[r].op)
    case Post(r) =>
      r in w.txns && w.txns[r].phase.Writing? && w.txns[r].phase.pending != []
      && w.txns[r].phase.pending[0].account in w.txns[r].phase.space.rows
    case Commit(r) =>
      r in w.txns && w.txns[r].phase.Writing? && w.txns[r].phase.pending == []
      && Covers(w.txns[r].phase.space.rows, w.txns[r].op)
    case Publish(r) => r in w.txns && w.txns[r].phase.Durable?
    case Admin(q) => !q.Move? && Accepted(w.book, q) && q.account !in w.locks
  }

  /** The world after a step. */
  function Next(w: World, l: Label): World
    requires Enabled(w, l)
  {
    match l
    case Begin(op) => w.(txns := w.txns[op.reference := Txn(op, Queued)])
    case Check(r) =>
      var op := w.txns[r].op;
      if op.Transfer? && op.from == op.to then Abort(w, r, SameAccount)
      else if op.Reverse? && MarkedReversed(w.book.entries, op.original) then Abort(w, r, AlreadyReversed)
      else Moved(w, r, Checked)
    case Find(r, found) =>
      var op := Known(w.txns[r].op, found);
      if op.Reverse? && found == [] then Abort(w, r, NoSuchTransaction)
      else w.(txns := w.txns[r := Txn(op, Locking(LockOrder(op), map[]))])
    case Lock(r) =>
      var id := w.txns[r].phase.todo[0];
      if id !in w.book.accounts then Abort(w, r, AccountNotFound(id))
      else
        Moved(w, r, Locking(w.txns[r].phase.todo[1..], w.txns[r].phase.rows[id := w.book.accounts[id]]))
          .(locks := w.locks[id := r])
    case Read(r) =>
      Moved(w, r, Deciding(w.txns[r].phase.rows, Withdrawn(w.book.entries, w.txns[r].op)))
    case Validate(r) =>
      (match Decide(w.txns[r].op, w.txns[r].phase.rows, w.txns[r].phase.withdrawn)
       case Failure(why) => Abort(w, r, why)
       case Success(ps) => Moved(w, r, Writing(Workspace(w.txns[r].phase.rows, []), ps)))
    case Post(r) =>
      var op, space, p := w.txns[r].op, w.txns[r].phase.space, w.txns[r].phase.pending[0];
      if BalanceLeft(space.rows, p) < 0 then Abort(w, r, NotEnoughBalance(p.account))
      else Moved(w, r, Writing(Posted(space, p, op.reference, op.now), w.txns[r].phase.pending[1..]))
    case Commit(r) =>
      var op, space := w.txns[r].op, w.txns[r].phase.space;
      World(Overlay(w.book, space), w.txns[r := Txn(op, Durable(EventsOf(op, space.rows)))],
            Released(w.locks, r), w.log + [Move(op)], w.published)
    case Publish(r) =>
      Moved(w, r, Finished).(published := w.published[r := w.txns[r].phase.events])
    case Admin(q) =>
      w.(book := Serve(w.book, q), log := w.log + [q])
  }

  // ---------- What each phase knows ----------

  /** The accounts a transaction holds locked. */
  function Held(t: Txn): set<AccountId> {
    match t.phase
    case Locking(todo, _) => (set id | id in LockOrder(t.op)) - (set id | id in todo)
    case Deciding(_, _) => set id | id in LockOrder(t.op)
    case Writing(_, _) => set id | id in LockOrder(t.op)
    case _ => {}
  }

  /** The committed rows an operation works on. */
  function Rows(b: Book, op: Op): map<AccountId, Account> {
    map id | id in LockOrder(op) && id in b.accounts :: b.accounts[id]
  }

  /** The rest of the transaction will do exactly what its work on the committed rows would. */
  ghost predicate OnCourse(b: Book, op: Op, space: Workspace, pending: seq<Posting>) {
    && Covers(Rows(b, op), op)
    && Postable(space.rows, pending) && space.rows.Keys == Rows(b, op).Keys
    && Work(op, Rows(b, op), Withdrawn(b.entries, op)) == PostAll(space, pending, op.reference, op.now)
  }

  /** What the steps before the first lock have established. */
  predicate Ready(op: Op) {
    (op.Transfer? ==> op.from != op.to) && (op.Reverse? ==> op.found != [])
  }

  /** What a transaction has read is still what is committed. */
  ghost predicate UpToDate(b: Book, t: Txn) {
    && (t.phase.Checked? && t.op.Transfer? ==> t.op.from != t.op.to)
    && (t.phase.Locking? || t.phase.Deciding? || t.phase.Writing? ==> Ready(t.op))
    && match t.phase
    case Locking(todo, rows) =>
      && Distinct(LockOrder(t.op)) && |todo| <= |LockOrder(t.op)|
      && todo == LockOrder(t.op)[|LockOrder(t.op)| - |todo|..]
      && rows.Keys == Held(t)
      && forall id :: id in rows ==> id in b.accounts && rows[id] == b.accounts[id]
    case Deciding(rows, withdrawn) =>
      Covers(rows, t.op) && rows == Rows(b, t.op) && withdrawn == Withdrawn(b.entries, t.op)
    case Writing(space, pending) =>
      OnCourse(b, t.op, space, pending)
    case _ => true
  }

  /** Locks and owners agree, everybody's reads are up to date, and only committed transactions show. */
  ghost predicate Orderly(w: World) {
    && (forall r :: r in w.txns ==> w.txns[r].op.reference == r && UpToDate(w.book, w.txns[r]))
    && (forall r, id :: r in w.txns && id in Held(w.txns[r]) ==> id in w.locks && w.locks[id] == r)
    && (forall id :: id in w.locks ==> w.locks[id] in w.txns && id in Held(w.txns[w.locks[id]]))
    && (forall r :: r in w.txns && !w.txns[r].phase.Durable? && !w.txns[r].phase.Finished? ==>
          Fresh(w.book.entries, r) && r !in w.published)
    && (forall r :: r in w.published ==> r in w.txns)
  }

  // ---------- Others cannot disturb what a transaction holds ----------

  lemma {:induction false} WithdrawnOfOthers(es: seq<Entry>, fs: seq<Entry>, id: AccountId, since: int)
    requires forall e :: e in fs ==> e.account != id
    ensures WithdrawnSince(es + fs, id, since) == WithdrawnSince(es, id, since)
    decreases |fs|
  {
    if fs == [] {
      assert es + fs == es;
    } else {
      assert (es + fs)[..|es + fs| - 1] == es + fs[..|fs| - 1];
      WithdrawnOfOthers(es, fs[..|fs| - 1], id, since);
    }
  }

  /** A change of the tables that leaves the held accounts and their entries alone. */
  ghost predicate Spares(b: Book, b': Book, held: set<AccountId>) {
    && (forall id :: id in held ==> (id in b'.accounts <==> id in b.accounts) && (id in b.accounts ==> b'.accounts[id] == b.accounts[id]))
    && exists added :: b'.entries == b.entries + added && forall e :: e in added ==> e.account !in held
  }

  lemma SparedStaysUpToDate(b: Book, b': Book, t: Txn)
    requires UpToDate(b, t) && Spares(b, b', Held(t))
    ensures UpToDate(b', t)
  {
    if t.phase.Deciding? || t.phase.Writing? {
      assert Rows(b', t.op) == Rows(b, t.op);
      var added :| b'.entries == b.entries + added && forall e :: e in added ==> e.account !in Held(t);
      if t.op.Withdraw? {
        AccountIsLocked(t.op);
        WithdrawnOfOthers(b.entries, added, t.op.account, StartOfDay(t.op.now));
      }
      if t.op.Transfer? {
        RolesAreLocked(t.op);
        WithdrawnOfOthers(b.entries, added, Payer(t.op), StartOfDay(t.op.now));
      }
    }
  }

  // ---------- Every step keeps the world orderly ----------

  /** A step that touches one transaction and its own locks, and no table. */
  lemma ReplaceKeepsOrderly(w: World, r: string, t: Txn, locks: map<AccountId, string>, published: map<string, seq<DomainEvent>>)
    requires Orderly(w) && r in w.txns && t.op.reference == r && UpToDate(w.book, t)
    requires forall id :: id in locks <==> (id in w.locks && w.locks[id] != r) || id in Held(t)
    requires forall id :: id in locks ==> locks[id] == if id in Held(t) then r else w.locks[id]
    requires forall id :: id in Held(t) ==> id !in w.locks || w.locks[id] == r
    requires t.phase.Finished? || (!t.phase.Durable? && !w.txns[r].phase.Durable? && !w.txns[r].phase.Finished?)
    requires published == w.published || (t.phase.Finished? && r in published && published == w.published[r := published[r]])
    ensures Orderly(w.(txns := w.txns[r := t], locks := locks, published := published))
  {
    hide UpToDate, Held, Fresh;
    var w' := w.(txns := w.txns[r := t], locks := locks, published := published);
    forall q, id | q in w'.txns && id in Held(w'.txns[q]) ensures id in locks && locks[id] == q {
      if q != r {
        assert id in w.locks && w.locks[id] == q;
      }
    }
    forall id | id in locks ensures locks[id] in w'.txns && id in Held(w'.txns[locks[id]]) {
      if id !in Held(t) {
        assert w.locks[id] in w.txns && id in Held(w.txns[w.locks[id]]);
      }
    }
  }

  /** Phases that hold nothing and have read nothing. */
  lemma IdlePhases(b: Book, t: Txn)
    requires t.phase.Queued? || t.phase.Durable? || t.phase.Finished? || t.phase.Aborted? || t.phase.Checked?
    ensures Held(t) == {}
    ensures !(t.phase.Checked? && t.op.Transfer? && t.op.from == t.op.to) ==> UpToDate(b, t)
  {}

  /** No two transactions hold the same account. */
  lemma HeldByOne(w: World, q: string, r: string)
    requires Orderly(w) && q in w.txns && r in w.txns && q != r
    ensures Held(w.txns[q]) !! Held(w.txns[r])
  {
    hide UpToDate, Held, Fresh;
    forall id | id in Held(w.txns[q]) ensures id !in Held(w.txns[r]) {
      assert w.locks[id] == q;
    }
  }

  lemma AbortKeepsOrderly(w: World, r: string, why: Refusal)
    requires Orderly(w) && r in w.txns && !w.txns[r].phase.Durable? && !w.txns[r].phase.Finished?
    ensures Orderly(Abort(w, r, why))
  {
    hide UpToDate, Held, Fresh;
    var t := w.txns[r].(phase := Aborted(why));
    IdlePhases(w.book, t);
    ReplaceKeepsOrderly(w, r, t, Released(w.locks, r), w.published);
  }

  lemma Granted(b: Book, t: Txn, t': Txn)
    requires UpToDate(b, t) && t.phase.Locking? && t.phase.todo != [] && t.phase.todo[0] in b.accounts
    requires t' == t.(phase := Locking(t.phase.todo[1..], t.phase.rows[t.phase.todo[0] := b.accounts[t.phase.todo[0]]]))
    ensures UpToDate(b, t') && Held(t') == Held(t) + {t.phase.todo[0]}
  {
    hide Decide, PostAll, Work, Withdrawn;
    var ids, todo := LockOrder(t.op), t.phase.todo;
    assert todo[1..] == ids[|ids| - |todo[1..]|..];
    assert ids[|ids| - |todo|] == todo[0];
    assert todo[0] !in todo[1..] by {
      forall k | 0 <= k < |todo[1..]| ensures todo[1..][k] != todo[0] {
        assert todo[1..][k] == ids[|ids| - |todo| + 1 + k];
      }
    }
    assert forall x :: x in todo <==> x == todo[0] || x in todo[1..];
  }

  lemma LockKeepsOrderly(w: World, r: string)
    requires Orderly(w) && Enabled(w, Lock(r))
    ensures Orderly(Next(w, Lock(r)))
  {
    hide UpToDate, Held, Fresh;
    var t := w.txns[r];
    var id := t.phase.todo[0];
    if id !in w.book.accounts {
      AbortKeepsOrderly(w, r, AccountNotFound(id));
    } else {
      var t' := t.(phase := Locking(t.phase.todo[1..], t.phase.rows[id := w.book.accounts[id]]));
      Granted(w.book, t, t');
      ReplaceKeepsOrderly(w, r, t', w.locks[id := r], w.published);
    }
  }

  lemma Found(b: Book, t: Txn, t': Txn)
    requires UpToDate(b, t) && t.phase.Checked?
    requires !(t'.op.Reverse? && t'.op.found == [])
    requires exists found :: t'.op == Known(t.op, found)
    requires t'.phase == Locking(LockOrder(t'.op), map[])
    ensures UpToDate(b, t') && Held(t') == {} && Held(t) == {}
  {
    hide Decide, PostAll, Work, Withdrawn;
    if t'.op.Reverse? {
      SortedAccountsSorts(t'.op.found);
      IncreasingIsDistinct(LockOrder(t'.op));
    }
  }

  lemma FindKeepsOrderly(w: World, r: string, found: seq<Entry>)
    requires Orderly(w) && Enabled(w, Find(r, found))
    ensures Orderly(Next(w, Find(r, found)))
  {
    hide UpToDate, Held, Fresh, LockOrder, Answers;
    var op := Known(w.txns[r].op, found);
    if op.Reverse? && found == [] {
      AbortKeepsOrderly(w, r, NoSuchTransaction);
    } else {
      var t := Txn(op, Locking(LockOrder(op), map[]));
      Found(w.book, w.txns[r], t);
      ReplaceKeepsOrderly(w, r, t, w.locks, w.published);
    }
  }

  lemma ReadIsCurrent(b: Book, t: Txn, t': Txn)
    requires UpToDate(b, t) && t.phase.Locking? && t.phase.todo == []
    requires t' == t.(phase := Deciding(t.phase.rows, Withdrawn(b.entries, t.op)))
    ensures UpToDate(b, t') && Held(t') == Held(t)
  {}

  lemma ReadKeepsOrderly(w: World, r: string)
    requires Orderly(w) && Enabled(w, Read(r))
    ensures Orderly(Next(w, Read(r)))
  {
    hide UpToDate, Held, Fresh, Withdrawn;
    var t := w.txns[r];
    var t' := t.(phase := Deciding(t.phase.rows, Withdrawn(w.book.entries, t.op)));
    ReadIsCurrent(w.book, t, t');
    ReplaceKeepsOrderly(w, r, t', w.locks, w.published);
  }

  lemma Decided(b: Book, t: Txn, t': Txn)
    requires UpToDate(b, t) && t.phase.Deciding? && Covers(t.phase.rows, t.op)
    requires Decide(t.op, t.phase.rows, t.phase.withdrawn).Success?
    requires t' == t.(phase := Writing(Workspace(t.phase.rows, []), Decide(t.op, t.phase.rows, t.phase.withdrawn).value))
    ensures UpToDate(b, t') && Held(t') == Held(t)
  {
    hide Decide, PostAll, Withdrawn;
    DecidedPostable(t.op, t.phase.rows, t.phase.withdrawn);
  }

  lemma ValidateKeepsOrderly(w: World, r: string)
    requires Orderly(w) && Enabled(w, Validate(r))
    ensures Orderly(Next(w, Validate(r)))
  {
    hide UpToDate, Held, Fresh, Decide, Covers;
    var t := w.txns[r];
    match Decide(t.op, t.phase.rows, t.phase.withdrawn)
    case Failure(why) => AbortKeepsOrderly(w, r, why);
    case Success(ps) =>
      var t' := t.(phase := Writing(Workspace(t.phase.rows, []), ps));
      Decided(w.book, t, t');
      ReplaceKeepsOrderly(w, r, t', w.locks, w.published);
  }

  lemma Advanced(b: Book, t: Txn, t': Txn, space: Workspace, pending: seq<Posting>)
    requires UpToDate(b, t) && t.phase == Writing(space, pending) && pending != [] && pending[0].account in space.rows
    requires BalanceLeft(space.rows, pending[0]) >= 0
    requires t' == t.(phase := Writing(Posted(space, pending[0], t.op.reference, t.op.now), pending[1..]))
    ensures UpToDate(b, t') && Held(t') == Held(t)
  {}

  lemma PostKeepsOrderly(w: World, r: string)
    requires Orderly(w) && Enabled(w, Post(r))
    ensures Orderly(Next(w, Post(r)))
  {
    hide UpToDate, Held, Fresh, Posted;
    var t := w.txns[r];
    var space, p := t.phase.space, t.phase.pending[0];
    if BalanceLeft(space.rows, p) < 0 {
      AbortKeepsOrderly(w, r, NotEnoughBalance(p.account));
    } else {
      var t' := t.(phase := Writing(Posted(space, p, t.op.reference, t.op.now), t.phase.pending[1..]));
      Advanced(w.book, t, t', space, t.phase.pending);
      ReplaceKeepsOrderly(w, r, t', w.locks, w.published);
    }
  }

  /** What a finished transaction is about to commit is its work on the committed rows, on its own accounts. */
  lemma WorkIsDone(b: Book, t: Txn, space: Workspace) returns (rows: map<AccountId, Account>)
    requires UpToDate(b, t) && t.phase == Writing(space, [])
    ensures rows == Rows(b, t.op) && Covers(rows, t.op)
    ensures LockAll(b.accounts, LockOrder(t.op)) == Success(rows)
    ensures Work(t.op, rows, Withdrawn(b.entries, t.op)) == Success(space)
    ensures space.rows.Keys == Held(t) == rows.Keys
    ensures forall e :: e in space.written ==> e.account in Held(t) && e.reference == t.op.reference
  {
    hide Decide, Withdrawn;
    var withdrawn := Withdrawn(b.entries, t.op);
    rows := Rows(b, t.op);
    assert LockAll(b.accounts, LockOrder(t.op)) == Success(rows) by {
      LockAllYields(b.accounts, LockOrder(t.op));
      assert LockAll(b.accounts, LockOrder(t.op)).value == rows;
    }
    assert PostAll(space, [], t.op.reference, t.op.now) == Success(space);
    DecidedPostable(t.op, rows, withdrawn);
    var ps := Decide(t.op, rows, withdrawn).value;
    PostAllKeepsRows(Workspace(rows, []), ps, t.op.reference, t.op.now);
    forall e | e in space.written ensures e.account in Held(t) && e.reference == t.op.reference {
      var k :| 0 <= k < |space.written| && space.written[k] == e;
      assert ps[k].account in rows;
    }
  }

  lemma CommitSparesOthers(w: World, r: string, q: string)
    requires Orderly(w) && Enabled(w, Commit(r)) && q in w.txns && q != r
    ensures UpToDate(Overlay(w.book, w.txns[r].phase.space), w.txns[q])
  {
    hide UpToDate, Held, EventsOf, Covers, LockAll, Work, Rows, Withdrawn, Fresh;
    var t, space := w.txns[r], w.txns[r].phase.space;
    var b := Overlay(w.book, space);
    var rows := WorkIsDone(w.book, t, space);
    HeldByOne(w, q, r);
    assert b.entries == w.book.entries + space.written;
    assert forall id :: id in Held(w.txns[q]) ==> id !in space.rows;
    assert Spares(w.book, b, Held(w.txns[q]));
    SparedStaysUpToDate(w.book, b, w.txns[q]);
  }

  lemma CommitKeepsOrderly(w: World, r: string)
    requires Orderly(w) && Enabled(w, Commit(r))
    ensures Orderly(Next(w, Commit(r)))
  {
    hide UpToDate, Held, EventsOf, Covers, LockAll, Work, Rows, Withdrawn;
    var w' := Next(w, Commit(r));
    var t, space := w.txns[r], w.txns[r].phase.space;
    var rows := WorkIsDone(w.book, t, space);
    IdlePhases(w'.book, w'.txns[r]);
    forall q | q in w'.txns && q != r ensures UpToDate(w'.book, w'.txns[q]) {
      CommitSparesOthers(w, r, q);
    }
    forall q | q in w'.txns && !w'.txns[q].phase.Durable? && !w'.txns[q].phase.Finished?
      ensures Fresh(w'.book.entries, q) && q !in w'.published
    {
      assert q != r && Fresh(w.book.entries, q);
      OthersStayFresh(w.book.entries, space.written, r, q);
    }
  }

  lemma OthersStayFresh(es: seq<Entry>, fs: seq<Entry>, r: string, q: string)
    requires Fresh(es, q) && q != r && forall e :: e in fs ==> e.reference == r
    ensures Fresh(es + fs, q)
  {
    assert forall k :: 0 <= k < |fs| ==> fs[k] in fs;
  }

  lemma AdminKeepsOrderly(w: World, q: Request)
    requires Orderly(w) && Enabled(w, Admin(q))
    ensures Orderly(Next(w, Admin(q)))
  {
    hide UpToDate, Held;
    var w' := Next(w, Admin(q));
    assert w'.book.entries == w.book.entries;
    forall r | r in w'.txns ensures UpToDate(w'.book, w'.txns[r]) {
      assert q.account !in Held(w.txns[r]);
      assert w'.book.entries == w.book.entries + [];
      SparedStaysUpToDate(w.book, w'.book, w.txns[r]);
    }
  }

  lemma CheckKeepsOrderly(w: World, r: string)
    requires Orderly(w) && Enabled(w, Check(r))
    ensures Orderly(Next(w, Check(r)))
  {
    hide UpToDate, Held, Fresh, MarkedReversed;
    var op := w.txns[r].op;
    if op.Transfer? && op.from == op.to {
      AbortKeepsOrderly(w, r, SameAccount);
    } else if op.Reverse? && MarkedReversed(w.book.entries, op.original) {
      AbortKeepsOrderly(w, r, AlreadyReversed);
    } else {
      var t := w.txns[r].(phase := Checked);
      IdlePhases(w.book, t);
      IdlePhases(w.book, w.txns[r]);
      ReplaceKeepsOrderly(w, r, t, w.locks, w.published);
    }
  }

  lemma PublishKeepsOrderly(w: World, r: string)
    requires Orderly(w) && Enabled(w, Publish(r))
    ensures Orderly(Next(w, Publish(r)))
  {
    hide UpToDate, Held, Fresh;
    var t := w.txns[r].(phase := Finished);
    IdlePhases(w.book, t);
    IdlePhases(w.book, w.txns[r]);
    ReplaceKeepsOrderly(w, r, t, w.locks, w.published[r := w.txns[r].phase.events]);
  }

  lemma BeginKeepsOrderly(w: World, op: Op)
    requires Orderly(w) && Enabled(w, Begin(op))
    ensures Orderly(Next(w, Begin(op)))
  {
    hide UpToDate, Held, Fresh;
    IdlePhases(w.book, Txn(op, Queued));
  }

  /** Every step of every transaction keeps the locking discipline. */
  lemma StepKeepsOrderly(w: World, l: Label)
    requires Orderly(w) && Enabled(w, l)
    ensures Orderly(Next(w, l))
  {
    hide Orderly, Enabled, Next;
    match l
    case Begin(op) => BeginKeepsOrderly(w, op);
    case Check(r) => CheckKeepsOrderly(w, r);
    case Find(r, found) => FindKeepsOrderly(w, r, found);
    case Lock(r) => LockKeepsOrderly(w, r);
    case Read(r) => ReadKeepsOrderly(w, r);
    case Validate(r) => ValidateKeepsOrderly(w, r);
    case Post(r) => PostKeepsOrderly(w, r);
    case Commit(r) => CommitKeepsOrderly(w, r);
    case Publish(r) => PublishKeepsOrderly(w, r);
    case Admin(q) => AdminKeepsOrderly(w, q);
  }
}
