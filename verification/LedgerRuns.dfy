/** Whole runs of the bank: operations, status changes and newly opened accounts, one after another. */
module LedgerRuns {
  import opened Wrappers
  import opened AccountIds
  import opened AccountState
  import opened Entities
  import opened Ledger
  import opened LedgerInvariants
  import opened LedgerTransfer
  import opened Reversal
  import opened DailyLimit

  datatype Request =
    | Move(op: Op)
    | ChangeStatus(account: AccountId, action: Action)
    | Open(account: AccountId, number: string, currency: string, dailyLimit: int)

  function WithStatus(b: Book, id: AccountId, s: Status): Book
    requires id in b.accounts
  {
    b.(accounts := b.accounts[id := b.accounts[id].(status := s)])
  }

  predicate Accepted(b: Book, q: Request) {
    match q
    case Move(op) => Step(b, op).Committed?
    case ChangeStatus(id, action) =>
      id in b.accounts && Transition(b.accounts[id].status, action, b.accounts[id].balance).Some?
    case Open(id, _, _, _) => id !in b.accounts
  }

  /** The book after a request; a refused one leaves no trace. */
  function Serve(b: Book, q: Request): Book {
    if !Accepted(b, q) then b
    else match q
      case Move(op) => Step(b, op).book
      case ChangeStatus(id, action) =>
        WithStatus(b, id, Transition(b.accounts[id].status, action, b.accounts[id].balance).value)
      case Open(id, number, currency, limit) =>
        b.(accounts := b.accounts[id := Account(number, currency, 0, limit, PENDING)])
  }

  /** The book after the first requests of a run. */
  function After(b: Book, qs: seq<Request>): Book {
    if qs == [] then b else Serve(After(b, qs[..|qs| - 1]), qs[|qs| - 1])
  }

  /** References are fresh, and the database answers the query for the entries to reverse. */
  ghost predicate Legal(b: Book, q: Request) {
    q.Move? ==> Answers(b.entries, q.op) && Fresh(b.entries, q.op.reference)
  }

  ghost predicate LegalRun(b: Book, qs: seq<Request>) {
    forall i :: 0 <= i < |qs| ==> Legal(After(b, qs[..i]), qs[i])
  }

  predicate EmptyBank(b: Book) {
    b.entries == [] && forall id :: id in b.accounts ==> b.accounts[id].balance == 0
  }

  lemma LegalPrefix(b: Book, qs: seq<Request>, n: nat)
    requires LegalRun(b, qs) && n <= |qs|
    ensures LegalRun(b, qs[..n])
  {
    forall i | 0 <= i < n ensures Legal(After(b, qs[..n][..i]), qs[..n][i]) {
      assert qs[..n][..i] == qs[..i];
    }
  }

  // ---------- What every request keeps ----------

  /** Status changes and new accounts move no money. */
  lemma AdminKeepsBalanced(b: Book, q: Request)
    requires Solvent(b) && !q.Move?
    ensures Serve(b, q).entries == b.entries && (Balanced(b) ==> Balanced(Serve(b, q)))
    ensures forall id :: BalancedOn(b, id) ==> BalancedOn(Serve(b, q), id)
  {
    forall id | id !in b.accounts ensures SumFor(b.entries, id) == 0 { SumForOthers(b.entries, id); }
    if q.Open? && Balanced(b) {
      assert forall i :: 0 <= i < |b.entries| ==> b.entries[i] in b.entries;
      assert q.account !in b.accounts ==> BalancedOn(b, q.account);
    }
    hide SumFor, EntryBalanced;
  }

  /** Administration moves no money: a status changes only along the diagram, and a new account starts
      pending and empty. */
  lemma AdminMeans(b: Book, q: Request)
    requires !q.Move? && Accepted(b, q)
    ensures var before, after := b.accounts, Serve(b, q).accounts;
      && q.account in after && after.Keys == before.Keys + {q.account}
      && (forall id :: id in before && id != q.account ==> after[id] == before[id])
      && (q.Open? ==> q.account !in before && after[q.account] == Account(q.number, q.currency, 0, q.dailyLimit, PENDING))
      && (q.ChangeStatus? ==>
            && q.account in before && before[q.account].status != CLOSED
            && after[q.account] == before[q.account].(status := after[q.account].status)
            && (q.action == Activate ==> before[q.account].status == PENDING && after[q.account].status == ACTIVE)
            && (q.action == Freeze ==> before[q.account].status == ACTIVE && after[q.account].status == FROZEN)
            && (q.action == Unfreeze ==> before[q.account].status == FROZEN && after[q.account].status == ACTIVE)
            && (q.action == Close ==> before[q.account].balance == 0 && after[q.account].status == CLOSED))
  {}

  lemma ServeKeepsSolvent(b: Book, q: Request)
    requires Solvent(b)
    ensures Solvent(Serve(b, q))
  {
    if q.Move? && Accepted(b, q) {
      hide Step;
      StepKeepsSolvent(b, q.op);
    }
  }

  /** In every reachable book no balance is negative and every entry is on an account of the bank. */
  lemma {:induction false} ReachableIsSolvent(b: Book, qs: seq<Request>)
    requires EmptyBank(b)
    ensures Solvent(After(b, qs))
  {
    hide Step, Serve;
    if qs != [] {
      ReachableIsSolvent(b, qs[..|qs| - 1]);
      ServeKeepsSolvent(After(b, qs[..|qs| - 1]), qs[|qs| - 1]);
    }
  }

  lemma ServeKeepsShown(b: Book, q: Request)
    requires Solvent(b) && Shown(b)
    ensures Shown(Serve(b, q))
  {
    if q.Move? && Accepted(b, q) {
      hide Step, Solvent;
      StepKeepsShown(b, q.op);
    } else {
      forall i | 0 <= i < |b.entries| ensures b.entries[i].account in b.accounts { assert b.entries[i] in b.entries; }
    }
  }

  /** In every reachable book an account's balance is the one its latest entry recorded, whatever the
      letter case of the transfers. */
  lemma {:induction false} LatestPostingShowsTheBalance(b: Book, qs: seq<Request>)
    requires EmptyBank(b)
    ensures var now := After(b, qs);
      forall i :: 0 <= i < |now.entries| && LastOn(now.entries, i) ==>
        && now.entries[i].account in now.accounts
        && now.accounts[now.entries[i].account].balance == now.entries[i].balanceAfter
  {
    ReachableIsShown(b, qs);
    ReachableIsSolvent(b, qs);
    var now := After(b, qs);
    forall i | 0 <= i < |now.entries| ensures now.entries[i].account in now.accounts { assert now.entries[i] in now.entries; }
  }

  lemma {:induction false} ReachableIsShown(b: Book, qs: seq<Request>)
    requires EmptyBank(b)
    ensures Shown(After(b, qs))
  {
    hide Step, Serve;
    if qs != [] {
      ReachableIsSolvent(b, qs[..|qs| - 1]);
      ReachableIsShown(b, qs[..|qs| - 1]);
      ServeKeepsShown(After(b, qs[..|qs| - 1]), qs[|qs| - 1]);
    }
  }

  // ---------- When the books are balanced ----------

  /** The accepted requests of a run, in order. */
  function Done(b: Book, qs: seq<Request>): seq<Request> {
    if qs == [] then []
    else
      var front, last := qs[..|qs| - 1], qs[|qs| - 1];
      Done(b, front) + if Accepted(After(b, front), last) then [last] else []
  }

  /** What a log of accepted requests has put on an account without an entry. */
  function Drifted(log: seq<Request>, id: AccountId): int {
    if log == [] then 0
    else
      var last := log[|log| - 1];
      Drifted(log[..|log| - 1], id) + if last.Move? then Drift(last.op, id) else 0
  }

  predicate DriftsOn(q: Request, id: AccountId) {
    q.Move? && TwoCopies(q.op) && Payer(q.op) == id
  }

  /** No transfer of the log worked on two copies of one row. */
  predicate Clean(log: seq<Request>) {
    forall i :: 0 <= i < |log| && log[i].Move? ==> !TwoCopies(log[i].op)
  }

  /** No transfer of the log paid the row it took the money from. */
  predicate BetweenRows(log: seq<Request>) {
    forall i :: 0 <= i < |log| && log[i].Move? ==> !PaysItself(log[i].op)
  }

  lemma DriftedAppend(log: seq<Request>, q: Request, id: AccountId)
    ensures Drifted(log + [q], id) == Drifted(log, id) + if q.Move? then Drift(q.op, id) else 0
  {
    hide Drift;
  }

  /** A request that turns one book into another moves the surplus of an account by its drift. */
  ghost predicate AddsDrift(b: Book, q: Request, b': Book, id: AccountId) {
    var drift := if q.Move? then Drift(q.op, id) else 0;
    && drift >= 0 && (drift > 0 <==> DriftsOn(q, id))
    && (id in b.accounts ==> id in b'.accounts && Surplus(b', id) == Surplus(b, id) + drift)
    && (id !in b.accounts ==> drift == 0 && (id in b'.accounts ==> Surplus(b', id) == 0))
  }

  /** The surplus of an account is what the log has put there without an entry, and there is some exactly
      when a transfer of the log worked on two copies of its row. */
  ghost predicate LogExplains(b: Book, log: seq<Request>, id: AccountId) {
    && Drifted(log, id) >= 0 && (Drifted(log, id) > 0 <==> exists i :: 0 <= i < |log| && DriftsOn(log[i], id))
    && (if id in b.accounts then Surplus(b, id) == Drifted(log, id) else Drifted(log, id) == 0)
  }

  lemma StillExplains(b: Book, log: seq<Request>, q: Request, b': Book, id: AccountId)
    requires LogExplains(b, log, id) && AddsDrift(b, q, b', id)
    ensures LogExplains(b', log + [q], id)
  {
    hide Drift, DriftsOn, Surplus;
    DriftedAppend(log, q, id);
    OneMore(log, q, id);
  }

  lemma ServeDrifts(b: Book, q: Request, id: AccountId)
    requires Solvent(b) && Accepted(b, q)
    ensures AddsDrift(b, q, Serve(b, q), id)
  {
    if id !in b.accounts { SumForOthers(b.entries, id); }
    if q.Move? {
      if TwoCopies(q.op) {
        var payer := SomeoneDrifts(b, q.op);
      }
      hide Step, Solvent, Drift, Surplus;
      if id in b.accounts { StepDrifts(b, q.op, id); } else { StrangersStay(b, q.op, id); }
    }
  }

  lemma StrangersStay(b: Book, op: Op, id: AccountId)
    requires Step(b, op).Committed? && id !in b.accounts
    ensures id !in Step(b, op).book.accounts && Drift(op, id) == 0 && !(TwoCopies(op) && Payer(op) == id)
  {
    var rows, ps, w := CommittedRuns(b, op);
    hide Step, Less, Row, Decide, PostAll;
    if op.Transfer? { RolesAreLocked(op); }
  }

  /** Over every run a balance is the sum of the entries and of what has drifted in, and something has
      drifted in exactly when a transfer on two copies of that row was accepted. */
  lemma {:induction false} RunDrifts(b: Book, qs: seq<Request>, id: AccountId)
    requires EmptyBank(b)
    ensures LogExplains(After(b, qs), Done(b, qs), id)
  {
    hide Step, Serve, Accepted, DriftsOn, EmptyBank, AddsDrift;
    if qs == [] {
      EmptyBankHasNoSurplus(b, id);
    } else {
      var front, last := qs[..|qs| - 1], qs[|qs| - 1];
      RunDrifts(b, front, id);
      ReachableIsSolvent(b, front);
      var before, log := After(b, front), Done(b, front);
      AfterLast(b, qs);
      DoneLast(b, qs);
      hide After, Done, Surplus, LogExplains;
      if Accepted(before, last) {
        ServeDrifts(before, last, id);
        StillExplains(before, log, last, After(b, qs), id);
      } else {
        RefusedChangesNothing(before, last);
      }
    }
  }

  lemma DoneLast(b: Book, qs: seq<Request>)
    requires qs != []
    ensures var front, last := qs[..|qs| - 1], qs[|qs| - 1];
      Done(b, qs) == if Accepted(After(b, front), last) then Done(b, front) + [last] else Done(b, front)
  {
    hide Accepted;
  }

  lemma AfterLast(b: Book, qs: seq<Request>)
    requires qs != []
    ensures After(b, qs) == Serve(After(b, qs[..|qs| - 1]), qs[|qs| - 1])
  {}

  lemma EmptyBankHasNoSurplus(b: Book, id: AccountId)
    requires EmptyBank(b)
    ensures id in b.accounts ==> Surplus(b, id) == 0
  {}

  lemma RefusedChangesNothing(b: Book, q: Request)
    requires !Accepted(b, q)
    ensures Serve(b, q) == b
  {}

  lemma OneMore(log: seq<Request>, q: Request, id: AccountId)
    ensures (exists i :: 0 <= i < |log + [q]| && DriftsOn((log + [q])[i], id)) <==>
      (exists i :: 0 <= i < |log| && DriftsOn(log[i], id)) || DriftsOn(q, id)
  {
    hide DriftsOn;
    var longer := log + [q];
    if i :| 0 <= i < |log| && DriftsOn(log[i], id) { assert longer[i] == log[i]; }
    if DriftsOn(q, id) { assert longer[|log|] == q; }
  }

  lemma ServeKeepsBalancedOn(b: Book, q: Request, id: AccountId)
    requires Solvent(b) && BalancedOn(b, id) && !(Accepted(b, q) && DriftsOn(q, id))
    ensures BalancedOn(Serve(b, q), id)
  {
    hide Step, Solvent, BalancedOn, TwoCopies, Payer;
    if !Accepted(b, q) {
      RefusedChangesNothing(b, q);
    } else if q.Move? {
      StepKeepsBalancedOn(b, q.op, id);
    } else {
      AdminKeepsBalanced(b, q);
    }
  }

  /** In every reachable book the entries of an account tell the truth (its balance is their sum, every
      recorded balance a prefix sum) exactly when no accepted transfer worked on two copies of its row. */
  lemma {:induction false} ReachableIsBalancedOn(b: Book, qs: seq<Request>, id: AccountId)
    requires EmptyBank(b)
    ensures BalancedOn(After(b, qs), id) <==> !exists i :: 0 <= i < |Done(b, qs)| && DriftsOn(Done(b, qs)[i], id)
  {
    hide Step, Serve, Accepted, DriftsOn, EntryBalanced, Drifted, SumFor;
    if exists i :: 0 <= i < |Done(b, qs)| && DriftsOn(Done(b, qs)[i], id) {
      RunDrifts(b, qs, id);
    } else if qs == [] {
      EmptyBankHasNoSurplus(b, id);
    } else {
      var front, last := qs[..|qs| - 1], qs[|qs| - 1];
      AfterLast(b, qs);
      DoneLast(b, qs);
      ReachableIsSolvent(b, front);
      OneMore(Done(b, front), last, id);
      hide After, Done, BalancedOn, EmptyBank;
      ReachableIsBalancedOn(b, front, id);
      ServeKeepsBalancedOn(After(b, front), last, id);
    }
  }

  /** In every reachable book no balance is negative, and the books are balanced on every account exactly
      when no accepted transfer worked on two copies of one row. */
  lemma ReachableIsBalanced(b: Book, qs: seq<Request>)
    requires EmptyBank(b)
    ensures Solvent(After(b, qs))
    ensures Balanced(After(b, qs)) <==> Clean(Done(b, qs))
  {
    hide Step, After, Done, BalancedOn, LogExplains, TwoCopies, Payer, EmptyBank;
    ReachableIsSolvent(b, qs);
    forall id ensures LogExplains(After(b, qs), Done(b, qs), id) { RunDrifts(b, qs, id); }
    if Clean(Done(b, qs)) {
      forall id ensures BalancedOn(After(b, qs), id) { ReachableIsBalancedOn(b, qs, id); }
    } else {
      UncleanIsUnbalanced(After(b, qs), Done(b, qs));
    }
  }

  lemma UncleanIsUnbalanced(b: Book, log: seq<Request>)
    requires !Clean(log) && forall id :: LogExplains(b, log, id)
    ensures !Balanced(b)
  {
    hide TwoCopies, Drifted, EntryBalanced, SumFor;
    var i :| 0 <= i < |log| && log[i].Move? && TwoCopies(log[i].op);
    var id := CopiedRow(log[i].op);
    assert DriftsOn(log[i], id);
    assert LogExplains(b, log, id);
  }

  function CopiedRow(op: Op): (id: AccountId)
    requires TwoCopies(op)
    ensures op.Transfer? && Payer(op) == id
  {
    Payer(op)
  }

  lemma ServeKeepsCoherent(b: Book, q: Request)
    requires Legal(b, q) && Accepted(b, q)
    ensures Coherent(Serve(b, q).entries) <==> Coherent(b.entries) && !(q.Move? && PaysItself(q.op))
  {
    hide Step, Answers, Fresh, Coherent, PaysItself;
    if Coherent(b.entries) {
      if q.Move? { StepKeepsCoherent(b, q.op); }
    } else {
      ServeOnlyAppends(b, q);
      var added := Serve(b, q).entries[|b.entries|..];
      assert Serve(b, q).entries == b.entries + added;
      NotCoherentBefore(b.entries, added);
    }
  }

  lemma NotCoherentBefore(es: seq<Entry>, fs: seq<Entry>)
    requires !Coherent(es)
    ensures !Coherent(es + fs)
  {
    if Coherent(es + fs) {
      forall e, f | e in es && f in es ensures Agree(e, f) && e.amount != 0 { assert e in es + fs && f in es + fs; }
    }
  }

  /** In every reachable book the entries of each reference agree in sign on every account exactly when no
      accepted transfer paid the row it took the money from. */
  lemma {:induction false} ReachableIsCoherent(b: Book, qs: seq<Request>)
    requires EmptyBank(b) && LegalRun(b, qs)
    ensures Coherent(After(b, qs).entries) <==> BetweenRows(Done(b, qs))
  {
    hide Step, Serve, Accepted, PaysItself, Legal;
    if qs != [] {
      var front, last := qs[..|qs| - 1], qs[|qs| - 1];
      LegalPrefix(b, qs, |qs| - 1);
      ReachableIsCoherent(b, front);
      var before, log := After(b, front), Done(b, front);
      assert Legal(before, last) && After(b, qs) == Serve(before, last);
      hide LegalRun, After, EmptyBank, Coherent;
      if Accepted(before, last) {
        ServeKeepsCoherent(before, last);
        assert Done(b, qs) == log + [last];
        hide Done;
        assert forall i :: 0 <= i < |log| ==> (log + [last])[i] == log[i];
        assert (log + [last])[|log|] == last;
      } else {
        RefusedChangesNothing(before, last);
        assert Done(b, qs) == log;
      }
    }
  }

  lemma ServeOnlyAppends(b: Book, q: Request)
    ensures b.entries <= Serve(b, q).entries
    ensures b.accounts.Keys <= Serve(b, q).accounts.Keys
  {}

  /** History is never edited: later books extend earlier ones. */
  lemma {:induction false} HistoryOnlyGrows(b: Book, qs: seq<Request>, n: nat)
    requires n <= |qs|
    ensures After(b, qs[..n]).entries <= After(b, qs).entries
  {
    if n == |qs| {
      assert qs[..n] == qs;
    } else {
      assert qs[..|qs| - 1][..n] == qs[..n];
      HistoryOnlyGrows(b, qs[..|qs| - 1], n);
      ServeOnlyAppends(After(b, qs[..|qs| - 1]), qs[|qs| - 1]);
    }
  }

  // ---------- The daily limit ----------

  /** Over every run, on every day and for every account, withdrawals and outgoing transfers stay
      within the limit; with a limit of zero there are none at all. The clock need not be monotone. */
  lemma {:induction false} DailyLimitHolds(b: Book, qs: seq<Request>, id: AccountId, day: int)
    requires EmptyBank(b) && LegalRun(b, qs) && id in After(b, qs).accounts
    requires forall i :: 0 <= i < |qs| && qs[i].Move? ==> Ordinary(qs[i].op)
    ensures DayTotal(After(b, qs).entries, id, day) <= 0
            || DayTotal(After(b, qs).entries, id, day) <= After(b, qs).accounts[id].dailyLimit
    ensures After(b, qs).accounts[id].dailyLimit <= 0 ==>
      forall e :: e in After(b, qs).entries && e.account == id ==> e.kind != WITHDRAWAL_ENTRY && e.kind != TRANSFER_OUT
  {
    RunStaysWithinLimits(b, qs);
    if After(b, qs).accounts[id].dailyLimit <= 0 {
      NoLimitNoWithdrawal(After(b, qs).entries, id);
    }
  }

  lemma {:induction false} RunStaysWithinLimits(b: Book, qs: seq<Request>)
    requires EmptyBank(b) && LegalRun(b, qs)
    requires forall i :: 0 <= i < |qs| && qs[i].Move? ==> Ordinary(qs[i].op)
    ensures WithinLimits(After(b, qs))
  {
    hide Step, Serve, Legal, Ordinary;
    if qs != [] {
      LegalPrefix(b, qs, |qs| - 1);
      RunStaysWithinLimits(b, qs[..|qs| - 1]);
      ReachableIsSolvent(b, qs[..|qs| - 1]);
      ServeKeepsLimits(After(b, qs[..|qs| - 1]), qs[|qs| - 1]);
    }
  }

  lemma ServeKeepsLimits(b: Book, q: Request)
    requires Solvent(b) && WithinLimits(b) && (q.Move? ==> Ordinary(q.op))
    ensures WithinLimits(Serve(b, q))
  {
    if Accepted(b, q) {
      match q
      case Move(op) => StepKeepsLimits(b, op);
      case ChangeStatus(_, _) =>
      case Open(id, _, _, _) =>
        forall day ensures DayTotal(b.entries, id, day) == 0 { DayTotalOfOthers(b.entries, id, day); }
    }
  }

  lemma {:induction false} DayTotalOfOthers(es: seq<Entry>, id: AccountId, day: int)
    requires forall e :: e in es ==> e.account != id
    ensures DayTotal(es, id, day) == 0
  {
    if es != [] { DayTotalOfOthers(es[..|es| - 1], id, day); }
  }

  // ---------- Reversals over whole runs ----------

  predicate ReversesAt(b: Book, qs: seq<Request>, i: nat)
    requires i < |qs|
  {
    qs[i].Move? && qs[i].op.Reverse? && Accepted(After(b, qs[..i]), qs[i])
  }

  /** A committed reversal leaves its mark for good. */
  lemma ReversalMarks(b: Book, qs: seq<Request>, i: nat)
    requires EmptyBank(b) && LegalRun(b, qs) && i < |qs| && ReversesAt(b, qs, i)
    ensures MarkedReversed(After(b, qs).entries, qs[i].op.original)
  {
    var before, op := After(b, qs[..i]), qs[i].op;
    assert Legal(before, qs[i]);
    SomethingWasWritten(before, op);
    var written := ReversalsAreReversals(before, op);
    assert qs[..i + 1][..i] == qs[..i];
    var after := After(b, qs[..i + 1]);
    assert after == Step(before, op).book;
    assert after.entries[|before.entries|] == written[0] && written[0] in written;
    HistoryOnlyGrows(b, qs, i + 1);
    assert After(b, qs).entries[|before.entries|].description == REVERSAL_PREFIX + op.original;
  }

  /** No reference is ever reversed twice, whatever the requests, descriptions and orders. */
  lemma ReversedAtMostOnce(b: Book, qs: seq<Request>, i: nat, j: nat)
    requires EmptyBank(b) && LegalRun(b, qs) && i < j < |qs|
    requires ReversesAt(b, qs, i) && ReversesAt(b, qs, j)
    ensures qs[i].op.original != qs[j].op.original
  {
    hide After, LegalRun, EmptyBank, Step, MarkedReversed;
    LegalPrefix(b, qs, j);
    assert qs[..j][..i] == qs[..i];
    ReversalMarks(b, qs[..j], i);
    UnmarkedWhenReversed(After(b, qs[..j]), qs[j].op);
  }

  lemma UnmarkedWhenReversed(b: Book, op: Op)
    requires op.Reverse? && Step(b, op).Committed?
    ensures !MarkedReversed(b.entries, op.original)
  {}

  /** What a reference did never changes once later references are fresh. */
  lemma {:induction false} PastReferencesAreFixed(b: Book, qs: seq<Request>, n: nat, r: string)
    requires LegalRun(b, qs) && n <= |qs| && !Fresh(After(b, qs[..n]).entries, r)
    ensures EntriesOf(After(b, qs).entries, r) == EntriesOf(After(b, qs[..n]).entries, r)
    ensures !Fresh(After(b, qs).entries, r)
  {
    hide Step, Fresh, EntriesOf, Accepted;
    if n == |qs| {
      assert qs[..n] == qs;
    } else {
      var last := |qs| - 1;
      LegalPrefix(b, qs, last);
      assert qs[..last][..n] == qs[..n];
      var before, q := After(b, qs[..last]), qs[last];
      assert Legal(before, q) && After(b, qs) == Serve(before, q);
      hide LegalRun, Legal, After, Serve;
      PastReferencesAreFixed(b, qs[..last], n, r);
      ServeKeepsPastReferences(before, q, r);
    }
  }

  lemma ServeKeepsPastReferences(b: Book, q: Request, r: string)
    requires Legal(b, q) && !Fresh(b.entries, r)
    ensures EntriesOf(Serve(b, q).entries, r) == EntriesOf(b.entries, r) && !Fresh(Serve(b, q).entries, r)
  {
    ServeOnlyAppends(b, q);
    if q.Move? && Accepted(b, q) { OwnEntries(b, q.op); }
    hide Step, EntriesOf, Transition;
  }

  /** An original transaction together with its reversal has no net effect on any account, then and
      at every later time, reversals of reversals included. */
  lemma ReversalCancels(b: Book, qs: seq<Request>, i: nat, id: AccountId)
    requires EmptyBank(b) && LegalRun(b, qs) && i < |qs| && ReversesAt(b, qs, i)
    ensures var es := After(b, qs).entries;
      SumRef(es, qs[i].op.original, id) + SumRef(es, qs[i].op.reference, id) == 0
  {
    hide Step, SumFor, Answers, Fresh, EmptyBank;
    var before, op := After(b, qs[..i]), qs[i].op;
    assert Legal(before, qs[i]);
    assert qs[..i + 1][..i] == qs[..i];
    var after := After(b, qs[..i + 1]);
    assert after == Step(before, op).book;
    CancelsAtOnce(before, op, after, id);
    PastReferencesAreFixed(b, qs, i + 1, op.original);
    PastReferencesAreFixed(b, qs, i + 1, op.reference);
  }

  lemma CancelsAtOnce(b: Book, op: Op, after: Book, id: AccountId)
    requires op.Reverse? && Answers(b.entries, op) && Fresh(b.entries, op.reference)
    requires Step(b, op).Committed? && after == Step(b, op).book
    ensures SumRef(after.entries, op.original, id) + SumRef(after.entries, op.reference, id) == 0
    ensures !Fresh(after.entries, op.original) && !Fresh(after.entries, op.reference)
  {
    hide Step, Answers, EntriesOf, LockOrder, SumFor;
    OwnEntries(b, op);
    StepFrame(b, op);
    SomethingWasWritten(b, op);
    EntriesOfMembers(b.entries, op.original);
    var first := OriginalEntry(b, op);
    assert after.entries[first].reference == op.original != op.reference;
    assert after.entries[|b.entries|].reference == op.reference;
    OppositeSums(b, op, after, id);
  }

  lemma OriginalEntry(b: Book, op: Op) returns (i: nat)
    requires op.Reverse? && Answers(b.entries, op) && Step(b, op).Committed?
    ensures i < |b.entries| && b.entries[i].reference == op.original
  {
    FoundIsReal(b, op);
    assert op.found[0] in b.entries;
    i :| 0 <= i < |b.entries| && b.entries[i] == op.found[0];
  }

  lemma OppositeSums(b: Book, op: Op, after: Book, id: AccountId)
    requires op.Reverse? && Answers(b.entries, op) && Step(b, op).Committed? && after == Step(b, op).book
    ensures |b.entries| <= |after.entries|
    ensures SumFor(after.entries[|b.entries|..], id) == -SumRef(b.entries, op.original, id)
  {
    var rows, ps, written := StepWrites(b, op);
    hide Step, Answers, EntriesOf, SumFor, PostSum, LockOrder;
    assert ps == Negations(op.original, op.found);
    assert after.entries[|b.entries|..] == written;
    WrittenSums(ps, written, id);
    ReverseSums(b, op, id);
  }

  lemma {:induction false} WrittenSums(ps: seq<Posting>, es: seq<Entry>, id: AccountId)
    requires |es| == |ps| && forall i :: 0 <= i < |ps| ==> es[i].amount == ps[i].amount && es[i].account == ps[i].account
    ensures SumFor(es, id) == PostSum(ps, id)
  {
    if ps != [] {
      SumForCons(es, id);
      WrittenSums(ps[1..], es[1..], id);
    }
  }

  // ---------- Marks and descriptions ----------

  /** Whether an operation, once committed, leaves entries carrying the mark of `r`. */
  predicate WritesMark(op: Op, r: string) {
    match op
    case Deposit(_, _, _, text, _, _) => text == REVERSAL_PREFIX + r
    case Withdraw(_, _, _, text, _, _) => text == REVERSAL_PREFIX + r
    case Transfer(_, _, _, _, note, _, _) => note == Some(REVERSAL_PREFIX + r)
    case Reverse(original, _, _, _) => original == r
  }

  /** Only an operation that writes the mark can make a transaction look reversed. */
  lemma OthersLeaveNoMark(b: Book, op: Op, r: string)
    requires Step(b, op).Committed? && !WritesMark(op, r)
    ensures MarkedReversed(Step(b, op).book.entries, r) ==> MarkedReversed(b.entries, r)
  {
    var rows, ps, written := StepWrites(b, op);
    TextsLackMark(op, rows, Withdrawn(b.entries, op), r);
    hide Step, WritesMark, Decide, Covers, EarlyRefusal;
    forall k | 0 <= k < |written| ensures written[k].description != REVERSAL_PREFIX + r {
      assert written[k].description == ps[k].description;
    }
  }

  lemma TextsLackMark(op: Op, rows: map<AccountId, Account>, withdrawn: int, r: string)
    requires !WritesMark(op, r) && Covers(rows, op) && Decide(op, rows, withdrawn).Success?
    ensures forall i :: 0 <= i < |Decide(op, rows, withdrawn).value| ==>
      Decide(op, rows, withdrawn).value[i].description != REVERSAL_PREFIX + r
  {
    hide Less, Row, Payer, Payee, TwoCopies;
    assert (REVERSAL_PREFIX + r)[0] == REVERSAL_PREFIX[0] == 'R';
    if op.Transfer? {
      RolesAreLocked(op);
      assert ("Transfer " + rows[Payer(op)].number + " -> " + rows[Payee(op)].number)[0] == 'T';
      assert "Transfer fee"[0] == 'T';
    }
    if op.Reverse? {
      assert (REVERSAL_PREFIX + r)[|REVERSAL_PREFIX|..] == r;
      assert (REVERSAL_PREFIX + op.original)[|REVERSAL_PREFIX|..] == op.original;
    }
  }

  /** The first line of an operation that writes the mark carries it. */
  lemma FirstTextMarks(op: Op, rows: map<AccountId, Account>, withdrawn: int, r: string)
    requires WritesMark(op, r) && Covers(rows, op) && Decide(op, rows, withdrawn).Success?
    requires op.Reverse? ==> op.found != []
    ensures var ps := Decide(op, rows, withdrawn).value; |ps| > 0 && ps[0].description == REVERSAL_PREFIX + r
  {}

  /** After an operation a reference is marked exactly when it was before or the operation writes
      the mark. */
  lemma MarkAfter(b: Book, op: Op, r: string)
    requires Step(b, op).Committed?
    ensures MarkedReversed(Step(b, op).book.entries, r) <==> MarkedReversed(b.entries, r) || WritesMark(op, r)
  {
    var rows, ps, written := StepWrites(b, op);
    hide Step, LockOrder, WithdrawnSince, Decide, Covers, WritesMark;
    var after := Step(b, op).book.entries;
    assert forall i :: 0 <= i < |b.entries| ==> after[i] == b.entries[i];
    if !WritesMark(op, r) {
      OthersLeaveNoMark(b, op, r);
    } else {
      FirstTextMarks(op, rows, Withdrawn(b.entries, op), r);
      assert after[|b.entries|] == written[0];
    }
  }

  /** The i-th request of a run is accepted and writes the mark of r. */
  predicate MarksAt(b: Book, qs: seq<Request>, i: nat, r: string)
    requires i < |qs|
  {
    qs[i].Move? && Accepted(After(b, qs[..i]), qs[i]) && WritesMark(qs[i].op, r)
  }

  /** Over every run a reference is marked exactly when some accepted operation wrote its mark: its
      reversal, or a text that imitates it. */
  lemma {:induction false} MarkedExactly(b: Book, qs: seq<Request>, r: string)
    requires EmptyBank(b)
    ensures MarkedReversed(After(b, qs).entries, r) <==> exists i :: 0 <= i < |qs| && MarksAt(b, qs, i, r)
  {
    if qs == [] {
      assert After(b, qs).entries == [];
    } else {
      hide After, Serve, MarksAt, MarkedReversed, EmptyBank;
      var last := |qs| - 1;
      MarkedExactly(b, qs[..last], r);
      LastMarks(b, qs, r);
      forall i | 0 <= i < last ensures MarksAt(b, qs[..last], i, r) <==> MarksAt(b, qs, i, r) {
        MarksAtPrefix(b, qs, i, r);
      }
      if MarkedReversed(After(b, qs[..last]).entries, r) {
        var i :| 0 <= i < last && MarksAt(b, qs[..last], i, r);
        assert MarksAt(b, qs, i, r);
      }
    }
  }

  lemma MarksAtPrefix(b: Book, qs: seq<Request>, i: nat, r: string)
    requires i < |qs| - 1
    ensures MarksAt(b, qs[..|qs| - 1], i, r) <==> MarksAt(b, qs, i, r)
  {
    hide After, Accepted, WritesMark;
    assert qs[..|qs| - 1][..i] == qs[..i];
  }

  lemma LastMarks(b: Book, qs: seq<Request>, r: string)
    requires qs != []
    ensures MarkedReversed(After(b, qs).entries, r) <==>
      MarkedReversed(After(b, qs[..|qs| - 1]).entries, r) || MarksAt(b, qs, |qs| - 1, r)
  {
    hide After, Serve, Accepted, WritesMark, MarkedReversed;
    ServeMarks(After(b, qs[..|qs| - 1]), qs[|qs| - 1], r);
    AfterLast(b, qs);
  }

  lemma ServeMarks(b: Book, q: Request, r: string)
    ensures MarkedReversed(Serve(b, q).entries, r) <==>
      MarkedReversed(b.entries, r) || (q.Move? && Accepted(b, q) && WritesMark(q.op, r))
  {
    hide Step, WritesMark, MarkedReversed;
    if q.Move? && Accepted(b, q) { MarkAfter(b, q.op, r); }
  }

  /** A caller's text imitates the mark of r. */
  predicate Imitates(q: Request, r: string) {
    q.Move? && !q.op.Reverse? && WritesMark(q.op, r)
  }

  /** When no text imitates its mark, a transaction is marked exactly when it was reversed. */
  lemma MarkedMeansReversed(b: Book, qs: seq<Request>, r: string)
    requires EmptyBank(b) && forall i :: 0 <= i < |qs| ==> !Imitates(qs[i], r)
    ensures MarkedReversed(After(b, qs).entries, r) <==>
      exists i :: 0 <= i < |qs| && ReversesAt(b, qs, i) && qs[i].op.original == r
  {
    MarkedExactly(b, qs, r);
    hide After, Accepted, MarkedReversed;
    forall i | 0 <= i < |qs| ensures MarksAt(b, qs, i, r) <==> ReversesAt(b, qs, i) && qs[i].op.original == r {
      assert !Imitates(qs[i], r);
    }
  }

  /** A description that imitates the mark blocks the reversal of a transaction nobody has reversed. */
  lemma ImitatedMarkBlocksReversal(b: Book, op: Op)
    requires EmptyBank(b) && op.Deposit? && op.amount > 0
    requires op.account in b.accounts && b.accounts[op.account].status == ACTIVE
    requires op.description == REVERSAL_PREFIX + op.reference
    ensures LegalRun(b, [Move(op)]) && EntriesOf(After(b, [Move(op)]).entries, op.reference) != []
    ensures forall undo: Op :: undo.Reverse? && undo.original == op.reference ==>
      Step(After(b, [Move(op)]), undo) == Refused(AlreadyReversed)
  {
    hide Step, After, LegalRun, Solvent, Legal, EntriesOf, MarkedReversed;
    EmptyBankIsReady(b, op);
    DepositMeans(b, op);
    RunOfOne(b, op);
    var after := Step(b, op).book;
    assert after.entries[0].description == REVERSAL_PREFIX + op.reference;
    EntriesOfMembers(after.entries, op.reference);
    assert after.entries[0] in after.entries && after.entries[0].reference == op.reference;
    assert after.entries[0] in EntriesOf(after.entries, op.reference);
    forall undo: Op | undo.Reverse? && undo.original == op.reference
      ensures Step(after, undo) == Refused(AlreadyReversed)
    {
      MarkedIsRefused(after, undo, 0);
    }
  }

  lemma EmptyBankIsReady(b: Book, op: Op)
    requires EmptyBank(b) && !op.Reverse?
    ensures Solvent(b) && Legal(b, Move(op))
  {}

  lemma MarkedIsRefused(b: Book, op: Op, i: nat)
    requires op.Reverse? && i < |b.entries| && b.entries[i].description == REVERSAL_PREFIX + op.original
    ensures Step(b, op) == Refused(AlreadyReversed)
  {}

  lemma RunOfOne(b: Book, op: Op)
    requires Legal(b, Move(op)) && Step(b, op).Committed?
    ensures LegalRun(b, [Move(op)]) && After(b, [Move(op)]) == Step(b, op).book
  {}

  // ---------- Short runs ----------

  lemma RunOfTwo(b: Book, p: Request, q: Request)
    requires Legal(b, p) && Legal(Serve(b, p), q)
    ensures LegalRun(b, [p, q]) && After(b, [p, q]) == Serve(Serve(b, p), q)
  {}

  /** Two deposits on one account of an empty bank. */
  lemma TwoDeposits(b: Book, p: Op, q: Op)
    requires EmptyBank(b) && p.Deposit? && q.Deposit? && p.amount > 0 && q.amount > 0 && p.reference != q.reference
    requires p.account == q.account && p.account in b.accounts && b.accounts[p.account].status == ACTIVE
    ensures LegalRun(b, [Move(p), Move(q)])
    ensures After(b, [Move(p), Move(q)]) == Book(
      b.accounts[p.account := b.accounts[p.account].(balance := p.amount + q.amount)],
      [Entry(p.account, p.kind, p.amount, p.amount, p.reference, p.description, p.now),
       Entry(p.account, q.kind, q.amount, p.amount + q.amount, q.reference, q.description, q.now)])
  {
    hide *;
    EmptyBankIsReady(b, p);
    EmptyBankIsEmpty(b, p.account);
    var row := b.accounts[p.account];
    var b1 := OneDeposit(b, p, row);
    var b2 := OneDeposit(b1, q, row.(balance := p.amount));
    SecondIsLegal(b1, q);
    RunOfTwo(b, Move(p), Move(q));
    LastUpdateWins(b.accounts, p.account, row.(balance := p.amount), row.(balance := p.amount + q.amount));
  }

  lemma EmptyBankIsEmpty(b: Book, id: AccountId)
    requires EmptyBank(b) && id in b.accounts
    ensures b.entries == [] && b.accounts[id].balance == 0
  {}

  lemma LastUpdateWins(rows: map<AccountId, Account>, id: AccountId, row: Account, row': Account)
    ensures rows[id := row][id := row'] == rows[id := row']
  {}

  lemma OneDeposit(b: Book, op: Op, row: Account) returns (b': Book)
    requires Solvent(b) && op.Deposit? && op.amount > 0 && op.account in b.accounts
    requires row == b.accounts[op.account] && row.status == ACTIVE
    ensures b' == Serve(b, Move(op)) && Solvent(b')
    ensures b' == Book(b.accounts[op.account := row.(balance := row.balance + op.amount)], b.entries
      + [Entry(op.account, op.kind, op.amount, row.balance + op.amount, op.reference, op.description, op.now)])
  {
    hide Step, Solvent;
    DepositMeans(b, op);
    StepKeepsSolvent(b, op);
    b' := Step(b, op).book;
    ServeMove(b, op);
  }

  lemma SecondIsLegal(b: Book, q: Op)
    requires q.Deposit? && |b.entries| == 1 && b.entries[0].reference != q.reference
    ensures Legal(b, Move(q))
  {}

  // ---------- Closed accounts ----------

  ghost predicate ClosedAreEmpty(b: Book) {
    forall id :: id in b.accounts && b.accounts[id].status == CLOSED ==> b.accounts[id].balance == 0
  }

  /** In a run without reversals a closed account is empty for ever. */
  lemma {:induction false} ClosedStaysEmpty(b: Book, qs: seq<Request>)
    requires EmptyBank(b) && LegalRun(b, qs)
    requires forall i :: 0 <= i < |qs| && qs[i].Move? ==> !qs[i].op.Reverse?
    ensures ClosedAreEmpty(After(b, qs))
  {
    if qs != [] {
      var last := |qs| - 1;
      LegalPrefix(b, qs, last);
      ClosedStaysEmpty(b, qs[..last]);
      ReachableIsSolvent(b, qs[..last]);
      ServeKeepsClosedEmpty(After(b, qs[..last]), qs[last]);
    }
  }

  lemma ServeKeepsClosedEmpty(b: Book, q: Request)
    requires Solvent(b) && ClosedAreEmpty(b) && !(q.Move? && q.op.Reverse?)
    ensures ClosedAreEmpty(Serve(b, q))
  {
    if q.Move? && Accepted(b, q) {
      match q.op
      case Deposit(_, _, _, _, _, _) => DepositMeans(b, q.op);
      case Withdraw(_, _, _, _, _, _) => WithdrawMeans(b, q.op);
      case Transfer(_, _, _, _, _, _, _) => TransferMeans(b, q.op);
    }
  }

  /** `reverse` looks at no status: it keeps closed accounts empty exactly when the original put nothing
      on a closed account. When its entries agree in sign, that is when none of them is on one. */
  lemma ReversalMayFillClosedAccounts(b: Book, op: Op)
    requires Solvent(b) && ClosedAreEmpty(b) && op.Reverse? && Answers(b.entries, op) && Step(b, op).Committed?
    ensures ClosedAreEmpty(Step(b, op).book) <==>
      forall id :: id in b.accounts && b.accounts[id].status == CLOSED ==> SumFor(op.found, id) == 0
    ensures Coherent(op.found) ==>
      (ClosedAreEmpty(Step(b, op).book) <==>
         forall e :: e in op.found ==> e.account in b.accounts && b.accounts[e.account].status != CLOSED)
  {
    hide Step, EntriesOf, Coherent, Bearable, BearableInOrder, SumFor;
    ReverseMeans(b, op);
    FoundIsReal(b, op);
    var after := Step(b, op).book;
    forall id | id in b.accounts
      ensures after.accounts[id] == b.accounts[id].(balance := b.accounts[id].balance - SumFor(op.found, id))
    {
      SumForPermutes(op.found, EntriesOf(b.entries, op.original), id);
    }
    if Coherent(op.found) {
      if e :| e in op.found && b.accounts[e.account].status == CLOSED {
        CoherentSumIsNonZero(op.found, e);
        assert after.accounts[e.account].balance != 0;
      } else {
        forall id | id in b.accounts && b.accounts[id].status == CLOSED ensures SumFor(op.found, id) == 0 {
          SumForOthers(op.found, id);
        }
      }
    }
  }

  /** It does fill one whenever the withdrawal that emptied an account is reversed after the account
      was closed: the account is left closed with the whole amount on it. */
  lemma ClosedAccountRefilled(b: Book, op: Op, undo: Op)
    requires Solvent(b) && op.Withdraw? && Fresh(b.entries, op.reference) && Step(b, op).Committed?
    requires op.amount == b.accounts[op.account].balance
    requires !MarkedReversed(Step(b, op).book.entries, op.reference)
    requires undo.Reverse? && undo.original == op.reference && Answers(Step(b, op).book.entries, undo)
    ensures var closed := Serve(Serve(b, Move(op)), ChangeStatus(op.account, Close));
      && closed.accounts[op.account] == b.accounts[op.account].(balance := 0, status := CLOSED)
      && Accepted(closed, Move(undo))
      && Serve(closed, Move(undo)).accounts[op.account] == b.accounts[op.account].(status := CLOSED)
      && b.accounts[op.account].balance > 0
  {
    hide *;
    var after := Step(b, op).book;
    ServeMove(b, op);
    var closed := WithdrawnAndClosed(b, op, after);
    UndoneOnClosed(b, op, after, closed, undo);
    ServeMove(closed, undo);
  }

  lemma UndoneOnClosed(b: Book, op: Op, after: Book, closed: Book, undo: Op)
    requires Solvent(b) && op.Withdraw? && Fresh(b.entries, op.reference) && Step(b, op).Committed? && after == Step(b, op).book
    requires !MarkedReversed(after.entries, op.reference)
    requires undo.Reverse? && undo.original == op.reference && Answers(after.entries, undo)
    requires op.account in b.accounts && op.account in after.accounts
    requires Solvent(closed) && closed.entries == after.entries && closed.accounts.Keys == after.accounts.Keys
    requires forall id :: id in after.accounts ==> closed.accounts[id].balance == after.accounts[id].balance
    ensures Step(closed, undo).Committed? && op.account in Step(closed, undo).book.accounts
    ensures Step(closed, undo).book.accounts[op.account] == closed.accounts[op.account].(balance := b.accounts[op.account].balance)
  {
    hide *;
    NothingToFind(b, op);
    OwnFound(b, op, after, undo);
    OwnEntriesAreBearable(b, op, after, undo.found);
    OwnEffect(b, op, op.account);
    SameBalancesBearAlike(after, closed, undo.found);
    ReverseMeans(closed, undo);
    assert EntriesOf(after.entries, op.reference) != [];
  }

  lemma NothingToFind(b: Book, op: Op)
    requires op.Deposit? || op.Withdraw?
    ensures Answers(b.entries, op) && forall id :: Drift(op, id) == 0
  {}

  lemma WithdrawnAndClosed(b: Book, op: Op, after: Book) returns (closed: Book)
    requires Solvent(b) && op.Withdraw? && Step(b, op).Committed? && after == Step(b, op).book
    requires op.amount == b.accounts[op.account].balance
    ensures op.account in after.accounts && op.account in b.accounts
    ensures closed == Serve(after, ChangeStatus(op.account, Close)) && Solvent(closed)
    ensures closed.entries == after.entries && closed.accounts.Keys == after.accounts.Keys
    ensures forall id :: id in after.accounts ==> closed.accounts[id].balance == after.accounts[id].balance
    ensures closed.accounts[op.account] == b.accounts[op.account].(balance := 0, status := CLOSED)
    ensures b.accounts[op.account].balance > 0 == after.accounts[op.account].balance
  {
    hide Step, Solvent, Drift, WithdrawnSince;
    WithdrawMeans(b, op);
    StepKeepsSolvent(b, op);
    closed := Serve(after, ChangeStatus(op.account, Close));
    ServeKeepsSolvent(after, ChangeStatus(op.account, Close));
  }

  lemma SameBalancesBearAlike(b: Book, b': Book, found: seq<Entry>)
    requires BearableInOrder(b, found) && b'.accounts.Keys == b.accounts.Keys
    requires forall id :: id in b.accounts ==> b'.accounts[id].balance == b.accounts[id].balance
    ensures BearableInOrder(b', found)
  {
    hide SumFor;
    forall k, id | 0 <= k <= |found| && id in b'.accounts ensures b'.accounts[id].balance - SumFor(found[..k], id) >= 0 {
      assert b.accounts[id].balance - SumFor(found[..k], id) >= 0;
    }
  }

  lemma ServeMove(b: Book, op: Op)
    requires Step(b, op).Committed?
    ensures Accepted(b, Move(op)) && Serve(b, Move(op)) == Step(b, op).book
  {}

  /** Entries of one reference never cancel out on an account they touch. */
  lemma CoherentSumIsNonZero(es: seq<Entry>, e: Entry)
    requires Coherent(es) && e in es && forall f :: f in es ==> f.reference == e.reference
    ensures SumFor(es, e.account) != 0 && (SumFor(es, e.account) > 0 <==> e.amount > 0)
  {
    var k :| 0 <= k < |es| && es[k] == e;
    assert es == (es[..k] + [e]) + es[k + 1..];
    SumForConcat(es[..k] + [e], es[k + 1..], e.account);
    SumForAppend(es[..k], e, e.account);
    forall f | f in es ensures Agree(e, f) {}
    OneSided(es[..k], e);
    OneSided(es[k + 1..], e);
  }

  lemma {:induction false} OneSided(es: seq<Entry>, e: Entry)
    requires e.amount != 0 && forall f :: f in es ==> f.reference == e.reference && f.amount != 0 && Agree(e, f)
    ensures if e.amount > 0 then SumFor(es, e.account) >= 0 else SumFor(es, e.account) <= 0
  {
    if es != [] { OneSided(es[..|es| - 1], e); }
  }
}
