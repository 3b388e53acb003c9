/** The detailed statement, and why its figures add up. */
module Statement {
  import opened AccountIds
  import opened AccountState
  import opened Entities
  import opened Ledger
  import opened LedgerInvariants
  import opened LedgerTransfer
  import opened LedgerRuns
  import opened Reversal
  import opened Wrappers
  import H = LedgerHistory

  datatype Summary = Summary(opening: int, credits: int, debits: int, closing: int, transactions: nat)

  function Credits(lines: seq<Entry>): int {
    if lines == [] then 0
    else Credits(lines[..|lines| - 1]) + if lines[|lines| - 1].amount > 0 then lines[|lines| - 1].amount else 0
  }

  function Debits(lines: seq<Entry>): int {
    if lines == [] then 0
    else Debits(lines[..|lines| - 1]) + if lines[|lines| - 1].amount < 0 then lines[|lines| - 1].amount else 0
  }

  /** The figures of a detailed statement over some lines, oldest first. */
  function Compose(current: int, lines: seq<Entry>): Summary {
    var opening := if lines == [] then current else lines[0].balanceAfter - lines[0].amount;
    Summary(opening, Credits(lines), Debits(lines), current, |lines|)
  }

  function OwnLines(es: seq<Entry>, id: AccountId): seq<Entry> {
    if es == [] then []
    else OwnLines(es[..|es| - 1], id) + if es[|es| - 1].account == id then [es[|es| - 1]] else []
  }

  /** What the history iterator may yield: every line of the account once, oldest first, lines of the
      same instant in any order, since random ids break the tie. */
  ghost predicate FullHistory(es: seq<Entry>, id: AccountId, lines: seq<Entry>) {
    && multiset(lines) == multiset(OwnLines(es, id))
    && forall i, j :: 0 <= i < j < |lines| ==> lines[i].createdAt <= lines[j].createdAt
  }

  // ---------- Credits and debits ----------

  lemma {:induction false} OwnLinesMembers(es: seq<Entry>, id: AccountId)
    ensures forall e :: e in OwnLines(es, id) <==> e in es && e.account == id
  {
    if es != [] {
      var front, last := es[..|es| - 1], es[|es| - 1];
      OwnLinesMembers(front, id);
      var own := OwnLines(front, id);
      assert OwnLines(es, id) == own + if last.account == id then [last] else [];
      hide OwnLines;
      assert es == front + [last];
    }
  }

  lemma {:induction false} OwnLinesSum(es: seq<Entry>, id: AccountId)
    ensures SumFor(OwnLines(es, id), id) == SumFor(es, id)
  {
    if es != [] {
      var front, last := es[..|es| - 1], es[|es| - 1];
      OwnLinesSum(front, id);
      SumForAppend(OwnLines(front, id), last, id);
      assert OwnLines(front, id) + [] == OwnLines(front, id);
    }
  }

  lemma {:induction false} CreditsAndDebits(lines: seq<Entry>, id: AccountId)
    requires forall i :: 0 <= i < |lines| ==> lines[i].account == id
    ensures Credits(lines) + Debits(lines) == SumFor(lines, id)
    ensures Credits(lines) >= 0 >= Debits(lines)
    ensures Credits(lines) == SumFor(CreditsOf(lines), id)
  {
    if lines != [] {
      var front, last := lines[..|lines| - 1], lines[|lines| - 1];
      CreditsAndDebits(front, id);
      CreditsCons(lines, id);
    }
  }

  lemma OwnLinesLast(es: seq<Entry>, id: AccountId)
    requires es != []
    ensures var last := es[|es| - 1];
      OwnLines(es, id) == OwnLines(es[..|es| - 1], id) + if last.account == id then [last] else []
  {}

  lemma {:induction false} OwnCredits(es: seq<Entry>, id: AccountId)
    ensures SumFor(CreditsOf(OwnLines(es, id)), id) == SumFor(CreditsOf(es), id)
  {
    if es != [] {
      hide *;
      var front, last := es[..|es| - 1], es[|es| - 1];
      OwnCredits(front, id);
      CreditsCons(es, id);
      OwnLinesLast(es, id);
      var own := OwnLines(front, id);
      if last.account == id {
        assert (own + [last])[..|own|] == own;
        CreditsCons(own + [last], id);
      } else {
        assert own + [] == own;
      }
    }
  }

  lemma {:induction false} OwnLinesCount(es: seq<Entry>, id: AccountId)
    ensures |OwnLines(es, id)| == |set k | 0 <= k < |es| && es[k].account == id|
  {
    if es != [] {
      hide OwnLines;
      OwnLinesCount(es[..|es| - 1], id);
      OwnLinesLast(es, id);
      PlacesLast(es, id);
    }
  }

  lemma PlacesLast(es: seq<Entry>, id: AccountId)
    requires es != []
    ensures var n := |es| - 1;
      |set k | 0 <= k < |es| && es[k].account == id|
      == |set k | 0 <= k < |es[..n]| && es[..n][k].account == id| + if es[n].account == id then 1 else 0
  {
    var n := |es| - 1;
    assert (set k | 0 <= k < |es| && es[k].account == id)
        == (set k | 0 <= k < |es[..n]| && es[..n][k].account == id) + if es[n].account == id then {n} else {};
  }

  /** Whatever the order of the lines, credits and debits together are what the entries say about the
      closing balance: all of it but the surplus. So the statement reconciles exactly when it opens at
      the surplus. */
  lemma MovementsMakeTheBalance(b: Book, id: AccountId, lines: seq<Entry>)
    requires id in b.accounts && multiset(lines) == multiset(OwnLines(b.entries, id))
    ensures var s := Compose(b.accounts[id].balance, lines);
      && s.transactions == |set k | 0 <= k < |b.entries| && b.entries[k].account == id|
      && s.credits == SumFor(CreditsOf(b.entries), id)
      && s.credits + s.debits + Surplus(b, id) == s.closing && s.credits >= 0 >= s.debits
      && (s.opening + s.credits + s.debits == s.closing <==> s.opening == Surplus(b, id))
  {
    OwnLinesMembers(b.entries, id);
    OwnLinesSum(b.entries, id);
    forall i | 0 <= i < |lines| ensures lines[i].account == id {
      assert lines[i] in multiset(lines);
      assert lines[i] in OwnLines(b.entries, id);
    }
    OwnLinesCount(b.entries, id);
    assert |lines| == |multiset(lines)| == |OwnLines(b.entries, id)|;
    CreditsAndDebits(lines, id);
    OwnCredits(b.entries, id);
    CreditsPermute(lines, OwnLines(b.entries, id), id);
    SumForPermutes(lines, OwnLines(b.entries, id), id);
  }

  // ---------- The first line ----------

  /** Nothing else that one transaction wrote on an account stands beside the account's first entry. */
  predicate FirstAlone(es: seq<Entry>, id: AccountId) {
    forall i, j :: 0 <= i < j < |es| && es[i].account == id && es[j].account == id && Untouched(es[..i], id)
      ==> es[i].reference != es[j].reference
  }

  predicate Untouched(es: seq<Entry>, id: AccountId) {
    forall k :: 0 <= k < |es| ==> es[k].account != id
  }

  // ---------- What happens before the first entry ----------

  /** An account nothing was posted to is empty. */
  ghost predicate UntouchedAreEmpty(b: Book) {
    forall id :: id in b.accounts && Untouched(b.entries, id) ==> b.accounts[id].balance == 0
  }

  lemma {:induction false} PostAllSpares(w: Workspace, ps: seq<Posting>, reference: string, now: int, id: AccountId)
    requires Postable(w.rows, ps) && PostAll(w, ps, reference, now).Success? && id in w.rows
    requires forall i :: 0 <= i < |ps| ==> ps[i].account != id
    ensures id in PostAll(w, ps, reference, now).value.rows && PostAll(w, ps, reference, now).value.rows[id] == w.rows[id]
    decreases |ps|
  {
    if ps != [] { PostAllSpares(Posted(w, ps[0], reference, now), ps[1..], reference, now, id); }
  }

  /** An account without a new entry keeps its row. */
  lemma StepSparesUntouched(b: Book, op: Op, id: AccountId)
    requires Step(b, op).Committed? && id in b.accounts && Untouched(Step(b, op).book.entries, id)
    ensures Untouched(b.entries, id)
    ensures id in Step(b, op).book.accounts && Step(b, op).book.accounts[id] == b.accounts[id]
  {
    hide Step, Decide, PostAll, LockOrder, Withdrawn, EarlyRefusal, EventsOf, Covers, Overlay, Untouched;
    var rows, ps, w := CommittedRuns(b, op);
    PostingSparesUntouched(b, rows, ps, w, op.reference, op.now, id);
  }

  lemma PostingSparesUntouched(b: Book, rows: map<AccountId, Account>, ps: seq<Posting>, w: Workspace,
                               reference: string, now: int, id: AccountId)
    requires forall x :: x in rows ==> x in b.accounts && rows[x] == b.accounts[x]
    requires Postable(rows, ps) && PostAll(Workspace(rows, []), ps, reference, now) == Success(w)
    requires id in b.accounts && Untouched(Overlay(b, w).entries, id)
    ensures Untouched(b.entries, id)
    ensures id in Overlay(b, w).accounts && Overlay(b, w).accounts[id] == b.accounts[id]
  {
    hide PostAll;
    var es := Overlay(b, w).entries;
    assert forall i :: 0 <= i < |b.entries| ==> es[i] == b.entries[i];
    PostAllKeepsRows(Workspace(rows, []), ps, reference, now);
    forall i | 0 <= i < |ps| ensures ps[i].account != id { assert es[|b.entries| + i] == w.written[i]; }
    if id in rows { PostAllSpares(Workspace(rows, []), ps, reference, now, id); }
  }

  lemma ServeKeepsUntouched(b: Book, q: Request)
    requires UntouchedAreEmpty(b)
    ensures UntouchedAreEmpty(Serve(b, q))
  {
    if q.Move? && Accepted(b, q) {
      StepFrame(b, q.op);
      hide Step;
      var b' := Step(b, q.op).book;
      forall id | id in b'.accounts && Untouched(b'.entries, id) ensures b'.accounts[id].balance == 0 {
        StepSparesUntouched(b, q.op, id);
      }
    }
  }

  lemma {:induction false} ReachableIsUntouched(b: Book, qs: seq<Request>)
    requires EmptyBank(b)
    ensures UntouchedAreEmpty(After(b, qs))
  {
    hide Step, Serve;
    if qs != [] {
      ReachableIsUntouched(b, qs[..|qs| - 1]);
      ServeKeepsUntouched(After(b, qs[..|qs| - 1]), qs[|qs| - 1]);
    }
  }

  /** The first operation to touch an account writes one line on it, and the balance that line records is
      its amount, because an empty account can neither pay nor be part of a reversal. */
  lemma FirstTouchIsSingle(b: Book, op: Op, id: AccountId)
    requires Solvent(b) && UntouchedAreEmpty(b) && Answers(b.entries, op) && Step(b, op).Committed? && Untouched(b.entries, id)
    ensures var es := Step(b, op).book.entries;
      && (forall i, j :: |b.entries| <= i < j < |es| ==> !(es[i].account == id && es[j].account == id))
      && (forall i :: |b.entries| <= i < |es| && es[i].account == id ==> es[i].balanceAfter == es[i].amount)
  {
    hide Step, Solvent, Answers;
    match op
    case Deposit(_, _, _, _, _, _) => DepositMeans(b, op);
    case Withdraw(_, _, _, _, _, _) => WithdrawMeans(b, op);
    case Transfer(_, _, _, _, _, _, _) => FirstTransfer(b, op, id);
    case Reverse(original, found, _, _) =>
      StepFrame(b, op);
      NothingToReverse(b, op, id);
  }

  lemma FirstTransfer(b: Book, op: Op, id: AccountId)
    requires Solvent(b) && UntouchedAreEmpty(b) && op.Transfer? && Step(b, op).Committed? && Untouched(b.entries, id)
    ensures var es := Step(b, op).book.entries;
      && (forall i, j :: |b.entries| <= i < j < |es| ==> !(es[i].account == id && es[j].account == id))
      && (forall i :: |b.entries| <= i < |es| && es[i].account == id ==> es[i].balanceAfter == es[i].amount)
  {
    hide Step, Solvent, Row, Less, Payer, Payee, TwoCopies, WithdrawnSince, Text;
    TransferMeans(b, op);
    CopiesShareTheRow(op);
    assert Payer(op) != id;
  }

  lemma NothingToReverse(b: Book, op: Op, id: AccountId)
    requires op.Reverse? && Answers(b.entries, op) && Untouched(b.entries, id)
    ensures id !in LockOrder(op)
  {
    FoundIsReal(b, op);
    hide Coherent, EntriesOf;
    SortedAccountsSorts(op.found);
    forall i | 0 <= i < |op.found| ensures op.found[i].account != id { assert op.found[i] in b.entries; }
  }

  /** The first entry of an account records its own amount as the balance. */
  predicate FirstOpens(es: seq<Entry>, id: AccountId) {
    forall i :: 0 <= i < |es| && es[i].account == id && Untouched(es[..i], id) ==> es[i].balanceAfter == es[i].amount
  }

  lemma StepKeepsFirst(b: Book, op: Op, id: AccountId)
    requires Solvent(b) && UntouchedAreEmpty(b)
    requires Answers(b.entries, op) && Fresh(b.entries, op.reference) && Step(b, op).Committed?
    requires FirstAlone(b.entries, id) && FirstOpens(b.entries, id)
    ensures FirstAlone(Step(b, op).book.entries, id) && FirstOpens(Step(b, op).book.entries, id)
  {
    var es := Step(b, op).book.entries;
    StepFrame(b, op);
    if Untouched(b.entries, id) { FirstTouchIsSingle(b, op, id); }
    hide Step, Solvent, Answers, FirstAlone, FirstOpens;
    StillAlone(b.entries, es, op.reference, id);
    StillOpens(b.entries, es, id);
  }

  lemma StillOpens(es: seq<Entry>, es': seq<Entry>, id: AccountId)
    requires FirstOpens(es, id) && es <= es'
    requires Untouched(es, id) ==> forall i :: |es| <= i < |es'| && es'[i].account == id ==> es'[i].balanceAfter == es'[i].amount
    ensures FirstOpens(es', id)
  {
    forall i | 0 <= i < |es'| && es'[i].account == id && Untouched(es'[..i], id) ensures es'[i].balanceAfter == es'[i].amount {
      if i < |es| {
        assert es'[..i] == es[..i];
      } else {
        assert forall k :: 0 <= k < |es| ==> es'[..i][k] == es[k];
      }
    }
  }

  lemma StillAlone(es: seq<Entry>, es': seq<Entry>, reference: string, id: AccountId)
    requires FirstAlone(es, id) && es <= es' && Fresh(es, reference)
    requires forall i :: |es| <= i < |es'| ==> es'[i].reference == reference
    requires Untouched(es, id) ==>
      forall i, j :: |es| <= i < j < |es'| ==> !(es'[i].account == id && es'[j].account == id)
    ensures FirstAlone(es', id)
  {}

  lemma {:induction false} FirstStaysAlone(b: Book, qs: seq<Request>, id: AccountId)
    requires EmptyBank(b) && LegalRun(b, qs)
    ensures FirstAlone(After(b, qs).entries, id) && FirstOpens(After(b, qs).entries, id)
  {
    if qs != [] {
      var last := |qs| - 1;
      var before, q := After(b, qs[..last]), qs[last];
      LegalPrefix(b, qs, last);
      assert Legal(before, q);
      AfterLast(b, qs);
      hide Step, After, LegalRun, Solvent, UntouchedAreEmpty, FirstAlone, FirstOpens, EmptyBank;
      FirstStaysAlone(b, qs[..last], id);
      ReachableIsSolvent(b, qs[..last]);
      ReachableIsUntouched(b, qs[..last]);
      if q.Move? && Accepted(before, q) { StepKeepsFirst(before, q.op, id); }
    }
  }

  // ---------- Time ----------

  /** Each operation is stamped later than the ones before it. */
  predicate Ticking(qs: seq<Request>) {
    forall i, j :: 0 <= i < j < |qs| && qs[i].Move? && qs[j].Move? ==> qs[i].op.now < qs[j].op.now
  }

  /** Entries are in time order, and only entries of one operation share an instant. */
  predicate Stamped(es: seq<Entry>) {
    forall i, j :: 0 <= i < j < |es| ==>
      es[i].createdAt <= es[j].createdAt && (es[i].createdAt == es[j].createdAt ==> es[i].reference == es[j].reference)
  }

  lemma {:induction false} TickingStamps(b: Book, qs: seq<Request>)
    requires EmptyBank(b) && Ticking(qs)
    ensures var es := After(b, qs).entries;
      Stamped(es) && forall k :: 0 <= k < |es| ==> exists i :: 0 <= i < |qs| && qs[i].Move? && es[k].createdAt == qs[i].op.now
  {
    if qs != [] {
      var last := |qs| - 1;
      var front, q := qs[..last], qs[last];
      TickingStamps(b, front);
      var before := After(b, front);
      var es, es' := before.entries, After(b, qs).entries;
      if q.Move? && Accepted(before, q) { StepFrame(before, q.op); }
      assert es <= es' && forall k :: |es| <= k < |es'| ==> q.Move? && es'[k].createdAt == q.op.now && es'[k].reference == q.op.reference;
      hide After, Serve, Step, Accepted, EmptyBank;
      forall k | 0 <= k < |es'|
        ensures exists i :: 0 <= i < |qs| && qs[i].Move? && es'[k].createdAt == qs[i].op.now
        ensures k < |es| && q.Move? ==> es'[k].createdAt < q.op.now
      {
        if k < |es| {
          assert es'[k] == es[k];
          var i :| 0 <= i < |front| && front[i].Move? && es[k].createdAt == front[i].op.now;
          assert qs[i] == front[i];
        } else {
          assert qs[last] == q;
        }
      }
      assert forall k :: 0 <= k < |es| ==> es'[k] == es[k];
    }
  }

  // ---------- Reconciliation ----------

  /** The first line of a full history is the account's first entry. */
  lemma FirstLineIsFirstEntry(es: seq<Entry>, id: AccountId, lines: seq<Entry>) returns (i: nat)
    requires Stamped(es) && FirstAlone(es, id) && FullHistory(es, id, lines) && lines != []
    ensures i < |es| && lines[0] == es[i] && es[i].account == id && Untouched(es[..i], id)
  {
    OwnLinesMembers(es, id);
    assert lines[0] in multiset(lines);
    assert lines[0] in OwnLines(es, id);
    var j :| 0 <= j < |es| && es[j] == lines[0];
    i := FirstOn(es, id, j);
    assert es[i] in OwnLines(es, id);
    assert es[i] in multiset(lines);
    var k :| 0 <= k < |lines| && lines[k] == es[i];
    assert lines[0].createdAt <= lines[k].createdAt;
  }

  lemma {:induction false} FirstOn(es: seq<Entry>, id: AccountId, j: nat) returns (i: nat)
    requires j < |es| && es[j].account == id
    ensures i <= j && es[i].account == id && Untouched(es[..i], id)
  {
    i := 0;
    while es[i].account != id
      invariant i <= j && Untouched(es[..i], id)
      decreases j - i
    {
      i := i + 1;
    }
  }

  /** An accepted transfer of the run worked on two copies of this account's row. */
  predicate Copied(b: Book, qs: seq<Request>, id: AccountId) {
    exists i :: 0 <= i < |Done(b, qs)| && DriftsOn(Done(b, qs)[i], id)
  }

  /** In every run whose operations carry increasing timestamps, a full-history statement opens at
      zero, however ties are broken, and opening, credits and debits add up to the closing balance
      exactly when no accepted transfer worked on two copies of the account's row. */
  lemma StatementReconciles(b: Book, qs: seq<Request>, id: AccountId, lines: seq<Entry>)
    requires EmptyBank(b) && LegalRun(b, qs) && Ticking(qs) && id in After(b, qs).accounts
    requires FullHistory(After(b, qs).entries, id, lines)
    ensures var s := Compose(After(b, qs).accounts[id].balance, lines);
      s.opening == 0 && (s.opening + s.credits + s.debits == s.closing <==> !Copied(b, qs, id))
  {
    hide After, Done, LegalRun, Ticking, SumFor, Stamped, FirstAlone, Drifted, DriftsOn;
    var now := After(b, qs);
    FirstStaysAlone(b, qs, id);
    TickingStamps(b, qs);
    MovementsMakeTheBalance(now, id, lines);
    RunDrifts(b, qs, id);
    if lines != [] {
      var i := FirstLineIsFirstEntry(now.entries, id, lines);
    } else {
      ReachableIsUntouched(b, qs);
      NoLinesUntouched(now.entries, id);
    }
  }

  lemma NoLinesUntouched(es: seq<Entry>, id: AccountId)
    requires FullHistory(es, id, [])
    ensures Untouched(es, id)
  {
    OwnLinesMembers(es, id);
    hide OwnLines;
    assert |OwnLines(es, id)| == |multiset(OwnLines(es, id))| == 0;
    forall k | 0 <= k < |es| ensures es[k].account != id { assert es[k] in es; }
  }

  // ---------- From the iterator to the statement ----------

  /** The table of entries, with the random ids the database gave them. */
  function TableOf(es: seq<Entry>, ids: seq<nat>): (table: seq<H.Row>)
    requires |ids| == |es|
    ensures |table| == |es|
    ensures forall k :: 0 <= k < |es| ==> table[k] == H.Row(es[k].account, es[k].createdAt, ids[k], es[k])
  {
    seq(|es|, k requires 0 <= k < |es| => H.Row(es[k].account, es[k].createdAt, ids[k], es[k]))
  }

  function EntriesIn(rows: seq<H.Row>): (es: seq<Entry>)
    ensures |es| == |rows| && forall k :: 0 <= k < |rows| ==> es[k] == rows[k].entry
  {
    seq(|rows|, k requires 0 <= k < |rows| => rows[k].entry)
  }

  lemma {:induction false} InsertedEntries(r: H.Row, rs: seq<H.Row>)
    ensures multiset(EntriesIn(H.InsertRow(r, rs))) == multiset(EntriesIn(rs)) + multiset{r.entry}
  {
    if rs == [] || H.KeyLess(H.KeyOf(r), H.KeyOf(rs[0])) {
      assert EntriesIn([r] + rs) == [r.entry] + EntriesIn(rs);
    } else {
      InsertedEntries(r, rs[1..]);
      var rest := H.InsertRow(r, rs[1..]);
      assert EntriesIn([rs[0]] + rest) == [rs[0].entry] + EntriesIn(rest);
      assert EntriesIn(rs) == [rs[0].entry] + EntriesIn(rs[1..]);
    }
  }

  lemma {:induction false} OwnLinesConcat(es: seq<Entry>, fs: seq<Entry>, id: AccountId)
    ensures OwnLines(es + fs, id) == OwnLines(es, id) + OwnLines(fs, id)
    decreases |fs|
  {
    if fs == [] {
      assert es + fs == es;
    } else {
      var front, last := fs[..|fs| - 1], fs[|fs| - 1];
      OwnLinesConcat(es, front, id);
      assert (es + fs)[..|es + fs| - 1] == es + front;
    }
  }

  lemma OwnLinesCons(es: seq<Entry>, id: AccountId)
    requires es != []
    ensures OwnLines(es, id) == if es[0].account == id then [es[0]] + OwnLines(es[1..], id) else OwnLines(es[1..], id)
  {
    assert es == [es[0]] + es[1..];
    OwnLinesConcat([es[0]], es[1..], id);
    assert [es[0]][..0] == [];
  }

  lemma ScanCons(table: seq<H.Row>, id: AccountId, o: H.Options)
    requires table != [] && o.from.None? && o.to.None?
    ensures var rest := H.Scan(table[1..], id, None, o);
      H.Scan(table, id, None, o) == if table[0].account == id then H.InsertRow(table[0], rest) else rest
  {}

  /** The query over the whole history returns every line of the account, and no other, once. */
  lemma {:induction false} ScannedEntries(es: seq<Entry>, ids: seq<nat>, id: AccountId, o: H.Options)
    requires |ids| == |es| && o.from.None? && o.to.None?
    ensures multiset(EntriesIn(H.Scan(TableOf(es, ids), id, None, o))) == multiset(OwnLines(es, id))
    decreases |es|
  {
    if es != [] {
      var table := TableOf(es, ids);
      assert table[1..] == TableOf(es[1..], ids[1..]);
      ScanCons(table, id, o);
      OwnLinesCons(es, id);
      hide H.Scan, H.InsertRow, OwnLines, TableOf, EntriesIn;
      ScannedEntries(es[1..], ids[1..], id, o);
      InsertedEntries(table[0], H.Scan(table[1..], id, None, o));
    }
  }

  predicate DistinctIds(ids: seq<nat>) {
    forall i, j :: 0 <= i < j < |ids| ==> ids[i] != ids[j]
  }

  /** Whatever ids break the ties, the query returns a full history. */
  lemma ScanGivesFullHistory(es: seq<Entry>, ids: seq<nat>, id: AccountId, o: H.Options)
    requires |ids| == |es| && DistinctIds(ids) && o.from.None? && o.to.None?
    ensures FullHistory(es, id, EntriesIn(H.Scan(TableOf(es, ids), id, None, o)))
  {
    var table := TableOf(es, ids);
    H.ScanIsSorted(table, id, None, o);
    ScannedEntries(es, ids, id, o);
    var rows := H.Scan(table, id, None, o);
    hide H.Scan;
    forall i, j | 0 <= i < j < |rows| ensures rows[i].entry.createdAt <= rows[j].entry.createdAt {
      assert rows[i] in table && rows[j] in table;
      assert H.KeyLess(H.KeyOf(rows[i]), H.KeyOf(rows[j]));
    }
  }

  /** Run to its end over the table, whatever ids break the ties and whatever the page size, the
      history iterator hands out a full history. */
  lemma IteratorGivesFullHistory(es: seq<Entry>, ids: seq<nat>, id: AccountId, o: H.Options)
    requires |ids| == |es| && DistinctIds(ids)
    requires o.from.None? && o.to.None? && o.pageSize >= 1
    ensures var calls := seq(|H.Scan(TableOf(es, ids), id, None, o)| + 1, _ => TableOf(es, ids));
      FullHistory(es, id, EntriesIn(H.Yielded(calls, id, o)))
  {
    H.FixedTableAgreesWithScan(TableOf(es, ids), id, o);
    ScanGivesFullHistory(es, ids, id, o);
  }

  /** The same for the statement built from the iterator, for every run with increasing timestamps,
      every choice of ids and every page size. */
  lemma StatementOfTheIteratorReconciles(b: Book, qs: seq<Request>, id: AccountId, ids: seq<nat>, o: H.Options)
    requires EmptyBank(b) && LegalRun(b, qs) && Ticking(qs) && id in After(b, qs).accounts
    requires |ids| == |After(b, qs).entries| && DistinctIds(ids)
    requires o.from.None? && o.to.None? && o.pageSize >= 1
    ensures var table := TableOf(After(b, qs).entries, ids);
      var calls := seq(|H.Scan(table, id, None, o)| + 1, _ => table);
      var s := Compose(After(b, qs).accounts[id].balance, EntriesIn(H.Yielded(calls, id, o)));
      s.opening == 0 && (s.opening + s.credits + s.debits == s.closing <==> !Copied(b, qs, id))
  {
    hide After, LegalRun, Ticking, FullHistory, Compose, Copied;
    var table := TableOf(After(b, qs).entries, ids);
    var calls := seq(|H.Scan(table, id, None, o)| + 1, _ => table);
    IteratorGivesFullHistory(After(b, qs).entries, ids, id, o);
    StatementReconciles(b, qs, id, EntriesIn(H.Yielded(calls, id, o)));
  }

  // ---------- Without increasing timestamps ----------

  /** An entry of the account that no other entry of the account is older than. */
  predicate Earliest(es: seq<Entry>, id: AccountId, k: nat)
    requires k < |es|
  {
    es[k].account == id && forall j :: 0 <= j < |es| && es[j].account == id ==> es[k].createdAt <= es[j].createdAt
  }

  /** What the statement opens at when its first line is the k-th entry: the sum of what was posted
      to the account before that entry. */
  lemma OpeningIsWhatCameBefore(b: Book, id: AccountId, lines: seq<Entry>, k: nat)
    requires BalancedOn(b, id) && id in b.accounts && k < |b.entries| && b.entries[k].account == id
    requires lines != [] && lines[0] == b.entries[k]
    ensures Compose(b.accounts[id].balance, lines).opening == SumFor(b.entries[..k], id)
  {
    assert EntryBalanced(b.entries, k);
    assert b.entries[..k + 1] == b.entries[..k] + [b.entries[k]];
    SumForAppend(b.entries[..k], b.entries[k], id);
  }

  /** Every full history starts with an earliest entry of the account. */
  lemma FirstLineIsEarliest(es: seq<Entry>, id: AccountId, lines: seq<Entry>) returns (k: nat)
    requires FullHistory(es, id, lines) && lines != []
    ensures k < |es| && lines[0] == es[k] && Earliest(es, id, k)
  {
    OwnLinesMembers(es, id);
    assert lines[0] in multiset(lines);
    assert lines[0] in OwnLines(es, id);
    k :| 0 <= k < |es| && es[k] == lines[0];
    forall j | 0 <= j < |es| && es[j].account == id ensures es[k].createdAt <= es[j].createdAt {
      assert es[j] in OwnLines(es, id);
      assert es[j] in multiset(lines);
      var i :| 0 <= i < |lines| && lines[i] == es[j];
      assert lines[0].createdAt <= lines[i].createdAt;
    }
  }

  /** And every earliest entry is the first line of some full history: the ids may have put it first. */
  lemma SomeHistoryStartsWith(es: seq<Entry>, id: AccountId, k: nat) returns (lines: seq<Entry>)
    requires k < |es| && Earliest(es, id, k)
    ensures FullHistory(es, id, lines) && lines != [] && lines[0] == es[k]
  {
    var ids := seq(|es|, i => if i == k then 0 else i + 1);
    var o := H.Options(1, None, None);
    ScanGivesFullHistory(es, ids, id, o);
    lines := EntriesIn(H.Scan(TableOf(es, ids), id, None, o));
    LowestIdComesFirst(es, ids, id, k, o);
  }

  lemma LowestIdComesFirst(es: seq<Entry>, ids: seq<nat>, id: AccountId, k: nat, o: H.Options)
    requires k < |es| == |ids| && Earliest(es, id, k) && DistinctIds(ids) && o.from.None? && o.to.None?
    requires forall i :: 0 <= i < |es| ==> ids[k] <= ids[i]
    ensures var rows := H.Scan(TableOf(es, ids), id, None, o); rows != [] && rows[0].entry == es[k]
  {
    var table := TableOf(es, ids);
    H.ScanIsSorted(table, id, None, o);
    var rows := H.Scan(table, id, None, o);
    assert table[k] in table && H.InRange(id, o, table[k]);
    assert rows[0] in table && H.InRange(id, o, rows[0]);
    var m :| 0 <= m < |table| && table[m] == rows[0];
    FirstIsLeast(rows, table[k]);
    hide H.Scan, DistinctIds;
    assert es[m].account == id && es[k].createdAt <= es[m].createdAt;
  }

  lemma FirstIsLeast(rows: seq<H.Row>, r: H.Row)
    requires H.Ascending(rows) && r in rows
    ensures rows[0] == r || H.KeyLess(H.KeyOf(rows[0]), H.KeyOf(r))
  {
    var i :| 0 <= i < |rows| && rows[i] == r;
  }

  /** Exactly when every full-history statement opens at zero, however ties are broken, on an account whose
      entries tell the truth: when nothing that counts was posted to it before any of its earliest entries. */
  lemma OpensAtZeroExactly(b: Book, id: AccountId)
    requires BalancedOn(b, id) && id in b.accounts
    ensures (forall lines :: FullHistory(b.entries, id, lines) ==> Compose(b.accounts[id].balance, lines).opening == 0)
            <==> forall k :: 0 <= k < |b.entries| && Earliest(b.entries, id, k) ==> SumFor(b.entries[..k], id) == 0
  {
    hide FullHistory, Earliest, SumFor;
    if k :| 0 <= k < |b.entries| && Earliest(b.entries, id, k) && SumFor(b.entries[..k], id) != 0 {
      var lines := SomeHistoryStartsWith(b.entries, id, k);
      EarliestIsOwn(b.entries, id, k);
      OpeningIsWhatCameBefore(b, id, lines, k);
    } else {
      forall lines | FullHistory(b.entries, id, lines) ensures Compose(b.accounts[id].balance, lines).opening == 0 {
        if lines == [] {
          NoLinesNoMoney(b, id);
        } else {
          var k := FirstLineIsEarliest(b.entries, id, lines);
          EarliestIsOwn(b.entries, id, k);
          OpeningIsWhatCameBefore(b, id, lines, k);
        }
      }
    }
  }

  lemma EarliestIsOwn(es: seq<Entry>, id: AccountId, k: nat)
    requires k < |es| && Earliest(es, id, k)
    ensures es[k].account == id
  {}

  lemma NoLinesNoMoney(b: Book, id: AccountId)
    requires BalancedOn(b, id) && id in b.accounts && FullHistory(b.entries, id, [])
    ensures b.accounts[id].balance == 0
  {
    OwnLinesSum(b.entries, id);
    assert |OwnLines(b.entries, id)| == |multiset(OwnLines(b.entries, id))| == 0;
  }

  /** Two operations in one instant are enough to break it: read back in the other order, two
      deposits make a statement that does not open at zero. */
  lemma SharedInstantsBreakTheOpening(b: Book, id: AccountId, x: int, y: int, now: int)
    requires EmptyBank(b) && id in b.accounts && b.accounts[id].status == ACTIVE
    requires x > 0 && y > 0
    ensures var qs := [Move(Deposit(id, x, DEPOSIT_ENTRY, "", "DEP-1", now)), Move(Deposit(id, y, DEPOSIT_ENTRY, "", "DEP-2", now))];
      var first, second := Entry(id, DEPOSIT_ENTRY, x, x, "DEP-1", "", now), Entry(id, DEPOSIT_ENTRY, y, x + y, "DEP-2", "", now);
      && LegalRun(b, qs) && id in After(b, qs).accounts
      && FullHistory(After(b, qs).entries, id, [second, first])
      && Compose(After(b, qs).accounts[id].balance, [second, first]).opening == x
  {
    var first, second := Entry(id, DEPOSIT_ENTRY, x, x, "DEP-1", "", now), Entry(id, DEPOSIT_ENTRY, y, x + y, "DEP-2", "", now);
    hide After, LegalRun, EmptyBank, FullHistory;
    assert "DEP-1"[4] != "DEP-2"[4];
    TwoDeposits(b, Deposit(id, x, DEPOSIT_ENTRY, "", "DEP-1", now), Deposit(id, y, DEPOSIT_ENTRY, "", "DEP-2", now));
    OwnLinesOfTwo(first, second);
  }

  lemma OwnLinesOfTwo(first: Entry, second: Entry)
    requires first.account == second.account && first.createdAt == second.createdAt
    ensures FullHistory([first, second], first.account, [second, first])
  {
    var id := first.account;
    assert [first, second][..1] == [first] && [first][..0] == [];
    assert OwnLines([], id) == [] && OwnLines([first], id) == [first] && OwnLines([first, second], id) == [first, second];
  }
}
