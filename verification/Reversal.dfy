/** Reversals: when they go through, and why the order of the entries does not matter. */
module Reversal {
  import opened Wrappers
  import opened AccountIds
  import opened Entities
  import opened Ledger
  import opened LedgerInvariants
  import opened LedgerTransfer
  import V = ValidationChain

  /** Entries of one reference on one account are all credits or all debits, and none is zero. */
  ghost predicate Coherent(es: seq<Entry>) {
    && (forall e :: e in es ==> e.amount != 0)
    && (forall e, f {:trigger Agree(e, f)} :: e in es && f in es ==> Agree(e, f))
  }

  predicate Agree(e: Entry, f: Entry) {
    e.reference == f.reference && e.account == f.account ==> (e.amount > 0 <==> f.amount > 0)
  }

  predicate Fresh(es: seq<Entry>, reference: string) {
    forall i :: 0 <= i < |es| ==> es[i].reference != reference
  }

  // ---------- The entries of one reference ----------

  lemma EntriesOfAppend(es: seq<Entry>, e: Entry, reference: string)
    ensures EntriesOf(es + [e], reference) == EntriesOf(es, reference) + if e.reference == reference then [e] else []
  {}

  lemma {:induction false} EntriesOfConcat(es: seq<Entry>, fs: seq<Entry>, reference: string)
    ensures EntriesOf(es + fs, reference) == EntriesOf(es, reference) + EntriesOf(fs, reference)
    decreases |fs|
  {
    if fs == [] {
      assert es + fs == es;
    } else {
      var last := fs[|fs| - 1];
      assert es + fs == (es + fs[..|fs| - 1]) + [last];
      EntriesOfAppend(es + fs[..|fs| - 1], last, reference);
      EntriesOfConcat(es, fs[..|fs| - 1], reference);
    }
  }

  lemma {:induction false} EntriesOfMembers(es: seq<Entry>, reference: string)
    ensures forall e :: e in EntriesOf(es, reference) <==> e in es && e.reference == reference
  {
    if es != [] {
      EntriesOfMembers(es[..|es| - 1], reference);
      assert es == es[..|es| - 1] + [es[|es| - 1]];
    }
  }

  lemma {:induction false} EntriesOfAll(es: seq<Entry>, reference: string)
    requires forall i :: 0 <= i < |es| ==> es[i].reference == reference
    ensures EntriesOf(es, reference) == es
  {
    if es != [] {
      EntriesOfAll(es[..|es| - 1], reference);
      assert es == es[..|es| - 1] + [es[|es| - 1]];
    }
  }

  lemma {:induction false} EntriesOfNone(es: seq<Entry>, reference: string)
    requires Fresh(es, reference)
    ensures EntriesOf(es, reference) == []
  {
    if es != [] { EntriesOfNone(es[..|es| - 1], reference); }
  }

  /** What one reference did to one account. */
  function SumRef(es: seq<Entry>, reference: string, id: AccountId): int {
    SumFor(EntriesOf(es, reference), id)
  }

  lemma Remove(fs: seq<Entry>, e: Entry) returns (k: nat)
    requires e in multiset(fs)
    ensures k < |fs| && fs == (fs[..k] + [e]) + fs[k + 1..]
    ensures multiset(fs) - multiset{e} == multiset(fs[..k] + fs[k + 1..])
  {
    k :| 0 <= k < |fs| && fs[k] == e;
    var before, after := fs[..k], fs[k + 1..];
    assert fs == (before + [e]) + after;
    assert multiset(fs) == multiset(before + after) + multiset{e};
  }

  /** The sum over an account does not depend on the order of the entries. */
  lemma {:induction false} SumForPermutes(es: seq<Entry>, fs: seq<Entry>, id: AccountId)
    requires multiset(es) == multiset(fs)
    ensures SumFor(es, id) == SumFor(fs, id)
  {
    if es == [] {
      assert |multiset(fs)| == 0;
    } else {
      var front, last := es[..|es| - 1], es[|es| - 1];
      assert es == front + [last];
      assert multiset(es) == multiset(front) + multiset{last};
      assert last in multiset(fs);
      var k := Remove(fs, last);
      var before, after := fs[..k], fs[k + 1..];
      assert multiset(front) == multiset(es) - multiset{last} == multiset(before + after);
      SumForPermutes(front, before + after, id);
      SumForConcat(before + [last], after, id);
      SumForConcat(before, [last], id);
      SumForConcat(before, after, id);
      SumForAppend([], last, id);
      assert [] + [last] == [last];
    }
  }

  // ---------- Posting a list whose signs agree ----------

  function PostSum(ps: seq<Posting>, id: AccountId): int {
    if ps == [] then 0
    else (if ps[0].account == id then ps[0].amount else 0) + PostSum(ps[1..], id)
  }

  ghost predicate SignsAgree(ps: seq<Posting>) {
    forall p, q {:trigger PostingsAgree(p, q)} :: p in ps && q in ps ==> PostingsAgree(p, q)
  }

  predicate PostingsAgree(p: Posting, q: Posting) {
    p.account == q.account ==> (p.amount > 0 <==> q.amount > 0)
  }

  lemma {:induction false} DebitsOnly(ps: seq<Posting>, id: AccountId)
    requires forall i :: 0 <= i < |ps| && ps[i].account == id ==> ps[i].amount <= 0
    ensures PostSum(ps, id) <= 0
  {
    if ps != [] { DebitsOnly(ps[1..], id); }
  }

  /** Up to every posting, every account can bear what has been posted to it. */
  ghost predicate Bears(rows: map<AccountId, Account>, ps: seq<Posting>) {
    forall k, id :: 0 <= k <= |ps| && id in rows ==> rows[id].balance + PostSum(ps[..k], id) >= 0
  }

  lemma BearsCons(rows: map<AccountId, Account>, ps: seq<Posting>)
    requires ps != [] && ps[0].account in rows && forall id :: id in rows ==> rows[id].balance >= 0
    ensures var a := ps[0].account;
      var rows' := rows[a := rows[a].(balance := rows[a].balance + ps[0].amount)];
      Bears(rows, ps) <==> rows[a].balance + ps[0].amount >= 0 && Bears(rows', ps[1..])
  {
    var a := ps[0].account;
    var rows' := rows[a := rows[a].(balance := rows[a].balance + ps[0].amount)];
    forall k, id | 0 <= k < |ps| && id in rows
      ensures rows[id].balance + PostSum(ps[..k + 1], id) == rows'[id].balance + PostSum(ps[1..][..k], id)
    {
      assert ps[..k + 1][1..] == ps[1..][..k];
    }
    assert ps[1..][..0] == [];
    if Bears(rows, ps) {
      assert rows[a].balance + PostSum(ps[..0 + 1], a) >= 0;
      forall k, id | 0 <= k <= |ps[1..]| && id in rows' ensures rows'[id].balance + PostSum(ps[1..][..k], id) >= 0 {
        assert rows[id].balance + PostSum(ps[..k + 1], id) >= 0;
      }
    }
    if rows[a].balance + ps[0].amount >= 0 && Bears(rows', ps[1..]) {
      forall k, id | 0 <= k <= |ps| && id in rows ensures rows[id].balance + PostSum(ps[..k], id) >= 0 {
        if k > 0 { assert rows'[id].balance + PostSum(ps[1..][..k - 1], id) >= 0; }
      }
    }
  }

  /** Posting succeeds exactly when the accounts bear every posting where it comes, and then every
      balance moves by its total. */
  lemma {:induction false} PostAllInOrder(w: Workspace, ps: seq<Posting>, reference: string, now: int)
    requires Postable(w.rows, ps) && NoneMissed(ps)
    requires forall id :: id in w.rows ==> w.rows[id].balance >= 0
    ensures PostAll(w, ps, reference, now).Success? <==> Bears(w.rows, ps)
    ensures PostAll(w, ps, reference, now).Success? ==>
      var rows := PostAll(w, ps, reference, now).value.rows;
      rows.Keys == w.rows.Keys && forall id :: id in w.rows ==> rows[id] == w.rows[id].(balance := w.rows[id].balance + PostSum(ps, id))
    decreases |ps|
  {
    if ps != [] {
      BearsCons(w.rows, ps);
      hide Bears;
      if BalanceLeft(w.rows, ps[0]) >= 0 {
        PostAllInOrder(Posted(w, ps[0], reference, now), ps[1..], reference, now);
      }
    }
  }

  /** When the signs on each account agree, posting succeeds exactly when every account can bear
      its total, and then every balance moves by that total. */
  lemma {:induction false} PostAllBySums(w: Workspace, ps: seq<Posting>, reference: string, now: int)
    requires Postable(w.rows, ps) && SignsAgree(ps) && NoneMissed(ps)
    requires forall id :: id in w.rows ==> w.rows[id].balance >= 0
    ensures PostAll(w, ps, reference, now).Success? <==> forall id :: id in w.rows ==> w.rows[id].balance + PostSum(ps, id) >= 0
    ensures PostAll(w, ps, reference, now).Success? ==>
      var rows := PostAll(w, ps, reference, now).value.rows;
      rows.Keys == w.rows.Keys && forall id :: id in w.rows ==> rows[id] == w.rows[id].(balance := w.rows[id].balance + PostSum(ps, id))
    decreases |ps|
  {
    if ps != [] {
      var a, amount := ps[0].account, ps[0].amount;
      if BalanceLeft(w.rows, ps[0]) < 0 {
        assert forall i :: 0 <= i < |ps[1..]| && ps[1..][i].account == a ==> ps[1..][i].amount <= 0 by {
          assert forall i :: 0 <= i < |ps[1..]| ==> ps[1..][i] in ps && PostingsAgree(ps[1..][i], ps[0]);
        }
        DebitsOnly(ps[1..], a);
        assert w.rows[a].balance + PostSum(ps, a) < 0;
      } else {
        var w1 := Posted(w, ps[0], reference, now);
        assert SignsAgree(ps[1..]);
        PostAllBySums(w1, ps[1..], reference, now);
        assert forall id :: id in w.rows ==> w1.rows[id].balance + PostSum(ps[1..], id) == w.rows[id].balance + PostSum(ps, id);
      }
    }
  }

  lemma SumForCons(es: seq<Entry>, id: AccountId)
    requires es != []
    ensures SumFor(es, id) == (if es[0].account == id then es[0].amount else 0) + SumFor(es[1..], id)
  {
    assert es == [es[0]] + es[1..] && [es[0]][..0] == [];
    SumForConcat([es[0]], es[1..], id);
  }

  lemma NegationsCons(original: string, found: seq<Entry>)
    requires found != []
    ensures Negations(original, found)[1..] == Negations(original, found[1..])
  {}

  lemma {:induction false} NegationSums(original: string, found: seq<Entry>, id: AccountId)
    ensures PostSum(Negations(original, found), id) == -SumFor(found, id)
  {
    if found != [] {
      NegationsCons(original, found);
      SumForCons(found, id);
      var ps := Negations(original, found);
      assert PostSum(ps, id) == (if ps[0].account == id then ps[0].amount else 0) + PostSum(ps[1..], id);
      hide PostSum, SumFor;
      NegationSums(original, found[1..], id);
    }
  }

  // ---------- When a reversal goes through ----------

  /** Every account can give back what the original transaction put there. */
  ghost predicate Bearable(b: Book, original: string) {
    forall id :: id in b.accounts ==> b.accounts[id].balance >= SumRef(b.entries, original, id)
  }

  /** Every account can give back some entries one after another, in this order. */
  ghost predicate BearableInOrder(b: Book, found: seq<Entry>) {
    forall k, id :: 0 <= k <= |found| && id in b.accounts ==> b.accounts[id].balance - SumFor(found[..k], id) >= 0
  }

  /** A reversal commits exactly when the transaction exists, is not marked as reversed, and its entries
      can be taken back in the order in which the database returned them; then every account moves by
      exactly minus what the original did to it. When the entries agree in sign on every account, that
      order does not matter: they can be taken back exactly when every account can bear the total. */
  lemma ReverseMeans(b: Book, op: Op)
    requires Solvent(b) && op.Reverse? && Answers(b.entries, op)
    ensures Step(b, op).Committed? <==>
      && EntriesOf(b.entries, op.original) != [] && !MarkedReversed(b.entries, op.original)
      && BearableInOrder(b, op.found)
    ensures Coherent(op.found) ==> (BearableInOrder(b, op.found) <==> Bearable(b, op.original))
    ensures Step(b, op).Committed? ==>
      && Step(b, op).book.accounts.Keys == b.accounts.Keys
      && forall id :: id in b.accounts ==>
        Step(b, op).book.accounts[id] == b.accounts[id].(balance := b.accounts[id].balance - SumRef(b.entries, op.original, id))
  {
    hide BearableInOrder, Bearable, SumRef, Coherent, MarkedReversed, LockOrder;
    assert op.found == [] <==> EntriesOf(b.entries, op.original) == [] by { FoundIsReal(b, op); }
    var rows := ReverseRows(b, op);
    ReverseWork(b, op, rows);
    if EarlyRefusal(b.entries, op).None? {
      StepOnLockedRows(b, op, rows);
      if Step(b, op).Committed? {
        WorkKeepsRows(op, rows, 0);
        assert Step(b, op).book.accounts.Keys == b.accounts.Keys;
      }
    }
  }

  /** The order does matter when a transfer has put a debit and a credit on one row: if the row now holds
      less than the amount, the two can be taken back in the order in which they were written, but not
      in the other. */
  lemma OrderMatters(b: Book, out: Entry, credit: Entry)
    requires Solvent(b) && out.account == credit.account && out.account in b.accounts
    requires out.amount == -credit.amount && b.accounts[out.account].balance < credit.amount
    ensures BearableInOrder(b, [out, credit]) && !BearableInOrder(b, [credit, out])
  {
    var id := out.account;
    forall k, x | 0 <= k <= 2 && x in b.accounts ensures b.accounts[x].balance - SumFor([out, credit][..k], x) >= 0 {
      PairSums(out, credit, x);
    }
    PairSums(credit, out, id);
    assert b.accounts[id].balance - SumFor([credit, out][..1], id) < 0;
  }

  lemma PairSums(e: Entry, f: Entry, id: AccountId)
    ensures SumFor([e, f][..0], id) == 0 && SumFor([e, f][..1], id) == if e.account == id then e.amount else 0
    ensures SumFor([e, f][..2], id) == SumFor([e, f][..1], id) + if f.account == id then f.amount else 0
  {
    assert [e, f][..0] == [] && [e, f][..1] == [] + [e] && [e, f][..2] == [e] + [f];
    SumForAppend([], e, id);
    SumForAppend([e], f, id);
  }

  lemma ReverseRows(b: Book, op: Op) returns (rows: map<AccountId, Account>)
    requires Solvent(b) && op.Reverse? && Answers(b.entries, op)
    ensures LockAll(b.accounts, LockOrder(op)) == Success(rows) && Covers(rows, op)
    ensures forall id :: id in rows <==> id in LockOrder(op)
    ensures forall id :: id in rows ==> id in b.accounts && rows[id] == b.accounts[id]
  {
    FoundIsReal(b, op);
    hide Less, EntriesOf, Coherent;
    SortedAccountsSorts(op.found);
    LockAllYields(b.accounts, LockOrder(op));
    rows := LockAll(b.accounts, LockOrder(op)).value;
  }

  lemma ReverseWork(b: Book, op: Op, rows: map<AccountId, Account>)
    requires Solvent(b) && op.Reverse? && Answers(b.entries, op)
    requires Covers(rows, op)
    requires forall id :: id in rows <==> id in LockOrder(op)
    requires forall id :: id in rows ==> id in b.accounts && rows[id] == b.accounts[id]
    ensures Work(op, rows, 0).Success? <==> BearableInOrder(b, op.found)
    ensures Coherent(op.found) ==> (BearableInOrder(b, op.found) <==> Bearable(b, op.original))
    ensures Work(op, rows, 0).Success? ==>
      forall id :: id in b.accounts ==>
        Overlay(b, Work(op, rows, 0).value).accounts[id]
        == b.accounts[id].(balance := b.accounts[id].balance - SumRef(b.entries, op.original, id))
  {
    hide SumFor, Coherent, Answers, PostAll, PostSum, LockOrder, SignsAgree, SumRef, Bears, BearableInOrder, MarkedReversed;
    var ps := Negations(op.original, op.found);
    DecidedPostable(op, rows, 0);
    assert Decide(op, rows, 0) == Success(ps);
    PostAllInOrder(Workspace(rows, []), ps, op.reference, op.now);
    NegationsBear(b, op, rows);
    forall id ensures PostSum(ps, id) == -SumRef(b.entries, op.original, id)
      ensures id !in rows ==> PostSum(ps, id) == 0
    {
      ReverseSums(b, op, id);
    }
    if Coherent(op.found) {
      FoundIsReal(b, op);
      NegationsAgree(op.original, op.found);
      PostAllBySums(Workspace(rows, []), ps, op.reference, op.now);
    }
  }

  lemma NegationsBear(b: Book, op: Op, rows: map<AccountId, Account>)
    requires Solvent(b) && op.Reverse?
    requires forall id :: id in rows <==> id in LockOrder(op)
    requires forall id :: id in rows ==> id in b.accounts && rows[id] == b.accounts[id]
    ensures Bears(rows, Negations(op.original, op.found)) <==> BearableInOrder(b, op.found)
  {
    hide SumFor, PostSum;
    var ps := Negations(op.original, op.found);
    forall k, id | 0 <= k <= |op.found|
      ensures PostSum(ps[..k], id) == -SumFor(op.found[..k], id) && (id !in rows ==> SumFor(op.found[..k], id) == 0)
    {
      assert ps[..k] == Negations(op.original, op.found[..k]);
      NegationSums(op.original, op.found[..k], id);
      if id !in rows {
        NegationsAreLocked(op);
        SumForOthers(op.found[..k], id);
      }
    }
    hide LockOrder, Negations;
    if Bears(rows, ps) {
      forall k, id | 0 <= k <= |op.found| && id in b.accounts ensures b.accounts[id].balance - SumFor(op.found[..k], id) >= 0 {
        if id in rows { assert rows[id].balance + PostSum(ps[..k], id) >= 0; }
      }
    }
    if BearableInOrder(b, op.found) {
      forall k, id | 0 <= k <= |ps| && id in rows ensures rows[id].balance + PostSum(ps[..k], id) >= 0 {
        assert b.accounts[id].balance - SumFor(op.found[..k], id) >= 0;
      }
    }
  }

  lemma ReverseSums(b: Book, op: Op, id: AccountId)
    requires op.Reverse? && Answers(b.entries, op)
    ensures PostSum(Negations(op.original, op.found), id) == -SumRef(b.entries, op.original, id)
    ensures id !in LockOrder(op) ==> PostSum(Negations(op.original, op.found), id) == 0
  {
    NegationSums(op.original, op.found, id);
    SumForPermutes(op.found, EntriesOf(b.entries, op.original), id);
    if id !in LockOrder(op) {
      NegationsAreLocked(op);
      SumForOthers(op.found, id);
    }
  }

  /** What the query returns are entries of the ledger, on accounts of the ledger, with coherent signs
      when those of the ledger are. */
  lemma FoundIsReal(b: Book, op: Op)
    requires op.Reverse? && Answers(b.entries, op)
    ensures op.found == [] <==> EntriesOf(b.entries, op.original) == []
    ensures forall e :: e in op.found ==> e in b.entries && e.reference == op.original
    ensures Solvent(b) ==> forall e :: e in op.found ==> e.account in b.accounts
    ensures Coherent(b.entries) ==> Coherent(op.found)
  {
    var es := EntriesOf(b.entries, op.original);
    EntriesOfMembers(b.entries, op.original);
    assert |op.found| == |multiset(op.found)| == |es|;
    forall e | e in op.found ensures e in es {
      assert e in multiset(op.found);
    }
  }

  // ---------- Signs stay coherent ----------

  lemma AppendKeepsCoherent(es: seq<Entry>, fs: seq<Entry>, reference: string)
    requires Coherent(es) && Coherent(fs) && Fresh(es, reference)
    requires forall e :: e in fs ==> e.reference == reference
    ensures Coherent(es + fs)
  {}

  lemma WrittenCoherent(ps: seq<Posting>, fs: seq<Entry>)
    requires SignsAgree(ps) && (forall p :: p in ps ==> p.amount != 0) && |ps| == |fs|
    requires forall i :: 0 <= i < |ps| ==> fs[i].amount == ps[i].amount && fs[i].account == ps[i].account
    ensures Coherent(fs)
  {
    forall e, f | e in fs && f in fs ensures Agree(e, f) && e.amount != 0 {
      var i :| 0 <= i < |fs| && fs[i] == e;
      var j :| 0 <= j < |fs| && fs[j] == f;
      assert ps[i] in ps && ps[j] in ps && PostingsAgree(ps[i], ps[j]);
    }
  }

  /** The signs of each reference stay coherent exactly when the operation is not a transfer whose payer
      and payee are one row. */
  lemma StepKeepsCoherent(b: Book, op: Op)
    requires Coherent(b.entries) && Answers(b.entries, op) && Fresh(b.entries, op.reference)
    requires Step(b, op).Committed?
    ensures Coherent(Step(b, op).book.entries) <==> !PaysItself(op)
  {
    hide Step, Coherent, Answers, Decide, PostAll, Work, LockAll, LockOrder, EarlyRefusal, EventsOf, SignsAgree, PaysItself, Less, Row;
    var rows, ps, written := StepWrites(b, op);
    DecidedSigns(b, op, rows, ps);
    if PaysItself(op) {
      BothSigns(op, ps, written);
      NotCoherentBeside(b.entries, written);
    } else {
      WrittenCoherent(ps, written);
      AppendKeepsCoherent(b.entries, written, op.reference);
    }
  }

  lemma NotCoherentBeside(es: seq<Entry>, fs: seq<Entry>)
    requires !Coherent(fs)
    ensures !Coherent(es + fs)
  {
    if Coherent(es + fs) {
      forall e, f | e in fs && f in fs ensures Agree(e, f) && e.amount != 0 { assert e in es + fs && f in es + fs; }
    }
  }

  /** A transfer from a row to itself leaves a debit and a credit of one reference on it. */
  lemma BothSigns(op: Op, ps: seq<Posting>, written: seq<Entry>)
    requires |written| == |ps| >= 2 && ps[0].account == ps[|ps| - 1].account && ps[0].amount < 0 < ps[|ps| - 1].amount
    requires forall i :: 0 <= i < |ps| ==>
      written[i] == Entry(ps[i].account, ps[i].kind, ps[i].amount, written[i].balanceAfter, op.reference, ps[i].description, op.now)
    ensures !Coherent(written)
  {
    var e, f := written[0], written[|ps| - 1];
    assert e in written && f in written && !Agree(e, f);
  }

  lemma DecidedSigns(b: Book, op: Op, rows: map<AccountId, Account>, ps: seq<Posting>)
    requires Answers(b.entries, op) && EarlyRefusal(b.entries, op).None?
    requires Covers(rows, op) && Decide(op, rows, Withdrawn(b.entries, op)) == Success(ps)
    ensures |ps| > 0
    ensures !PaysItself(op) && (op.Reverse? ==> Coherent(op.found)) ==> SignsAgree(ps) && forall p :: p in ps ==> p.amount != 0
    ensures Coherent(b.entries) && op.Reverse? ==> Coherent(op.found)
    ensures PaysItself(op) ==> |ps| >= 2 && ps[0].account == ps[|ps| - 1].account && ps[0].amount < 0 < ps[|ps| - 1].amount
  {
    hide Coherent, Less, Row, LockOrder, Payer, Payee, TwoCopies, WithdrawnSince, TransferText, MarkedReversed;
    match op
    case Reverse(_, found, _, _) =>
      FoundIsReal(b, op);
      if Coherent(op.found) { NegationsAgree(op.original, found); }
    case Deposit(a, amount, _, _, _, _) =>
      AccountIsLocked(op);
      V.ValidMeans(V.Context(V.DEPOSIT, amount, rows[a], 0));
    case Withdraw(a, amount, _, _, _, _) =>
      AccountIsLocked(op);
      V.ValidMeans(V.Context(V.WITHDRAWAL, amount, rows[a], Withdrawn(b.entries, op)));
    case Transfer(_, _, amount, _, _, _, _) =>
      RolesAreLocked(op);
      V.ValidMeans(V.Context(V.DEPOSIT, amount, rows[Payee(op)], 0));
  }

  // ---------- Undoing at once ----------

  /** The new entries are exactly those of the operation's own, fresh, reference. */
  lemma OwnEntries(b: Book, op: Op)
    requires Step(b, op).Committed? && Fresh(b.entries, op.reference)
    ensures EntriesOf(Step(b, op).book.entries, op.reference) == Step(b, op).book.entries[|b.entries|..]
    ensures forall r :: r != op.reference ==> EntriesOf(Step(b, op).book.entries, r) == EntriesOf(b.entries, r)
  {
    StepFrame(b, op);
    var es' := Step(b, op).book.entries;
    var added := es'[|b.entries|..];
    assert es' == b.entries + added;
    EntriesOfNone(b.entries, op.reference);
    EntriesOfAll(added, op.reference);
    EntriesOfConcat(b.entries, added, op.reference);
    forall r | r != op.reference ensures EntriesOf(es', r) == EntriesOf(b.entries, r) {
      EntriesOfNone(added, r);
      EntriesOfConcat(b.entries, added, r);
    }
  }

  /** The postings that undo one transaction agree in sign, account by account. */
  lemma NegationsAgree(original: string, found: seq<Entry>)
    requires Coherent(found) && forall e :: e in found ==> e.reference == original
    ensures SignsAgree(Negations(original, found))
    ensures forall p :: p in Negations(original, found) ==> p.amount != 0
  {
    var ps := Negations(original, found);
    forall p, q | p in ps && q in ps ensures PostingsAgree(p, q) && p.amount != 0 {
      var i :| 0 <= i < |ps| && ps[i] == p;
      var j :| 0 <= j < |ps| && ps[j] == q;
      assert found[i] in found && found[j] in found && Agree(found[i], found[j]);
    }
  }

  /** What an operation with a fresh reference did to an account is the change of its balance, but for
      what drifts in without an entry. */
  lemma OwnEffect(b: Book, op: Op, id: AccountId)
    requires Step(b, op).Committed? && Fresh(b.entries, op.reference) && id in b.accounts
    ensures id in Step(b, op).book.accounts
    ensures SumRef(Step(b, op).book.entries, op.reference, id) + Drift(op, id)
            == Step(b, op).book.accounts[id].balance - b.accounts[id].balance
  {
    hide Step, Drift, EntriesOf;
    OwnEntries(b, op);
    StepDrifts(b, op, id);
    StepFrame(b, op);
    var es' := Step(b, op).book.entries;
    assert es' == b.entries + es'[|b.entries|..];
    SumForConcat(b.entries, es'[|b.entries|..], id);
  }

  function CreditsOf(es: seq<Entry>): seq<Entry> {
    if es == [] then []
    else CreditsOf(es[..|es| - 1]) + if es[|es| - 1].amount > 0 then [es[|es| - 1]] else []
  }

  lemma {:induction false} CreditsCount(es: seq<Entry>)
    ensures forall e :: multiset(CreditsOf(es))[e] == if e.amount > 0 then multiset(es)[e] else 0
  {
    if es != [] {
      var front, last := es[..|es| - 1], es[|es| - 1];
      CreditsCount(front);
      assert es == front + [last];
      assert multiset(es) == multiset(front) + multiset{last};
    }
  }

  lemma CreditsPermute(es: seq<Entry>, fs: seq<Entry>, id: AccountId)
    requires multiset(es) == multiset(fs)
    ensures SumFor(CreditsOf(es), id) == SumFor(CreditsOf(fs), id)
  {
    CreditsCount(es);
    CreditsCount(fs);
    assert multiset(CreditsOf(es)) == multiset(CreditsOf(fs));
    SumForPermutes(CreditsOf(es), CreditsOf(fs), id);
  }

  /** In every order, what has been posted at any point is at most all the credits. */
  lemma {:induction false} CreditsBound(es: seq<Entry>, k: nat, id: AccountId)
    requires k <= |es|
    ensures SumFor(es[..k], id) <= SumFor(CreditsOf(es), id) && SumFor(CreditsOf(es), id) >= 0
  {
    if es != [] {
      var front, last := es[..|es| - 1], es[|es| - 1];
      CreditsCons(es, id);
      hide SumFor, CreditsOf;
      CreditsBound(front, if k < |es| then k else k - 1, id);
      if k < |es| {
        assert front[..k] == es[..k];
      } else {
        assert front[..k - 1] == front && es[..k] == es;
      }
    }
  }

  lemma CreditsCons(es: seq<Entry>, id: AccountId)
    requires es != []
    ensures var front, last := es[..|es| - 1], es[|es| - 1];
      && SumFor(es, id) == SumFor(front, id) + (if last.account == id then last.amount else 0)
      && SumFor(CreditsOf(es), id) == SumFor(CreditsOf(front), id) + if last.account == id && last.amount > 0 then last.amount else 0
  {
    var front, last := es[..|es| - 1], es[|es| - 1];
    SumForAppend(CreditsOf(front), last, id);
    assert CreditsOf(front) + [] == CreditsOf(front);
  }

  lemma {:induction false} CreditsOfOneSign(es: seq<Entry>, id: AccountId, positive: bool)
    requires forall i :: 0 <= i < |es| && es[i].account == id ==> (es[i].amount > 0 <==> positive)
    ensures SumFor(CreditsOf(es), id) == if positive then SumFor(es, id) else 0
  {
    if es != [] {
      hide SumFor, CreditsOf;
      CreditsCons(es, id);
      CreditsOfOneSign(es[..|es| - 1], id, positive);
    }
  }

  /** Entries of one reference that agree in sign are, account by account, all credits or none. */
  lemma CreditsAreAllOrNone(es: seq<Entry>, reference: string, id: AccountId)
    requires Coherent(es) && forall e :: e in es ==> e.reference == reference
    ensures SumFor(CreditsOf(es), id) == SumFor(es, id) || SumFor(CreditsOf(es), id) == 0
  {
    hide SumFor, CreditsOf;
    var positive := exists e :: e in es && e.account == id && e.amount > 0;
    forall i | 0 <= i < |es| && es[i].account == id ensures es[i].amount > 0 <==> positive {
      assert es[i] in es;
      if positive {
        var f :| f in es && f.account == id && f.amount > 0;
        assert Agree(es[i], f);
      }
    }
    CreditsOfOneSign(es, id, positive);
  }

  /** The accounts can bear to give back an operation's own entries in whatever order, unless it is the
      reversal of a transfer from a row to itself. */
  lemma OwnEntriesAreBearable(b: Book, op: Op, after: Book, found: seq<Entry>)
    requires Solvent(b) && Answers(b.entries, op) && Step(b, op).Committed? && after == Step(b, op).book
    requires op.Reverse? ==> Coherent(op.found)
    requires multiset(found) == multiset(after.entries[|b.entries|..])
    ensures BearableInOrder(after, found)
  {
    hide Step, Answers, Coherent, CreditsOf, SumFor;
    StepFrame(b, op);
    var own := after.entries[|b.entries|..];
    forall k, id | 0 <= k <= |found| && id in after.accounts
      ensures after.accounts[id].balance - SumFor(found[..k], id) >= 0
    {
      CreditsBound(found, k, id);
      CreditsPermute(found, own, id);
      OwnCreditsAreCovered(b, op, after, id);
    }
  }

  lemma OwnCreditsAreCovered(b: Book, op: Op, after: Book, id: AccountId)
    requires Solvent(b) && Answers(b.entries, op) && Step(b, op).Committed? && after == Step(b, op).book
    requires (op.Reverse? ==> Coherent(op.found)) && id in after.accounts
    ensures |b.entries| <= |after.entries|
    ensures after.accounts[id].balance >= SumFor(CreditsOf(after.entries[|b.entries|..]), id)
  {
    hide Step, Answers, Coherent, CreditsOf, SumFor, Payer, Payee, Drift, TwoCopies;
    StepFrame(b, op);
    StepKeepsSolvent(b, op);
    var own := after.entries[|b.entries|..];
    if PaysItself(op) {
      TransferMeans(b, op);
      SelfTransferCredits(b, op, id);
      assert own == TransferEntries(b, op);
    } else {
      OwnSigns(b, op, after);
      CreditsAreAllOrNone(own, op.reference, id);
      assert after.entries == b.entries + own;
      SumForConcat(b.entries, own, id);
      StepDrifts(b, op, id);
    }
  }

  lemma OwnSigns(b: Book, op: Op, after: Book)
    requires Answers(b.entries, op) && Step(b, op).Committed? && after == Step(b, op).book
    requires (op.Reverse? ==> Coherent(op.found)) && !PaysItself(op)
    ensures |b.entries| <= |after.entries| && Coherent(after.entries[|b.entries|..])
    ensures forall e :: e in after.entries[|b.entries|..] ==> e.reference == op.reference
  {
    hide Step, Answers, Coherent, Decide, SignsAgree, PaysItself;
    var rows, ps, written := StepWrites(b, op);
    DecidedSigns(b, op, rows, ps);
    WrittenCoherent(ps, written);
    assert after.entries[|b.entries|..] == written;
  }

  lemma SelfTransferCredits(b: Book, op: Op, id: AccountId)
    requires Solvent(b) && PaysItself(op) && TransferAllowed(b, op) && id in b.accounts
    ensures id in Settled(b.accounts, op)
    ensures Settled(b.accounts, op)[id].balance >= SumFor(CreditsOf(TransferEntries(b, op)), id)
  {
    hide Payer, Payee, TwoCopies, Text, WithdrawnSince;
    var es := TransferEntries(b, op);
    var n := |es|;
    assert es[..1][..0] == [] && es[..n - 1][..1] == es[..1];
    assert CreditsOf(es[..1]) == [];
    assert CreditsOf(es[..n - 1]) == [] by { if n == 3 { assert es[..2][..1] == es[..1]; } }
    var credit := es[n - 1];
    assert CreditsOf(es) == [credit];
    assert [credit][..0] == [];
  }

  /** Reversing a committed operation at once succeeds exactly when no text marks it as reversed and the
      accounts can bear it in the order in which its entries are found, which they always can unless it
      reversed a transfer from a row to itself. It restores every account, fee included, exactly when
      the operation was not a transfer on two copies of a row. */
  lemma UndoAtOnceRestores(b: Book, op: Op, after: Book, undo: Op)
    requires Solvent(b) && Answers(b.entries, op) && Fresh(b.entries, op.reference)
    requires Step(b, op).Committed? && after == Step(b, op).book
    requires undo.Reverse? && undo.original == op.reference && Answers(after.entries, undo)
    ensures Step(after, undo).Committed? <==> !MarkedReversed(after.entries, op.reference) && BearableInOrder(after, undo.found)
    ensures (op.Reverse? ==> Coherent(op.found)) ==> BearableInOrder(after, undo.found)
    ensures Step(after, undo).Committed? ==> (Step(after, undo).book.accounts == b.accounts <==> !TwoCopies(op))
  {
    hide Step, Answers, Coherent, Bearable, BearableInOrder, MarkedReversed, EntriesOf, Drift, TwoCopies, Fresh;
    OwnFound(b, op, after, undo);
    StepKeepsSolvent(b, op);
    ReverseMeans(after, undo);
    if op.Reverse? ==> Coherent(op.found) { OwnEntriesAreBearable(b, op, after, undo.found); }
    if Step(after, undo).Committed? { UndoneAccounts(b, op, after, undo); }
  }

  lemma OwnFound(b: Book, op: Op, after: Book, undo: Op)
    requires Solvent(b) && Answers(b.entries, op) && Fresh(b.entries, op.reference)
    requires Step(b, op).Committed? && after == Step(b, op).book
    requires undo.Reverse? && undo.original == op.reference && Answers(after.entries, undo)
    ensures |after.entries| > |b.entries| && EntriesOf(after.entries, op.reference) == after.entries[|b.entries|..]
    ensures multiset(undo.found) == multiset(after.entries[|b.entries|..])
  {
    SomethingWasWritten(b, op);
    OwnEntries(b, op);
    hide Step, EntriesOf, Fresh;
  }

  lemma UndoneAccounts(b: Book, op: Op, after: Book, undo: Op)
    requires Fresh(b.entries, op.reference) && Step(b, op).Committed? && after == Step(b, op).book
    requires Step(after, undo).Committed?
    requires Step(after, undo).book.accounts.Keys == after.accounts.Keys
    requires forall id :: id in after.accounts ==>
      Step(after, undo).book.accounts[id]
      == after.accounts[id].(balance := after.accounts[id].balance - SumRef(after.entries, op.reference, id))
    ensures Step(after, undo).book.accounts == b.accounts <==> !TwoCopies(op)
  {
    hide Step, SumRef, TwoCopies, Fresh, Drift;
    StepFrame(b, op);
    var restored := Step(after, undo).book.accounts;
    forall id | id in b.accounts
      ensures restored[id] == b.accounts[id].(balance := b.accounts[id].balance + Drift(op, id))
      ensures Drift(op, id) >= 0 && (Drift(op, id) > 0 ==> TwoCopies(op))
    {
      OwnEffect(b, op, id);
      StepDrifts(b, op, id);
      assert after.accounts[id].(balance := 0) == b.accounts[id].(balance := 0);
    }
    if TwoCopies(op) {
      var id := SomeoneDrifts(b, op);
      assert restored[id].balance != b.accounts[id].balance;
    } else {
      SameRows(restored, b.accounts);
    }
  }

  lemma SameRows(rows: map<AccountId, Account>, rows': map<AccountId, Account>)
    requires rows.Keys == rows'.Keys && forall id :: id in rows ==> rows[id] == rows'[id]
    ensures rows == rows'
  {}

  lemma SomethingWasWritten(b: Book, op: Op)
    requires Answers(b.entries, op) && Step(b, op).Committed?
    ensures |Step(b, op).book.entries| > |b.entries|
  {
    hide Step, Coherent, Answers;
    var rows, ps, written := StepWrites(b, op);
    DecidedSigns(b, op, rows, ps);
  }
}
