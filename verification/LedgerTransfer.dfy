/** Transfers in plain words, and what every operation does to the money in the bank. */
module LedgerTransfer {
  import opened Wrappers
  import opened AccountIds
  import opened AccountState
  import opened Entities
  import opened Ledger
  import opened LedgerInvariants
  import opened Sums
  import V = ValidationChain

  /** When a transfer may go through: the payer's balance and daily limit must cover the fee too. */
  predicate TransferAllowed(b: Book, op: Op)
    requires op.Transfer?
  {
    && op.from != op.to && Row(op.from) in b.accounts && Row(op.to) in b.accounts
    && Payer(op) in b.accounts && Payee(op) in b.accounts
    && b.accounts[Payer(op)].currency == b.accounts[Payee(op)].currency
    && op.amount > 0
    && b.accounts[Payer(op)].status == ACTIVE && CanDeposit(b.accounts[Payee(op)].status)
    && op.amount + op.fee <= b.accounts[Payer(op)].balance
    && WithdrawnSince(b.entries, Payer(op), StartOfDay(op.now)) + op.amount + op.fee <= b.accounts[Payer(op)].dailyLimit
  }

  /** The rows of the two texts are those a transfer locks, and payer and payee are among them. */
  lemma TransferLockOrder(op: Op)
    requires op.Transfer?
    ensures forall id :: id in LockOrder(op) <==> id == Row(op.from) || id == Row(op.to)
    ensures Payer(op) in LockOrder(op) && Payee(op) in LockOrder(op)
  {
    RolesAreLocked(op);
    hide Less, Row, Payer, Payee;
    var x, y := Row(First(op)), Row(Second(op));
    assert forall id :: id in LockOrder(op) <==> id == x || id == y;
  }

  lemma TransferLocks(b: Book, op: Op) returns (rows: map<AccountId, Account>)
    requires op.Transfer? && Row(op.from) in b.accounts && Row(op.to) in b.accounts
    ensures rows == map[Row(op.from) := b.accounts[Row(op.from)], Row(op.to) := b.accounts[Row(op.to)]]
    ensures LockAll(b.accounts, LockOrder(op)) == Success(rows) && Covers(rows, op)
    ensures Payer(op) in rows && Payee(op) in rows
    ensures forall id :: id in rows ==> id in b.accounts && rows[id] == b.accounts[id]
  {
    TransferLockOrder(op);
    hide Less, Row, Payer, Payee, LockOrder;
    rows := map[Row(op.from) := b.accounts[Row(op.from)], Row(op.to) := b.accounts[Row(op.to)]];
    LockAllYields(b.accounts, LockOrder(op));
    assert LockAll(b.accounts, LockOrder(op)).value == rows;
  }

  /** A transfer is decided on exactly when it is allowed. */
  lemma TransferDecision(b: Book, op: Op, rows: map<AccountId, Account>)
    requires op.Transfer? && op.from != op.to && Row(op.from) in b.accounts && Row(op.to) in b.accounts
    requires Covers(rows, op) && Payer(op) in rows && Payee(op) in rows
    requires forall id :: id in rows ==> id in b.accounts && rows[id] == b.accounts[id]
    ensures Decide(op, rows, Withdrawn(b.entries, op)).Success? <==> TransferAllowed(b, op)
    ensures TransferAllowed(b, op) ==>
      Decide(op, rows, Withdrawn(b.entries, op))
      == Success(Legs(Payer(op), Payee(op), op.amount, op.fee, Text(b, op), TwoCopies(op)))
  {
    hide Less, Row, Payer, Payee, LockOrder, Legs, TwoCopies, WithdrawnSince;
    V.ValidMeans(V.Context(V.WITHDRAWAL, op.amount + op.fee, rows[Payer(op)], Withdrawn(b.entries, op)));
    V.ValidMeans(V.Context(V.DEPOSIT, op.amount, rows[Payee(op)], 0));
  }

  /** The text both legs of a transfer carry. */
  function Text(b: Book, op: Op): string
    requires op.Transfer? && Payer(op) in b.accounts && Payee(op) in b.accounts
  {
    match op.note
    case Some(text) => text
    case None => "Transfer " + b.accounts[Payer(op)].number + " -> " + b.accounts[Payee(op)].number
  }

  /** The rows once the payer has paid amount and fee. */
  function Paid(rows: map<AccountId, Account>, op: Op): map<AccountId, Account>
    requires op.Transfer? && Payer(op) in rows
  {
    rows[Payer(op) := rows[Payer(op)].(balance := rows[Payer(op)].balance - op.amount - op.fee)]
  }

  /** What the payee holds in the end: a second copy of the payer's row still shows the old balance. */
  function PayeeBalance(rows: map<AccountId, Account>, op: Op): int
    requires op.Transfer? && Payer(op) in rows && Payee(op) in rows
  {
    (if TwoCopies(op) then rows else Paid(rows, op))[Payee(op)].balance + op.amount
  }

  /** The rows a transfer leaves behind. */
  function Settled(rows: map<AccountId, Account>, op: Op): map<AccountId, Account>
    requires op.Transfer? && Payer(op) in rows && Payee(op) in rows
  {
    Paid(rows, op)[Payee(op) := rows[Payee(op)].(balance := PayeeBalance(rows, op))]
  }

  /** The lines a transfer adds: the amount leaves the payer, then the fee if there is one, then
      the payee is credited; each shows the balance it left behind. */
  function TransferEntries(b: Book, op: Op): seq<Entry>
    requires op.Transfer? && Payer(op) in b.accounts && Payee(op) in b.accounts
  {
    var out := b.accounts[Payer(op)].balance - op.amount;
    [Entry(Payer(op), TRANSFER_OUT, -op.amount, out, op.reference, Text(b, op), op.now)]
    + (if op.fee > 0 then [Entry(Payer(op), FEE, -(op.fee as int), out - op.fee, op.reference, "Transfer fee", op.now)] else [])
    + [Entry(Payee(op), TRANSFER_IN, op.amount, PayeeBalance(b.accounts, op), op.reference, Text(b, op), op.now)]
  }

  /** A transfer commits exactly when it is allowed, whatever the letter case of its texts. Then the
      payer has paid amount and fee, the payee has gained the amount, and nothing else has changed. */
  lemma TransferMeans(b: Book, op: Op)
    requires Solvent(b) && op.Transfer?
    ensures Step(b, op).Committed? <==> TransferAllowed(b, op)
    ensures Step(b, op).Committed? ==>
      Step(b, op).book == Book(Settled(b.accounts, op), b.entries + TransferEntries(b, op))
  {
    hide Less, Row, Payer, Payee, LockOrder, Decide, TransferEntries, Settled;
    if op.from != op.to {
      if Row(op.from) in b.accounts && Row(op.to) in b.accounts {
        AllowedIsDone(b, op);
      } else {
        TransferLockOrder(op);
        LockAllYields(b.accounts, LockOrder(op));
      }
    }
  }

  lemma AllowedIsDone(b: Book, op: Op)
    requires Solvent(b) && op.Transfer? && op.from != op.to && Row(op.from) in b.accounts && Row(op.to) in b.accounts
    ensures Step(b, op).Committed? <==> TransferAllowed(b, op)
    ensures Step(b, op).Committed? ==>
      Step(b, op).book == Book(Settled(b.accounts, op), b.entries + TransferEntries(b, op))
  {
    assert EarlyRefusal(b.entries, op).None?;
    hide *;
    var rows := TransferLocks(b, op);
    StepOnLockedRows(b, op, rows);
    TransferDecision(b, op, rows);
    if TransferAllowed(b, op) {
      var w := TransferPostings(b, op, rows);
      SettledOverlay(b, rows, w, op);
    } else {
      UndecidedFails(op, rows, Withdrawn(b.entries, op));
    }
  }

  lemma SettledOverlay(b: Book, rows: map<AccountId, Account>, w: Workspace, op: Op)
    requires op.Transfer? && Payer(op) in rows && Payee(op) in rows && w.rows == Settled(rows, op)
    requires forall id :: id in rows ==> id in b.accounts && rows[id] == b.accounts[id]
    ensures Overlay(b, w) == Book(Settled(b.accounts, op), b.entries + w.written)
  {
    hide Payer, Payee, TwoCopies;
    assert b.accounts + Settled(rows, op) == Settled(b.accounts, op);
  }

  lemma UndecidedFails(op: Op, rows: map<AccountId, Account>, withdrawn: int)
    requires Covers(rows, op) && Decide(op, rows, withdrawn).Failure?
    ensures Work(op, rows, withdrawn).Failure?
  {
    hide Decide, Covers;
  }

  lemma DecidedIsPosted(op: Op, rows: map<AccountId, Account>, withdrawn: int, ps: seq<Posting>)
    requires Covers(rows, op) && Decide(op, rows, withdrawn) == Success(ps)
    ensures Postable(rows, ps)
    ensures Work(op, rows, withdrawn) == PostAll(Workspace(rows, []), ps, op.reference, op.now)
  {
    hide Decide, Covers;
    DecidedPostable(op, rows, withdrawn);
  }

  lemma TransferPostings(b: Book, op: Op, rows: map<AccountId, Account>) returns (w: Workspace)
    requires Solvent(b) && op.Transfer? && TransferAllowed(b, op) && Covers(rows, op)
    requires Payer(op) in rows && Payee(op) in rows
    requires forall id :: id in rows ==> id in b.accounts && rows[id] == b.accounts[id]
    ensures Work(op, rows, Withdrawn(b.entries, op)) == Success(w)
    ensures w == Workspace(Settled(rows, op), TransferEntries(b, op))
  {
    assert op.from != op.to && op.amount > 0 && op.amount + op.fee <= b.accounts[Payer(op)].balance;
    assert Row(op.from) in b.accounts && Row(op.to) in b.accounts && b.accounts[Payee(op)].balance >= 0;
    hide Less, Row, LockOrder, Payer, Payee, Decide, Work, Withdrawn, TransferText, TransferAllowed, Solvent, Covers, PostAll,
      TwoCopies, Legs, PayeeBalance, Settled;
    TransferDecision(b, op, rows);
    CopiesShareTheRow(op);
    DecidedIsPosted(op, rows, Withdrawn(b.entries, op), Legs(Payer(op), Payee(op), op.amount, op.fee, Text(b, op), TwoCopies(op)));
    w := LegsPosted(rows, op, Text(b, op));
    LegsEntries(b, rows, op);
  }

  lemma LegsEntries(b: Book, rows: map<AccountId, Account>, op: Op)
    requires op.Transfer? && Payer(op) in rows && Payee(op) in rows
    requires forall id :: id in rows ==> id in b.accounts && rows[id] == b.accounts[id]
    ensures var out := rows[Payer(op)].balance - op.amount;
      TransferEntries(b, op) == [Entry(Payer(op), TRANSFER_OUT, -op.amount, out, op.reference, Text(b, op), op.now)]
        + (if op.fee > 0 then [Entry(Payer(op), FEE, -(op.fee as int), out - op.fee, op.reference, "Transfer fee", op.now)] else [])
        + [Entry(Payee(op), TRANSFER_IN, op.amount, PayeeBalance(rows, op), op.reference, Text(b, op), op.now)]
  {
    hide Payer, Payee, TwoCopies, TransferText;
  }

  lemma LegsPosted(rows: map<AccountId, Account>, op: Op, text: string) returns (w: Workspace)
    requires op.Transfer? && Payer(op) in rows && Payee(op) in rows && op.amount > 0
    requires op.amount + op.fee <= rows[Payer(op)].balance && rows[Payee(op)].balance >= 0
    requires TwoCopies(op) ==> Payer(op) == Payee(op)
    ensures var ps := Legs(Payer(op), Payee(op), op.amount, op.fee, text, TwoCopies(op));
      Postable(rows, ps) && PostAll(Workspace(rows, []), ps, op.reference, op.now) == Success(w)
    ensures w.rows == Settled(rows, op)
    ensures var out := rows[Payer(op)].balance - op.amount;
      w.written == [Entry(Payer(op), TRANSFER_OUT, -op.amount, out, op.reference, text, op.now)]
        + (if op.fee > 0 then [Entry(Payer(op), FEE, -(op.fee as int), out - op.fee, op.reference, "Transfer fee", op.now)] else [])
        + [Entry(Payee(op), TRANSFER_IN, op.amount, PayeeBalance(rows, op), op.reference, text, op.now)]
  {
    hide Payer, Payee, TwoCopies, PostAll;
    var w0 := Workspace(rows, []);
    var debit := Posting(Payer(op), TRANSFER_OUT, -op.amount, text);
    var credit := Posting(Payee(op), TRANSFER_IN, op.amount, text, if TwoCopies(op) then op.amount + op.fee else 0);
    var w1 := Posted(w0, debit, op.reference, op.now);
    if op.fee > 0 {
      var fee := Posting(Payer(op), FEE, -(op.fee as int), "Transfer fee");
      assert Legs(Payer(op), Payee(op), op.amount, op.fee, text, TwoCopies(op)) == [debit] + ([fee] + [credit]);
      PostCons(w0, debit, [fee] + [credit], op.reference, op.now);
      PostCons(w1, fee, [credit], op.reference, op.now);
      var w2 := Posted(w1, fee, op.reference, op.now);
      PostOne(w2, credit, op.reference, op.now);
      w := Posted(w2, credit, op.reference, op.now);
      assert w2.rows == Paid(rows, op);
    } else {
      assert Legs(Payer(op), Payee(op), op.amount, op.fee, text, TwoCopies(op)) == [debit] + [credit];
      PostCons(w0, debit, [credit], op.reference, op.now);
      PostOne(w1, credit, op.reference, op.now);
      w := Posted(w1, credit, op.reference, op.now);
      assert w1.rows == Paid(rows, op);
    }
  }

  // ---------- Conservation ----------

  ghost function TotalBalance(accounts: map<AccountId, Account>): int {
    MapSum(Balances(accounts))
  }

  function Balances(accounts: map<AccountId, Account>): map<AccountId, int> {
    map id | id in accounts :: accounts[id].balance
  }

  function TotalAmount(es: seq<Entry>): int {
    if es == [] then 0 else TotalAmount(es[..|es| - 1]) + es[|es| - 1].amount
  }

  lemma {:induction false} TotalAmountConcat(es: seq<Entry>, fs: seq<Entry>)
    ensures TotalAmount(es + fs) == TotalAmount(es) + TotalAmount(fs)
    decreases |fs|
  {
    if fs == [] {
      assert es + fs == es;
    } else {
      assert (es + fs)[..|es + fs| - 1] == es + fs[..|fs| - 1];
      TotalAmountConcat(es, fs[..|fs| - 1]);
    }
  }

  function Without(es: seq<Entry>, id: AccountId): seq<Entry> {
    if es == [] then []
    else Without(es[..|es| - 1], id) + if es[|es| - 1].account == id then [] else [es[|es| - 1]]
  }

  lemma {:induction false} WithoutMembers(es: seq<Entry>, id: AccountId)
    ensures forall i :: 0 <= i < |Without(es, id)| ==>
      Without(es, id)[i].account != id && exists j :: 0 <= j < |es| && es[j] == Without(es, id)[i]
  {
    if es != [] {
      var front := es[..|es| - 1];
      WithoutMembers(front, id);
      var rest, all := Without(front, id), Without(es, id);
      forall i | 0 <= i < |all| ensures all[i].account != id && exists j :: 0 <= j < |es| && es[j] == all[i] {
        if i < |rest| {
          var j :| 0 <= j < |front| && front[j] == rest[i];
          assert es[j] == all[i];
        } else {
          assert es[|es| - 1] == all[i];
        }
      }
    }
  }

  lemma {:induction false} WithoutSplits(es: seq<Entry>, id: AccountId)
    ensures TotalAmount(es) == SumFor(es, id) + TotalAmount(Without(es, id))
    ensures forall other :: SumFor(Without(es, id), other) == if other == id then 0 else SumFor(es, other)
  {
    if es != [] {
      var front, last := es[..|es| - 1], es[|es| - 1];
      WithoutSplits(front, id);
      assert Without(front, id) + [] == Without(front, id);
      if last.account != id {
        TotalAmountConcat(Without(front, id), [last]);
        assert TotalAmount([last]) == last.amount by { assert [last][..0] == []; }
        forall other ensures SumFor(Without(es, id), other) == if other == id then 0 else SumFor(es, other) {
          SumForAppend(Without(front, id), last, other);
        }
      }
    }
  }

  lemma {:induction false} RowsSumToTotal(accounts: map<AccountId, Account>, es: seq<Entry>)
    requires forall id :: id in accounts ==> accounts[id].balance == SumFor(es, id)
    requires forall i :: 0 <= i < |es| ==> es[i].account in accounts
    ensures TotalBalance(accounts) == TotalAmount(es)
    decreases |accounts|
  {
    assert es != [] ==> es[0].account in accounts;
    if accounts == map[] {
      assert es == [] && Balances(accounts) == map[];
    } else {
      hide SumFor, TotalAmount, TotalBalance, Without;
      var id :| id in accounts;
      TotalBalanceWithout(accounts, id);
      WithoutSplits(es, id);
      WithoutMembers(es, id);
      RowsSumToTotal(accounts - {id}, Without(es, id));
    }
  }

  lemma TotalBalanceWithout(accounts: map<AccountId, Account>, id: AccountId)
    requires id in accounts
    ensures TotalBalance(accounts) == accounts[id].balance + TotalBalance(accounts - {id})
    ensures |accounts - {id}| < |accounts|
  {
    MapSumWithout(Balances(accounts), id);
    assert Balances(accounts) - {id} == Balances(accounts - {id});
    assert (accounts - {id}).Keys == accounts.Keys - {id};
  }

  /** The money in all accounts is the sum of all entries ever written. */
  lemma TotalsAgree(b: Book)
    requires Balanced(b)
    ensures TotalBalance(b.accounts) == TotalAmount(b.entries)
  {
    hide EntryBalanced;
    forall i | 0 <= i < |b.entries| ensures b.entries[i].account in b.accounts { assert b.entries[i] in b.entries; }
    assert forall id :: id in b.accounts ==> BalancedOn(b, id);
    RowsSumToTotal(b.accounts, b.entries);
  }

  /** What an operation adds to, or takes from, the bank as a whole. */
  function NetFlow(op: Op): int {
    match op
    case Deposit(_, amount, _, _, _, _) => amount
    case Withdraw(_, amount, _, _, _, _) => -amount
    case Transfer(_, _, amount, fee, _, _, _) => if TwoCopies(op) then amount else -(fee as int)
    case Reverse(_, found, _, _) => -TotalAmount(found)
  }

  /** What an operation does to the money in the bank: a deposit and a withdrawal move it by their
      amount, a reversal takes back what the original entries added, and a transfer lowers it by
      exactly its fee, unless it works on two copies of one row, when it makes its amount. */
  lemma StepConserves(b: Book, op: Op)
    requires Step(b, op).Committed?
    ensures TotalBalance(Step(b, op).book.accounts) == TotalBalance(b.accounts) + NetFlow(op)
  {
    var rows, ps, w := CommittedRuns(b, op);
    OverlayOfNothing(b, rows);
    hide Step, Decide, PostAll, Covers, Postable, TotalBalance, NetFlow;
    PostAllMovesTheTotal(b, Workspace(rows, []), ps, op.reference, op.now);
    DecidedTotal(op, rows, Withdrawn(b.entries, op));
  }

  function PostingTotal(ps: seq<Posting>): int {
    if ps == [] then 0 else ps[0].missed + ps[0].amount + PostingTotal(ps[1..])
  }

  lemma {:induction false} PostAllMovesTheTotal(b: Book, w: Workspace, ps: seq<Posting>, reference: string, now: int)
    requires Postable(w.rows, ps) && PostAll(w, ps, reference, now).Success?
    ensures TotalBalance(Overlay(b, PostAll(w, ps, reference, now).value).accounts)
            == TotalBalance(Overlay(b, w).accounts) + PostingTotal(ps)
    decreases |ps|
  {
    hide MapSum;
    if ps != [] {
      var w1 := Posted(w, ps[0], reference, now);
      var id, rows := ps[0].account, Overlay(b, w).accounts;
      assert Balances(Overlay(b, w1).accounts) == Balances(rows)[id := BalanceLeft(w.rows, ps[0])];
      MapSumUpdate(Balances(rows), id, BalanceLeft(w.rows, ps[0]));
      PostAllMovesTheTotal(b, w1, ps[1..], reference, now);
    }
  }

  lemma DecidedTotal(op: Op, rows: map<AccountId, Account>, withdrawn: int)
    requires Covers(rows, op) && Decide(op, rows, withdrawn).Success?
    ensures PostingTotal(Decide(op, rows, withdrawn).value) == NetFlow(op)
  {
    var ps := Decide(op, rows, withdrawn).value;
    hide LockOrder, Payer, Payee, TwoCopies, Legs;
    if op.Reverse? {
      NegatedTotal(op.original, op.found);
    } else if op.Transfer? {
      RolesAreLocked(op);
      LegsTotal(Payer(op), Payee(op), op.amount, op.fee, TransferText(op.note, rows[Payer(op)], rows[Payee(op)]), TwoCopies(op));
    } else {
      assert ps[1..] == [];
    }
  }

  lemma LegsTotal(payer: AccountId, payee: AccountId, amount: int, fee: nat, text: string, copies: bool)
    ensures PostingTotal(Legs(payer, payee, amount, fee, text, copies)) == if copies then amount else -(fee as int)
  {
    var ps := Legs(payer, payee, amount, fee, text, copies);
    assert ps[|ps| - 1..][1..] == [];
    assert PostingTotal(ps[|ps| - 1..]) == ps[|ps| - 1].missed + amount;
    if |ps| == 3 { assert ps[1..][1..] == ps[2..]; }
  }

  lemma {:induction false} NegatedTotal(original: string, found: seq<Entry>)
    ensures PostingTotal(Negations(original, found)) == -TotalAmount(found)
  {
    if found != [] {
      NegatedTotal(original, found[1..]);
      assert Negations(original, found)[1..] == Negations(original, found[1..]);
      TotalAmountConcat([found[0]], found[1..]);
      assert found == [found[0]] + found[1..] && [found[0]][..0] == [];
    }
  }
}
