/** The command invoker: it runs banking commands, keeps the latest of them and undoes them. */
module Commands {
  import opened Wrappers
  import opened AccountIds
  import opened AccountState
  import opened Entities
  import opened Ledger
  import opened LedgerInvariants
  import opened LedgerTransfer
  import opened LedgerRuns
  import opened Reversal
  import S = LedgerService

  datatype Channel = WEB | MOBILE | BRANCH

  datatype Command =
    | DepositCommand(account: AccountId, amount: int, description: Option<string>)
    | WithdrawCommand(account: AccountId, amount: int, description: Option<string>)
    | TransferCommand(from: AccountId, to: AccountId, amount: int, channel: Channel, note: Option<string>)

  datatype CommandStatus = EXECUTED | FAILED | UNDONE

  datatype Record = Record(id: nat, command: Command, status: CommandStatus, reference: Option<string>)

  const MAX_HISTORY := 500

  const BRANCH_SURCHARGE := 10_000

  /** The invoker's memory on top of the bank's tables. */
  datatype Desk = Desk(book: Book, history: seq<Record>)

  /** What can happen: a command is run, one is undone, or the bank serves somebody else.
      `blocked` is the verdict of the fraud rules, which only transfers are screened by. */
  datatype Action =
    | Run(id: nat, command: Command, blocked: bool, reference: string, now: int)
    | Undo(id: nat, found: seq<Entry>, reference: string, now: int)
    | Other(request: Request)

  // ---------- One action ----------

  /** The layers around a transfer add the fee. */
  function OpOf(c: Command, fee: nat, reference: string, now: int): Op {
    match c
    case DepositCommand(a, amount, text) => Deposit(Row(a), amount, DEPOSIT_ENTRY, text.GetOr(""), reference, now)
    case WithdrawCommand(a, amount, text) => Withdraw(Row(a), amount, WITHDRAWAL_ENTRY, text.GetOr(""), reference, now)
    case TransferCommand(a, b, amount, channel, note) =>
      Transfer(a, b, amount, if channel == BRANCH then fee + BRANCH_SURCHARGE else fee, note, reference, now)
  }

  function Find(h: seq<Record>, id: nat): (k: nat)
    ensures k <= |h| && (k < |h| ==> h[k].id == id) && forall j :: 0 <= j < k ==> h[j].id != id
  {
    if h == [] || h[0].id == id then 0 else 1 + Find(h[1..], id)
  }

  /** An insertion-ordered map: a known key keeps its place, and the oldest entry makes room. */
  function Remembered(h: seq<Record>, r: Record): seq<Record> {
    var k := Find(h, r.id);
    var h' := if k < |h| then h[k := r] else h + [r];
    if |h'| > MAX_HISTORY then h'[1..] else h'
  }

  function Update(h: seq<Record>, id: nat, status: CommandStatus, reference: Option<string>): seq<Record> {
    var k := Find(h, id);
    if k < |h| then h[k := h[k].(status := status, reference := reference)] else h
  }

  predicate Undoable(h: seq<Record>, id: nat) {
    var k := Find(h, id);
    k < |h| && h[k].status == EXECUTED && h[k].reference.GetOr("") != ""
  }

  /** What the action asks the ledger for, if it gets that far. */
  function Asks(d: Desk, a: Action, fee: nat): Option<Request> {
    match a
    case Run(_, c, blocked, reference, now) =>
      if blocked && c.TransferCommand? then None else Some(Move(OpOf(c, fee, reference, now)))
    case Undo(id, found, reference, now) =>
      if !Undoable(d.history, id) then None
      else Some(Move(Reverse(d.history[Find(d.history, id)].reference.value, found, reference, now)))
    case Other(q) => Some(q)
  }

  /** The ledger did it. */
  predicate Succeeds(d: Desk, a: Action, fee: nat) {
    Asks(d, a, fee).Some? && Accepted(d.book, Asks(d, a, fee).value)
  }

  function Act(d: Desk, a: Action, fee: nat): Desk {
    var book := if Succeeds(d, a, fee) then Serve(d.book, Asks(d, a, fee).value) else d.book;
    match a
    case Run(id, c, _, reference, _) =>
      var history := Remembered(d.history, Record(id, c, EXECUTED, None));
      Desk(book, if Succeeds(d, a, fee) then Update(history, id, EXECUTED, Some(reference)) else Update(history, id, FAILED, None))
    case Undo(id, _, _, _) =>
      Desk(book, if Succeeds(d, a, fee) then Update(d.history, id, UNDONE, d.history[Find(d.history, id)].reference) else d.history)
    case Other(_) => Desk(book, d.history)
  }

  class CommandInvoker {
    const ledger: S.LedgerService
    const feeMinor: nat
    var history: seq<Record>

    constructor (ledger: S.LedgerService, feeMinor: nat)
      ensures this.ledger == ledger && this.feeMinor == feeMinor && history == []
    {
      this.ledger, this.feeMinor, history := ledger, feeMinor, [];
    }

    function State(): Desk
      reads this, ledger
    {
      Desk(ledger.State(), history)
    }

    /** The records, newest first. */
    function List(): (records: seq<Record>)
      reads this
      ensures |records| == |history| && forall k :: 0 <= k < |records| ==> records[k] == history[|history| - 1 - k]
    {
      seq(|history|, k requires 0 <= k < |history| reads this => history[|history| - 1 - k])
    }

    method Remember(record: Record)
      modifies `history
      ensures history == Remembered(old(history), record)
    {
      var k := Find(history, record.id);
      history := if k < |history| then history[k := record] else history + [record];
      if |history| > MAX_HISTORY { history := history[1..]; }
    }

    method Execute(c: Command, blocked: bool, reference: string, now: int) returns (r: Result<string, ()>)
      requires ledger.Valid()
      modifies ledger
      ensures ledger.Valid()
      ensures var q := Asks(old(State()), Action.Run(0, c, blocked, reference, now), feeMinor);
        if q.Some? && Accepted(old(ledger.State()), q.value)
        then r == Success(reference) && ledger.State() == Serve(old(ledger.State()), q.value)
        else r == Failure(()) && ledger.State() == old(ledger.State())
    {
      match c {
        case DepositCommand(a, amount, text) =>
          var result := ledger.Deposit(a, amount, DEPOSIT_ENTRY, text.GetOr(""), reference, now);
          r := if result.Success? then Success(result.value.reference) else Failure(());
        case WithdrawCommand(a, amount, text) =>
          var result := ledger.Withdraw(a, amount, WITHDRAWAL_ENTRY, text.GetOr(""), reference, now);
          r := if result.Success? then Success(result.value.reference) else Failure(());
        case TransferCommand(a, b, amount, channel, note) =>
          if blocked { return Failure(()); }
          var fee := if channel == BRANCH then feeMinor + BRANCH_SURCHARGE else feeMinor;
          var result := ledger.Transfer(a, b, amount, fee, note, reference, now);
          r := if result.Success? then Success(result.value.reference) else Failure(());
      }
    }

    method Run(id: nat, c: Command, blocked: bool, reference: string, now: int) returns (r: Result<string, ()>)
      requires ledger.Valid()
      modifies this, ledger
      ensures ledger.Valid() && State() == Act(old(State()), Action.Run(id, c, blocked, reference, now), feeMinor)
      ensures r.Success? <==> Succeeds(old(State()), Action.Run(id, c, blocked, reference, now), feeMinor)
    {
      Remember(Record(id, c, EXECUTED, None));
      r := Execute(c, blocked, reference, now);
      history := if r.Success? then Update(history, id, EXECUTED, Some(r.value)) else Update(history, id, FAILED, None);
    }

    method Undo(id: nat, found: seq<Entry>, reference: string, now: int) returns (r: Result<string, ()>)
      requires ledger.Valid()
      requires var q := Asks(State(), Action.Undo(id, found, reference, now), feeMinor);
        q.Some? ==> Answers(ledger.entries, q.value.op)
      modifies this, ledger
      ensures ledger.Valid() && State() == Act(old(State()), Action.Undo(id, found, reference, now), feeMinor)
      ensures r.Success? <==> Succeeds(old(State()), Action.Undo(id, found, reference, now), feeMinor)
    {
      var k := Find(history, id);
      if k == |history| { return Failure(()); }
      var record := history[k];
      if record.status != EXECUTED || record.reference.GetOr("") == "" { return Failure(()); }
      var result := ledger.Reverse(record.reference.value, found, reference, now);
      if result.Failure? { return Failure(()); }
      history := Update(history, id, UNDONE, record.reference);
      r := Success(result.value.reference);
    }
  }

  // ---------- Whole runs ----------

  function Worked(d: Desk, actions: seq<Action>, fee: nat): Desk {
    if actions == [] then d
    else Act(Worked(d, actions[..|actions| - 1], fee), actions[|actions| - 1], fee)
  }

  /** The commands that were run, in order. */
  function Runs(actions: seq<Action>): seq<(nat, Command)> {
    if actions == [] then []
    else
      var last := actions[|actions| - 1];
      Runs(actions[..|actions| - 1]) + if last.Run? then [(last.id, last.command)] else []
  }

  /** Command ids are random: no two runs share one. */
  predicate DistinctIds(actions: seq<Action>) {
    forall i, j :: 0 <= i < j < |actions| && actions[i].Run? && actions[j].Run? ==> actions[i].id != actions[j].id
  }

  predicate Unique(h: seq<Record>) {
    forall i, j :: 0 <= i < j < |h| ==> h[i].id != h[j].id
  }

  lemma {:induction false} RunsCameFromActions(actions: seq<Action>, k: nat) returns (i: nat)
    requires k < |Runs(actions)|
    ensures i < |actions| && actions[i].Run? && (actions[i].id, actions[i].command) == Runs(actions)[k]
  {
    var front := actions[..|actions| - 1];
    if k < |Runs(front)| { i := RunsCameFromActions(front, k); } else { i := |actions| - 1; }
  }

  predicate IsTail(h: seq<Record>, rs: seq<(nat, Command)>) {
    && |h| == (if |rs| < 500 then |rs| else 500)
    && forall k :: 0 <= k < |h| ==> (h[k].id, h[k].command) == rs[|rs| - |h| + k]
  }

  /** The history is exactly the last 500 commands that were run, in order, whatever was undone. */
  lemma {:induction false} HistoryIsTheLatest(b: Book, actions: seq<Action>, fee: nat)
    requires DistinctIds(actions)
    ensures var h := Worked(Desk(b, []), actions, fee).history; IsTail(h, Runs(actions)) && Unique(h)
  {
    if actions != [] {
      var front, last := actions[..|actions| - 1], actions[|actions| - 1];
      HistoryIsTheLatest(b, front, fee);
      var d := Worked(Desk(b, []), front, fee);
      if last.Run? {
        forall k | 0 <= k < |d.history| ensures d.history[k].id != last.id {
          var i := RunsCameFromActions(front, |Runs(front)| - |d.history| + k);
          assert actions[i] == front[i];
        }
      }
      ActKeepsTheTail(d, last, fee, Runs(front));
    }
  }

  lemma ActKeepsTheTail(d: Desk, a: Action, fee: nat, rs: seq<(nat, Command)>)
    requires IsTail(d.history, rs) && Unique(d.history)
    requires a.Run? ==> forall k :: 0 <= k < |d.history| ==> d.history[k].id != a.id
    ensures IsTail(Act(d, a, fee).history, rs + if a.Run? then [(a.id, a.command)] else [])
    ensures Unique(Act(d, a, fee).history)
  {
    ActOnHistory(d, a, fee);
    var h, h' := d.history, Act(d, a, fee).history;
    hide *;
    if a.Run? {
      TailGrows(h, h'[|h'| - 1], rs);
    } else {
      assert rs + [] == rs;
      TailStays(h, h', rs);
    }
  }

  lemma TailGrows(h: seq<Record>, r: Record, rs: seq<(nat, Command)>)
    requires IsTail(h, rs) && Unique(h) && forall k :: 0 <= k < |h| ==> h[k].id != r.id
    ensures var h' := (if |h| == MAX_HISTORY then h[1..] else h) + [r];
      IsTail(h', rs + [(r.id, r.command)]) && Unique(h')
  {}

  lemma TailStays(h: seq<Record>, h': seq<Record>, rs: seq<(nat, Command)>)
    requires IsTail(h, rs) && Unique(h) && |h'| == |h|
    requires forall k :: 0 <= k < |h| ==> h'[k].id == h[k].id && h'[k].command == h[k].command
    ensures IsTail(h', rs) && Unique(h')
  {}

  /** A run appends its record, forgetting the oldest of 500; an undo that the ledger does turns one
      executed record into an undone one; nothing else touches the history. */
  lemma ActOnHistory(d: Desk, a: Action, fee: nat)
    requires |d.history| <= MAX_HISTORY && Unique(d.history)
    requires a.Run? ==> forall k :: 0 <= k < |d.history| ==> d.history[k].id != a.id
    ensures var h, h', done := d.history, Act(d, a, fee).history, Succeeds(d, a, fee);
      match a
      case Run(id, c, _, reference, _) =>
        h' == (if |h| == MAX_HISTORY then h[1..] else h)
          + [if done then Record(id, c, EXECUTED, Some(reference)) else Record(id, c, FAILED, None)]
      case Undo(id, _, _, _) =>
        && |h'| == |h|
        && forall k :: 0 <= k < |h| ==>
             if done && h[k].id == id then h[k].status == EXECUTED && h'[k] == h[k].(status := UNDONE) else h'[k] == h[k]
      case Other(_) => h' == h
  {}

  // ---------- What a command does ----------

  /** The record a run leaves behind: executed under its reference, or failed. */
  predicate Recorded(h: seq<Record>, id: nat, c: Command, done: Option<string>) {
    h != [] && h[|h| - 1] == Record(id, c, if done.Some? then EXECUTED else FAILED, done)
  }

  /** A fresh id on a desk within its bounds. */
  predicate Ready(d: Desk, id: nat) {
    |d.history| <= 500 && Unique(d.history) && forall k :: 0 <= k < |d.history| ==> d.history[k].id != id
  }

  /** A deposit command runs exactly when the row exists, is not closed and the amount is positive; it
      raises the balance by the amount with one deposit entry. */
  lemma DepositCommandDeposits(d: Desk, id: nat, c: Command, blocked: bool, reference: string, now: int, fee: nat)
    requires Solvent(d.book) && Ready(d, id) && c.DepositCommand?
    ensures var d', row := Act(d, Action.Run(id, c, blocked, reference, now), fee), Row(c.account);
      if row in d.book.accounts && d.book.accounts[row].status != CLOSED && c.amount > 0 then
        var balance := d.book.accounts[row].balance + c.amount;
        var text := if c.description.Some? then c.description.value else "";
        && d'.book == Book(d.book.accounts[row := d.book.accounts[row].(balance := balance)],
                           d.book.entries + [Entry(row, DEPOSIT_ENTRY, c.amount, balance, reference, text, now)])
        && Recorded(d'.history, id, c, Some(reference))
      else d'.book == d.book && Recorded(d'.history, id, c, None)
  {
    hide Step, Solvent;
    var a := Action.Run(id, c, blocked, reference, now);
    ActOnHistory(d, a, fee);
    DepositMeans(d.book, Asks(d, a, fee).value.op);
    hide Remembered, Update, Find;
  }

  /** A withdrawal command runs exactly when the row is active and its balance and what is left of its
      daily limit cover a positive amount; it lowers the balance by the amount with one withdrawal entry. */
  lemma WithdrawCommandWithdraws(d: Desk, id: nat, c: Command, blocked: bool, reference: string, now: int, fee: nat)
    requires Ready(d, id) && c.WithdrawCommand?
    ensures var d', row := Act(d, Action.Run(id, c, blocked, reference, now), fee), Row(c.account);
      if && row in d.book.accounts && d.book.accounts[row].status == ACTIVE
         && 0 < c.amount <= d.book.accounts[row].balance
         && WithdrawnSince(d.book.entries, row, StartOfDay(now)) + c.amount <= d.book.accounts[row].dailyLimit then
        var balance := d.book.accounts[row].balance - c.amount;
        var text := if c.description.Some? then c.description.value else "";
        && d'.book == Book(d.book.accounts[row := d.book.accounts[row].(balance := balance)],
                           d.book.entries + [Entry(row, WITHDRAWAL_ENTRY, -c.amount, balance, reference, text, now)])
        && Recorded(d'.history, id, c, Some(reference))
      else d'.book == d.book && Recorded(d'.history, id, c, None)
  {
    hide Step, WithdrawnSince;
    var a := Action.Run(id, c, blocked, reference, now);
    ActOnHistory(d, a, fee);
    WithdrawMeans(d.book, Asks(d, a, fee).value.op);
    hide Remembered, Update, Find;
  }

  /** A transfer command that is not blocked is the transfer of its amount at the bank's fee, plus 10,000
      at the counter of a branch: it runs exactly when that transfer is allowed, and then the payer has
      lost amount and charge, the payee has gained the amount and nobody else has moved. A blocked one
      changes no table. */
  lemma TransferCommandTransfers(d: Desk, id: nat, c: Command, blocked: bool, reference: string, now: int, fee: nat)
    requires Solvent(d.book) && Ready(d, id) && c.TransferCommand?
    ensures var d' := Act(d, Action.Run(id, c, blocked, reference, now), fee);
      var charge: nat := match c.channel case WEB => fee case MOBILE => fee case BRANCH => fee + 10_000;
      var op := Op.Transfer(c.from, c.to, c.amount, charge, c.note, reference, now);
      if !blocked && TransferAllowed(d.book, op) then
        && d'.book.entries == d.book.entries + TransferEntries(d.book, op)
        && d'.book.accounts.Keys == d.book.accounts.Keys
        && (Payer(op) != Payee(op) ==>
              && d'.book.accounts[Payer(op)].balance == d.book.accounts[Payer(op)].balance - c.amount - charge
              && d'.book.accounts[Payee(op)].balance == d.book.accounts[Payee(op)].balance + c.amount)
        && (forall x :: x in d.book.accounts && x != Payer(op) && x != Payee(op) ==>
              d'.book.accounts[x] == d.book.accounts[x])
        && Recorded(d'.history, id, c, Some(reference))
      else d'.book == d.book && Recorded(d'.history, id, c, None)
  {
    hide Step, Solvent, Payer, Payee, TransferAllowed, TransferEntries;
    var a := Action.Run(id, c, blocked, reference, now);
    ActOnHistory(d, a, fee);
    if !blocked {
      var op := Asks(d, a, fee).value.op;
      TransferMeans(d.book, op);
      if TransferAllowed(d.book, op) { SettledBalances(d.book, op); }
    }
    hide Remembered, Update, Find, Settled;
  }

  lemma SettledBalances(b: Book, op: Op)
    requires op.Transfer? && TransferAllowed(b, op)
    ensures Payer(op) in b.accounts && Payee(op) in b.accounts
    ensures Settled(b.accounts, op).Keys == b.accounts.Keys
    ensures Payer(op) != Payee(op) ==>
      && Settled(b.accounts, op)[Payer(op)].balance == b.accounts[Payer(op)].balance - op.amount - op.fee
      && Settled(b.accounts, op)[Payee(op)].balance == b.accounts[Payee(op)].balance + op.amount
    ensures forall x :: x in b.accounts && x != Payer(op) && x != Payee(op) ==>
      Settled(b.accounts, op)[x] == b.accounts[x]
  {
    hide Payer, Payee, TwoCopies, WithdrawnSince;
  }

  // ---------- Statuses ----------

  /** The only way a record changes once its command has run. */
  predicate MovedOn(before: Record, after: Record) {
    after == before || (before.status == EXECUTED && after == before.(status := UNDONE))
  }

  lemma ActMovesForward(d: Desk, a: Action, fee: nat, k: nat, j: nat)
    requires |d.history| <= MAX_HISTORY && Unique(d.history) && k < |d.history| && j < |Act(d, a, fee).history|
    requires d.history[k].id == Act(d, a, fee).history[j].id
    requires a.Run? ==> forall k :: 0 <= k < |d.history| ==> d.history[k].id != a.id
    ensures MovedOn(d.history[k], Act(d, a, fee).history[j])
    ensures a.Undo? && Succeeds(d, a, fee) && a.id == d.history[k].id ==> Act(d, a, fee).history[j].status == UNDONE
  {
    ActOnHistory(d, a, fee);
    hide Act, Succeeds, Asks, Update, Remembered, Find;
  }

  /** A record was there before the action, unless it is the command just run. */
  lemma WasThere(d: Desk, a: Action, fee: nat, j: nat) returns (i: nat)
    requires Unique(d.history) && j < |Act(d, a, fee).history|
    requires a.Run? ==> Act(d, a, fee).history[j].id != a.id
    requires a.Run? ==> forall k :: 0 <= k < |d.history| ==> d.history[k].id != a.id
    ensures i < |d.history| && d.history[i].id == Act(d, a, fee).history[j].id
  {
    i := if |Act(d, a, fee).history| == |d.history| && a.Run? then j + 1 else j;
  }

  /** No later command takes the id of a remembered one. */
  lemma NotRunAgain(b: Book, actions: seq<Action>, fee: nat, n: nat, m: nat)
    requires DistinctIds(actions) && n <= m < |actions| && actions[m].Run?
    ensures var h := Worked(Desk(b, []), actions[..n], fee).history;
      forall k :: 0 <= k < |h| ==> h[k].id != actions[m].id
  {
    HistoryIsTheLatest(b, actions[..n], fee);
    var h, rs := Worked(Desk(b, []), actions[..n], fee).history, Runs(actions[..n]);
    forall k | 0 <= k < |h| ensures h[k].id != actions[m].id {
      var i := RunsCameFromActions(actions[..n], |rs| - |h| + k);
      assert actions[i] == actions[..n][i];
    }
  }

  /** Statuses never go back: a failed or undone command stays so, an executed one can only be undone. */
  lemma {:induction false} StatusesMoveForward(b: Book, actions: seq<Action>, fee: nat, n: nat, k: nat, j: nat)
    requires DistinctIds(actions) && n <= |actions|
    requires k < |Worked(Desk(b, []), actions[..n], fee).history| && j < |Worked(Desk(b, []), actions, fee).history|
    requires Worked(Desk(b, []), actions[..n], fee).history[k].id == Worked(Desk(b, []), actions, fee).history[j].id
    ensures MovedOn(Worked(Desk(b, []), actions[..n], fee).history[k], Worked(Desk(b, []), actions, fee).history[j])
    decreases |actions|
  {
    if n == |actions| {
      assert actions[..n] == actions;
      HistoryIsTheLatest(b, actions, fee);
    } else {
      var m := |actions| - 1;
      var front, last := actions[..m], actions[m];
      assert front[..n] == actions[..n];
      HistoryIsTheLatest(b, front, fee);
      if last.Run? {
        NotRunAgain(b, actions, fee, m, m);
        NotRunAgain(b, actions, fee, n, m);
      }
      var middle := Worked(Desk(b, []), front, fee);
      assert Worked(Desk(b, []), actions, fee) == Act(middle, last, fee);
      hide Act, Worked;
      var i := WasThere(middle, last, fee, j);
      StatusesMoveForward(b, front, fee, n, k, i);
      ActMovesForward(middle, last, fee, i, j);
    }
  }

  /** A command is undone at most once, however often it is asked for. */
  lemma UndoneAtMostOnce(b: Book, actions: seq<Action>, fee: nat, i: nat, j: nat)
    requires DistinctIds(actions) && i < j < |actions| && actions[i].Undo? && actions[j].Undo?
    requires Succeeds(Worked(Desk(b, []), actions[..i], fee), actions[i], fee)
    requires Succeeds(Worked(Desk(b, []), actions[..j], fee), actions[j], fee)
    ensures actions[i].id != actions[j].id
  {
    hide Act, Succeeds, Runs, Unique, MovedOn;
    HistoryIsTheLatest(b, actions[..i], fee);
    HistoryIsTheLatest(b, actions[..j], fee);
    var k := UndoneNow(Worked(Desk(b, []), actions[..i], fee), actions[i], fee);
    var l := UndoneNow(Worked(Desk(b, []), actions[..j], fee), actions[j], fee);
    if actions[i].id == actions[j].id {
      assert actions[..i + 1][..i] == actions[..i] && actions[..j][..i + 1] == actions[..i + 1];
      assert Worked(Desk(b, []), actions[..i + 1], fee) == Act(Worked(Desk(b, []), actions[..i], fee), actions[i], fee);
      StatusesMoveForward(b, actions[..j], fee, i + 1, k, l);
      NeverRevived(Worked(Desk(b, []), actions[..i + 1], fee).history[k], Worked(Desk(b, []), actions[..j], fee).history[l]);
    }
  }

  lemma UndoneNow(d: Desk, a: Action, fee: nat) returns (k: nat)
    requires |d.history| <= MAX_HISTORY && Unique(d.history) && a.Undo? && Succeeds(d, a, fee)
    ensures k < |d.history| == |Act(d, a, fee).history| && d.history[k].id == Act(d, a, fee).history[k].id == a.id
    ensures d.history[k].status == EXECUTED && Act(d, a, fee).history[k].status == UNDONE
  {
    k := Find(d.history, a.id);
    ActOnHistory(d, a, fee);
    assert Undoable(d.history, a.id);
  }

  lemma NeverRevived(before: Record, after: Record)
    requires MovedOn(before, after) && before.status != EXECUTED
    ensures after.status != EXECUTED
  {}

  // ---------- The invoker and the bank ----------

  /** The requests that reached the bank. */
  function Requests(d: Desk, actions: seq<Action>, fee: nat): seq<Request> {
    if actions == [] then []
    else
      var front, last := actions[..|actions| - 1], actions[|actions| - 1];
      var asked := Asks(Worked(d, front, fee), last, fee);
      Requests(d, front, fee) + if asked.Some? then [asked.value] else []
  }

  /** References are fresh and not empty, and the database answers the query of each reversal. */
  ghost predicate LegalAct(d: Desk, a: Action, fee: nat) {
    && (a.Run? ==> a.reference != "")
    && (Asks(d, a, fee).Some? ==> Legal(d.book, Asks(d, a, fee).value))
  }

  ghost predicate LegalActions(d: Desk, actions: seq<Action>, fee: nat) {
    forall i :: 0 <= i < |actions| ==> LegalAct(Worked(d, actions[..i], fee), actions[i], fee)
  }

  /** The bank under the invoker does exactly what it would do for the same requests without it. */
  lemma {:induction false} InvokerRefinesTheBank(b: Book, actions: seq<Action>, fee: nat)
    requires LegalActions(Desk(b, []), actions, fee)
    ensures Worked(Desk(b, []), actions, fee).book == After(b, Requests(Desk(b, []), actions, fee))
    ensures LegalRun(b, Requests(Desk(b, []), actions, fee))
  {
    hide Act, Asks, LegalAct;
    if actions != [] {
      hide LegalRun;
      var d, n := Desk(b, []), |actions| - 1;
      var front, last := actions[..n], actions[n];
      forall i | 0 <= i < n ensures LegalAct(Worked(d, front[..i], fee), front[i], fee) {
        assert front[..i] == actions[..i];
      }
      InvokerRefinesTheBank(b, front, fee);
      assert LegalAct(Worked(d, front, fee), last, fee);
      assert Worked(d, actions, fee) == Act(Worked(d, front, fee), last, fee);
      RequestsGrow(d, actions, fee);
      BankServes(Worked(d, front, fee), last, fee);
      hide *;
      if Asks(Worked(d, front, fee), last, fee).Some? {
        OneMoreRequest(b, Requests(d, front, fee), Asks(Worked(d, front, fee), last, fee).value);
      }
    }
  }

  lemma BankServes(d: Desk, a: Action, fee: nat)
    ensures var asked := Asks(d, a, fee);
      Act(d, a, fee).book == if asked.Some? then Serve(d.book, asked.value) else d.book
    ensures LegalAct(d, a, fee) && Asks(d, a, fee).Some? ==> Legal(d.book, Asks(d, a, fee).value)
  {}

  lemma RequestsGrow(d: Desk, actions: seq<Action>, fee: nat)
    requires actions != []
    ensures var front, last := actions[..|actions| - 1], actions[|actions| - 1];
      var qs, asked := Requests(d, front, fee), Asks(Worked(d, front, fee), last, fee);
      Requests(d, actions, fee) == if asked.Some? then qs + [asked.value] else qs
  {}

  lemma OneMoreRequest(b: Book, qs: seq<Request>, q: Request)
    requires LegalRun(b, qs) && Legal(After(b, qs), q)
    ensures LegalRun(b, qs + [q]) && After(b, qs + [q]) == Serve(After(b, qs), q)
  {
    var longer := qs + [q];
    assert longer[..|longer| - 1] == qs;
    forall i | 0 <= i < |longer| ensures Legal(After(b, longer[..i]), longer[i]) {
      if i < |qs| { assert longer[..i] == qs[..i]; }
    }
  }

  /** Running a command and undoing it at once: a command the bank refuses leaves the books as they
      were and cannot be undone; one that it carries out is undone exactly when no description imitates
      the mark of a reversal of its new reference, and then every row is back as it was, fee included,
      exactly when the command was not a transfer on two copies of a row. */
  lemma RunThenUndoRestores(d: Desk, run: Action, undo: Action, fee: nat)
    requires Solvent(d.book) && |d.history| <= MAX_HISTORY && Unique(d.history)
    requires run.Run? && (forall k :: 0 <= k < |d.history| ==> d.history[k].id != run.id) && LegalAct(d, run, fee)
    requires undo.Undo? && undo.id == run.id && LegalAct(Act(d, run, fee), undo, fee)
    ensures !Succeeds(d, run, fee) ==>
      Act(d, run, fee).book == d.book && Act(Act(d, run, fee), undo, fee) == Act(d, run, fee)
    ensures Succeeds(d, run, fee) ==>
      var op, d' := OpOf(run.command, fee, run.reference, run.now), Act(d, run, fee);
      && (Succeeds(d', undo, fee) <==> !MarkedReversed(d.book.entries, run.reference) && !WritesMark(op, run.reference))
      && (Succeeds(d', undo, fee) ==> (Act(d', undo, fee).book.accounts == d.book.accounts <==> !TwoCopies(op)))
  {
    hide Step, Solvent, Remembered, Update, Row, Less;
    var d' := Act(d, run, fee);
    ActOnHistory(d, run, fee);
    var newest := |d'.history| - 1;
    assert d'.history[newest].id == run.id;
    NewestIsFound(d'.history, run.id);
    if Succeeds(d, run, fee) {
      var op := OpOf(run.command, fee, run.reference, run.now);
      assert d'.history[newest].reference == Some(run.reference);
      assert Asks(d', undo, fee) == Some(Move(Reverse(run.reference, undo.found, undo.reference, undo.now)));
      var reversal := Reverse(run.reference, undo.found, undo.reference, undo.now);
      assert Step(d.book, op).Committed? && d'.book == Step(d.book, op).book;
      assert Succeeds(d', undo, fee) <==> Step(d'.book, reversal).Committed?;
      assert Succeeds(d', undo, fee) ==> Act(d', undo, fee).book == Step(d'.book, reversal).book;
      hide *;
      assert Answers(d.book.entries, op) && Fresh(d.book.entries, op.reference) && Answers(d'.book.entries, reversal);
      CommandsDoNotReverse(run.command, fee, run.reference, run.now);
      UndoAtOnceRestores(d.book, op, d'.book, reversal);
      MarkAfter(d.book, op, run.reference);
    }
  }

  lemma CommandsDoNotReverse(c: Command, fee: nat, reference: string, now: int)
    ensures !OpOf(c, fee, reference, now).Reverse?
  {}

  lemma NewestIsFound(h: seq<Record>, id: nat)
    requires h != [] && h[|h| - 1].id == id && forall k :: 0 <= k < |h| - 1 ==> h[k].id != id
    ensures Find(h, id) == |h| - 1
  {}

  /** The same in every reachable state: whatever ran before, the only thing that can prevent a command
      from being undone at once is a text imitating the reversal mark, and the only command that then
      leaves a trace in an account is a transfer on two copies of its row. */
  lemma UndoAtOnce(b: Book, actions: seq<Action>, fee: nat, n: nat)
    requires EmptyBank(b) && DistinctIds(actions) && LegalActions(Desk(b, []), actions, fee)
    requires |actions| == n + 2 && actions[n].Run? && actions[n + 1].Undo? && actions[n + 1].id == actions[n].id
    ensures var before, between, after :=
        Worked(Desk(b, []), actions[..n], fee), Worked(Desk(b, []), actions[..n + 1], fee), Worked(Desk(b, []), actions, fee);
      var run := actions[n];
      var op := OpOf(run.command, fee, run.reference, run.now);
      var imitated := MarkedReversed(before.book.entries, run.reference) || WritesMark(op, run.reference);
      && (!Succeeds(before, run, fee) ==> after.book == before.book && after.history == between.history)
      && (Succeeds(before, run, fee) ==>
            && (Succeeds(between, actions[n + 1], fee) <==> !imitated)
            && (!imitated ==> (after.book.accounts == before.book.accounts <==> !TwoCopies(op))))
  {
    var d := Desk(b, []);
    var before := Worked(d, actions[..n], fee);
    LegalActionsPrefix(d, actions, fee, n);
    InvokerRefinesTheBank(b, actions[..n], fee);
    ReachableIsSolvent(b, Requests(d, actions[..n], fee));
    HistoryIsTheLatest(b, actions[..n], fee);
    if actions[n].Run? { NotRunAgain(b, actions, fee, n, n); }
    assert actions[..n + 1][..n] == actions[..n] && actions[..n + 2] == actions;
    hide Act, LegalAct, Succeeds, Unique, After;
    assert Worked(d, actions[..n + 1], fee) == Act(before, actions[n], fee);
    assert LegalAct(before, actions[n], fee) && LegalAct(Worked(d, actions[..n + 1], fee), actions[n + 1], fee);
    assert actions[..|actions| - 1] == actions[..n + 1];
    RunThenUndoRestores(before, actions[n], actions[n + 1], fee);
  }

  lemma LegalActionsPrefix(d: Desk, actions: seq<Action>, fee: nat, n: nat)
    requires LegalActions(d, actions, fee) && n <= |actions|
    ensures LegalActions(d, actions[..n], fee)
  {
    forall i | 0 <= i < n ensures LegalAct(Worked(d, actions[..n][..i], fee), actions[..n][i], fee) {
      assert actions[..n][..i] == actions[..i];
    }
  }

  /** A command that was undone, at once or long after, has no net effect on any account for ever. */
  lemma UndoneCommandsCancel(b: Book, actions: seq<Action>, fee: nat, i: nat, account: AccountId)
    requires EmptyBank(b) && LegalActions(Desk(b, []), actions, fee)
    requires i < |actions| && actions[i].Undo? && Succeeds(Worked(Desk(b, []), actions[..i], fee), actions[i], fee)
    ensures var h, es := Worked(Desk(b, []), actions[..i], fee).history, Worked(Desk(b, []), actions, fee).book.entries;
      && Undoable(h, actions[i].id)
      && SumRef(es, h[Find(h, actions[i].id)].reference.value, account) + SumRef(es, actions[i].reference, account) == 0
  {
    var d := Desk(b, []);
    LegalActionsPrefix(d, actions, fee, i);
    InvokerRefinesTheBank(b, actions[..i], fee);
    InvokerRefinesTheBank(b, actions, fee);
    UndoAsks(Worked(d, actions[..i], fee), actions[i], fee);
    hide Act, Asks, Worked, Requests, Find, After, LegalActions, LegalRun, Succeeds, Accepted;
    var n := RequestOf(d, actions, fee, i);
    ReversalCancels(b, Requests(d, actions, fee), n, account);
  }

  lemma UndoAsks(d: Desk, a: Action, fee: nat)
    requires a.Undo? && Succeeds(d, a, fee)
    ensures Undoable(d.history, a.id)
    ensures var original := d.history[Find(d.history, a.id)].reference.value;
      Asks(d, a, fee) == Some(Move(Reverse(original, a.found, a.reference, a.now)))
    ensures Accepted(d.book, Asks(d, a, fee).value)
  {}

  lemma RequestOf(d: Desk, actions: seq<Action>, fee: nat, i: nat) returns (n: nat)
    requires i < |actions| && Asks(Worked(d, actions[..i], fee), actions[i], fee).Some?
    ensures n < |Requests(d, actions, fee)| && Requests(d, actions, fee)[..n] == Requests(d, actions[..i], fee)
    ensures Requests(d, actions, fee)[n] == Asks(Worked(d, actions[..i], fee), actions[i], fee).value
  {
    hide Asks, Worked, Requests;
    n := |Requests(d, actions[..i], fee)|;
    assert actions[..i + 1][..i] == actions[..i];
    RequestsGrow(d, actions[..i + 1], fee);
    RequestsExtend(d, actions, fee, i + 1);
  }

  lemma {:induction false} RequestsExtend(d: Desk, actions: seq<Action>, fee: nat, n: nat)
    requires n <= |actions|
    ensures Requests(d, actions[..n], fee) <= Requests(d, actions, fee)
  {
    if n == |actions| {
      assert actions[..n] == actions;
    } else {
      assert actions[..|actions| - 1][..n] == actions[..n];
      RequestsExtend(d, actions[..|actions| - 1], fee, n);
      RequestsGrow(d, actions, fee);
    }
  }
}
