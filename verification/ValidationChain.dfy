/** The chain of handlers every money movement passes before it is posted. */
module ValidationChain {
  import opened Wrappers
  import opened AccountState
  import opened Entities

  datatype Operation = DEPOSIT | WITHDRAWAL

  datatype Context = Context(operation: Operation, amount: int, account: Account, withdrawnToday: int)

  datatype Check = PositiveAmount | AccountStatus | SufficientFunds | DailyLimit

  /** What one handler says on its own. */
  function Verdict(check: Check, c: Context): Option<Refusal> {
    match check
    case PositiveAmount =>
      if c.amount <= 0 then Some(AmountNotPositive) else None
    case AccountStatus =>
      var allowed := if c.operation == DEPOSIT then CanDeposit(c.account.status) else CanWithdraw(c.account.status);
      if !allowed then Some(StatusForbids) else None
    case SufficientFunds =>
      if c.operation == WITHDRAWAL && c.account.balance < c.amount then Some(InsufficientFunds) else None
    case DailyLimit =>
      if c.operation == WITHDRAWAL && c.withdrawnToday + c.amount > c.account.dailyLimit
      then Some(DailyLimitExceeded) else None
  }

  /** The first objection along a list of checks. */
  function FirstObjection(checks: seq<Check>, c: Context): Option<Refusal> {
    if checks == [] then None
    else if Verdict(checks[0], c).Some? then Verdict(checks[0], c)
    else FirstObjection(checks[1..], c)
  }

  const DEFAULT_CHECKS := [PositiveAmount, AccountStatus, SufficientFunds, DailyLimit]

  function Validate(c: Context): Option<Refusal> {
    FirstObjection(DEFAULT_CHECKS, c)
  }

  /** The chain stops at the first handler that objects, and passes only what every handler accepts. */
  lemma {:induction false} FirstObjectionIsTheEarliest(checks: seq<Check>, c: Context)
    ensures FirstObjection(checks, c).None? <==> forall k :: 0 <= k < |checks| ==> Verdict(checks[k], c).None?
    ensures FirstObjection(checks, c).Some? ==>
      exists k :: 0 <= k < |checks| && Verdict(checks[k], c) == FirstObjection(checks, c)
                  && forall j :: 0 <= j < k ==> Verdict(checks[j], c).None?
  {
    if checks != [] && Verdict(checks[0], c).None? {
      FirstObjectionIsTheEarliest(checks[1..], c);
      if FirstObjection(checks, c).Some? {
        var k :| 0 <= k < |checks[1..]| && Verdict(checks[1..][k], c) == FirstObjection(checks[1..], c)
                 && forall j :: 0 <= j < k ==> Verdict(checks[1..][j], c).None?;
        assert forall j :: 0 <= j < k + 1 ==> Verdict(checks[j], c).None? by {
          assert forall j :: 1 <= j < k + 1 ==> checks[j] == checks[1..][j - 1];
        }
        assert checks[k + 1] == checks[1..][k];
      }
      assert forall k :: 1 <= k < |checks| ==> checks[k] == checks[1..][k - 1];
    }
  }

  /** What the default chain lets through, in the words of its rules. */
  lemma ValidMeans(c: Context)
    ensures Validate(c).None? <==>
      && c.amount > 0
      && (c.operation == DEPOSIT ==> c.account.status != CLOSED)
      && (c.operation == WITHDRAWAL ==>
            && c.account.status == ACTIVE
            && c.amount <= c.account.balance
            && c.withdrawnToday + c.amount <= c.account.dailyLimit)
  {
    FirstObjectionIsTheEarliest(DEFAULT_CHECKS, c);
    assert DEFAULT_CHECKS[0] == PositiveAmount && DEFAULT_CHECKS[1] == AccountStatus;
    assert DEFAULT_CHECKS[2] == SufficientFunds && DEFAULT_CHECKS[3] == DailyLimit;
  }

  /** Why the default chain objects: the first of its four rules that is broken gives the reason. */
  lemma ObjectionsInOrder(c: Context)
    ensures Validate(c) ==
      if c.amount <= 0 then Some(AmountNotPositive)
      else if c.account.status == CLOSED || (c.operation == WITHDRAWAL && c.account.status != ACTIVE) then Some(StatusForbids)
      else if c.operation == DEPOSIT then None
      else if c.amount > c.account.balance then Some(InsufficientFunds)
      else if c.withdrawnToday + c.amount > c.account.dailyLimit then Some(DailyLimitExceeded)
      else None
  {
    FirstObjectionIsTheEarliest(DEFAULT_CHECKS, c);
    hide FirstObjection;
    assert DEFAULT_CHECKS[0] == PositiveAmount && DEFAULT_CHECKS[1] == AccountStatus;
    assert DEFAULT_CHECKS[2] == SufficientFunds && DEFAULT_CHECKS[3] == DailyLimit;
  }

  /** One link: its own check, and the next handler once SetNext has been called. */
  class ValidationHandler {
    const check: Check
    var next: ValidationHandler?

    constructor (check: Check)
      ensures this.check == check && next == null
    {
      this.check := check;
      next := null;
    }

    /** Links `handler` behind this one and hands it back, so that calls can be chained. */
    method SetNext(handler: ValidationHandler) returns (r: ValidationHandler)
      modifies this
      ensures next == handler && r == handler
    {
      next := handler;
      r := handler;
    }

    /** Runs this check, then the rest of the chain, which the links spell out. */
    method Run(c: Context, ghost links: seq<ValidationHandler>) returns (objection: Option<Refusal>)
      requires Linked(links) && links[0] == this
      ensures objection == FirstObjection(ChecksOf(links), c)
      decreases |links|
    {
      objection := Verdict(check, c);
      if objection.None? && next != null {
        assert ChecksOf(links)[1..] == ChecksOf(links[1..]);
        objection := next.Run(c, links[1..]);
      }
    }
  }

  /** `links` are the handlers met by following `next` from the first to the last. */
  ghost predicate Linked(links: seq<ValidationHandler>)
    reads links
  {
    && links != []
    && (forall i :: 0 <= i < |links| - 1 ==> links[i].next == links[i + 1])
    && links[|links| - 1].next == null
  }

  ghost function ChecksOf(links: seq<ValidationHandler>): (checks: seq<Check>)
    ensures |checks| == |links| && forall i :: 0 <= i < |links| ==> checks[i] == links[i].check
  {
    seq(|links|, i requires 0 <= i < |links| => links[i].check)
  }

  /** The default chain, cheap checks first. */
  method BuildTransactionValidationChain() returns (head: ValidationHandler, ghost links: seq<ValidationHandler>)
    ensures Linked(links) && links[0] == head && fresh(links)
    ensures ChecksOf(links) == DEFAULT_CHECKS
  {
    head := new ValidationHandler(PositiveAmount);
    var status := new ValidationHandler(AccountStatus);
    var funds := new ValidationHandler(SufficientFunds);
    var limit := new ValidationHandler(DailyLimit);
    var tail := head.SetNext(status);
    tail := tail.SetNext(funds);
    tail := tail.SetNext(limit);
    links := [head, status, funds, limit];
  }
}
