/** The event contracts shared by the producer and the consumer. */
module DomainEvents {
  import opened AccountIds
  import opened Wrappers

  datatype EventType =
    | ACCOUNT_OPENED | ACCOUNT_STATUS_CHANGED | MONEY_DEPOSITED | MONEY_WITHDRAWN
    | MONEY_TRANSFERRED | TRANSACTION_REVERSED | LOAN_DECIDED | CUSTOMER_ONBOARDED

  function Name(t: EventType): string {
    match t
    case ACCOUNT_OPENED => "account.opened"
    case ACCOUNT_STATUS_CHANGED => "account.status-changed"
    case MONEY_DEPOSITED => "transaction.deposited"
    case MONEY_WITHDRAWN => "transaction.withdrawn"
    case MONEY_TRANSFERRED => "transaction.transferred"
    case TRANSACTION_REVERSED => "transaction.reversed"
    case LOAN_DECIDED => "loan.decided"
    case CUSTOMER_ONBOARDED => "customer.onboarded"
  }

  /** A payload value: a uuid, a text or a whole number. */
  datatype Field = Id(id: AccountId) | Text(text: string) | Whole(n: int)

  datatype Rule = Uuid | NonEmptyText | TextOfLength(n: nat) | Integer | PositiveInteger | NonNegativeInteger

  type Payload = map<string, Field>

  datatype DomainEvent = DomainEvent(eventType: EventType, payload: Payload)

  /** A uuid is a text as well. */
  function TextIn(f: Field): Option<string> {
    match f
    case Id(id) => Some(id)
    case Text(text) => Some(text)
    case Whole(_) => None
  }

  predicate Satisfies(f: Field, r: Rule) {
    match r
    case Uuid => f.Id?
    case NonEmptyText => TextIn(f).GetOr("") != ""
    case TextOfLength(n) => TextIn(f).GetOr("") != "" && |TextIn(f).value| == n
    case Integer => f.Whole?
    case PositiveInteger => f.Whole? && f.n > 0
    case NonNegativeInteger => f.Whole? && f.n >= 0
  }

  function Schema(t: EventType): map<string, Rule> {
    match t
    case ACCOUNT_OPENED =>
      map["accountId" := Uuid, "accountNumber" := NonEmptyText, "ownerName" := NonEmptyText,
          "type" := NonEmptyText, "currency" := TextOfLength(3)]
    case ACCOUNT_STATUS_CHANGED =>
      map["accountId" := Uuid, "from" := NonEmptyText, "to" := NonEmptyText]
    case MONEY_DEPOSITED =>
      map["accountId" := Uuid, "amountMinor" := PositiveInteger, "balanceAfterMinor" := Integer, "reference" := NonEmptyText]
    case MONEY_WITHDRAWN =>
      map["accountId" := Uuid, "amountMinor" := PositiveInteger, "balanceAfterMinor" := Integer, "reference" := NonEmptyText]
    case MONEY_TRANSFERRED =>
      map["fromAccountId" := Uuid, "toAccountId" := Uuid, "amountMinor" := PositiveInteger,
          "feeMinor" := NonNegativeInteger, "reference" := NonEmptyText]
    case TRANSACTION_REVERSED =>
      map["accountId" := Uuid, "originalReference" := NonEmptyText, "reference" := NonEmptyText, "amountMinor" := Integer]
    case LOAN_DECIDED =>
      map["loanId" := Uuid, "accountId" := Uuid, "status" := NonEmptyText, "amountMinor" := PositiveInteger]
    case CUSTOMER_ONBOARDED =>
      map["accountId" := Uuid, "ownerName" := NonEmptyText, "initialDepositMinor" := NonNegativeInteger]
  }

  /** Every declared key is present with a value of its kind, and no other key is. */
  predicate ValidPayload(e: DomainEvent) {
    && e.payload.Keys == Schema(e.eventType).Keys
    && forall k :: k in e.payload ==> Satisfies(e.payload[k], Schema(e.eventType)[k])
  }

  // ---------- The contracts, key by key ----------

  predicate HasUuid(p: Payload, key: string) {
    key in p && p[key].Id?
  }

  predicate HasText(p: Payload, key: string) {
    key in p && ((p[key].Text? && p[key].text != "") || (p[key].Id? && p[key].id != ""))
  }

  /** A whole number of at least `least`. */
  predicate HasWhole(p: Payload, key: string, least: int) {
    key in p && p[key].Whole? && p[key].n >= least
  }

  predicate MeetsContract(e: DomainEvent) {
    var p := e.payload;
    match e.eventType
    case ACCOUNT_OPENED =>
      && p.Keys == {"accountId", "accountNumber", "ownerName", "type", "currency"}
      && HasUuid(p, "accountId") && HasText(p, "accountNumber") && HasText(p, "ownerName") && HasText(p, "type")
      && HasText(p, "currency") && |if p["currency"].Text? then p["currency"].text else p["currency"].id| == 3
    case ACCOUNT_STATUS_CHANGED =>
      && p.Keys == {"accountId", "from", "to"}
      && HasUuid(p, "accountId") && HasText(p, "from") && HasText(p, "to")
    case MONEY_DEPOSITED => MovementFits(p)
    case MONEY_WITHDRAWN => MovementFits(p)
    case MONEY_TRANSFERRED =>
      && p.Keys == {"fromAccountId", "toAccountId", "amountMinor", "feeMinor", "reference"}
      && HasUuid(p, "fromAccountId") && HasUuid(p, "toAccountId")
      && HasWhole(p, "amountMinor", 1) && HasWhole(p, "feeMinor", 0) && HasText(p, "reference")
    case TRANSACTION_REVERSED =>
      && p.Keys == {"accountId", "originalReference", "reference", "amountMinor"}
      && HasUuid(p, "accountId") && HasText(p, "originalReference") && HasText(p, "reference")
      && "amountMinor" in p && p["amountMinor"].Whole?
    case LOAN_DECIDED =>
      && p.Keys == {"loanId", "accountId", "status", "amountMinor"}
      && HasUuid(p, "loanId") && HasUuid(p, "accountId") && HasText(p, "status") && HasWhole(p, "amountMinor", 1)
    case CUSTOMER_ONBOARDED =>
      && p.Keys == {"accountId", "ownerName", "initialDepositMinor"}
      && HasUuid(p, "accountId") && HasText(p, "ownerName") && HasWhole(p, "initialDepositMinor", 0)
  }

  predicate MovementFits(p: Payload) {
    && p.Keys == {"accountId", "amountMinor", "balanceAfterMinor", "reference"}
    && HasUuid(p, "accountId") && HasWhole(p, "amountMinor", 1)
    && "balanceAfterMinor" in p && p["balanceAfterMinor"].Whole? && HasText(p, "reference")
  }

  predicate MovesMoney(t: EventType) {
    t == MONEY_DEPOSITED || t == MONEY_WITHDRAWN || t == MONEY_TRANSFERRED || t == TRANSACTION_REVERSED
  }

  /** The schemas accept exactly the payloads with the declared keys and no other, each within its rule. */
  lemma SchemaMeansTheContract(e: DomainEvent)
    ensures ValidPayload(e) <==> MeetsContract(e)
  {
    hide ValidPayload, MeetsContract;
    if MovesMoney(e.eventType) { MoneySchemas(e); } else { OtherSchemas(e); }
  }

  lemma MoneySchemas(e: DomainEvent)
    requires MovesMoney(e.eventType)
    ensures ValidPayload(e) <==> MeetsContract(e)
  {
    var keys: set<string> := Schema(e.eventType).Keys;
    if e.eventType == MONEY_TRANSFERRED {
      assert keys == {"fromAccountId", "toAccountId", "amountMinor", "feeMinor", "reference"};
    } else if e.eventType == TRANSACTION_REVERSED {
      assert keys == {"accountId", "originalReference", "reference", "amountMinor"};
    } else {
      assert keys == {"accountId", "amountMinor", "balanceAfterMinor", "reference"};
    }
  }

  lemma OtherSchemas(e: DomainEvent)
    requires !MovesMoney(e.eventType)
    ensures ValidPayload(e) <==> MeetsContract(e)
  {
    var keys: set<string> := Schema(e.eventType).Keys;
    match e.eventType
    case ACCOUNT_OPENED => assert keys == {"accountId", "accountNumber", "ownerName", "type", "currency"};
    case ACCOUNT_STATUS_CHANGED => assert keys == {"accountId", "from", "to"};
    case LOAN_DECIDED => assert keys == {"loanId", "accountId", "status", "amountMinor"};
    case CUSTOMER_ONBOARDED => assert keys == {"accountId", "ownerName", "initialDepositMinor"};
  }

  // ---------- Topics and keys ----------

  function BeforeDot(s: string): string {
    if s == "" || s[0] == '.' then "" else [s[0]] + BeforeDot(s[1..])
  }

  function TopicFor(t: EventType): string {
    "banking." + BeforeDot(Name(t)) + "-events"
  }

  const DEAD_LETTER_TOPIC := "banking.dead-letter"

  /** The partition key: the account, else the sending account, else (None) the event's own id. */
  function PartitionKey(e: DomainEvent): Option<Field> {
    if "accountId" in e.payload then Some(e.payload["accountId"])
    else if "fromAccountId" in e.payload then Some(e.payload["fromAccountId"])
    else None
  }

  /** A valid event is always keyed by an account, so it never falls back to its own id. */
  lemma ValidEventsAreKeyedByAnAccount(e: DomainEvent)
    requires ValidPayload(e)
    ensures PartitionKey(e).Some? && PartitionKey(e).value.Id?
  {}

  lemma {:induction false} BeforeDotOf(word: string, rest: string)
    requires '.' !in word
    ensures BeforeDot(word + "." + rest) == word
  {
    var s := word + "." + rest;
    if word != "" {
      assert s[0] == word[0] && s[1..] == word[1..] + "." + rest;
      BeforeDotOf(word[1..], rest);
      assert [word[0]] + word[1..] == word;
    }
  }

  /** Whatever moves money goes to one topic. */
  lemma MoneyMovesOnOneTopic(t: EventType)
    requires MovesMoney(t)
    ensures TopicFor(t) == "banking." + "transaction" + "-events"
  {
    var rest := if t == MONEY_DEPOSITED then "deposited" else if t == MONEY_WITHDRAWN then "withdrawn"
                else if t == MONEY_TRANSFERRED then "transferred" else "reversed";
    assert Name(t) == "transaction" + "." + rest;
    hide Name, BeforeDot;
    BeforeDotOf("transaction", rest);
  }

  /** The other events, by what they are about. */
  lemma OtherTopics(t: EventType)
    requires !MovesMoney(t)
    ensures TopicFor(t) == "banking." + (match t
      case ACCOUNT_OPENED => "account"
      case ACCOUNT_STATUS_CHANGED => "account"
      case LOAN_DECIDED => "loan"
      case _ => "customer") + "-events"
  {
    var about := if t == LOAN_DECIDED then "loan" else if t == CUSTOMER_ONBOARDED then "customer" else "account";
    var rest := if t == ACCOUNT_OPENED then "opened" else if t == ACCOUNT_STATUS_CHANGED then "status-changed"
                else if t == LOAN_DECIDED then "decided" else "onboarded";
    hide BeforeDot;
    assert Name(t) == about + "." + rest;
    hide Name;
    BeforeDotOf(about, rest);
  }

  /** No event goes to the dead-letter topic: the consumer of all event topics never reads its own
      dead letters. */
  lemma NoEventIsADeadLetter(t: EventType)
    ensures TopicFor(t) != DEAD_LETTER_TOPIC
  {
    hide Name, BeforeDot;
    var topic := TopicFor(t);
    assert topic[|topic| - 1] == 's' && DEAD_LETTER_TOPIC[|DEAD_LETTER_TOPIC| - 1] == 'r';
  }
}
