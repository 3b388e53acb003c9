/** The notification consumer: many handlers at once over one table and one dead-letter topic. */
module Consumer {
  import opened Wrappers
  import opened DomainEvents

  type EventId = nat

  datatype Envelope = Envelope(id: EventId, event: DomainEvent)

  datatype Message = Message(topic: string, raw: string)

  /** Parsing with the envelope check, and the sentence for the customer. */
  datatype Codec = Codec(parse: string -> Option<Envelope>, format: DomainEvent -> string)

  datatype Row = Row(eventType: EventType, message: string, payload: Payload)

  datatype DeadLetter = DeadLetter(raw: string, originalTopic: string)

  /** The event of a message, if it passes every check. */
  function ValidEvent(c: Codec, m: Message): Option<Envelope> {
    match c.parse(m.raw)
    case None => None
    case Some(e) => if ValidPayload(e.event) then Some(e) else None
  }

  function RowOf(c: Codec, e: DomainEvent): Row {
    Row(e.eventType, c.format(e), e.payload)
  }

  function InsertOrIgnore(table: map<EventId, Row>, id: EventId, row: Row): map<EventId, Row> {
    if id in table then table else table[id := row]
  }

  /** The table once a handler has tried to insert the row of its message. */
  function Tried(c: Codec, table: map<EventId, Row>, m: Message, insertion: Insertion): map<EventId, Row> {
    var event := ValidEvent(c, m);
    if event.Some? && insertion != NotInserted
    then InsertOrIgnore(table, event.value.id, RowOf(c, event.value.event)) else table
  }

  /** How the insert went: done, not done, or done although an error was reported. */
  datatype Insertion = Inserted | NotInserted | InsertedButReported

  // ---------- One handler alone ----------

  datatype Effects = Effects(table: map<EventId, Row>, letters: seq<DeadLetter>, acknowledged: bool)

  /** Whatever goes wrong sends the message to the dead-letter topic; if that fails too, the handler
      fails and the broker will deliver the message again. */
  function Handled(c: Codec, table: map<EventId, Row>, letters: seq<DeadLetter>, m: Message, insertion: Insertion, sent: bool): Effects {
    var event := ValidEvent(c, m);
    var table' := Tried(c, table, m, insertion);
    if event.Some? && insertion == Inserted then Effects(table', letters, true)
    else Effects(table', if sent then letters + [DeadLetter(m.raw, m.topic)] else letters, sent)
  }

  /** What the consumer takes for an event: it parses, and its payload meets the contract of its type. */
  predicate Good(c: Codec, m: Message) {
    c.parse(m.raw).Some? && MeetsContract(c.parse(m.raw).value.event)
  }

  lemma GoodIsValid(c: Codec, m: Message)
    ensures ValidEvent(c, m) == if Good(c, m) then c.parse(m.raw) else None
  {
    hide ValidPayload, MeetsContract;
    if c.parse(m.raw).Some? { SchemaMeansTheContract(c.parse(m.raw).value.event); }
  }

  /** A message that does not parse or breaks its contract touches no row; it gains a dead letter, with
      the text and topic it came with, exactly when sending works, and is acknowledged exactly then. */
  lemma BadMessagesAreDeadLettered(c: Codec, table: map<EventId, Row>, letters: seq<DeadLetter>, m: Message,
                                   insertion: Insertion, sent: bool)
    requires !Good(c, m)
    ensures var done := Handled(c, table, letters, m, insertion, sent);
      && done.table == table && done.acknowledged == sent
      && done.letters == if sent then letters + [DeadLetter(m.raw, m.topic)] else letters
  {
    hide MeetsContract, ValidPayload, ValidEvent;
    GoodIsValid(c, m);
  }

  /** A message that meets its contract has the row for its id once an insertion is done: its own type,
      sentence and payload if the id is new, and otherwise the row that was there. An insertion that
      works sends no dead letter; one that fails or is reported so is handled like a bad message. */
  lemma GoodMessagesAreStored(c: Codec, table: map<EventId, Row>, letters: seq<DeadLetter>, m: Message,
                              insertion: Insertion, sent: bool)
    requires Good(c, m)
    ensures var done, e := Handled(c, table, letters, m, insertion, sent), c.parse(m.raw).value;
      && done.table == (if insertion == NotInserted || e.id in table then table
                        else table[e.id := Row(e.event.eventType, c.format(e.event), e.event.payload)])
      && (insertion == Inserted ==> done.letters == letters && done.acknowledged)
      && (insertion != Inserted ==>
            && done.acknowledged == sent
            && done.letters == if sent then letters + [DeadLetter(m.raw, m.topic)] else letters)
  {
    hide MeetsContract, ValidPayload, ValidEvent;
    GoodIsValid(c, m);
  }

  class NotificationConsumer {
    const codec: Codec
    var notifications: map<EventId, Row>
    var deadLetters: seq<DeadLetter>

    constructor (codec: Codec)
      ensures this.codec == codec && notifications == map[] && deadLetters == []
    {
      this.codec, notifications, deadLetters := codec, map[], [];
    }

    method Handle(m: Message, insertion: Insertion, sent: bool) returns (acknowledged: bool)
      modifies this
      ensures Effects(notifications, deadLetters, acknowledged)
        == Handled(codec, old(notifications), old(deadLetters), m, insertion, sent)
    {
      var parsed := codec.parse(m.raw);
      if parsed.Some? && ValidPayload(parsed.value.event) {
        var e := parsed.value;
        if insertion != NotInserted && e.id !in notifications {
          notifications := notifications[e.id := Row(e.event.eventType, codec.format(e.event), e.event.payload)];
        }
        if insertion == Inserted { return true; }
      }
      if sent { deadLetters := deadLetters + [DeadLetter(m.raw, m.topic)]; }
      acknowledged := sent;
    }
  }

  // ---------- Any number of handlers, interleaved ----------

  /** Messages handed to a handler, messages whose handler must still send a dead letter, and those
      whose handler has finished, well or badly. */
  datatype State = State(table: map<EventId, Row>, letters: seq<DeadLetter>, arrived: multiset<Message>,
                         failed: multiset<Message>, acknowledged: multiset<Message>, unacknowledged: multiset<Message>)

  const START := State(map[], [], multiset{}, multiset{}, multiset{}, multiset{})

  datatype Step =
    | Deliver(m: Message)
    | Insert(m: Message, insertion: Insertion)
    | Send(m: Message, sent: bool)
    | Crash(m: Message)

  predicate Enabled(s: State, step: Step) {
    match step
    case Deliver(_) => true
    case Insert(m, _) => m in s.arrived
    case Send(m, _) => m in s.failed
    case Crash(m) => m in s.arrived
  }

  function Next(c: Codec, s: State, step: Step): State {
    match step
    case Deliver(m) => s.(arrived := s.arrived + multiset{m})
    case Insert(m, insertion) =>
      var taken := s.(arrived := s.arrived - multiset{m});
      var event := ValidEvent(c, m);
      var table := Tried(c, s.table, m, insertion);
      if event.Some? && insertion == Inserted
      then taken.(table := table, acknowledged := s.acknowledged + multiset{m})
      else taken.(table := table, failed := s.failed + multiset{m})
    case Send(m, sent) =>
      var taken := s.(failed := s.failed - multiset{m});
      if sent then taken.(letters := s.letters + [DeadLetter(m.raw, m.topic)], acknowledged := s.acknowledged + multiset{m})
      else taken.(unacknowledged := s.unacknowledged + multiset{m})
    case Crash(m) =>
      s.(arrived := s.arrived - multiset{m}, unacknowledged := s.unacknowledged + multiset{m})
  }

  function After(c: Codec, steps: seq<Step>): State {
    if steps == [] then START else Next(c, After(c, steps[..|steps| - 1]), steps[|steps| - 1])
  }

  predicate Schedule(c: Codec, steps: seq<Step>) {
    forall i :: 0 <= i < |steps| ==> Enabled(After(c, steps[..i]), steps[i])
  }

  function Deliveries(steps: seq<Step>): multiset<Message> {
    if steps == [] then multiset{}
    else
      var last := steps[|steps| - 1];
      Deliveries(steps[..|steps| - 1]) + if last.Deliver? then multiset{last.m} else multiset{}
  }

  /** No handler is in the middle of a message. */
  predicate AtRest(s: State) {
    s.arrived == multiset{} && s.failed == multiset{}
  }

  lemma SchedulePrefix(c: Codec, steps: seq<Step>)
    requires Schedule(c, steps) && steps != []
    ensures Schedule(c, steps[..|steps| - 1]) && Enabled(After(c, steps[..|steps| - 1]), steps[|steps| - 1])
  {
    var front := steps[..|steps| - 1];
    forall i | 0 <= i < |front| ensures Enabled(After(c, front[..i]), front[i]) {
      assert front[..i] == steps[..i];
    }
  }

  /** One handler running alone does its steps in a row. */
  lemma HandlerIsThreeSteps(c: Codec, s: State, m: Message, insertion: Insertion, sent: bool)
    ensures var arrived := Next(c, s, Deliver(m));
      var tried := Next(c, arrived, Insert(m, insertion));
      var effects := Handled(c, s.table, s.letters, m, insertion, sent);
      && Enabled(arrived, Insert(m, insertion))
      && (ValidEvent(c, m).Some? && insertion == Inserted ==>
            tried == s.(table := effects.table, letters := effects.letters, acknowledged := s.acknowledged + multiset{m}))
      && (ValidEvent(c, m).None? || insertion != Inserted ==>
            && Enabled(tried, Send(m, sent))
            && Next(c, tried, Send(m, sent)) == s.(table := effects.table, letters := effects.letters,
                 acknowledged := s.acknowledged + (if effects.acknowledged then multiset{m} else multiset{}),
                 unacknowledged := s.unacknowledged + (if effects.acknowledged then multiset{} else multiset{m})))
  {
    hide ValidEvent, Tried;
    AddAndTake(s.arrived, m);
    AddAndTake(s.failed, m);
    assert s.acknowledged + multiset{} == s.acknowledged && s.unacknowledged + multiset{} == s.unacknowledged;
  }

  lemma AddAndTake(ms: multiset<Message>, m: Message)
    ensures ms + multiset{m} - multiset{m} == ms && m in ms + multiset{m}
  {}

  /** The same two laws for one step among others: only a message that meets its contract touches the
      table, by the row for its id if the id is new; a bad one goes on to the dead letters. */
  lemma StepByContract(c: Codec, s: State, m: Message, insertion: Insertion)
    ensures var s' := Next(c, s, Insert(m, insertion));
      if Good(c, m) && insertion != NotInserted then
        var e := c.parse(m.raw).value;
        s'.table == if e.id in s.table then s.table
                    else s.table[e.id := Row(e.event.eventType, c.format(e.event), e.event.payload)]
      else s'.table == s.table && s'.failed == s.failed + multiset{m} && s'.acknowledged == s.acknowledged
    ensures Next(c, s, Send(m, true)).letters == s.letters + [DeadLetter(m.raw, m.topic)]
    ensures Next(c, s, Send(m, true)).table == s.table == Next(c, s, Send(m, false)).table
  {
    hide MeetsContract, ValidPayload, ValidEvent;
    GoodIsValid(c, m);
  }

  // ---------- Nothing is lost ----------

  /** The message has left its trace: a row under its event id, or a dead letter. */
  predicate Settled(c: Codec, s: State, m: Message) {
    || (ValidEvent(c, m).Some? && ValidEvent(c, m).value.id in s.table)
    || DeadLetter(m.raw, m.topic) in s.letters
  }

  lemma NextKeepsSettled(c: Codec, s: State, step: Step)
    requires Enabled(s, step) && forall m :: m in s.acknowledged ==> Settled(c, s, m)
    ensures forall m :: m in Next(c, s, step).acknowledged ==> Settled(c, Next(c, s, step), m)
  {
    hide Settled, Next, Enabled;
    forall m | m in Next(c, s, step).acknowledged ensures Settled(c, Next(c, s, step), m) {
      if m in s.acknowledged { SettledStays(c, s, step, m); } else { SettledNow(c, s, step, m); }
    }
  }

  lemma SettledStays(c: Codec, s: State, step: Step, m: Message)
    requires Enabled(s, step) && Settled(c, s, m)
    ensures Settled(c, Next(c, s, step), m)
  {}

  lemma SettledNow(c: Codec, s: State, step: Step, m: Message)
    requires Enabled(s, step) && m in Next(c, s, step).acknowledged && m !in s.acknowledged
    ensures Settled(c, Next(c, s, step), m)
  {}

  /** Whatever fails and however handlers interleave, every message whose handler finished well ends
      as a row for its event id or in the dead-letter topic, and every delivery is accounted for. */
  lemma {:induction false} NothingIsLost(c: Codec, steps: seq<Step>)
    requires Schedule(c, steps)
    ensures forall m :: m in After(c, steps).acknowledged ==> Settled(c, After(c, steps), m)
    ensures var s := After(c, steps);
      Deliveries(steps) == s.arrived + s.failed + s.acknowledged + s.unacknowledged
  {
    if steps != [] {
      var front, last := steps[..|steps| - 1], steps[|steps| - 1];
      SchedulePrefix(c, steps);
      NothingIsLost(c, front);
      NextKeepsSettled(c, After(c, front), last);
      NextKeepsCount(c, After(c, front), last);
    }
  }

  lemma NextKeepsCount(c: Codec, s: State, step: Step)
    requires Enabled(s, step)
    ensures var s' := Next(c, s, step);
      s'.arrived + s'.failed + s'.acknowledged + s'.unacknowledged
      == s.arrived + s.failed + s.acknowledged + s.unacknowledged + if step.Deliver? then multiset{step.m} else multiset{}
  {}

  // ---------- The table ----------

  /** Rows come from delivered messages and are never changed again. */
  lemma {:induction false} RowsComeFromMessages(c: Codec, steps: seq<Step>, id: EventId) returns (m: Message)
    requires Schedule(c, steps) && id in After(c, steps).table
    ensures m in Deliveries(steps) && ValidEvent(c, m).Some? && ValidEvent(c, m).value.id == id
    ensures After(c, steps).table[id] == RowOf(c, ValidEvent(c, m).value.event)
  {
    var front, last := steps[..|steps| - 1], steps[|steps| - 1];
    SchedulePrefix(c, steps);
    var before := After(c, front);
    assert After(c, steps) == Next(c, before, last);
    assert forall m :: m in Deliveries(front) ==> m in Deliveries(steps);
    NothingIsLost(c, front);
    hide After, Deliveries, Schedule;
    if id in before.table {
      m := RowsComeFromMessages(c, front, id);
      RowsStay(c, before, last, id);
    } else {
      m := last.m;
      NewRow(c, before, last, id);
    }
  }

  lemma NewRow(c: Codec, s: State, step: Step, id: EventId)
    requires Enabled(s, step) && id !in s.table && id in Next(c, s, step).table
    ensures step.Insert? && step.m in s.arrived && ValidEvent(c, step.m).Some? && ValidEvent(c, step.m).value.id == id
    ensures Next(c, s, step).table[id] == RowOf(c, ValidEvent(c, step.m).value.event)
  {}

  lemma RowsStay(c: Codec, s: State, step: Step, id: EventId)
    requires id in s.table
    ensures id in Next(c, s, step).table && Next(c, s, step).table[id] == s.table[id]
  {
    hide Next, ValidEvent;
    NextTable(c, s, step);
  }

  lemma {:induction false} RowsNeverChange(c: Codec, steps: seq<Step>, n: nat, id: EventId)
    requires n <= |steps| && id in After(c, steps[..n]).table
    ensures id in After(c, steps).table && After(c, steps).table[id] == After(c, steps[..n]).table[id]
    decreases |steps|
  {
    hide Next;
    if n == |steps| {
      assert steps[..n] == steps;
    } else {
      assert steps[..|steps| - 1][..n] == steps[..n];
      RowsNeverChange(c, steps[..|steps| - 1], n, id);
      assert After(c, steps) == Next(c, After(c, steps[..|steps| - 1]), steps[|steps| - 1]);
      RowsStay(c, After(c, steps[..|steps| - 1]), steps[|steps| - 1], id);
    }
  }

  /** Nothing failed: inserts worked, dead letters were sent and no handler crashed. */
  predicate Smooth(steps: seq<Step>) {
    forall i :: 0 <= i < |steps| ==>
      match steps[i]
      case Deliver(_) => true
      case Insert(_, insertion) => insertion == Inserted
      case Send(_, sent) => sent
      case Crash(_) => false
  }

  /** While nothing fails, a message is settled by its validity alone: valid ones have their row once
      handled, invalid ones are dead-lettered once for each delivery. */
  ghost predicate Sorted(c: Codec, s: State) {
    && s.unacknowledged == multiset{}
    && (forall m :: m in s.failed ==> !Good(c, m))
    && (forall m :: m in s.acknowledged && Good(c, m) ==> Stored(c, s, m))
    && (forall m: Message :: Letters(s, m) == if Good(c, m) then 0 else s.acknowledged[m])
  }

  /** There is a row for the event id of the message. */
  predicate Stored(c: Codec, s: State, m: Message) {
    c.parse(m.raw).Some? && c.parse(m.raw).value.id in s.table
  }

  /** How many dead letters a message has. */
  function Letters(s: State, m: Message): nat {
    multiset(s.letters)[DeadLetter(m.raw, m.topic)]
  }

  lemma {:induction false} SmoothRunsSort(c: Codec, steps: seq<Step>)
    requires Schedule(c, steps) && Smooth(steps)
    ensures Sorted(c, After(c, steps))
  {
    if steps != [] {
      SchedulePrefix(c, steps);
      SmoothRunsSort(c, steps[..|steps| - 1]);
      assert Smooth(steps[..|steps| - 1]);
      SmoothStepSorts(c, After(c, steps[..|steps| - 1]), steps[|steps| - 1]);
    }
  }

  lemma SmoothStepSorts(c: Codec, s: State, step: Step)
    requires Sorted(c, s) && Enabled(s, step) && Smooth([step])
    ensures Sorted(c, Next(c, s, step))
  {
    hide Next, Letters, Stored, Good;
    assert [step][0] == step;
    var s' := Next(c, s, step);
    StepMoves(c, s, step);
    forall m | m in s'.acknowledged && Good(c, m) ensures Stored(c, s', m) {
      if m in s.acknowledged { StoredStays(c, s, step, m); }
    }
    forall m: Message ensures Letters(s', m) == if Good(c, m) then 0 else s'.acknowledged[m] {
      LettersGrow(c, s, step, m);
    }
  }

  /** Where a step that does not fail takes its message. */
  lemma StepMoves(c: Codec, s: State, step: Step)
    requires Enabled(s, step) && Smooth([step])
    ensures var s', m := Next(c, s, step), multiset{step.m};
      && s'.unacknowledged == s.unacknowledged
      && (step.Deliver? ==> s'.acknowledged == s.acknowledged && s'.failed == s.failed)
      && (step.Insert? && Good(c, step.m) ==>
            s'.acknowledged == s.acknowledged + m && s'.failed == s.failed && Stored(c, s', step.m))
      && (step.Insert? && !Good(c, step.m) ==> s'.acknowledged == s.acknowledged && s'.failed == s.failed + m)
      && (step.Send? ==> s'.acknowledged == s.acknowledged + m && s'.failed == s.failed - m)
  {
    hide MeetsContract, ValidPayload, ValidEvent;
    assert [step][0] == step;
    GoodIsValid(c, step.m);
  }

  lemma StoredStays(c: Codec, s: State, step: Step, m: Message)
    requires Stored(c, s, m)
    ensures Stored(c, Next(c, s, step), m)
  {
    hide ValidEvent, Next;
    NextTable(c, s, step);
  }

  lemma LettersGrow(c: Codec, s: State, step: Step, m: Message)
    ensures Letters(Next(c, s, step), m) == Letters(s, m) + if step == Send(m, true) then 1 else 0
  {
    hide ValidEvent, Tried;
    var sent := DeadLetter(step.m.raw, step.m.topic);
    assert multiset(s.letters + [sent]) == multiset(s.letters) + multiset{sent};
  }

  /** In a smooth schedule at rest, every delivered message that is valid has its row. */
  lemma DeliveredRowsAreThere(c: Codec, steps: seq<Step>)
    requires Schedule(c, steps) && Smooth(steps) && AtRest(After(c, steps))
    ensures forall m :: m in Deliveries(steps) && ValidEvent(c, m).Some? ==> ValidEvent(c, m).value.id in After(c, steps).table
  {
    NothingIsLost(c, steps);
    SmoothRunsSort(c, steps);
    hide After, Schedule, Smooth, Deliveries, Letters, MeetsContract, ValidPayload, ValidEvent, Good;
    var s := After(c, steps);
    assert Deliveries(steps) == s.acknowledged;
    forall m | m in s.acknowledged && ValidEvent(c, m).Some? ensures ValidEvent(c, m).value.id in s.table {
      GoodIsValid(c, m);
    }
  }

  /** An event id identifies one message among those delivered. */
  ghost predicate Identified(c: Codec, delivered: multiset<Message>) {
    forall m, m' {:trigger ValidEvent(c, m), ValidEvent(c, m')} :: m in delivered && m' in delivered
      && ValidEvent(c, m).Some? && ValidEvent(c, m').Some? && ValidEvent(c, m).value.id == ValidEvent(c, m').value.id
      ==> ValidEvent(c, m) == ValidEvent(c, m')
  }

  /** In a smooth schedule that has come to rest, the table holds exactly one row for every valid
      message delivered, and nothing else. */
  lemma TableIsTheSetOfMessages(c: Codec, steps: seq<Step>, id: EventId)
    requires Schedule(c, steps) && Smooth(steps) && AtRest(After(c, steps)) && Identified(c, Deliveries(steps))
    ensures id in After(c, steps).table <==>
      exists m :: m in Deliveries(steps) && ValidEvent(c, m).Some? && ValidEvent(c, m).value.id == id
    ensures forall m :: m in Deliveries(steps) && ValidEvent(c, m).Some? && ValidEvent(c, m).value.id == id ==>
      id in After(c, steps).table && After(c, steps).table[id] == RowOf(c, ValidEvent(c, m).value.event)
  {
    DeliveredRowsAreThere(c, steps);
    if id in After(c, steps).table { var m := RowsComeFromMessages(c, steps, id); }
  }

  /** Confluence: two schedules that deliver the same messages, with any duplicates, in any order and
      interleaving, leave the same table. */
  lemma Confluence(c: Codec, steps: seq<Step>, steps': seq<Step>)
    requires Schedule(c, steps) && Smooth(steps) && AtRest(After(c, steps)) && Identified(c, Deliveries(steps))
    requires Schedule(c, steps') && Smooth(steps') && AtRest(After(c, steps')) && Identified(c, Deliveries(steps'))
    requires forall m :: m in Deliveries(steps) <==> m in Deliveries(steps')
    ensures After(c, steps).table == After(c, steps').table
  {
    var t, t' := After(c, steps).table, After(c, steps').table;
    forall id ensures (id in t <==> id in t') && (id in t ==> t[id] == t'[id]) {
      TableIsTheSetOfMessages(c, steps, id);
      TableIsTheSetOfMessages(c, steps', id);
    }
  }

  /** Once a smooth schedule has come to rest, delivering its messages again changes nothing in the
      table, however often that happens and whatever fails this time. */
  lemma {:induction false} RedeliveryChangesNothing(c: Codec, steps: seq<Step>, more: seq<Step>)
    requires Schedule(c, steps) && Smooth(steps) && AtRest(After(c, steps))
    requires forall i :: 0 <= i < |more| ==> more[i].m in Deliveries(steps)
    ensures After(c, steps + more).table == After(c, steps).table
    decreases |more|
  {
    hide After, Next, Schedule, Smooth, AtRest, ValidEvent, Deliveries;
    if more == [] {
      assert steps + more == steps;
    } else {
      var front, last := more[..|more| - 1], more[|more| - 1];
      RedeliveryChangesNothing(c, steps, front);
      DeliveredRowsAreThere(c, steps);
      assert last.m in Deliveries(steps);
      assert steps + more == (steps + front) + [last];
      KnownMessageChangesNothing(c, steps + front, last);
    }
  }

  lemma KnownMessageChangesNothing(c: Codec, steps: seq<Step>, step: Step)
    requires ValidEvent(c, step.m).Some? ==> ValidEvent(c, step.m).value.id in After(c, steps).table
    ensures After(c, steps + [step]).table == After(c, steps).table
  {
    hide Next, ValidEvent;
    assert (steps + [step])[..|steps|] == steps;
    NextTable(c, After(c, steps), step);
  }

  /** If two messages carry one event id, the first to be inserted wins, so the order decides. */
  lemma SharedIdsDependOnOrder(c: Codec, m: Message, m': Message)
    requires ValidEvent(c, m).Some? && ValidEvent(c, m').Some? && ValidEvent(c, m).value.id == ValidEvent(c, m').value.id
    ensures var steps := [Deliver(m), Insert(m, Inserted), Deliver(m'), Insert(m', Inserted)];
      var steps' := [Deliver(m'), Insert(m', Inserted), Deliver(m), Insert(m, Inserted)];
      After(c, steps).table == After(c, steps').table <==>
      RowOf(c, ValidEvent(c, m).value.event) == RowOf(c, ValidEvent(c, m').value.event)
  {
    TwoInserts(c, m, m');
    TwoInserts(c, m', m);
    var id := ValidEvent(c, m).value.id;
    var t, t' := map[id := RowOf(c, ValidEvent(c, m).value.event)], map[id := RowOf(c, ValidEvent(c, m').value.event)];
    assert t == t' <==> t[id] == t'[id];
  }

  /** What one more step does to the table. */
  lemma OneMore(c: Codec, steps: seq<Step>, step: Step)
    ensures var table, event := After(c, steps).table, ValidEvent(c, step.m);
      After(c, steps + [step]).table ==
        if step.Insert? && step.insertion != NotInserted && event.Some?
        then InsertOrIgnore(table, event.value.id, RowOf(c, event.value.event)) else table
  {
    hide ValidEvent, RowOf, InsertOrIgnore, Next;
    assert (steps + [step])[..|steps|] == steps;
    NextTable(c, After(c, steps), step);
  }

  lemma NextTable(c: Codec, s: State, step: Step)
    ensures Next(c, s, step).table == if step.Insert? then Tried(c, s.table, step.m, step.insertion) else s.table
  {
    hide ValidEvent, Tried;
  }

  lemma TwoInserts(c: Codec, m: Message, m': Message)
    requires ValidEvent(c, m).Some? && ValidEvent(c, m').Some? && ValidEvent(c, m).value.id == ValidEvent(c, m').value.id
    ensures After(c, [Deliver(m), Insert(m, Inserted), Deliver(m'), Insert(m', Inserted)]).table
      == map[ValidEvent(c, m).value.id := RowOf(c, ValidEvent(c, m).value.event)]
  {
    assert After(c, []) == START;
    var one, two, three := [Deliver(m)], [Deliver(m), Insert(m, Inserted)], [Deliver(m), Insert(m, Inserted), Deliver(m')];
    assert [] + [Deliver(m)] == one && one + [Insert(m, Inserted)] == two && two + [Deliver(m')] == three;
    assert three + [Insert(m', Inserted)] == [Deliver(m), Insert(m, Inserted), Deliver(m'), Insert(m', Inserted)];
    hide After, ValidEvent, RowOf;
    OneMore(c, [], Deliver(m));
    OneMore(c, one, Insert(m, Inserted));
    OneMore(c, two, Deliver(m'));
    OneMore(c, three, Insert(m', Inserted));
  }

  // ---------- Exactly when the order does not matter ----------

  /** One message handled from beginning to end, with nothing failing. */
  function Handling(c: Codec, m: Message): seq<Step> {
    [Deliver(m), Insert(m, Inserted)] + if ValidEvent(c, m).None? then [Send(m, true)] else []
  }

  function OneByOne(c: Codec, order: seq<Message>): seq<Step> {
    if order == [] then [] else OneByOne(c, order[..|order| - 1]) + Handling(c, order[|order| - 1])
  }

  lemma Extend(c: Codec, steps: seq<Step>, step: Step)
    requires Schedule(c, steps) && Smooth(steps) && Enabled(After(c, steps), step) && Smooth([step])
    ensures Schedule(c, steps + [step]) && Smooth(steps + [step])
    ensures After(c, steps + [step]) == Next(c, After(c, steps), step)
    ensures Deliveries(steps + [step]) == Deliveries(steps) + if step.Deliver? then multiset{step.m} else multiset{}
  {
    hide Next, Enabled;
    var longer := steps + [step];
    assert longer[..|steps|] == steps && [step][0] == step;
    forall i | 0 <= i < |longer| ensures Enabled(After(c, longer[..i]), longer[i]) {
      if i < |steps| { assert longer[..i] == steps[..i]; }
    }
  }

  /** From rest, the two or three steps of one message lead to rest. */
  lemma HandlingRests(c: Codec, s: State, m: Message)
    requires AtRest(s)
    ensures var s1 := Next(c, s, Deliver(m));
      var s2 := Next(c, s1, Insert(m, Inserted));
      && Enabled(s1, Insert(m, Inserted))
      && (ValidEvent(c, m).Some? ==> AtRest(s2))
      && (ValidEvent(c, m).None? ==> Enabled(s2, Send(m, true)) && AtRest(Next(c, s2, Send(m, true))))
  {
    hide ValidEvent, InsertOrIgnore, RowOf;
    assert multiset{} + multiset{m} == multiset{m} && multiset{m} - multiset{m} == multiset{};
  }

  function Kept(c: Codec, table: map<EventId, Row>, m: Message): map<EventId, Row> {
    var event := ValidEvent(c, m);
    if event.Some? then InsertOrIgnore(table, event.value.id, RowOf(c, event.value.event)) else table
  }

  lemma HandlingIs(c: Codec, steps: seq<Step>, m: Message)
    ensures var tried := steps + [Deliver(m)] + [Insert(m, Inserted)];
      steps + Handling(c, m) == if ValidEvent(c, m).None? then tried + [Send(m, true)] else tried
    ensures Smooth([Deliver(m)]) && Smooth([Insert(m, Inserted)]) && Smooth([Send(m, true)])
    ensures Enabled(After(c, steps), Deliver(m))
  {
    hide ValidEvent, After;
    assert [Deliver(m), Insert(m, Inserted)] == [Deliver(m)] + [Insert(m, Inserted)];
  }

  /** Handling one more message from rest comes to rest again, and inserts its row if it is valid and
      new. */
  lemma HandleOne(c: Codec, steps: seq<Step>, m: Message)
    requires Schedule(c, steps) && Smooth(steps) && AtRest(After(c, steps))
    ensures var longer := steps + Handling(c, m);
      && Schedule(c, longer) && Smooth(longer) && AtRest(After(c, longer))
      && Deliveries(longer) == Deliveries(steps) + multiset{m}
      && After(c, longer).table == Kept(c, After(c, steps).table, m)
  {
    var s := After(c, steps);
    var arrived := steps + [Deliver(m)];
    var tried := arrived + [Insert(m, Inserted)];
    var sent := tried + [Send(m, true)];
    hide Next, After, Schedule, Smooth, Deliveries, AtRest, Enabled, ValidEvent, InsertOrIgnore, RowOf, Handling;
    HandlingIs(c, steps, m);
    HandlingRests(c, s, m);
    Extend(c, steps, Deliver(m));
    NextTable(c, s, Deliver(m));
    Extend(c, arrived, Insert(m, Inserted));
    NextTable(c, After(c, arrived), Insert(m, Inserted));
    if ValidEvent(c, m).None? {
      Extend(c, tried, Send(m, true));
      NextTable(c, After(c, tried), Send(m, true));
    }
  }

  /** Messages handled one by one in some order make a smooth schedule that comes to rest. */
  lemma {:induction false} OneByOneRuns(c: Codec, order: seq<Message>)
    ensures var steps := OneByOne(c, order);
      Schedule(c, steps) && Smooth(steps) && AtRest(After(c, steps)) && Deliveries(steps) == multiset(order)
  {
    if order != [] {
      var front, last := order[..|order| - 1], order[|order| - 1];
      assert OneByOne(c, order) == OneByOne(c, front) + Handling(c, last);
      assert multiset(order) == multiset(front) + multiset{last} by { assert order == front + [last]; }
      hide Schedule, Smooth, AtRest, After, Handling, OneByOne, Deliveries;
      OneByOneRuns(c, front);
      HandleOne(c, OneByOne(c, front), last);
    }
  }

  /** The first of them keeps its row. */
  lemma {:induction false} FirstKeepsItsRow(c: Codec, order: seq<Message>)
    requires order != [] && ValidEvent(c, order[0]).Some?
    ensures var e, table := ValidEvent(c, order[0]).value, After(c, OneByOne(c, order)).table;
      e.id in table && table[e.id] == RowOf(c, e.event)
  {
    hide Schedule, Smooth, AtRest, After, Handling, Deliveries, ValidEvent, RowOf;
    var front, last := order[..|order| - 1], order[|order| - 1];
    assert OneByOne(c, order) == OneByOne(c, front) + Handling(c, last);
    hide OneByOne;
    OneByOneRuns(c, front);
    HandleOne(c, OneByOne(c, front), last);
    if front == [] {
      NothingYet(c);
    } else {
      assert order[0] == front[0];
      FirstKeepsItsRow(c, front);
    }
  }

  lemma NothingYet(c: Codec)
    ensures After(c, OneByOne(c, [])).table == map[]
  {}

  /** A smooth schedule at rest that has delivered these messages, any number of times each. */
  ghost predicate Settles(c: Codec, delivered: seq<Message>, steps: seq<Step>) {
    Schedule(c, steps) && Smooth(steps) && AtRest(After(c, steps)) && forall m :: m in Deliveries(steps) <==> m in delivered
  }

  /** All smooth schedules that deliver these messages leave one table, whatever the order, duplicates
      and interleaving, if and only if every event id among them identifies one event. */
  lemma ConfluentExactly(c: Codec, delivered: seq<Message>)
    ensures (forall steps, steps' :: Settles(c, delivered, steps) && Settles(c, delivered, steps') ==>
               After(c, steps).table == After(c, steps').table)
            <==> Identified(c, multiset(delivered))
  {
    hide Schedule, Smooth, AtRest, After, ValidEvent, Deliveries;
    if Identified(c, multiset(delivered)) {
      forall steps, steps' | Settles(c, delivered, steps) && Settles(c, delivered, steps')
        ensures After(c, steps).table == After(c, steps').table
      {
        assert forall m :: m in Deliveries(steps) <==> m in multiset(delivered);
        assert forall m :: m in Deliveries(steps') <==> m in multiset(delivered);
        Confluence(c, steps, steps');
      }
    } else {
      var m, m' :| m in delivered && m' in delivered && ValidEvent(c, m).Some? && ValidEvent(c, m').Some?
        && ValidEvent(c, m).value.id == ValidEvent(c, m').value.id && ValidEvent(c, m) != ValidEvent(c, m');
      var steps := FirstComes(c, delivered, m);
      var steps' := FirstComes(c, delivered, m');
      DifferentRows(c, ValidEvent(c, m).value.event, ValidEvent(c, m').value.event);
      assert After(c, steps).table[ValidEvent(c, m).value.id] != After(c, steps').table[ValidEvent(c, m).value.id];
    }
  }

  lemma FirstComes(c: Codec, delivered: seq<Message>, m: Message) returns (steps: seq<Step>)
    requires m in delivered && ValidEvent(c, m).Some?
    ensures Settles(c, delivered, steps)
    ensures var e, table := ValidEvent(c, m).value, After(c, steps).table; e.id in table && table[e.id] == RowOf(c, e.event)
  {
    steps := OneByOne(c, [m] + delivered);
    OneByOneRuns(c, [m] + delivered);
    FirstKeepsItsRow(c, [m] + delivered);
    hide Schedule, Smooth, AtRest, After, ValidEvent, OneByOne;
    forall x ensures x in Deliveries(steps) <==> x in delivered {
      assert x in multiset([m] + delivered) <==> x in [m] + delivered;
    }
  }

  lemma DifferentRows(c: Codec, e: DomainEvent, e': DomainEvent)
    requires e != e'
    ensures RowOf(c, e) != RowOf(c, e')
  {}
}
