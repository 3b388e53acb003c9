/** The account life cycle: what each status permits and where it may go next. */
module AccountState {
  import opened Wrappers

  datatype Status = PENDING | ACTIVE | FROZEN | CLOSED

  datatype Action = Activate | Freeze | Unfreeze | Close

  predicate CanDeposit(s: Status) {
    s != CLOSED
  }

  predicate CanWithdraw(s: Status) {
    s == ACTIVE
  }

  /** The status an action leads to; None is the illegal-transition error. */
  function Transition(s: Status, action: Action, balance: int): Option<Status> {
    match (s, action)
    case (PENDING, Activate) => Some(ACTIVE)
    case (ACTIVE, Freeze) => Some(FROZEN)
    case (FROZEN, Unfreeze) => Some(ACTIVE)
    case (CLOSED, _) => None
    case (_, Close) => if balance != 0 then None else Some(CLOSED)
    case _ => None
  }

  /** The whole diagram: four moves, closing from the open states on an empty balance only. */
  lemma DiagramIsExactly(s: Status, action: Action, balance: int, next: Status)
    ensures Transition(s, action, balance) == Some(next) <==>
      || (s == PENDING && action == Activate && next == ACTIVE)
      || (s == ACTIVE && action == Freeze && next == FROZEN)
      || (s == FROZEN && action == Unfreeze && next == ACTIVE)
      || (s != CLOSED && action == Close && balance == 0 && next == CLOSED)
  {}

  /** The states a run of actions passes through, all on an unchanging balance. */
  function Trajectory(s: Status, actions: seq<Action>, balance: int): Option<Status>
    decreases |actions|
  {
    if actions == [] then Some(s)
    else match Transition(s, actions[0], balance)
      case None => None
      case Some(next) => Trajectory(next, actions[1..], balance)
  }

  /** CLOSED is terminal, nobody returns to PENDING, and only an empty account closes. */
  lemma {:induction false} TrajectoriesRespectTheDiagram(s: Status, actions: seq<Action>, balance: int)
    requires Trajectory(s, actions, balance).Some? && actions != []
    ensures s != CLOSED
    ensures Trajectory(s, actions, balance).value != PENDING
    ensures Trajectory(s, actions, balance) == Some(CLOSED) ==> balance == 0 && actions[|actions| - 1] == Close
    decreases |actions|
  {
    var next := Transition(s, actions[0], balance).value;
    if actions[1..] != [] {
      TrajectoriesRespectTheDiagram(next, actions[1..], balance);
    }
  }
}
