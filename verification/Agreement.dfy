/** The Engine's classifier and the contract's arbitration are the same rule. */
module Agreement {
  import opened Machine
  import opened Types
  import opened Contract
  import opened WellFormedness
  import opened Pipeline
  import opened Discovery

  /** The role that names a region. */
  function RoleIn(region: Region): Option<Role> {
    match region
    case PreWindow => None
    case DesignatedWindow => Some(Designated)
    case Grace => Some(Secondary)
    case PostGrace => Some(PostGraceOpen)
  }

  /** What the contract would let a registered node do with a task at a ledger. */
  function ContractRole(node: Address, t: RemoteTask, ledger: u32): Option<Role> {
    var region := RegionAt(t.next, ledger);
    if Refusal(region, node == t.designated, true).None? then RoleIn(region) else None
  }

  lemma ClassifierMatchesContract(node: Address, t: RemoteTask, ledger: u32)
    requires FitsU32(t.next + 50)
    ensures Classify(node, t, ledger, false) == ContractRole(node, t, ledger)
  {
  }

  /** The classifier agrees with the contract for every node and ledger exactly when
      `next + 50` fits in 32 bits; otherwise the wrapped sum misleads it. */
  lemma AgreementIff(next: u32)
    ensures
      (forall node: Address, designated: Address, id: TaskId, ledger: u32 ::
         Classify(node, RemoteTask(id, next, designated), ledger, false)
         == ContractRole(node, RemoteTask(id, next, designated), ledger))
      <==> FitsU32(next + 50)
  {
    if !FitsU32(next + 50) {
      var t := RemoteTask([], next, "d");
      assert Classify("n", t, next, false) == Some(PostGraceOpen);
      assert ContractRole("n", t, next) == None;
    } else {
      forall node: Address, designated: Address, id: TaskId, ledger: u32
        ensures Classify(node, RemoteTask(id, next, designated), ledger, false)
          == ContractRole(node, RemoteTask(id, next, designated), ledger)
      {
        ClassifierMatchesContract(node, RemoteTask(id, next, designated), ledger);
      }
    }
  }

  /** On its own the monitor steps in up to 50 ledgers after the window, for a task that is
      neither its node's nor in flight. */
  lemma MonitorStepsInIff(node: Address, t: RemoteTask, ledger: u32, busy: bool)
    ensures Evaluate(node, t, ledger, busy) ==
      if ledger <= t.next + 50 && node != t.designated && !busy then Some(Secondary) else None
  {
  }

  /** The monitor's own "more than 50 elapsed" exit is never taken from the classifier. */
  lemma LateExitUnreachable(node: Address, t: RemoteTask, ledger: u32, busy: bool)
    requires ledger > t.next && ledger <= WrapU32(t.next + 50)
    ensures SaturatingSub(ledger, t.next) <= 50
    ensures Evaluate(node, t, ledger, busy) == if node == t.designated || busy then None else Some(Secondary)
  {
    assert FitsU32(t.next + 50) || WrapU32(t.next + 50) < t.next;
  }

  /** The tasks not in flight that the contract admits this node to, in order, each with
      its role. */
  function ContractPlan(node: Address, tasks: seq<RemoteTask>, ledger: u32, busy: set<TaskId>): seq<Dispatch> {
    if tasks == [] then []
    else
      var t := tasks[|tasks| - 1];
      var role := if t.id in busy then None else ContractRole(node, t, ledger);
      ContractPlan(node, tasks[..|tasks| - 1], ledger, busy)
      + if role.Some? then [Dispatch(t.id, role.value)] else []
  }

  /** A whole ledger advance submits exactly what the contract admits and is not in flight. */
  lemma {:induction false} PlanMatchesContract(node: Address, tasks: seq<RemoteTask>, ledger: u32, busy: set<TaskId>)
    requires forall i :: 0 <= i < |tasks| ==> FitsU32(tasks[i].next + 50)
    ensures Plan(node, tasks, ledger, busy) == ContractPlan(node, tasks, ledger, busy)
  {
    if tasks != [] {
      var init, t := tasks[..|tasks| - 1], tasks[|tasks| - 1];
      assert forall i :: 0 <= i < |init| ==> init[i] == tasks[i];
      PlanMatchesContract(node, init, ledger, busy);
      ClassifierMatchesContract(node, t, ledger);
    }
  }

  function Remote(t: Task): RemoteTask
    requires FitsU32(t.next)
  {
    RemoteTask(t.id, t.next, t.designated)
  }

  /** End to end, in every reachable state: given authorisation, a returning Drip List,
      funds, and no zero-stake designated keeper in grace, the Engine of a registered
      node dispatches a stored task exactly when submitting it now would succeed. */
  lemma DispatchIffExecutes(h: Host, start: u32, steps: seq<Step>, id: TaskId, node: Address)
    requires
      var s := Run(h, Genesis(start), steps);
      && id in s.tasks && node in s.keepers
      && FitsU32(s.ledger) && 0 <= s.tasks[id].next && FitsU32(s.tasks[id].next + 50)
      && s.tasks[id].reward + Bonus(h, s, s.tasks[id]) <= Balance(s.balances, h.self)
      && !ZeroStakeInGrace(s, s.tasks[id])
    ensures
      var s := Run(h, Genesis(start), steps);
      Classify(node, Remote(s.tasks[id]), s.ledger, false).Some? <==> ExecuteOutcome(h, s, id, node, true, true).Ok?
  {
    var s := Run(h, Genesis(start), steps);
    ReachableWellFormed(h, start, steps);
    ExecuteOkIffExecutable(h, start, steps, id, node, true, true);
    ClassifierMatchesContract(node, Remote(s.tasks[id]), s.ledger);
  }
}
