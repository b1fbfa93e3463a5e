/** What every reachable state looks like, and when an execution succeeds in one. */
module WellFormedness {
  import opened Machine
  import opened Types
  import opened Contract

  ghost predicate WellFormed(h: Host, s: State) {
    && FitsU32(s.ledger)
    && (s.admin.Some? <==> s.token.Some?)
    && (s.admin.Some? <==> s.minStake.Some?)
    && (s.tasks != map[] ==> s.admin.Some?)
    && h.self !in s.keepers
    && (forall a :: a in s.keepers ==> s.keepers[a].address == a)
    && (forall id :: id in s.tasks ==> TaskWellFormed(s, id))
  }

  ghost predicate TaskWellFormed(s: State, id: TaskId)
    requires id in s.tasks
  {
    var t := s.tasks[id];
    t.id == id && t.designated in s.keepers && 0 < t.interval <= U32_MAX && t.reward > 0
  }

  lemma WellFormedProvision(h: Host, s: State, dripList: Address, interval: int, reward: int, d: Address)
    requires WellFormed(h, s) && s.admin.Some? && d in s.keepers && 0 < interval <= U32_MAX && reward > 0
    ensures WellFormed(h, Provisioned(h, s, dripList, interval, reward, d))
  {
    var s' := Provisioned(h, s, dripList, interval, reward, d);
    forall id | id in s'.tasks ensures TaskWellFormed(s', id) {
      if id in s.tasks { assert TaskWellFormed(s, id); }
    }
  }

  lemma WellFormedExecution(h: Host, s: State, ran: TaskId, caller: Address)
    requires WellFormed(h, s) && ran in s.tasks && caller in s.keepers
    ensures WellFormed(h, Executed(h, s, ran, caller))
    ensures Executed(h, s, ran, caller).keepers.Keys == s.keepers.Keys
    ensures Executed(h, s, ran, caller).tasks.Keys == s.tasks.Keys
  {
    var s' := Executed(h, s, ran, caller);
    assert TaskWellFormed(s, ran);
    forall id | id in s'.tasks ensures TaskWellFormed(s', id) {
      assert TaskWellFormed(s, id);
    }
  }

  lemma WellFormedStep(h: Host, s: State, step: Step)
    requires WellFormed(h, s)
    ensures WellFormed(h, Apply(h, s, step))
    ensures s.keepers.Keys <= Apply(h, s, step).keepers.Keys
    ensures s.tasks.Keys <= Apply(h, s, step).tasks.Keys
  {
    if Succeeds(h, s, step) {
      match step
      case Provision(dripList, interval, reward, d, _) => WellFormedProvision(h, s, dripList, interval, reward, d);
      case Execute(id, caller, _, _) => WellFormedExecution(h, s, id, caller);
      case _ =>
    }
  }

  /** Every reachable state is well formed, in either arithmetic. */
  lemma {:induction false} ReachableWellFormed(h: Host, start: u32, steps: seq<Step>)
    ensures WellFormed(h, Run(h, Genesis(start), steps))
  {
    if steps != [] {
      var init := steps[..|steps| - 1];
      ReachableWellFormed(h, start, init);
      WellFormedStep(h, Run(h, Genesis(start), init), steps[|steps| - 1]);
    }
  }

  /** The conditions under which an execution goes through. */
  ghost predicate Executable(h: Host, s: State, id: TaskId, caller: Address, auth: bool, dripReturns: bool) {
    && id in s.tasks
    && Authorised(h, caller, auth)
    && Admits(s, s.tasks[id], caller)
    && dripReturns
    && s.tasks[id].reward + Bonus(h, s, s.tasks[id]) <= Balance(s.balances, h.self)
    && !ZeroStakeInGrace(s, s.tasks[id])
  }

  ghost predicate ZeroStakeInGrace(s: State, t: Task) {
    RegionAt(t.next, s.ledger).Grace? && t.designated in s.keepers && s.keepers[t.designated].stake == 0
  }

  /** In a reachable state `Ok` means exactly `Executable`; a caller that passed
      arbitration is always found in the registry, and the only traps are refused
      authorisation and a failing Drip List: the token address is always set. */
  lemma ExecuteOkIffExecutable(h: Host, start: u32, steps: seq<Step>,
                               id: TaskId, caller: Address, auth: bool, dripReturns: bool)
    ensures
      var s := Run(h, Genesis(start), steps);
      var r := ExecuteOutcome(h, s, id, caller, auth, dripReturns);
      && (r.Ok? <==> Executable(h, s, id, caller, auth, dripReturns))
      && r != Err(KeeperNotFound)
      && (r.Trap? ==> !Authorised(h, caller, auth) || !dripReturns)
      && (!r.Ok? ==> Apply(h, s, Execute(id, caller, auth, dripReturns)) == s)
  {
    ReachableWellFormed(h, start, steps);
    var s := Run(h, Genesis(start), steps);
    if id in s.tasks { assert TaskWellFormed(s, id); }
  }

  /** The registry after a successful execution: the designated keeper is slashed
      in the grace region and only there, and a different keeper is credited. */
  lemma ExecutedRegistry(h: Host, s: State, id: TaskId, caller: Address, auth: bool, dripReturns: bool)
    requires WellFormed(h, s)
    requires ExecuteOutcome(h, s, id, caller, auth, dripReturns).Ok?
    ensures
      var t := s.tasks[id];
      var s' := Executed(h, s, id, caller);
      var credited := CreditedKeeper(h.arith, s.keepers[caller], s.ledger);
      && t.designated in s.keepers && caller != h.self && t.id == id
      && t.next <= s.ledger
      && s'.tasks == s.tasks[id := t.(next := h.arith.U32(s.ledger + t.interval))]
      && if RegionAt(t.next, s.ledger).Grace? then
           && t.designated != caller && s.keepers[t.designated].stake != 0
           && s'.keepers == s.keepers[t.designated := SlashedKeeper(h.arith, s.keepers[t.designated])][caller := credited]
         else
           s'.keepers == s.keepers[caller := credited]
  {
    assert TaskWellFormed(s, id);
  }
}
