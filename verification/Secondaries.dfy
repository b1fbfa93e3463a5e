/** Who may step in during a grace period: when a keeper registered does not matter. */
module Secondaries {
  import opened Machine
  import opened Types
  import opened Contract
  import opened WellFormedness
  import opened Stakes
  import opened Scenario

  /** The ledger a keeper registered at, as the log records it. */
  function RegisteredAt(log: seq<Entry>, k: Address): Option<int> {
    if log == [] then None
    else
      var last := log[|log| - 1];
      if last.event.KeeperRegistered? && last.event.keeper == k then Some(last.ledger)
      else RegisteredAt(log[..|log| - 1], k)
  }

  lemma RegisteredAtAppend(log: seq<Entry>, x: Entry, k: Address)
    ensures RegisteredAt(log + [x], k) ==
      if x.event.KeeperRegistered? && x.event.keeper == k then Some(x.ledger) else RegisteredAt(log, k)
  {
    assert (log + [x])[..|log + [x]| - 1] == log;
  }

  lemma RegisteredAtStep(h: Host, s: State, step: Step, k: Address)
    ensures RegisteredAt(Apply(h, s, step).log, k) ==
      if RegistersKeeper(h, s, step, k) then Some(s.ledger) else RegisteredAt(s.log, k)
  {
    if Succeeds(h, s, step) {
      match step
      case Register(keeper, stake, _) =>
        RegisteredAtAppend(s.log, Stamp(s, KeeperRegistered(keeper, stake)), k);
      case Provision(dripList, interval, reward, d, _) =>
        RegisteredAtAppend(s.log, Stamp(s, TaskProvisioned(NextTaskId(h, s), dripList, interval, reward, d)), k);
      case Execute(id, caller, _, _) =>
        var entries := ExecutionEntries(h, s, id, caller);
        RegisteredAtAppend(s.log, entries[0], k);
        if |entries| == 2 {
          RegisteredAtAppend(s.log + [entries[0]], entries[1], k);
          assert s.log + [entries[0]] + [entries[1]] == s.log + entries;
        } else {
          assert s.log + [entries[0]] == s.log + entries;
        }
      case _ =>
    }
  }

  /** The registered keepers are exactly those with a registration ledger, never a future one. */
  lemma {:induction false} RegistrationLedgerKnown(h: Host, start: u32, steps: seq<Step>, k: Address)
    ensures
      var s := Run(h, Genesis(start), steps);
      && (k in s.keepers <==> RegisteredAt(s.log, k).Some?)
      && (RegisteredAt(s.log, k).Some? ==> start <= RegisteredAt(s.log, k).value <= s.ledger)
      && start <= s.ledger
  {
    if steps != [] {
      var init, last := steps[..|steps| - 1], steps[|steps| - 1];
      var s := Run(h, Genesis(start), init);
      RegistrationLedgerKnown(h, start, init, k);
      ReachableWellFormed(h, start, init);
      RegisteredAtStep(h, s, last, k);
      LedgerStep(h, s, last);
      if k in s.keepers { StakeStep(h, s, last, k); } else { UnregisteredStep(h, s, last, k); }
    }
  }

  /** "Only a keeper registered before T may execute in the grace period of T." */
  ghost predicate RegisteredBefore(s: State, k: Address, ledger: int) {
    RegisteredAt(s.log, k).Some? && RegisteredAt(s.log, k).value < ledger
  }

  ghost predicate DocumentedExecutable(h: Host, s: State, id: TaskId, caller: Address, auth: bool, dripReturns: bool) {
    && Executable(h, s, id, caller, auth, dripReturns)
    && (RegionAt(s.tasks[id].next, s.ledger).Grace? ==> RegisteredBefore(s, caller, s.tasks[id].next))
  }

  /** In every reachable state a grace execution that everything else allows succeeds
      whatever ledger its caller registered at; it obeys the documented rule exactly
      when that ledger is before the window. */
  lemma GraceIgnoresRegistrationLedger(h: Host, start: u32, steps: seq<Step>, id: TaskId, caller: Address)
    requires
      var s := Run(h, Genesis(start), steps);
      && id in s.tasks && RegionAt(s.tasks[id].next, s.ledger).Grace?
      && caller in s.keepers && caller != s.tasks[id].designated
      && s.tasks[id].reward + Bonus(h, s, s.tasks[id]) <= Balance(s.balances, h.self)
      && !ZeroStakeInGrace(s, s.tasks[id])
    ensures
      var s := Run(h, Genesis(start), steps);
      && ExecuteOutcome(h, s, id, caller, true, true).Ok?
      && RegisteredAt(s.log, caller).Some?
      && (DocumentedExecutable(h, s, id, caller, true, true) <==> RegisteredAt(s.log, caller).value < s.tasks[id].next)
  {
    ReachableWellFormed(h, start, steps);
    RegistrationLedgerKnown(h, start, steps, caller);
    ExecuteOkIffExecutable(h, start, steps, id, caller, true, true);
  }

  /** The contract accepts a call exactly when the documented rule does, unless the call
      is executable, in grace, and its caller registered at or after the window. */
  lemma DocumentedSecondaryRuleIff(h: Host, start: u32, steps: seq<Step>,
                                   id: TaskId, caller: Address, auth: bool, dripReturns: bool)
    ensures
      var s := Run(h, Genesis(start), steps);
      (ExecuteOutcome(h, s, id, caller, auth, dripReturns).Ok?
       <==> DocumentedExecutable(h, s, id, caller, auth, dripReturns))
      <==> !(Executable(h, s, id, caller, auth, dripReturns) && RegionAt(s.tasks[id].next, s.ledger).Grace?
             && RegisteredAt(s.log, caller).Some? && s.tasks[id].next <= RegisteredAt(s.log, caller).value)
  {
    ReachableWellFormed(h, start, steps);
    RegistrationLedgerKnown(h, start, steps, caller);
    ExecuteOkIffExecutable(h, start, steps, id, caller, auth, dripReturns);
  }

  /** The whole failing family: in any reachable state with a task in its grace period,
      the Anchor funded and a non-zero stake to slash, anybody can register right now
      and execute, against the documented rule. */
  lemma LateRegistrantExecutes(h: Host, start: u32, steps: seq<Step>, id: TaskId, late: Step)
    requires late.Register?
    requires
      var s := Run(h, Genesis(start), steps);
      && id in s.tasks && RegionAt(s.tasks[id].next, s.ledger).Grace?
      && Succeeds(h, s, late)
      && s.tasks[id].reward + Bonus(h, s, s.tasks[id]) <= Balance(s.balances, h.self)
      && !ZeroStakeInGrace(s, s.tasks[id])
    ensures
      var s' := Run(h, Genesis(start), steps + [late]);
      && ExecuteOutcome(h, s', id, late.keeper, true, true).Ok?
      && !DocumentedExecutable(h, s', id, late.keeper, true, true)
  {
    var s, s' := Run(h, Genesis(start), steps), Run(h, Genesis(start), steps + [late]);
    RunSnoc(h, Genesis(start), steps, late);
    ReachableWellFormed(h, start, steps);
    assert TaskWellFormed(s, id);
    RegisteredAtStep(h, s, late, late.keeper);
    GraceIgnoresRegistrationLedger(h, start, steps + [late], id, late.keeper);
  }

  /** One such history: the secondary registers at ledger 2, after the window at ledger 1. */
  lemma LateSecondaryIsAccepted(h: Host)
    ensures
      var f := Outsider(h, 'f');
      var steps := MissedWindow(h, false, 0, 5, 10) + [Register(f, 5, true)];
      var s := Run(h, Genesis(0), steps);
      && RegisteredAt(s.log, f) == Some(2)
      && TheTask(h) in s.tasks && s.tasks[TheTask(h)].next == 1
      && ExecuteOutcome(h, s, TheTask(h), f, true, true).Ok?
      && !DocumentedExecutable(h, s, TheTask(h), f, true, true)
  {
    var f, setup := Outsider(h, 'f'), MissedWindow(h, false, 0, 5, 10);
    var s := Run(h, Genesis(0), setup);
    DistinctOutsiders(h);
    MissedWindowState(h, false, 0, 5, 10);
    RunSnoc(h, Genesis(0), setup, Register(f, 5, true));
    RegisteredAtStep(h, s, Register(f, 5, true), f);
    assert Bonus(h, s, s.tasks[TheTask(h)]) == 0;
    LateRegistrantExecutes(h, 0, setup, TheTask(h), Register(f, 5, true));
  }
}
