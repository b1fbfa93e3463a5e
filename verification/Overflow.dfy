/** Runs with bounded inputs never overflow: the compiled arithmetic is the exact one. */
module Overflow {
  import opened Machine
  import opened Types
  import opened Slashing
  import opened Contract
  import opened Tallies
  import opened WellFormedness
  import opened Stakes
  import opened Accounting
  import opened Schedule

  /** Every sum and product the code forms for a slash of this stake, into this treasury. */
  predicate SlashFits(stake: int, treasury: int) {
    && FitsI128(stake * 5)
    && FitsI128(stake - SlashAmount(Exact, stake))
    && FitsI128(SlashAmount(Exact, stake) - SecondaryReward(Exact, stake))
    && FitsI128(treasury + TreasuryPortion(Exact, stake))
  }

  /** Every intermediate value a step computes fits its machine type, whether or
      not the step then succeeds. */
  ghost predicate NoOverflow(s: State, step: Step) {
    match step
    case Provision(_, interval, _, _, _) => FitsU32(s.counter + 1) && FitsU32(s.ledger + interval)
    case Execute(id, caller, _, _) =>
      id in s.tasks ==>
        var t := s.tasks[id];
        && FitsU32(s.ledger + t.interval)
        && (caller in s.keepers ==> FitsU64(s.keepers[caller].executions + 1))
        && (t.designated in s.keepers ==> SlashFits(s.keepers[t.designated].stake, s.treasury))
    case _ => true
  }

  lemma SlashAgrees(stake: int, treasury: int)
    requires SlashFits(stake, treasury)
    ensures SlashAmount(Release, stake) == SlashAmount(Exact, stake)
    ensures StakeAfterSlash(Release, stake) == StakeAfterSlash(Exact, stake)
    ensures SecondaryReward(Release, stake) == SecondaryReward(Exact, stake)
    ensures TreasuryPortion(Release, stake) == TreasuryPortion(Exact, stake)
    ensures WrapI128(treasury + TreasuryPortion(Release, stake)) == treasury + TreasuryPortion(Exact, stake)
  {
  }

  /** A slash inside an execution has the same effect in both arithmetics. */
  lemma SlashPartsAgree(h: Host, s: State, id: TaskId, caller: Address)
    requires h.arith.Exact? && id in s.tasks && s.tasks[id].designated in s.keepers
    requires SlashFits(s.keepers[s.tasks[id].designated].stake, s.treasury)
    ensures
      var t, r := s.tasks[id], h.(arith := Release);
      && Bonus(r, s, t) == Bonus(h, s, t)
      && SlashOutcome(Release, s.keepers, t.designated) == SlashOutcome(Exact, s.keepers, t.designated)
      && KeepersAfterSlash(r, s, t) == KeepersAfterSlash(h, s, t)
      && TreasuryAfterSlash(r, s, t) == TreasuryAfterSlash(h, s, t)
      && ExecutionEntries(r, s, id, caller) == ExecutionEntries(h, s, id, caller)
  {
    SlashAgrees(s.keepers[s.tasks[id].designated].stake, s.treasury);
  }

  lemma OutcomeAgrees(h: Host, s: State, id: TaskId, caller: Address, auth: bool, dripReturns: bool)
    requires h.arith.Exact? && WellFormed(h, s) && NoOverflow(s, Execute(id, caller, auth, dripReturns))
    ensures ExecuteOutcome(h.(arith := Release), s, id, caller, auth, dripReturns)
      == ExecuteOutcome(h, s, id, caller, auth, dripReturns)
  {
    if id in s.tasks {
      assert TaskWellFormed(s, id);
      SlashPartsAgree(h, s, id, caller);
    }
  }

  lemma ExecutedAgrees(h: Host, s: State, id: TaskId, caller: Address)
    requires h.arith.Exact? && WellFormed(h, s) && id in s.tasks && caller in s.keepers
    requires NoOverflow(s, Execute(id, caller, true, true))
    ensures Executed(h.(arith := Release), s, id, caller) == Executed(h, s, id, caller)
  {
    assert TaskWellFormed(s, id);
    SlashPartsAgree(h, s, id, caller);
    var t := s.tasks[id];
    assert KeepersAfterSlash(h, s, t)[caller].executions == s.keepers[caller].executions;
  }

  lemma StepAgrees(h: Host, s: State, step: Step)
    requires h.arith.Exact? && WellFormed(h, s) && NoOverflow(s, step)
    ensures Apply(h.(arith := Release), s, step) == Apply(h, s, step)
  {
    if step.Execute? {
      OutcomeAgrees(h, s, step.id, step.caller, step.auth, step.dripReturns);
      if Succeeds(h, s, step) { ExecutedAgrees(h, s, step.id, step.caller); }
    }
  }

  // ---- Bounded runs, of any length ----

  /** Inputs of a run: no configured minimum is negative, no interval exceeds `cap`. */
  predicate Modest(steps: seq<Step>, cap: int) {
    MinimumAtLeast(steps, 0) && IntervalsWithin(steps, cap)
  }

  /** What can be read off the state a run has reached: the current ledger leaves room
      for an interval, and the log holds at most i128::MAX/5 of registered stake, and
      fewer provisions and executions than their counters can count. */
  ghost predicate Bounded(s: State, cap: int) {
    && s.ledger + cap <= U32_MAX
    && Tally(s.log, StakeRegistered) <= MAX_EXACT_STAKE
    && Tally(s.log, Provisions) < U32_MAX
    && Tally(s.log, Executions) < U64_MAX
  }

  lemma ModestPrefix(steps: seq<Step>, cap: int, n: nat)
    requires n <= |steps| && Modest(steps, cap)
    ensures Modest(steps[..n], cap)
  {
    assert forall i :: 0 <= i < n ==> steps[..n][i] == steps[i];
  }

  /** A step never relaxes a bound, in either arithmetic. */
  lemma BoundedBefore(h: Host, s: State, step: Step, cap: int)
    requires MinStakeInForce(s) >= 0 && Bounded(Apply(h, s, step), cap)
    ensures Bounded(s, cap)
  {
    TallyStep(h, s, step, StakeRegistered);
    TallyStep(h, s, step, Provisions);
    TallyStep(h, s, step, Executions);
    ProvisionsWeight(h, s, step);
    ExecutionsWeight(h, s, step);
    RegisteredWeight(h, s, step);
    LedgerStep(h, s, step);
  }

  lemma RegisteredWeight(h: Host, s: State, step: Step)
    requires MinStakeInForce(s) >= 0
    ensures StepWeight(h, s, step, StakeRegistered) >= 0
  {
  }

  /** So a bounded run has only bounded prefixes. */
  lemma {:induction false} BoundedPrefix(h: Host, start: u32, first: seq<Step>, more: seq<Step>, cap: int)
    requires Modest(first + more, cap) && Bounded(Run(h, Genesis(start), first + more), cap)
    ensures Modest(first, cap) && Bounded(Run(h, Genesis(start), first), cap)
    decreases |more|
  {
    assert first == (first + more)[..|first|];
    ModestPrefix(first + more, cap, |first|);
    if more == [] {
      assert first + more == first;
    } else {
      var init, last := more[..|more| - 1], more[|more| - 1];
      assert (first + more)[..|first + more| - 1] == first + init;
      ModestPrefix(first + more, cap, |first + init|);
      RegisteredAtLeast(h, start, first + init, "", 0);
      BoundedBefore(h, Run(h, Genesis(start), first + init), last, cap);
      BoundedPrefix(h, start, first, init, cap);
    }
  }

  /** What a modest run keeps true in exact arithmetic, however long it is. */
  ghost predicate InRange(s: State, cap: int) {
    && MinStakeInForce(s) >= 0
    && s.ledger >= 0
    && s.counter == Tally(s.log, Provisions) >= 0
    && s.treasury >= 0
    && Tally(s.log, SecondaryRewards) >= 0
    && (forall a :: a in s.keepers ==> s.keepers[a].stake >= 0)
    && (forall id :: id in s.tasks ==> 0 < s.tasks[id].interval <= cap)
  }

  lemma InRangeExecution(h: Host, s: State, id: TaskId, caller: Address, auth: bool, dripReturns: bool, cap: int)
    requires h.arith.Exact? && WellFormed(h, s) && InRange(s, cap)
    requires ExecuteOutcome(h, s, id, caller, auth, dripReturns).Ok?
    ensures InRange(Executed(h, s, id, caller), cap)
  {
    ExecutedRegistry(h, s, id, caller, auth, dripReturns);
    var entries := ExecutionEntries(h, s, id, caller);
    TallyEntries(s.log, entries, SecondaryRewards);
    TallyEntries(s.log, entries, Provisions);
    OneSlash(s.keepers[s.tasks[id].designated].stake);
  }

  /** One more log entry, with its weights in the two tallies named. */
  lemma TwoTallies(log: seq<Entry>, x: Entry, secondary: int, provisions: int)
    requires Weight(x.event, SecondaryRewards) == secondary && Weight(x.event, Provisions) == provisions
    ensures Tally(log + [x], SecondaryRewards) == Tally(log, SecondaryRewards) + secondary
    ensures Tally(log + [x], Provisions) == Tally(log, Provisions) + provisions
  {
    TallyAppend(log, x, SecondaryRewards);
    TallyAppend(log, x, Provisions);
  }

  lemma InRangeRegistration(s: State, k: Address, stake: int, cap: int)
    requires InRange(s, cap) && stake >= 0
    ensures InRange(Registered(s, k, stake), cap)
  {
    TwoTallies(s.log, Stamp(s, KeeperRegistered(k, stake)), 0, 0);
  }

  lemma InRangeProvision(h: Host, s: State, dripList: Address, interval: int, reward: int, d: Address, cap: int)
    requires h.arith.Exact? && InRange(s, cap) && 0 < interval <= cap
    ensures InRange(Provisioned(h, s, dripList, interval, reward, d), cap)
  {
    TwoTallies(s.log, Stamp(s, TaskProvisioned(NextTaskId(h, s), dripList, interval, reward, d)), 0, 1);
  }

  lemma InRangeStep(h: Host, s: State, step: Step, cap: int)
    requires h.arith.Exact? && WellFormed(h, s) && InRange(s, cap)
    requires (step.Initialize? ==> step.minStake >= 0) && (step.Provision? ==> step.interval <= cap)
    ensures InRange(Apply(h, s, step), cap)
  {
    if Succeeds(h, s, step) {
      match step
      case Register(keeper, stake, _) => InRangeRegistration(s, keeper, stake, cap);
      case Provision(dripList, interval, reward, d, _) =>
        InRangeProvision(h, s, dripList, interval, reward, d, cap);
      case Execute(id, caller, auth, dripReturns) =>
        InRangeExecution(h, s, id, caller, auth, dripReturns, cap);
      case _ =>
    }
  }

  lemma {:induction false} StaysInRange(h: Host, start: u32, steps: seq<Step>, cap: int)
    requires h.arith.Exact? && Modest(steps, cap)
    ensures InRange(Run(h, Genesis(start), steps), cap)
  {
    if steps != [] {
      var init := steps[..|steps| - 1];
      ModestPrefix(steps, cap, |init|);
      StaysInRange(h, start, init, cap);
      ReachableWellFormed(h, start, init);
      InRangeStep(h, Run(h, Genesis(start), init), steps[|steps| - 1], cap);
    }
  }

  /** Conservation bounds every stake and the treasury by the total stake registered. */
  lemma SlashInRange(s: State, k: Address, cap: int)
    requires Conserved(s) && InRange(s, cap) && Bounded(s, cap) && k in s.keepers
    ensures SlashFits(s.keepers[k].stake, s.treasury)
  {
    var stake := s.keepers[k].stake;
    forall a | a in s.keepers ensures Cell(s.keepers[a], Stakes) >= 0 { }
    CellAtMostSum(s.keepers, Stakes);
    assert Cell(s.keepers[k], Stakes) == stake;
    OneSlash(stake);
    SlashSplitsStake(stake);
  }

  /** In a bounded state of an exact run no intermediate value of any next step overflows. */
  lemma NextStepFits(h: Host, start: u32, steps: seq<Step>, step: Step, cap: int)
    requires h.arith.Exact? && Modest(steps, cap) && (step.Provision? ==> step.interval <= cap)
    requires Bounded(Run(h, Genesis(start), steps), cap)
    ensures NoOverflow(Run(h, Genesis(start), steps), step)
  {
    var s := Run(h, Genesis(start), steps);
    StaysInRange(h, start, steps, cap);
    if step.Execute? && step.id in s.tasks {
      ReachableWellFormed(h, start, steps);
      StakeConservation(h, start, steps);
      ExecutionsAddUp(h, start, steps);
      assert TaskWellFormed(s, step.id);
      SlashInRange(s, s.tasks[step.id].designated, cap);
      if step.caller in s.keepers { CountFits(Release, s, step.caller); }
    }
  }

  /** A run of the compiled contract whose own log and ledger are within the bounds. */
  ghost predicate BoundedRun(h: Host, start: u32, steps: seq<Step>, cap: int) {
    h.arith.Release? && Modest(steps, cap) && Bounded(Run(h, Genesis(start), steps), cap)
  }

  /** The compiled contract then goes through exactly the states of the exact one. */
  lemma {:induction false} CompiledRunIsExact(h: Host, start: u32, steps: seq<Step>, cap: int)
    requires BoundedRun(h, start, steps, cap)
    ensures Run(h, Genesis(start), steps) == Run(h.(arith := Exact), Genesis(start), steps)
  {
    if steps != [] {
      var init, last := steps[..|steps| - 1], steps[|steps| - 1];
      var e := h.(arith := Exact);
      assert steps == init + [last];
      BoundedPrefix(h, start, init, [last], cap);
      CompiledRunIsExact(h, start, init, cap);
      ReachableWellFormed(e, start, init);
      NextStepFits(e, start, init, last, cap);
      assert e.(arith := Release) == h;
      StepAgrees(e, Run(e, Genesis(start), init), last);
    }
  }

  /** And no intermediate value of any of its steps overflows. */
  lemma NoStepOverflows(h: Host, start: u32, steps: seq<Step>, cap: int, i: nat)
    requires BoundedRun(h, start, steps, cap) && i < |steps|
    ensures NoOverflow(Run(h, Genesis(start), steps[..i]), steps[i])
  {
    assert steps == steps[..i] + steps[i..];
    BoundedPrefix(h, start, steps[..i], steps[i..], cap);
    CompiledRunIsExact(h, start, steps[..i], cap);
    NextStepFits(h.(arith := Exact), start, steps[..i], steps[i], cap);
  }

  /** Within the bounds the compiled contract conserves stake exactly. */
  lemma CompiledConservation(h: Host, start: u32, steps: seq<Step>, cap: int)
    requires BoundedRun(h, start, steps, cap)
    ensures Conserved(Run(h, Genesis(start), steps))
  {
    CompiledRunIsExact(h, start, steps, cap);
    StakeConservation(h.(arith := Exact), start, steps);
  }
}
