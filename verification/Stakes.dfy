/** Where every stroop of stake goes, over whole runs. */
module Stakes {
  import opened Machine
  import opened Types
  import opened Slashing
  import opened Contract
  import opened Tallies
  import opened WellFormedness
  import opened Scenario

  // ---- Exact history of each stake ----

  /** Was this step a successful grace execution of a task designated to `k`? */
  predicate SlashesKeeper(h: Host, s: State, step: Step, k: Address) {
    && step.Execute?
    && Succeeds(h, s, step)
    && s.tasks[step.id].designated == k
    && RegionAt(s.tasks[step.id].next, s.ledger).Grace?
  }

  predicate RegistersKeeper(h: Host, s: State, step: Step, k: Address) {
    step.Register? && step.keeper == k && Succeeds(h, s, step)
  }

  function SlashCount(h: Host, s: State, steps: seq<Step>, k: Address): nat {
    if steps == [] then 0
    else
      var init := steps[..|steps| - 1];
      SlashCount(h, s, init, k) + if SlashesKeeper(h, Run(h, s, init), steps[|steps| - 1], k) then 1 else 0
  }

  /** The stake the run registered `k` with. */
  function StakeAtRegistration(h: Host, s: State, steps: seq<Step>, k: Address): i128 {
    if steps == [] then 0
    else
      var init, last := steps[..|steps| - 1], steps[|steps| - 1];
      if RegistersKeeper(h, Run(h, s, init), last, k) then last.stake
      else StakeAtRegistration(h, s, init, k)
  }

  /** A stake changes at a step exactly as one slash does, or not at all. */
  lemma StakeStep(h: Host, s: State, step: Step, k: Address)
    requires WellFormed(h, s) && k in s.keepers
    ensures k in Apply(h, s, step).keepers
    ensures Apply(h, s, step).keepers[k].stake ==
      if SlashesKeeper(h, s, step, k) then StakeAfterSlash(h.arith, s.keepers[k].stake) else s.keepers[k].stake
    ensures !RegistersKeeper(h, s, step, k)
  {
    if step.Execute? && Succeeds(h, s, step) {
      ExecutedRegistry(h, s, step.id, step.caller, step.auth, step.dripReturns);
    }
  }

  lemma UnregisteredStep(h: Host, s: State, step: Step, k: Address)
    requires WellFormed(h, s) && k !in s.keepers
    ensures !SlashesKeeper(h, s, step, k)
    ensures k in Apply(h, s, step).keepers <==> RegistersKeeper(h, s, step, k)
    ensures k in Apply(h, s, step).keepers ==> Apply(h, s, step).keepers[k] == Keeper(k, step.stake, 0, 0, false)
  {
    if step.Execute? && Succeeds(h, s, step) {
      ExecutedRegistry(h, s, step.id, step.caller, step.auth, step.dripReturns);
    }
  }

  ghost predicate HasHistory(a: Arith, s: State, k: Address, registered: int, n: nat) {
    if k in s.keepers then s.keepers[k].stake == SlashedTimes(a, registered, n) else n == 0
  }

  lemma HistoryStep(h: Host, s: State, step: Step, k: Address, registered: int, n: nat)
    requires WellFormed(h, s) && HasHistory(h.arith, s, k, registered, n)
    ensures HasHistory(h.arith, Apply(h, s, step), k,
      if RegistersKeeper(h, s, step, k) then step.stake else registered,
      n + if SlashesKeeper(h, s, step, k) then 1 else 0)
  {
    if k in s.keepers { StakeStep(h, s, step, k); } else { UnregisteredStep(h, s, step, k); }
  }

  /** In every reachable state a stake is the registered stake slashed n times,
      where n counts the successful grace executions of the keeper's tasks. */
  lemma {:induction false} ExactStakeHistory(h: Host, start: u32, steps: seq<Step>, k: Address)
    ensures HasHistory(h.arith, Run(h, Genesis(start), steps), k,
      StakeAtRegistration(h, Genesis(start), steps, k), SlashCount(h, Genesis(start), steps, k))
  {
    if steps != [] {
      var init := steps[..|steps| - 1];
      ExactStakeHistory(h, start, init, k);
      ReachableWellFormed(h, start, init);
      HistoryStep(h, Run(h, Genesis(start), init), steps[|steps| - 1], k,
        StakeAtRegistration(h, Genesis(start), init, k), SlashCount(h, Genesis(start), init, k));
    }
  }

  lemma SlashWeight(h: Host, s: State, step: Step, k: Address)
    ensures StepWeight(h, s, step, GraceExecutionsAgainst(k)) == Indicator(SlashesKeeper(h, s, step, k))
  {
  }

  /** The run's slash count is what the log says. */
  lemma {:induction false} SlashCountIsLogged(h: Host, start: u32, steps: seq<Step>, k: Address)
    ensures Tally(Run(h, Genesis(start), steps).log, GraceExecutionsAgainst(k)) == SlashCount(h, Genesis(start), steps, k)
  {
    if steps != [] {
      var init, last := steps[..|steps| - 1], steps[|steps| - 1];
      SlashCountIsLogged(h, start, init, k);
      TallyStep(h, Run(h, Genesis(start), init), last, GraceExecutionsAgainst(k));
      SlashWeight(h, Run(h, Genesis(start), init), last, k);
    }
  }

  lemma RegistrationWeight(h: Host, s: State, step: Step, k: Address)
    ensures
      var registers := RegistersKeeper(h, s, step, k);
      && StepWeight(h, s, step, RegistrationsOf(k)) == Indicator(registers)
      && StepWeight(h, s, step, StakeRegisteredBy(k)) == if registers then step.stake else 0
  {
  }

  /** A keeper registers once, for good, with the stake its registration event records. */
  lemma {:induction false} RegistrationIsLogged(h: Host, start: u32, steps: seq<Step>, k: Address)
    ensures
      var s := Run(h, Genesis(start), steps);
      && Tally(s.log, RegistrationsOf(k)) == Indicator(k in s.keepers)
      && Tally(s.log, StakeRegisteredBy(k)) == StakeAtRegistration(h, Genesis(start), steps, k)
      && (k !in s.keepers ==> StakeAtRegistration(h, Genesis(start), steps, k) == 0)
  {
    if steps != [] {
      var init, last := steps[..|steps| - 1], steps[|steps| - 1];
      var s := Run(h, Genesis(start), init);
      RegistrationIsLogged(h, start, init, k);
      ReachableWellFormed(h, start, init);
      TallyStep(h, s, last, RegistrationsOf(k));
      TallyStep(h, s, last, StakeRegisteredBy(k));
      RegistrationWeight(h, s, last, k);
      if k in s.keepers { StakeStep(h, s, last, k); } else { UnregisteredStep(h, s, last, k); }
    }
  }

  // ---- The zero-stake guard ----

  /** A keeper's stake is zero exactly when it registered with zero, so the
      zero-stake guard fires only against such a keeper. */
  lemma ZeroStakeIffRegisteredZero(h: Host, start: u32, steps: seq<Step>, k: Address)
    requires k in Run(h, Genesis(start), steps).keepers
    ensures Run(h, Genesis(start), steps).keepers[k].stake == 0
      <==> StakeAtRegistration(h, Genesis(start), steps, k) == 0
  {
    ExactStakeHistory(h, start, steps, k);
    ZeroOnlyFromZero(h.arith,
      StakeAtRegistration(h, Genesis(start), steps, k), SlashCount(h, Genesis(start), steps, k));
  }

  /** A grace execution that everything else allows goes through exactly when the
      designated keeper registered with a non-zero stake. */
  lemma GraceSucceedsIffStaked(h: Host, start: u32, steps: seq<Step>, id: TaskId, caller: Address)
    requires
      var s := Run(h, Genesis(start), steps);
      && id in s.tasks && RegionAt(s.tasks[id].next, s.ledger).Grace?
      && caller in s.keepers && caller != s.tasks[id].designated
      && s.tasks[id].reward + Bonus(h, s, s.tasks[id]) <= Balance(s.balances, h.self)
    ensures
      var s := Run(h, Genesis(start), steps);
      ExecuteOutcome(h, s, id, caller, true, true).Ok?
      <==> StakeAtRegistration(h, Genesis(start), steps, s.tasks[id].designated) != 0
  {
    var s := Run(h, Genesis(start), steps);
    ReachableWellFormed(h, start, steps);
    assert TaskWellFormed(s, id);
    ExecuteOkIffExecutable(h, start, steps, id, caller, true, true);
    ZeroStakeIffRegisteredZero(h, start, steps, s.tasks[id].designated);
  }

  /** Every minimum a run configures is at least `m`. */
  predicate MinimumAtLeast(steps: seq<Step>, m: int) {
    forall i :: 0 <= i < |steps| && steps[i].Initialize? ==> steps[i].minStake >= m
  }

  lemma MinStakeStep(h: Host, s: State, step: Step)
    ensures Apply(h, s, step).minStake ==
      if step.Initialize? && Succeeds(h, s, step) then Some(step.minStake) else s.minStake
  {
  }

  /** Then so is every stake a keeper registered with, up to the compiled-in minimum. */
  lemma {:induction false} RegisteredAtLeast(h: Host, start: u32, steps: seq<Step>, k: Address, m: int)
    requires MinimumAtLeast(steps, m) && m <= MIN_KEEPER_STAKE
    ensures MinStakeInForce(Run(h, Genesis(start), steps)) >= m
    ensures k in Run(h, Genesis(start), steps).keepers ==> StakeAtRegistration(h, Genesis(start), steps, k) >= m
  {
    if steps != [] {
      var init, last := steps[..|steps| - 1], steps[|steps| - 1];
      var s := Run(h, Genesis(start), init);
      assert forall i :: 0 <= i < |init| ==> init[i] == steps[i];
      RegisteredAtLeast(h, start, init, k, m);
      ReachableWellFormed(h, start, init);
      MinStakeStep(h, s, last);
      if k in s.keepers { StakeStep(h, s, last, k); } else { UnregisteredStep(h, s, last, k); }
    }
  }

  /** With positive minimums no reachable call, of any caller, meets the zero-stake guard. */
  lemma ZeroGuardUnreachable(h: Host, start: u32, steps: seq<Step>,
                             id: TaskId, caller: Address, auth: bool, dripReturns: bool)
    requires MinimumAtLeast(steps, 1)
    ensures ExecuteOutcome(h, Run(h, Genesis(start), steps), id, caller, auth, dripReturns) != Err(SlashOnZeroStake)
  {
    var s := Run(h, Genesis(start), steps);
    if id in s.tasks {
      ReachableWellFormed(h, start, steps);
      assert TaskWellFormed(s, id);
      RegisteredAtLeast(h, start, steps, s.tasks[id].designated, 1);
      ZeroStakeIffRegisteredZero(h, start, steps, s.tasks[id].designated);
    }
  }

  /** The documentation has a zero-stake grace execution succeed. It does not: with any
      configured minimum m <= 0 this funded call by a registered secondary is rejected. */
  lemma ZeroStakeGraceIsRejected(h: Host, m: i128)
    requires m <= 0
    ensures
      var s := Run(h, Genesis(0), MissedWindow(h, false, m, 0, 1));
      ExecuteOutcome(h, s, TheTask(h), Outsider(h, 'e'), true, true) == Err(SlashOnZeroStake)
  {
    DistinctOutsiders(h);
    MissedWindowState(h, false, m, 0, 1);
  }

  /** No call of this run, at the state it reaches, meets the zero-stake guard. */
  ghost predicate GuardSilent(h: Host, start: u32, steps: seq<Step>) {
    forall id, caller, auth, dripReturns ::
      ExecuteOutcome(h, Run(h, Genesis(start), steps), id, caller, auth, dripReturns) != Err(SlashOnZeroStake)
  }

  predicate ConfiguredWith(steps: seq<Step>, m: int) {
    forall i :: 0 <= i < |steps| && steps[i].Initialize? ==> steps[i].minStake == m
  }

  /** Over all runs configured with minimum m, the guard is unreachable exactly when m is positive. */
  lemma GuardUnreachableIff(h: Host, m: i128)
    ensures (forall start: u32, steps: seq<Step> :: ConfiguredWith(steps, m) ==> GuardSilent(h, start, steps)) <==> m > 0
  {
    if m > 0 {
      forall start: u32, steps: seq<Step> | ConfiguredWith(steps, m) ensures GuardSilent(h, start, steps) {
        forall id, caller, auth, dripReturns
          ensures ExecuteOutcome(h, Run(h, Genesis(start), steps), id, caller, auth, dripReturns) != Err(SlashOnZeroStake)
        {
          ZeroGuardUnreachable(h, start, steps, id, caller, auth, dripReturns);
        }
      }
    } else {
      ZeroStakeGraceIsRejected(h, m);
      var steps := MissedWindow(h, false, m, 0, 1);
      assert ConfiguredWith(steps, m);
      assert !GuardSilent(h, 0, steps);
    }
  }

  /** The zero-slash event is emitted on a path that is then reverted: no log ever holds one. */
  lemma {:induction false} ZeroSlashNeverCommitted(h: Host, start: u32, steps: seq<Step>)
    ensures Tally(Run(h, Genesis(start), steps).log, ZeroSlashes) == 0
  {
    if steps != [] {
      var init, last := steps[..|steps| - 1], steps[|steps| - 1];
      ZeroSlashNeverCommitted(h, start, init);
      TallyStep(h, Run(h, Genesis(start), init), last, ZeroSlashes);
    }
  }

  // ---- Decay ----

  /** `stake` is `registered` slashed n times: within the geometric bounds, and zero
      only if it started at zero. */
  ghost predicate DecayedTo(registered: int, n: nat, stake: int) {
    && stake == SlashedTimes(Exact, registered, n)
    && Pow(19, n) * registered <= Pow(20, n) * stake
    && Pow(20, n) * stake <= Pow(19, n) * (registered - 19) + 19 * Pow(20, n)
    && (stake == 0 <==> registered == 0)
  }

  lemma NonNegativeStakeDecays(registered: int, n: nat)
    requires registered >= 0
    ensures DecayedTo(registered, n, SlashedTimes(Exact, registered, n))
  {
    ZeroOnlyFromZero(Exact, registered, n);
    DecayBounds(registered, n);
  }

  /** In every run a non-negative stake decays geometrically in the number of logged
      grace executions against its keeper, from the stake its registration logged. In
      the compiled contract it takes only that this stake is at most i128::MAX/5. */
  lemma StakeDecay(h: Host, start: u32, steps: seq<Step>, k: Address)
    requires
      var s := Run(h, Genesis(start), steps);
      var registered := Tally(s.log, StakeRegisteredBy(k));
      k in s.keepers && 0 <= registered && (h.arith.Exact? || registered <= MAX_EXACT_STAKE)
    ensures
      var s := Run(h, Genesis(start), steps);
      var n := Tally(s.log, GraceExecutionsAgainst(k));
      n >= 0 && DecayedTo(Tally(s.log, StakeRegisteredBy(k)), n, s.keepers[k].stake)
  {
    var registered, n := StakeAtRegistration(h, Genesis(start), steps, k), SlashCount(h, Genesis(start), steps, k);
    ExactStakeHistory(h, start, steps, k);
    SlashCountIsLogged(h, start, steps, k);
    RegistrationIsLogged(h, start, steps, k);
    SlashedTimesExact(h.arith, registered, n);
    NonNegativeStakeDecays(registered, n);
  }

  // ---- Conservation ----

  /** Stakes now, plus treasury, plus all secondary rewards, less all stake ever registered. */
  ghost function Gap(s: State): int {
    Sum(s.keepers, Stakes) + s.treasury + Tally(s.log, SecondaryRewards) - Tally(s.log, StakeRegistered)
  }

  /** An execution takes from the registry exactly what a grace slash takes. */
  lemma StakesAfterExecution(h: Host, s: State, id: TaskId, caller: Address, auth: bool, dripReturns: bool)
    requires WellFormed(h, s)
    requires ExecuteOutcome(h, s, id, caller, auth, dripReturns).Ok?
    ensures
      var t := s.tasks[id];
      t.designated in s.keepers &&
      Sum(Executed(h, s, id, caller).keepers, Stakes) == Sum(s.keepers, Stakes) +
        if RegionAt(t.next, s.ledger).Grace?
        then StakeAfterSlash(h.arith, s.keepers[t.designated].stake) - s.keepers[t.designated].stake else 0
  {
    ExecutedRegistry(h, s, id, caller, auth, dripReturns);
    var d := s.tasks[id].designated;
    var credited := CreditedKeeper(h.arith, s.keepers[caller], s.ledger);
    if RegionAt(s.tasks[id].next, s.ledger).Grace? {
      var slashed := SlashedKeeper(h.arith, s.keepers[d]);
      SumUpdate(s.keepers, d, slashed, Stakes);
      SumUpdate(s.keepers[d := slashed], caller, credited, Stakes);
    } else {
      SumUpdate(s.keepers, caller, credited, Stakes);
    }
  }

  lemma ExecutionStakeWeights(h: Host, s: State, id: TaskId, caller: Address)
    requires id in s.tasks && s.tasks[id].designated in s.keepers
    ensures
      var t, entries := s.tasks[id], ExecutionEntries(h, s, id, caller);
      && EntriesWeight(entries, StakeRegistered) == 0
      && EntriesWeight(entries, SecondaryRewards) ==
           if RegionAt(t.next, s.ledger).Grace? then SecondaryReward(h.arith, s.keepers[t.designated].stake) else 0
  {
  }

  lemma GapExecution(h: Host, s: State, id: TaskId, caller: Address, auth: bool, dripReturns: bool)
    requires WellFormed(h, s)
    requires ExecuteOutcome(h, s, id, caller, auth, dripReturns).Ok?
    ensures WholeTurns(h.arith, Gap(Executed(h, s, id, caller)) - Gap(s))
  {
    var entries := ExecutionEntries(h, s, id, caller);
    TallyEntries(s.log, entries, SecondaryRewards);
    TallyEntries(s.log, entries, StakeRegistered);
    StakesAfterExecution(h, s, id, caller, auth, dripReturns);
    ExecutionStakeWeights(h, s, id, caller);
    if RegionAt(s.tasks[id].next, s.ledger).Grace? {
      SlashBalances(h.arith, s.keepers[s.tasks[id].designated].stake, s.treasury);
    } else {
      NoTurn(h.arith);
    }
  }

  lemma GapRegistration(s: State, k: Address, stake: int)
    requires k !in s.keepers
    ensures Gap(Registered(s, k, stake)) == Gap(s)
  {
    TallyAppend(s.log, Stamp(s, KeeperRegistered(k, stake)), SecondaryRewards);
    TallyAppend(s.log, Stamp(s, KeeperRegistered(k, stake)), StakeRegistered);
    SumUpdate(s.keepers, k, Keeper(k, stake, 0, 0, false), Stakes);
  }

  lemma GapProvision(h: Host, s: State, dripList: Address, interval: int, reward: int, d: Address)
    ensures Gap(Provisioned(h, s, dripList, interval, reward, d)) == Gap(s)
  {
    var x := Stamp(s, TaskProvisioned(NextTaskId(h, s), dripList, interval, reward, d));
    TallyAppend(s.log, x, SecondaryRewards);
    TallyAppend(s.log, x, StakeRegistered);
  }

  ghost predicate Conserved(s: State) { Gap(s) == 0 }

  lemma ConservedByExecution(h: Host, s: State, id: TaskId, caller: Address, auth: bool, dripReturns: bool)
    requires WellFormed(h, s) && WholeTurns(h.arith, Gap(s))
    requires ExecuteOutcome(h, s, id, caller, auth, dripReturns).Ok?
    ensures WholeTurns(h.arith, Gap(Executed(h, s, id, caller)))
  {
    GapExecution(h, s, id, caller, auth, dripReturns);
    WholeTurnsOn(h.arith, Gap(s), Gap(Executed(h, s, id, caller)));
  }

  /** Only executions move the gap. */
  lemma ConservationStep(h: Host, s: State, step: Step)
    requires WellFormed(h, s) && WholeTurns(h.arith, Gap(s))
    ensures WholeTurns(h.arith, Gap(Apply(h, s, step)))
  {
    if Succeeds(h, s, step) {
      match step
      case Register(k, stake, _) => GapRegistration(s, k, stake);
      case Provision(dripList, interval, reward, d, _) => GapProvision(h, s, dripList, interval, reward, d);
      case Execute(id, caller, auth, dripReturns) => ConservedByExecution(h, s, id, caller, auth, dripReturns);
      case _ =>
    }
  }

  /** Over every run stakes plus treasury plus all secondary rewards are all stake ever
      registered: exactly in exact arithmetic, and modulo 2^128 in the compiled contract,
      whatever overflows. */
  lemma {:induction false} StakeConservation(h: Host, start: u32, steps: seq<Step>)
    ensures WholeTurns(h.arith, Gap(Run(h, Genesis(start), steps)))
  {
    if steps == [] {
      NoTurn(h.arith);
    } else {
      var init := steps[..|steps| - 1];
      StakeConservation(h, start, init);
      ReachableWellFormed(h, start, init);
      ConservationStep(h, Run(h, Genesis(start), init), steps[|steps| - 1]);
    }
  }
}
