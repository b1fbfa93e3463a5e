/**
  What every entry point accepts, refuses and stores, stated over storage, ledgers
  and literal constants, and what these rules come to over whole runs.
 */
module Rules {
  import opened Machine
  import opened Types
  import opened Slashing
  import opened Contract
  import opened Tallies
  import opened WellFormedness
  import opened Stakes

  lemma {:induction false} RunAppend(h: Host, s: State, steps: seq<Step>, more: seq<Step>)
    ensures Run(h, s, steps + more) == Run(h, Run(h, s, steps), more)
    decreases |more|
  {
    if more == [] {
      assert steps + more == steps;
    } else {
      var init, last := more[..|more| - 1], more[|more| - 1];
      assert steps + more == steps + init + [last];
      RunSnoc(h, s, steps + init, last);
      RunAppend(h, s, steps, init);
    }
  }

  // ---- initialize ----

  lemma InitializeRule(h: Host, s: State, admin: Address, token: Address, minStake: i128, auth: bool)
    ensures
      var r := InitializeOutcome(h, s, admin, auth);
      && (r == Err(AlreadyInitialized) <==> s.admin.Some?)
      && (r.Ok? <==> s.admin.None? && auth && admin != h.self)
      && (r.Trap? <==> s.admin.None? && !(auth && admin != h.self))
      && Apply(h, s, Initialize(admin, token, minStake, auth)) ==
           if r.Ok? then s.(admin := Some(admin), token := Some(token), minStake := Some(minStake)) else s
  {
  }

  datatype Setup = Setup(admin: Option<Address>, token: Option<Address>, minStake: Option<int>)

  function SetupOf(s: State): Setup { Setup(s.admin, s.token, s.minStake) }

  /** The first setup somebody other than the contract asked for and authorised. */
  function FirstSetup(self: Address, steps: seq<Step>): Setup {
    if steps == [] then Setup(None, None, None)
    else
      var before, last := FirstSetup(self, steps[..|steps| - 1]), steps[|steps| - 1];
      if before.admin.None? && last.Initialize? && last.auth && last.admin != self
      then Setup(Some(last.admin), Some(last.token), Some(last.minStake))
      else before
  }

  lemma SetupStep(h: Host, s: State, step: Step)
    ensures SetupOf(Apply(h, s, step)) ==
      if s.admin.None? && step.Initialize? && step.auth && step.admin != h.self
      then Setup(Some(step.admin), Some(step.token), Some(step.minStake))
      else SetupOf(s)
  {
  }

  /** In every run admin, token and minimum are those of the first authorised setup. */
  lemma {:induction false} SetUpOnce(h: Host, start: u32, steps: seq<Step>)
    ensures SetupOf(Run(h, Genesis(start), steps)) == FirstSetup(h.self, steps)
  {
    if steps != [] {
      var init := steps[..|steps| - 1];
      SetUpOnce(h, start, init);
      SetupStep(h, Run(h, Genesis(start), init), steps[|steps| - 1]);
    }
  }

  /** Once there is an admin nothing replaces admin, token or minimum, and every further
      setup is answered `AlreadyInitialized`. */
  lemma {:induction false} SetUpForGood(h: Host, s: State, more: seq<Step>)
    requires s.admin.Some?
    ensures SetupOf(Run(h, s, more)) == SetupOf(s)
    ensures forall admin, auth :: InitializeOutcome(h, Run(h, s, more), admin, auth) == Err(AlreadyInitialized)
  {
    if more != [] {
      var init := more[..|more| - 1];
      SetUpForGood(h, s, init);
      SetupStep(h, Run(h, s, init), more[|more| - 1]);
    }
  }

  // ---- register_keeper ----

  /** The configured minimum, or 10_000_000 stroops as long as none is configured. */
  function RequiredStake(s: State): int { if s.minStake.Some? then s.minStake.value else 10_000_000 }

  lemma RegisterRule(h: Host, s: State, keeper: Address, stake: i128, auth: bool)
    ensures
      var r := RegisterOutcome(h, s, keeper, stake, auth);
      var authorised, enough := auth && keeper != h.self, stake >= RequiredStake(s);
      && (r.Trap? <==> !authorised)
      && (r == Err(StakeBelowMinimum) <==> authorised && !enough)
      && (r == Err(KeeperAlreadyRegistered) <==> authorised && enough && keeper in s.keepers)
      && (r.Ok? <==> authorised && enough && keeper !in s.keepers)
      && Apply(h, s, Register(keeper, stake, auth)) ==
           if r.Ok? then
             s.(keepers := s.keepers[keeper := Keeper(keeper, stake, 0, 0, false)],
                log := s.log + [Entry(s.ledger, KeeperRegistered(keeper, stake))])
           else s
  {
  }

  /** Step `i` registers `k`: authorised, for the first time, with the stake required then. */
  ghost predicate AdmittedAt(h: Host, start: u32, steps: seq<Step>, i: int, k: Address) {
    && 0 <= i < |steps|
    && var s, step := Run(h, Genesis(start), steps[..i]), steps[i];
    && step.Register? && step.keeper == k && step.auth && k != h.self
    && k !in s.keepers && step.stake >= RequiredStake(s)
  }

  lemma AdmittedInPrefix(h: Host, start: u32, steps: seq<Step>, i: int, k: Address)
    requires steps != []
    ensures
      var init, last := steps[..|steps| - 1], steps[|steps| - 1];
      AdmittedAt(h, start, steps, i, k) <==>
        if i == |init| then RegistersKeeper(h, Run(h, Genesis(start), init), last, k)
        else AdmittedAt(h, start, init, i, k)
  {
    var init, last := steps[..|steps| - 1], steps[|steps| - 1];
    if 0 <= i < |init| { assert init[..i] == steps[..i]; }
    if last.Register? { RegisterRule(h, Run(h, Genesis(start), init), last.keeper, last.stake, last.auth); }
  }

  /** In every run the registered keepers are exactly those some step admitted, and the
      stake a keeper registered with is the one that step brought. */
  lemma {:induction false} RegisteredIffAdmitted(h: Host, start: u32, steps: seq<Step>, k: Address)
    ensures
      var s := Run(h, Genesis(start), steps);
      && (k in s.keepers <==> exists i :: AdmittedAt(h, start, steps, i, k))
      && forall i :: AdmittedAt(h, start, steps, i, k) ==> Tally(s.log, StakeRegisteredBy(k)) == steps[i].stake
  {
    if steps != [] {
      var init, last := steps[..|steps| - 1], steps[|steps| - 1];
      var s := Run(h, Genesis(start), init);
      RegisteredIffAdmitted(h, start, init, k);
      RegistrationIsLogged(h, start, init, k);
      ReachableWellFormed(h, start, init);
      forall i ensures AdmittedAt(h, start, steps, i, k) <==>
        if i == |init| then RegistersKeeper(h, s, last, k) else AdmittedAt(h, start, init, i, k)
      {
        AdmittedInPrefix(h, start, steps, i, k);
      }
      assert RegistersKeeper(h, s, last, k) ==> AdmittedAt(h, start, steps, |init|, k);
      TallyStep(h, s, last, StakeRegisteredBy(k));
      RegistrationWeight(h, s, last, k);
      if k in s.keepers {
        StakeStep(h, s, last, k);
        var i :| AdmittedAt(h, start, init, i, k);
        assert AdmittedAt(h, start, steps, i, k);
      } else {
        UnregisteredStep(h, s, last, k);
      }
    }
  }

  lemma AdmittedBefore(h: Host, start: u32, steps: seq<Step>, more: seq<Step>, i: int, k: Address)
    ensures i < |steps| ==> (AdmittedAt(h, start, steps + more, i, k) <==> AdmittedAt(h, start, steps, i, k))
  {
    if 0 <= i < |steps| { assert (steps + more)[..i] == steps[..i]; }
  }

  /** Whoever registers after a setup with minimum m brought at least m, for every m. */
  lemma RegisteredAfterSetup(h: Host, start: u32, steps: seq<Step>, more: seq<Step>, k: Address)
    requires Run(h, Genesis(start), steps).minStake.Some? && k !in Run(h, Genesis(start), steps).keepers
    requires k in Run(h, Genesis(start), steps + more).keepers
    ensures Tally(Run(h, Genesis(start), steps + more).log, StakeRegisteredBy(k))
      >= Run(h, Genesis(start), steps).minStake.value
  {
    var all, s := steps + more, Run(h, Genesis(start), steps);
    RegisteredIffAdmitted(h, start, steps, k);
    RegisteredIffAdmitted(h, start, all, k);
    var i :| AdmittedAt(h, start, all, i, k);
    AdmittedBefore(h, start, steps, more, i, k);
    var between := more[..i - |steps|];
    assert all[..i] == steps + between;
    ReachableWellFormed(h, start, steps);
    RunAppend(h, Genesis(start), steps, between);
    SetUpForGood(h, s, between);
  }

  // ---- provision_task ----

  lemma ProvisionRule(h: Host, s: State, dripList: Address, interval: u32, reward: i128, d: Address, auth: bool)
    ensures
      var r := ProvisionOutcome(h, s, interval, reward, d, auth);
      var authorised := s.admin.Some? && auth && s.admin.value != h.self;
      && (r == Err(UnauthorizedCaller) <==> s.admin.None?)
      && (r.Trap? <==> s.admin.Some? && !authorised)
      && (r == Err(InvalidInterval) <==> authorised && interval == 0)
      && (r == Err(InvalidReward) <==> authorised && interval > 0 && reward <= 0)
      && (r == Err(KeeperNotFound) <==> authorised && interval > 0 && reward > 0 && d !in s.keepers)
      && (r == Err(IneligibleKeeper) <==>
           authorised && interval > 0 && reward > 0 && d in s.keepers && s.keepers[d].ineligible)
      && (r.Ok? <==> authorised && interval > 0 && reward > 0 && d in s.keepers && !s.keepers[d].ineligible)
      && (r.Ok? ==> r.value == h.sha256(Seed(s.counter, s.ledger)))
      && Apply(h, s, Provision(dripList, interval, reward, d, auth)) ==
           if r.Ok? then
             s.(tasks := s.tasks[r.value := Task(r.value, dripList, interval, h.arith.U32(s.ledger + interval), reward, d)],
                counter := h.arith.U32(s.counter + 1),
                log := s.log + [Entry(s.ledger, TaskProvisioned(r.value, dripList, interval, reward, d))])
           else s
  {
  }

  /** Step `i` creates task `id`: asked for with the admin's authorisation, with a
      positive interval and reward, for a registered keeper that is not flagged. */
  ghost predicate RequestedAt(h: Host, start: u32, steps: seq<Step>, i: int, id: TaskId) {
    && 0 <= i < |steps|
    && var s, step := Run(h, Genesis(start), steps[..i]), steps[i];
    && step.Provision? && step.auth && s.admin.Some? && s.admin.value != h.self
    && step.interval > 0 && step.reward > 0
    && step.designated in s.keepers && !s.keepers[step.designated].ineligible
    && id == h.sha256(Seed(s.counter, s.ledger))
  }

  predicate Creates(h: Host, s: State, step: Step, id: TaskId) {
    step.Provision? && Succeeds(h, s, step) && NextTaskId(h, s) == id
  }

  predicate AsRequested(t: Task, step: Step) {
    && step.Provision?
    && t.dripList == step.dripList && t.interval == step.interval && t.reward == step.reward
    && t.designated == step.designated
  }

  lemma RequestedInPrefix(h: Host, start: u32, steps: seq<Step>, i: int, id: TaskId)
    requires steps != []
    ensures
      var init, last := steps[..|steps| - 1], steps[|steps| - 1];
      RequestedAt(h, start, steps, i, id) <==>
        if i == |init| then Creates(h, Run(h, Genesis(start), init), last, id)
        else RequestedAt(h, start, init, i, id)
  {
    var init := steps[..|steps| - 1];
    if 0 <= i < |init| { assert init[..i] == steps[..i]; }
  }

  /** A task appears only by being provisioned, and only its window ever changes. */
  lemma TaskStep(h: Host, s: State, step: Step, id: TaskId)
    requires WellFormed(h, s)
    ensures
      var s' := Apply(h, s, step);
      && (id in s'.tasks <==> id in s.tasks || Creates(h, s, step, id))
      && (Creates(h, s, step, id) ==> AsRequested(s'.tasks[id], step))
      && (id in s.tasks && !Creates(h, s, step, id) ==> s'.tasks[id] == s.tasks[id].(next := s'.tasks[id].next))
  {
    if step.Execute? && Succeeds(h, s, step) {
      ExecutedRegistry(h, s, step.id, step.caller, step.auth, step.dripReturns);
    }
  }

  ghost predicate FromRequest(h: Host, start: u32, steps: seq<Step>, i: int, id: TaskId, t: Task) {
    RequestedAt(h, start, steps, i, id) && AsRequested(t, steps[i])
  }

  /** In every run the stored tasks are exactly those the admin asked for, each with the
      Drip List, interval, reward and keeper asked for. */
  lemma {:induction false} StoredIffRequested(h: Host, start: u32, steps: seq<Step>, id: TaskId)
    ensures
      var s := Run(h, Genesis(start), steps);
      && (id in s.tasks <==> exists i :: RequestedAt(h, start, steps, i, id))
      && (id in s.tasks ==> exists i :: FromRequest(h, start, steps, i, id, s.tasks[id]))
  {
    if steps != [] {
      var init, last := steps[..|steps| - 1], steps[|steps| - 1];
      var s, s' := Run(h, Genesis(start), init), Run(h, Genesis(start), steps);
      StoredIffRequested(h, start, init, id);
      ReachableWellFormed(h, start, init);
      TaskStep(h, s, last, id);
      forall i ensures RequestedAt(h, start, steps, i, id) <==>
        if i == |init| then Creates(h, s, last, id) else RequestedAt(h, start, init, i, id)
      {
        RequestedInPrefix(h, start, steps, i, id);
      }
      if Creates(h, s, last, id) {
        assert FromRequest(h, start, steps, |init|, id, s'.tasks[id]);
      } else if id in s.tasks {
        var i :| FromRequest(h, start, init, i, id, s.tasks[id]);
        assert FromRequest(h, start, steps, i, id, s'.tasks[id]);
      }
    }
  }

  // ---- execute_drip_split ----

  predicate InGrace(s: State, t: Task) { t.next < s.ledger <= t.next + 50 }

  /** Who may run a task when. */
  predicate MayRun(s: State, t: Task, caller: Address) {
    || (s.ledger == t.next && caller == t.designated)
    || (InGrace(s, t) && caller != t.designated && caller in s.keepers)
    || (s.ledger > t.next + 50 && caller in s.keepers)
  }

  /** Both rewards: in grace a positive half of the slash comes on top. */
  function Due(h: Host, s: State, t: Task): int {
    t.reward +
    if InGrace(s, t) && t.designated in s.keepers
    then Positive(TruncDiv(TruncDiv(h.arith.I128(s.keepers[t.designated].stake * 5), 100), 2)) else 0
  }

  predicate NothingToSlash(s: State, t: Task) {
    InGrace(s, t) && t.designated in s.keepers && s.keepers[t.designated].stake == 0
  }

  /** In every reachable state the answer to an authorised call on a stored task, each
      answer under its own condition. */
  lemma AuthorisedExecutionRule(h: Host, start: u32, steps: seq<Step>, id: TaskId, caller: Address, dripReturns: bool)
    requires caller != h.self && id in Run(h, Genesis(start), steps).tasks
    ensures
      var s := Run(h, Genesis(start), steps);
      var t, r := s.tasks[id], ExecuteOutcome(h, s, id, caller, true, dripReturns);
      && (r == Err(TooEarlyToExecute) <==> s.ledger < t.next)
      && (r == Err(GracePeriodActive) <==> InGrace(s, t) && caller == t.designated)
      && (r == Err(CallerNotSecondaryEligible) <==> InGrace(s, t) && caller != t.designated && caller !in s.keepers)
      && (r == Err(UnauthorizedExecutor) <==>
           || (s.ledger == t.next && caller != t.designated)
           || (s.ledger > t.next + 50 && caller !in s.keepers))
      && (r == Err(SlashOnZeroStake) <==> MayRun(s, t, caller) && NothingToSlash(s, t))
      && (r.Trap? <==> MayRun(s, t, caller) && !NothingToSlash(s, t) && !dripReturns)
      && (r == Err(InsufficientRewardBalance) <==>
           && MayRun(s, t, caller) && !NothingToSlash(s, t) && dripReturns
           && Balance(s.balances, h.self) < Due(h, s, t))
      && (r.Ok? <==>
           && MayRun(s, t, caller) && !NothingToSlash(s, t) && dripReturns
           && Due(h, s, t) <= Balance(s.balances, h.self))
  {
    var s := Run(h, Genesis(start), steps);
    ReachableWellFormed(h, start, steps);
    assert TaskWellFormed(s, id);
  }

  /** An unknown id is reported before authorisation is asked for, a stored one after. */
  lemma UnauthorisedExecutionRule(h: Host, s: State, id: TaskId, caller: Address, auth: bool, dripReturns: bool)
    ensures
      var r := ExecuteOutcome(h, s, id, caller, auth, dripReturns);
      && (r == Err(TaskNotFound) <==> id !in s.tasks)
      && (id in s.tasks && !(auth && caller != h.self) ==> r.Trap?)
  {
  }

  /** What a successful execution writes to the log: its own ledger on every entry; in
      grace the stake the designated keeper is left with and the parts of its slash;
      after grace how many ledgers were missed, always more than 50. */
  lemma ExecutionIsRecorded(h: Host, s: State, run: Step)
    requires WellFormed(h, s) && run.Execute? && Succeeds(h, s, run)
    ensures
      var t, s' := s.tasks[run.id], Apply(h, s, run);
      var plain := Entry(s.ledger, TaskExecuted(run.id, run.caller, s.ledger, t.reward));
      if s.ledger == t.next then s'.log == s.log + [plain]
      else if s.ledger > t.next + 50 then
        s'.log == s.log + [Entry(s.ledger, MissedExecution(run.id, s.ledger - t.next))] + [plain]
      else
        t.designated in s.keepers && t.designated in s'.keepers &&
        var slash := SlashAmount(h.arith, s.keepers[t.designated].stake);
        s'.log == s.log
          + [Entry(s.ledger, SlashApplied(t.designated, slash, s'.keepers[t.designated].stake))]
          + [Entry(s.ledger, TaskExecutedBySecondary(
               run.id, run.caller, t.designated, s.ledger, slash, TruncDiv(slash, 2), t.reward))]
  {
    ExecutedRegistry(h, s, run.id, run.caller, run.auth, run.dripReturns);
  }
}
