/** How often a task can run, whoever runs it. */
module Schedule {
  import opened Machine
  import opened Types
  import opened Slashing
  import opened Contract
  import opened WellFormedness
  import opened Tallies
  import opened TaskIds
  import opened Rules
  import opened Scenario

  /** A task's record since it was provisioned: when, how many runs, micro rewards paid. */
  datatype Tenure = Tenure(since: int, runs: nat, paid: int)

  function Extend(t: Option<Tenure>, x: Entry, id: TaskId): Option<Tenure> {
    match x.event
    case TaskProvisioned(i, _, _, _, _) => if i == id then Some(Tenure(x.ledger, 0, 0)) else t
    case TaskExecuted(i, _, _, reward) => if i == id then AddRun(t, reward) else t
    case TaskExecutedBySecondary(i, _, _, _, _, _, reward) => if i == id then AddRun(t, reward) else t
    case _ => t
  }

  function AddRun(t: Option<Tenure>, reward: int): Option<Tenure> {
    if t.Some? then Some(t.value.(runs := t.value.runs + 1, paid := t.value.paid + reward)) else t
  }

  function TenureOf(log: seq<Entry>, id: TaskId): Option<Tenure> {
    if log == [] then None
    else Extend(TenureOf(log[..|log| - 1], id), log[|log| - 1], id)
  }

  lemma TenureAppend(log: seq<Entry>, x: Entry, id: TaskId)
    ensures TenureOf(log + [x], id) == Extend(TenureOf(log, id), x, id)
  {
    assert (log + [x])[..|log + [x]| - 1] == log;
  }

  lemma TenureLast(log: seq<Entry>, x: Entry, id: TaskId, t: Option<Tenure>, t': Option<Tenure>)
    requires TenureOf(log, id) == t && Extend(t, x, id) == t'
    ensures TenureOf(log + [x], id) == t'
  {
    TenureAppend(log, x, id);
  }

  lemma TenureEntries(log: seq<Entry>, entries: seq<Entry>, id: TaskId, t: Option<Tenure>, t': Option<Tenure>)
    requires 1 <= |entries| <= 2 && TenureOf(log, id) == t
    requires |entries| == 2 ==> Extend(t, entries[0], id) == t
    requires Extend(t, entries[|entries| - 1], id) == t'
    ensures TenureOf(log + entries, id) == t'
  {
    if |entries| == 1 {
      assert log + entries == log + [entries[0]];
      TenureLast(log, entries[0], id, t, t');
    } else {
      TenureLast(log, entries[0], id, t, t);
      TenureLast(log + [entries[0]], entries[1], id, t, t');
      assert log + [entries[0]] + [entries[1]] == log + entries;
    }
  }

  /** The last entry of an execution is the one that counts as a run of its task. */
  lemma LastEntryIsTheRun(h: Host, s: State, ran: TaskId, caller: Address, t: Option<Tenure>, id: TaskId)
    requires ran in s.tasks && s.tasks[ran].id == ran
    requires !RegionAt(s.tasks[ran].next, s.ledger).PreWindow?
    ensures
      var entries := ExecutionEntries(h, s, ran, caller);
      && Extend(t, entries[|entries| - 1], id) == (if id == ran then AddRun(t, s.tasks[ran].reward) else t)
      && (|entries| == 2 ==> Extend(t, entries[0], id) == t)
  {
  }

  lemma TenureExecution(h: Host, s: State, ran: TaskId, caller: Address, id: TaskId)
    requires ran in s.tasks && s.tasks[ran].id == ran
    requires !RegionAt(s.tasks[ran].next, s.ledger).PreWindow?
    ensures TenureOf(s.log + ExecutionEntries(h, s, ran, caller), id) ==
      if id == ran then AddRun(TenureOf(s.log, id), s.tasks[ran].reward) else TenureOf(s.log, id)
  {
    var before := TenureOf(s.log, id);
    LastEntryIsTheRun(h, s, ran, caller, before, id);
    TenureEntries(s.log, ExecutionEntries(h, s, ran, caller), id, before,
      if id == ran then AddRun(before, s.tasks[ran].reward) else before);
  }

  ghost predicate OnSchedule(s: State, id: TaskId)
    requires id in s.tasks
  {
    var t, tenure := s.tasks[id], TenureOf(s.log, id);
    && tenure.Some?
    && tenure.value.since + (tenure.value.runs + 1) * t.interval <= t.next <= s.ledger + t.interval
    && tenure.value.paid == tenure.value.runs * t.reward
  }

  lemma OneMoreRun(since: int, runs: nat, interval: int, next: int, ledger: int)
    requires since + (runs + 1) * interval <= next <= ledger
    ensures since + (runs + 2) * interval <= ledger + interval
  {
    assert (runs + 2) * interval == (runs + 1) * interval + interval;
  }

  /** The window the code computes, without wrapping. */
  predicate WindowFits(a: Arith, ledger: int, interval: int) { a.U32(ledger + interval) == ledger + interval }

  /** A run in its window, rescheduled from the current ledger, keeps the schedule. */
  lemma OnScheduleRun(before: State, after: State, id: TaskId)
    requires id in before.tasks && id in after.tasks && OnSchedule(before, id)
    requires
      var t := before.tasks[id];
      && t.next <= before.ledger == after.ledger
      && after.tasks[id] == t.(next := before.ledger + t.interval)
      && TenureOf(after.log, id) == AddRun(TenureOf(before.log, id), t.reward)
    ensures OnSchedule(after, id)
  {
    var t, tenure := before.tasks[id], TenureOf(before.log, id).value;
    OneMoreRun(tenure.since, tenure.runs, t.interval, t.next, before.ledger);
    assert (tenure.runs + 1) * t.reward == tenure.runs * t.reward + t.reward;
  }

  lemma OnScheduleExecution(h: Host, s: State, ran: TaskId, caller: Address, auth: bool, dripReturns: bool, id: TaskId)
    requires WellFormed(h, s)
    requires ExecuteOutcome(h, s, ran, caller, auth, dripReturns).Ok?
    requires id in s.tasks && OnSchedule(s, id) && WindowFits(h.arith, s.ledger, s.tasks[id].interval)
    ensures id in Executed(h, s, ran, caller).tasks && OnSchedule(Executed(h, s, ran, caller), id)
  {
    ExecutedRegistry(h, s, ran, caller, auth, dripReturns);
    TenureExecution(h, s, ran, caller, id);
    if id == ran { OnScheduleRun(s, Executed(h, s, ran, caller), id); }
  }

  lemma OnScheduleProvision(h: Host, s: State, dripList: Address, interval: int, reward: int, d: Address, id: TaskId)
    requires id in s.tasks ==> OnSchedule(s, id)
    requires WindowFits(h.arith, s.ledger, interval)
    ensures
      var s' := Provisioned(h, s, dripList, interval, reward, d);
      id in s'.tasks ==> OnSchedule(s', id)
  {
    TenureAppend(s.log, Stamp(s, TaskProvisioned(NextTaskId(h, s), dripList, interval, reward, d)), id);
  }

  lemma OnScheduleStep(h: Host, s: State, step: Step, id: TaskId)
    requires WellFormed(h, s)
    requires id in s.tasks ==> OnSchedule(s, id) && WindowFits(h.arith, s.ledger, s.tasks[id].interval)
    requires step.Provision? ==> WindowFits(h.arith, s.ledger, step.interval)
    requires id in Apply(h, s, step).tasks
    ensures OnSchedule(Apply(h, s, step), id)
  {
    if Succeeds(h, s, step) {
      match step
      case Register(keeper, stake, _) =>
        TenureAppend(s.log, Stamp(s, KeeperRegistered(keeper, stake)), id);
      case Provision(dripList, interval, reward, d, _) =>
        OnScheduleProvision(h, s, dripList, interval, reward, d, id);
      case Execute(ran, caller, auth, dripReturns) =>
        ExecutedRegistry(h, s, ran, caller, auth, dripReturns);
        OnScheduleExecution(h, s, ran, caller, auth, dripReturns, id);
      case _ =>
    }
  }

  // ---- Room for the schedule ----

  predicate IntervalsWithin(steps: seq<Step>, cap: int) {
    forall i :: 0 <= i < |steps| && steps[i].Provision? ==> steps[i].interval <= cap
  }

  /** Arithmetic is exact, or no interval exceeds `cap` and the ledger reached leaves
      room for one. Stakes, minimums and the length of the run do not matter. */
  predicate Roomy(a: Arith, steps: seq<Step>, ledger: int, cap: int) {
    a.Exact? || (IntervalsWithin(steps, cap) && ledger + cap <= U32_MAX)
  }

  lemma RoomyPrefix(a: Arith, steps: seq<Step>, ledger: int, ledger': int, cap: int)
    requires steps != [] && Roomy(a, steps, ledger', cap) && ledger <= ledger'
    ensures Roomy(a, steps[..|steps| - 1], ledger, cap)
  {
    var init := steps[..|steps| - 1];
    assert forall i :: 0 <= i < |init| ==> init[i] == steps[i];
  }

  lemma StoredIntervalsWithin(h: Host, start: u32, steps: seq<Step>, id: TaskId, cap: int)
    requires IntervalsWithin(steps, cap) && id in Run(h, Genesis(start), steps).tasks
    ensures Run(h, Genesis(start), steps).tasks[id].interval <= cap
  {
    var t := Run(h, Genesis(start), steps).tasks[id];
    StoredIffRequested(h, start, steps, id);
    var i :| FromRequest(h, start, steps, i, id, t);
  }

  lemma FitsWithRoom(a: Arith, ledger: int, interval: int, cap: int)
    requires ledger >= 0 && interval >= 0 && (a.Exact? || (interval <= cap && ledger + cap <= U32_MAX))
    ensures WindowFits(a, ledger, interval)
  {
  }

  lemma {:induction false} AlwaysOnSchedule(h: Host, start: u32, steps: seq<Step>, id: TaskId, cap: int)
    requires Roomy(h.arith, steps, Run(h, Genesis(start), steps).ledger, cap)
    requires id in Run(h, Genesis(start), steps).tasks
    ensures OnSchedule(Run(h, Genesis(start), steps), id)
  {
    if steps != [] {
      var init, last := steps[..|steps| - 1], steps[|steps| - 1];
      var s := Run(h, Genesis(start), init);
      ReachableWellFormed(h, start, init);
      LedgerStep(h, s, last);
      RoomyPrefix(h.arith, steps, s.ledger, Run(h, Genesis(start), steps).ledger, cap);
      if id in s.tasks {
        AlwaysOnSchedule(h, start, init, id, cap);
        assert TaskWellFormed(s, id);
        if h.arith.Release? { StoredIntervalsWithin(h, start, init, id, cap); }
        FitsWithRoom(h.arith, s.ledger, s.tasks[id].interval, cap);
      }
      if last.Provision? { FitsWithRoom(h.arith, s.ledger, last.interval, cap); }
      OnScheduleStep(h, s, last, id);
    }
  }

  lemma RateFromSchedule(elapsed: int, runs: nat, interval: int, reward: int)
    requires interval > 0 && reward > 0 && (runs + 1) * interval <= elapsed + interval
    ensures runs * interval <= elapsed
    ensures (runs * reward) * interval <= elapsed * reward
  {
    assert (runs + 1) * interval == runs * interval + interval;
    assert (runs * reward) * interval == (runs * interval) * reward;
    assert (elapsed - runs * interval) * reward >= 0;
  }

  /** In either arithmetic, as long as windows do not wrap: a task provisioned at P with
      interval I and run n times satisfies n*I <= now - P,
      and the micro rewards paid for it are n times its reward, so at most the
      reward rate times the elapsed time. */
  lemma ExecutionRateBound(h: Host, start: u32, steps: seq<Step>, id: TaskId, cap: int)
    requires Roomy(h.arith, steps, Run(h, Genesis(start), steps).ledger, cap)
    requires id in Run(h, Genesis(start), steps).tasks
    ensures
      var s := Run(h, Genesis(start), steps);
      var t, tenure := s.tasks[id], TenureOf(s.log, id);
      && tenure.Some?
      && tenure.value.since + (tenure.value.runs + 1) * t.interval <= t.next
      && tenure.value.runs * t.interval <= s.ledger - tenure.value.since
      && tenure.value.paid == tenure.value.runs * t.reward
      && tenure.value.paid * t.interval <= (s.ledger - tenure.value.since) * t.reward
  {
    AlwaysOnSchedule(h, start, steps, id, cap);
    ReachableWellFormed(h, start, steps);
    var s := Run(h, Genesis(start), steps);
    var t, tenure := s.tasks[id], TenureOf(s.log, id).value;
    assert TaskWellFormed(s, id);
    RateFromSchedule(s.ledger - tenure.since, tenure.runs, t.interval, t.reward);
  }

  /** A task whose window is still ahead is left as it is by every step that does not
      provision over it. */
  lemma ClosedWindowStep(h: Host, s: State, step: Step, id: TaskId)
    requires WellFormed(h, s) && id in s.tasks && s.ledger < s.tasks[id].next
    requires step.Provision? && Succeeds(h, s, step) ==> NextTaskId(h, s) != id
    ensures id in Apply(h, s, step).tasks && Apply(h, s, step).tasks[id] == s.tasks[id]
  {
    if step.Execute? && Succeeds(h, s, step) {
      ExecutedRegistry(h, s, step.id, step.caller, step.auth, step.dripReturns);
    }
  }

  lemma ClosedWindowRejects(h: Host, s: State, id: TaskId)
    requires id in s.tasks && s.ledger < s.tasks[id].next
    ensures forall caller, auth, dripReturns ::
      var again := ExecuteOutcome(h, s, id, caller, auth, dripReturns);
      again == Err(TooEarlyToExecute) || again.Trap?
  {
  }

  /** The same in a reachable state, where no step provisions over a stored task. */
  lemma ClosedWindowReachable(h: Host, start: u32, path: seq<Step>, step: Step, id: TaskId)
    requires CollisionFree(h)
    requires
      var s := Run(h, Genesis(start), path);
      id in s.tasks && s.ledger < s.tasks[id].next && Tally(Apply(h, s, step).log, Provisions) <= U32_MAX + 1
    ensures
      var s := Run(h, Genesis(start), path);
      id in Apply(h, s, step).tasks && Apply(h, s, step).tasks[id] == s.tasks[id]
  {
    var s := Run(h, Genesis(start), path);
    ProvisionsGrow(h, s, step);
    ReachableWellFormed(h, start, path);
    if step.Provision? && Succeeds(h, s, step) { NextIdIsFresh(h, start, path); }
    ClosedWindowStep(h, s, step, id);
  }

  ghost predicate Untouched(h: Host, start: u32, steps: seq<Step>, id: TaskId, more: seq<Step>)
    requires id in Run(h, Genesis(start), steps).tasks
  {
    var task, after := Run(h, Genesis(start), steps).tasks[id], Run(h, Genesis(start), steps + more);
    after.ledger < task.next && Tally(after.log, Provisions) <= U32_MAX + 1 ==> id in after.tasks && after.tasks[id] == task
  }

  lemma {:induction false} WindowStaysClosed(h: Host, start: u32, steps: seq<Step>, id: TaskId, more: seq<Step>)
    requires CollisionFree(h)
    requires id in Run(h, Genesis(start), steps).tasks
    ensures Untouched(h, start, steps, id, more)
    decreases |more|
  {
    if more == [] {
      assert steps + more == steps;
    } else {
      var init, last := more[..|more| - 1], more[|more| - 1];
      var mid := Run(h, Genesis(start), steps + init);
      assert steps + more == steps + init + [last];
      RunSnoc(h, Genesis(start), steps + init, last);
      LedgerStep(h, mid, last);
      ProvisionsGrow(h, mid, last);
      WindowStaysClosed(h, start, steps, id, init);
      var next := Run(h, Genesis(start), steps).tasks[id].next;
      if Apply(h, mid, last).ledger < next && Tally(Apply(h, mid, last).log, Provisions) <= U32_MAX + 1 {
        ClosedWindowReachable(h, start, steps + init, last, id);
      }
    }
  }

  /** After a success at ledger L that reschedules to L + I without wrapping, and
      whatever happens in between, every further execution of the task before L + I is
      turned away: racing submissions cannot both succeed. */
  lemma NoSecondRunWithinInterval(h: Host, start: u32, steps: seq<Step>, win: Step, more: seq<Step>)
    requires CollisionFree(h)
    requires win.Execute? && Succeeds(h, Run(h, Genesis(start), steps), win)
    requires Tally(Run(h, Genesis(start), steps + [win] + more).log, Provisions) <= U32_MAX + 1
    requires
      var before := Run(h, Genesis(start), steps);
      var next := before.ledger + before.tasks[win.id].interval;
      WindowFits(h.arith, before.ledger, before.tasks[win.id].interval)
      && Run(h, Genesis(start), steps + [win] + more).ledger < next
    ensures
      var before := Run(h, Genesis(start), steps);
      var after := Run(h, Genesis(start), steps + [win] + more);
      && win.id in after.tasks
      && after.tasks[win.id] == before.tasks[win.id].(next := before.ledger + before.tasks[win.id].interval)
      && forall caller, auth, dripReturns ::
           var again := ExecuteOutcome(h, after, win.id, caller, auth, dripReturns);
           again == Err(TooEarlyToExecute) || again.Trap?
  {
    var before := Run(h, Genesis(start), steps);
    ReachableWellFormed(h, start, steps);
    ExecutedRegistry(h, before, win.id, win.caller, win.auth, win.dripReturns);
    RunSnoc(h, Genesis(start), steps, win);
    WindowStaysClosed(h, start, steps + [win], win.id, more);
    ClosedWindowRejects(h, Run(h, Genesis(start), steps + [win] + more), win.id);
  }

  // ---- The schedule advances, as long as it fits ----

  lemma AdvanceFits(a: Arith, ledger: int, interval: int, previous: int)
    requires FitsU32(ledger) && 0 < interval <= U32_MAX && previous <= ledger
    ensures a.U32(ledger + interval) > ledger <==> a.Exact? || FitsU32(ledger + interval)
    ensures a.U32(ledger + interval) > previous
      <==> a.Exact? || FitsU32(ledger + interval) || ledger + interval - (U32_MAX + 1) > previous
  {
    var next := ledger + interval;
    assert FitsU32(next) || WrapU32(next) == next - (U32_MAX + 1);
  }

  lemma Rescheduled(h: Host, s: State, win: Step)
    requires WellFormed(h, s) && win.Execute? && Succeeds(h, s, win)
    ensures 0 < s.tasks[win.id].interval <= U32_MAX && s.tasks[win.id].next <= s.ledger
    ensures
      var tasks := Apply(h, s, win).tasks;
      win.id in tasks && tasks[win.id].next == h.arith.U32(s.ledger + s.tasks[win.id].interval)
  {
    assert TaskWellFormed(s, win.id);
    ExecutedRegistry(h, s, win.id, win.caller, win.auth, win.dripReturns);
  }

  /** In a well-formed, so in every reachable state: a successful execution moves the
      window into the future exactly when ledger + interval fits (or arithmetic is
      exact), and past the old window exactly when it fits or the wrapped sum still
      lies beyond it. */
  lemma ScheduleAdvancesIff(h: Host, s: State, win: Step)
    requires WellFormed(h, s) && win.Execute? && Succeeds(h, s, win)
    ensures
      var t, next, tasks := s.tasks[win.id], s.ledger + s.tasks[win.id].interval, Apply(h, s, win).tasks;
      && win.id in tasks
      && (tasks[win.id].next > s.ledger <==> h.arith.Exact? || FitsU32(next))
      && (tasks[win.id].next > t.next <==> h.arith.Exact? || FitsU32(next) || next - (U32_MAX + 1) > t.next)
  {
    Rescheduled(h, s, win);
    AdvanceFits(h.arith, s.ledger, s.tasks[win.id].interval, s.tasks[win.id].next);
  }

  /** A task the compiled contract accepts and puts in its grace region at once: at
      ledger 2, an interval of u32::MAX wraps the first window to ledger 1. */
  lemma WrappedWindowIsOverdue(h: Host, m: i128)
    requires h.arith.Release?
    ensures
      var late := Provision(Outsider(h, 'l'), U32_MAX, 1, Outsider(h, 'd'), true);
      var steps := TwoKeepers(h, false, m, m) + [Advance(2)];
      var s := Run(h, Genesis(0), steps);
      var s' := Run(h, Genesis(0), steps + [late]);
      && Succeeds(h, s, late)
      && NextTaskId(h, s) in s'.tasks
      && RegionAt(s'.tasks[NextTaskId(h, s)].next, s'.ledger).Grace?
  {
    var late := Provision(Outsider(h, 'l'), U32_MAX, 1, Outsider(h, 'd'), true);
    DistinctOutsiders(h);
    TwoKeepersState(h, false, m, m);
    RunSnoc(h, Genesis(0), TwoKeepers(h, false, m, m), Advance(2));
    RunSnoc(h, Genesis(0), TwoKeepers(h, false, m, m) + [Advance(2)], late);
    assert WrapU32(2 + U32_MAX) == 1;
  }

  /** That history, with two stroops to pay out. */
  function OverdueTask(h: Host): seq<Step> {
    TwoKeepers(h, false, 5, 5) + [MoveTokens(None, h.self, 2)] + [Advance(2)]
    + [Provision(Outsider(h, 'l'), U32_MAX, 1, Outsider(h, 'd'), true)]
  }

  ghost predicate Overdue(h: Host, s: State, id: TaskId, funds: int, d: Address, e: Address) {
    && d != e && d != h.self && e != h.self
    && s.ledger == 2 && s.token.Some? && Balance(s.balances, h.self) == funds
    && d in s.keepers && e in s.keepers && s.keepers[d].address == d && s.keepers[e].address == e
    && s.keepers[d].stake == 5
    && id in s.tasks && s.tasks[id] == Task(id, s.tasks[id].dripList, U32_MAX, 1, 1, d)
  }

  lemma OverdueState(h: Host)
    requires h.arith.Release?
    ensures Overdue(h, Run(h, Genesis(0), OverdueTask(h)), h.sha256(Seed(0, 2)), 2, Outsider(h, 'd'), Outsider(h, 'e'))
  {
    var w := TwoKeepers(h, false, 5, 5);
    DistinctOutsiders(h);
    TwoKeepersState(h, false, 5, 5);
    RunSnoc(h, Genesis(0), w, MoveTokens(None, h.self, 2));
    RunSnoc(h, Genesis(0), w + [MoveTokens(None, h.self, 2)], Advance(2));
    RunSnoc(h, Genesis(0), w + [MoveTokens(None, h.self, 2)] + [Advance(2)],
      Provision(Outsider(h, 'l'), U32_MAX, 1, Outsider(h, 'd'), true));
    assert WrapU32(2 + U32_MAX) == 1;
  }

  /** A stake of 5 survives a compiled slash whole and earns the secondary nothing. */
  lemma SmallStakeSurvives()
    ensures StakeAfterSlash(Release, 5) == 5 && SecondaryReward(Release, 5) == 0
  {
    SlashExactUpTo(Release, 5);
  }

  lemma OverdueBonus(h: Host, s: State, id: TaskId, funds: int, d: Address, e: Address)
    requires h.arith.Release? && Overdue(h, s, id, funds, d, e)
    ensures Bonus(h, s, s.tasks[id]) == 0
  {
    SmallStakeSurvives();
  }

  lemma OverdueAccepted(h: Host, s: State, id: TaskId, funds: int, d: Address, e: Address)
    requires Overdue(h, s, id, funds, d, e) && funds >= 1 && Bonus(h, s, s.tasks[id]) == 0
    ensures ExecuteOutcome(h, s, id, e, true, true).Ok?
  {
  }

  lemma OverdueRegistry(h: Host, s: State, id: TaskId, funds: int, d: Address, e: Address)
    requires h.arith.Release? && Overdue(h, s, id, funds, d, e)
    ensures
      var s' := Executed(h, s, id, e);
      && d in s'.keepers && e in s'.keepers && s'.keepers[d].address == d && s'.keepers[e].address == e
      && s'.keepers[d].stake == 5
  {
    SmallStakeSurvives();
    assert Executed(h, s, id, e).keepers[d] == SlashedKeeper(Release, s.keepers[d]);
  }

  lemma OverdueWindowStays(h: Host, s: State, id: TaskId, funds: int, d: Address, e: Address)
    requires h.arith.Release? && Overdue(h, s, id, funds, d, e) && Bonus(h, s, s.tasks[id]) == 0
    ensures
      var s' := Executed(h, s, id, e);
      && s'.tasks == s.tasks && s'.ledger == s.ledger && s'.token == s.token
      && Balance(s'.balances, h.self) == funds - 1
  {
    assert WrapU32(2 + U32_MAX) == 1;
  }

  lemma OverdueExecution(h: Host, s: State, id: TaskId, funds: int, d: Address, e: Address)
    requires h.arith.Release? && Overdue(h, s, id, funds, d, e) && funds >= 1
    ensures
      var again := Execute(id, e, true, true);
      Succeeds(h, s, again) && Overdue(h, Apply(h, s, again), id, funds - 1, d, e)
  {
    OverdueBonus(h, s, id, funds, d, e);
    OverdueAccepted(h, s, id, funds, d, e);
    OverdueRegistry(h, s, id, funds, d, e);
    OverdueWindowStays(h, s, id, funds, d, e);
  }

  /** The failing execution behind the exact condition above: the compiled contract
      accepts an overdue a task, runs it at ledger 2, leaves its window at ledger 1, and runs
      it again in the same ledger. */
  lemma WrappedWindowRunsTwice(h: Host)
    requires h.arith.Release?
    ensures
      var id := h.sha256(Seed(0, 2));
      var again := Execute(id, Outsider(h, 'e'), true, true);
      var s0 := Run(h, Genesis(0), OverdueTask(h));
      var s1 := Run(h, Genesis(0), OverdueTask(h) + [again]);
      var s2 := Run(h, Genesis(0), OverdueTask(h) + [again] + [again]);
      && id in s0.tasks && id in s1.tasks && id in s2.tasks
      && Succeeds(h, s0, again) && Succeeds(h, s1, again)
      && s0.tasks[id].next == s1.tasks[id].next == s2.tasks[id].next == 1
      && s0.ledger == s1.ledger == s2.ledger == 2
  {
    var id := h.sha256(Seed(0, 2));
    var again, w := Execute(id, Outsider(h, 'e'), true, true), OverdueTask(h);
    OverdueState(h);
    OverdueExecution(h, Run(h, Genesis(0), w), id, 2, Outsider(h, 'd'), Outsider(h, 'e'));
    RunSnoc(h, Genesis(0), w, again);
    OverdueExecution(h, Run(h, Genesis(0), w + [again]), id, 1, Outsider(h, 'd'), Outsider(h, 'e'));
    RunSnoc(h, Genesis(0), w + [again], again);
  }

  lemma PostGraceExecutes(h: Host, s: State, id: TaskId, keeper: Address)
    requires WellFormed(h, s) && id in s.tasks && keeper in s.keepers
    requires RegionAt(s.tasks[id].next, s.ledger).PostGrace? && s.tasks[id].reward <= Balance(s.balances, h.self)
    ensures ExecuteOutcome(h, s, id, keeper, true, true).Ok?
  {
    assert TaskWellFormed(s, id);
  }

  /** No task is ever stuck: from every reachable state, once its grace period has
      passed, any registered keeper can run it, whatever has become of the designated
      keeper's stake, as long as the Anchor can pay the micro reward. */
  lemma NeverStuck(h: Host, start: u32, steps: seq<Step>, id: TaskId, keeper: Address, to: u32)
    requires
      var s := Run(h, Genesis(start), steps);
      && id in s.tasks && keeper in s.keepers
      && s.tasks[id].next + GRACE_LEDGERS < to
      && s.tasks[id].reward <= Balance(s.balances, h.self)
    ensures ExecuteOutcome(h, Run(h, Genesis(start), steps + [Advance(to)]), id, keeper, true, true).Ok?
  {
    var s := Run(h, Genesis(start), steps);
    RunSnoc(h, Genesis(start), steps, Advance(to));
    ReachableWellFormed(h, start, steps);
    WellFormedStep(h, s, Advance(to));
    PostGraceExecutes(h, Apply(h, s, Advance(to)), id, keeper);
  }
}
