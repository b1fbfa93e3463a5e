/** Execution statistics add up. */
module Accounting {
  import opened Machine
  import opened Types
  import opened Contract
  import opened Tallies
  import opened WellFormedness

  ghost predicate StatsAddUp(s: State) {
    && Sum(s.keepers, ExecutionCounts) == Tally(s.log, Executions)
    && KeeperStats(s)
  }

  ghost predicate KeeperStats(s: State) {
    && s.ledger >= 0
    && (forall a :: a in s.keepers ==> StatsOf(s.keepers[a], s.ledger))
    && (forall id :: id in s.tasks ==> NotDueAtZero(s.tasks[id], s.ledger))
  }

  predicate StatsOf(k: Keeper, ledger: int) {
    0 <= k.lastExecution <= ledger && k.executions >= 0 && (k.lastExecution == 0 <==> k.executions == 0)
  }

  /** Nothing is executed at ledger 0, the ledger that stands for "never". */
  predicate NotDueAtZero(t: Task, ledger: int) { ledger == 0 ==> t.next > 0 }

  /** The logged executions are few enough for a u64 to count, or counted exactly. */
  predicate Countable(a: Arith, executions: int) { a.Exact? || executions <= U64_MAX }

  /** A keeper's count is at most all executions, so one more still fits. */
  lemma CountFits(a: Arith, s: State, k: Address)
    requires StatsAddUp(s) && k in s.keepers && Countable(a, Tally(s.log, Executions) + 1)
    ensures a.U64(s.keepers[k].executions + 1) == s.keepers[k].executions + 1
  {
    forall a | a in s.keepers ensures Cell(s.keepers[a], ExecutionCounts) >= 0 {
      assert StatsOf(s.keepers[a], s.ledger);
    }
    CellAtMostSum(s.keepers, ExecutionCounts);
    assert Cell(s.keepers[k], ExecutionCounts) == s.keepers[k].executions;
  }

  /** The sum half: one more execution in the log, one more in the registry. */
  lemma CountsExecution(h: Host, s: State, id: TaskId, caller: Address, auth: bool, dripReturns: bool)
    requires WellFormed(h, s)
    requires ExecuteOutcome(h, s, id, caller, auth, dripReturns).Ok?
    requires h.arith.U64(s.keepers[caller].executions + 1) == s.keepers[caller].executions + 1
    ensures Sum(Executed(h, s, id, caller).keepers, ExecutionCounts) == Sum(s.keepers, ExecutionCounts) + 1
  {
    ExecutedRegistry(h, s, id, caller, auth, dripReturns);
    var d := s.tasks[id].designated;
    var credited := CreditedKeeper(h.arith, s.keepers[caller], s.ledger);
    if RegionAt(s.tasks[id].next, s.ledger).Grace? {
      var slashed := SlashedKeeper(h.arith, s.keepers[d]);
      SumUpdate(s.keepers, d, slashed, ExecutionCounts);
      SumUpdate(s.keepers[d := slashed], caller, credited, ExecutionCounts);
    } else {
      SumUpdate(s.keepers, caller, credited, ExecutionCounts);
    }
  }

  /** The keeper half: every record is kept, slashed or credited. */
  lemma KeeperStatsExecution(h: Host, s: State, id: TaskId, caller: Address, auth: bool, dripReturns: bool)
    requires WellFormed(h, s) && KeeperStats(s)
    requires ExecuteOutcome(h, s, id, caller, auth, dripReturns).Ok?
    requires h.arith.U64(s.keepers[caller].executions + 1) == s.keepers[caller].executions + 1
    ensures KeeperStats(Executed(h, s, id, caller))
  {
    ExecutedRegistry(h, s, id, caller, auth, dripReturns);
    assert NotDueAtZero(s.tasks[id], s.ledger);
    var s' := Executed(h, s, id, caller);
    forall a | a in s'.keepers ensures StatsOf(s'.keepers[a], s'.ledger) {
      assert a in s.keepers && StatsOf(s.keepers[a], s.ledger);
    }
  }

  lemma KeeperStatsProvision(h: Host, s: State, dripList: Address, interval: int, reward: int, d: Address)
    requires WellFormed(h, s) && KeeperStats(s) && 0 < interval <= U32_MAX
    ensures KeeperStats(Provisioned(h, s, dripList, interval, reward, d))
  {
  }

  lemma KeeperStatsStep(h: Host, s: State, step: Step)
    requires WellFormed(h, s) && StatsAddUp(s) && Countable(h.arith, Tally(Apply(h, s, step).log, Executions))
    ensures KeeperStats(Apply(h, s, step))
  {
    TallyStep(h, s, step, Executions);
    ExecutionsWeight(h, s, step);
    if Succeeds(h, s, step) {
      match step
      case Provision(dripList, interval, reward, d, _) => KeeperStatsProvision(h, s, dripList, interval, reward, d);
      case Execute(id, caller, auth, dripReturns) =>
        CountFits(h.arith, s, caller);
        KeeperStatsExecution(h, s, id, caller, auth, dripReturns);
      case _ =>
    }
  }

  lemma CountsStep(h: Host, s: State, step: Step)
    requires WellFormed(h, s) && StatsAddUp(s) && Countable(h.arith, Tally(Apply(h, s, step).log, Executions))
    ensures Sum(Apply(h, s, step).keepers, ExecutionCounts) ==
      Sum(s.keepers, ExecutionCounts) + Indicator(step.Execute? && Succeeds(h, s, step))
  {
    TallyStep(h, s, step, Executions);
    ExecutionsWeight(h, s, step);
    if Succeeds(h, s, step) {
      match step
      case Register(k, stake, _) => SumUpdate(s.keepers, k, Keeper(k, stake, 0, 0, false), ExecutionCounts);
      case Execute(id, caller, auth, dripReturns) =>
        CountFits(h.arith, s, caller);
        CountsExecution(h, s, id, caller, auth, dripReturns);
      case _ =>
    }
  }

  lemma StatsStep(h: Host, s: State, step: Step)
    requires WellFormed(h, s) && StatsAddUp(s) && Countable(h.arith, Tally(Apply(h, s, step).log, Executions))
    ensures StatsAddUp(Apply(h, s, step))
  {
    TallyStep(h, s, step, Executions);
    ExecutionsWeight(h, s, step);
    KeeperStatsStep(h, s, step);
    CountsStep(h, s, step);
  }

  /** Over every run, in either arithmetic while a u64 can count the logged executions:
      the keepers' execution counts sum to the number of successful executions; a
      keeper's last execution is never in the future, and is 0 exactly when it has
      executed nothing. */
  lemma {:induction false} ExecutionsAddUp(h: Host, start: u32, steps: seq<Step>)
    requires Countable(h.arith, Tally(Run(h, Genesis(start), steps).log, Executions))
    ensures StatsAddUp(Run(h, Genesis(start), steps))
  {
    if steps != [] {
      var init, last := steps[..|steps| - 1], steps[|steps| - 1];
      var s := Run(h, Genesis(start), init);
      TallyStep(h, s, last, Executions);
      ExecutionsWeight(h, s, last);
      ExecutionsAddUp(h, start, init);
      ReachableWellFormed(h, start, init);
      StatsStep(h, s, last);
    }
  }
}
