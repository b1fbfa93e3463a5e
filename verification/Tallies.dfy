/** Sums over the event log and over the keeper registry. */
module Tallies {
  import opened Types
  import opened Contract

  datatype Measure =
    | StakeRegistered                       // stake of every registration
    | StakeRegisteredBy(keeper: Address)    // stake a keeper registered with
    | RegistrationsOf(keeper: Address)
    | Provisions
    | ProvisionsOf(id: TaskId)
    | AssignmentsTo(keeper: Address)        // provisioned tasks that designate a keeper
    | Executions                            // successful executions, of any task
    | GraceExecutionsAgainst(keeper: Address)
    | SecondaryRewards                      // secondary rewards as recorded
    | Payouts                               // tokens paid out by the Anchor
    | EarnedBy(keeper: Address)             // tokens paid to one keeper
    | ZeroSlashes

  function Positive(x: int): int { if x > 0 then x else 0 }

  function Indicator(b: bool): int { if b then 1 else 0 }

  /** What one event contributes to a measure, read off the event's own fields. */
  function Weight(e: Event, m: Measure): int {
    match m
    case StakeRegistered => if e.KeeperRegistered? then e.stake else 0
    case StakeRegisteredBy(k) => if e.KeeperRegistered? && e.keeper == k then e.stake else 0
    case RegistrationsOf(k) => Indicator(e.KeeperRegistered? && e.keeper == k)
    case Provisions => Indicator(e.TaskProvisioned?)
    case ProvisionsOf(id) => Indicator(e.TaskProvisioned? && e.id == id)
    case AssignmentsTo(k) => Indicator(e.TaskProvisioned? && e.designated == k)
    case Executions => Indicator(e.TaskExecuted? || e.TaskExecutedBySecondary?)
    case GraceExecutionsAgainst(k) => Indicator(e.TaskExecutedBySecondary? && e.missedBy == k)
    case SecondaryRewards => if e.TaskExecutedBySecondary? then e.secondaryReward else 0
    case Payouts => Paid(e)
    case EarnedBy(k) => if PaidTo(e, k) then Paid(e) else 0
    case ZeroSlashes => Indicator(e.ZeroSlash?)
  }

  function Paid(e: Event): int {
    match e
    case TaskExecuted(_, _, _, reward) => reward
    case TaskExecutedBySecondary(_, _, _, _, _, secondaryReward, reward) => reward + Positive(secondaryReward)
    case _ => 0
  }

  predicate PaidTo(e: Event, k: Address) {
    (e.TaskExecuted? && e.executor == k) || (e.TaskExecutedBySecondary? && e.secondary == k)
  }

  function Tally(log: seq<Entry>, m: Measure): int {
    if log == [] then 0 else Tally(log[..|log| - 1], m) + Weight(log[|log| - 1].event, m)
  }

  lemma TallyAppend(log: seq<Entry>, x: Entry, m: Measure)
    ensures Tally(log + [x], m) == Tally(log, m) + Weight(x.event, m)
  {
    assert (log + [x])[..|log + [x]| - 1] == log;
  }

  function EntriesWeight(entries: seq<Entry>, m: Measure): int
    requires 1 <= |entries| <= 2
  {
    Weight(entries[0].event, m) + if |entries| == 2 then Weight(entries[1].event, m) else 0
  }

  lemma TallyEntries(log: seq<Entry>, entries: seq<Entry>, m: Measure)
    requires 1 <= |entries| <= 2
    ensures Tally(log + entries, m) == Tally(log, m) + EntriesWeight(entries, m)
  {
    TallyAppend(log, entries[0], m);
    if |entries| == 1 {
      assert log + entries == log + [entries[0]];
    } else {
      TallyAppend(log + [entries[0]], entries[1], m);
      assert log + entries == log + [entries[0]] + [entries[1]];
    }
  }

  /** What a step adds to a measure. */
  function StepWeight(h: Host, s: State, step: Step, m: Measure): int {
    if !Succeeds(h, s, step) then 0
    else
      match step
      case Register(keeper, stake, _) => Weight(KeeperRegistered(keeper, stake), m)
      case Provision(dripList, interval, reward, designated, _) =>
        Weight(TaskProvisioned(NextTaskId(h, s), dripList, interval, reward, designated), m)
      case Execute(id, caller, _, _) => EntriesWeight(ExecutionEntries(h, s, id, caller), m)
      case _ => 0
  }

  lemma TallyStep(h: Host, s: State, step: Step, m: Measure)
    ensures Tally(Apply(h, s, step).log, m) == Tally(s.log, m) + StepWeight(h, s, step, m)
  {
    if Succeeds(h, s, step) {
      match step
      case Register(keeper, stake, _) =>
        TallyAppend(s.log, Stamp(s, KeeperRegistered(keeper, stake)), m);
      case Provision(dripList, interval, reward, designated, _) =>
        TallyAppend(s.log, Stamp(s, TaskProvisioned(NextTaskId(h, s), dripList, interval, reward, designated)), m);
      case Execute(id, caller, _, _) =>
        TallyEntries(s.log, ExecutionEntries(h, s, id, caller), m);
      case _ =>
    }
  }

  lemma ProvisionsWeight(h: Host, s: State, step: Step)
    ensures StepWeight(h, s, step, Provisions) == Indicator(step.Provision? && Succeeds(h, s, step))
  {
  }

  lemma ExecutionsWeight(h: Host, s: State, step: Step)
    ensures StepWeight(h, s, step, Executions) == Indicator(step.Execute? && Succeeds(h, s, step))
  {
    if step.Execute? && Succeeds(h, s, step) {
      assert !RegionAt(s.tasks[step.id].next, s.ledger).PreWindow?;
    }
  }

  // ---- Sums over the registry ----

  datatype Column = Stakes | ExecutionCounts

  function Cell(k: Keeper, c: Column): int {
    match c
    case Stakes => k.stake
    case ExecutionCounts => k.executions
  }

  ghost function Sum(ks: map<Address, Keeper>, c: Column): int {
    if ks == map[] then 0
    else
      var a :| a in ks;
      Cell(ks[a], c) + Sum(ks - {a}, c)
  }

  lemma {:induction false} SumRemove(ks: map<Address, Keeper>, a: Address, c: Column)
    requires a in ks
    ensures Sum(ks, c) == Cell(ks[a], c) + Sum(ks - {a}, c)
    decreases |ks|
  {
    var b :| b in ks && Sum(ks, c) == Cell(ks[b], c) + Sum(ks - {b}, c);
    if a != b {
      SumRemove(ks - {b}, a, c);
      SumRemove(ks - {a}, b, c);
      assert ks - {b} - {a} == ks - {a} - {b};
    }
  }

  lemma SumUpdate(ks: map<Address, Keeper>, a: Address, k: Keeper, c: Column)
    ensures Sum(ks[a := k], c) == Sum(ks, c) + Cell(k, c) - (if a in ks then Cell(ks[a], c) else 0)
  {
    SumRemove(ks[a := k], a, c);
    if a in ks {
      SumRemove(ks, a, c);
      assert ks[a := k] - {a} == ks - {a};
    } else {
      assert ks[a := k] - {a} == ks;
    }
  }

  /** A column of non-negative cells sums to at least each of its cells. */
  lemma {:induction false} CellAtMostSum(ks: map<Address, Keeper>, c: Column)
    requires forall a :: a in ks ==> Cell(ks[a], c) >= 0
    ensures Sum(ks, c) >= 0
    ensures forall a :: a in ks ==> Cell(ks[a], c) <= Sum(ks, c)
    decreases |ks|
  {
    forall a | a in ks ensures 0 <= Cell(ks[a], c) <= Sum(ks, c) {
      SumRemove(ks, a, c);
      CellAtMostSum(ks - {a}, c);
    }
  }
}
