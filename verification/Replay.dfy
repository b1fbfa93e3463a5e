/** The event log is a complete record: an indexer that folds it rebuilds the storage. */
module Replay {
  import opened Machine
  import opened Types
  import opened Slashing
  import opened Contract
  import opened WellFormedness

  datatype Mirror = Mirror(keepers: map<Address, Keeper>, tasks: map<TaskId, Task>, treasury: int, counter: int)

  function Project(s: State): Mirror { Mirror(s.keepers, s.tasks, s.treasury, s.counter) }

  /** What an indexer does with one event. It sees the events only, never the storage. */
  function Absorb(a: Arith, m: Mirror, x: Entry): Mirror {
    match x.event
    case KeeperRegistered(k, stake) => m.(keepers := m.keepers[k := Keeper(k, stake, 0, 0, false)])
    case TaskProvisioned(id, dripList, interval, reward, designated) =>
      m.(tasks := m.tasks[id := Task(id, dripList, interval, a.U32(x.ledger + interval), reward, designated)],
         counter := a.U32(m.counter + 1))
    case SlashApplied(k, amount, newStake) =>
      if k in m.keepers then
        m.(keepers := m.keepers[k := m.keepers[k].(
             stake := newStake,
             ineligible := m.keepers[k].ineligible || newStake < MIN_KEEPER_STAKE)],
           treasury := a.I128(m.treasury + a.I128(amount - TruncDiv(amount, 2))))
      else m
    case TaskExecuted(id, executor, ledger, _) => AbsorbExecution(a, m, id, executor, ledger)
    case TaskExecutedBySecondary(id, secondary, _, ledger, _, _, _) => AbsorbExecution(a, m, id, secondary, ledger)
    case ZeroSlash(_) => m
    case MissedExecution(_, _) => m
  }

  function AbsorbExecution(a: Arith, m: Mirror, id: TaskId, executor: Address, ledger: int): Mirror {
    if id in m.tasks && executor in m.keepers then
      var k := m.keepers[executor];
      m.(keepers := m.keepers[executor := k.(executions := a.U64(k.executions + 1), lastExecution := ledger)],
         tasks := m.tasks[id := m.tasks[id].(next := a.U32(ledger + m.tasks[id].interval))])
    else m
  }

  function Replayed(a: Arith, log: seq<Entry>): Mirror {
    if log == [] then Mirror(map[], map[], 0, 0)
    else Absorb(a, Replayed(a, log[..|log| - 1]), log[|log| - 1])
  }

  lemma ReplayAppend(a: Arith, log: seq<Entry>, x: Entry)
    ensures Replayed(a, log + [x]) == Absorb(a, Replayed(a, log), x)
  {
    assert (log + [x])[..|log + [x]| - 1] == log;
  }

  /** Absorbing the entries of a plain execution has the effect of the execution. */
  lemma AbsorbPlain(h: Host, s: State, id: TaskId, caller: Address, auth: bool, dripReturns: bool)
    requires WellFormed(h, s)
    requires ExecuteOutcome(h, s, id, caller, auth, dripReturns).Ok?
    requires !RegionAt(s.tasks[id].next, s.ledger).Grace?
    ensures
      var x := Stamp(s, TaskExecuted(id, caller, s.ledger, s.tasks[id].reward));
      Absorb(h.arith, Project(s), x) == Project(Executed(h, s, id, caller))
  {
    ExecutedRegistry(h, s, id, caller, auth, dripReturns);
  }

  function MirrorAfterSlash(h: Host, s: State, t: Task): Mirror
    requires t.designated in s.keepers
  {
    Project(s).(
      keepers := s.keepers[t.designated := SlashedKeeper(h.arith, s.keepers[t.designated])],
      treasury := h.arith.I128(s.treasury + TreasuryPortion(h.arith, s.keepers[t.designated].stake)))
  }

  lemma AbsorbSlash(h: Host, s: State, t: Task)
    requires WellFormed(h, s) && t.designated in s.keepers
    ensures
      var stake := s.keepers[t.designated].stake;
      var x := Stamp(s, SlashApplied(t.designated, SlashAmount(h.arith, stake), StakeAfterSlash(h.arith, stake)));
      Absorb(h.arith, Project(s), x) == MirrorAfterSlash(h, s, t)
  {
  }

  lemma AbsorbSecondary(h: Host, s: State, id: TaskId, caller: Address, auth: bool, dripReturns: bool)
    requires WellFormed(h, s)
    requires ExecuteOutcome(h, s, id, caller, auth, dripReturns).Ok?
    requires RegionAt(s.tasks[id].next, s.ledger).Grace?
    ensures s.tasks[id].designated in s.keepers
    ensures
      var m := MirrorAfterSlash(h, s, s.tasks[id]);
      Absorb(h.arith, m, ExecutionEntries(h, s, id, caller)[1]) == Project(Executed(h, s, id, caller))
  {
    ExecutedRegistry(h, s, id, caller, auth, dripReturns);
  }

  lemma ReplayTwo(a: Arith, log: seq<Entry>, x: Entry, y: Entry, m0: Mirror, m1: Mirror, m2: Mirror)
    requires Replayed(a, log) == m0 && Absorb(a, m0, x) == m1 && Absorb(a, m1, y) == m2
    ensures Replayed(a, log + [x, y]) == m2
  {
    ReplayAppend(a, log, x);
    ReplayAppend(a, log + [x], y);
    assert log + [x] + [y] == log + [x, y];
  }

  lemma ReplayExecution(h: Host, s: State, id: TaskId, caller: Address, auth: bool, dripReturns: bool)
    requires WellFormed(h, s)
    requires ExecuteOutcome(h, s, id, caller, auth, dripReturns).Ok?
    requires Replayed(h.arith, s.log) == Project(s)
    ensures Replayed(h.arith, Executed(h, s, id, caller).log) == Project(Executed(h, s, id, caller))
  {
    var t, entries, after := s.tasks[id], ExecutionEntries(h, s, id, caller), Project(Executed(h, s, id, caller));
    if RegionAt(t.next, s.ledger).Grace? {
      AbsorbSecondary(h, s, id, caller, auth, dripReturns);
      AbsorbSlash(h, s, t);
      ReplayTwo(h.arith, s.log, entries[0], entries[1], Project(s), MirrorAfterSlash(h, s, t), after);
    } else {
      assert t.id == id by { assert TaskWellFormed(s, id); }
      AbsorbPlain(h, s, id, caller, auth, dripReturns);
      if |entries| == 1 {
        ReplayAppend(h.arith, s.log, entries[0]);
      } else {
        ReplayTwo(h.arith, s.log, entries[0], entries[1], Project(s), Project(s), after);
      }
    }
  }

  lemma ReplayRegistration(a: Arith, s: State, k: Address, stake: int)
    requires Replayed(a, s.log) == Project(s)
    ensures Replayed(a, Registered(s, k, stake).log) == Project(Registered(s, k, stake))
  {
    ReplayAppend(a, s.log, Stamp(s, KeeperRegistered(k, stake)));
  }

  lemma ReplayProvision(h: Host, s: State, dripList: Address, interval: int, reward: int, d: Address)
    requires Replayed(h.arith, s.log) == Project(s)
    ensures
      var s' := Provisioned(h, s, dripList, interval, reward, d);
      Replayed(h.arith, s'.log) == Project(s')
  {
    ReplayAppend(h.arith, s.log, Stamp(s, TaskProvisioned(NextTaskId(h, s), dripList, interval, reward, d)));
  }

  lemma ReplayStep(h: Host, s: State, step: Step)
    requires WellFormed(h, s)
    requires Replayed(h.arith, s.log) == Project(s)
    ensures Replayed(h.arith, Apply(h, s, step).log) == Project(Apply(h, s, step))
  {
    if Succeeds(h, s, step) {
      match step
      case Register(k, stake, _) => ReplayRegistration(h.arith, s, k, stake);
      case Provision(dripList, interval, reward, d, _) => ReplayProvision(h, s, dripList, interval, reward, d);
      case Execute(id, caller, auth, dripReturns) => ReplayExecution(h, s, id, caller, auth, dripReturns);
      case _ =>
    }
  }

  /** For every run, folding the log from nothing yields exactly the stored keepers
      (stakes, flags and statistics), task schedules, treasury and task counter. */
  lemma {:induction false} LogRebuildsStorage(h: Host, start: u32, steps: seq<Step>)
    ensures
      var s := Run(h, Genesis(start), steps);
      Replayed(h.arith, s.log) == Project(s)
  {
    if steps != [] {
      var init := steps[..|steps| - 1];
      LogRebuildsStorage(h, start, init);
      ReachableWellFormed(h, start, init);
      ReplayStep(h, Run(h, Genesis(start), init), steps[|steps| - 1]);
    }
  }

  /** The log only ever grows, and the clock never runs back. */
  lemma {:induction false} LogOnlyGrows(h: Host, s: State, more: seq<Step>)
    ensures s.log <= Run(h, s, more).log
    ensures s.ledger <= Run(h, s, more).ledger
  {
    if more != [] { LogOnlyGrows(h, s, more[..|more| - 1]); }
  }
}
