/**
  The Anchor contract as it is written: storage entries, balances and events are
  changed one statement at a time, with error exits after earlier writes, and
  the host puts everything back when an invocation does not return `Ok`.
 */
module AnchorContract {
  import opened Machine
  import opened Types
  import opened Slashing
  import opened Contract

  function Emitted(s: State, e: Event): State { s.(log := s.log + [Stamp(s, e)]) }

  // ---- The intermediate states of an execution, one per helper of the code ----

  function AfterSlash(s: State, d: Address): State
    requires d in s.keepers
  {
    var k := s.keepers[d];
    Emitted(
      s.(keepers := StoreKeeper(s.keepers, SlashedKeeper(Release, k)),
         treasury := WrapI128(s.treasury + TreasuryPortion(Release, k.stake))),
      SlashApplied(d, SlashAmount(Release, k.stake), StakeAfterSlash(Release, k.stake)))
  }

  function DistributionOutcome(self: Address, s: State, t: Task, caller: Address, dripReturns: bool): Outcome<()> {
    if !dripReturns || s.token.None? then Trap
    else if Balance(s.balances, self) < t.reward then Err(InsufficientRewardBalance)
    else if t.reward < 0 then Trap
    else if caller !in s.keepers then Err(KeeperNotFound)
    else Ok(())
  }

  function AfterDistribution(self: Address, s: State, t: Task, caller: Address, isSecondary: bool): State
    requires caller in s.keepers
  {
    var s' := s.(
      balances := Move(s.balances, self, caller, t.reward),
      tasks := s.tasks[t.id := t.(next := WrapU32(s.ledger + t.interval))],
      keepers := StoreKeeper(s.keepers, CreditedKeeper(Release, s.keepers[caller], s.ledger)));
    if isSecondary then s' else Emitted(s', TaskExecuted(t.id, caller, s.ledger, t.reward))
  }

  function AfterBonus(self: Address, s: State, caller: Address, amount: int): State {
    if amount > 0 then s.(balances := Move(s.balances, self, caller, amount)) else s
  }

  /** Without a slash, the stages compose to the one-step transition. */
  lemma PlainStages(h: Host, s: State, id: TaskId, caller: Address)
    requires h.arith == Release
    requires id in s.tasks && caller in s.keepers
    requires !RegionAt(s.tasks[id].next, s.ledger).Grace?
    ensures
      var t := s.tasks[id];
      var start := if RegionAt(t.next, s.ledger).PostGrace? then Emitted(s, MissedExecution(id, s.ledger - t.next)) else s;
      AfterDistribution(h.self, start, t, caller, false) == Executed(h, s, id, caller)
  {
    var t := s.tasks[id];
    var plain := TaskExecuted(t.id, caller, s.ledger, t.reward);
    var missed := MissedExecution(id, s.ledger - t.next);
    assert s.log + [Stamp(s, missed)] + [Stamp(s, plain)] == s.log + [Stamp(s, missed), Stamp(s, plain)];
  }

  /** Slash, distribution, bonus and final event compose to the one-step transition. */
  lemma GraceStages(h: Host, s: State, id: TaskId, caller: Address)
    requires h.arith == Release && caller != h.self
    requires id in s.tasks && caller in s.keepers && s.tasks[id].designated in s.keepers
    requires RegionAt(s.tasks[id].next, s.ledger).Grace?
    ensures
      var t := s.tasks[id];
      var stake := s.keepers[t.designated].stake;
      var secondary := SecondaryReward(Release, stake);
      var distributed := AfterDistribution(h.self, AfterSlash(s, t.designated), t, caller, true);
      Emitted(AfterBonus(h.self, distributed, caller, secondary),
        TaskExecutedBySecondary(id, caller, t.designated, s.ledger, SlashAmount(Release, stake), secondary, t.reward))
      == Executed(h, s, id, caller)
  {
    var t := s.tasks[id];
    var stake := s.keepers[t.designated].stake;
    var first := SlashApplied(t.designated, SlashAmount(Release, stake), StakeAfterSlash(Release, stake));
    var second := TaskExecutedBySecondary(id, caller, t.designated, s.ledger,
      SlashAmount(Release, stake), SecondaryReward(Release, stake), t.reward);
    assert s.log + [Stamp(s, first)] + [Stamp(s, second)] == s.log + [Stamp(s, first), Stamp(s, second)];
    MoveTwice(s.balances, h.self, caller, t.reward, Bonus(h, s, t));
  }

  /** Two payments in a row are one payment of their sum. */
  lemma MoveTwice(b: map<Address, int>, src: Address, dst: Address, first: int, second: int)
    requires src != dst
    ensures Move(Move(b, src, dst, first), src, dst, second) == Move(b, src, dst, first + second)
  {
  }

  class Anchor {
    const self: Address
    const sha256: Bytes -> TaskId

    var admin: Option<Address>
    var token: Option<Address>
    var minStake: Option<int>
    var keepers: map<Address, Keeper>
    var tasks: map<TaskId, Task>
    var counter: int
    var treasury: int
    var balances: map<Address, int>
    var ledger: int
    var log: seq<Entry>

    function TheHost(): Host { Host(Release, self, sha256) }

    function Snapshot(): State
      reads this
    {
      State(admin, token, minStake, keepers, tasks, counter, treasury, balances, ledger, log)
    }

    constructor (self: Address, sha256: Bytes -> TaskId, ledger: u32)
      ensures Snapshot() == Genesis(ledger)
      ensures this.self == self && this.sha256 == sha256
    {
      this.self, this.sha256 := self, sha256;
      admin, token, minStake := None, None, None;
      keepers, tasks, balances := map[], map[], map[];
      counter, treasury := 0, 0;
      this.ledger, log := ledger, [];
    }

    /** The host's revert. */
    method Restore(saved: State)
      modifies this
      ensures Snapshot() == saved
    {
      admin, token, minStake := saved.admin, saved.token, saved.minStake;
      keepers, tasks := saved.keepers, saved.tasks;
      counter, treasury := saved.counter, saved.treasury;
      balances, ledger, log := saved.balances, saved.ledger, saved.log;
    }

    // ---- events.rs ----

    method Emit(e: Event)
      modifies this`log
      ensures log == old(log) + [Stamp(Snapshot(), e)]
    {
      log := log + [Entry(ledger, e)];
    }

    // ---- registry.rs ----

    method GetKeeper(keeper: Address) returns (r: Outcome<Keeper>)
      ensures r == if keeper in keepers then Ok(keepers[keeper]) else Err(KeeperNotFound)
    {
      if keeper in keepers { r := Ok(keepers[keeper]); } else { r := Err(KeeperNotFound); }
    }

    method IsEligible(keeper: Address) returns (r: bool)
      ensures r <==> keeper in keepers && !keepers[keeper].ineligible
    {
      r := false;
      if keeper in keepers { r := !keepers[keeper].ineligible; }
    }

    method UpdateKeeper(k: Keeper)
      modifies this`keepers
      ensures keepers == StoreKeeper(old(keepers), k)
    {
      keepers := keepers[k.address := k];
    }

    method RegisterKeeper(keeper: Address, stake: i128, auth: bool) returns (r: Outcome<()>)
      modifies this
      ensures r == RegisterOutcome(TheHost(), old(Snapshot()), keeper, stake, auth)
      ensures Snapshot() == Apply(TheHost(), old(Snapshot()), Register(keeper, stake, auth))
    {
      if !(auth && keeper != self) { return Trap; }
      var required := if minStake.Some? then minStake.value else MIN_KEEPER_STAKE;
      if stake < required { return Err(StakeBelowMinimum); }
      if keeper in keepers { return Err(KeeperAlreadyRegistered); }
      keepers := keepers[keeper := Keeper(keeper, stake, 0, 0, false)];
      Emit(KeeperRegistered(keeper, stake));
      r := Ok(());
    }

    // ---- lib.rs ----

    method InitializeContract(newAdmin: Address, newToken: Address, newMinStake: i128, auth: bool)
      returns (r: Outcome<()>)
      modifies this
      ensures r == InitializeOutcome(TheHost(), old(Snapshot()), newAdmin, auth)
      ensures Snapshot() == Apply(TheHost(), old(Snapshot()), Initialize(newAdmin, newToken, newMinStake, auth))
    {
      if admin.Some? { return Err(AlreadyInitialized); }
      if !(auth && newAdmin != self) { return Trap; }
      admin := Some(newAdmin);
      token := Some(newToken);
      minStake := Some(newMinStake);
      r := Ok(());
    }

    // ---- tasks.rs ----

    method UpdateTask(t: Task)
      modifies this`tasks
      ensures tasks == old(tasks)[t.id := t]
    {
      tasks := tasks[t.id := t];
    }

    /** The 8-byte seed: counter in the first four bytes, ledger in the last four. */
    method BuildSeed(c: int, l: int) returns (seed: Bytes)
      ensures seed == Seed(c, l)
    {
      var buf := new u8[8](_ => 0);
      var cs, ls := BigEndian(c), BigEndian(l);
      for i := 0 to 4
        invariant forall j :: 0 <= j < i ==> buf[j] == cs[j] && buf[j + 4] == ls[j]
      {
        buf[i] := cs[i];
        buf[i + 4] := ls[i];
      }
      seed := buf[..];
      assert seed == cs + ls;
    }

    method ProvisionTask(dripList: Address, interval: u32, reward: i128, designated: Address, auth: bool)
      returns (r: Outcome<TaskId>)
      modifies this
      ensures r == ProvisionOutcome(TheHost(), old(Snapshot()), interval, reward, designated, auth)
      ensures Snapshot() == Apply(TheHost(), old(Snapshot()), Provision(dripList, interval, reward, designated, auth))
    {
      if admin.None? { return Err(UnauthorizedCaller); }
      if !(auth && admin.value != self) { return Trap; }
      if interval == 0 { return Err(InvalidInterval); }
      if reward <= 0 { return Err(InvalidReward); }
      if designated !in keepers { return Err(KeeperNotFound); }
      var eligible := IsEligible(designated);
      if !eligible { return Err(IneligibleKeeper); }
      var c := counter;
      counter := WrapU32(c + 1);
      var seed := BuildSeed(c, ledger);
      var id := sha256(seed);
      var task := Task(id, dripList, interval, WrapU32(ledger + interval), reward, designated);
      tasks := tasks[id := task];
      Emit(TaskProvisioned(id, dripList, interval, reward, designated));
      r := Ok(id);
    }

    // ---- slashing.rs ----

    method ApplySlash(designated: Address) returns (r: Outcome<(int, int)>)
      modifies this
      ensures r == SlashOutcome(Release, old(keepers), designated)
      ensures r.Ok? ==> designated in old(keepers) && Snapshot() == AfterSlash(old(Snapshot()), designated)
      ensures r == Err(SlashOnZeroStake) ==> Snapshot() == Emitted(old(Snapshot()), ZeroSlash(designated))
      ensures r == Err(KeeperNotFound) ==> Snapshot() == old(Snapshot())
    {
      var found := GetKeeper(designated);
      if found.Err? { return Err(found.error); }
      var keeper := found.value;
      if keeper.stake == 0 {
        Emit(ZeroSlash(designated));
        return Err(SlashOnZeroStake);
      }
      var slashAmount := TruncDiv(WrapI128(keeper.stake * 5), 100);
      var newStake := WrapI128(keeper.stake - slashAmount);
      var secondaryReward := TruncDiv(slashAmount, 2);
      var treasuryPortion := WrapI128(slashAmount - secondaryReward);
      treasury := WrapI128(treasury + treasuryPortion);
      keeper := keeper.(stake := newStake);
      if newStake < MIN_KEEPER_STAKE { keeper := keeper.(ineligible := true); }
      UpdateKeeper(keeper);
      Emit(SlashApplied(designated, slashAmount, newStake));
      r := Ok((slashAmount, secondaryReward));
    }

    // ---- execution.rs ----

    /** The token contract's transfer out of the Anchor; it rejects negative amounts. */
    method PayOut(dst: Address, amount: int) returns (r: Outcome<()>)
      modifies this`balances
      ensures r == if amount < 0 then Trap else Ok(())
      ensures balances == if amount < 0 then old(balances) else Move(old(balances), self, dst, amount)
    {
      if amount < 0 { return Trap; }
      balances := balances[self := Balance(balances, self) - amount];
      balances := balances[dst := Balance(balances, dst) + amount];
      r := Ok(());
    }

    /** The second transfer of a grace execution, checked against what the first left. */
    method PayBonus(caller: Address, amount: int) returns (r: Outcome<()>)
      modifies this
      ensures r == if Balance(old(balances), self) < amount && amount > 0 then Err(InsufficientRewardBalance) else Ok(())
      ensures r.Ok? ==> Snapshot() == AfterBonus(self, old(Snapshot()), caller, amount)
    {
      if amount > 0 {
        if Balance(balances, self) < amount { return Err(InsufficientRewardBalance); }
        var _ := PayOut(caller, amount);
      }
      r := Ok(());
    }

    method ExecuteDistribution(task: Task, caller: Address, dripReturns: bool, isSecondary: bool)
      returns (r: Outcome<()>)
      modifies this
      ensures r == DistributionOutcome(self, old(Snapshot()), task, caller, dripReturns)
      ensures r.Ok? ==> Snapshot() == AfterDistribution(self, old(Snapshot()), task, caller, isSecondary)
    {
      if !dripReturns { return Trap; }
      if token.None? { return Trap; }
      if Balance(balances, self) < task.reward { return Err(InsufficientRewardBalance); }
      r := PayOut(caller, task.reward);
      if !r.Ok? { return; }
      var updated := task.(next := WrapU32(ledger + task.interval));
      UpdateTask(updated);
      var found := GetKeeper(caller);
      if found.Err? { return Err(found.error); }
      var keeper := found.value;
      keeper := keeper.(executions := WrapU64(keeper.executions + 1));
      keeper := keeper.(lastExecution := ledger);
      UpdateKeeper(keeper);
      if !isSecondary { Emit(TaskExecuted(task.id, caller, ledger, task.reward)); }
      r := Ok(());
    }

    /** The grace arm: slash first, distribute, then pay the bonus out of what is left. */
    method ExecuteInGrace(id: TaskId, task: Task, caller: Address, dripReturns: bool)
      returns (r: Outcome<()>)
      requires id in tasks && tasks[id] == task && RegionAt(task.next, ledger).Grace? && caller != self
      modifies this
      ensures r == ExecuteOutcome(TheHost(), old(Snapshot()), id, caller, true, dripReturns)
      ensures r.Ok? ==> Snapshot() == Executed(TheHost(), old(Snapshot()), id, caller)
    {
      ghost var s := Snapshot();
      if caller == task.designated { return Err(GracePeriodActive); }
      if caller !in keepers { return Err(CallerNotSecondaryEligible); }
      var slashed := ApplySlash(task.designated);
      if slashed.Err? { return Err(slashed.error); }
      var (slashAmount, secondaryReward) := slashed.value;
      r := ExecuteDistribution(task, caller, dripReturns, true);
      if !r.Ok? { return; }
      r := PayBonus(caller, secondaryReward);
      if !r.Ok? { return; }
      Emit(TaskExecutedBySecondary(id, caller, task.designated, ledger, slashAmount, secondaryReward, task.reward));
      GraceStages(TheHost(), s, id, caller);
    }

    /** The body of `execute_drip_split`, before the host commits or reverts it. */
    method ExecuteDripSplit(id: TaskId, caller: Address, auth: bool, dripReturns: bool)
      returns (r: Outcome<()>)
      modifies this
      ensures r == ExecuteOutcome(TheHost(), old(Snapshot()), id, caller, auth, dripReturns)
      ensures r.Ok? ==> Snapshot() == Executed(TheHost(), old(Snapshot()), id, caller)
    {
      ghost var s := Snapshot();
      if id !in tasks { return Err(TaskNotFound); }
      var task := tasks[id];
      if !(auth && caller != self) { return Trap; }
      if ledger < task.next { return Err(TooEarlyToExecute); }
      var elapsed := ledger - task.next;
      if elapsed == 0 {
        if caller != task.designated { return Err(UnauthorizedExecutor); }
        r := ExecuteDistribution(task, caller, dripReturns, false);
        if r.Ok? { PlainStages(TheHost(), s, id, caller); }
      } else if elapsed <= GRACE_LEDGERS {
        r := ExecuteInGrace(id, task, caller, dripReturns);
      } else {
        if caller !in keepers { return Err(UnauthorizedExecutor); }
        Emit(MissedExecution(id, elapsed));
        r := ExecuteDistribution(task, caller, dripReturns, false);
        if r.Ok? { PlainStages(TheHost(), s, id, caller); }
      }
    }

    /** One invocation as the ledger sees it: commit on `Ok`, put everything back otherwise. */
    method InvokeExecute(id: TaskId, caller: Address, auth: bool, dripReturns: bool) returns (r: Outcome<()>)
      modifies this
      ensures r == ExecuteOutcome(TheHost(), old(Snapshot()), id, caller, auth, dripReturns)
      ensures Snapshot() == Apply(TheHost(), old(Snapshot()), Execute(id, caller, auth, dripReturns))
    {
      var saved := Snapshot();
      r := ExecuteDripSplit(id, caller, auth, dripReturns);
      if !r.Ok? { Restore(saved); }
    }
  }
}
