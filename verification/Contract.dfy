/**
  The Anchor contract as one-step transitions on its storage, the token balances
  and the event log. A failing invocation is the identity on the state: the
  class in `Anchor.dfy` shows that the statement-by-statement code, followed by
  the host's revert, computes exactly these functions.
 */
module Contract {
  import opened Machine
  import opened Types
  import opened Slashing

  const MIN_KEEPER_STAKE: int := 10_000_000
  const GRACE_LEDGERS: int := 50

  /** What the host supplies: its arithmetic, the contract's own address, and SHA-256. */
  datatype Host = Host(arith: Arith, self: Address, sha256: Bytes -> TaskId)

  datatype State = State(
    admin: Option<Address>,
    token: Option<Address>,
    minStake: Option<int>,
    keepers: map<Address, Keeper>,
    tasks: map<TaskId, Task>,
    counter: int,
    treasury: int,
    balances: map<Address, int>,
    ledger: int,
    log: seq<Entry>)

  function Genesis(ledger: u32): State {
    State(None, None, None, map[], map[], 0, 0, map[], ledger, [])
  }

  function Stamp(s: State, e: Event): Entry { Entry(s.ledger, e) }

  /** No outside call carries the contract's own authorisation. */
  predicate Authorised(h: Host, who: Address, auth: bool) { auth && who != h.self }

  // ---- Tokens ----

  function Balance(b: map<Address, int>, who: Address): int {
    if who in b then b[who] else 0
  }

  function Move(b: map<Address, int>, src: Address, dst: Address, amount: int): map<Address, int> {
    var debited := b[src := Balance(b, src) - amount];
    debited[dst := Balance(debited, dst) + amount]
  }

  // ---- initialize ----

  function InitializeOutcome(h: Host, s: State, admin: Address, auth: bool): Outcome<()> {
    if s.admin.Some? then Err(AlreadyInitialized)
    else if !Authorised(h, admin, auth) then Trap
    else Ok(())
  }

  function Initialized(s: State, admin: Address, token: Address, minStake: int): State {
    s.(admin := Some(admin), token := Some(token), minStake := Some(minStake))
  }

  // ---- register_keeper ----

  function MinStakeInForce(s: State): int {
    if s.minStake.Some? then s.minStake.value else MIN_KEEPER_STAKE
  }

  function RegisterOutcome(h: Host, s: State, keeper: Address, stake: int, auth: bool): Outcome<()> {
    if !Authorised(h, keeper, auth) then Trap
    else if stake < MinStakeInForce(s) then Err(StakeBelowMinimum)
    else if keeper in s.keepers then Err(KeeperAlreadyRegistered)
    else Ok(())
  }

  function Registered(s: State, keeper: Address, stake: int): State {
    s.(keepers := s.keepers[keeper := Keeper(keeper, stake, 0, 0, false)],
       log := s.log + [Stamp(s, KeeperRegistered(keeper, stake))])
  }

  // ---- provision_task ----

  function BigEndian(x: int): Bytes {
    [x / 0x100_0000 % 256, x / 0x1_0000 % 256, x / 256 % 256, x % 256]
  }

  function Seed(counter: int, ledger: int): Bytes { BigEndian(counter) + BigEndian(ledger) }

  function NextTaskId(h: Host, s: State): TaskId { h.sha256(Seed(s.counter, s.ledger)) }

  function ProvisionOutcome(h: Host, s: State, interval: int, reward: int, designated: Address, auth: bool)
    : Outcome<TaskId>
  {
    if s.admin.None? then Err(UnauthorizedCaller)
    else if !Authorised(h, s.admin.value, auth) then Trap
    else if interval == 0 then Err(InvalidInterval)
    else if reward <= 0 then Err(InvalidReward)
    else if designated !in s.keepers then Err(KeeperNotFound)
    else if s.keepers[designated].ineligible then Err(IneligibleKeeper)
    else Ok(NextTaskId(h, s))
  }

  function Provisioned(h: Host, s: State, dripList: Address, interval: int, reward: int, designated: Address): State {
    var id := NextTaskId(h, s);
    var task := Task(id, dripList, interval, h.arith.U32(s.ledger + interval), reward, designated);
    s.(tasks := s.tasks[id := task],
       counter := h.arith.U32(s.counter + 1),
       log := s.log + [Stamp(s, TaskProvisioned(id, dripList, interval, reward, designated))])
  }

  // ---- execute_drip_split ----

  datatype Region = PreWindow | DesignatedWindow | Grace | PostGrace

  /** The four regions of time around a task's next allowed ledger. */
  function RegionAt(next: int, ledger: int): Region {
    if ledger < next then PreWindow
    else if ledger == next then DesignatedWindow
    else if ledger <= next + GRACE_LEDGERS then Grace
    else PostGrace
  }

  /** Why a caller is turned away in a region, if it is. */
  function Refusal(region: Region, isDesignated: bool, isRegistered: bool): Option<ContractError> {
    match region
    case PreWindow => Some(TooEarlyToExecute)
    case DesignatedWindow => if isDesignated then None else Some(UnauthorizedExecutor)
    case Grace =>
      if isDesignated then Some(GracePeriodActive)
      else if isRegistered then None
      else Some(CallerNotSecondaryEligible)
    case PostGrace => if isRegistered then None else Some(UnauthorizedExecutor)
  }

  predicate Admits(s: State, t: Task, caller: Address) {
    Refusal(RegionAt(t.next, s.ledger), caller == t.designated, caller in s.keepers).None?
  }

  /** The second payment of a grace execution; no transfer is made unless it is positive. */
  function Bonus(h: Host, s: State, t: Task): int {
    if RegionAt(t.next, s.ledger).Grace? && t.designated in s.keepers
       && SecondaryReward(h.arith, s.keepers[t.designated].stake) > 0
    then SecondaryReward(h.arith, s.keepers[t.designated].stake)
    else 0
  }

  function SlashOutcome(a: Arith, keepers: map<Address, Keeper>, designated: Address): Outcome<(int, int)> {
    if designated !in keepers then Err(KeeperNotFound)
    else
      var stake := keepers[designated].stake;
      if stake == 0 then Err(SlashOnZeroStake)
      else Ok((SlashAmount(a, stake), SecondaryReward(a, stake)))
  }

  function SlashedKeeper(a: Arith, k: Keeper): Keeper {
    var stake := StakeAfterSlash(a, k.stake);
    k.(stake := stake, ineligible := k.ineligible || stake < MIN_KEEPER_STAKE)
  }

  function CreditedKeeper(a: Arith, k: Keeper, ledger: int): Keeper {
    k.(executions := a.U64(k.executions + 1), lastExecution := ledger)
  }

  function StoreKeeper(keepers: map<Address, Keeper>, k: Keeper): map<Address, Keeper> {
    keepers[k.address := k]
  }

  function ExecuteOutcome(h: Host, s: State, id: TaskId, caller: Address, auth: bool, dripReturns: bool): Outcome<()> {
    if id !in s.tasks then Err(TaskNotFound)
    else if !Authorised(h, caller, auth) then Trap
    else
      var t := s.tasks[id];
      var region := RegionAt(t.next, s.ledger);
      var refusal := Refusal(region, caller == t.designated, caller in s.keepers);
      if refusal.Some? then Err(refusal.value)
      else if region.Grace? && SlashOutcome(h.arith, s.keepers, t.designated).Err? then
        Err(SlashOutcome(h.arith, s.keepers, t.designated).error)
      else if !dripReturns || s.token.None? then Trap
      else if Balance(s.balances, h.self) < t.reward then Err(InsufficientRewardBalance)
      else if t.reward < 0 then Trap
      else if caller !in s.keepers then Err(KeeperNotFound)
      else if Balance(s.balances, h.self) < t.reward + Bonus(h, s, t) then Err(InsufficientRewardBalance)
      else Ok(())
  }

  /** The entries a successful execution adds to the log: a single one in the
      designated window, two otherwise. */
  function ExecutionEntries(h: Host, s: State, id: TaskId, caller: Address): seq<Entry>
    requires id in s.tasks
  {
    var t := s.tasks[id];
    match RegionAt(t.next, s.ledger)
    case PostGrace =>
      [Stamp(s, MissedExecution(id, s.ledger - t.next)), Stamp(s, TaskExecuted(t.id, caller, s.ledger, t.reward))]
    case Grace =>
      var stake := if t.designated in s.keepers then s.keepers[t.designated].stake else 0;
      [Stamp(s, SlashApplied(t.designated, SlashAmount(h.arith, stake), StakeAfterSlash(h.arith, stake))),
       Stamp(s, TaskExecutedBySecondary(id, caller, t.designated, s.ledger,
         SlashAmount(h.arith, stake), SecondaryReward(h.arith, stake), t.reward))]
    case _ => [Stamp(s, TaskExecuted(t.id, caller, s.ledger, t.reward))]
  }

  function KeepersAfterSlash(h: Host, s: State, t: Task): map<Address, Keeper> {
    if RegionAt(t.next, s.ledger).Grace? && t.designated in s.keepers
    then StoreKeeper(s.keepers, SlashedKeeper(h.arith, s.keepers[t.designated]))
    else s.keepers
  }

  function TreasuryAfterSlash(h: Host, s: State, t: Task): int {
    if RegionAt(t.next, s.ledger).Grace? && t.designated in s.keepers
    then h.arith.I128(s.treasury + TreasuryPortion(h.arith, s.keepers[t.designated].stake))
    else s.treasury
  }

  /** The whole effect of a successful execution, in one record update. */
  function Executed(h: Host, s: State, id: TaskId, caller: Address): State
    requires id in s.tasks && caller in s.keepers
  {
    var t := s.tasks[id];
    var keepers := KeepersAfterSlash(h, s, t);
    s.(keepers := StoreKeeper(keepers, CreditedKeeper(h.arith, keepers[caller], s.ledger)),
       tasks := s.tasks[t.id := t.(next := h.arith.U32(s.ledger + t.interval))],
       treasury := TreasuryAfterSlash(h, s, t),
       balances := Move(s.balances, h.self, caller, t.reward + Bonus(h, s, t)),
       log := s.log + ExecutionEntries(h, s, id, caller))
  }

  // ---- Steps ----

  /** Everything that can happen to the contract: its four mutating entry points,
      token movements it does not start itself, and the passing of ledgers. */
  datatype Step =
    | Initialize(admin: Address, token: Address, minStake: i128, auth: bool)
    | Register(keeper: Address, stake: i128, auth: bool)
    | Provision(dripList: Address, interval: u32, reward: i128, designated: Address, auth: bool)
    | Execute(id: TaskId, caller: Address, auth: bool, dripReturns: bool)
    | MoveTokens(src: Option<Address>, dst: Address, amount: i128)
    | Advance(to: u32)

  /** `src` is `None` for tokens that enter circulation. */
  predicate CanMoveTokens(h: Host, s: State, src: Option<Address>, amount: int) {
    amount >= 0 && (src.Some? ==> src.value != h.self && amount <= Balance(s.balances, src.value))
  }

  predicate Succeeds(h: Host, s: State, step: Step) {
    match step
    case Initialize(admin, _, _, auth) => InitializeOutcome(h, s, admin, auth).Ok?
    case Register(keeper, stake, auth) => RegisterOutcome(h, s, keeper, stake, auth).Ok?
    case Provision(_, interval, reward, designated, auth) =>
      ProvisionOutcome(h, s, interval, reward, designated, auth).Ok?
    case Execute(id, caller, auth, dripReturns) => ExecuteOutcome(h, s, id, caller, auth, dripReturns).Ok?
    case MoveTokens(src, _, amount) => CanMoveTokens(h, s, src, amount)
    case Advance(to) => s.ledger < to
  }

  function Commit(h: Host, s: State, step: Step): State
    requires Succeeds(h, s, step)
  {
    match step
    case Initialize(admin, token, minStake, _) => Initialized(s, admin, token, minStake)
    case Register(keeper, stake, _) => Registered(s, keeper, stake)
    case Provision(dripList, interval, reward, designated, _) =>
      Provisioned(h, s, dripList, interval, reward, designated)
    case Execute(id, caller, _, _) => Executed(h, s, id, caller)
    case MoveTokens(None, dst, amount) => s.(balances := s.balances[dst := Balance(s.balances, dst) + amount])
    case MoveTokens(Some(src), dst, amount) => s.(balances := Move(s.balances, src, dst, amount))
    case Advance(to) => s.(ledger := to)
  }

  function Apply(h: Host, s: State, step: Step): State {
    if Succeeds(h, s, step) then Commit(h, s, step) else s
  }

  /** A run is any finite sequence of steps. */
  function Run(h: Host, s: State, steps: seq<Step>): State {
    if steps == [] then s
    else Apply(h, Run(h, s, steps[..|steps| - 1]), steps[|steps| - 1])
  }

  /** The clock never runs back. */
  lemma LedgerStep(h: Host, s: State, step: Step)
    ensures s.ledger <= Apply(h, s, step).ledger
  {
  }

  lemma RunSnoc(h: Host, s: State, steps: seq<Step>, last: Step)
    ensures Run(h, s, steps + [last]) == Apply(h, Run(h, s, steps), last)
  {
    assert (steps + [last])[..|steps + [last]| - 1] == steps;
  }
}
