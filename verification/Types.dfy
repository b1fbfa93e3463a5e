/** Records, errors and events shared by the contract's modules. */
module Types {
  import opened Machine

  datatype Option<+T> = None | Some(value: T)

  type Address = string
  type Bytes = seq<u8>
  type TaskId = Bytes

  datatype Keeper = Keeper(
    address: Address,
    stake: int,
    lastExecution: int,
    executions: int,
    ineligible: bool)

  datatype Task = Task(
    id: TaskId,
    dripList: Address,
    interval: int,
    next: int,
    reward: int,
    designated: Address)

  datatype ContractError =
    | StakeBelowMinimum
    | KeeperAlreadyRegistered
    | KeeperNotFound
    | InvalidInterval
    | InvalidReward
    | UnauthorizedCaller
    | TaskNotFound
    | TooEarlyToExecute
    | UnauthorizedExecutor
    | InsufficientRewardBalance
    | GracePeriodActive
    | CallerNotSecondaryEligible
    | SlashOnZeroStake
    | AlreadyInitialized
    | IneligibleKeeper

  /** How an invocation ends: a value, a contract error, or a host trap
      (refused authorisation, panic, failing cross-contract call). */
  datatype Outcome<+T> = Ok(value: T) | Err(error: ContractError) | Trap

  datatype Event =
    | KeeperRegistered(keeper: Address, stake: int)
    | SlashApplied(slashed: Address, amount: int, newStake: int)
    | ZeroSlash(zeroed: Address)
    | TaskProvisioned(id: TaskId, dripList: Address, interval: int, reward: int, designated: Address)
    | TaskExecuted(id: TaskId, executor: Address, ledger: int, reward: int)
    | TaskExecutedBySecondary(
        id: TaskId, secondary: Address, missedBy: Address, ledger: int,
        slash: int, secondaryReward: int, reward: int)
    | MissedExecution(id: TaskId, elapsed: int)

  /** An event together with the ledger the host stamps it with. */
  datatype Entry = Entry(ledger: int, event: Event)
}
