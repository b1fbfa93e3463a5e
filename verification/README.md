# Chronos Keeper Network: a verified model

Two linked state machines of the Chronos Keeper Network are modelled and proved.

**The Anchor contract** (`Contract.dfy`, `Anchor.dfy`). Keepers register stake, an
admin provisions recurring tasks, and `execute_drip_split` lets a different caller
through in each of four regions of time; in the grace region it slashes the keeper
that missed its window, splits the slash, pays twice and reschedules.

- `Anchor.dfy` is the code as written: a class whose methods change storage, balances
  and events statement by statement, with error exits after earlier writes, and a
  wrapper that restores everything when an invocation does not return `Ok`.
- `Contract.dfy` is the same contract as one-step pure transitions, with `Step`, `Run`
  and `Genesis`. Every entry point of the class is proved equal to `Apply`, for every
  state and argument and without a precondition.
- `Rules.dfy` states what every entry point accepts, refuses and stores over storage,
  ledgers and literal constants, apart from the transition functions: each answer under
  its own condition, and over whole runs the setup, keepers and tasks as exactly those
  that authorised steps asked for.
- Theorems about whole runs follow: `Replay`, `Stakes`, `Schedule`, `Tokens`,
  `Eligibility`, `Secondaries`, `TaskIds`, `Accounting`, `WellFormedness`.
- `Host` carries what the host supplies: SHA-256 as a function, the contract's own
  address, and the arithmetic. The class wraps at i128, u32 and u64 (`Release`), since
  the workspace sets no overflow-check profile; `Exact` is the same contract over
  the integers. The theorems hold in both, and where wrapping matters each asks of the
  wrapping contract only what it turns on: the rate bound and replay protection that
  windows fit in 32 bits, the statistics that a u64 can count the executions, the decay
  bounds that this keeper registered at most i128::MAX/5. Eligibility, stake histories,
  payouts and the log ask nothing. Conservation holds exactly in `Exact` and modulo
  2^128 in every wrapping run. `Overflow` proves that a wrapping run whose own log and
  ledger stay within bounds, however long, is the exact run, and conserves exactly.

**The Engine** (`Discovery.dfy`, `Pipeline.dfy`, `InFlight.dfy`, `Poller.dfy`). The
dispatch classifier, the in-flight set under every interleaving of workers, the retry
loop and the ledger poller. `Agreement.dfy` proves that the classifier, written with a
32-bit addition where the contract subtracts, is the contract's own rule.

Inputs instead of I/O: authorisation and the Drip List's answer are booleans of a step,
RPC answers and confirmations are arbitrary functions or sequences, the passing of
ledgers and outside token movements are steps of a run.

Where code and documentation disagree, or the code breaks its own rule, the code is
followed, and both the failing input and the exact condition are proved:

- Section 7.3 of the protocol document lets a grace execution against a zero stake
  succeed and emits a `ZeroSlash` event. The code propagates the error, so the call is
  reverted (`ZeroStakeGraceIsRejected`), succeeds exactly when the designated keeper
  registered a non-zero stake (`GraceSucceedsIffStaked`), and no committed log ever
  holds that event (`ZeroSlashNeverCommitted`). The guard is unreachable exactly for
  positive configured minimums (`GuardUnreachableIff`).
- The design document lets only keepers registered before the window step in. The code
  never looks: anybody can register during the grace period and execute
  (`LateRegistrantExecutes`, `LateSecondaryIsAccepted`), and an accepted grace call obeys
  the documented rule exactly when its caller registered before the window
  (`GraceIgnoresRegistrationLedger`, `DocumentedSecondaryRuleIff`).
- The design document (property 4) ties ineligibility to the minimum stake threshold.
  Slashing compares with the constant 10_000_000 instead of the configured minimum: the
  documented rule holds exactly when the configured minimum does not exceed that
  constant (`FlaggedBelowConfiguredIff`).
- The design document (property 6) has every execution move the window forward. The
  32-bit sum can wrap: exactly when it does not, the new window lies in the future
  (`ScheduleAdvancesIff`). With an interval of u32::MAX a task is overdue when
  provisioned at ledger 2 (`WrappedWindowIsOverdue`), and then runs twice in that
  ledger, its window staying at ledger 1 (`WrappedWindowRunsTwice`).
- The Engine's `next + 50` wraps: it agrees with the contract for all nodes and ledgers
  exactly when the sum fits in 32 bits (`AgreementIff`).
- The product `stake * 5` wraps: the compiled slash is right exactly for stakes of
  magnitude at most i128::MAX / 5 (`CompiledSlashIsRightIff`).
- The poller's 32-bit error counter wraps: in a valid configuration its backoff follows
  the current error streak exactly when no success ends a streak of a positive multiple
  of 2^32 errors, or the initial backoff is already the maximum
  (`BackoffFollowsStreakIff`).

## Model

| member | source | states |
|---|---|---|
| `AnchorContract.Anchor.InvokeExecute` | the-anchor/src/execution.rs:78-178 | Atomic refinement: the mutating body plus host revert is one pure transition, for every state; any error or trap leaves keepers, tasks, treasury, balances and log as they were |
| `AnchorContract.Anchor.ExecuteDripSplit` | the-anchor/src/execution.rs:78-178 | The body before commit: the outcome, with error precedence over all four regions, and on `Ok` the whole new state |
| `AnchorContract.Anchor.ExecuteInGrace` | the-anchor/src/execution.rs:110-162 | Slash, distribution, second balance check, second payment and event amount to the one-step execution |
| `AnchorContract.Anchor.ExecuteDistribution` | the-anchor/src/execution.rs:209-269 | Outcome and new state of the shared path: reward, schedule, keeper statistics, event |
| `AnchorContract.Anchor.PayBonus` | the-anchor/src/execution.rs:137-150 | The secondary reward is checked against what the first payment left, and paid only when positive |
| `AnchorContract.PlainStages` | the-anchor/src/execution.rs:99-175 | Outside the grace region the stages of the code compose to the one-step transition |
| `AnchorContract.GraceStages` | the-anchor/src/execution.rs:122-162 | In the grace region the four stages compose to the one-step transition, the two payments to one |
| `AnchorContract.Anchor.ApplySlash` | the-anchor/src/slashing.rs:60-121 | Slash, split, treasury, flag and event in wrapping arithmetic; the zero-stake guard only emits its event |
| `AnchorContract.Anchor.RegisterKeeper` | the-anchor/src/registry.rs:48-89 | Registration is the pure transition: minimum in force, no duplicates, fresh record, event |
| `AnchorContract.Anchor.ProvisionTask` | the-anchor/src/tasks.rs:63-149 | Provisioning is the pure transition: validation order, id from counter and ledger, first window, event |
| `AnchorContract.Anchor.BuildSeed` | the-anchor/src/tasks.rs:114-118 | The 8-byte buffer holds the big-endian counter, then the big-endian ledger |
| `AnchorContract.Anchor.InitializeContract` | the-anchor/src/lib.rs:51-74 | One-time setup is the pure transition; a second call changes nothing |
| `Rules.InitializeRule` | the-anchor/src/lib.rs:51-74 | `AlreadyInitialized` exactly when there is an admin; otherwise success exactly with the new admin's authorisation, storing exactly the three given values |
| `Rules.SetUpOnce` | the-anchor/src/lib.rs:57-72 | In every run admin, token and minimum are those of the first authorised setup request |
| `Rules.SetUpForGood` | the-anchor/src/lib.rs:57-60 | Once there is an admin, no steps ever change admin, token or minimum, and every further setup is answered `AlreadyInitialized` |
| `Rules.RegisterRule` | the-anchor/src/registry.rs:53-88 | Each answer under its own condition, against the configured minimum or else 10_000_000, and exactly what is stored and logged |
| `Rules.RegisteredIffAdmitted` | the-anchor/src/registry.rs:53-88 | In every run the registered keepers are exactly those that an authorised first registration with the stake required at that time admitted, and the log records that stake |
| `Rules.RegisteredAfterSetup` | the-anchor/src/registry.rs:58-67 | Whoever registers after a setup with minimum m, for every m, registered at least m |
| `Rules.ProvisionRule` | the-anchor/src/tasks.rs:71-148 | Success exactly with the admin's authorisation, a positive interval and reward and a registered keeper that is not flagged; each refusal under its own condition; exactly the requested task is stored and logged |
| `Rules.StoredIffRequested` | the-anchor/src/tasks.rs:71-135 | In every run the stored tasks are exactly those requested under that rule, each with the Drip List, interval, reward and keeper requested |
| `Rules.AuthorisedExecutionRule` | the-anchor/src/execution.rs:84-175 | In every reachable state, in ledger arithmetic: each of the eight answers to an authorised call on a stored task exactly under its own condition on ledger, caller, stake, Drip List and funds |
| `Rules.UnauthorisedExecutionRule` | the-anchor/src/execution.rs:83-87 | `TaskNotFound` exactly for unknown ids, even without authorisation; a stored task without authorisation traps |
| `Rules.ExecutionIsRecorded` | the-anchor/src/execution.rs:152-173 | Every field of every event of a successful execution, by how many ledgers it is late; the missed-execution event exactly after more than 50 |
| `WellFormedness.ReachableWellFormed` | the-anchor/src/registry.rs:142-146 | In every reachable state keys match records, designated keepers are registered, intervals and rewards are positive, and a task exists only if admin and token are set |
| `WellFormedness.ExecuteOkIffExecutable` | the-anchor/src/execution.rs:84-142 | In every reachable state `Ok` holds exactly when task, authorisation, region and caller, Drip List, funds for both rewards and a non-zero stake in grace are there; `KeeperNotFound` and the token panic are unreachable |
| `WellFormedness.ExecutedRegistry` | the-anchor/src/execution.rs:244-254 | The designated keeper is slashed in grace and only there, a different keeper is credited, and only the executed task is rescheduled |
| `Replay.LogRebuildsStorage` | the-anchor/src/events.rs:32-173 | For every run, folding the log from nothing gives exactly the stored keepers, schedules, treasury and counter |
| `Replay.LogOnlyGrows` | the-anchor/src/events.rs:32-173 | No step ever rewrites the log or turns the clock back |
| `Slashing.DecayBounds` | the-anchor/src/slashing.rs:79-83 | After n slashes 19^n\*s <= 20^n\*s_n <= 19^n\*(s-19) + 19\*20^n, for every n and every s >= 0 |
| `Slashing.RestsAtNineteen` | the-anchor/src/slashing.rs:79-83 | From 19 up the stake strictly decreases until it rests at exactly 19, within s - 19 slashes |
| `Slashing.ZeroOnlyFromZero` | the-anchor/src/slashing.rs:71-83 | No number of slashes takes a non-zero i128 stake, of either sign, to zero, in exact and in wrapping arithmetic |
| `Slashing.SlashSplitsStake` | the-anchor/src/slashing.rs:79-88 | For either sign remaining stake, secondary reward and treasury portion sum to the old stake, and the secondary reward is a fortieth of it, rounded toward zero |
| `Slashing.CompiledSlashIsRightIff` | the-anchor/src/slashing.rs:79-79 | For every i128 stake, the wrapping slash amount is right exactly when the stake lies within i128::MAX/5 of zero |
| `Stakes.ExactStakeHistory` | the-anchor/src/execution.rs:122-125 | In every reachable state a stake is its registered stake slashed n times, n being the successful grace executions of the keeper's tasks |
| `Stakes.StakeStep` | the-anchor/src/execution.rs:99-175 | Only a successful grace execution of a keeper's own task changes its stake; designated and post-grace executions never do |
| `Stakes.SlashCountIsLogged` | the-anchor/src/events.rs:137-159 | The number of slashes a run inflicted is the number its log records |
| `Stakes.RegistrationIsLogged` | the-anchor/src/registry.rs:69-88 | A keeper registers exactly once, with the stake its event records |
| `Stakes.StakeConservation` | the-anchor/src/slashing.rs:79-112 | Over every run stakes plus treasury plus all secondary rewards equal all stake ever registered: exactly over the integers, modulo 2^128 in the wrapping contract without any bound |
| `Stakes.StakeDecay` | the-anchor/src/slashing.rs:71-83 | In every run a keeper registered with a stake in 0..i128::MAX/5 (any non-negative stake over the integers) holds it slashed as often as its log records, within the decay bounds, and zero only if registered as zero |
| `Stakes.ZeroStakeIffRegisteredZero` | the-anchor/src/slashing.rs:71-74 | In every reachable state, in either arithmetic, a stake is zero exactly when registered as zero |
| `Stakes.GraceSucceedsIffStaked` | the-anchor/src/execution.rs:124-125 | In either arithmetic an otherwise allowed grace execution succeeds exactly when the designated keeper registered a non-zero stake |
| `Stakes.ZeroStakeGraceIsRejected` | the-anchor/src/slashing.rs:71-74 | For every configured minimum m <= 0 and either arithmetic, a reachable funded call that the documentation has succeed is rejected |
| `Stakes.ZeroGuardUnreachable` | the-anchor/src/slashing.rs:71-74 | If every configured minimum is positive, no call in any reachable state ends in SlashOnZeroStake |
| `Stakes.GuardUnreachableIff` | the-anchor/src/lib.rs:51-74 | Over all runs configured with minimum m the zero-stake guard is unreachable exactly when m is positive |
| `Stakes.ZeroSlashNeverCommitted` | the-anchor/src/slashing.rs:72-73 | No run's log holds a zero-slash event |
| `Schedule.ExecutionRateBound` | the-anchor/src/execution.rs:244-247 | In either arithmetic, wrapping only if every interval is at most some cap for which the ledger leaves room: a task provisioned at P with interval I and run n times has next >= P + (n+1)\*I, n\*I <= now - P, and bounded total micro rewards |
| `Schedule.NoSecondRunWithinInterval` | the-anchor/src/execution.rs:93-97 | In either arithmetic, after a success at L whose new window L + I does not wrap, whatever steps follow, every execution of that task before L + I is turned away |
| `Schedule.NeverStuck` | the-anchor/src/execution.rs:164-175 | From every reachable state any registered keeper can run a task once its grace period has passed and the micro reward is funded, even one whose designated keeper has no stake |
| `Schedule.ScheduleAdvancesIff` | the-anchor/src/execution.rs:241-247 | A successful execution moves the window into the future exactly when ledger + interval fits, and past the old window exactly when it fits or the wrapped sum lies beyond it |
| `Schedule.WrappedWindowIsOverdue` | the-anchor/src/tasks.rs:121-122 | A provision the compiled contract accepts whose first window has already passed into grace |
| `Schedule.WrappedWindowRunsTwice` | the-anchor/src/execution.rs:241-247 | A run of the compiled contract in which one task executes twice in one ledger, neither execution moving its window forward |
| `TaskIds.SeedInjective` | the-anchor/src/tasks.rs:114-118 | The seed determines counter and ledger |
| `TaskIds.SeedLayout` | the-anchor/src/tasks.rs:114-118 | Bytes 0 to 3 of the seed decode to the counter and bytes 4 to 7 to the ledger |
| `TaskIds.NextIdIsFresh` | the-anchor/src/tasks.rs:103-119 | With a collision-free hash and fewer than 2^32 provisions logged, the next id names no stored task, in any run of either arithmetic |
| `TaskIds.ProvisionedExactlyOnce` | the-anchor/src/tasks.rs:133-135 | Up to 2^32 provisions, in either arithmetic, each stored task was provisioned exactly once: none is ever overwritten |
| `Tokens.PayoutsAreExact` | the-anchor/src/execution.rs:228-239 | Over every run each account holds its outside inflow plus exactly its recorded rewards, the Anchor its funding minus exactly all recorded payouts, and no balance is negative |
| `Tokens.ExecutionPays` | the-anchor/src/execution.rs:137-150 | One execution moves exactly what its events record, for every account |
| `Eligibility.IneligibleIffSlashedBelow` | the-anchor/src/slashing.rs:103-112 | In every run of either arithmetic a keeper is flagged exactly when it was slashed and its stake is below 10_000_000 |
| `Eligibility.IneligibleIffBelowThreshold` | the-anchor/src/registry.rs:58-67 | In either arithmetic, with configured minimums of at least 10_000_000, flagged means exactly stake below it |
| `Eligibility.IneligibleForGood` | the-anchor/src/tasks.rs:93-96 | The flag is never cleared and no later task designates that keeper |
| `Eligibility.FlaggedBelowConfiguredIff` | the-anchor/src/slashing.rs:105-109 | In either arithmetic the documented rule at the configured minimum holds over all runs exactly when that minimum is at most 10_000_000 |
| `Eligibility.UnflaggedBelowConfigured` | the-anchor/src/slashing.rs:105-109 | For every larger minimum and either arithmetic, a run that breaks the documented rule |
| `Secondaries.GraceIgnoresRegistrationLedger` | the-anchor/src/execution.rs:117-120 | In every reachable state an otherwise allowed grace execution succeeds whatever ledger the caller registered at, and obeys the documented rule exactly when that ledger is before the window |
| `Secondaries.DocumentedSecondaryRuleIff` | the-anchor/src/execution.rs:117-120 | Contract and documented rule agree on a call exactly unless it is executable, in grace, and from a keeper registered at or after the window |
| `Secondaries.LateRegistrantExecutes` | the-anchor/src/execution.rs:117-120 | In every reachable funded grace state anybody can register and then execute, against the documented rule |
| `Secondaries.LateSecondaryIsAccepted` | the-anchor/src/registry.rs:111-115 | A concrete run: registered at ledger 2 after the window at ledger 1, accepted |
| `Secondaries.RegistrationLedgerKnown` | the-anchor/src/registry.rs:83-86 | The registered keepers are exactly those with a logged registration ledger, never a future one |
| `Accounting.ExecutionsAddUp` | the-anchor/src/execution.rs:249-254 | In either arithmetic, wrapping only up to u64::MAX logged executions: execution counts sum to the logged executions; a last execution is never in the future and is 0 exactly when there was none |
| `Overflow.CompiledRunIsExact` | the-anchor/src/slashing.rs:79-100 | A wrapping run of any length, whose own log holds at most i128::MAX/5 of stake and countable provisions and executions, and whose ledger leaves room for an interval, equals the exact run |
| `Overflow.NoStepOverflows` | the-anchor/src/execution.rs:245-254 | Under the same bounds every product and sum of every step of the compiled run fits its type |
| `Overflow.CompiledConservation` | the-anchor/src/slashing.rs:79-112 | Under the same bounds the compiled contract conserves stake exactly |
| `Agreement.AgreementIff` | the-engine/src/task_discovery.rs:134-162 | Classifier and contract agree on every node and ledger, with the same region, exactly when next + 50 fits in 32 bits |
| `Agreement.LateExitUnreachable` | the-engine/src/grace_monitor.rs:58-85 | The more-than-50 exit of the grace monitor is never taken from the classifier |
| `Agreement.MonitorStepsInIff` | the-engine/src/grace_monitor.rs:58-85 | The monitor steps in exactly up to 50 ledgers after the window, for a task that is neither its own nor in flight |
| `Agreement.PlanMatchesContract` | the-engine/src/task_discovery.rs:129-162 | A ledger advance submits exactly the tasks not in flight that the contract admits this node to, in order and role |
| `Agreement.DispatchIffExecutes` | the-engine/src/task_discovery.rs:134-162 | In every reachable contract state a registered node's Engine dispatches a task exactly when executing it now would succeed, funds and stake permitting |
| `Discovery.TaskDiscovery.OnLedgerAdvance` | the-engine/src/task_discovery.rs:96-132 | The loop dispatches exactly the plan, leaves the in-flight set as it was and records a confirmation exactly when a dispatch of the plan is confirmed; a failed query dispatches nothing |
| `Discovery.TaskDiscovery.ClassifyAndDispatch` | the-engine/src/task_discovery.rs:134-162 | One task is dispatched exactly in the classified role, and its confirmation recorded exactly when it has one |
| `Discovery.TaskDiscovery.EvaluateInGrace` | the-engine/src/grace_monitor.rs:58-85 | Dispatch as secondary unless late, designated or busy, and its confirmation recorded exactly when it has one |
| `InFlight.MutualExclusion` | the-engine/src/in_flight.rs:34-57 | Under every interleaving at most one worker executes an id, the set is exactly the ids being executed, and executions of an id never overlap |
| `InFlight.SecondBeginsAfterFirstEnds` | the-engine/src/execution_pipeline.rs:114-124 | Between two executions of one id the first worker has finished |
| `InFlight.FinishFreesOnlyItsOwn` | the-engine/src/execution_pipeline.rs:123-123 | A finished dispatch frees its own id and disturbs no other worker |
| `InFlight.FreeIdBegins` | the-engine/src/in_flight.rs:34-57 | A check passes and an insert begins an execution exactly for a free id; otherwise the worker gives up and nothing else changes |
| `InFlight.FreeIdIsTaken` | the-engine/src/execution_pipeline.rs:117-121 | In every reachable pool an idle worker that checks and inserts a free id executes it |
| `InFlight.BusyIdIsHandedOver` | the-engine/src/execution_pipeline.rs:117-123 | In every reachable pool a busy id has a worker that can finish, after which any idle worker can execute it |
| `Pipeline.ExecutionPipeline.ExecuteWithRetry` | the-engine/src/execution_pipeline.rs:128-217 | With its id in flight, for every reply sequence at most max_retries + 1 submissions, continued after exactly the transient send errors, with the k-th sleep exact and a confirmation recorded exactly when a submission got one |
| `Pipeline.ExhaustsOnce` | the-engine/src/execution_pipeline.rs:128-217 | The retry rule fixes the number of submissions, and a submission is confirmed exactly when the last one is |
| `Pipeline.ExecutionPipeline.DispatchTask` | the-engine/src/execution_pipeline.rs:114-124 | The whole retry loop runs inside the bracket: submissions, sleeps and confirmation are those of the replies, and the in-flight set is the same afterwards; an id already in flight is not submitted |
| `Backoff.DoubledWait` | the-engine/src/execution_pipeline.rs:203-204 | The first wait is the initial backoff, and repeated capped doubling computes the capped power of two |
| `Backoff.WaitInValidConfig` | the-engine/src/config.rs:274-298 | In a validated configuration every wait is min(initial\*2^k, max), increasing up to the cap |
| `Poller.LedgerPoller.Poll` | the-engine/src/ledger_poller.rs:90-140 | For any number of replies: broadcasts are exactly the strict running maxima of the successful replies, and every backoff sleep is the capped power for the doublings since the last reset carried out |
| `Poller.BackoffFollowsStreakIff` | the-engine/src/ledger_poller.rs:98-104 | In a valid configuration the backoff at every loop head is the capped power for the current error streak exactly when no success ends a streak of a positive multiple of 2^32 errors or the initial backoff is the maximum |
| `Poller.SleepsFollowStreak` | the-engine/src/ledger_poller.rs:116-137 | Under that condition each sleep is the capped power for its place in its error streak |
| `Poller.LostResetSleepsMaximum` | the-engine/src/ledger_poller.rs:98-104 | In every valid configuration the backoff after a lost reset is the maximum where the rule asks for the initial one, so wrong exactly when the two differ |
| `Poller.LostResetExample` | the-engine/src/ledger_poller.rs:117-117 | 2^32 errors and a success lose a reset |
| `Poller.RecordsIncrease` | the-engine/src/ledger_poller.rs:106-113 | Broadcast ledgers strictly increase and each was a reply |

## Left out

- Schedule.NoSecondRunWithinInterval: assumes SHA-256 injective on 8-byte seeds and at most 2^32 provisions; ExecutionRateBound needs neither.
- Overflow.CompiledRunIsExact: says nothing of compiled runs beyond its bounds; beyond them StakeConservation still holds modulo 2^128, and CompiledSlashIsRightIff and ScheduleAdvancesIff say when a value goes wrong.
- The token contract is a balance map with transfers; its own overflow traps and its allowance functions are not modelled.
- The Drip List contract either returns or traps and does not touch the Anchor.
- SHA-256 itself is an arbitrary function.
- Storage tiers, time-to-live and XDR encoding are host behaviour.
- Registration moves no tokens in the code, so nothing relates the token balance to stakes or treasury.
- Confirmation polling is a single outcome of a submission: the pending arm of the wait loop is not modelled.
- Transaction building, signing and key derivation.
- Configuration loading, health server, logging, signals and shutdown.
- The Engine's task cache, which is written and not read, and broadcast lag.
- Hex parsing of task ids: they are taken as decoded.
