/** Every token the Anchor pays out is accounted for, account by account. */
module Tokens {
  import opened Machine
  import opened Types
  import opened Contract
  import opened Tallies
  import opened WellFormedness

  /** What movements not started by the Anchor brought to an account. */
  function StepInflow(h: Host, s: State, step: Step, a: Address): int {
    if step.MoveTokens? && Succeeds(h, s, step) then
      (if step.dst == a then step.amount else 0) - (if step.src == Some(a) then step.amount else 0)
    else 0
  }

  function Inflow(h: Host, s: State, steps: seq<Step>, a: Address): int {
    if steps == [] then 0
    else
      var init := steps[..|steps| - 1];
      Inflow(h, s, init, a) + StepInflow(h, Run(h, s, init), steps[|steps| - 1], a)
  }

  /** What the log says the Anchor did to an account: it pays everybody, and is paid by nobody. */
  function Recorded(h: Host, log: seq<Entry>, a: Address): int {
    if a == h.self then -Tally(log, Payouts) else Tally(log, EarnedBy(a))
  }

  lemma MoveEffect(b: map<Address, int>, src: Address, dst: Address, amount: int, a: Address)
    ensures Balance(Move(b, src, dst, amount), a) ==
      Balance(b, a) + (if a == dst then amount else 0) - (if a == src then amount else 0)
  {
  }

  lemma PayoutWeight(h: Host, s: State, id: TaskId, caller: Address, a: Address)
    requires id in s.tasks && s.tasks[id].designated in s.keepers
    requires !RegionAt(s.tasks[id].next, s.ledger).PreWindow?
    ensures
      var paid := s.tasks[id].reward + Bonus(h, s, s.tasks[id]);
      var entries := ExecutionEntries(h, s, id, caller);
      && EntriesWeight(entries, Payouts) == paid
      && EntriesWeight(entries, EarnedBy(a)) == if a == caller then paid else 0
  {
  }

  lemma ExecutionPays(h: Host, s: State, id: TaskId, caller: Address, auth: bool, dripReturns: bool, a: Address)
    requires WellFormed(h, s)
    requires ExecuteOutcome(h, s, id, caller, auth, dripReturns).Ok?
    ensures
      var s' := Executed(h, s, id, caller);
      && Balance(s'.balances, a) - Recorded(h, s'.log, a) == Balance(s.balances, a) - Recorded(h, s.log, a)
      && (Balance(s.balances, a) >= 0 ==> Balance(s'.balances, a) >= 0)
  {
    ExecutedRegistry(h, s, id, caller, auth, dripReturns);
    assert TaskWellFormed(s, id);
    var t, entries := s.tasks[id], ExecutionEntries(h, s, id, caller);
    MoveEffect(s.balances, h.self, caller, t.reward + Bonus(h, s, t), a);
    PayoutWeight(h, s, id, caller, a);
    TallyEntries(s.log, entries, Payouts);
    TallyEntries(s.log, entries, EarnedBy(a));
  }

  lemma BooksStep(h: Host, s: State, step: Step, a: Address)
    requires WellFormed(h, s)
    ensures
      var s' := Apply(h, s, step);
      && Balance(s'.balances, a) - Recorded(h, s'.log, a)
           == Balance(s.balances, a) - Recorded(h, s.log, a) + StepInflow(h, s, step, a)
      && (Balance(s.balances, a) >= 0 ==> Balance(s'.balances, a) >= 0)
  {
    if Succeeds(h, s, step) {
      match step
      case Register(_, _, _) =>
        TallyStep(h, s, step, Payouts);
        TallyStep(h, s, step, EarnedBy(a));
      case Provision(_, _, _, _, _) =>
        TallyStep(h, s, step, Payouts);
        TallyStep(h, s, step, EarnedBy(a));
      case Execute(id, caller, auth, dripReturns) =>
        ExecutionPays(h, s, id, caller, auth, dripReturns, a);
      case MoveTokens(src, dst, amount) =>
        if src.Some? { MoveEffect(s.balances, src.value, dst, amount, a); }
      case _ =>
    }
  }

  /** Over every run: each account holds its outside inflow plus exactly the rewards
      its execution events record, the Anchor holds its funding minus exactly all
      recorded payouts, and no balance is ever negative. */
  lemma {:induction false} PayoutsAreExact(h: Host, start: u32, steps: seq<Step>, a: Address)
    ensures
      var s := Run(h, Genesis(start), steps);
      && Balance(s.balances, a) == Inflow(h, Genesis(start), steps, a) + Recorded(h, s.log, a)
      && Balance(s.balances, a) >= 0
  {
    if steps != [] {
      var init := steps[..|steps| - 1];
      PayoutsAreExact(h, start, init, a);
      ReachableWellFormed(h, start, init);
      BooksStep(h, Run(h, Genesis(start), init), steps[|steps| - 1], a);
    }
  }
}
