/** A small concrete history, used to show where documented rules fail. */
module Scenario {
  import opened Machine
  import opened Types
  import opened Slashing
  import opened Contract

  function Outsider(h: Host, tag: char): Address { h.self + [tag] }

  /** The contract is configured and two keepers register; `early` ones register first,
      under the compiled-in minimum. */
  function TwoKeepers(h: Host, early: bool, minStake: i128, stake: i128): seq<Step> {
    var init := Initialize(Outsider(h, 'a'), Outsider(h, 't'), minStake, true);
    var d, e := Register(Outsider(h, 'd'), stake, true), Register(Outsider(h, 'e'), stake, true);
    if early then [d] + [e] + [init] else [init] + [d] + [e]
  }

  /** One of them is assigned a task with interval 1, the Anchor is funded, and one
      ledger too many passes: the task is in its grace period. */
  function MissedWindow(h: Host, early: bool, minStake: i128, stake: i128, funds: i128): seq<Step> {
    TwoKeepers(h, early, minStake, stake)
    + [Provision(Outsider(h, 'l'), 1, 1, Outsider(h, 'd'), true)]
    + [MoveTokens(None, h.self, funds)]
    + [Advance(2)]
  }

  function TheTask(h: Host): TaskId { h.sha256(Seed(0, 0)) }

  predicate Accepted(early: bool, minStake: i128, stake: i128) {
    if early then MIN_KEEPER_STAKE <= stake else minStake <= stake
  }

  function Newcomer(k: Address, stake: int): Keeper { Keeper(k, stake, 0, 0, false) }

  lemma DistinctOutsiders(h: Host)
    ensures Outsider(h, 'd') != Outsider(h, 'e') && Outsider(h, 'd') != Outsider(h, 'f') && Outsider(h, 'e') != Outsider(h, 'f')
  {
    assert Outsider(h, 'd')[|h.self|] == 'd' && Outsider(h, 'e')[|h.self|] == 'e' && Outsider(h, 'f')[|h.self|] == 'f';
  }

  /** Registering one newcomer, under whatever minimum is in force. */
  lemma RegisterOne(h: Host, s: State, k: Address, stake: i128)
    requires k != h.self && k !in s.keepers && MinStakeInForce(s) <= stake
    ensures
      var s' := Apply(h, s, Register(k, stake, true));
      s' == s.(keepers := s.keepers[k := Newcomer(k, stake)], log := s'.log)
  {
  }

  lemma RegisterBoth(h: Host, s: State, stake: i128)
    requires s.keepers == map[] && MinStakeInForce(s) <= stake
    ensures
      var d, e := Outsider(h, 'd'), Outsider(h, 'e');
      var s' := Apply(h, Apply(h, s, Register(d, stake, true)), Register(e, stake, true));
      s' == s.(keepers := map[d := Newcomer(d, stake), e := Newcomer(e, stake)], log := s'.log)
  {
    DistinctOutsiders(h);
    var d, e := Outsider(h, 'd'), Outsider(h, 'e');
    RegisterOne(h, s, d, stake);
    RegisterOne(h, Apply(h, s, Register(d, stake, true)), e, stake);
  }

  lemma RunThree(h: Host, s: State, a: Step, b: Step, c: Step)
    ensures Run(h, s, [a] + [b] + [c]) == Apply(h, Apply(h, Apply(h, s, a), b), c)
  {
    assert [a] == [] + [a];
    RunSnoc(h, s, [], a);
    RunSnoc(h, s, [a], b);
    RunSnoc(h, s, [a] + [b], c);
  }

  lemma TwoKeepersState(h: Host, early: bool, minStake: i128, stake: i128)
    requires Accepted(early, minStake, stake)
    ensures
      var s := Run(h, Genesis(0), TwoKeepers(h, early, minStake, stake));
      var d, e := Outsider(h, 'd'), Outsider(h, 'e');
      && s == Genesis(0).(
           admin := Some(Outsider(h, 'a')), token := Some(Outsider(h, 't')), minStake := Some(minStake),
           keepers := s.keepers, log := s.log)
      && s.keepers == map[d := Newcomer(d, stake), e := Newcomer(e, stake)]
  {
    var init := Initialize(Outsider(h, 'a'), Outsider(h, 't'), minStake, true);
    var d, e := Register(Outsider(h, 'd'), stake, true), Register(Outsider(h, 'e'), stake, true);
    if early {
      RunThree(h, Genesis(0), d, e, init);
      RegisterBoth(h, Genesis(0), stake);
    } else {
      RunThree(h, Genesis(0), init, d, e);
      RegisterBoth(h, Apply(h, Genesis(0), init), stake);
    }
  }

  lemma MissedWindowState(h: Host, early: bool, minStake: i128, stake: i128, funds: i128)
    requires Accepted(early, minStake, stake) && 0 <= funds
    ensures
      var s := Run(h, Genesis(0), MissedWindow(h, early, minStake, stake, funds));
      var d, e := Outsider(h, 'd'), Outsider(h, 'e');
      && s.minStake == Some(minStake) && s.token.Some? && s.ledger == 2
      && s.keepers == map[d := Newcomer(d, stake), e := Newcomer(e, stake)]
      && s.tasks == map[TheTask(h) := Task(TheTask(h), Outsider(h, 'l'), 1, 1, 1, d)]
      && Balance(s.balances, h.self) == funds
  {
    TwoKeepersState(h, early, minStake, stake);
    var w2, provision := TwoKeepers(h, early, minStake, stake), Provision(Outsider(h, 'l'), 1, 1, Outsider(h, 'd'), true);
    assert Succeeds(h, Run(h, Genesis(0), w2), provision);
    RunSnoc(h, Genesis(0), w2, provision);
    RunSnoc(h, Genesis(0), w2 + [provision], MoveTokens(None, h.self, funds));
    RunSnoc(h, Genesis(0), w2 + [provision] + [MoveTokens(None, h.self, funds)], Advance(2));
  }

  /** The other keeper steps in, and the designated one is slashed. */
  lemma MissedWindowSlash(h: Host, early: bool, minStake: i128, stake: i128)
    requires Accepted(early, minStake, stake) && 0 < stake <= MAX_EXACT_STAKE
    ensures
      var s := Run(h, Genesis(0), MissedWindow(h, early, minStake, stake, stake));
      var d, stepIn := Outsider(h, 'd'), Execute(TheTask(h), Outsider(h, 'e'), true, true);
      && TheTask(h) in s.tasks && s.tasks[TheTask(h)].designated == d && RegionAt(s.tasks[TheTask(h)].next, s.ledger).Grace?
      && Succeeds(h, s, stepIn)
      && Apply(h, s, stepIn).minStake == Some(minStake)
      && d in Apply(h, s, stepIn).keepers
      && Apply(h, s, stepIn).keepers[d] == SlashedKeeper(Exact, Newcomer(d, stake))
  {
    DistinctOutsiders(h);
    MissedWindowState(h, early, minStake, stake, stake);
    SlashExactUpTo(h.arith, stake);
  }
}
