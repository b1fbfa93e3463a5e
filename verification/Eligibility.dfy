/** When a keeper is flagged ineligible, and what the flag then prevents. */
module Eligibility {
  import opened Machine
  import opened Types
  import opened Slashing
  import opened Contract
  import opened Tallies
  import opened WellFormedness
  import opened Stakes
  import opened Scenario

  lemma FlagStep(h: Host, s: State, step: Step, k: Address)
    requires WellFormed(h, s) && k in s.keepers
    ensures k in Apply(h, s, step).keepers
    ensures
      var k' := Apply(h, s, step).keepers[k];
      if SlashesKeeper(h, s, step, k)
      then k'.ineligible == (s.keepers[k].ineligible || k'.stake < MIN_KEEPER_STAKE)
      else k'.ineligible == s.keepers[k].ineligible
  {
    if step.Execute? && Succeeds(h, s, step) {
      ExecutedRegistry(h, s, step.id, step.caller, step.auth, step.dripReturns);
    }
  }

  /** Below the threshold a stake stays below it, even where the slash product wraps. */
  lemma StaysBelow(a: Arith, stake: int)
    requires stake < MIN_KEEPER_STAKE && (a.Exact? || FitsI128(stake))
    ensures StakeAfterSlash(a, stake) < MIN_KEEPER_STAKE
  {
  }

  /** In every run, in either arithmetic: a keeper is flagged exactly when it has been
      slashed and its stake is below the compiled-in threshold, whatever minimum is
      configured. */
  lemma {:induction false} IneligibleIffSlashedBelow(h: Host, start: u32, steps: seq<Step>, k: Address)
    requires k in Run(h, Genesis(start), steps).keepers
    ensures
      var keeper := Run(h, Genesis(start), steps).keepers[k];
      keeper.ineligible <==>
        keeper.stake < MIN_KEEPER_STAKE && SlashCount(h, Genesis(start), steps, k) > 0
  {
    if steps != [] {
      var init, last := steps[..|steps| - 1], steps[|steps| - 1];
      var s := Run(h, Genesis(start), init);
      ReachableWellFormed(h, start, init);
      ExactStakeHistory(h, start, init, k);
      if k in s.keepers {
        IneligibleIffSlashedBelow(h, start, init, k);
        ZeroOnlyFromZero(h.arith, StakeAtRegistration(h, Genesis(start), init, k), SlashCount(h, Genesis(start), init, k));
        StakeStep(h, s, last, k);
        FlagStep(h, s, last, k);
        if s.keepers[k].stake < MIN_KEEPER_STAKE { StaysBelow(h.arith, s.keepers[k].stake); }
      } else {
        UnregisteredStep(h, s, last, k);
      }
    }
  }

  /** If every configured minimum is at least 10_000_000, ineligible means exactly: stake below it. */
  lemma IneligibleIffBelowThreshold(h: Host, start: u32, steps: seq<Step>, k: Address)
    requires MinimumAtLeast(steps, MIN_KEEPER_STAKE)
    requires k in Run(h, Genesis(start), steps).keepers
    ensures
      var keeper := Run(h, Genesis(start), steps).keepers[k];
      keeper.ineligible <==> keeper.stake < MIN_KEEPER_STAKE
  {
    IneligibleIffSlashedBelow(h, start, steps, k);
    ExactStakeHistory(h, start, steps, k);
    RegisteredAtLeast(h, start, steps, k, MIN_KEEPER_STAKE);
  }

  lemma AssignmentWeight(h: Host, s: State, step: Step, k: Address)
    ensures StepWeight(h, s, step, AssignmentsTo(k)) ==
      Indicator(step.Provision? && step.designated == k && Succeeds(h, s, step))
  {
  }

  /** The flag is never cleared, and from then on no task is provisioned for that keeper. */
  lemma {:induction false} IneligibleForGood(h: Host, s: State, more: seq<Step>, k: Address)
    requires WellFormed(h, s) && k in s.keepers && s.keepers[k].ineligible
    ensures
      var s' := Run(h, s, more);
      && WellFormed(h, s') && k in s'.keepers && s'.keepers[k].ineligible
      && Tally(s'.log, AssignmentsTo(k)) == Tally(s.log, AssignmentsTo(k))
  {
    if more != [] {
      var init, last := more[..|more| - 1], more[|more| - 1];
      IneligibleForGood(h, s, init, k);
      var mid := Run(h, s, init);
      WellFormedStep(h, mid, last);
      FlagStep(h, mid, last, k);
      TallyStep(h, mid, last, AssignmentsTo(k));
      AssignmentWeight(h, mid, last, k);
    }
  }

  // ---- The documented rule, at the configured minimum ----

  ghost predicate FlaggedIfBelow(h: Host, m: i128, start: u32, steps: seq<Step>, k: Address) {
    var s := Run(h, Genesis(start), steps);
    && s.minStake == Some(m)
    && k in s.keepers
    && s.keepers[k].stake < m
    && SlashCount(h, Genesis(start), steps, k) > 0
    ==> s.keepers[k].ineligible
  }

  /** "A stake that slashing has taken below the configured minimum m is flagged." */
  ghost predicate FlaggedBelowConfigured(h: Host, m: i128) {
    forall start: u32, steps: seq<Step>, k: Address :: FlaggedIfBelow(h, m, start, steps, k)
  }

  /** A stake that one slash takes below m, but not below the threshold: at least m,
      unless the compiled product would wrap there. */
  function StakeAboveThreshold(m: i128): (x: i128)
    ensures m > MIN_KEEPER_STAKE ==>
      MIN_KEEPER_STAKE <= x <= MAX_EXACT_STAKE && MIN_KEEPER_STAKE <= StakeAfterSlash(Exact, x) < m
    ensures MIN_KEEPER_STAKE < m <= MAX_EXACT_STAKE ==> m <= x
  {
    if 10_526_315 <= m <= MAX_EXACT_STAKE then m else 10_526_315
  }

  /** For every larger minimum a run breaks the rule, in either arithmetic: the keeper
      registers under m (or, where m is so large that the product wraps, before m is
      configured), misses its window, and is slashed below m without being flagged. */
  lemma UnflaggedBelowConfigured(h: Host, m: i128)
    requires m > MIN_KEEPER_STAKE
    ensures !FlaggedBelowConfigured(h, m)
  {
    var x, early := StakeAboveThreshold(m), m > MAX_EXACT_STAKE;
    var d, setup := Outsider(h, 'd'), MissedWindow(h, early, m, x, x);
    var stepIn := Execute(TheTask(h), Outsider(h, 'e'), true, true);
    MissedWindowSlash(h, early, m, x);
    RunSnoc(h, Genesis(0), setup, stepIn);
    assert (setup + [stepIn])[..|setup + [stepIn]| - 1] == setup;
    assert SlashesKeeper(h, Run(h, Genesis(0), setup), stepIn, d);
    assert SlashCount(h, Genesis(0), setup + [stepIn], d) > 0;
    assert !FlaggedIfBelow(h, m, 0, setup + [stepIn], d);
  }

  /** The documented rule holds of the code exactly when the configured minimum
      does not exceed the compiled-in threshold that slashing compares with. */
  lemma FlaggedBelowConfiguredIff(h: Host, m: i128)
    ensures FlaggedBelowConfigured(h, m) <==> m <= MIN_KEEPER_STAKE
  {
    if m > MIN_KEEPER_STAKE {
      UnflaggedBelowConfigured(h, m);
    } else {
      forall start: u32, steps: seq<Step>, k: Address ensures FlaggedIfBelow(h, m, start, steps, k) {
        if k in Run(h, Genesis(start), steps).keepers { IneligibleIffSlashedBelow(h, start, steps, k); }
      }
    }
  }
}
