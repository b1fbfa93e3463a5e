/** The slash formula and what repeating it does to a stake. */
module Slashing {
  import opened Machine

  function SlashAmount(a: Arith, stake: int): int { TruncDiv(a.I128(stake * 5), 100) }

  function StakeAfterSlash(a: Arith, stake: int): int { a.I128(stake - SlashAmount(a, stake)) }

  function SecondaryReward(a: Arith, stake: int): int { TruncDiv(SlashAmount(a, stake), 2) }

  function TreasuryPortion(a: Arith, stake: int): int {
    a.I128(SlashAmount(a, stake) - SecondaryReward(a, stake))
  }

  function SlashedTimes(a: Arith, stake: int, n: nat): int {
    if n == 0 then stake else StakeAfterSlash(a, SlashedTimes(a, stake, n - 1))
  }

  /** One slash takes a twentieth, rounded down, off a non-negative stake. */
  lemma OneSlash(stake: int)
    requires stake >= 0
    ensures SlashAmount(Exact, stake) == stake / 20
    ensures 19 * stake <= 20 * StakeAfterSlash(Exact, stake) <= 19 * stake + 19
    ensures 0 <= StakeAfterSlash(Exact, stake) <= stake
    ensures 0 <= SecondaryReward(Exact, stake) <= TreasuryPortion(Exact, stake) <= SecondaryReward(Exact, stake) + 1
  {
  }

  /** No value is created or destroyed by a slash, whatever the sign of the stake, and
      half of it, rounded toward zero, is the secondary reward. */
  lemma SlashSplitsStake(stake: int)
    ensures StakeAfterSlash(Exact, stake) + SecondaryReward(Exact, stake) + TreasuryPortion(Exact, stake) == stake
    ensures SecondaryReward(Exact, stake) == if stake >= 0 then stake / 40 else -(-stake / 40)
  {
  }

  lemma {:induction false} SlashedTimesNonNegative(stake: int, n: nat)
    requires stake >= 0
    ensures 0 <= SlashedTimes(Exact, stake, n) <= stake
  {
    if n > 0 {
      SlashedTimesNonNegative(stake, n - 1);
      OneSlash(SlashedTimes(Exact, stake, n - 1));
    }
  }

  lemma MulMono(c: nat, x: int, y: int)
    requires x <= y
    ensures c * x <= c * y
  {
  }

  lemma DecayStep(p: nat, q: nat, s: int, t: int, u: int)
    requires p * s <= q * t <= p * (s - 19) + 19 * q
    requires 19 * t <= 20 * u <= 19 * t + 19
    ensures (19 * p) * s <= (20 * q) * u <= (19 * p) * (s - 19) + 19 * (20 * q)
  {
    var ps, ps19, qt, qu := p * s, p * (s - 19), q * t, q * u;
    MulMono(q, 19 * t, 20 * u);
    MulMono(q, 20 * u, 19 * t + 19);
    assert q * (19 * t) == 19 * qt;
    assert q * (20 * u) == 20 * qu;
    assert q * (19 * t + 19) == 19 * qt + 19 * q;
    assert (19 * p) * s == 19 * ps;
    assert (20 * q) * u == 20 * qu;
    assert (19 * p) * (s - 19) == 19 * ps19;
  }

  /** Geometric decay, with the rounding error bounded for every number of slashes. */
  lemma {:induction false} DecayBounds(stake: int, n: nat)
    requires stake >= 0
    ensures Pow(19, n) * stake <= Pow(20, n) * SlashedTimes(Exact, stake, n)
    ensures Pow(20, n) * SlashedTimes(Exact, stake, n) <= Pow(19, n) * (stake - 19) + 19 * Pow(20, n)
  {
    if n > 0 {
      var t := SlashedTimes(Exact, stake, n - 1);
      SlashedTimesNonNegative(stake, n - 1);
      OneSlash(t);
      DecayBounds(stake, n - 1);
      DecayStep(Pow(19, n - 1), Pow(20, n - 1), stake, t, StakeAfterSlash(Exact, t));
    }
  }

  /** From 19 stroops up, slashing goes strictly down until the stake rests at exactly 19. */
  lemma {:induction false} RestsAtNineteen(stake: int, n: nat)
    requires stake >= 19
    ensures 19 <= SlashedTimes(Exact, stake, n) <= stake
    ensures SlashedTimes(Exact, stake, n + 1) == SlashedTimes(Exact, stake, n) <==> SlashedTimes(Exact, stake, n) == 19
    ensures SlashedTimes(Exact, stake, n + 1) <= SlashedTimes(Exact, stake, n)
    ensures SlashedTimes(Exact, stake, n) <= if stake - n >= 19 then stake - n else 19
  {
    if n > 0 { RestsAtNineteen(stake, n - 1); }
    OneSlash(SlashedTimes(Exact, stake, n));
  }

  /** Slashing treats a negative stake as the mirror image of a positive one. */
  lemma {:induction false} SlashIsOdd(stake: int, n: nat)
    ensures SlashedTimes(Exact, -stake, n) == -SlashedTimes(Exact, stake, n)
  {
    if n > 0 { SlashIsOdd(stake, n - 1); }
  }

  /** One slash, wrapping or not, takes no other stake to zero. */
  lemma SlashToZero(a: Arith, stake: int)
    requires a.Exact? || FitsI128(stake)
    ensures StakeAfterSlash(a, stake) == 0 <==> stake == 0
    ensures a.Release? ==> FitsI128(StakeAfterSlash(a, stake))
  {
    if a.Release? {
      var product, slash := WrapI128(stake * 5), SlashAmount(Release, stake);
      assert -I128_MAX / 50 <= slash <= I128_MAX / 50;
      if WrapI128(stake - slash) == 0 {
        assert (stake - slash) % (I128_MAX - I128_MIN + 1) == 0;
        assert stake == slash;
        assert product == stake * 5;
      }
    }
  }

  /** Slashing never takes a stake to zero and never revives a zero stake, in either arithmetic. */
  lemma {:induction false} ZeroOnlyFromZero(a: Arith, stake: int, n: nat)
    requires a.Exact? || FitsI128(stake)
    ensures SlashedTimes(a, stake, n) == 0 <==> stake == 0
    ensures a.Release? ==> FitsI128(SlashedTimes(a, stake, n))
  {
    if n > 0 {
      ZeroOnlyFromZero(a, stake, n - 1);
      SlashToZero(a, SlashedTimes(a, stake, n - 1));
    }
  }

  /** The largest stake whose slash the compiled product gets right. */
  const MAX_EXACT_STAKE: int := I128_MAX / 5

  lemma SlashExactUpTo(a: Arith, stake: int)
    requires 0 <= stake <= MAX_EXACT_STAKE
    ensures SlashAmount(a, stake) == SlashAmount(Exact, stake)
    ensures StakeAfterSlash(a, stake) == StakeAfterSlash(Exact, stake)
    ensures SecondaryReward(a, stake) == SecondaryReward(Exact, stake)
    ensures TreasuryPortion(a, stake) == TreasuryPortion(Exact, stake)
  {
  }

  /** That bound is tight, on either side of zero: beyond it the product wraps and the
      compiled slash amount is wrong, for every stake an i128 can hold. */
  lemma CompiledSlashIsRightIff(stake: int)
    requires FitsI128(stake)
    ensures SlashAmount(Release, stake) == SlashAmount(Exact, stake) <==> -MAX_EXACT_STAKE <= stake <= MAX_EXACT_STAKE
  {
    var product := stake * 5;
    if !FitsI128(product) {
      WrapsByTurns(product);
      assert WrapI128(product) != product;
      assert WrapI128(product) <= product - I128_RANGE || product + I128_RANGE <= WrapI128(product);
    }
  }

  /** Repeated compiled slashes of such a non-negative stake are exact. */
  lemma {:induction false} SlashedTimesExact(a: Arith, stake: int, n: nat)
    requires 0 <= stake && (a.Exact? || stake <= MAX_EXACT_STAKE)
    ensures SlashedTimes(a, stake, n) == SlashedTimes(Exact, stake, n)
  {
    if n > 0 && a.Release? {
      SlashedTimesExact(a, stake, n - 1);
      SlashedTimesNonNegative(stake, n - 1);
      SlashExactUpTo(a, SlashedTimes(Exact, stake, n - 1));
    }
  }

  // ---- Wrapping changes a value by whole turns ----

  const I128_RANGE: int := I128_MAX - I128_MIN + 1

  function Turns(x: int): int { (x - WrapI128(x)) / I128_RANGE }

  lemma WrapsByTurns(x: int)
    ensures x == WrapI128(x) + Turns(x) * I128_RANGE
  {
    var q := (x - I128_MIN) / I128_RANGE;
    assert x - I128_MIN == q * I128_RANGE + (x - I128_MIN) % I128_RANGE;
    assert x - WrapI128(x) == q * I128_RANGE;
  }

  /** A whole number of wrap-arounds; none in exact arithmetic. */
  predicate WholeTurns(a: Arith, x: int) {
    if a.Exact? then x == 0 else x % I128_RANGE == 0
  }

  lemma TurnsAreWhole(x: int, turns: int)
    requires x == turns * I128_RANGE
    ensures x % I128_RANGE == 0
  {
  }

  lemma NoTurn(a: Arith)
    ensures WholeTurns(a, 0)
  {
  }

  lemma WholeTurnsOn(a: Arith, before: int, after: int)
    requires WholeTurns(a, before) && WholeTurns(a, after - before)
    ensures WholeTurns(a, after)
  {
    if a.Release? { TurnsAreWhole(after, before / I128_RANGE + (after - before) / I128_RANGE); }
  }

  /** Whatever wraps on the way, a slash moves value only by whole turns: what it takes
      from the stake, adds to the treasury and calls a reward cancel out. */
  lemma SlashBalances(a: Arith, stake: int, treasury: int)
    ensures WholeTurns(a,
      (StakeAfterSlash(a, stake) - stake) + (a.I128(treasury + TreasuryPortion(a, stake)) - treasury)
      + SecondaryReward(a, stake))
  {
    if a.Release? {
      var slash, secondary := SlashAmount(a, stake), SecondaryReward(a, stake);
      var portion := TreasuryPortion(a, stake);
      WrapsByTurns(stake - slash);
      WrapsByTurns(slash - secondary);
      WrapsByTurns(treasury + portion);
      TurnsAreWhole((StakeAfterSlash(a, stake) - stake) + (a.I128(treasury + portion) - treasury) + secondary,
        -Turns(stake - slash) - Turns(slash - secondary) - Turns(treasury + portion));
    }
  }
}
