/** Capped exponential backoff, computed by repeated doubling. */
module Backoff {
  import opened Machine

  /** The wait after `k` doublings. The first wait is not capped. */
  function Wait(initial: nat, max: nat, k: nat): nat {
    if k == 0 then initial else Min(initial * Pow(2, k), max)
  }

  lemma PowPositive(k: nat)
    ensures Pow(2, k) >= 1
  {
  }

  /** The first wait is the initial one, and doubling and capping one wait gives the next. */
  lemma DoubledWait(initial: nat, max: nat, k: nat)
    ensures Wait(initial, max, 0) == initial
    ensures Min(Wait(initial, max, k) * 2, max) == Wait(initial, max, k + 1)
  {
    var p := initial * Pow(2, k);
    assert initial * Pow(2, k + 1) == 2 * p;
    assert initial * Pow(2, 0) == initial;
  }

  /** In a validated configuration every wait is min(initial * 2^k, max). */
  lemma WaitInValidConfig(initial: nat, max: nat, k: nat)
    requires 1 <= initial <= max
    ensures Wait(initial, max, k) == Min(initial * Pow(2, k), max)
    ensures 1 <= Wait(initial, max, k) <= Wait(initial, max, k + 1) <= max
  {
    PowPositive(k);
    var p := initial * Pow(2, k);
    assert p >= initial;
    assert initial * Pow(2, k + 1) == 2 * p;
    assert initial * Pow(2, 0) == initial;
  }
}
