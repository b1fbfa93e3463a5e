/** The ledger poller: which advances it broadcasts, and how long it backs off. */
module Poller {
  import opened Machine
  import opened Backoff

  datatype PollReply = Latest(sequence: u32) | PollError

  /** Reply `i` is a strict running maximum above `floor` of the successful replies. */
  ghost predicate IsRecord(replies: seq<PollReply>, i: nat, floor: int)
    requires i < |replies|
  {
    && replies[i].Latest?
    && replies[i].sequence > floor
    && forall j :: 0 <= j < i && replies[j].Latest? ==> replies[j].sequence < replies[i].sequence
  }

  ghost function Records(replies: seq<PollReply>, n: nat, floor: int): seq<u32>
    requires n <= |replies|
  {
    if n == 0 then []
    else Records(replies, n - 1, floor) + if IsRecord(replies, n - 1, floor) then [replies[n - 1].sequence] else []
  }

  /** Errors since the last success among the first `n` replies. */
  function Trailing(replies: seq<PollReply>, n: nat): nat
    requires n <= |replies|
    ensures Trailing(replies, n) <= n
  {
    if n == 0 || replies[n - 1].Latest? then 0 else Trailing(replies, n - 1) + 1
  }

  /** The backoff sleeps the reset rule asks for: one per error, by its place in its streak. */
  function ErrorSleeps(replies: seq<PollReply>, n: nat, initial: nat, max: nat): seq<nat>
    requires n <= |replies|
  {
    if n == 0 then []
    else
      ErrorSleeps(replies, n - 1, initial, max)
      + if replies[n - 1].PollError? then [Wait(initial, max, Trailing(replies, n - 1))] else []
  }

  // ---- What the code does: its error counter has 32 bits ----

  const COUNTER_RANGE: int := U32_MAX + 1

  /** A success that ends a non-empty streak which the counter shows as zero. */
  predicate LosesReset(replies: seq<PollReply>, i: nat)
    requires i < |replies|
  {
    replies[i].Latest? && Trailing(replies, i) > 0 && Trailing(replies, i) % COUNTER_RANGE == 0
  }

  /** Doublings of the backoff since the last reset that was carried out. */
  function Doublings(replies: seq<PollReply>, n: nat): nat
    requires n <= |replies|
    ensures Doublings(replies, n) >= Trailing(replies, n)
  {
    if n == 0 then 0
    else if replies[n - 1].PollError? then Doublings(replies, n - 1) + 1
    else if Trailing(replies, n - 1) % COUNTER_RANGE == 0 then Doublings(replies, n - 1)
    else 0
  }

  /** The backoff sleeps of the first `n` polls. */
  function ActualSleeps(replies: seq<PollReply>, n: nat, initial: nat, max: nat): seq<nat>
    requires n <= |replies|
  {
    if n == 0 then []
    else
      ActualSleeps(replies, n - 1, initial, max)
      + if replies[n - 1].PollError? then [BackoffAt(replies, n - 1, initial, max)] else []
  }

  /** No success ends a streak of a positive multiple of 2^32 errors. */
  ghost predicate KeepsResets(replies: seq<PollReply>) {
    forall i :: 0 <= i < |replies| ==> !LosesReset(replies, i)
  }

  /** The backoff held at the head of the loop for reply `n`. */
  function BackoffAt(replies: seq<PollReply>, n: nat, initial: nat, max: nat): nat
    requires n <= |replies|
  {
    Wait(initial, max, Doublings(replies, n))
  }

  /** The reset rule: it is the capped power for the errors of the current streak. */
  predicate FollowsStreak(replies: seq<PollReply>, n: nat, initial: nat, max: nat)
    requires n <= |replies|
  {
    BackoffAt(replies, n, initial, max) == Wait(initial, max, Trailing(replies, n))
  }

  lemma {:induction false} ResetsCarriedOut(replies: seq<PollReply>, n: nat)
    requires n <= |replies| && KeepsResets(replies)
    ensures Doublings(replies, n) == Trailing(replies, n)
  {
    if n > 0 {
      ResetsCarriedOut(replies, n - 1);
      assert !LosesReset(replies, n - 1);
    }
  }

  lemma SteadyBackoff(max: nat, k: nat)
    ensures Wait(max, max, k) == max
  {
    PowPositive(k);
    assert max * Pow(2, k) >= max;
  }

  /** In a valid configuration the backoff follows the error streak at every loop head
      exactly when no reset is lost, or there is nothing to reset: initial == max. */
  lemma BackoffFollowsStreakIff(replies: seq<PollReply>, initial: nat, max: nat)
    requires 1 <= initial <= max <= 60
    ensures (forall n :: 0 <= n <= |replies| ==> FollowsStreak(replies, n, initial, max))
      <==> KeepsResets(replies) || initial == max
  {
    if KeepsResets(replies) || initial == max {
      forall n | 0 <= n <= |replies| ensures FollowsStreak(replies, n, initial, max) {
        if KeepsResets(replies) {
          ResetsCarriedOut(replies, n);
        } else {
          SteadyBackoff(max, Doublings(replies, n));
          SteadyBackoff(max, Trailing(replies, n));
        }
      }
    } else {
      var i :| 0 <= i < |replies| && LosesReset(replies, i);
      LostResetSleepsMaximum(replies, i, initial, max);
      assert !FollowsStreak(replies, i + 1, initial, max);
    }
  }

  /** Then the sleeps are those of the reset rule. */
  lemma {:induction false} SleepsFollowStreak(replies: seq<PollReply>, n: nat, initial: nat, max: nat)
    requires n <= |replies|
    ensures KeepsResets(replies) || initial == max ==>
      ActualSleeps(replies, n, initial, max) == ErrorSleeps(replies, n, initial, max)
  {
    if n > 0 && (KeepsResets(replies) || initial == max) {
      SleepsFollowStreak(replies, n - 1, initial, max);
      if initial == max {
        SteadyBackoff(max, Doublings(replies, n - 1));
        SteadyBackoff(max, Trailing(replies, n - 1));
      } else {
        ResetsCarriedOut(replies, n - 1);
      }
    }
  }

  lemma CountOneMore(streak: nat)
    ensures WrapU32(streak % COUNTER_RANGE + 1) == (streak + 1) % COUNTER_RANGE
  {
  }

  lemma {:induction false} AllErrors(replies: seq<PollReply>, n: nat)
    requires n <= |replies| && forall i :: 0 <= i < n ==> replies[i].PollError?
    ensures Trailing(replies, n) == n
  {
    if n > 0 { AllErrors(replies, n - 1); }
  }

  /** The failing family, in every valid configuration: after a lost reset the backoff is
      the maximum, where the rule asks for the initial one; wrong exactly if they differ. */
  lemma LostResetSleepsMaximum(replies: seq<PollReply>, i: nat, initial: nat, max: nat)
    requires 1 <= initial <= max <= 60
    requires i < |replies| && LosesReset(replies, i)
    ensures BackoffAt(replies, i + 1, initial, max) == max
    ensures Wait(initial, max, Trailing(replies, i + 1)) == initial
    ensures FollowsStreak(replies, i + 1, initial, max) <==> initial == max
  {
    var k := Doublings(replies, i + 1);
    assert k >= COUNTER_RANGE >= 6;
    PowAtLeast(k);
    assert initial * Pow(2, k) >= Pow(2, k);
  }

  lemma {:induction false} PowAtLeast(k: nat)
    requires k >= 6
    ensures Pow(2, k) >= 64
  {
    if k > 6 { PowAtLeast(k - 1); } else { assert Pow(2, 6) == 2 * Pow(2, 5) == 4 * Pow(2, 4) == 8 * Pow(2, 3); }
  }

  /** One such history: 2^32 errors, then a success. */
  lemma LostResetExample(first: u32)
    ensures
      var replies := seq(COUNTER_RANGE, _ => PollError) + [Latest(first)];
      LosesReset(replies, COUNTER_RANGE)
  {
    AllErrors(seq(COUNTER_RANGE, _ => PollError) + [Latest(first)], COUNTER_RANGE);
  }

  predicate Replied(replies: seq<PollReply>, n: nat, sequence: u32)
    requires n <= |replies|
  {
    exists j :: 0 <= j < n && replies[j] == Latest(sequence)
  }

  ghost predicate Ascending(replies: seq<PollReply>, n: nat, floor: int, r: seq<u32>)
    requires n <= |replies|
  {
    && (forall i :: 0 <= i < |r| ==> floor < r[i])
    && (forall i :: 0 <= i < |r| ==> Replied(replies, n, r[i]))
    && (forall i, j :: 0 <= i < j < |r| ==> r[i] < r[j])
  }

  /** Broadcast ledgers are strictly increasing, above everything known before, and
      each was the answer to some poll. */
  lemma {:induction false} RecordsIncrease(replies: seq<PollReply>, n: nat, floor: int)
    requires n <= |replies|
    ensures Ascending(replies, n, floor, Records(replies, n, floor))
  {
    if n > 0 {
      RecordsIncrease(replies, n - 1, floor);
      var before := Records(replies, n - 1, floor);
      forall i | 0 <= i < |before|
        ensures Replied(replies, n, before[i])
        ensures IsRecord(replies, n - 1, floor) ==> before[i] < replies[n - 1].sequence
      {
        assert Replied(replies, n - 1, before[i]);
        var j :| 0 <= j < n - 1 && replies[j] == Latest(before[i]);
        assert replies[j].Latest?;
      }
      if IsRecord(replies, n - 1, floor) {
        assert replies[n - 1] == Latest(replies[n - 1].sequence);
        assert Replied(replies, n, replies[n - 1].sequence);
      }
    }
  }

  class LedgerPoller {
    const backoffInitial: nat
    const backoffMax: nat
    var lastKnown: u32
    var broadcasts: seq<u32>

    constructor (backoffInitial: nat, backoffMax: nat)
      ensures this.backoffInitial == backoffInitial && this.backoffMax == backoffMax
      ensures lastKnown == 0 && broadcasts == []
    {
      this.backoffInitial, this.backoffMax := backoffInitial, backoffMax;
      lastKnown, broadcasts := 0, [];
    }

    /** The endless loop, cut off after any number of replies. */
    method Poll(replies: seq<PollReply>) returns (sleeps: seq<nat>)
      modifies this
      ensures broadcasts == old(broadcasts) + Records(replies, |replies|, old(lastKnown))
      ensures lastKnown >= old(lastKnown)
      ensures forall j :: 0 <= j < |replies| && replies[j].Latest? ==> replies[j].sequence <= lastKnown
      ensures lastKnown == old(lastKnown) || Latest(lastKnown) in replies
      ensures sleeps == ActualSleeps(replies, |replies|, backoffInitial, backoffMax)
      ensures KeepsResets(replies) || backoffInitial == backoffMax ==>
        sleeps == ErrorSleeps(replies, |replies|, backoffInitial, backoffMax)
    {
      var backoff := backoffInitial;
      var consecutiveErrors := 0;
      sleeps := [];
      for i := 0 to |replies|
        invariant broadcasts == old(broadcasts) + Records(replies, i, old(lastKnown))
        invariant lastKnown >= old(lastKnown)
        invariant forall j :: 0 <= j < i && replies[j].Latest? ==> replies[j].sequence <= lastKnown
        invariant lastKnown == old(lastKnown) || exists j :: 0 <= j < i && replies[j] == Latest(lastKnown)
        invariant consecutiveErrors == Trailing(replies, i) % COUNTER_RANGE
        invariant backoff == BackoffAt(replies, i, backoffInitial, backoffMax)
        invariant sleeps == ActualSleeps(replies, i, backoffInitial, backoffMax)
      {
        match replies[i] {
          case Latest(sequence) =>
            if consecutiveErrors > 0 {
              backoff := backoffInitial;
              consecutiveErrors := 0;
            }
            if sequence > lastKnown {
              lastKnown := sequence;
              broadcasts := broadcasts + [sequence];
            }
          case PollError =>
            CountOneMore(Trailing(replies, i));
            consecutiveErrors := WrapU32(consecutiveErrors + 1);
            sleeps := sleeps + [backoff];
            DoubledWait(backoffInitial, backoffMax, Doublings(replies, i));
            backoff := Min(backoff * 2, backoffMax);
        }
      }
      SleepsFollowStreak(replies, |replies|, backoffInitial, backoffMax);
    }
  }
}
