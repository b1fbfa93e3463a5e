/** The Engine's execution pipeline: in-flight bracket, bounded retry, capped backoff. */
module Pipeline {
  import opened Machine
  import opened Types
  import opened Backoff
  import opened InFlight

  datatype Role = Designated | Secondary | PostGraceOpen

  datatype Confirmation = Succeeded | FailedOnChain | TimedOut | ConfirmationError

  /** What one submission meets: the RPC's answer, and if accepted, its confirmation. */
  datatype Reply = Sent(confirmation: Confirmation) | TransientError | NonTransientError

  datatype Dispatch = Dispatch(id: TaskId, role: Role)

  /** Some submission within the bound is confirmed, after transient send errors only. */
  ghost predicate Confirms(rpc: (TaskId, nat) -> Reply, id: TaskId, maxRetries: nat) {
    exists n: nat :: ConfirmsAt(rpc, id, maxRetries, n)
  }

  predicate ConfirmsAt(rpc: (TaskId, nat) -> Reply, id: TaskId, maxRetries: nat, n: nat) {
    n <= maxRetries && OnlyTransient(rpc, id, n) && rpc(id, n) == Sent(Succeeded)
  }

  predicate OnlyTransient(rpc: (TaskId, nat) -> Reply, id: TaskId, n: nat) {
    forall k: nat :: k < n ==> rpc(id, k).TransientError?
  }

  /** `n` submissions are all the retry rule makes: every one but the last met a transient
      send error, and so did the last only if the retries are used up. */
  predicate Exhausts(rpc: (TaskId, nat) -> Reply, id: TaskId, maxRetries: nat, n: nat) {
    && 1 <= n <= maxRetries + 1
    && OnlyTransient(rpc, id, n - 1)
    && (n <= maxRetries ==> !rpc(id, n - 1).TransientError?)
  }

  /** The rule fixes the number of submissions, and whether one is confirmed. */
  lemma ExhaustsOnce(rpc: (TaskId, nat) -> Reply, id: TaskId, maxRetries: nat, n: nat)
    requires Exhausts(rpc, id, maxRetries, n)
    ensures forall m: nat :: Exhausts(rpc, id, maxRetries, m) ==> m == n
    ensures Confirms(rpc, id, maxRetries) <==> rpc(id, n - 1) == Sent(Succeeded)
  {
    forall m: nat | ConfirmsAt(rpc, id, maxRetries, m) ensures m + 1 == n {
      assert Exhausts(rpc, id, maxRetries, m + 1);
    }
    if rpc(id, n - 1) == Sent(Succeeded) { assert ConfirmsAt(rpc, id, maxRetries, n - 1); }
  }

  class ExecutionPipeline {
    const inFlight: InFlightSet
    const backoffInitial: nat
    const backoffMax: nat
    const maxRetries: nat
    var lastConfirmed: int
    var journal: seq<Dispatch>

    constructor (inFlight: InFlightSet, backoffInitial: nat, backoffMax: nat, maxRetries: nat)
      ensures this.inFlight == inFlight && this.maxRetries == maxRetries
      ensures this.backoffInitial == backoffInitial && this.backoffMax == backoffMax
      ensures lastConfirmed == 0 && journal == []
    {
      this.inFlight := inFlight;
      this.backoffInitial, this.backoffMax, this.maxRetries := backoffInitial, backoffMax, maxRetries;
      lastConfirmed, journal := 0, [];
    }

    /** `rpc(id, k)` is what the k-th submission for `id` would meet. For every such
        sequence the loop makes at most `maxRetries + 1` submissions, goes on only after
        transient send errors, and sleeps exactly the capped powers of two in between,
        while the id is in the set. */
    method ExecuteWithRetry(id: TaskId, rpc: (TaskId, nat) -> Reply, now: int)
      returns (submissions: nat, sleeps: seq<nat>)
      requires id in inFlight.inner
      modifies this`lastConfirmed
      ensures Exhausts(rpc, id, maxRetries, submissions)
      ensures |sleeps| == submissions - 1
      ensures forall k :: 0 <= k < |sleeps| ==> sleeps[k] == Wait(backoffInitial, backoffMax, k)
      ensures lastConfirmed == if Confirms(rpc, id, maxRetries) then now else old(lastConfirmed)
    {
      var backoff := backoffInitial;
      var attempt := 0;
      submissions, sleeps := 0, [];
      while attempt <= maxRetries
        invariant 0 <= attempt <= maxRetries
        invariant submissions == attempt == |sleeps|
        invariant backoff == Wait(backoffInitial, backoffMax, attempt)
        invariant OnlyTransient(rpc, id, attempt)
        invariant forall k :: 0 <= k < |sleeps| ==> sleeps[k] == Wait(backoffInitial, backoffMax, k)
        invariant lastConfirmed == old(lastConfirmed)
        decreases maxRetries - attempt
      {
        submissions := submissions + 1;
        if attempt == maxRetries || !rpc(id, attempt).TransientError? {
          ExhaustsOnce(rpc, id, maxRetries, submissions);
        }
        match rpc(id, attempt) {
          case Sent(confirmation) =>
            if confirmation == Succeeded { lastConfirmed := now; }
            return;
          case TransientError =>
            if attempt == maxRetries { return; }
            sleeps := sleeps + [backoff];
            DoubledWait(backoffInitial, backoffMax, attempt);
            backoff := Min(backoff * 2, backoffMax);
          case NonTransientError =>
            return;
        }
        attempt := attempt + 1;
      }
    }

    /** The id is in the set while the retry loop runs and is gone afterwards; a task
        already in flight is left alone. */
    method DispatchTask(id: TaskId, role: Role, rpc: (TaskId, nat) -> Reply, now: int)
      returns (submissions: nat, sleeps: seq<nat>)
      modifies this, inFlight
      ensures inFlight.inner == old(inFlight.inner)
      ensures id in old(inFlight.inner) ==>
        submissions == 0 && sleeps == [] && journal == old(journal) && lastConfirmed == old(lastConfirmed)
      ensures id !in old(inFlight.inner) ==>
        && Exhausts(rpc, id, maxRetries, submissions)
        && |sleeps| == submissions - 1
        && (forall k :: 0 <= k < |sleeps| ==> sleeps[k] == Wait(backoffInitial, backoffMax, k))
        && journal == old(journal) + [Dispatch(id, role)]
        && lastConfirmed == if Confirms(rpc, id, maxRetries) then now else old(lastConfirmed)
    {
      var newly := inFlight.Insert(id);
      if !newly { return 0, []; }
      journal := journal + [Dispatch(id, role)];
      submissions, sleeps := ExecuteWithRetry(id, rpc, now);
      inFlight.Remove(id);
    }
  }
}
