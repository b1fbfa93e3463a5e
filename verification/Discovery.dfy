/** Task discovery and the grace monitor: which tasks this node submits, and in what role. */
module Discovery {
  import opened Machine
  import opened Types
  import opened Pipeline

  datatype RemoteTask = RemoteTask(id: TaskId, next: u32, designated: Address)

  function SaturatingSub(x: int, y: int): int { if x >= y then x - y else 0 }

  /** `GraceMonitor::evaluate`: step in as secondary, unless too late, designated, or busy. */
  function Evaluate(node: Address, t: RemoteTask, ledger: u32, busy: bool): Option<Role> {
    if SaturatingSub(ledger, t.next) > 50 then None
    else if node == t.designated then None
    else if busy then None
    else Some(Secondary)
  }

  /** `classify_and_dispatch`: the Engine adds where the contract subtracts, in 32 bits. */
  function Classify(node: Address, t: RemoteTask, ledger: u32, busy: bool): Option<Role> {
    var graceEnd := WrapU32(t.next + 50);
    if busy then None
    else if ledger == t.next && t.designated == node then Some(Designated)
    else if ledger > t.next && ledger <= graceEnd then Evaluate(node, t, ledger, busy)
    else if ledger > graceEnd then Some(PostGraceOpen)
    else None
  }

  /** What a ledger advance dispatches, in order. */
  function Plan(node: Address, tasks: seq<RemoteTask>, ledger: u32, busy: set<TaskId>): seq<Dispatch> {
    if tasks == [] then []
    else
      var t := tasks[|tasks| - 1];
      var role := Classify(node, t, ledger, t.id in busy);
      Plan(node, tasks[..|tasks| - 1], ledger, busy)
      + if role.Some? then [Dispatch(t.id, role.value)] else []
  }

  ghost predicate AnyConfirmed(plan: seq<Dispatch>, rpc: (TaskId, nat) -> Reply, maxRetries: nat) {
    exists i :: 0 <= i < |plan| && Confirms(rpc, plan[i].id, maxRetries)
  }

  lemma AnyConfirmedAppend(plan: seq<Dispatch>, d: Dispatch, rpc: (TaskId, nat) -> Reply, maxRetries: nat)
    ensures AnyConfirmed(plan + [d], rpc, maxRetries) <==>
      AnyConfirmed(plan, rpc, maxRetries) || Confirms(rpc, d.id, maxRetries)
  {
    var longer := plan + [d];
    assert longer[|plan|] == d;
    if i :| 0 <= i < |plan| && Confirms(rpc, plan[i].id, maxRetries) { assert longer[i] == plan[i]; }
  }

  class TaskDiscovery {
    const node: Address
    const pipeline: ExecutionPipeline

    constructor (node: Address, pipeline: ExecutionPipeline)
      ensures this.node == node && this.pipeline == pipeline
    {
      this.node, this.pipeline := node, pipeline;
    }

    method EvaluateInGrace(t: RemoteTask, ledger: u32, rpc: (TaskId, nat) -> Reply, now: int)
      modifies pipeline, pipeline.inFlight
      ensures pipeline.inFlight.inner == old(pipeline.inFlight.inner)
      ensures
        var role := Evaluate(node, t, ledger, t.id in pipeline.inFlight.inner);
        && pipeline.journal == old(pipeline.journal) + (if role.Some? then [Dispatch(t.id, role.value)] else [])
        && pipeline.lastConfirmed ==
             if role.Some? && Confirms(rpc, t.id, pipeline.maxRetries) then now else old(pipeline.lastConfirmed)
    {
      var elapsed := SaturatingSub(ledger, t.next);
      if elapsed > 50 { return; }
      if node == t.designated { return; }
      var busy := pipeline.inFlight.Contains(t.id);
      if busy { return; }
      var _, _ := pipeline.DispatchTask(t.id, Secondary, rpc, now);
    }

    method ClassifyAndDispatch(t: RemoteTask, ledger: u32, rpc: (TaskId, nat) -> Reply, now: int)
      modifies pipeline, pipeline.inFlight
      ensures pipeline.inFlight.inner == old(pipeline.inFlight.inner)
      ensures
        var role := Classify(node, t, ledger, t.id in pipeline.inFlight.inner);
        && pipeline.journal == old(pipeline.journal) + (if role.Some? then [Dispatch(t.id, role.value)] else [])
        && pipeline.lastConfirmed ==
             if role.Some? && Confirms(rpc, t.id, pipeline.maxRetries) then now else old(pipeline.lastConfirmed)
    {
      var busy := pipeline.inFlight.Contains(t.id);
      if busy { return; }
      if ledger == t.next && t.designated == node {
        var _, _ := pipeline.DispatchTask(t.id, Designated, rpc, now);
      } else if ledger > t.next && ledger <= WrapU32(t.next + 50) {
        EvaluateInGrace(t, ledger, rpc, now);
      } else if ledger > WrapU32(t.next + 50) {
        var _, _ := pipeline.DispatchTask(t.id, PostGraceOpen, rpc, now);
      }
    }

    /** One ledger advance; `query` is `None` when the task query fails or times out. */
    method OnLedgerAdvance(ledger: u32, query: Option<seq<RemoteTask>>, rpc: (TaskId, nat) -> Reply, now: int)
      modifies pipeline, pipeline.inFlight
      ensures pipeline.inFlight.inner == old(pipeline.inFlight.inner)
      ensures
        var plan := if query.Some? then Plan(node, query.value, ledger, pipeline.inFlight.inner) else [];
        && pipeline.journal == old(pipeline.journal) + plan
        && pipeline.lastConfirmed ==
             if AnyConfirmed(plan, rpc, pipeline.maxRetries) then now else old(pipeline.lastConfirmed)
    {
      if query.None? { return; }
      var tasks := query.value;
      ghost var plan := [];
      for i := 0 to |tasks|
        invariant pipeline.inFlight.inner == old(pipeline.inFlight.inner)
        invariant plan == Plan(node, tasks[..i], ledger, pipeline.inFlight.inner)
        invariant pipeline.journal == old(pipeline.journal) + plan
        invariant pipeline.lastConfirmed ==
          if AnyConfirmed(plan, rpc, pipeline.maxRetries) then now else old(pipeline.lastConfirmed)
      {
        assert tasks[..i + 1][..i] == tasks[..i];
        ghost var role := Classify(node, tasks[i], ledger, tasks[i].id in pipeline.inFlight.inner);
        ClassifyAndDispatch(tasks[i], ledger, rpc, now);
        if role.Some? {
          AnyConfirmedAppend(plan, Dispatch(tasks[i].id, role.value), rpc, pipeline.maxRetries);
          plan := plan + [Dispatch(tasks[i].id, role.value)];
        }
      }
      assert tasks[..|tasks|] == tasks;
    }
  }
}
