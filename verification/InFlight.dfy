/** The shared set of task ids being processed, and its use by concurrent workers. */
module InFlight {
  import opened Types

  class InFlightSet {
    var inner: set<TaskId>

    constructor ()
      ensures inner == {}
    {
      inner := {};
    }

    method Insert(id: TaskId) returns (newly: bool)
      modifies this
      ensures newly <==> id !in old(inner)
      ensures inner == old(inner) + {id}
    {
      newly := id !in inner;
      inner := inner + {id};
    }

    method Remove(id: TaskId)
      modifies this
      ensures inner == old(inner) - {id}
    {
      inner := inner - {id};
    }

    method Contains(id: TaskId) returns (r: bool)
      ensures r <==> id in inner
    {
      r := id in inner;
    }
  }

  // ---- Workers sharing the set; each action is one critical section of its mutex ----

  type Worker = nat

  datatype Phase = Idle | Checked(id: TaskId) | Executing(id: TaskId)

  datatype Mark = Began(worker: Worker, id: TaskId) | Ended(worker: Worker, id: TaskId)

  datatype Pool = Pool(busy: set<TaskId>, phases: map<Worker, Phase>, trace: seq<Mark>) {
    function PhaseOf(w: Worker): Phase { if w in phases then phases[w] else Idle }
  }

  /** The classifier's check, the grace monitor's second check, the insert that
      opens a dispatch, and the removal that closes it. */
  datatype Action =
    | Check(worker: Worker, id: TaskId)
    | Recheck(worker: Worker)
    | Insert(worker: Worker)
    | Finish(worker: Worker)

  const FreshPool: Pool := Pool({}, map[], [])

  function Act(p: Pool, a: Action): Pool {
    var w := a.worker;
    match (a, p.PhaseOf(w))
    case (Check(_, id), Idle) => if id in p.busy then p else p.(phases := p.phases[w := Checked(id)])
    case (Recheck(_), Checked(id)) => if id in p.busy then p.(phases := p.phases[w := Idle]) else p
    case (Insert(_), Checked(id)) =>
      if id in p.busy then p.(phases := p.phases[w := Idle])
      else Pool(p.busy + {id}, p.phases[w := Executing(id)], p.trace + [Began(w, id)])
    case (Finish(_), Executing(id)) =>
      Pool(p.busy - {id}, p.phases[w := Idle], p.trace + [Ended(w, id)])
    case _ => p
  }

  /** Any interleaving of any number of workers is a sequence of actions. */
  function Interleave(p: Pool, actions: seq<Action>): Pool {
    if actions == [] then p
    else Act(Interleave(p, actions[..|actions| - 1]), actions[|actions| - 1])
  }

  /** The worker whose execution of `id` is open at the end of the trace, if any. */
  function OpenBy(trace: seq<Mark>, id: TaskId): Option<Worker> {
    if trace == [] then None
    else
      var last := trace[|trace| - 1];
      if last.id != id then OpenBy(trace[..|trace| - 1], id)
      else if last.Began? then Some(last.worker)
      else None
  }

  /** Executions of one id never overlap: each begins when none is open, and ends its own. */
  ghost predicate NeverOverlaps(trace: seq<Mark>) {
    forall i :: 0 <= i < |trace| ==>
      OpenBy(trace[..i], trace[i].id) == if trace[i].Began? then None else Some(trace[i].worker)
  }

  predicate Executes(p: Pool, w: Worker, id: TaskId) { p.PhaseOf(w) == Executing(id) }

  /** The executing workers, the set and the open executions of the trace are one and the same. */
  ghost predicate Exclusive(p: Pool) {
    && (forall w: Worker, id :: Executes(p, w, id) ==> OpenBy(p.trace, id) == Some(w))
    && (forall id :: id in p.busy ==> OpenBy(p.trace, id).Some? && Executes(p, OpenBy(p.trace, id).value, id))
    && (forall id :: OpenBy(p.trace, id).Some? ==> id in p.busy)
  }

  lemma OpenByAppend(trace: seq<Mark>, m: Mark, id: TaskId)
    ensures OpenBy(trace + [m], id) ==
      if m.id != id then OpenBy(trace, id) else if m.Began? then Some(m.worker) else None
  {
    assert (trace + [m])[..|trace + [m]| - 1] == trace;
  }

  lemma NeverOverlapsAppend(trace: seq<Mark>, m: Mark)
    requires NeverOverlaps(trace)
    requires OpenBy(trace, m.id) == if m.Began? then None else Some(m.worker)
    ensures NeverOverlaps(trace + [m])
  {
    var longer := trace + [m];
    forall i | 0 <= i < |longer|
      ensures OpenBy(longer[..i], longer[i].id) == if longer[i].Began? then None else Some(longer[i].worker)
    {
      assert longer[..i] == trace[..i];
      if i == |trace| { assert trace[..i] == trace; }
    }
  }

  lemma ExclusiveInsert(p: Pool, w: Worker)
    requires Exclusive(p)
    requires p.PhaseOf(w).Checked? && p.PhaseOf(w).id !in p.busy
    ensures Exclusive(Act(p, Insert(w)))
  {
    var p' := Act(p, Insert(w));
    var m := Began(w, p.PhaseOf(w).id);
    forall v: Worker, id ensures Executes(p', v, id) <==> if v == w then id == m.id else Executes(p, v, id) { }
    forall id ensures OpenBy(p'.trace, id) == if id == m.id then Some(w) else OpenBy(p.trace, id) {
      OpenByAppend(p.trace, m, id);
    }
    assert !OpenBy(p.trace, m.id).Some?;
    forall id | id in p.busy ensures OpenBy(p'.trace, id).Some? && Executes(p', OpenBy(p'.trace, id).value, id) {
      assert Executes(p, OpenBy(p.trace, id).value, id);
    }
  }

  lemma ExclusiveFinish(p: Pool, w: Worker)
    requires Exclusive(p)
    requires p.PhaseOf(w).Executing?
    ensures Exclusive(Act(p, Finish(w)))
  {
    var p' := Act(p, Finish(w));
    var m := Ended(w, p.PhaseOf(w).id);
    assert Executes(p, w, m.id);
    forall v: Worker, id ensures Executes(p', v, id) <==> v != w && Executes(p, v, id) { }
    forall id ensures OpenBy(p'.trace, id) == if id == m.id then None else OpenBy(p.trace, id) {
      OpenByAppend(p.trace, m, id);
    }
    forall id | id in p'.busy ensures OpenBy(p'.trace, id).Some? && Executes(p', OpenBy(p'.trace, id).value, id) {
      assert Executes(p, OpenBy(p.trace, id).value, id);
    }
  }

  lemma ExclusiveAct(p: Pool, a: Action)
    requires Exclusive(p) && NeverOverlaps(p.trace)
    ensures Exclusive(Act(p, a)) && NeverOverlaps(Act(p, a).trace)
  {
    if a.Insert? && p.PhaseOf(a.worker).Checked? && p.PhaseOf(a.worker).id !in p.busy {
      ExclusiveInsert(p, a.worker);
      NeverOverlapsAppend(p.trace, Began(a.worker, p.PhaseOf(a.worker).id));
    } else if a.Finish? && p.PhaseOf(a.worker).Executing? {
      ExclusiveFinish(p, a.worker);
      assert Executes(p, a.worker, p.PhaseOf(a.worker).id);
      NeverOverlapsAppend(p.trace, Ended(a.worker, p.PhaseOf(a.worker).id));
    } else {
      assert Act(p, a).busy == p.busy && Act(p, a).trace == p.trace;
      forall w: Worker, id ensures Executes(Act(p, a), w, id) <==> Executes(p, w, id) { }
    }
  }

  /** Under every interleaving at most one worker executes a given id, the set is
      exactly the ids being executed, and executions of one id never overlap in time. */
  lemma {:induction false} MutualExclusion(actions: seq<Action>)
    ensures
      var p := Interleave(FreshPool, actions);
      && (forall w: Worker, w': Worker, id :: Executes(p, w, id) && Executes(p, w', id) ==> w == w')
      && (forall id :: id in p.busy <==> exists w: Worker :: Executes(p, w, id))
      && Exclusive(p)
      && NeverOverlaps(p.trace)
  {
    if actions != [] {
      var init := actions[..|actions| - 1];
      MutualExclusion(init);
      ExclusiveAct(Interleave(FreshPool, init), actions[|actions| - 1]);
    }
  }

  /** A finished dispatch frees its own id and disturbs no other worker. */
  lemma FinishFreesOnlyItsOwn(actions: seq<Action>, w: Worker, id: TaskId)
    requires Executes(Interleave(FreshPool, actions), w, id)
    ensures
      var p := Interleave(FreshPool, actions);
      var p' := Act(p, Finish(w));
      && p'.busy == p.busy - {id} && id in p.busy
      && (forall v: Worker :: !Executes(p', v, id))
      && (forall v: Worker, other :: v != w ==> (Executes(p', v, other) <==> Executes(p, v, other)))
  {
    MutualExclusion(actions);
    var p := Interleave(FreshPool, actions);
    forall v: Worker, other ensures Executes(Act(p, Finish(w)), v, other) <==> v != w && Executes(p, v, other) { }
  }

  // ---- Progress ----

  /** An idle worker passes the check exactly for a free id, and a checked id begins
      executing exactly if it is still free; else the worker gives up and nothing changes. */
  lemma FreeIdBegins(p: Pool, w: Worker, id: TaskId)
    ensures
      var p' := Act(p, Check(w, id));
      p.PhaseOf(w).Idle? ==>
        p' == if id in p.busy then p else Pool(p.busy, p.phases[w := Checked(id)], p.trace)
    ensures
      var p' := Act(p, Recheck(w));
      p.PhaseOf(w) == Checked(id) ==>
        p' == if id in p.busy then Pool(p.busy, p.phases[w := Idle], p.trace) else p
    ensures
      var p' := Act(p, Insert(w));
      p.PhaseOf(w) == Checked(id) ==>
        && (Executes(p', w, id) <==> id !in p.busy)
        && p'.busy == p.busy + {id}
        && p'.trace == (if id in p.busy then p.trace else p.trace + [Began(w, id)])
        && (id in p.busy ==> p'.PhaseOf(w).Idle?)
        && forall v: Worker :: v != w ==> p'.PhaseOf(v) == p.PhaseOf(v)
  {
    assert id in p.busy ==> p.busy + {id} == p.busy;
  }

  lemma InterleaveSnoc(p: Pool, actions: seq<Action>, a: Action)
    ensures Interleave(p, actions + [a]) == Act(Interleave(p, actions), a)
  {
    assert (actions + [a])[..|actions + [a]| - 1] == actions;
  }

  /** An idle worker gets to execute a free id at once. */
  lemma FreeIdIsTaken(actions: seq<Action>, w: Worker, id: TaskId)
    requires Interleave(FreshPool, actions).PhaseOf(w).Idle? && id !in Interleave(FreshPool, actions).busy
    ensures Executes(Interleave(FreshPool, actions + [Check(w, id)] + [Insert(w)]), w, id)
  {
    InterleaveSnoc(FreshPool, actions, Check(w, id));
    InterleaveSnoc(FreshPool, actions + [Check(w, id)], Insert(w));
  }

  lemma OwnerOf(actions: seq<Action>, id: TaskId) returns (v: Worker)
    requires id in Interleave(FreshPool, actions).busy
    ensures Executes(Interleave(FreshPool, actions), v, id)
  {
    MutualExclusion(actions);
    v :| Executes(Interleave(FreshPool, actions), v, id);
  }

  /** No reachable pool is stuck: the worker that executes an id can finish, and then an
      idle worker gets to execute that id. */
  lemma BusyIdIsHandedOver(actions: seq<Action>, w: Worker, id: TaskId) returns (v: Worker)
    requires Interleave(FreshPool, actions).PhaseOf(w).Idle? && id in Interleave(FreshPool, actions).busy
    ensures Executes(Interleave(FreshPool, actions), v, id)
    ensures Executes(Interleave(FreshPool, actions + [Finish(v)] + [Check(w, id)] + [Insert(w)]), w, id)
  {
    v := OwnerOf(actions, id);
    FinishFreesOnlyItsOwn(actions, v, id);
    InterleaveSnoc(FreshPool, actions, Finish(v));
    FreeIdIsTaken(actions + [Finish(v)], w, id);
  }

  lemma {:induction false} EndsBeforeReopening(trace: seq<Mark>, i: nat, j: nat)
    requires NeverOverlaps(trace)
    requires i < j <= |trace| && trace[i].Began? && OpenBy(trace[..j], trace[i].id) != Some(trace[i].worker)
    ensures exists m :: i < m < j && trace[m] == Ended(trace[i].worker, trace[i].id)
    decreases j
  {
    var prefix := trace[..j];
    assert prefix[..|prefix| - 1] == trace[..j - 1];
    if j - 1 > i {
      if OpenBy(trace[..j - 1], trace[i].id) != Some(trace[i].worker) {
        EndsBeforeReopening(trace, i, j - 1);
      } else {
        assert trace[j - 1].id == trace[i].id;
      }
    }
  }

  /** Between two executions of the same id, the first one's worker has finished. */
  lemma SecondBeginsAfterFirstEnds(actions: seq<Action>, i: nat, j: nat)
    requires
      var trace := Interleave(FreshPool, actions).trace;
      i < j < |trace| && trace[i].Began? && trace[j].Began? && trace[i].id == trace[j].id
    ensures
      var trace := Interleave(FreshPool, actions).trace;
      exists m :: i < m < j && trace[m] == Ended(trace[i].worker, trace[i].id)
  {
    MutualExclusion(actions);
    EndsBeforeReopening(Interleave(FreshPool, actions).trace, i, j);
  }
}
