/** Task identifiers never collide, given a hash that is injective on 8-byte seeds. */
module TaskIds {
  import opened Machine
  import opened Types
  import opened Contract
  import opened Tallies

  ghost predicate CollisionFree(h: Host) {
    forall x: Bytes, y: Bytes :: |x| == 8 && |y| == 8 && h.sha256(x) == h.sha256(y) ==> x == y
  }

  function FromBigEndian(b: Bytes): int
    requires |b| == 4
  {
    ((b[0] as int * 256 + b[1] as int) * 256 + b[2] as int) * 256 + b[3] as int
  }

  lemma BigEndianRoundTrip(x: int)
    requires FitsU32(x)
    ensures FromBigEndian(BigEndian(x)) == x
  {
    var q := x / 256;
    assert x / 0x1_0000 == q / 256;
    assert x / 0x100_0000 == q / 256 / 256;
  }

  /** Bytes 0 to 3 of the seed are the counter, bytes 4 to 7 the ledger. */
  lemma SeedLayout(counter: int, ledger: int)
    requires FitsU32(counter) && FitsU32(ledger)
    ensures
      var seed := Seed(counter, ledger);
      |seed| == 8 && FromBigEndian(seed[..4]) == counter && FromBigEndian(seed[4..]) == ledger
  {
    assert Seed(counter, ledger)[..4] == BigEndian(counter) && Seed(counter, ledger)[4..] == BigEndian(ledger);
    BigEndianRoundTrip(counter);
    BigEndianRoundTrip(ledger);
  }

  /** So the seed determines both. */
  lemma SeedInjective(c: int, l: int, c': int, l': int)
    requires FitsU32(c) && FitsU32(l) && FitsU32(c') && FitsU32(l')
    requires Seed(c, l) == Seed(c', l')
    ensures c == c' && l == l'
  {
    SeedLayout(c, l);
    SeedLayout(c', l');
  }

  /** The identifier was hashed from one of the first `n` counter values. */
  ghost predicate DrawnBelow(h: Host, id: TaskId, n: int) {
    exists c, l :: 0 <= c < n && FitsU32(l) && h.sha256(Seed(c, l)) == id
  }

  /** The counter counts the logged provisions until it wraps, and every stored id was
      drawn from a value it has passed. */
  ghost predicate AllDrawn(h: Host, s: State) {
    var n := Tally(s.log, Provisions);
    && n >= 0
    && (n <= U32_MAX ==> s.counter == n)
    && FitsU32(s.ledger)
    && forall id :: id in s.tasks ==> s.tasks[id].id == id && DrawnBelow(h, id, n)
  }

  lemma DrawnBelowMore(h: Host, id: TaskId, n: int, n': int)
    requires DrawnBelow(h, id, n) && n <= n'
    ensures DrawnBelow(h, id, n')
  {
    var c, l :| 0 <= c < n && FitsU32(l) && h.sha256(Seed(c, l)) == id;
    assert 0 <= c < n' && h.sha256(Seed(c, l)) == id;
  }

  lemma AllDrawnProvision(h: Host, s: State, dripList: Address, interval: int, reward: int, d: Address)
    requires AllDrawn(h, s) && Tally(s.log, Provisions) <= U32_MAX
    ensures AllDrawn(h, Provisioned(h, s, dripList, interval, reward, d))
  {
    var s', n := Provisioned(h, s, dripList, interval, reward, d), Tally(s.log, Provisions);
    TallyAppend(s.log, Stamp(s, TaskProvisioned(NextTaskId(h, s), dripList, interval, reward, d)), Provisions);
    forall id | id in s'.tasks ensures s'.tasks[id].id == id && DrawnBelow(h, id, n + 1) {
      if id == NextTaskId(h, s) {
        assert 0 <= s.counter < n + 1 && h.sha256(Seed(s.counter, s.ledger)) == id;
      } else {
        DrawnBelowMore(h, id, n, n + 1);
      }
    }
  }

  lemma AllDrawnStep(h: Host, s: State, step: Step)
    requires AllDrawn(h, s) && Tally(Apply(h, s, step).log, Provisions) <= U32_MAX + 1
    ensures AllDrawn(h, Apply(h, s, step))
  {
    TallyStep(h, s, step, Provisions);
    ProvisionsWeight(h, s, step);
    if step.Provision? && Succeeds(h, s, step) {
      AllDrawnProvision(h, s, step.dripList, step.interval, step.reward, step.designated);
    }
  }

  /** The number of provisions never goes down. */
  lemma ProvisionsGrow(h: Host, s: State, step: Step)
    ensures Tally(Apply(h, s, step).log, Provisions) ==
      Tally(s.log, Provisions) + Indicator(step.Provision? && Succeeds(h, s, step))
  {
    TallyStep(h, s, step, Provisions);
    ProvisionsWeight(h, s, step);
  }

  lemma {:induction false} StoredIdsAreDrawn(h: Host, start: u32, steps: seq<Step>)
    requires Tally(Run(h, Genesis(start), steps).log, Provisions) <= U32_MAX + 1
    ensures AllDrawn(h, Run(h, Genesis(start), steps))
  {
    if steps != [] {
      var init, last := steps[..|steps| - 1], steps[|steps| - 1];
      ProvisionsGrow(h, Run(h, Genesis(start), init), last);
      StoredIdsAreDrawn(h, start, init);
      AllDrawnStep(h, Run(h, Genesis(start), init), last);
    }
  }

  /** As long as fewer than 2^32 tasks have been provisioned, the next identifier names
      no stored task, in either arithmetic. */
  lemma NextIdIsFresh(h: Host, start: u32, steps: seq<Step>)
    requires CollisionFree(h)
    requires Tally(Run(h, Genesis(start), steps).log, Provisions) <= U32_MAX
    ensures
      var s := Run(h, Genesis(start), steps);
      NextTaskId(h, s) !in s.tasks
  {
    var s := Run(h, Genesis(start), steps);
    StoredIdsAreDrawn(h, start, steps);
    if NextTaskId(h, s) in s.tasks {
      assert DrawnBelow(h, NextTaskId(h, s), s.counter);
      var c, l :| 0 <= c < s.counter && FitsU32(l) && h.sha256(Seed(c, l)) == NextTaskId(h, s);
      assert Seed(c, l) == Seed(s.counter, s.ledger);
      SeedInjective(c, l, s.counter, s.ledger);
      assert false;
    }
  }

  lemma ProvisionWeight(h: Host, s: State, step: Step, id: TaskId)
    ensures StepWeight(h, s, step, ProvisionsOf(id)) ==
      Indicator(step.Provision? && Succeeds(h, s, step) && NextTaskId(h, s) == id)
  {
  }

  lemma TaskKeysStep(h: Host, s: State, step: Step)
    requires forall id :: id in s.tasks ==> s.tasks[id].id == id
    ensures Apply(h, s, step).tasks.Keys ==
      s.tasks.Keys + if step.Provision? && Succeeds(h, s, step) then {NextTaskId(h, s)} else {}
  {
  }

  /** Over a whole run of up to 2^32 provisions no task is ever overwritten: each stored
      id was provisioned exactly once. */
  lemma {:induction false} ProvisionedExactlyOnce(h: Host, start: u32, steps: seq<Step>, id: TaskId)
    requires CollisionFree(h)
    requires Tally(Run(h, Genesis(start), steps).log, Provisions) <= U32_MAX + 1
    ensures
      var s := Run(h, Genesis(start), steps);
      Tally(s.log, ProvisionsOf(id)) == Indicator(id in s.tasks)
  {
    if steps != [] {
      var init, last := steps[..|steps| - 1], steps[|steps| - 1];
      var s := Run(h, Genesis(start), init);
      ProvisionsGrow(h, s, last);
      ProvisionedExactlyOnce(h, start, init, id);
      StoredIdsAreDrawn(h, start, init);
      TallyStep(h, s, last, ProvisionsOf(id));
      ProvisionWeight(h, s, last, id);
      TaskKeysStep(h, s, last);
      if last.Provision? && Succeeds(h, s, last) { NextIdIsFresh(h, start, init); }
    }
  }
}
