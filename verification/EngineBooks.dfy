/**
 The engine's invariant over every interleaving: every ring stays sound, every thread is where its shard's ring
 thinks it is, and the counters balance. From it: conservation of records and tickets, and the gate.
 */
module EngineBooks {
  import opened Bits
  import opened Sums
  import opened RingMachine
  import opened RingProgress
  import opened EngineMachine
  import opened EngineSafety

  const InFlightOf: Point -> int := (pc: Point) => InFlight(pc)
  const DroppingOf: Point -> int := (pc: Point) => Dropping(pc)
  const AddingOf: Point -> int := (pc: Point) => Adding(pc)
  const SubtractingOf: Point -> int := (pc: Point) => Subtracting(pc)
  const ClaimingOf: Pc -> int := (r: Pc) => Claiming(r)
  const TakingOf: Pc -> int := (r: Pc) => Taking(r)
  const HotOf: Shard -> int := (sh: Shard) => Hot(sh)
  const IngestedOf: Shard -> int := (sh: Shard) => sh.ingested
  const RejectedOf: Shard -> int := (sh: Shard) => sh.rejected

  /** A thread is inside the ring of shard i exactly if its program point says so. */
  ghost predicate AtHome(pc: Point, i: nat, r: Pc) {
    if InRing(pc) && pc.shard == i then Matches(pc, r) else r.Idle?
  }

  ghost predicate ShardOk(e: Engine, i: nat)
    requires i < |e.shards|
  {
    var sh := e.shards[i];
    && RingOk(sh.ring)
    && |sh.ring.pcs| == |e.points|
    && (forall t :: 0 <= t < |e.points| ==> AtHome(e.points[t], i, sh.ring.pcs[t]))
    && sh.ring.tail == sh.ingested + Sum(sh.ring.pcs, ClaimingOf)
    && sh.ring.head == sh.consumed + Sum(sh.ring.pcs, TakingOf)
  }

  ghost predicate PointsOk(e: Engine) {
    && Fits(e)
    && (forall t :: 0 <= t < |e.points| ==>
      PointOk(|e.shards|, e.points[t]) && CallOk(e.shards[ShardOf(|e.shards|, e.points[t])], e.points[t]))
  }

  ghost predicate Balances(e: Engine) {
    && e.g.saturated < TWO64
    && e.g.ticket == Sum(e.shards, IngestedOf) + e.g.dropped + Sum(e.points, InFlightOf)
    && Sum(e.shards, RejectedOf) == e.g.dropped + Sum(e.points, DroppingOf)
    && e.g.saturated == Word64(Sum(e.shards, HotOf) - Sum(e.points, AddingOf) + Sum(e.points, SubtractingOf))
  }

  ghost predicate EngineInv(e: Engine) {
    && PointsOk(e)
    && (forall i :: 0 <= i < |e.shards| ==> ShardOk(e, i))
    && Balances(e)
  }

  lemma InitEngineInv(e: Engine)
    requires FreshEngine(e)
    ensures EngineInv(e)
  {
    forall i | 0 <= i < |e.shards| ensures ShardOk(e, i) {
      var r := e.shards[i].ring;
      InitProgress(r, |e.points|);
      SumZero(r.pcs, ClaimingOf);
      SumZero(r.pcs, TakingOf);
    }
    SumZero(e.shards, IngestedOf);
    SumZero(e.shards, RejectedOf);
    SumZero(e.shards, HotOf);
    SumZero(e.points, InFlightOf);
    SumZero(e.points, DroppingOf);
    SumZero(e.points, AddingOf);
    SumZero(e.points, SubtractingOf);
  }

  // ----------------------------------------------------------------- preservation

  /** The thread about to step, and its shard, meet what the step needs. */
  lemma StepReady(e: Engine, t: nat)
    requires EngineInv(e) && t < |e.points| && !e.points[t].Off? && !e.points[t].WorkDone?
    ensures MoveEnabled(e, Go(t))
    ensures var k := ShardOf(|e.shards|, e.points[t]); Before(e.g, e.shards[k], e.points[t], t, |e.shards|)
  {
    var k := ShardOf(|e.shards|, e.points[t]);
    assert ShardOk(e, k);
    assert AtHome(e.points[t], k, e.shards[k].ring.pcs[t]);
    hide RingOk;
    LocalReady(e.shards[k], e.points[t], t);
  }

  /** The state after thread t has taken a local step f on shard k. */
  ghost predicate Stepped(e: Engine, t: nat, k: nat, f: Effect, e': Engine) {
    && EngineInv(e)
    && t < |e.points| && k < |e.shards| && k == ShardOf(|e.shards|, e.points[t])
    && t < |e.shards[k].ring.pcs| && AtHome(e.points[t], k, e.shards[k].ring.pcs[t])
    && (InRing(e.points[t]) ==> e.points[t].shard == k)
    && Sound(e.shards[k], t, f) && Balanced(e.g, e.shards[k], e.points[t], t, f) && Remembers(f, |e.shards|)
    && StaysOn(k, |e.shards|, f.pc)
    && f.g.saturated < TWO64
    && e' == Engine(e.shards[k := f.sh], f.g, e.points[t := f.pc])
  }

  /** Ring operations and publish calls stay on the shard they started on. */
  predicate StaysOn(k: nat, n: nat, pc: Point) {
    && (InRing(pc) ==> pc.shard == k)
    && (pc.CheckGate? || pc.DrawTicket? ==> ShardOf(n, pc) == k)
    && !pc.CheckRunning?
  }

  lemma StaysOnShard(g: Globals, sh: Shard, pc: Point, t: nat, n: nat)
    requires Ready(sh, pc, t) && !pc.StopRunning?
    ensures StaysOn(ShardOf(n, pc), n, Local(g, sh, pc, t, n).pc)
    ensures g.saturated < TWO64 ==> Local(g, sh, pc, t, n).g.saturated < TWO64
  {
    hide Enter;
    hide Leave;
    hide Sized;
    hide RingMachine.Enabled;
    if InRing(pc) && Returned(sh.ring.pcs[t]) {
      AnswerStaysOn(g, sh, pc, t, n);
      hide Answer;
    }
  }

  lemma AnswerStaysOn(g: Globals, sh: Shard, pc: Point, t: nat, n: nat)
    requires Ready(sh, pc, t) && InRing(pc) && Returned(sh.ring.pcs[t])
    ensures StaysOn(ShardOf(n, pc), n, Answer(g, sh, pc, t).pc) && Answer(g, sh, pc, t).g == g
  {
    hide Enter;
    hide Leave;
    hide Sized;
    hide RingMachine.Enabled;
  }

  /** A local step of thread t on its shard is a step of the engine from one good state to the next. */
  lemma StepIs(e: Engine, t: nat) returns (k: nat, f: Effect)
    requires EngineInv(e) && MoveEnabled(e, Go(t)) && !e.points[t].StopRunning?
    ensures k == ShardOf(|e.shards|, e.points[t]) && k < |e.shards|
    ensures Ready(e.shards[k], e.points[t], t) && f == Local(e.g, e.shards[k], e.points[t], t, |e.shards|)
    ensures Stepped(e, t, k, f, ApplyMove(e, Go(t)))
  {
    hide Local;
    hide RingOk;
    k := ShardOf(|e.shards|, e.points[t]);
    f := Local(e.g, e.shards[k], e.points[t], t, |e.shards|);
    StepReady(e, t);
    assert ShardOk(e, k);
    LocalGood(e.g, e.shards[k], e.points[t], t, |e.shards|);
    StaysOnShard(e.g, e.shards[k], e.points[t], t, |e.shards|);
  }

  lemma SteppedShard(e: Engine, t: nat, k: nat, f: Effect, e': Engine, i: nat)
    requires Stepped(e, t, k, f, e') && i < |e.shards|
    ensures ShardOk(e', i)
  {
    hide RingOk;
    hide Matches;
    hide Balances;
    assert ShardOk(e, i);
    var r := e.shards[k].ring;
    if i == k {
      KeepsOwn(e.shards[k], t, f);
      SumUpdate(r.pcs, t, f.sh.ring.pcs[t], ClaimingOf);
      SumUpdate(r.pcs, t, f.sh.ring.pcs[t], TakingOf);
      forall u | 0 <= u < |e.points| ensures AtHome(e'.points[u], i, f.sh.ring.pcs[u]) {
        assert AtHome(e.points[u], i, r.pcs[u]);
      }
    } else {
      forall u | 0 <= u < |e.points| ensures AtHome(e'.points[u], i, e.shards[i].ring.pcs[u]) {
        assert AtHome(e.points[u], i, e.shards[i].ring.pcs[u]);
      }
    }
  }

  lemma KeepsOwn(sh: Shard, t: nat, f: Effect)
    requires Sound(sh, t, f)
    ensures !InRing(f.pc) ==> f.sh.ring.pcs[t].Idle?
    ensures InRing(f.pc) ==> Matches(f.pc, f.sh.ring.pcs[t])
  {
  }

  lemma SteppedPoints(e: Engine, t: nat, k: nat, f: Effect, e': Engine)
    requires Stepped(e, t, k, f, e')
    ensures PointsOk(e')
  {
    hide ShardOk;
    hide Balances;
    hide Balanced;
    hide Matches;
    hide RingOk;
    forall u | 0 <= u < |e.points|
      ensures PointOk(|e.shards|, e'.points[u]) && CallOk(e'.shards[ShardOf(|e.shards|, e'.points[u])], e'.points[u])
    {
      assert u != t ==> e'.points[u] == e.points[u];
    }
  }

  lemma SteppedBalances(e: Engine, t: nat, k: nat, f: Effect, e': Engine)
    requires Stepped(e, t, k, f, e')
    ensures Balances(e')
  {
    hide ShardOk;
    hide PointsOk;
    hide Sound;
    hide Remembers;
    hide Flows;
    hide StaysOn;
    SumUpdate(e.shards, k, f.sh, IngestedOf);
    SumUpdate(e.shards, k, f.sh, RejectedOf);
    SumUpdate(e.shards, k, f.sh, HotOf);
    SumUpdate(e.points, t, f.pc, InFlightOf);
    SumUpdate(e.points, t, f.pc, DroppingOf);
    SumUpdate(e.points, t, f.pc, AddingOf);
    SumUpdate(e.points, t, f.pc, SubtractingOf);
    WrapAdds(Sum(e.shards, HotOf) - Sum(e.points, AddingOf) + Sum(e.points, SubtractingOf), e.g.saturated,
             Hot(f.sh) - Hot(e.shards[k]) - Adding(f.pc) + Adding(e.points[t])
             + Subtracting(f.pc) - Subtracting(e.points[t]));
  }

  lemma WrapAdds(x: int, w: nat, d: int)
    requires w == Word64(x)
    ensures Word64(w + d) == Word64(x + d)
  {
  }

  lemma SteppedInv(e: Engine, t: nat, k: nat, f: Effect, e': Engine)
    requires Stepped(e, t, k, f, e')
    ensures EngineInv(e')
  {
    SteppedPoints(e, t, k, f, e');
    SteppedBalances(e, t, k, f, e');
    forall i | 0 <= i < |e'.shards| ensures ShardOk(e', i) {
      SteppedShard(e, t, k, f, e', i);
    }
  }

  predicate OwesNothing(pc: Point) {
    InFlight(pc) == Dropping(pc) == Adding(pc) == Subtracting(pc) == 0
  }

  /** Starting a task, or clearing running, moves one thread between points outside the ring and owes nothing. */
  lemma MovedInv(e: Engine, t: nat, pc: Point, e': Engine)
    requires EngineInv(e) && t < |e.points|
    requires !InRing(e.points[t]) && !InRing(pc)
    requires OwesNothing(e.points[t]) && OwesNothing(pc)
    requires PointOk(|e.shards|, pc) && CallOk(e.shards[ShardOf(|e.shards|, pc)], pc)
    requires e' == e.(points := e.points[t := pc], g := e'.g)
    requires e'.g.ticket == e.g.ticket && e'.g.dropped == e.g.dropped && e'.g.saturated == e.g.saturated
    ensures EngineInv(e')
  {
    hide RingOk;
    hide Matches;
    SumUpdate(e.points, t, pc, InFlightOf);
    SumUpdate(e.points, t, pc, DroppingOf);
    SumUpdate(e.points, t, pc, AddingOf);
    SumUpdate(e.points, t, pc, SubtractingOf);
    forall i | 0 <= i < |e.shards| ensures ShardOk(e', i) {
      assert ShardOk(e, i);
      forall u | 0 <= u < |e.points| ensures AtHome(e'.points[u], i, e.shards[i].ring.pcs[u]) {
        assert AtHome(e.points[u], i, e.shards[i].ring.pcs[u]);
      }
    }
  }

  lemma KeepsEngineInv(e: Engine, m: Move)
    requires EngineInv(e) && MoveEnabled(e, m)
    ensures EngineInv(ApplyMove(e, m))
  {
    var t := m.thread;
    hide EngineInv;
    if m.Start? || e.points[t].StopRunning? {
      KeepsEngineInvStart(e, m);
    } else {
      hide Local;
      hide Ready;
      var k, f := StepIs(e, t);
      hide Stepped;
      hide ApplyMove;
      SteppedInv(e, t, k, f, ApplyMove(e, m));
    }
  }

  lemma KeepsEngineInvStart(e: Engine, m: Move)
    requires EngineInv(e) && MoveEnabled(e, m) && (m.Start? || e.points[m.thread].StopRunning?)
    ensures EngineInv(ApplyMove(e, m))
  {
    hide ShardOk;
    hide Balances;
    hide Local;
    hide Ready;
    var e' := ApplyMove(e, m);
    MovedInv(e, m.thread, e'.points[m.thread], e');
  }
}
