/** Every record the interleaved engine delivers carries the checksum of its payload, or none if checksums are off. */
module EngineRecords {
  import opened Records
  import opened Checksums
  import opened Slots
  import opened RingMachine
  import opened RingSafety
  import opened EngineMachine
  import opened EngineBooks
  import opened EngineRuns

  predicate Stamped(on: bool, q: Request) { q.checksum == Stamp(on, q.payload) }

  /** Every record claimed so far, and every record about to be claimed, is stamped. */
  ghost predicate RingStamped(r: Ring, on: bool) {
    && (forall p :: 0 <= p < |r.log| ==> Stamped(on, r.log[p].req))
    && (forall u :: 0 <= u < |r.pcs| && InClaim(r.pcs[u]) ==> Stamped(on, r.pcs[u].req))
  }

  lemma ProducersKeepLog(r: Ring, t: nat)
    requires RingMachine.Enabled(r, Step(t)) && (r.pcs[t].Writing? || InAdvance(r.pcs[t]))
    ensures RingMachine.StepOf(r, t).log == r.log && !InClaim(RingMachine.StepOf(r, t).pcs[t])
  {
    hide Slot;
    hide Sized;
    hide ClaimStep;
    hide DequeueStep;
    hide ReadStep;
    hide PendingStep;
  }

  lemma ConsumersKeepLog(r: Ring, t: nat)
    requires RingMachine.Enabled(r, Step(t)) && !InClaim(r.pcs[t]) && !r.pcs[t].Writing? && !InAdvance(r.pcs[t])
    ensures RingMachine.StepOf(r, t).log == r.log && !InClaim(RingMachine.StepOf(r, t).pcs[t])
  {
    hide Slot;
    hide Sized;
    hide ClaimStep;
    hide WriteStep;
    hide AdvanceStep;
  }

  /** Only a step of claim touches the log or a request about to be claimed. */
  lemma OtherStepsKeepLog(r: Ring, t: nat)
    requires RingMachine.Enabled(r, Step(t)) && !InClaim(r.pcs[t])
    ensures RingMachine.StepOf(r, t).log == r.log && !InClaim(RingMachine.StepOf(r, t).pcs[t])
  {
    hide RingMachine.StepOf;
    if r.pcs[t].Writing? || InAdvance(r.pcs[t]) {
      ProducersKeepLog(r, t);
    } else {
      ConsumersKeepLog(r, t);
    }
  }

  lemma ClaimStepStamped(r: Ring, t: nat, on: bool)
    requires RingMachine.Enabled(r, Step(t)) && InClaim(r.pcs[t]) && RingStamped(r, on)
    ensures RingStamped(ClaimStep(r, t), on)
  {
    hide Slot;
    hide Stamped;
    var r' := ClaimStep(r, t);
    var req := r.pcs[t].req;
    assert Stamped(on, req);
    assert r'.log == r.log || r'.log == r.log + [Claimed(t, req)];
    assert InClaim(r'.pcs[t]) ==> r'.pcs[t].req == req;
    hide ClaimStep;
  }

  lemma StepStamped(r: Ring, t: nat, on: bool)
    requires RingMachine.Enabled(r, Step(t)) && RingStamped(r, on)
    ensures RingStamped(RingMachine.StepOf(r, t), on)
  {
    if InClaim(r.pcs[t]) {
      ClaimStepStamped(r, t, on);
    } else {
      OtherStepsKeepLog(r, t);
      hide RingMachine.StepOf;
      hide Stamped;
    }
  }

  lemma BoundaryStamped(r: Ring, a: Action, on: bool)
    requires RingMachine.Enabled(r, a) && !a.Step? && RingStamped(r, on)
    requires a.Invoke? && a.op.Publish? ==> Stamped(on, a.op.req)
    ensures RingStamped(RingMachine.Apply(r, a), on)
  {
    hide Slot;
    hide Stamped;
  }

  lemma EnterStamped(sh: Shard, t: nat, op: Op, on: bool)
    requires RingMachine.Enabled(sh.ring, Invoke(t, op)) && RingStamped(sh.ring, on)
    requires op.Publish? ==> Stamped(on, op.req)
    ensures RingStamped(Enter(sh, t, op).ring, on)
  {
    BoundaryStamped(sh.ring, Invoke(t, op), on);
  }

  lemma LeaveStamped(sh: Shard, t: nat, on: bool)
    requires RingMachine.Enabled(sh.ring, Return(t)) && RingStamped(sh.ring, on)
    ensures RingStamped(Leave(sh, t).ring, on)
  {
    BoundaryStamped(sh.ring, Return(t), on);
  }

  lemma AnswerStamped(g: Globals, sh: Shard, pc: Point, t: nat)
    requires Ready(sh, pc, t) && InRing(pc) && Returned(sh.ring.pcs[t]) && RingStamped(sh.ring, g.checksums)
    ensures var f := Answer(g, sh, pc, t);
      RingStamped(f.sh.ring, g.checksums) && f.g == g
  {
    LeaveStamped(sh, t, g.checksums);
    if pc.InPublish? && sh.ring.pcs[t].Published? {
      EnterStamped(Leave(sh, t).(ingested := sh.ingested + 1), t, Pending, g.checksums);
    }
    hide Enter;
    hide RingStamped;
  }

  lemma LocalStamped(g: Globals, sh: Shard, pc: Point, t: nat, n: nat)
    requires Ready(sh, pc, t) && !pc.StopRunning? && RingStamped(sh.ring, g.checksums)
    ensures var f := Local(g, sh, pc, t, n);
      RingStamped(f.sh.ring, g.checksums) && f.g.checksums == g.checksums
  {
    if InRing(pc) && Returned(sh.ring.pcs[t]) {
      AnswerStamped(g, sh, pc, t);
    } else if InRing(pc) {
      StepStamped(sh.ring, t, g.checksums);
      hide RingMachine.StepOf;
      hide RingStamped;
    } else {
      OutsideStamped(g, sh, pc, t, n);
    }
  }

  lemma OutsideStamped(g: Globals, sh: Shard, pc: Point, t: nat, n: nat)
    requires Ready(sh, pc, t) && !InRing(pc) && RingStamped(sh.ring, g.checksums)
    ensures var f := Local(g, sh, pc, t, n);
      RingStamped(f.sh.ring, g.checksums) && f.g.checksums == g.checksums
  {
    hide Enter;
    hide RingStamped;
    hide Sized;
    hide RingMachine.Enabled;
    if pc.DrawTicket? {
      EnterStamped(sh, t, Publish(RequestOf(g, pc.call)), g.checksums);
    } else if pc.WorkTop? || pc.DrainTop? {
      EnterStamped(sh, t, Dequeue, g.checksums);
    } else if pc.WorkRunning? || pc.ReadHot? {
      EnterStamped(sh, t, Pending, g.checksums);
    }
  }

  ghost predicate AllStamped(e: Engine) {
    forall i :: 0 <= i < |e.shards| ==> RingStamped(e.shards[i].ring, e.g.checksums)
  }

  lemma KeepsStamped(e: Engine, m: Move)
    requires EngineInv(e) && MoveEnabled(e, m) && AllStamped(e)
    ensures AllStamped(ApplyMove(e, m))
  {
    hide RingStamped;
    var t := m.thread;
    if m.Go? && !e.points[t].StopRunning? {
      var k, f := StepIs(e, t);
      LocalStamped(e.g, e.shards[k], e.points[t], t, |e.shards|);
      hide EngineInv;
      hide Local;
      hide Ready;
    }
  }

  lemma {:induction false} RunStamped(e: Engine, moves: seq<Move>)
    requires EngineInv(e) && AllStamped(e) && MovesRun(e, moves)
    ensures AllStamped(ExecMoves(e, moves))
    decreases |moves|
  {
    if |moves| > 0 {
      KeepsStamped(e, moves[0]);
      KeepsEngineInv(e, moves[0]);
      RunStamped(ApplyMove(e, moves[0]), moves[1..]);
    }
  }

  /** In every run, every record read out of any ring passes Verify, with checksums on or off. */
  lemma DeliveredRecordsVerify(e: Engine, moves: seq<Move>, i: nat, p: nat)
    requires FreshEngine(e) && MovesRun(e, moves)
    requires var z := ExecMoves(e, moves); i < |z.shards| && p in z.shards[i].ring.got
    ensures var z := ExecMoves(e, moves); Verifies(z.shards[i].ring.got[p])
  {
    InitEngineInv(e);
    RunEngineInv(e, moves);
    RunStamped(e, moves);
    var z := ExecMoves(e, moves);
    hide ExecMoves;
    hide MovesRun;
    hide FreshEngine;
    hide Slot;
    assert ShardOk(z, i);
    GotVerifies(z.shards[i].ring, z.g.checksums, p);
  }

  lemma GotVerifies(r: Ring, on: bool, p: nat)
    requires Inv(r) && RingStamped(r, on) && p in r.got
    ensures Verifies(r.got[p])
  {
    hide Slot;
    hide CellOk;
    hide ThreadOk;
    assert Stamped(on, r.log[p].req);
  }
}
