/**
 Records left behind by shutdown: a publish that passed the check of running before Close cleared it can claim after the
 shard's worker has returned. Its record is accepted and, unless somebody drains, never handled; nothing else is left.
 */
module LateClaim {
  import opened Hysteresis
  import opened RingMachine
  import opened RingSafety
  import opened EngineMachine
  import opened EngineSafety
  import opened EngineBooks
  import opened EngineRings
  import opened EngineClose
  import opened EngineScenes
  import opened GateStall

  // ----------------------------------------------------------------- only late claims are left

  /**
   Once a worker has returned, a claimed position nobody reads or has read was claimed after Close cleared running.
   */
  lemma LeftBehindIsLate(e: Engine, moves: seq<Move>, t: nat, p: nat)
    requires FreshEngine(e) && MovesRun(e, moves)
    requires var z := ExecMoves(e, moves);
      && t < |z.points| && z.points[t].WorkDone? && z.points[t].shard < |z.shards|
      && z.points[t].shard < |z.g.stopTails|
      && var r := z.shards[z.points[t].shard].ring;
         p !in r.got && forall u :: 0 <= u < |r.pcs| && u != t ==> !Unread(r.pcs[u], p)
    ensures var z := ExecMoves(e, moves); z.g.stopTails[z.points[t].shard] <= p
  {
    var z := ExecMoves(e, moves);
    if p < z.g.stopTails[z.points[t].shard] {
      WorkerReturnsDrained(e, moves, t, p);
      hide ExecMoves;
      hide MovesRun;
      hide FreshEngine;
      assert false;
    }
  }

  // ----------------------------------------------------------------- nobody comes back for them

  /** A ring in which nobody dequeues gives nothing out. */
  lemma {:induction false} NobodyTakes(r: Ring, actions: seq<Action>)
    requires RingMachine.Runs(r, actions) && NoDequeues(actions)
    requires forall u :: 0 <= u < |r.pcs| ==> !InDequeue(r.pcs[u])
    ensures RingMachine.Exec(r, actions).head == r.head
    decreases |actions|
  {
    if |actions| > 0 {
      assert actions[0] in actions;
      TakesNothing(r, actions[0]);
      hide RingMachine.Apply;
      hide RingMachine.Enabled;
      NobodyTakes(RingMachine.Apply(r, actions[0]), actions[1..]);
    }
  }

  lemma TakesNothing(r: Ring, a: Action)
    requires RingMachine.Enabled(r, a) && !(a.Invoke? && a.op.Dequeue?)
    requires forall u :: 0 <= u < |r.pcs| ==> !InDequeue(r.pcs[u])
    ensures var r' := RingMachine.Apply(r, a);
      r'.head == r.head && forall u :: 0 <= u < |r'.pcs| ==> !InDequeue(r'.pcs[u])
  {
    if a.Step? {
      StaysOutOfDequeue(r, a.thread);
      hide RingMachine.StepOf;
    }
  }

  lemma StaysOutOfDequeue(r: Ring, t: nat)
    requires RingMachine.Enabled(r, Step(t)) && !InDequeue(r.pcs[t])
    ensures var r' := RingMachine.StepOf(r, t); r'.head == r.head && !InDequeue(r'.pcs[t])
  {
    hide Slots.Slot;
  }

  /** While no thread consumes from a shard or starts to, the shard's head stays where it is. */
  lemma NeverHandled(e: Engine, moves: seq<Move>, i: nat)
    requires EngineInv(e) && MovesRun(e, moves) && i < |e.shards|
    requires forall t: nat :: !MayConsume(e, moves, t, i)
    ensures var z := ExecMoves(e, moves); i < |z.shards| && z.shards[i].ring.head == e.shards[i].ring.head
  {
    hide MovesRun;
    hide ExecMoves;
    hide RingMachine.Runs;
    hide RingMachine.Exec;
    var r := e.shards[i].ring;
    forall u | 0 <= u < |r.pcs| ensures !InDequeue(r.pcs[u]) {
      OutsideDequeue(e, u, i);
      assert !MayConsume(e, moves, u, i);
    }
    hide EngineInv;
    hide MayConsume;
    var actions := Project(e, moves, i);
    NobodyTakes(r, actions);
  }

  /** Only a consumer of the shard is inside its dequeue. */
  lemma OutsideDequeue(e: Engine, u: nat, i: nat)
    requires EngineInv(e) && i < |e.shards| && u < |e.shards[i].ring.pcs|
    ensures u < |e.points| && (InDequeue(e.shards[i].ring.pcs[u]) ==> Consumer(e.points[u], i))
  {
    assert ShardOk(e, i);
    assert AtHome(e.points[u], i, e.shards[i].ring.pcs[u]);
    hide RingOk;
  }

  // ----------------------------------------------------------------- a run to such a state

  /** A worker has found its shard empty and has yet to look at running; Close clears it and returns. */
  lemma Closes(e: Engine, moves0: seq<Move>, z0: Engine, s: Scene, t: nat)
    returns (moves: seq<Move>, z: Engine, s': Scene, tails: seq<nat>)
    requires Stage(e, moves0, z0, s) && t < |s.points| && s.points[t].Off? && s.g.running
    ensures 0 < |tails| && tails[0] == s.tail
    ensures s' == s.(g := s.g.(running := false, stopTails := tails, closed := false, forced := true))
    ensures Stage(e, moves, z, s')
  {
    hide Stage;
    hide Sized;
    moves, z := Starting(e, moves0, z0, s, t, Close);
    s' := s.Move(t, StopRunning);
    moves, z, tails := Stops(e, moves, z, s', t);
    s' := s'.(g := s.g.(running := false, stopTails := tails)).Move(t, ForceOpen);
    Shapes(e, moves, z, s');
    SameRing(e, moves, z, s');
    moves, z := Steps(e, moves, z, s', t);
    s' := s'.(g := s'.g.(closed := false, forced := true)).Move(t, Off);
    assert s'.points == s.points;
  }

  /** From the gauge on, a producer latches the shard if it must, and returns. */
  lemma Returns(e: Engine, moves0: seq<Move>, z0: Engine, s: Scene, t: nat)
    returns (moves: seq<Move>, z: Engine, s': Scene)
    requires Stage(e, moves0, z0, s) && t < |s.points| && !s.g.closed && !s.hot
    requires s.points[t].Off? || s.points[t] == LatchHot(0)
    ensures Stage(e, moves, z, s') && s'.points == s.points[t := Off] && s'.tail == s.tail && s'.head == s.head
    ensures s'.g.running == s.g.running && s'.g.stopTails == s.g.stopTails && s'.g.ticket == s.g.ticket
  {
    hide Stage;
    moves, z, s' := moves0, z0, s;
    if s.points[t].LatchHot? {
      moves, z := Latches(e, moves0, z0, s, t);
      s' := s.(hot := true).Move(t, AddSaturated);
      moves, z, s' := Marks(e, moves, z, s', t);
    }
    assert s'.points == s.points[t := Off];
  }

  /**
   A publish has passed its check of running; the worker has found its shard empty, Close come and gone, the worker
   left.
   */
  lemma Overtaken(e: Engine, call: Call) returns (moves: seq<Move>, z: Engine, s: Scene)
    requires FreshEngine(e) && 3 <= |e.points|
    requires call.shard == 0 && call.key != 0 && |call.payload| <= e.shards[0].ring.payloadCap
    ensures Stage(e, moves, z, s) && 0 < |e.shards| && 2 <= e.shards[0].ring.capacity && Alone(s, 0)
    ensures s.tail == s.head == 0 && !s.hot && |s.points| == |e.points|
    ensures s.points[0] == CheckGate(call) && s.points[1] == WorkDone(0)
    ensures forall u :: 2 <= u < |s.points| ==> s.points[u].Off?
    ensures !s.g.running && !s.g.closed && s.g.ticket == 0 && 0 < |s.g.stopTails| && s.g.stopTails[0] == 0
  {
    hide Stage;
    hide Percent;
    assert e.g.ticket == 0;
    hide FreshEngine;
    var tails;
    s := Fresh(e);
    moves, z := Starting(e, [], e, s, 0, PublishCall(call));
    s := s.Move(0, CheckRunning(call));
    moves, z := Checks(e, moves, z, s, 0);
    s := s.Move(0, CheckGate(call));
    moves, z := Starting(e, moves, z, s, 1, Worker(0));
    s := s.Move(1, WorkTop(0, 0));
    moves, z, s := Takes(e, moves, z, s, 1);
    moves, z, s, tails := Closes(e, moves, z, s, 2);
    moves, z, s := FindsEmpty(e, moves, z, s, 1);
  }

  /**
   From any fresh engine of three or more threads: a publish passes its check of running and pauses; the worker finds
   its shard empty; Close clears running and opens the gate; the worker returns; the publish claims, commits its record
   and returns its ticket. No thread is left in the engine, and the record is still in the ring.
   */
  lemma CanBeLate(e: Engine, call: Call) returns (moves: seq<Move>, z: Engine)
    requires FreshEngine(e) && 3 <= |e.points|
    requires call.shard == 0 && call.key != 0 && |call.payload| <= e.shards[0].ring.payloadCap
    ensures MovesRun(e, moves) && z == ExecMoves(e, moves) && EngineInv(z)
    ensures !z.g.running && 0 < |z.g.stopTails| && z.g.stopTails[0] == 0 && z.g.ticket == 1
    ensures |z.points| == |e.points| && z.points[1] == WorkDone(0)
    ensures forall u :: 0 <= u < |z.points| && u != 1 ==> z.points[u].Off?
    ensures 0 < |z.shards| && z.shards[0].ring.tail == z.shards[0].ring.commit == 1 && z.shards[0].ring.head == 0
  {
    hide Stage;
    hide Percent;
    hide FreshEngine;
    hide MovesRun;
    hide ExecMoves;
    hide EngineInv;
    var s;
    moves, z, s := Overtaken(e, call);
    moves, z := Checks(e, moves, z, s, 0);
    s := s.Move(0, DrawTicket(call));
    moves, z, s := Offers(e, moves, z, s, 0, call);
    moves, z, s := Returns(e, moves, z, s, 0);
    Ended(e, moves, z, s);
  }

  lemma Ended(e: Engine, moves: seq<Move>, z: Engine, s: Scene)
    requires Stage(e, moves, z, s)
    ensures MovesRun(e, moves) && z == ExecMoves(e, moves) && EngineInv(z)
    ensures z.g == s.g && z.points == s.points && 0 < |z.shards|
    ensures z.shards[0].ring.tail == z.shards[0].ring.commit == s.tail && z.shards[0].ring.head == s.head
  {
    hide MovesRun;
    hide ExecMoves;
    hide EngineInv;
  }

  /** From then on the record stays where it is, in every run in which nobody starts to consume from the shard. */
  lemma LateIsLost(e: Engine, call: Call) returns (moves: seq<Move>, z: Engine)
    requires FreshEngine(e) && 3 <= |e.points|
    requires call.shard == 0 && call.key != 0 && |call.payload| <= e.shards[0].ring.payloadCap
    ensures MovesRun(e, moves) && z == ExecMoves(e, moves)
    ensures |z.points| == |e.points| && z.points[1] == WorkDone(0) && 0 < |z.shards|
    ensures 0 < |z.g.stopTails| && z.g.stopTails[0] == z.shards[0].ring.head < z.shards[0].ring.commit
    ensures forall rest :: MovesRun(z, rest) && (forall t: nat :: !Starts(rest, t, 0)) ==>
      0 < |ExecMoves(z, rest).shards| && ExecMoves(z, rest).shards[0].ring.head == z.shards[0].ring.head
  {
    hide FreshEngine;
    hide EngineInv;
    hide MovesRun;
    hide ExecMoves;
    moves, z := CanBeLate(e, call);
    forall rest | MovesRun(z, rest) && (forall t: nat :: !Starts(rest, t, 0))
      ensures 0 < |ExecMoves(z, rest).shards| && ExecMoves(z, rest).shards[0].ring.head == z.shards[0].ring.head
    {
      forall t: nat ensures !MayConsume(z, rest, t, 0) {
        assert t < |z.points| ==> !Consumer(z.points[t], 0);
      }
      NeverHandled(z, rest, 0);
    }
  }
}
