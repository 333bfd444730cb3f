/**
 A complete run of any fresh engine used by two or more threads, after which the gate is shut although no shard is hot
 and no thread is in the latch: a producer fills shard 0 to the high mark, and a drain empties the shard and clears its
 latch before the producer that set it has counted it.
 */
module GateRun {
  import opened Hysteresis
  import opened EngineMachine
  import opened EngineBooks
  import opened EngineRuns
  import opened EngineGate
  import opened EngineHonest
  import opened EngineScenes

  /** A drain takes one record after another until none is left. */
  lemma {:induction false} DrainsAll(e: Engine, moves0: seq<Move>, z0: Engine, s: Scene, t: nat)
    returns (moves: seq<Move>, z: Engine, s': Scene)
    requires Stage(e, moves0, z0, s) && t < |s.points| && s.points[t].DrainTop? && Dequeuer(s.points[t])
    requires s.head <= s.tail
    ensures Stage(e, moves, z, s') && s'.points[t].ReadHot? && s'.points[t].shard == 0 && s'.points[t].next.Sweep?
    ensures s'.points[t].next.shard == 0 && s' == s.(head := s.tail, points := s.points[t := s'.points[t]])
    decreases s.tail - s.head
  {
    hide Stage;
    moves, z, s' := Takes(e, moves0, z0, s, t);
    if s.head < s.tail {
      moves, z, s' := DrainsAll(e, moves, z, s', t);
    }
  }

  /** A producer has latched shard 0 hot and not yet counted it, and a drain is about to clear the latch. */
  lemma Approaches(e: Engine, call: Call) returns (moves: seq<Move>, z: Engine, s: Scene)
    requires FreshEngine(e) && 2 <= |e.points|
    requires call.shard == 0 && call.key != 0 && |call.payload| <= e.shards[0].ring.payloadCap
    ensures Stage(e, moves, z, s) && s.hot && s.g.saturated == 0 && !s.g.closed
    ensures |s.points| == |e.points| && s.points[0] == AddSaturated && s.points[1].ClearHot? && s.points[1].shard == 0
    ensures s.points[1].next.Sweep? && s.points[1].next.shard == 0
    ensures forall u :: 2 <= u < |s.points| ==> s.points[u].Off?
  {
    hide Stage;
    hide Percent;
    hide FreshEngine;
    s := Fresh(e);
    moves, z, s := FillsUp(e, [], e, s, 0, call);
    moves, z := Latches(e, moves, z, s, 0);
    s := s.(hot := true).Move(0, AddSaturated);
    moves, z := Starting(e, moves, z, s, 1, Drain(0));
    s := s.Move(1, DrainTop(0, 0, 0));
    moves, z, s := DrainsAll(e, moves, z, s, 1);
    moves, z, s := FindsEmpty(e, moves, z, s, 1);
  }

  /**
   The whole run, from any fresh engine of two or more threads: the gate ends up shut with no shard hot and the counter
   zero, with thread 1 past the latch in its drain and everybody else out of the engine. Nothing is left that would
   open it.
   */
  lemma ShutOverCold(e: Engine, call: Call) returns (moves: seq<Move>, z: Engine)
    requires FreshEngine(e) && 2 <= |e.points|
    requires call.shard == 0 && call.key != 0 && |call.payload| <= e.shards[0].ring.payloadCap
    ensures MovesRun(e, moves) && z == ExecMoves(e, moves)
    ensures z.g.closed && z.g.saturated == 0 && forall i :: 0 <= i < |z.shards| ==> !z.shards[i].hot
    ensures forall u :: 0 <= u < |z.points| ==> z.points[u].Off? || (u == 1 && z.points[u].DrainTop?)
    ensures !Honest(z)
  {
    hide FreshEngine;
    hide MovesRun;
    hide ExecMoves;
    hide Stage;
    hide Honest;
    var y, s;
    moves, y, s := Approaches(e, call);
    var rest;
    rest, z := Ends(e, moves, y, s);
    RunsConcat(e, moves, rest);
    moves := moves + rest;
    NothingHot(z);
  }

  lemma Ends(e: Engine, moves: seq<Move>, y: Engine, s: Scene) returns (rest: seq<Move>, z: Engine)
    requires Stage(e, moves, y, s) && s.hot && s.g.saturated == 0 && !s.g.closed && 2 <= |s.points|
    requires s.points[0] == AddSaturated && s.points[1].ClearHot? && s.points[1].shard == 0
    requires s.points[1].next.Sweep? && forall u :: 2 <= u < |s.points| ==> s.points[u].Off?
    ensures MovesRun(y, rest) && z == ExecMoves(y, rest)
    ensures MovesRun(e, moves) && y == ExecMoves(e, moves)
    ensures z.g.closed && z.g.saturated == 0 && forall i :: 0 <= i < |z.shards| ==> !z.shards[i].hot
    ensures forall u :: 0 <= u < |z.points| ==> z.points[u].Off? || (u == 1 && z.points[u].DrainTop?)
  {
    hide MovesRun;
    hide ExecMoves;
    hide EngineInv;
    hide RingAt;
    rest, z := GateCanRestShutOverCold(y, 0, 1, 0, s.points[1].next);
  }

  lemma NothingHot(z: Engine)
    requires z.g.closed && forall i :: 0 <= i < |z.shards| ==> !z.shards[i].hot
    requires forall u :: 0 <= u < |z.points| ==> z.points[u].Off? || (u == 1 && z.points[u].DrainTop?)
    ensures !Honest(z)
  {
  }

  /** Over all runs of a fresh engine, the gate is honest in every state exactly if at most one thread uses it. */
  lemma HonestIffOneThread(e: Engine)
    requires FreshEngine(e)
    ensures (forall moves :: MovesRun(e, moves) ==> Honest(ExecMoves(e, moves))) <==> |e.points| <= 1
  {
    InitFair(e);
    assert 0 < |e.shards|;
    hide MovesRun;
    hide ExecMoves;
    hide EngineInv;
    hide Honest;
    if |e.points| <= 1 {
      hide FreshEngine;
      forall moves | MovesRun(e, moves) ensures Honest(ExecMoves(e, moves)) {
        OneThreadNeverCrosses(e, moves);
        HonestWithoutCrossing(e, moves);
      }
    } else {
      var moves, z := ShutOverCold(e, Call(0, 1, 0, [], 0));
    }
  }
}
