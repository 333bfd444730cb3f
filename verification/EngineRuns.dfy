/**
 Runs of the engine: its invariant over a whole run, runs put together move by move, and a publish up to its ticket.
 */
module EngineRuns {
  import opened RingMachine
  import opened EngineMachine
  import opened EngineSafety
  import opened EngineBooks

  /** Every state of every run satisfies the engine's invariant. */
  lemma {:induction false} RunEngineInv(e: Engine, moves: seq<Move>)
    requires EngineInv(e) && MovesRun(e, moves)
    ensures EngineInv(ExecMoves(e, moves))
    decreases |moves|
  {
    if |moves| > 0 {
      KeepsEngineInv(e, moves[0]);
      RunEngineInv(ApplyMove(e, moves[0]), moves[1..]);
    }
  }

  lemma {:induction false} RunsConcat(e: Engine, a: seq<Move>, b: seq<Move>)
    requires MovesRun(e, a) && MovesRun(ExecMoves(e, a), b)
    ensures MovesRun(e, a + b)
    ensures ExecMoves(e, a + b) == ExecMoves(ExecMoves(e, a), b)
    decreases |a|
  {
    if |a| == 0 {
      assert a + b == b;
    } else {
      assert (a + b)[1..] == a[1..] + b;
      RunsConcat(ApplyMove(e, a[0]), a[1..], b);
    }
  }

  lemma NoMoves(e: Engine)
    ensures MovesRun(e, []) && ExecMoves(e, []) == e
  {
  }

  lemma RunsOne(e: Engine, m: Move)
    requires MoveEnabled(e, m)
    ensures MovesRun(e, [m]) && ExecMoves(e, [m]) == ApplyMove(e, m)
  {
  }

  /** The number of threads is fixed. */
  lemma OnePoint(e: Engine, m: Move)
    requires MoveEnabled(e, m)
    ensures |ApplyMove(e, m).points| == |e.points|
  {
    hide Local;
    hide Ready;
  }

  /** A run extended by one more move. */
  lemma OneMove(e: Engine, moves: seq<Move>, z: Engine, m: Move) returns (moves': seq<Move>, z': Engine)
    requires MovesRun(e, moves) && z == ExecMoves(e, moves) && EngineInv(z)
        && MoveEnabled(z, m)
    ensures MovesRun(e, moves') && z' == ExecMoves(e, moves') && EngineInv(z')
    ensures z' == ApplyMove(z, m)
  {
    KeepsEngineInv(z, m);
    z' := ApplyMove(z, m);
    RunsOne(z, m);
    RunsConcat(e, moves, [m]);
    moves' := moves + [m];
  }

  /** A call that publish accepts is taken to the point where it has drawn its ticket and is about to claim. */
  lemma DrawAlone(e: Engine, moves: seq<Move>, z: Engine, t: nat, call: Call) returns (moves': seq<Move>, z': Engine)
    requires MovesRun(e, moves) && z == ExecMoves(e, moves) && EngineInv(z)
    requires t < |z.points| && z.points[t].Off? && z.g.running && !z.g.closed
    requires call.shard < |z.shards| && call.key != 0 && |call.payload| <= z.shards[call.shard].ring.payloadCap
    requires t < |z.shards[call.shard].ring.pcs|
    ensures MovesRun(e, moves') && z' == ExecMoves(e, moves') && EngineInv(z')
    ensures z'.points == z.points[t := InPublish(call.shard)] && z'.g == z.g.(ticket := z.g.ticket + 1)
    ensures var r := z.shards[call.shard].ring;
      z'.shards == z.shards[call.shard := z.shards[call.shard].(ring := Goto(r, t,
          ClaimLoadTail(RequestOf(z.g, call))))]
  {
    hide MovesRun;
    hide ExecMoves;
    hide EngineInv;
    var y;
    moves', y := Admitted(e, moves, z, t, call);
    moves', z' := CallMove(e, moves', y, t);
  }

  /** A call that publish accepts is taken past the checks of running and of the gate. */
  lemma Admitted(e: Engine, moves: seq<Move>, z: Engine, t: nat, call: Call) returns (moves': seq<Move>, z': Engine)
    requires MovesRun(e, moves) && z == ExecMoves(e, moves) && EngineInv(z)
    requires t < |z.points| && z.points[t].Off? && z.g.running && !z.g.closed
    requires call.shard < |z.shards| && call.key != 0 && |call.payload| <= z.shards[call.shard].ring.payloadCap
    ensures MovesRun(e, moves') && z' == ExecMoves(e, moves') && EngineInv(z')
    ensures z' == z.(points := z.points[t := DrawTicket(call)])
  {
    hide MovesRun;
    hide ExecMoves;
    hide EngineInv;
    moves', z' := BeginsCall(e, moves, z, t, call);
    hide ApplyMove;
    hide MoveEnabled;
    moves', z' := PassesCheck(e, moves', z', t);
    moves', z' := PassesCheck(e, moves', z', t);
    assert z'.points == z.points[t := DrawTicket(call)];
  }

  lemma BeginsCall(e: Engine, moves: seq<Move>, z: Engine, t: nat, call: Call) returns (moves': seq<Move>, z': Engine)
    requires MovesRun(e, moves) && z == ExecMoves(e, moves) && EngineInv(z) && t < |z.points| && z.points[t].Off?
    requires call.shard < |z.shards| && call.key != 0 && |call.payload| <= z.shards[call.shard].ring.payloadCap
    ensures MovesRun(e, moves') && z' == ExecMoves(e, moves') && EngineInv(z')
    ensures z' == z.(points := z.points[t := CheckRunning(call)])
  {
    assert Fits(z);
    hide MovesRun;
    hide ExecMoves;
    hide EngineInv;
    moves', z' := OneMove(e, moves, z, Start(t, PublishCall(call)));
  }

  /** The check of running, or of the gate, is passed. */
  lemma PassesCheck(e: Engine, moves: seq<Move>, z: Engine, t: nat) returns (moves': seq<Move>, z': Engine)
    requires MovesRun(e, moves) && z == ExecMoves(e, moves) && EngineInv(z) && t < |z.points|
    requires (z.points[t].CheckRunning? && z.g.running) || (z.points[t].CheckGate? && !z.g.closed)
    ensures MovesRun(e, moves') && z' == ExecMoves(e, moves') && EngineInv(z')
    ensures z' == z.(points := z.points[t :=
      if z.points[t].CheckRunning? then CheckGate(z.points[t].call) else DrawTicket(z.points[t].call)])
  {
    hide MovesRun;
    hide ExecMoves;
    hide EngineInv;
    hide Sized;
    moves', z' := CallMove(e, moves, z, t);
    assert z'.shards == z.shards;
  }

  lemma CallMove(e: Engine, moves: seq<Move>, z: Engine, t: nat) returns (moves': seq<Move>, z': Engine)
    requires MovesRun(e, moves) && z == ExecMoves(e, moves) && EngineInv(z)
    requires t < |z.points| && InPublishCall(z.points[t])
    ensures MovesRun(e, moves') && z' == ExecMoves(e, moves') && EngineInv(z')
    ensures var k := ShardOf(|z.shards|, z.points[t]);
      && k < |z.shards| && Ready(z.shards[k], z.points[t], t)
      && var f := PublishStep(z.g, z.shards[k], z.points[t], t);
           z' == Engine(z.shards[k := f.sh], f.g, z.points[t := f.pc])
  {
    CallApplies(z, t);
    hide MovesRun;
    hide ExecMoves;
    hide ApplyMove;
    hide EngineInv;
    hide PublishStep;
    hide Ready;
    hide MoveEnabled;
    moves', z' := OneMove(e, moves, z, Go(t));
  }

  lemma CallApplies(z: Engine, t: nat)
    requires EngineInv(z) && t < |z.points| && InPublishCall(z.points[t])
    ensures MoveEnabled(z, Go(t))
    ensures var k := ShardOf(|z.shards|, z.points[t]);
      && k < |z.shards| && Ready(z.shards[k], z.points[t], t)
      && var f := PublishStep(z.g, z.shards[k], z.points[t], t);
         ApplyMove(z, Go(t)) == Engine(z.shards[k := f.sh], f.g, z.points[t := f.pc])
  {
    hide EngineInv;
    hide Before;
    hide PublishStep;
    hide Ready;
    StepReady(z, t);
  }
}
