/** Conservation, and the gate: in every interleaving it cannot rest open over a hot shard. */
module EngineGate {
  import opened Bits
  import opened Sums
  import opened RingMachine
  import opened RingProgress
  import opened EngineMachine
  import opened EngineSafety
  import opened EngineBooks
  import opened EngineRuns

  // ----------------------------------------------------------------- conservation

  /**
   In every state of every run: each ticket issued is ingested, dropped or in flight; each shard's tail counts its
   ingested records and the claims not yet counted, and its head the consumed records and the takes not yet counted.
   */
  lemma Conservation(e: Engine, moves: seq<Move>)
    requires FreshEngine(e) && MovesRun(e, moves)
    ensures var z := ExecMoves(e, moves);
      && z.g.ticket == Sum(z.shards, IngestedOf) + z.g.dropped + Sum(z.points, InFlightOf)
      && Sum(z.shards, RejectedOf) == z.g.dropped + Sum(z.points, DroppingOf)
      && forall i :: 0 <= i < |z.shards| ==>
        && z.shards[i].ring.tail == z.shards[i].ingested + Sum(z.shards[i].ring.pcs, ClaimingOf)
        && z.shards[i].ring.head == z.shards[i].consumed + Sum(z.shards[i].ring.pcs, TakingOf)
  {
    hide ExecMoves;
    hide MovesRun;
    hide FreshEngine;
    hide RingOk;
    hide AtHome;
    InitEngineInv(e);
    RunEngineInv(e, moves);
    var z := ExecMoves(e, moves);
    forall i | 0 <= i < |z.shards|
      ensures z.shards[i].ring.tail == z.shards[i].ingested + Sum(z.shards[i].ring.pcs, ClaimingOf)
        && z.shards[i].ring.head == z.shards[i].consumed + Sum(z.shards[i].ring.pcs, TakingOf)
    {
      assert ShardOk(z, i);
    }
  }

  /** Points at which a thread is in no engine call. */
  predicate AtRest(pc: Point) { pc.Off? || pc.WorkDone? }

  /**
   With no call in progress every ticket is ingested or dropped, every drop is a counted rejection, and each shard
   has committed all it ingested and holds exactly the records ingested and not yet consumed.
   */
  lemma IdleConservation(e: Engine)
    requires EngineInv(e) && forall t :: 0 <= t < |e.points| ==> AtRest(e.points[t])
    ensures e.g.ticket == Sum(e.shards, IngestedOf) + e.g.dropped
    ensures Sum(e.shards, RejectedOf) == e.g.dropped
    ensures forall i :: 0 <= i < |e.shards| ==>
      && e.shards[i].ring.commit == e.shards[i].ring.tail == e.shards[i].ingested
      && e.shards[i].ring.head == e.shards[i].consumed
  {
    SumZero(e.points, InFlightOf);
    SumZero(e.points, DroppingOf);
    forall i | 0 <= i < |e.shards|
      ensures e.shards[i].ring.commit == e.shards[i].ring.tail == e.shards[i].ingested
        && e.shards[i].ring.head == e.shards[i].consumed
    {
      assert ShardOk(e, i);
      IdleShard(e, i);
    }
  }

  lemma IdleShard(e: Engine, i: nat)
    requires PointsOk(e) && i < |e.shards| && ShardOk(e, i) && forall t :: 0 <= t < |e.points| ==> AtRest(e.points[t])
    ensures e.shards[i].ring.commit == e.shards[i].ring.tail == e.shards[i].ingested
    ensures e.shards[i].ring.head == e.shards[i].consumed
  {
    var r := e.shards[i].ring;
    forall t | 0 <= t < |r.pcs| ensures r.pcs[t].Idle? {
      assert AtHome(e.points[t], i, r.pcs[t]);
    }
    SumZero(r.pcs, ClaimingOf);
    SumZero(r.pcs, TakingOf);
    QuietProducersCommitAll(r);
  }

  // ----------------------------------------------------------------- the gate

  /** A thread about to add to the counter, to shut the gate, or to re-check it. */
  predicate Fixes(pc: Point) { pc.AddSaturated? || pc.ShutGate? || pc.CountOpen? || pc.Recheck? }

  ghost predicate GateOk(e: Engine) {
    !e.g.closed && e.g.saturated != 0 && !e.g.forced ==> exists t :: 0 <= t < |e.points| && Fixes(e.points[t])
  }

  /** While some thread owes a subtraction, a zero counter means that another one owes an addition. */
  lemma ZeroMeansAdding(e: Engine, t: nat)
    requires EngineInv(e) && t < |e.points| && e.points[t].SubSaturated? && e.g.saturated == 0
    ensures exists u :: 0 <= u < |e.points| && e.points[u].AddSaturated?
  {
    SumBounds(e.shards, HotOf);
    SumBounds(e.points, AddingOf);
    SumBounds(e.points, SubtractingOf);
    assert SubtractingOf(e.points[t]) == 1;
    assert Sum(e.points, AddingOf) > 0;
    var u :| 0 <= u < |e.points| && AddingOf(e.points[u]) == 1;
    assert e.points[u].AddSaturated?;
  }

  /** What one step does to the gate, the counter and the acting thread. */
  lemma GateStep(g: Globals, sh: Shard, pc: Point, t: nat, n: nat)
    requires Ready(sh, pc, t) && !pc.StopRunning?
    ensures var f := Local(g, sh, pc, t, n);
      && (f.g.forced == (g.forced || pc.ForceOpen?))
      && (!f.g.closed && !f.g.forced && (g.closed || f.g.saturated != g.saturated) ==>
        Fixes(f.pc) || f.g.saturated == 0 || pc.SubSaturated?)
      && (!f.g.forced && Fixes(pc) ==> Fixes(f.pc) || f.g.closed || f.g.saturated == 0)
      && (pc.SubSaturated? ==> f.g.closed == g.closed)
  {
    hide Enter;
    hide Leave;
    hide Sized;
    hide RingMachine.Enabled;
    hide Answer;
    hide ConsumeStep;
    AnswerKeepsGlobals(g, sh, pc, t, n);
  }

  lemma AnswerKeepsGlobals(g: Globals, sh: Shard, pc: Point, t: nat, n: nat)
    requires Ready(sh, pc, t)
    ensures InRing(pc) && Returned(sh.ring.pcs[t]) ==> Answer(g, sh, pc, t).g == g
    ensures InConsume(pc) ==> ConsumeStep(g, sh, pc, t, n).g == g
  {
    hide Enter;
    hide Leave;
    hide Sized;
    hide RingMachine.Enabled;
  }

  lemma KeepsGate(e: Engine, m: Move)
    requires EngineInv(e) && GateOk(e) && MoveEnabled(e, m)
    ensures GateOk(ApplyMove(e, m))
  {
    var t := m.thread;
    var e' := ApplyMove(e, m);
    if m.Start? || e.points[t].StopRunning? {
      hide EngineInv;
      hide Local;
      hide Ready;
      if !e.g.closed && e.g.saturated != 0 && !e.g.forced {
        var u :| 0 <= u < |e.points| && Fixes(e.points[u]);
        assert Fixes(e'.points[u]);
      }
      return;
    }
    hide EngineInv;
    hide Local;
    hide Ready;
    hide Sound;
    hide Balanced;
    hide Remembers;
    hide GateOk;
    hide MoveEnabled;
    hide ApplyMove;
    var k, f := StepIs(e, t);
    GateStep(e.g, e.shards[k], e.points[t], t, |e.shards|);
    if e.points[t].SubSaturated? && e.g.saturated == 0 {
      ZeroMeansAdding(e, t);
    }
    FixerStays(e, t, f, e');
  }

  lemma FixerStays(e: Engine, t: nat, f: Effect, e': Engine)
    requires t < |e.points| && GateOk(e) && e'.points == e.points[t := f.pc] && e'.g == f.g
    requires f.g.forced == (e.g.forced || e.points[t].ForceOpen?)
    requires !f.g.closed && !f.g.forced && (e.g.closed || f.g.saturated != e.g.saturated) ==>
      Fixes(f.pc) || f.g.saturated == 0 || e.points[t].SubSaturated?
    requires !f.g.forced && Fixes(e.points[t]) ==> Fixes(f.pc) || f.g.closed || f.g.saturated == 0
    requires e.points[t].SubSaturated? && e.g.saturated == 0 ==>
        exists u :: 0 <= u < |e.points| && e.points[u].AddSaturated?
    requires e.points[t].SubSaturated? ==> f.g.closed == e.g.closed
    ensures GateOk(e')
  {
    if !f.g.closed && f.g.saturated != 0 && !f.g.forced && !Fixes(f.pc) {
      if e.points[t].SubSaturated? && e.g.saturated == 0 {
        var u :| 0 <= u < |e.points| && e.points[u].AddSaturated?;
        assert Fixes(e'.points[u]);
      } else {
        var u :| 0 <= u < |e.points| && Fixes(e.points[u]);
        assert u != t;
        assert Fixes(e'.points[u]);
      }
    } else if Fixes(f.pc) {
      assert Fixes(e'.points[t]);
    }
  }

  /**
   In every state of every run in which Close has not forced the valve: if the gate is open while the saturation
   counter is not zero, some thread is about to add to it, to shut the gate or to re-check it.
   */
  lemma {:induction false} GateAttended(e: Engine, moves: seq<Move>)
    requires EngineInv(e) && GateOk(e) && MovesRun(e, moves)
    ensures EngineInv(ExecMoves(e, moves)) && GateOk(ExecMoves(e, moves))
    decreases |moves|
  {
    if |moves| > 0 {
      KeepsGate(e, moves[0]);
      KeepsEngineInv(e, moves[0]);
      GateAttended(ApplyMove(e, moves[0]), moves[1..]);
    }
  }

  /** The counter holds the number of hot shards, less the additions and plus the subtractions still owed. */
  lemma CounterExact(e: Engine)
    requires EngineInv(e)
    ensures e.g.saturated == Word64(Sum(e.shards, HotOf) - Sum(e.points, AddingOf) + Sum(e.points, SubtractingOf))
    ensures e.g.saturated == 0 <==> Sum(e.shards, HotOf) - Sum(e.points, AddingOf) + Sum(e.points, SubtractingOf) == 0
  {
    SumBounds(e.shards, HotOf);
    SumBounds(e.points, AddingOf);
    SumBounds(e.points, SubtractingOf);
  }

  /** Once nobody is in the middle of the latch, a hot shard means a closed gate: it cannot rest open. */
  lemma GateRestsClosedOverHot(e: Engine, i: nat)
    requires EngineInv(e) && GateOk(e) && !e.g.forced
    requires forall t :: 0 <= t < |e.points| ==> !Fixes(e.points[t]) && !e.points[t].SubSaturated?
    requires i < |e.shards| && e.shards[i].hot
    ensures e.g.closed
  {
    CounterExact(e);
    SumBounds(e.shards, HotOf);
    SumZero(e.points, AddingOf);
    SumZero(e.points, SubtractingOf);
    assert HotOf(e.shards[i]) == 1;
  }

  /** Points of the latch whose next step stays outside the rings. */
  predicate InLatch(pc: Point) { InMark(pc) || (InDrained(pc) && !pc.ReadHot?) }

  ghost function LatchStep(g: Globals, sh: Shard, pc: Point, t: nat): Effect
    requires Ready(sh, pc, t) && InLatch(pc)
  {
    if InMark(pc) then MarkStep(g, sh, pc, t) else DrainedStep(g, sh, pc, t)
  }

  /** A thread in the latch can always take its next step, and the engine stays sound. */
  lemma LatchMove(e: Engine, t: nat) returns (e': Engine)
    requires EngineInv(e) && t < |e.points| && InLatch(e.points[t])
    ensures MoveEnabled(e, Go(t)) && e' == ApplyMove(e, Go(t)) && EngineInv(e')
    ensures var k := ShardOf(|e.shards|, e.points[t]);
      && k < |e.shards| && Ready(e.shards[k], e.points[t], t)
      && var f := LatchStep(e.g, e.shards[k], e.points[t], t);
         e' == Engine(e.shards[k := f.sh], f.g, e.points[t := f.pc])
  {
    hide EngineInv;
    hide Before;
    StepReady(e, t);
    KeepsEngineInv(e, Go(t));
    e' := ApplyMove(e, Go(t));
  }

  /** One latch move appended to a run. */
  lemma LatchThen(e: Engine, moves: seq<Move>, z: Engine, t: nat) returns (moves': seq<Move>, z': Engine)
    requires MovesRun(e, moves) && z == ExecMoves(e, moves)
    requires EngineInv(z) && t < |z.points| && InLatch(z.points[t])
    ensures MovesRun(e, moves') && z' == ExecMoves(e, moves') && EngineInv(z')
    ensures var k := ShardOf(|z.shards|, z.points[t]);
      && k < |z.shards| && Ready(z.shards[k], z.points[t], t)
      && var f := LatchStep(z.g, z.shards[k], z.points[t], t);
         z' == Engine(z.shards[k := f.sh], f.g, z.points[t := f.pc])
  {
    z' := LatchMove(z, t);
    RunsOne(z, Go(t));
    RunsConcat(e, moves, [Go(t)]);
    moves' := moves + [Go(t)];
    hide MovesRun;
    hide ExecMoves;
    hide EngineInv;
  }

  /** A drain clears the only hot latch while the addition for it is still owed: the counter wraps below zero. */
  lemma DrainBeforeAdd(e: Engine, u: nat, k: nat, next: Next) returns (moves: seq<Move>, z: Engine)
    requires EngineInv(e) && u < |e.points| && k < |e.shards| && e.points[u] == ClearHot(k, next)
    requires forall i :: 0 <= i < |e.shards| ==> e.shards[i].hot == (i == k)
    requires e.g.saturated == 0 && !e.g.closed
    ensures MovesRun(e, moves) && z == ExecMoves(e, moves) && EngineInv(z)
    ensures !z.g.closed && z.g.saturated == TWO64 - 1 && z.points == e.points[u := Continue(next)]
    ensures forall i :: 0 <= i < |z.shards| ==> !z.shards[i].hot
  {
    hide EngineInv;
    hide MovesRun;
    hide ExecMoves;
    NoMoves(e);
    moves, z := LatchThen(e, [], e, u);
    moves, z := LatchThen(e, moves, z, u);
    assert z.points == e.points[u := Continue(next)];
  }

  /** The late addition brings the counter back to zero, and its thread shuts the gate all the same. */
  lemma LateAddShuts(e: Engine, moves0: seq<Move>, y: Engine, t: nat) returns (moves: seq<Move>, z: Engine)
    requires MovesRun(e, moves0) && y == ExecMoves(e, moves0)
    requires EngineInv(y) && t < |y.points| && y.points[t].AddSaturated?
    requires y.g.saturated == TWO64 - 1 && !y.g.closed
    ensures MovesRun(e, moves) && z == ExecMoves(e, moves)
    ensures z.g.closed && z.g.saturated == 0 && z.points == y.points[t := Off] && z.shards == y.shards
  {
    hide EngineInv;
    hide MovesRun;
    hide ExecMoves;
    moves, z := LatchThen(e, moves0, y, t);
    moves, z := LatchThen(e, moves, z, t);
    moves, z := LatchThen(e, moves, z, t);
    assert z.points == y.points[t := Off];
    assert z.shards == y.shards;
  }

  /**
   The converse fails in interleavings: when a drain clears the latch between a producer's latching and its
   addition, the gate ends up shut with no shard hot and nobody left in the latch.
   */
  lemma GateCanRestShutOverCold(e: Engine, t: nat, u: nat, k: nat, next: Next)
    returns (moves: seq<Move>, z: Engine)
    requires EngineInv(e) && t < |e.points| && u < |e.points| && k < |e.shards|
    requires e.points[t].AddSaturated? && e.points[u] == ClearHot(k, next)
    requires forall i :: 0 <= i < |e.shards| ==> e.shards[i].hot == (i == k)
    requires e.g.saturated == 0 && !e.g.closed
    ensures MovesRun(e, moves) && z == ExecMoves(e, moves)
    ensures z.g.closed && z.g.saturated == 0 && z.points == e.points[u := Continue(next)][t := Off]
    ensures forall i :: 0 <= i < |z.shards| ==> !z.shards[i].hot
  {
    moves, z := DrainBeforeAdd(e, u, k, next);
    moves, z := LateAddShuts(e, moves, z, t);
  }
}
