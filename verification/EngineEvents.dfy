/**
 What happens in a run, counted: the gate's transitions and refusals add up to the moves that made them, the two gauges
 decide by the marks, and after Close has cleared running only publishes already past that check get a ticket.
 */
module EngineEvents {
  import opened Sums
  import Hysteresis
  import opened RingMachine
  import opened EngineMachine
  import opened EngineSafety
  import opened EngineBooks
  import opened EngineRuns

  /**
   Kinds of moves: a publish refused at the shut gate, Close forcing a shut gate, a drain handed a record, a publish
   reading an occupancy at or above the high mark or below it, and a thread looking at a latch to set it.
   */
  datatype Event = Refused | Forced | Handed(thread: nat) | ReadHigh | ReadLow | Looked

  ghost predicate Happens(v: Event, e: Engine, m: Move) {
    && m.Go? && m.thread < |e.points|
    && var pc := e.points[m.thread];
       match v
       case Refused => pc.CheckGate? && e.g.closed
       case Forced => pc.ForceOpen? && e.g.closed
       case Handed(t) =>
         && m.thread == t && pc.DrainDequeue? && pc.shard < |e.shards| && t < |e.shards[pc.shard].ring.pcs|
         && e.shards[pc.shard].ring.pcs[t].Released?
       case ReadHigh => Reads(e, m.thread) && AtLeast(e.g, e.shards[pc.shard], m.thread)
       case ReadLow => Reads(e, m.thread) && !AtLeast(e.g, e.shards[pc.shard], m.thread)
       case Looked => pc.LatchHot?
  }

  /** Thread t has read its shard's occupancy at the end of a publish. */
  ghost predicate Reads(e: Engine, t: nat)
    requires t < |e.points|
  {
    var pc := e.points[t];
    && pc.Gauge? && pc.shard < |e.shards| && t < |e.shards[pc.shard].ring.pcs|
    && e.shards[pc.shard].ring.pcs[t].PendingIs?
  }

  /** What thread t read is at least the high mark. */
  predicate AtLeast(g: Globals, sh: Shard, t: nat)
    requires t < |sh.ring.pcs| && sh.ring.pcs[t].PendingIs?
  {
    100 * sh.ring.pcs[t].n >= g.high * sh.ring.capacity
  }

  /** How often it happens in a run. */
  ghost function Times(v: Event, e: Engine, moves: seq<Move>): nat
    requires MovesRun(e, moves)
    decreases |moves|
  {
    if |moves| == 0 then 0
    else (if Happens(v, e, moves[0]) then 1 else 0) + Times(v, ApplyMove(e, moves[0]), moves[1..])
  }

  const ClosingOf: Point -> int := (pc: Point) => if pc.CountClose? then 1 else 0
  const OpeningOf: Point -> int := (pc: Point) => if pc.CountOpen? then 1 else 0
  const RefusingOf: Point -> int := (pc: Point) => if pc.Refuse? then 1 else 0
  const PastOf: Point -> int := (pc: Point) => if pc.CheckGate? || pc.DrawTicket? then 1 else 0

  function Shut(g: Globals): int { if g.closed then 1 else 0 }

  // ----------------------------------------------------------------- one step

  /** What one step adds to the counters of the gate, and to the calls past their check of running. */
  ghost predicate Counts(g: Globals, pc: Point, g': Globals, pc': Point) {
    && g'.closes + ClosingOf(pc') - g'.opens - OpeningOf(pc') - Shut(g')
       == g.closes + ClosingOf(pc) - g.opens - OpeningOf(pc) - Shut(g) + (if pc.ForceOpen? && g.closed then 1 else 0)
    && g'.rejects + RefusingOf(pc')
       == g.rejects + RefusingOf(pc) + (if pc.CheckGate? && g.closed then 1 else 0)
    && (!g.running ==> !g'.running && g'.ticket + PastOf(pc') <= g.ticket + PastOf(pc))
  }

  lemma AnswerCounts(g: Globals, sh: Shard, pc: Point, t: nat)
    requires Ready(sh, pc, t) && InRing(pc) && Returned(sh.ring.pcs[t])
    ensures var f := Answer(g, sh, pc, t);
      f.g == g && !f.pc.CountClose? && !f.pc.CountOpen? && !f.pc.Refuse? && !f.pc.CheckGate? && !f.pc.DrawTicket?
  {
    hide Enter;
    hide Leave;
    hide Sized;
    hide RingMachine.Enabled;
  }

  lemma LocalCounts(g: Globals, sh: Shard, pc: Point, t: nat, n: nat)
    requires Ready(sh, pc, t) && !pc.StopRunning?
    ensures Counts(g, pc, Local(g, sh, pc, t, n).g, Local(g, sh, pc, t, n).pc)
  {
    hide Enter;
    hide Leave;
    hide Sized;
    hide Answer;
    hide RingMachine.Enabled;
    hide RingMachine.Apply;
    if InRing(pc) && Returned(sh.ring.pcs[t]) {
      AnswerCounts(g, sh, pc, t);
    }
  }

  /** The engine's counters after one more move. */
  ghost predicate Counted(e: Engine, m: Move, e': Engine) {
    && e'.g.closes + Sum(e'.points, ClosingOf) - e'.g.opens - Sum(e'.points, OpeningOf) - Shut(e'.g)
       == e.g.closes + Sum(e.points, ClosingOf) - e.g.opens - Sum(e.points, OpeningOf) - Shut(e.g)
          + (if Happens(Forced, e, m) then 1 else 0)
    && e'.g.rejects + Sum(e'.points, RefusingOf)
       == e.g.rejects + Sum(e.points, RefusingOf) + (if Happens(Refused, e, m) then 1 else 0)
    && (!e.g.running ==>
      !e'.g.running && e'.g.ticket + Sum(e'.points, PastOf) <= e.g.ticket + Sum(e.points, PastOf))
  }

  lemma PointCounts(e: Engine, t: nat, pc: Point, e': Engine)
    requires t < |e.points| && e'.points == e.points[t := pc]
    ensures Sum(e'.points, ClosingOf) == Sum(e.points, ClosingOf) - ClosingOf(e.points[t]) + ClosingOf(pc)
    ensures Sum(e'.points, OpeningOf) == Sum(e.points, OpeningOf) - OpeningOf(e.points[t]) + OpeningOf(pc)
    ensures Sum(e'.points, RefusingOf) == Sum(e.points, RefusingOf) - RefusingOf(e.points[t]) + RefusingOf(pc)
    ensures Sum(e'.points, PastOf) == Sum(e.points, PastOf) - PastOf(e.points[t]) + PastOf(pc)
  {
    hide Sum;
    SumUpdate(e.points, t, pc, ClosingOf);
    SumUpdate(e.points, t, pc, OpeningOf);
    SumUpdate(e.points, t, pc, RefusingOf);
    SumUpdate(e.points, t, pc, PastOf);
  }

  lemma StartCounted(e: Engine, m: Move)
    requires MoveEnabled(e, m) && m.Start?
    ensures Counted(e, m, ApplyMove(e, m))
  {
    hide Sum;
    PointCounts(e, m.thread, Entry(e, m.task), ApplyMove(e, m));
  }

  lemma StopCounted(e: Engine, t: nat)
    requires MoveEnabled(e, Go(t)) && e.points[t].StopRunning?
    ensures Counted(e, Go(t), ApplyMove(e, Go(t)))
  {
    hide Sum;
    hide Local;
    hide Ready;
    PointCounts(e, t, ApplyMove(e, Go(t)).points[t], ApplyMove(e, Go(t)));
  }

  lemma GoCounted(e: Engine, t: nat)
    requires EngineInv(e) && MoveEnabled(e, Go(t)) && !e.points[t].StopRunning?
    ensures Counted(e, Go(t), ApplyMove(e, Go(t)))
  {
    hide Sum;
    hide Local;
    hide Ready;
    hide EngineInv;
    hide RingOk;
    hide Balanced;
    hide Matches;
    var k, f := StepIs(e, t);
    LocalCounts(e.g, e.shards[k], e.points[t], t, |e.shards|);
    PointCounts(e, t, f.pc, ApplyMove(e, Go(t)));
  }

  lemma MoveCounted(e: Engine, m: Move)
    requires EngineInv(e) && MoveEnabled(e, m)
    ensures Counted(e, m, ApplyMove(e, m))
  {
    hide EngineInv;
    hide ApplyMove;
    hide Counted;
    if m.Start? {
      StartCounted(e, m);
    } else if e.points[m.thread].StopRunning? {
      StopCounted(e, m.thread);
    } else {
      GoCounted(e, m.thread);
    }
  }

  // ----------------------------------------------------------------- whole runs

  lemma {:induction false} RunCounted(e: Engine, moves: seq<Move>)
    requires EngineInv(e) && MovesRun(e, moves)
    ensures var z := ExecMoves(e, moves);
      && z.g.closes + Sum(z.points, ClosingOf) - z.g.opens - Sum(z.points, OpeningOf) - Shut(z.g)
         == e.g.closes + Sum(e.points, ClosingOf) - e.g.opens - Sum(e.points, OpeningOf) - Shut(e.g)
            + Times(Forced, e, moves)
      && z.g.rejects + Sum(z.points, RefusingOf)
         == e.g.rejects + Sum(e.points, RefusingOf) + Times(Refused, e, moves)
    decreases |moves|
  {
    hide EngineInv;
    hide ApplyMove;
    hide MoveEnabled;
    hide Happens;
    hide Sum;
    if |moves| > 0 {
      MoveCounted(e, moves[0]);
      KeepsEngineInv(e, moves[0]);
      RunCounted(ApplyMove(e, moves[0]), moves[1..]);
    }
  }

  /**
   In every run of a fresh engine the closings counted or about to be are the openings counted or about to be, those
   Close forced, and one more if the gate is shut; and the refusals counted or about to be are the publishes that found
   the gate shut.
   */
  lemma TransitionsCounted(e: Engine, moves: seq<Move>)
    requires FreshEngine(e) && MovesRun(e, moves)
    ensures var z := ExecMoves(e, moves);
      && z.g.closes + Sum(z.points, ClosingOf)
         == z.g.opens + Sum(z.points, OpeningOf) + Times(Forced, e, moves) + (if z.g.closed then 1 else 0)
      && z.g.rejects + Sum(z.points, RefusingOf) == Times(Refused, e, moves)
  {
    hide EngineInv;
    hide ExecMoves;
    hide MovesRun;
    hide Times;
    InitEngineInv(e);
    RunCounted(e, moves);
    SumZero(e.points, ClosingOf);
    SumZero(e.points, OpeningOf);
    SumZero(e.points, RefusingOf);
  }

  /**
   Once running is cleared it stays so, and from then on at most one ticket is issued per publish that had already
   passed its check of running; every other publish is refused.
   */
  lemma {:induction false} StoppedForGood(e: Engine, moves: seq<Move>)
    requires EngineInv(e) && !e.g.running && MovesRun(e, moves)
    ensures var z := ExecMoves(e, moves);
      !z.g.running && z.g.ticket + Sum(z.points, PastOf) <= e.g.ticket + Sum(e.points, PastOf)
    decreases |moves|
  {
    hide EngineInv;
    hide ApplyMove;
    hide MoveEnabled;
    hide Sum;
    if |moves| > 0 {
      MoveCounted(e, moves[0]);
      KeepsEngineInv(e, moves[0]);
      StoppedForGood(ApplyMove(e, moves[0]), moves[1..]);
    }
  }

  /** Close clears running, notes every tail, and then leaves the gate open. */
  lemma CloseStops(e: Engine, t: nat)
    requires EngineInv(e) && t < |e.points| && e.points[t].StopRunning? && e.g.running
    ensures MovesRun(e, [Go(t)]) && MovesRun(e, [Go(t), Go(t)])
    ensures var y := ExecMoves(e, [Go(t)]);
      && !y.g.running && y.shards == e.shards && y.g.ticket == e.g.ticket && y.g.closed == e.g.closed
      && |y.g.stopTails| == |e.shards| && forall i :: 0 <= i < |e.shards| ==> y.g.stopTails[i] == e.shards[i].ring.tail
    ensures var z := ExecMoves(e, [Go(t), Go(t)]);
      !z.g.running && !z.g.closed && z.g.forced && z.shards == e.shards && z.points == e.points[t := Off]
  {
    hide EngineInv;
    hide Before;
    hide MovesRun;
    hide ExecMoves;
    hide Ready;
    StepReady(e, t);
    var y := ApplyMove(e, Go(t));
    KeepsEngineInv(e, Go(t));
    StepReady(y, t);
    RunsOne(e, Go(t));
    RunsOne(y, Go(t));
    RunsConcat(e, [Go(t)], [Go(t)]);
    assert [Go(t)] + [Go(t)] == [Go(t), Go(t)];
    assert e.points[t := ForceOpen][t := Off] == e.points[t := Off];
    assert y.shards[0 := y.shards[0]] == y.shards;
  }

  // ----------------------------------------------------------------- the gauges

  /**
   The gauges, in numbers: publish goes on to the latch exactly if what it read is at least the high mark's share of
   the cells, and a consumer goes on to clear the latch exactly if what it read is below the low mark's next percent.
   */
  lemma GaugesDecide(g: Globals, sh: Shard, pc: Point, t: nat, n: nat)
    requires Ready(sh, pc, t) && (pc.Gauge? || pc.GaugeDrained?) && sh.ring.pcs[t].PendingIs?
    ensures var f, read := Local(g, sh, pc, t, n), sh.ring.pcs[t].n;
      && f.g == g && f.sh.hot == sh.hot
      && (pc.Gauge? ==> f.pc == if 100 * read >= g.high * sh.ring.capacity then LatchHot(pc.shard) else Off)
      && (pc.GaugeDrained? ==>
        f.pc == if 100 * read < (g.low + 1) * sh.ring.capacity then ClearHot(pc.shard, pc.next) else Continue(pc.next))
  {
    hide Hysteresis.Percent;
    hide Sized;
    assert 0 < sh.ring.capacity by { Positive(sh.ring); }
    Hysteresis.PercentAtLeast(sh.ring.pcs[t].n, sh.ring.capacity, g.high);
    Hysteresis.PercentAtLeast(sh.ring.pcs[t].n, sh.ring.capacity, g.low + 1);
  }

  lemma Positive(r: Ring)
    requires Sized(r)
    ensures 0 < r.capacity
  {
  }

  // ----------------------------------------------------------------- batches

  /** A worker inside a batch has consumed fewer than 256 records in it. */
  predicate InBatch(pc: Point) { (pc.WorkTop? || pc.WorkDequeue?) ==> pc.n < 256 }

  lemma LocalBatch(g: Globals, sh: Shard, pc: Point, t: nat, n: nat)
    requires Ready(sh, pc, t) && !pc.StopRunning? && InBatch(pc)
    ensures InBatch(Local(g, sh, pc, t, n).pc)
  {
    hide Enter;
    hide Leave;
    hide Sized;
    hide Hysteresis.Percent;
    hide RingMachine.Enabled;
    hide RingMachine.Apply;
  }

  /** In every run a worker goes to the check of its shard's latch after at most 256 records. */
  lemma {:induction false} BatchesBounded(e: Engine, moves: seq<Move>, t: nat)
    requires EngineInv(e) && MovesRun(e, moves) && t < |e.points| && InBatch(e.points[t])
    ensures t < |ExecMoves(e, moves).points| && InBatch(ExecMoves(e, moves).points[t])
    decreases |moves|
  {
    hide EngineInv;
    hide ApplyMove;
    hide MoveEnabled;
    hide InBatch;
    if |moves| > 0 {
      KeepsEngineInv(e, moves[0]);
      MoveBatch(e, moves[0], t);
      BatchesBounded(ApplyMove(e, moves[0]), moves[1..], t);
    }
  }

  lemma MoveBatch(e: Engine, m: Move, t: nat)
    requires EngineInv(e) && MoveEnabled(e, m) && t < |e.points| && InBatch(e.points[t])
    ensures t < |ApplyMove(e, m).points| && InBatch(ApplyMove(e, m).points[t])
  {
    hide EngineInv;
    hide Local;
    hide Ready;
    hide RingOk;
    hide Balanced;
    if m.Go? && m.thread < |e.points| && !e.points[m.thread].StopRunning? {
      var k, f := StepIs(e, m.thread);
      if m.thread == t {
        LocalBatch(e.g, e.shards[k], e.points[t], t, |e.shards|);
      }
    }
  }

  // ----------------------------------------------------------------- every publish is gauged

  const GaugingOf: Point -> int := (pc: Point) => if pc.Gauge? then 1 else 0
  const LatchingOf: Point -> int := (pc: Point) => if pc.LatchHot? then 1 else 0

  /** A record counted as ingested is gauged; a drop, and a reading at or above the mark, leads to the latch. */
  ghost predicate Looks(g: Globals, sh: Shard, pc: Point, t: nat, f: Effect) {
    && f.g.high == g.high
    && var done := pc.Gauge? && t < |sh.ring.pcs| && sh.ring.pcs[t].PendingIs?;
       && f.sh.ingested - sh.ingested == GaugingOf(f.pc) - GaugingOf(pc) + (if done then 1 else 0)
       && f.g.dropped - g.dropped + (if done && AtLeast(g, sh, t) then 1 else 0)
          == LatchingOf(f.pc) - LatchingOf(pc) + if pc.LatchHot? then 1 else 0
  }

  lemma AnswerLooks(g: Globals, sh: Shard, pc: Point, t: nat)
    requires Ready(sh, pc, t) && InRing(pc) && Returned(sh.ring.pcs[t])
    ensures Looks(g, sh, pc, t, Answer(g, sh, pc, t))
  {
    hide Sized;
    hide Hysteresis.Percent;
    hide RingMachine.Enabled;
    if pc.Gauge? {
      Positive(sh.ring);
      Hysteresis.PercentAtLeast(sh.ring.pcs[t].n, sh.ring.capacity, g.high);
    }
  }

  lemma LocalLooks(g: Globals, sh: Shard, pc: Point, t: nat, n: nat)
    requires Ready(sh, pc, t) && !pc.StopRunning? && (pc.Gauge? ==> Matches(pc, sh.ring.pcs[t]))
    ensures Looks(g, sh, pc, t, Local(g, sh, pc, t, n))
  {
    hide Sized;
    hide Answer;
    hide RingMachine.Enabled;
    hide RingMachine.Apply;
    if InRing(pc) && Returned(sh.ring.pcs[t]) {
      AnswerLooks(g, sh, pc, t);
    }
  }

  lemma MoveLooks(e: Engine, m: Move)
    requires EngineInv(e) && MoveEnabled(e, m)
    ensures Gauged(e, m, ApplyMove(e, m))
  {
    hide EngineInv;
    hide Sum;
    hide Local;
    hide Ready;
    var t, e' := m.thread, ApplyMove(e, m);
    if m.Start? {
      PointLooks(e, t, e'.points[t], e');
    } else if e.points[t].StopRunning? {
      PointLooks(e, t, e'.points[t], e');
    } else {
      GoLooks(e, t);
    }
  }

  /** The books of gauges and latches after one more move. */
  ghost predicate Gauged(e: Engine, m: Move, e': Engine) {
    && e'.g.high == e.g.high
    && Sum(e'.shards, IngestedOf) - Sum(e'.points, GaugingOf)
       == Sum(e.shards, IngestedOf) - Sum(e.points, GaugingOf)
          + (if Happens(ReadHigh, e, m) then 1 else 0) + (if Happens(ReadLow, e, m) then 1 else 0)
    && e'.g.dropped - Sum(e'.points, LatchingOf) + (if Happens(ReadHigh, e, m) then 1 else 0)
       == e.g.dropped - Sum(e.points, LatchingOf) + (if Happens(Looked, e, m) then 1 else 0)
  }

  lemma PointLooks(e: Engine, t: nat, pc: Point, e': Engine)
    requires t < |e.points| && e'.points == e.points[t := pc]
    ensures Sum(e'.points, GaugingOf) == Sum(e.points, GaugingOf) - GaugingOf(e.points[t]) + GaugingOf(pc)
    ensures Sum(e'.points, LatchingOf) == Sum(e.points, LatchingOf) - LatchingOf(e.points[t]) + LatchingOf(pc)
  {
    hide Sum;
    SumUpdate(e.points, t, pc, GaugingOf);
    SumUpdate(e.points, t, pc, LatchingOf);
  }

  lemma GoLooks(e: Engine, t: nat)
    requires EngineInv(e) && MoveEnabled(e, Go(t)) && !e.points[t].StopRunning?
    ensures Gauged(e, Go(t), ApplyMove(e, Go(t)))
  {
    hide Sum;
    hide Local;
    hide Ready;
    hide EngineInv;
    hide RingOk;
    hide Balanced;
    var k, f := StepIs(e, t);
    LocalLooks(e.g, e.shards[k], e.points[t], t, |e.shards|);
    PointLooks(e, t, f.pc, ApplyMove(e, Go(t)));
    SumUpdate(e.shards, k, f.sh, IngestedOf);
    hide ApplyMove;
    hide MoveEnabled;
  }

  lemma {:induction false} RunLooks(e: Engine, moves: seq<Move>)
    requires EngineInv(e) && MovesRun(e, moves)
    ensures var z := ExecMoves(e, moves);
      && Sum(z.shards, IngestedOf) - Sum(z.points, GaugingOf)
         == Sum(e.shards, IngestedOf) - Sum(e.points, GaugingOf)
            + Times(ReadHigh, e, moves) + Times(ReadLow, e, moves)
      && z.g.dropped - Sum(z.points, LatchingOf) + Times(ReadHigh, e, moves)
         == e.g.dropped - Sum(e.points, LatchingOf) + Times(Looked, e, moves)
    decreases |moves|
  {
    hide EngineInv;
    hide ApplyMove;
    hide MoveEnabled;
    hide Happens;
    hide Sum;
    if |moves| > 0 {
      MoveLooks(e, moves[0]);
      KeepsEngineInv(e, moves[0]);
      RunLooks(ApplyMove(e, moves[0]), moves[1..]);
    }
  }

  /**
   In every run of a fresh engine every record counted as ingested is gauged: the ingested records are the readings and
   those about to be read. And every drop, like every reading at or above the high mark, leads to one look at the latch.
   */
  lemma EveryPublishGauged(e: Engine, moves: seq<Move>)
    requires FreshEngine(e) && MovesRun(e, moves)
    ensures var z := ExecMoves(e, moves);
      && Sum(z.shards, IngestedOf)
         == Times(ReadHigh, e, moves) + Times(ReadLow, e, moves) + Sum(z.points, GaugingOf)
      && z.g.dropped + Times(ReadHigh, e, moves) == Times(Looked, e, moves) + Sum(z.points, LatchingOf)
  {
    hide EngineInv;
    hide ExecMoves;
    hide MovesRun;
    hide Times;
    InitEngineInv(e);
    RunLooks(e, moves);
    SumZero(e.shards, IngestedOf);
    SumZero(e.points, GaugingOf);
    SumZero(e.points, LatchingOf);
  }
}
