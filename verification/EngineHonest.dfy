/**
 When the gate tells the truth: while no thread that is about to count a hot shard or to shut the gate meets one that is
 about to uncount a shard, a gate at rest is shut only over a hot shard; and any such meeting that brings the counter to
 zero can leave it shut over none.
 */
module EngineHonest {
  import opened Bits
  import opened Sums
  import opened RingMachine
  import opened EngineMachine
  import opened EngineSafety
  import opened EngineBooks
  import opened EngineRuns
  import opened EngineGate

  /** About to add to the counter, or to shut the gate. */
  predicate Pressing(pc: Point) { pc.AddSaturated? || pc.ShutGate? }

  /** One thread presses while another is about to subtract from the counter. */
  ghost predicate Crosses(e: Engine) {
    exists t, u :: 0 <= t < |e.points| && 0 <= u < |e.points| && Pressing(e.points[t]) && e.points[u].SubSaturated?
  }

  /** No state of the run has a crossing. */
  ghost predicate NeverCrosses(e: Engine, moves: seq<Move>)
    requires MovesRun(e, moves)
    decreases |moves|
  {
    !Crosses(e) && (|moves| > 0 ==> NeverCrosses(ApplyMove(e, moves[0]), moves[1..]))
  }

  /** A shut gate that nobody is about to open, with nobody about to uncount a shard, has a hot shard behind it. */
  ghost predicate Honest(e: Engine) {
    e.g.closed && (forall t :: 0 <= t < |e.points| ==> !Opening(e.points[t]))
    ==> exists i :: 0 <= i < |e.shards| && e.shards[i].hot
  }

  predicate Opening(pc: Point) { pc.OpenGate? || pc.SubSaturated? }

  // ----------------------------------------------------------------- without crossings

  /** Latches still to be counted are set, a thread shuts only over a nonzero counter, and zero has an opener. */
  ghost predicate Fair(e: Engine) {
    && Sum(e.points, AddingOf) <= Sum(e.shards, HotOf)
    && (forall t :: 0 <= t < |e.points| && e.points[t].ShutGate? ==> e.g.saturated != 0)
    && (e.g.closed && e.g.saturated == 0 ==> exists t :: 0 <= t < |e.points| && e.points[t].OpenGate?)
  }

  /** What one step does to the latch, the counter and the gate. */
  ghost predicate FairEffect(g: Globals, sh: Shard, pc: Point, f: Effect) {
    && (Hot(f.sh) - Hot(sh) >= Adding(f.pc) - Adding(pc) || f.pc.SubSaturated?)
    && (f.pc.ShutGate? ==> pc.AddSaturated? || (pc.Recheck? && g.saturated != 0))
    && (f.g.saturated != g.saturated ==> pc.AddSaturated? || pc.SubSaturated?)
    && (pc.AddSaturated? ==> f.g.saturated == Word64(g.saturated + 1))
    && (pc.SubSaturated? ==> f.g.saturated != 0 || f.pc.OpenGate?)
    && (f.g.closed ==> (g.closed && !pc.OpenGate?) || pc.ShutGate?)
  }

  lemma LocalFair(g: Globals, sh: Shard, pc: Point, t: nat, n: nat)
    requires Ready(sh, pc, t) && !pc.StopRunning?
    ensures FairEffect(g, sh, pc, Local(g, sh, pc, t, n))
  {
    hide Enter;
    hide Leave;
    hide Sized;
    hide RingMachine.Enabled;
    if InRing(pc) && Returned(sh.ring.pcs[t]) {
      AnswerFair(g, sh, pc, t);
      hide Answer;
    } else if InMark(pc) || InDrained(pc) {
      LatchFair(g, sh, pc, t);
      hide MarkStep;
      hide DrainedStep;
    } else {
      CallFair(g, sh, pc, t, n);
      hide ConsumeStep;
      hide PublishStep;
    }
  }

  lemma LatchFair(g: Globals, sh: Shard, pc: Point, t: nat)
    requires Ready(sh, pc, t)
    ensures InMark(pc) ==> FairEffect(g, sh, pc, MarkStep(g, sh, pc, t))
    ensures InDrained(pc) ==> FairEffect(g, sh, pc, DrainedStep(g, sh, pc, t))
  {
    hide Sized;
    hide RingMachine.Enabled;
    hide RingMachine.Apply;
  }

  lemma AnswerFair(g: Globals, sh: Shard, pc: Point, t: nat)
    requires Ready(sh, pc, t) && InRing(pc) && Returned(sh.ring.pcs[t])
    ensures FairEffect(g, sh, pc, Answer(g, sh, pc, t))
  {
    hide Sized;
    hide RingMachine.Enabled;
    hide RingMachine.Apply;
  }

  lemma CallFair(g: Globals, sh: Shard, pc: Point, t: nat, n: nat)
    requires Ready(sh, pc, t)
    ensures InConsume(pc) ==> FairEffect(g, sh, pc, ConsumeStep(g, sh, pc, t, n))
    ensures InPublishCall(pc) ==> FairEffect(g, sh, pc, PublishStep(g, sh, pc, t))
  {
    hide Sized;
    hide RingMachine.Enabled;
    hide RingMachine.Apply;
  }

  /** While nobody subtracts, and latches still to be counted are set, an addition makes the counter nonzero. */
  lemma AddingCounts(e: Engine, t: nat)
    requires EngineInv(e) && Fair(e) && !Crosses(e) && t < |e.points| && e.points[t].AddSaturated?
    ensures Word64(e.g.saturated + 1) != 0
  {
    CounterExact(e);
    hide EngineInv;
    hide Fair;
    forall u | 0 <= u < |e.points| ensures SubtractingOf(e.points[u]) == 0 {
      assert Pressing(e.points[t]);
    }
    SumZero(e.points, SubtractingOf);
    CountsBelow(e);
  }

  lemma CountsBelow(e: Engine)
    requires EngineInv(e) && Fair(e)
    ensures 0 <= Sum(e.shards, HotOf) - Sum(e.points, AddingOf) < TWO64 - 1
  {
    SumBounds(e.shards, HotOf);
    SumBounds(e.points, AddingOf);
  }

  lemma SteppedFair(e: Engine, t: nat, k: nat, f: Effect, e': Engine)
    requires Stepped(e, t, k, f, e') && FairEffect(e.g, e.shards[k], e.points[t], f)
    requires Fair(e) && !Crosses(e) && !Crosses(e')
    ensures Fair(e')
  {
    hide EngineInv;
    hide Sum;
    hide Sound;
    hide Balanced;
    hide Remembers;
    hide StaysOn;
    hide AtHome;
    if e.points[t].AddSaturated? {
      AddingCounts(e, t);
    }
    var pc := e.points[t];
    SteppedSums(e, t, k, f, e');
    assert e'.points[t] == f.pc && e'.g == f.g;
    assert forall u :: 0 <= u < |e.points| && u != t ==> e'.points[u] == e.points[u];
    hide Stepped;
    forall u | 0 <= u < |e'.points| && e'.points[u].ShutGate? ensures e'.g.saturated != 0 {
      if u != t {
        assert Pressing(e.points[u]);
      }
    }
    if e'.g.closed && e'.g.saturated == 0 && !f.pc.OpenGate? {
      assert e.g.closed && e.g.saturated == 0;
      var u :| 0 <= u < |e.points| && e.points[u].OpenGate?;
      assert e'.points[u].OpenGate?;
    } else if f.pc.OpenGate? {
      assert e'.points[t].OpenGate?;
    }
  }

  lemma SteppedSums(e: Engine, t: nat, k: nat, f: Effect, e': Engine)
    requires Stepped(e, t, k, f, e') && FairEffect(e.g, e.shards[k], e.points[t], f)
    requires Fair(e) && !Crosses(e')
    ensures Sum(e'.points, AddingOf) <= Sum(e'.shards, HotOf)
    ensures |e'.points| == |e.points| && t < |e.points|
  {
    SumUpdate(e.shards, k, f.sh, HotOf);
    SumUpdate(e.points, t, f.pc, AddingOf);
    hide EngineInv;
    hide Sound;
    hide Balanced;
    hide Remembers;
    if f.pc.SubSaturated? {
      NobodyAdds(e', t);
      SumBounds(e'.shards, HotOf);
    }
  }

  lemma NobodyAdds(e: Engine, t: nat)
    requires !Crosses(e) && t < |e.points| && e.points[t].SubSaturated?
    ensures Sum(e.points, AddingOf) == 0
  {
    forall u | 0 <= u < |e.points| ensures AddingOf(e.points[u]) == 0 {
      var pc := e.points[u];
      if Pressing(pc) {
        assert false;
      }
    }
    SumZero(e.points, AddingOf);
  }

  lemma KeepsFair(e: Engine, m: Move)
    requires EngineInv(e) && MoveEnabled(e, m) && Fair(e) && !Crosses(e)
        && !Crosses(ApplyMove(e, m))
    ensures Fair(ApplyMove(e, m))
  {
    var t := m.thread;
    if m.Start? || e.points[t].StopRunning? {
      StartFair(e, m);
    } else {
      var k, f := StepIs(e, t);
      LocalFair(e.g, e.shards[k], e.points[t], t, |e.shards|);
      hide *;
      SteppedFair(e, t, k, f, ApplyMove(e, m));
    }
  }

  lemma StartFair(e: Engine, m: Move)
    requires MoveEnabled(e, m) && Fair(e) && (m.Start? || e.points[m.thread].StopRunning?)
    ensures Fair(ApplyMove(e, m))
  {
    var t, e' := m.thread, ApplyMove(e, m);
    SumUpdate(e.points, t, e'.points[t], AddingOf);
    if e.g.closed && e.g.saturated == 0 {
      var u :| 0 <= u < |e.points| && e.points[u].OpenGate?;
      assert e'.points[u].OpenGate?;
    }
  }

  lemma FairIsHonest(e: Engine)
    requires EngineInv(e) && Fair(e)
    ensures Honest(e)
  {
    if e.g.closed && forall t :: 0 <= t < |e.points| ==> !Opening(e.points[t]) {
      CounterExact(e);
      SumZero(e.points, SubtractingOf);
      SumBounds(e.points, AddingOf);
      SumBounds(e.shards, HotOf);
      hide EngineInv;
      var i :| 0 <= i < |e.shards| && HotOf(e.shards[i]) == 1;
      assert e.shards[i].hot;
    }
  }

  /** In a run without crossings the gate is honest in every state. */
  lemma {:induction false} HonestWithoutCrossing(e: Engine, moves: seq<Move>)
    requires EngineInv(e) && Fair(e) && MovesRun(e, moves) && NeverCrosses(e, moves)
    ensures Fair(ExecMoves(e, moves)) && Honest(ExecMoves(e, moves))
    decreases |moves|
  {
    if |moves| == 0 {
      FairIsHonest(e);
    } else {
      KeepsEngineInv(e, moves[0]);
      KeepsFair(e, moves[0]);
      hide EngineInv;
      hide Fair;
      HonestWithoutCrossing(ApplyMove(e, moves[0]), moves[1..]);
    }
  }

  lemma InitFair(e: Engine)
    requires FreshEngine(e)
    ensures EngineInv(e) && Fair(e)
  {
    InitEngineInv(e);
    SumZero(e.points, AddingOf);
    SumBounds(e.shards, HotOf);
  }

  /** One thread alone never crosses with itself. */
  lemma {:induction false} OneThreadNeverCrosses(e: Engine, moves: seq<Move>)
    requires |e.points| <= 1 && MovesRun(e, moves)
    ensures NeverCrosses(e, moves)
    decreases |moves|
  {
    hide ApplyMove;
    hide MoveEnabled;
    hide Crosses;
    AloneNeverCrosses(e);
    if |moves| > 0 {
      OnePoint(e, moves[0]);
      OneThreadNeverCrosses(ApplyMove(e, moves[0]), moves[1..]);
    }
  }

  lemma AloneNeverCrosses(e: Engine)
    requires |e.points| <= 1
    ensures !Crosses(e)
  {
  }

  // ----------------------------------------------------------------- with a crossing

  /** A thread about to shut the gate leaves it shut. */
  lemma ShutThrough(e: Engine, moves0: seq<Move>, y: Engine, t: nat) returns (moves: seq<Move>, z: Engine)
    requires MovesRun(e, moves0) && y == ExecMoves(e, moves0)
    requires EngineInv(y) && t < |y.points| && y.points[t].ShutGate?
    ensures MovesRun(e, moves) && z == ExecMoves(e, moves) && EngineInv(z)
    ensures z.g.closed && z.g.saturated == y.g.saturated && z.shards == y.shards
    ensures z.points == y.points[t := Continue(y.points[t].next)]
  {
    hide EngineInv;
    hide MovesRun;
    hide ExecMoves;
    moves, z := LatchThen(e, moves0, y, t);
    if !y.g.closed {
      moves, z := LatchThen(e, moves, z, t);
    }
    assert z.points == y.points[t := Continue(y.points[t].next)];
    assert z.shards == y.shards;
  }

  /** A thread about to subtract does so, opens the gate if that brings the counter to zero, and goes on. */
  lemma SubThrough(e: Engine, moves0: seq<Move>, y: Engine, u: nat) returns (moves: seq<Move>, z: Engine)
    requires MovesRun(e, moves0) && y == ExecMoves(e, moves0)
    requires EngineInv(y) && u < |y.points| && y.points[u].SubSaturated?
    ensures MovesRun(e, moves) && z == ExecMoves(e, moves) && EngineInv(z)
    ensures z.g.saturated == Word64(y.g.saturated - 1) && z.shards == y.shards
    ensures z.points == y.points[u := Continue(y.points[u].next)]
  {
    hide EngineInv;
    hide MovesRun;
    hide ExecMoves;
    var next := y.points[u].next;
    moves, z := LatchThen(e, moves0, y, u);
    assert z.shards == y.shards;
    if z.g.saturated == 0 {
      assert z.points == y.points[u := OpenGate(next)];
      moves, z := OpenThrough(e, moves, z, u);
    }
    assert z.points == y.points[u := Continue(next)];
  }

  lemma OpenThrough(e: Engine, moves0: seq<Move>, y: Engine, u: nat) returns (moves: seq<Move>, z: Engine)
    requires MovesRun(e, moves0) && y == ExecMoves(e, moves0)
    requires EngineInv(y) && u < |y.points| && y.points[u].OpenGate? && y.g.saturated == 0
    ensures MovesRun(e, moves) && z == ExecMoves(e, moves) && EngineInv(z)
    ensures z.g.saturated == 0 && z.shards == y.shards && z.points == y.points[u := Continue(y.points[u].next)]
  {
    hide EngineInv;
    hide MovesRun;
    hide ExecMoves;
    var next := y.points[u].next;
    moves, z := LatchThen(e, moves0, y, u);
    if z.points[u].CountOpen? {
      moves, z := LatchThen(e, moves, z, u);
    }
    assert z.points == y.points[u := Recheck(next)] && z.shards == y.shards;
    moves, z := LatchThen(e, moves, z, u);
    assert z.points == y.points[u := Continue(next)];
    assert z.shards == y.shards;
  }

  /** Outside the latch's additions and subtractions, and not about to open. */
  predicate Apart(pc: Point) { !pc.AddSaturated? && !Opening(pc) }

  /**
   From any crossing, with nobody else in between, a run in which the late presser comes last ends with the gate shut
   and both threads out of the latch. The gate is then shut over no hot shard exactly if the crossing brings the counter
   to zero: in whichever order the counter is moved, and without its wrapping.
   */
  lemma CrossingShuts(e: Engine, t: nat, u: nat) returns (moves: seq<Move>, z: Engine)
    requires EngineInv(e) && t < |e.points| && u < |e.points| && Pressing(e.points[t]) && e.points[u].SubSaturated?
    requires forall v :: 0 <= v < |e.points| && v != t && v != u ==> Apart(e.points[v])
    ensures MovesRun(e, moves) && z == ExecMoves(e, moves)
    ensures z.g.closed && z.shards == e.shards && |z.points| == |e.points|
    ensures forall v :: 0 <= v < |z.points| ==> Apart(z.points[v])
    ensures !Honest(z) <==> e.g.saturated + Adding(e.points[t]) == 1
  {
    hide EngineInv;
    hide MovesRun;
    hide ExecMoves;
    hide Honest;
    hide Word64;
    CounterBelow(e);
    moves, z := AddThrough(e, t);
    var next, next' := e.points[u].next, z.points[t].next;
    moves, z := SubThrough(e, moves, z, u);
    moves, z := ShutThrough(e, moves, z, t);
    ContinueApart(next);
    ContinueApart(next');
    hide Apart;
    hide Continue;
    HonestExact(z);
    AddThenSub(e.g.saturated, Adding(e.points[t]));
  }

  lemma CounterBelow(e: Engine)
    requires EngineInv(e)
    ensures e.g.saturated < TWO64
  {
  }

  lemma AddThenSub(saturated: nat, adding: int)
    requires saturated < TWO64 && 0 <= adding <= 1
    ensures Word64(Word64(saturated + adding) - 1) == 0 <==> saturated + adding == 1
  {
  }

  lemma ContinueApart(next: Next)
    ensures Apart(Continue(next))
  {
  }

  /** A pressing thread counts its shard, if it has not yet, and is about to shut the gate. */
  lemma AddThrough(e: Engine, t: nat) returns (moves: seq<Move>, z: Engine)
    requires EngineInv(e) && t < |e.points| && Pressing(e.points[t])
    ensures MovesRun(e, moves) && z == ExecMoves(e, moves) && EngineInv(z)
    ensures z.g.saturated == Word64(e.g.saturated + Adding(e.points[t])) && z.shards == e.shards
    ensures t < |z.points| && z.points[t].ShutGate? && z.points == e.points[t := z.points[t]]
  {
    hide EngineInv;
    hide MovesRun;
    hide ExecMoves;
    NoMoves(e);
    CounterBelow(e);
    moves, z := [], e;
    if e.points[t].AddSaturated? {
      moves, z := LatchThen(e, moves, z, t);
      assert z.shards == e.shards;
    }
  }

  /** With nobody between counting and uncounting, a shut gate is honest exactly if the counter is not zero. */
  lemma HonestExact(e: Engine)
    requires EngineInv(e) && e.g.closed && forall t :: 0 <= t < |e.points| ==> Apart(e.points[t])
    ensures Honest(e) <==> e.g.saturated != 0
  {
    CounterExact(e);
    SumZero(e.points, AddingOf);
    SumZero(e.points, SubtractingOf);
    SumBounds(e.shards, HotOf);
    hide EngineInv;
    if e.g.saturated != 0 {
      var i :| 0 <= i < |e.shards| && HotOf(e.shards[i]) == 1;
      assert e.shards[i].hot;
    } else {
      forall i | 0 <= i < |e.shards| ensures !e.shards[i].hot {
        assert HotOf(e.shards[i]) == 0;
      }
    }
  }
}
