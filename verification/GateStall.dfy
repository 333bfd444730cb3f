/**
 A stalled engine: a shard is hot and empty, the gate is shut, and every consumer is past its check. Publishes are
 refused and workers poll in vain, so nothing but a drain or Close ends it; and any fresh engine of two or more
 threads can get there.
 */
module GateStall {
  import opened Bits
  import opened Hysteresis
  import opened Slots
  import opened Sums
  import opened RingMachine
  import opened RingSafety
  import opened RingProgress
  import opened EngineMachine
  import opened EngineSafety
  import opened EngineBooks
  import opened EngineGate
  import opened EngineScenes
  import opened EngineStall

  /**
   Not about to accept a record, to drain, to open the gate, or to check shard i; c is the thread's pc in its ring.
   */
  predicate Futile(pc: Point, c: Pc, i: nat) {
    match pc
    case Off => true
    case WorkDone(_) => true
    case CheckRunning(_) => true
    case CheckGate(_) => true
    case Refuse => true
    case WorkRunning(_) => true
    case WorkTop(k, n) => k == i ==> n == 0
    case WorkDequeue(k, n) => k == i ==> n == 0 && !Holding(c)
    case ReadHot(k, next) => k != i && !next.Sweep?
    case GaugeDrained(k, next) => k != i && !next.Sweep?
    case ClearHot(k, next) => k != i && !next.Sweep?
    case SubSaturated(next) => !next.Sweep?
    case CountOpen(next) => !next.Sweep?
    case Recheck(next) => !next.Sweep?
    case ShutGate(next) => !next.Sweep?
    case CountClose(next) => !next.Sweep?
    case _ => false
  }

  /** Shard i is hot and empty, the gate is shut, and nobody is about to change that. */
  ghost predicate Stalled(e: Engine, i: nat) {
    && EngineInv(e) && i < |e.shards| && ShardShape(e, i)
    && e.shards[i].hot && e.shards[i].ring.head == e.shards[i].ring.tail
    && e.g.closed && e.g.running
    && forall t :: 0 <= t < |e.points| ==> Futile(e.points[t], e.shards[i].ring.pcs[t], i)
  }

  lemma StalledIsUntended(e: Engine, i: nat)
    requires Stalled(e, i)
    ensures !Tended(e, i)
  {
    hide EngineInv;
    hide Inv;
    hide Percent;
    var r := e.shards[i].ring;
    forall t | 0 <= t < |e.points| ensures !Attends(e.points[t], r.pcs[t], r, e.g.low, i) {
      assert Futile(e.points[t], r.pcs[t], i);
    }
  }

  // ----------------------------------------------------------------- it lasts

  /** A worker of an empty ring takes nothing. */
  lemma PollsInVain(r: Ring, pc: Point, t: nat)
    requires Inv(r) && RingMachine.Enabled(r, Step(t)) && pc.WorkDequeue? && Matches(pc, r.pcs[t])
    requires r.head == r.tail && !Holding(r.pcs[t])
    ensures var r' := RingMachine.StepOf(r, t);
      r'.head == r'.tail && t < |r'.pcs| && !Holding(r'.pcs[t])
  {
    hide Slot;
    hide CellOk;
    assert ThreadOk(r, t);
    hide Inv;
  }

  /** What the stall relies on in the globals. */
  ghost predicate Frozen(g: Globals, f: Effect) {
    f.g.closed && f.g.running && f.g.ticket == g.ticket
  }

  lemma FutileAnswer(g: Globals, sh: Shard, pc: Point, t: nat, n: nat, i: nat, c: Pc)
    requires Ready(sh, pc, t) && InRing(pc) && Returned(sh.ring.pcs[t])
    requires g.closed && g.running && Futile(pc, c, i) && (pc.shard == i ==> c == sh.ring.pcs[t])
    ensures var f := Answer(g, sh, pc, t);
      && Frozen(g, f) && f.sh.hot == sh.hot && f.sh.ring.head == sh.ring.head && f.sh.ring.tail == sh.ring.tail
      && t < |f.sh.ring.pcs| && forall c' :: Futile(f.pc, c', i)
  {
    hide Sized;
    hide Percent;
    hide RingMachine.Enabled;
  }

  /** What a step outside the rings leaves of the stall. */
  ghost predicate OutsideFutile(g: Globals, sh: Shard, pc: Point, t: nat, i: nat, c: Pc, f: Effect) {
    && Frozen(g, f) && (f.sh.hot == sh.hot || (pc.ClearHot? && pc.shard != i))
    && f.sh.ring.head == sh.ring.head && f.sh.ring.tail == sh.ring.tail
    && t < |f.sh.ring.pcs| && (Futile(f.pc, c, i) || f.pc.WorkDequeue?)
    && (f.pc.WorkDequeue? ==> pc.WorkTop? && f.pc == WorkDequeue(pc.shard, pc.n) && f.sh.ring.pcs[t] == DeqLoadHead)
  }

  lemma FutileLatch(g: Globals, sh: Shard, pc: Point, t: nat, i: nat, c: Pc)
    requires Ready(sh, pc, t) && (InMark(pc) || InDrained(pc))
    requires g.closed && g.running && Futile(pc, c, i) && (pc.SubSaturated? ==> Word64(g.saturated - 1) != 0)
    ensures InMark(pc) ==> OutsideFutile(g, sh, pc, t, i, c, MarkStep(g, sh, pc, t))
    ensures InDrained(pc) ==> OutsideFutile(g, sh, pc, t, i, c, DrainedStep(g, sh, pc, t))
  {
    hide Sized;
    hide RingMachine.Enabled;
    if pc.ReadHot? {
      EntersQuietly(sh, t);
    }
    hide RingMachine.Apply;
    hide Enter;
  }

  lemma EntersQuietly(sh: Shard, t: nat)
    requires Sized(sh.ring) && t < |sh.ring.pcs| && sh.ring.pcs[t].Idle?
    ensures RingMachine.Enabled(sh.ring, Invoke(t, Pending))
    ensures var sh' := Enter(sh, t, Pending);
      && sh'.ring.head == sh.ring.head && sh'.ring.tail == sh.ring.tail && |sh'.ring.pcs| == |sh.ring.pcs|
      && sh'.hot == sh.hot
  {
  }

  lemma FutileCall(g: Globals, sh: Shard, pc: Point, t: nat, n: nat, i: nat, c: Pc)
    requires Ready(sh, pc, t) && g.closed && g.running && Futile(pc, c, i)
    ensures InPublishCall(pc) ==> OutsideFutile(g, sh, pc, t, i, c, PublishStep(g, sh, pc, t))
    ensures InConsume(pc) ==> OutsideFutile(g, sh, pc, t, i, c, ConsumeStep(g, sh, pc, t, n))
  {
    hide Sized;
    hide RingMachine.Enabled;
  }

  lemma FutileOutside(g: Globals, sh: Shard, pc: Point, t: nat, n: nat, i: nat, c: Pc)
    requires Ready(sh, pc, t) && !InRing(pc) && !pc.StopRunning?
    requires g.closed && g.running && Futile(pc, c, i) && (pc.SubSaturated? ==> Word64(g.saturated - 1) != 0)
    ensures OutsideFutile(g, sh, pc, t, i, c, Local(g, sh, pc, t, n))
  {
    hide Sized;
    hide RingMachine.Enabled;
    hide MarkStep;
    hide DrainedStep;
    hide PublishStep;
    hide ConsumeStep;
    if InMark(pc) || InDrained(pc) {
      FutileLatch(g, sh, pc, t, i, c);
    } else {
      FutileCall(g, sh, pc, t, n, i, c);
    }
  }

  /** A step on the stalled shard itself. */
  lemma FutileOwn(g: Globals, sh: Shard, pc: Point, t: nat, n: nat)
    requires Before(g, sh, pc, t, n) && !pc.StopRunning? && g.closed && g.running && sh.hot
    requires Futile(pc, sh.ring.pcs[t], ShardOf(n, pc)) && sh.ring.head == sh.ring.tail
    requires pc.SubSaturated? ==> Word64(g.saturated - 1) != 0
    ensures var f := Local(g, sh, pc, t, n);
      && Frozen(g, f) && f.sh.hot && f.sh.ring.head == f.sh.ring.tail
      && t < |f.sh.ring.pcs| && Futile(f.pc, f.sh.ring.pcs[t], ShardOf(n, pc))
  {
    hide Inv;
    hide Helped;
    hide Answer;
    hide RingMachine.StepOf;
    if InRing(pc) && !Returned(sh.ring.pcs[t]) {
      PollsInVain(sh.ring, pc, t);
    } else if InRing(pc) {
      FutileAnswer(g, sh, pc, t, n, ShardOf(n, pc), sh.ring.pcs[t]);
    } else {
      FutileOutside(g, sh, pc, t, n, ShardOf(n, pc), sh.ring.pcs[t]);
      hide Local;
    }
  }

  /** A step on another shard. */
  lemma FutileOther(g: Globals, sh: Shard, pc: Point, t: nat, n: nat, i: nat, c: Pc)
    requires Before(g, sh, pc, t, n) && !pc.StopRunning? && g.closed && g.running && i != ShardOf(n, pc)
    requires Futile(pc, c, i) && (pc.SubSaturated? ==> Word64(g.saturated - 1) != 0)
    ensures var f := Local(g, sh, pc, t, n); Frozen(g, f) && Futile(f.pc, c, i)
  {
    hide Inv;
    hide Helped;
    hide Answer;
    hide RingMachine.StepOf;
    if InRing(pc) && !Returned(sh.ring.pcs[t]) {
    } else if InRing(pc) {
      FutileAnswer(g, sh, pc, t, n, i, c);
    } else {
      FutileOutside(g, sh, pc, t, n, i, c);
      hide Local;
    }
  }

  /** The stalled shard is counted, so no subtraction for another one brings the counter to zero. */
  lemma StalledCounter(e: Engine, t: nat, i: nat)
    requires Stalled(e, i) && t < |e.points| && e.points[t].SubSaturated?
    ensures Word64(e.g.saturated - 1) != 0
  {
    hide EngineInv;
    hide Inv;
    hide Sum;
    hide Word64;
    CounterExact(e);
    SumBounds(e.shards, HotOf);
    SumBounds(e.points, SubtractingOf);
    assert HotOf(e.shards[i]) == 1 && SubtractingOf(e.points[t]) == 1;
    forall u | 0 <= u < |e.points| ensures AddingOf(e.points[u]) == 0 {
      assert Futile(e.points[u], e.shards[i].ring.pcs[u], i);
    }
    SumZero(e.points, AddingOf);
    FitsOf(e);
    AboveOne(Sum(e.shards, HotOf) + Sum(e.points, SubtractingOf));
  }

  lemma FitsOf(e: Engine)
    requires EngineInv(e)
    ensures |e.shards| + |e.points| < TWO63
  {
  }

  lemma AboveOne(n: int)
    requires 2 <= n < TWO63
    ensures 0 <= Word64(n) && Word64(Word64(n) - 1) != 0
  {
  }

  lemma SteppedStalled(e: Engine, t: nat, k: nat, f: Effect, e': Engine, i: nat)
    requires Stalled(e, i) && Stepped(e, t, k, f, e') && Frozen(e.g, f) && EngineInv(e') && ShardShape(e', i)
    requires k == i ==> f.sh.hot && f.sh.ring.head == f.sh.ring.tail && Futile(f.pc, f.sh.ring.pcs[t], i)
    requires k != i ==> Futile(f.pc, e.shards[i].ring.pcs[t], i)
    ensures Stalled(e', i)
  {
    hide EngineInv;
    hide Balanced;
    hide Remembers;
    hide RingOk;
    hide Inv;
    hide Matches;
    hide Futile;
    forall u | 0 <= u < |e'.points| ensures Futile(e'.points[u], e'.shards[i].ring.pcs[u], i) {
      assert Futile(e.points[u], e.shards[i].ring.pcs[u], i);
    }
  }

  lemma GoStalled(e: Engine, t: nat, i: nat)
    requires Stalled(e, i) && MoveEnabled(e, Go(t))
    ensures var e' := ApplyMove(e, Go(t)); Stalled(e', i) && e'.g.ticket == e.g.ticket
  {
    assert Futile(e.points[t], e.shards[i].ring.pcs[t], i);
    hide EngineInv;
    hide Local;
    hide Ready;
    hide Before;
    hide Sound;
    hide Balanced;
    hide Remembers;
    hide AtHome;
    hide Inv;
    assert !e.points[t].StopRunning?;
    var k, f := StepIs(e, t);
    StepReady(e, t);
    KeepsEngineInv(e, Go(t));
    if e.points[t].SubSaturated? {
      StalledCounter(e, t, i);
    }
    if k == i {
      FutileOwn(e.g, e.shards[k], e.points[t], t, |e.shards|);
    } else {
      FutileOther(e.g, e.shards[k], e.points[t], t, |e.shards|, i, e.shards[i].ring.pcs[t]);
    }
    hide Futile;
    hide ApplyMove;
    hide Stalled;
    Shaped(ApplyMove(e, Go(t)), i);
    SteppedStalled(e, t, k, f, ApplyMove(e, Go(t)), i);
  }

  /** Starts a drain, or Close. */
  predicate Rescues(m: Move) { m.Start? && (m.task.Drain? || m.task.Close?) }

  lemma StartStalled(e: Engine, m: Move, i: nat)
    requires Stalled(e, i) && MoveEnabled(e, m) && m.Start? && !Rescues(m)
    ensures var e' := ApplyMove(e, m); Stalled(e', i) && e'.g.ticket == e.g.ticket
  {
    KeepsEngineInv(e, m);
    hide EngineInv;
    hide Inv;
    var e' := ApplyMove(e, m);
    forall u | 0 <= u < |e'.points| ensures Futile(e'.points[u], e'.shards[i].ring.pcs[u], i) {
      assert Futile(e.points[u], e.shards[i].ring.pcs[u], i);
    }
  }

  /** A stalled engine stays stalled, and accepts nothing, until somebody starts a drain or Close. */
  lemma {:induction false} StallLasts(e: Engine, moves: seq<Move>, i: nat)
    requires Stalled(e, i) && MovesRun(e, moves) && forall m :: m in moves ==> !Rescues(m)
    ensures Stalled(ExecMoves(e, moves), i) && ExecMoves(e, moves).g.ticket == e.g.ticket
    decreases |moves|
  {
    hide Stalled;
    hide ApplyMove;
    hide MoveEnabled;
    if |moves| > 0 {
      var m := moves[0];
      assert m in moves;
      if m.Start? {
        StartStalled(e, m, i);
      } else {
        GoStalled(e, m.thread, i);
      }
      StallLasts(ApplyMove(e, m), moves[1..], i);
    }
  }

  // ----------------------------------------------------------------- how to get there

  /** A worker of a cold shard takes record after record and finds the latch cold each time, down to the empty ring. */
  lemma {:induction false} WorksOff(e: Engine, moves0: seq<Move>, z0: Engine, s: Scene, t: nat)
    returns (moves: seq<Move>, z: Engine, s': Scene)
    requires Stage(e, moves0, z0, s) && t < |s.points| && !s.hot
    requires s.points[t].WorkTop? && s.points[t].shard == 0
    ensures s.head <= s.tail && s' == s.(head := s.tail).Move(t, WorkRunning(0))
    ensures Stage(e, moves, z, s')
    decreases if s.head <= s.tail then s.tail - s.head else 0, s.points[t].n
  {
    hide Stage;
    moves, z, s' := Takes(e, moves0, z0, s, t);
    if s'.points[t].ReadHot? {
      var at := s'.points[t];
      moves, z := Passes(e, moves, z, s', t);
      s' := s'.Move(t, Continue(at.next));
      assert s'.points == s.points[t := WorkTop(0, 0)];
    }
    if s'.points[t].WorkTop? {
      moves, z, s' := WorksOff(e, moves, z, s', t);
    }
  }

  /** The producer counts the shard it has latched, shuts the gate and returns. */
  lemma Marks(e: Engine, moves0: seq<Move>, z0: Engine, s: Scene, t: nat)
    returns (moves: seq<Move>, z: Engine, s': Scene)
    requires Stage(e, moves0, z0, s) && t < |s.points| && s.points[t].AddSaturated? && !s.g.closed
    ensures s' == s.(g := s.g.(saturated := Word64(s.g.saturated + 1), closed := true,
        closes := s.g.closes + 1)).Move(t, Off)
    ensures Stage(e, moves, z, s')
  {
    hide Stage;
    moves, z, s' := MarkOnce(e, moves0, z0, s, t);
    moves, z, s' := MarkOnce(e, moves, z, s', t);
    moves, z, s' := MarkOnce(e, moves, z, s', t);
    assert s'.points == s.points[t := Off];
  }

  lemma MarkOnce(e: Engine, moves0: seq<Move>, z0: Engine, s: Scene, t: nat)
    returns (moves: seq<Move>, z: Engine, s': Scene)
    requires Stage(e, moves0, z0, s) && t < |s.points|
    requires s.points[t].AddSaturated? || s.points[t].ShutGate? || s.points[t].CountClose?
    ensures s' == match s.points[t]
      case AddSaturated => s.(g := s.g.(saturated := Word64(s.g.saturated + 1))).Move(t, ShutGate(Finish))
      case ShutGate(next) =>
        if s.g.closed then s.Move(t, Continue(next)) else s.(g := s.g.(closed := true)).Move(t, CountClose(next))
      case CountClose(next) => s.(g := s.g.(closes := s.g.closes + 1)).Move(t, Continue(next))
    ensures Stage(e, moves, z, s')
  {
    hide Stage;
    hide Sized;
    Shapes(e, moves0, z0, s);
    SameRing(e, moves0, z0, s);
    moves, z := Steps(e, moves0, z0, s, t);
    s' := match s.points[t]
      case AddSaturated => s.(g := s.g.(saturated := Word64(s.g.saturated + 1))).Move(t, ShutGate(Finish))
      case ShutGate(next) =>
        if s.g.closed then s.Move(t, Continue(next)) else s.(g := s.g.(closed := true)).Move(t, CountClose(next))
      case CountClose(next) => s.(g := s.g.(closes := s.g.closes + 1)).Move(t, Continue(next));
  }

  lemma SceneStalled(e: Engine, moves: seq<Move>, z: Engine, s: Scene)
    requires Stage(e, moves, z, s) && s.hot && s.head == s.tail && s.g.closed && s.g.running
    requires forall u :: 0 <= u < |s.points| ==> s.points[u].Off? || s.points[u].WorkRunning?
    ensures MovesRun(e, moves) && z == ExecMoves(e, moves) && Stalled(z, 0)
  {
    hide MovesRun;
    hide ExecMoves;
    hide EngineInv;
    Shaped(z, 0);
  }

  /**
   From any fresh engine of two or more threads: a producer fills shard 0 to the high mark, and reads that; its worker
   empties the shard, finding it cold; the producer latches it and shuts the gate.
   */
  lemma CanStall(e: Engine, call: Call) returns (moves: seq<Move>, z: Engine)
    requires FreshEngine(e) && 2 <= |e.points|
    requires call.shard == 0 && call.key != 0 && |call.payload| <= e.shards[0].ring.payloadCap
    ensures MovesRun(e, moves) && z == ExecMoves(e, moves) && Stalled(z, 0)
  {
    hide Stage;
    hide Percent;
    hide FreshEngine;
    hide Stalled;
    var s := Fresh(e);
    moves, z, s := FillsUp(e, [], e, s, 0, call);
    moves, z := Starting(e, moves, z, s, 1, Worker(0));
    s := s.Move(1, WorkTop(0, 0));
    moves, z, s := WorksOff(e, moves, z, s, 1);
    moves, z := Latches(e, moves, z, s, 0);
    s := s.(hot := true).Move(0, AddSaturated);
    moves, z, s := Marks(e, moves, z, s, 0);
    SceneStalled(e, moves, z, s);
  }

  // ----------------------------------------------------------------- one thread alone

  /** What a producer that is alone knows of the shard it is working on: its latch comes with records in the ring. */
  predicate Knows(pc: Point, c: Pc, r: Ring) {
    match pc
    case LatchHot(_) => r.head < r.tail
    case CountDropped(_) => r.head < r.tail
    case InPublish(_) => c.ClaimFull? ==> r.head < r.tail
    case Gauge(_) => (c.PendLoadTail? ==> c.h == r.head) && (c.PendingIs? ==> c.n <= r.tail - r.head)
    case _ => true
  }

  predicate Knower(pc: Point) { pc.LatchHot? || pc.CountDropped? || pc.InPublish? || pc.Gauge? }

  ghost predicate Lone(e: Engine) {
    && EngineInv(e) && |e.points| <= 1 && 0 < e.g.high
    && (|e.points| == 1 ==> KnowsItsShard(e, ShardOf(|e.shards|, e.points[0])))
  }

  ghost predicate KnowsItsShard(e: Engine, k: nat)
    requires |e.points| == 1
  {
    k < |e.shards| && |e.shards[k].ring.pcs| == 1 && Knows(e.points[0], e.shards[k].ring.pcs[0], e.shards[k].ring)
  }

  /** With nobody else in the ring, a full one has records in it. */
  lemma FullHasRecords(r: Ring)
    requires Inv(r) && |r.pcs| == 1 && RingMachine.Enabled(r, Step(0)) && r.pcs[0].ClaimLoadSeq?
    requires RingMachine.StepOf(r, 0).pcs[0].ClaimFull?
    ensures r.head < r.tail
  {
    hide Slot;
    hide CellOk;
    hide ThreadOk;
    FullIsExact(r, 0);
  }

  lemma KnowsRingStep(r: Ring, pc: Point)
    requires Inv(r) && |r.pcs| == 1 && RingMachine.Enabled(r, Step(0)) && Matches(pc, r.pcs[0]) && Knower(pc)
    requires Knows(pc, r.pcs[0], r)
    ensures var r' := RingMachine.StepOf(r, 0); |r'.pcs| == 1 && Knows(pc, r'.pcs[0], r')
  {
    hide Slot;
    hide CellOk;
    hide ThreadOk;
    if r.pcs[0].ClaimLoadSeq? && RingMachine.StepOf(r, 0).pcs[0].ClaimFull? {
      FullHasRecords(r);
    }
    hide Inv;
  }

  lemma KnowsAnswer(g: Globals, sh: Shard, pc: Point, t: nat)
    requires Ready(sh, pc, 0) && InRing(pc) && Returned(sh.ring.pcs[0]) && |sh.ring.pcs| == 1 && 0 < g.high
    requires Knows(pc, sh.ring.pcs[0], sh.ring) && 0 < sh.ring.capacity
    ensures var f := Answer(g, sh, pc, 0);
      && f.g == g && |f.sh.ring.pcs| == 1 && Knows(f.pc, f.sh.ring.pcs[0], f.sh.ring)
      && (Knower(f.pc) ==> pc.shard == f.pc.shard)
  {
    hide Sized;
    ZeroPercent(sh.ring.capacity);
    hide Percent;
    hide RingMachine.Enabled;
  }

  ghost predicate StillKnows(g: Globals, pc: Point, n: nat, f: Effect) {
    && f.g.high == g.high && |f.sh.ring.pcs| == 1 && Knows(f.pc, f.sh.ring.pcs[0], f.sh.ring)
    && (Knower(f.pc) ==> ShardOf(n, pc) == f.pc.shard)
  }

  lemma KnowsLatch(g: Globals, sh: Shard, pc: Point, n: nat)
    requires Ready(sh, pc, 0) && |sh.ring.pcs| == 1 && Knows(pc, sh.ring.pcs[0], sh.ring)
    ensures InMark(pc) ==> StillKnows(g, pc, n, MarkStep(g, sh, pc, 0))
    ensures InDrained(pc) ==> StillKnows(g, pc, n, DrainedStep(g, sh, pc, 0))
  {
    hide Sized;
    hide RingMachine.Enabled;
  }

  lemma KnowsCall(g: Globals, sh: Shard, pc: Point, n: nat)
    requires Ready(sh, pc, 0) && |sh.ring.pcs| == 1 && Knows(pc, sh.ring.pcs[0], sh.ring)
    ensures InPublishCall(pc) ==> StillKnows(g, pc, n, PublishStep(g, sh, pc, 0))
    ensures InConsume(pc) ==> StillKnows(g, pc, n, ConsumeStep(g, sh, pc, 0, n))
  {
    hide Sized;
    hide RingMachine.Enabled;
  }

  lemma KnowsOutside(g: Globals, sh: Shard, pc: Point, n: nat)
    requires Ready(sh, pc, 0) && !InRing(pc) && !pc.StopRunning? && |sh.ring.pcs| == 1
    requires Knows(pc, sh.ring.pcs[0], sh.ring)
    ensures StillKnows(g, pc, n, Local(g, sh, pc, 0, n))
  {
    hide Sized;
    hide RingMachine.Enabled;
    hide MarkStep;
    hide DrainedStep;
    hide PublishStep;
    hide ConsumeStep;
    if InMark(pc) || InDrained(pc) {
      KnowsLatch(g, sh, pc, n);
    } else {
      KnowsCall(g, sh, pc, n);
    }
  }

  lemma KnowsLocal(g: Globals, sh: Shard, pc: Point, n: nat)
    requires Before(g, sh, pc, 0, n) && !pc.StopRunning? && |sh.ring.pcs| == 1 && 0 < g.high
    requires Knows(pc, sh.ring.pcs[0], sh.ring) && 0 < sh.ring.capacity
    ensures StillKnows(g, pc, n, Local(g, sh, pc, 0, n))
  {
    hide Inv;
    hide Helped;
    hide Answer;
    hide RingMachine.StepOf;
    if InRing(pc) && !Returned(sh.ring.pcs[0]) {
      if Knower(pc) {
        KnowsRingStep(sh.ring, pc);
      }
    } else if InRing(pc) {
      KnowsAnswer(g, sh, pc, 0);
    } else {
      KnowsOutside(g, sh, pc, n);
      hide Local;
    }
  }

  lemma LoneStart(e: Engine, m: Move)
    requires Lone(e) && MoveEnabled(e, m) && (m.Start? || e.points[0].StopRunning?) && EngineInv(ApplyMove(e, m))
    ensures Lone(ApplyMove(e, m)) && !LatchesUntended(e, m)
  {
    hide EngineInv;
    hide Inv;
    hide Local;
    hide Ready;
    Shaped(e, ShardOf(|e.shards|, ApplyMove(e, m).points[0]));
  }

  lemma LoneGo(e: Engine)
    requires Lone(e) && MoveEnabled(e, Go(0)) && !e.points[0].StopRunning? && EngineInv(ApplyMove(e, Go(0)))
    ensures Lone(ApplyMove(e, Go(0))) && !LatchesUntended(e, Go(0))
  {
    assert !e.points[0].Off? && !e.points[0].WorkDone?;
    hide EngineInv;
    hide Inv;
    hide MoveEnabled;
    hide ApplyMove;
    hide Local;
    hide Ready;
    hide Before;
    hide Sound;
    hide Balanced;
    hide Remembers;
    hide AtHome;
    var e' := ApplyMove(e, Go(0));
    var k, f := StepIs(e, 0);
    StepReady(e, 0);
    Shaped(e, k);
    KnowsLocal(e.g, e.shards[k], e.points[0], |e.shards|);
    ShardOfOk(e', 0);
    Shaped(e', ShardOf(|e'.shards|, e'.points[0]));
  }

  lemma ShardOfOk(e: Engine, t: nat)
    requires EngineInv(e) && t < |e.points|
    ensures ShardOf(|e.shards|, e.points[t]) < |e.shards|
  {
  }

  lemma LoneStep(e: Engine, m: Move)
    requires Lone(e) && MoveEnabled(e, m)
    ensures Lone(ApplyMove(e, m)) && !LatchesUntended(e, m)
  {
    assert |e.points| == 1 && m.thread == 0 && EngineInv(e);
    hide EngineInv;
    hide Lone;
    hide MoveEnabled;
    hide ApplyMove;
    hide LatchesUntended;
    KeepsEngineInv(e, m);
    if m.Start? || e.points[0].StopRunning? {
      LoneStart(e, m);
    } else {
      assert m == Go(0);
      LoneGo(e);
    }
  }

  lemma {:induction false} LoneTended(e: Engine, moves: seq<Move>)
    requires Lone(e) && AllTended(e) && MovesRun(e, moves)
    ensures AllTended(ExecMoves(e, moves))
    decreases |moves|
  {
    if |moves| > 0 {
      assert EngineInv(e);
      hide Lone;
      hide EngineInv;
      hide AllTended;
      hide LatchesUntended;
      hide ApplyMove;
      hide MoveEnabled;
      LoneStep(e, moves[0]);
      TendedExact(e, moves[0]);
      LoneTended(ApplyMove(e, moves[0]), moves[1..]);
    }
  }

  lemma InitLone(e: Engine)
    requires FreshEngine(e) && |e.points| <= 1
    ensures Lone(e) && AllTended(e)
  {
    InitTended(e);
    if |e.points| == 1 {
      Shaped(e, ShardOf(|e.shards|, e.points[0]));
    }
    hide EngineInv;
    hide Inv;
    hide Tended;
  }

  /** Over all runs of a fresh engine, every hot shard is tended exactly if at most one thread uses the engine. */
  lemma TendedIffOneThread(e: Engine)
    requires FreshEngine(e)
    ensures (forall moves :: MovesRun(e, moves) ==> AllTended(ExecMoves(e, moves))) <==> |e.points| <= 1
  {
    assert 0 < |e.shards|;
    hide MovesRun;
    hide ExecMoves;
    hide FreshEngine;
    hide Lone;
    if |e.points| <= 1 {
      InitLone(e);
      hide AllTended;
      forall moves | MovesRun(e, moves) ensures AllTended(ExecMoves(e, moves)) {
        LoneTended(e, moves);
      }
    } else {
      var moves, z := CanStall(e, Call(0, 1, 0, [], 0));
      StalledIsUntended(z, 0);
      hide EngineInv;
      hide Tended;
    }
  }
}
