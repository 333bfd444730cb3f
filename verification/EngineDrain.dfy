/**
 Termination of the worker loop. After Close has cleared running and the last publish under way has left its ring,
 a worker's own steps are bounded by a number computed from the state, whatever the other threads do meanwhile.
 */
module EngineDrain {
  import opened Records
  import opened Slots
  import opened RingMachine
  import opened RingSafety
  import opened RingProgress
  import opened EngineMachine
  import opened EngineSafety
  import opened EngineBooks

  /** Past the running check, or inside the ring on behalf of a publish. */
  predicate Ingesting(pc: Point) { pc.CheckGate? || pc.DrawTicket? || pc.InPublish? }

  ghost predicate Quiet(e: Engine) {
    !e.g.running && forall t :: 0 <= t < |e.points| ==> !Ingesting(e.points[t])
  }

  /** Thread at pc is the worker of shard i and has not returned. */
  predicate Works(pc: Point, i: nat) {
    match pc
    case WorkTop(k, _) => k == i
    case WorkDequeue(k, _) => k == i
    case WorkRunning(k) => k == i
    case WorkPending(k) => k == i
    case ReadHot(k, next) => k == i && next == Batch(i)
    case GaugeDrained(k, next) => k == i && next == Batch(i)
    case ClearHot(k, next) => k == i && next == Batch(i)
    case SubSaturated(next) => next == Batch(i)
    case OpenGate(next) => next == Batch(i)
    case CountOpen(next) => next == Batch(i)
    case Recheck(next) => next == Batch(i)
    case ShutGate(next) => next == Batch(i)
    case CountClose(next) => next == Batch(i)
    case _ => false
  }

  // ----------------------------------------------------------------- the measure

  /** The head value the thread's current attempt started from. */
  function Base(r: Ring, c: Pc): int {
    if c.DeqLoadCommit? || c.DeqCas? then c.pos
    else if c.PendLoadTail? then c.h
    else if c.PendingIs? then c.upTo - c.n
    else r.head
  }

  /** Positions still to be taken, as far as the thread knows. */
  function Left(r: Ring, t: nat): int
    requires t < |r.pcs|
  {
    r.tail - Base(r, r.pcs[t])
  }

  /** How far the thread is from its next take, if records remain (more), and from its return, if none do. */
  function Stage(pc: Point, c: Pc, more: bool, cap: nat): int {
    match pc
    case WorkDequeue(_, n) => DequeueStage(c, n, more, cap)
    case WorkTop(_, n) => if more then 20 else if n > 0 then 90 else 60
    case WorkRunning(_) => if more then 50 else 55
    case WorkPending(_) => PendingStage(c) + if more then 47 else 52
    case ReadHot(_, _) => if more then 40 else 80
    case GaugeDrained(_, _) => PendingStage(c) + if more then 37 else 77
    case ClearHot(_, _) => if more then 36 else 76
    case SubSaturated(_) => if more then 35 else 75
    case OpenGate(_) => if more then 34 else 74
    case CountOpen(_) => if more then 33 else 73
    case Recheck(_) => if more then 32 else 72
    case ShutGate(_) => if more then 31 else 71
    case CountClose(_) => if more then 30 else 70
    case _ => 0
  }

  function DequeueStage(c: Pc, n: nat, more: bool, cap: nat): int {
    match c
    case DeqConfirm(_) => 120 + cap
    case Reading(_, buf) => 110 + cap - (if |buf| <= HEADER_WORDS + cap then |buf| else HEADER_WORDS + cap)
    case Releasing(_) => 102
    case Released(_) => 101
    case DeqLoadHead => if more then 19 else if n > 0 then 89 else 59
    case DeqLoadCommit(_) => if more then 18 else if n > 0 then 88 else 58
    case DeqCas(_) => 17
    case DeqEmpty => if more then 60 else if n > 0 then 86 else 56
    case _ => 0
  }

  function PendingStage(c: Pc): (k: int)
    ensures 0 <= k <= 2
  {
    if c.PendLoadHead? then 2 else if c.PendLoadTail? then 1 else 0
  }

  /** Lexicographic: fewer positions left, or as many and a lower stage. */
  predicate Lower(left': int, stage': int, left: int, stage: int) {
    left' < left || (left' == left && stage' < stage)
  }

  function StageIn(sh: Shard, pc: Point, t: nat): int
    requires t < |sh.ring.pcs|
  {
    Stage(pc, sh.ring.pcs[t], Left(sh.ring, t) > 0, sh.ring.payloadCap)
  }

  lemma StageBounds(sh: Shard, pc: Point, t: nat)
    requires t < |sh.ring.pcs|
    ensures 0 <= StageIn(sh, pc, t) < 200 + sh.ring.payloadCap
  {
  }

  // ----------------------------------------------------------------- the worker's own steps

  /** What the measure needs of the shard: nobody is producing into it. */
  ghost predicate Settled(sh: Shard, t: nat) {
    && RingOk(sh.ring) && sh.ring.commit == sh.ring.tail && t < |sh.ring.pcs| && ThreadOk(sh.ring, t)
  }

  lemma LeftIsNonnegative(sh: Shard, t: nat)
    requires Settled(sh, t)
    ensures 0 <= Left(sh.ring, t)
    ensures Base(sh.ring, sh.ring.pcs[t]) <= sh.ring.head
  {
    hide Slot;
    hide CellOk;
  }

  lemma PendingStepLowers(sh: Shard, pc: Point, t: nat)
    requires Settled(sh, t) && RingMachine.Enabled(sh.ring, Step(t))
    requires pc.WorkPending? || pc.GaugeDrained?
    requires sh.ring.pcs[t].PendLoadHead? || sh.ring.pcs[t].PendLoadTail?
    ensures var sh' := sh.(ring := PendingStep(sh.ring, t));
      Lower(Left(sh'.ring, t), StageIn(sh', pc, t), Left(sh.ring, t), StageIn(sh, pc, t))
  {
    hide CellOk;
    hide Slot;
    hide Helped;
    hide DequeueStage;
  }

  lemma DequeueStepLowers(sh: Shard, pc: Point, t: nat)
    requires Settled(sh, t) && RingMachine.Enabled(sh.ring, Step(t))
    requires pc.WorkDequeue? && InDequeue(sh.ring.pcs[t])
    ensures var sh' := sh.(ring := DequeueStep(sh.ring, t));
      Lower(Left(sh'.ring, t), StageIn(sh', pc, t), Left(sh.ring, t), StageIn(sh, pc, t))
  {
    hide Slot;
    hide CellOk;
    hide Helped;
    hide Inv;
    hide PendingStage;
    LeftIsNonnegative(sh, t);
  }

  lemma ReadStepLowers(sh: Shard, pc: Point, t: nat)
    requires Settled(sh, t) && RingMachine.Enabled(sh.ring, Step(t))
    requires pc.WorkDequeue? && InRead(sh.ring.pcs[t])
    ensures var sh' := sh.(ring := ReadStep(sh.ring, t));
      Lower(Left(sh'.ring, t), StageIn(sh', pc, t), Left(sh.ring, t), StageIn(sh, pc, t))
  {
    hide Slot;
    hide Inv;
    hide Helped;
    hide ThreadOk;
    hide PendingStage;
  }

  /** One step of the worker inside its ring. */
  lemma RingStepLowers(sh: Shard, pc: Point, t: nat)
    requires Settled(sh, t) && RingMachine.Enabled(sh.ring, Step(t)) && Matches(pc, sh.ring.pcs[t])
    requires pc.WorkDequeue? || pc.WorkPending? || pc.GaugeDrained?
    ensures var sh' := sh.(ring := RingMachine.StepOf(sh.ring, t));
      Lower(Left(sh'.ring, t), StageIn(sh', pc, t), Left(sh.ring, t), StageIn(sh, pc, t))
  {
    hide Slot;
    hide Inv;
    hide StageIn;
    hide Left;
    hide ClaimStep;
    hide WriteStep;
    hide AdvanceStep;
    hide DequeueStep;
    hide ReadStep;
    hide PendingStep;
    if !pc.WorkDequeue? {
      PendingStepLowers(sh, pc, t);
    } else if InDequeue(sh.ring.pcs[t]) {
      DequeueStepLowers(sh, pc, t);
    } else {
      ReadStepLowers(sh, pc, t);
    }
  }

  /** The worker goes on or has returned, its ring's tail has not moved, and its measure is lower. */
  ghost predicate Lowers(sh: Shard, pc: Point, t: nat, i: nat, f: Effect) {
    && (Works(f.pc, i) || (f.pc.WorkDone? && f.pc.shard == i))
    && t < |sh.ring.pcs| && t < |f.sh.ring.pcs| && f.sh.ring.tail == sh.ring.tail
    && Lower(Left(f.sh.ring, t), StageIn(f.sh, f.pc, t), Left(sh.ring, t), StageIn(sh, pc, t))
  }

  /** Taking back the result of a dequeue. */
  lemma DequeueAnswerLowers(g: Globals, sh: Shard, pc: Point, t: nat, n: nat, i: nat)
    requires Before(g, sh, pc, t, n) && Settled(sh, t) && !g.running && Works(pc, i)
    requires pc.WorkDequeue? && Returned(sh.ring.pcs[t])
    ensures Lowers(sh, pc, t, i, Answer(g, sh, pc, t))
  {
    hide PendingStage;
    hide Slot;
    hide RingOk;
    hide Matches;
    hide PointOk;
    hide Enter;
    hide Leave;
    hide Sized;
    hide RingMachine.Enabled;
    LeftIsNonnegative(sh, t);
    LeaveSound(sh, t);
  }

  /** Taking back an occupancy: in the exit test, nothing left means an occupancy of zero. */
  lemma PendingAnswerLowers(g: Globals, sh: Shard, pc: Point, t: nat, n: nat, i: nat)
    requires Before(g, sh, pc, t, n) && Settled(sh, t) && !g.running && Works(pc, i)
    requires (pc.WorkPending? || pc.GaugeDrained?) && Returned(sh.ring.pcs[t])
    ensures Lowers(sh, pc, t, i, Answer(g, sh, pc, t))
  {
    hide DequeueStage;
    hide Slot;
    hide RingOk;
    hide Matches;
    hide PointOk;
    hide Enter;
    hide Leave;
    hide Sized;
    hide RingMachine.Enabled;
    LeftIsNonnegative(sh, t);
    LeaveSound(sh, t);
    OccupancyOfNothing(sh, t);
  }

  /** Starting the next dequeue or the exit test. */
  lemma ConsumeLowers(g: Globals, sh: Shard, pc: Point, t: nat, n: nat, i: nat)
    requires Before(g, sh, pc, t, n) && Settled(sh, t) && !g.running && Works(pc, i)
    requires pc.WorkTop? || pc.WorkRunning?
    ensures Lowers(sh, pc, t, i, ConsumeStep(g, sh, pc, t, n))
  {
    hide Slot;
    hide RingOk;
    hide Matches;
    hide PointOk;
    hide Enter;
    hide Leave;
    hide Sized;
    hide RingMachine.Enabled;
    LeftIsNonnegative(sh, t);
    EnterSound(sh, t, if pc.WorkTop? then Dequeue else Pending);
  }

  /** The steps of markDrained on the worker's own shard. */
  lemma DrainedLowers(g: Globals, sh: Shard, pc: Point, t: nat, n: nat, i: nat)
    requires Before(g, sh, pc, t, n) && Settled(sh, t) && !g.running && Works(pc, i)
    requires pc.ReadHot? || pc.ClearHot?
    ensures Lowers(sh, pc, t, i, DrainedStep(g, sh, pc, t))
  {
    hide DequeueStage;
    hide Slot;
    hide RingOk;
    hide Matches;
    hide PointOk;
    hide Enter;
    hide Leave;
    hide Sized;
    hide RingMachine.Enabled;
    LeftIsNonnegative(sh, t);
    if pc.ReadHot? {
      EnterSound(sh, t, Pending);
    }
  }

  lemma OccupancyOfNothing(sh: Shard, t: nat)
    requires Settled(sh, t)
    ensures var c := sh.ring.pcs[t]; c.PendingIs? && Left(sh.ring, t) == 0 ==> c.n == 0
  {
    hide Inv;
    hide Helped;
  }

  /** The steps of markDrained on the engine-wide state leave the worker's own shard alone. */
  lemma LatchLowers(g: Globals, sh: Shard, pc: Point, t: nat, n: nat, i: nat, own: Shard)
    requires Before(g, sh, pc, t, n) && Works(pc, i)
    requires pc.SubSaturated? || pc.OpenGate? || pc.CountOpen? || pc.Recheck? || pc.ShutGate? || pc.CountClose?
    requires t < |own.ring.pcs|
    ensures var f := Local(g, sh, pc, t, n);
      Works(f.pc, i) && f.sh == sh && StageIn(own, f.pc, t) < StageIn(own, pc, t)
  {
    hide RingOk;
    hide Matches;
    hide PointOk;
    hide Sized;
    hide RingMachine.Enabled;
    hide DequeueStage;
    hide Left;
  }

  // ----------------------------------------------------------------- the engine

  lemma QuietSettled(e: Engine, t: nat, i: nat)
    requires EngineInv(e) && Quiet(e) && t < |e.points| && i < |e.shards|
    ensures Settled(e.shards[i], t)
  {
    assert ShardOk(e, i);
    var r := e.shards[i].ring;
    forall u | 0 <= u < |r.pcs| ensures !Producing(r.pcs[u]) {
      assert AtHome(e.points[u], i, r.pcs[u]);
    }
    QuietRing(r, t);
  }

  lemma QuietRing(r: Ring, t: nat)
    requires RingOk(r) && t < |r.pcs| && forall u :: 0 <= u < |r.pcs| ==> !Producing(r.pcs[u])
    ensures r.commit == r.tail && ThreadOk(r, t)
  {
    QuietProducersCommitAll(r);
  }

  lemma KeepsQuiet(e: Engine, m: Move)
    requires EngineInv(e) && Quiet(e) && MoveEnabled(e, m)
    ensures Quiet(ApplyMove(e, m))
  {
    var t := m.thread;
    if m.Go? && !e.points[t].StopRunning? {
      var k, f := StepIs(e, t);
      LocalQuiet(e.g, e.shards[k], e.points[t], t, |e.shards|);
    }
  }

  /** With running cleared, publish gets no further than its first check. */
  lemma LocalQuiet(g: Globals, sh: Shard, pc: Point, t: nat, n: nat)
    requires Ready(sh, pc, t) && !pc.StopRunning? && !Ingesting(pc) && !g.running
    ensures var f := Local(g, sh, pc, t, n);
      !Ingesting(f.pc) && !f.g.running
  {
    hide Enter;
    hide Leave;
    hide Sized;
    hide RingMachine.Enabled;
  }

  /** A bound on the steps the worker of shard i still takes: 200 + payloadCap per position left, plus its stage. */
  function Rank(e: Engine, t: nat, i: nat): int
    requires i < |e.shards| && t < |e.points| && t < |e.shards[i].ring.pcs|
  {
    Left(e.shards[i].ring, t) * (200 + e.shards[i].ring.payloadCap) + StageIn(e.shards[i], e.points[t], t)
  }

  lemma LowerRank(left': int, stage': int, left: int, stage: int, k: nat)
    requires Lower(left', stage', left, stage) && 0 <= stage && 0 <= stage' < k
    ensures left' * k + stage' < left * k + stage
  {
    if left' < left {
      MulMonotone(left' + 1, left, k);
    }
  }

  lemma MulMonotone(a: int, b: int, k: nat)
    requires a <= b
    ensures a * k <= b * k && a * k == (a - 1) * k + k
  {
    var d := b - a;
    assert b * k == a * k + d * k;
    assert d * k >= 0;
  }

  predicate OnOwnShard(pc: Point) { InRing(pc) || pc.WorkTop? || pc.WorkRunning? || pc.ReadHot? || pc.ClearHot? }

  lemma InRingWorkerLowers(e: Engine, t: nat, i: nat)
    requires EngineInv(e) && Quiet(e) && t < |e.points| && i < |e.shards| && Works(e.points[t], i)
    requires ShardOf(|e.shards|, e.points[t]) == i
    requires Before(e.g, e.shards[i], e.points[t], t, |e.shards|)
    requires OnOwnShard(e.points[t])
    ensures Lowers(e.shards[i], e.points[t], t, i, Local(e.g, e.shards[i], e.points[t], t, |e.shards|))
  {
    hide EngineInv;
    hide RingOk;
    hide Settled;
    hide Answer;
    hide ConsumeStep;
    hide DrainedStep;
    QuietSettled(e, t, i);
    var sh, pc := e.shards[i], e.points[t];
    if InRing(pc) && !Returned(sh.ring.pcs[t]) {
      RingStepLowers(sh, pc, t);
      RingStepKeepsTail(sh, pc, t);
    } else if pc.WorkDequeue? {
      DequeueAnswerLowers(e.g, sh, pc, t, |e.shards|, i);
    } else if InRing(pc) {
      PendingAnswerLowers(e.g, sh, pc, t, |e.shards|, i);
    } else if pc.WorkTop? || pc.WorkRunning? {
      ConsumeLowers(e.g, sh, pc, t, |e.shards|, i);
    } else {
      DrainedLowers(e.g, sh, pc, t, |e.shards|, i);
    }
  }

  lemma RingStepKeepsTail(sh: Shard, pc: Point, t: nat)
    requires RingMachine.Enabled(sh.ring, Step(t)) && Matches(pc, sh.ring.pcs[t]) && !pc.InPublish?
    ensures RingMachine.StepOf(sh.ring, t).tail == sh.ring.tail
  {
    hide Slot;
  }

  /** A step f of thread t on its own shard i that lowers the measure lowers the rank. */
  lemma LowersRank(e: Engine, t: nat, i: nat, f: Effect, e': Engine)
    requires t < |e.points| && i < |e.shards| && Lowers(e.shards[i], e.points[t], t, i, f)
    requires e' == Engine(e.shards[i := f.sh], f.g, e.points[t := f.pc])
    requires f.sh.ring.payloadCap == e.shards[i].ring.payloadCap
    ensures Rank(e', t, i) < Rank(e, t, i)
  {
    StageBounds(e.shards[i], e.points[t], t);
    StageBounds(f.sh, f.pc, t);
    hide StageIn;
    hide Left;
    LowerRank(Left(f.sh.ring, t), StageIn(f.sh, f.pc, t),
              Left(e.shards[i].ring, t), StageIn(e.shards[i], e.points[t], t),
              200 + e.shards[i].ring.payloadCap);
  }

  /** A step of thread t that leaves every shard alone and lowers the stage lowers the rank. */
  lemma LatchLowersRank(e: Engine, t: nat, i: nat, f: Effect, e': Engine)
    requires t < |e.points| && i < |e.shards| && t < |e.shards[i].ring.pcs|
    requires StageIn(e.shards[i], f.pc, t) < StageIn(e.shards[i], e.points[t], t)
    requires e' == Engine(e.shards, f.g, e.points[t := f.pc])
    ensures Rank(e', t, i) < Rank(e, t, i)
  {
    hide StageIn;
    hide Left;
  }

  lemma OwnStepLowers(e: Engine, t: nat, i: nat)
    requires EngineInv(e) && Quiet(e) && t < |e.points| && i < |e.shards| && Works(e.points[t], i)
    requires MoveEnabled(e, Go(t)) && OnOwnShard(e.points[t])
    ensures var e' := ApplyMove(e, Go(t));
      && (Works(e'.points[t], i) || (e'.points[t].WorkDone? && e'.points[t].shard == i))
      && i < |e'.shards| && t < |e.shards[i].ring.pcs| && t < |e'.shards[i].ring.pcs|
      && Rank(e', t, i) < Rank(e, t, i)
  {
    hide EngineInv;
    hide Quiet;
    hide Local;
    hide Rank;
    hide Ready;
    hide Before;
    hide MoveEnabled;
    hide Balanced;
    hide Remembers;
    hide RingOk;
    hide AtHome;
    hide StageIn;
    hide Left;
    var k, f := StepIs(e, t);
    StepReady(e, t);
    InRingWorkerLowers(e, t, i);
    LowersRank(e, t, i, f, ApplyMove(e, Go(t)));
  }

  lemma LatchStepLowers(e: Engine, t: nat, i: nat)
    requires EngineInv(e) && Quiet(e) && t < |e.points| && i < |e.shards| && Works(e.points[t], i)
    requires MoveEnabled(e, Go(t)) && !OnOwnShard(e.points[t])
    ensures var e' := ApplyMove(e, Go(t));
      && Works(e'.points[t], i)
      && i < |e'.shards| && t < |e.shards[i].ring.pcs| && t < |e'.shards[i].ring.pcs|
      && Rank(e', t, i) < Rank(e, t, i)
  {
    var k, f := StepIs(e, t);
    StepReady(e, t);
    assert ShardOk(e, i);
    LatchLowers(e.g, e.shards[k], e.points[t], t, |e.shards|, i, e.shards[i]);
    hide EngineInv;
    hide Quiet;
    hide Local;
    hide Rank;
    hide Ready;
    hide Before;
    hide MoveEnabled;
    hide Balanced;
    hide Remembers;
    hide RingOk;
    hide AtHome;
    hide StageIn;
    hide Left;
    assert e.shards[k := e.shards[k]] == e.shards;
    LatchLowersRank(e, t, i, f, ApplyMove(e, Go(t)));
  }

  /** Every step of a worker in a quiet engine lowers its rank, and leads on or to its return. */
  lemma WorkerLowers(e: Engine, t: nat, i: nat)
    requires EngineInv(e) && Quiet(e) && t < |e.points| && i < |e.shards| && Works(e.points[t], i)
    requires MoveEnabled(e, Go(t))
    ensures var e' := ApplyMove(e, Go(t));
      && EngineInv(e') && (Works(e'.points[t], i) || (e'.points[t].WorkDone? && e'.points[t].shard == i))
      && t < |e.shards[i].ring.pcs| && t < |e'.shards[i].ring.pcs|
      && Rank(e', t, i) < Rank(e, t, i)
  {
    hide ApplyMove;
    hide EngineInv;
    hide Rank;
    KeepsEngineInv(e, Go(t));
    if OnOwnShard(e.points[t]) {
      OwnStepLowers(e, t, i);
    } else {
      LatchStepLowers(e, t, i);
    }
  }

  /** What other threads do never raises a worker's rank. */
  lemma OthersKeepRank(e: Engine, m: Move, t: nat, i: nat)
    requires EngineInv(e) && Quiet(e) && MoveEnabled(e, m) && m.thread != t
    requires t < |e.points| && i < |e.shards|
    ensures var e' := ApplyMove(e, m);
      && EngineInv(e') && |e'.points| == |e.points| && |e'.shards| == |e.shards| && e'.points[t] == e.points[t]
      && t < |e.shards[i].ring.pcs| && t < |e'.shards[i].ring.pcs|
      && Rank(e', t, i) <= Rank(e, t, i)
  {
    assert m.thread < |e.points|;
    hide ApplyMove;
    hide MoveEnabled;
    hide EngineInv;
    hide Quiet;
    hide Rank;
    KeepsEngineInv(e, m);
    if m.Go? && !e.points[m.thread].StopRunning? {
      OtherStepKeepsRank(e, m.thread, t, i);
    } else {
      OtherStartKeepsRank(e, m, t, i);
    }
  }

  lemma OtherStartKeepsRank(e: Engine, m: Move, t: nat, i: nat)
    requires EngineInv(e) && MoveEnabled(e, m) && m.thread != t
    requires t < |e.points| && i < |e.shards| && m.thread < |e.points| && (m.Start? || e.points[m.thread].StopRunning?)
    ensures var e' := ApplyMove(e, m);
      && |e'.points| == |e.points| && |e'.shards| == |e.shards| && e'.points[t] == e.points[t]
      && t < |e.shards[i].ring.pcs| && t < |e'.shards[i].ring.pcs|
      && Rank(e', t, i) <= Rank(e, t, i)
  {
    assert ShardOk(e, i);
    hide EngineInv;
    hide ShardOk;
    hide Rank;
    hide Local;
    hide Ready;
    SameRank(e, ApplyMove(e, m), t, i);
  }

  lemma SameRank(e: Engine, e': Engine, t: nat, i: nat)
    requires t < |e.points| && i < |e.shards| && t < |e.shards[i].ring.pcs|
    requires e'.shards == e.shards && t < |e'.points| && e'.points[t] == e.points[t]
    ensures Rank(e', t, i) == Rank(e, t, i)
  {
  }

  lemma OtherStepKeepsRank(e: Engine, u: nat, t: nat, i: nat)
    requires EngineInv(e) && Quiet(e) && MoveEnabled(e, Go(u)) && u != t && !e.points[u].StopRunning?
    requires t < |e.points| && i < |e.shards|
    ensures var e' := ApplyMove(e, Go(u));
      && |e'.points| == |e.points| && |e'.shards| == |e.shards| && e'.points[t] == e.points[t]
      && t < |e.shards[i].ring.pcs| && t < |e'.shards[i].ring.pcs|
      && Rank(e', t, i) <= Rank(e, t, i)
  {
    var k, f := StepIs(e, u);
    StepReady(e, u);
    assert ShardOk(e, i);
    QuietSettled(e, t, i);
    QuietShard(e.g, e.shards[k], e.points[u], u, |e.shards|);
    hide EngineInv;
    hide Quiet;
    hide Local;
    hide Ready;
    hide Before;
    hide MoveEnabled;
    hide ApplyMove;
    hide Sound;
    hide Balanced;
    hide Remembers;
    hide RingOk;
    hide AtHome;
    hide Rank;
    hide Settled;
    hide ShardOk;
    OtherRankOf(e, u, t, i, k, f, ApplyMove(e, Go(u)));
  }

  /** A step of thread u on shard k that leaves its tail alone and moves its head only forward. */
  lemma OtherRankOf(e: Engine, u: nat, t: nat, i: nat, k: nat, f: Effect, e': Engine)
    requires u != t && u < |e.points| && t < |e.points| && i < |e.shards| && k < |e.shards| && Settled(e.shards[i], t)
    requires e' == Engine(e.shards[k := f.sh], f.g, e.points[u := f.pc])
    requires f.sh.ring.tail == e.shards[k].ring.tail && e.shards[k].ring.head <= f.sh.ring.head
    requires f.sh.ring.payloadCap == e.shards[k].ring.payloadCap && u < |e.shards[k].ring.pcs| == |f.sh.ring.pcs|
    requires f.sh.ring.pcs == e.shards[k].ring.pcs[u := f.sh.ring.pcs[u]]
    ensures t < |e.shards[i].ring.pcs| && t < |e'.shards[i].ring.pcs|
    ensures Rank(e', t, i) <= Rank(e, t, i)
  {
    assert t < |e.shards[i].ring.pcs|;
    hide StageIn;
    hide Left;
    if k == i {
      assert f.sh.ring.pcs[t] == e.shards[i].ring.pcs[t];
      OtherRank(e.shards[i], f.sh, e.points[t], t);
    }
  }

  /** In a quiet engine a shard's tail stays put and its head only moves forward. */
  lemma QuietShard(g: Globals, sh: Shard, pc: Point, u: nat, n: nat)
    requires Before(g, sh, pc, u, n) && !pc.StopRunning? && !Ingesting(pc)
    ensures var f := Local(g, sh, pc, u, n);
      && f.sh.ring.tail == sh.ring.tail && sh.ring.head <= f.sh.ring.head
      && f.sh.ring.payloadCap == sh.ring.payloadCap
      && |f.sh.ring.pcs| == |sh.ring.pcs| && f.sh.ring.pcs == sh.ring.pcs[u := f.sh.ring.pcs[u]]
  {
    LocalGood(g, sh, pc, u, n);
    if InRing(pc) && !Returned(sh.ring.pcs[u]) {
      RingStepKeepsTail(sh, pc, u);
      TalliesStep(sh.ring, Step(u));
      hide RingMachine.StepOf;
    } else {
      QuietOthers(g, sh, pc, u, n);
    }
  }

  lemma QuietOthers(g: Globals, sh: Shard, pc: Point, u: nat, n: nat)
    requires Before(g, sh, pc, u, n) && !Ingesting(pc) && !(InRing(pc) && !Returned(sh.ring.pcs[u]))
    ensures var f := Local(g, sh, pc, u, n);
      f.sh.ring.tail == sh.ring.tail && sh.ring.head == f.sh.ring.head
  {
    hide RingOk;
    hide Matches;
    hide PointOk;
  }

  lemma OtherRank(sh: Shard, sh': Shard, pc: Point, t: nat)
    requires Settled(sh, t) && t < |sh'.ring.pcs| && sh'.ring.pcs[t] == sh.ring.pcs[t]
    requires sh'.ring.tail == sh.ring.tail && sh.ring.head <= sh'.ring.head && sh'.ring.payloadCap == sh.ring.payloadCap
    ensures var k := 200 + sh.ring.payloadCap;
      Left(sh'.ring, t) * k + StageIn(sh', pc, t) <= Left(sh.ring, t) * k + StageIn(sh, pc, t)
  {
    hide Stage;
    StageBounds(sh, pc, t);
    StageBounds(sh', pc, t);
    if Left(sh'.ring, t) < Left(sh.ring, t) {
      LowerRank(Left(sh'.ring, t), StageIn(sh', pc, t), Left(sh.ring, t), StageIn(sh, pc, t), 200 + sh.ring.payloadCap);
    }
  }

  /** How many steps thread t takes in a run. */
  function StepsOf(moves: seq<Move>, t: nat): nat {
    if |moves| == 0 then 0 else (if moves[0] == Go(t) then 1 else 0) + StepsOf(moves[1..], t)
  }

  /**
   From any quiet state on, in every interleaving with every other thread, the worker of a shard takes at most
   Rank steps: it drains what is left and returns, and never spins on an empty ring.
   */
  lemma {:induction false} WorkerTerminates(e: Engine, moves: seq<Move>, t: nat, i: nat)
    requires EngineInv(e) && Quiet(e) && t < |e.points| && i < |e.shards| && MovesRun(e, moves)
    requires Works(e.points[t], i) || e.points[t].WorkDone?
    ensures t < |e.shards[i].ring.pcs|
    ensures StepsOf(moves, t) <= if e.points[t].WorkDone? then 0 else Rank(e, t, i)
    decreases |moves|
  {
    assert ShardOk(e, i);
    if |moves| == 0 {
      QuietSettled(e, t, i);
      RankNonnegative(e, t, i);
      return;
    }
    var e' := ApplyMove(e, moves[0]);
    KeepsQuiet(e, moves[0]);
    if moves[0] == Go(t) {
      WorkerLowers(e, t, i);
    } else {
      NotRestarted(e, moves[0], t, i);
      OthersKeepRank(e, moves[0], t, i);
    }
    hide ApplyMove;
    hide EngineInv;
    hide Quiet;
    hide Rank;
    hide Works;
    WorkerTerminates(e', moves[1..], t, i);
    if !e'.points[t].WorkDone? && e.points[t].WorkDone? {
      assert false;
    }
    if e'.points[t].WorkDone? {
      FinalRank(e', t, i);
    }
  }

  lemma NotRestarted(e: Engine, m: Move, t: nat, i: nat)
    requires MoveEnabled(e, m) && m != Go(t) && t < |e.points|
    requires Works(e.points[t], i) || e.points[t].WorkDone?
    ensures m.thread != t
  {
  }

  lemma RankNonnegative(e: Engine, t: nat, i: nat)
    requires i < |e.shards| && t < |e.points| && Settled(e.shards[i], t)
    ensures 0 <= Rank(e, t, i)
  {
    LeftIsNonnegative(e.shards[i], t);
    StageBounds(e.shards[i], e.points[t], t);
    MulMonotone(0, Left(e.shards[i].ring, t), 200 + e.shards[i].ring.payloadCap);
  }

  lemma FinalRank(e: Engine, t: nat, i: nat)
    requires EngineInv(e) && Quiet(e) && t < |e.points| && i < |e.shards|
    ensures t < |e.shards[i].ring.pcs| && 0 <= Rank(e, t, i)
  {
    QuietSettled(e, t, i);
    RankNonnegative(e, t, i);
  }
}
