/**
 Runs of the engine told by what happens on shard 0 while the others stay cold: a thread takes one step outside the
 rings, or goes through a whole publish, dequeue or occupancy check while nobody else moves.
 */
module EngineScenes {
  import opened Records
  import opened Slots
  import opened Hysteresis
  import Configs
  import opened RingMachine
  import opened RingSafety
  import opened RingProgress
  import opened RingSolo
  import opened EngineMachine
  import opened EngineSafety
  import opened EngineBooks
  import opened EngineRuns

  /** The globals, where every thread is in the engine and in the ring of shard 0, and what that shard holds. */
  datatype Scene = Scene(g: Globals, points: seq<Point>, tail: nat, head: nat, pcs: seq<Pc>, hot: bool) {
    function Move(t: nat, pc: Point): Scene
      requires t < |points|
    {
      this.(points := points[t := pc])
    }
  }

  /** The run leads from e to z, where the scene is s: shard 0 is committed throughout, and no other shard is hot. */
  ghost predicate Stage(e: Engine, moves: seq<Move>, z: Engine, s: Scene) {
    && MovesRun(e, moves) && z == ExecMoves(e, moves) && EngineInv(z)
    && |z.shards| == |e.shards| > 0 && |z.points| == |e.points|
    && z.g == s.g && z.points == s.points
    && (forall i :: 0 <= i < |z.shards| ==> z.shards[i].hot == (s.hot && i == 0))
    && RingAt(z.shards[0].ring, e.shards[0].ring, s)
  }

  ghost predicate RingAt(r: Ring, origin: Ring, s: Scene) {
    && r.capacity == origin.capacity && r.payloadCap == origin.payloadCap && r.pcs == s.pcs
    && r.tail == r.commit == s.tail && r.head == s.head
  }

  lemma RingSound(z: Engine)
    requires EngineInv(z) && 0 < |z.shards|
    ensures Inv(z.shards[0].ring) && Helped(z.shards[0].ring) && Sized(z.shards[0].ring)
    ensures |z.shards[0].ring.pcs| == |z.points|
    ensures z.shards[0].ring.head <= z.shards[0].ring.tail
  {
    assert ShardOk(z, 0);
    hide CellOk;
    hide ThreadOk;
    hide Helped;
  }

  lemma AtHomeOf(z: Engine, u: nat)
    requires EngineInv(z) && 0 < |z.shards| && u < |z.points|
    ensures u < |z.shards[0].ring.pcs| && AtHome(z.points[u], 0, z.shards[0].ring.pcs[u])
  {
    assert ShardOk(z, 0);
    hide RingOk;
  }

  /** What a stage says of the shapes involved. */
  lemma Shapes(e: Engine, moves: seq<Move>, z: Engine, s: Scene)
    requires Stage(e, moves, z, s)
    ensures 0 < |e.shards| == |z.shards| && |s.points| == |e.points| == |s.pcs| && s.head <= s.tail
    ensures 0 < e.shards[0].ring.capacity
  {
    hide EngineInv;
    RingSound(z);
    hide Inv;
  }

  /** A thread that is in no ring is idle in the ring of shard 0. */
  lemma IdleOutside(e: Engine, moves: seq<Move>, z: Engine, s: Scene, t: nat)
    requires Stage(e, moves, z, s) && t < |s.points| && !InRing(s.points[t])
    ensures t < |s.pcs| && s.pcs[t].Idle?
  {
    hide EngineInv;
    AtHomeOf(z, t);
  }

  /** The scene of a fresh engine. */
  lemma Fresh(e: Engine) returns (s: Scene)
    requires FreshEngine(e)
    ensures Stage(e, [], e, s) && s == Scene(e.g, e.points, 0, 0, s.pcs, false) && |s.pcs| == |e.points|
    ensures 0 < |e.shards| && 2 <= e.shards[0].ring.capacity
    ensures s.g.low < s.g.high <= 100 && s.g.running && !s.g.closed && s.g.saturated == 0
    ensures Percent(0, e.shards[0].ring.capacity) == 0
    ensures forall u :: 0 <= u < |e.points| ==> e.points[u].Off? && s.pcs[u].Idle?
  {
    InitEngineInv(e);
    NoMoves(e);
    hide EngineInv;
    hide MovesRun;
    hide ExecMoves;
    s := Scene(e.g, e.points, 0, 0, e.shards[0].ring.pcs, false);
    NothingIsZero(e.shards[0].ring.capacity);
  }

  // ----------------------------------------------------------------- steps outside the rings

  lemma Starting(e: Engine, moves0: seq<Move>, z0: Engine, s: Scene, t: nat, task: Task)
    returns (moves: seq<Move>, z: Engine)
    requires Stage(e, moves0, z0, s) && t < |s.points| && s.points[t].Off?
    requires task.PublishCall? ==>
      && task.call.shard == 0 && task.call.key != 0 && |e.shards| > 0
      && |task.call.payload| <= e.shards[0].ring.payloadCap
    requires task.Worker? ==> task.shard == 0
    ensures Stage(e, moves, z, s.Move(t, StartOf(task)))
  {
    assert Fits(z0);
    hide MovesRun;
    hide ExecMoves;
    hide EngineInv;
    moves, z := OneMove(e, moves0, z0, Start(t, task));
  }

  /** Where a task begins, once publish has passed its first checks. */
  function StartOf(task: Task): Point {
    match task
    case PublishCall(call) => CheckRunning(call)
    case Worker(i) => WorkTop(i, 0)
    case Drain(max) => DrainTop(0, 0, max)
    case Close => StopRunning
  }

  /** A step outside the rings, into one, or out of one, moves no cursor. */
  lemma LocalKeepsCursors(g: Globals, sh: Shard, pc: Point, t: nat, n: nat)
    requires Ready(sh, pc, t) && !pc.StopRunning? && (InRing(pc) ==> Returned(sh.ring.pcs[t]))
    ensures var r := Local(g, sh, pc, t, n).sh.ring; r == sh.ring.(pcs := r.pcs)
  {
    hide Sized;
    hide RingMachine.Enabled;
  }

  /** A thread steps on shard 0 without moving inside its ring. */
  lemma Steps(e: Engine, moves0: seq<Move>, z0: Engine, s: Scene, t: nat) returns (moves: seq<Move>, z: Engine)
    requires Stage(e, moves0, z0, s) && t < |s.points| && t < |s.pcs| && 0 < |z0.shards|
    requires var pc := s.points[t];
      && !pc.Off? && !pc.WorkDone? && !pc.StopRunning? && ShardOf(|e.shards|, pc) == 0
      && (InRing(pc) ==> Returned(s.pcs[t]))
    ensures Ready(z0.shards[0], s.points[t], t)
    ensures var f := Local(s.g, z0.shards[0], s.points[t], t, |e.shards|);
      Stage(e, moves, z, Scene(f.g, s.points[t := f.pc], s.tail, s.head, f.sh.ring.pcs, f.sh.hot))
  {
    hide MovesRun;
    hide ExecMoves;
    hide EngineInv;
    hide Local;
    hide Ready;
    hide Before;
    StepReady(z0, t);
    StepApplies(z0, t);
    LocalKeepsCursors(s.g, z0.shards[0], s.points[t], t, |e.shards|);
    hide ApplyMove;
    moves, z := OneMove(e, moves0, z0, Go(t));
  }

  lemma StepApplies(z: Engine, t: nat)
    requires MoveEnabled(z, Go(t)) && ShardOf(|z.shards|, z.points[t]) == 0 && !z.points[t].StopRunning?
    ensures 0 < |z.shards| && Ready(z.shards[0], z.points[t], t)
    ensures var f := Local(z.g, z.shards[0], z.points[t], t, |z.shards|);
      ApplyMove(z, Go(t)) == Engine(z.shards[0 := f.sh], f.g, z.points[t := f.pc])
  {
    hide Local;
    hide Ready;
  }

  /** Close clears running, and records every ring's tail. */
  lemma Stops(e: Engine, moves0: seq<Move>, z0: Engine, s: Scene, t: nat)
    returns (moves: seq<Move>, z: Engine, tails: seq<nat>)
    requires Stage(e, moves0, z0, s) && t < |s.points| && s.points[t].StopRunning? && s.g.running
    ensures 0 < |tails| == |e.shards| && tails[0] == s.tail
    ensures Stage(e, moves, z, s.(g := s.g.(running := false, stopTails := tails)).Move(t, ForceOpen))
  {
    StepReady(z0, t);
    hide MovesRun;
    hide ExecMoves;
    hide EngineInv;
    hide Before;
    hide Local;
    hide Ready;
    moves, z := OneMove(e, moves0, z0, Go(t));
    tails := z.g.stopTails;
  }

  // ----------------------------------------------------------------- steps inside the ring of shard 0

  function WithRing(z: Engine, r: Ring): Engine
    requires 0 < |z.shards|
  {
    z.(shards := z.shards[0 := z.shards[0].(ring := r)])
  }

  lemma WithRingTwice(z: Engine, r: Ring, r': Ring)
    requires 0 < |z.shards|
    ensures WithRing(z, z.shards[0].ring) == z
    ensures var y := WithRing(z, r);
      && 0 < |y.shards| && y.shards[0].ring == r && y.points == z.points
      && WithRing(y, r') == WithRing(z, r')
  {
    assert z.shards[0 := z.shards[0]] == z.shards;
  }

  lemma SoloFirst(r: Ring, t: nat, n: nat, r': Ring)
    requires Solo(r, t, n, r')
    ensures n == 0 ==> r' == r
    ensures n > 0 ==> RingMachine.Enabled(r, Step(t)) && Solo(RingMachine.StepOf(r, t), t, n - 1, r')
  {
    hide RingMachine.StepOf;
    hide RingMachine.Enabled;
  }

  /** Steps of thread t inside the ring of shard 0 are steps of the engine. */
  lemma {:induction false} Lift(e: Engine, moves: seq<Move>, z: Engine, t: nat, n: nat, r': Ring)
    returns (moves': seq<Move>, z': Engine)
    requires MovesRun(e, moves) && z == ExecMoves(e, moves) && EngineInv(z)
    requires t < |z.points| && InRing(z.points[t]) && z.points[t].shard == 0 && 0 < |z.shards|
    requires Solo(z.shards[0].ring, t, n, r')
    ensures MovesRun(e, moves') && z' == ExecMoves(e, moves') && EngineInv(z')
    ensures z' == WithRing(z, r')
    decreases n
  {
    hide *;
    SoloFirst(z.shards[0].ring, t, n, r');
    if n == 0 {
      WithRingTwice(z, r', r');
      moves', z' := moves, z;
    } else {
      var y;
      moves', y := LiftOne(e, moves, z, t);
      WithRingTwice(z, y.shards[0].ring, r');
      moves', z' := Lift(e, moves', y, t, n - 1, r');
    }
  }

  lemma LiftOne(e: Engine, moves: seq<Move>, z: Engine, t: nat) returns (moves': seq<Move>, z': Engine)
    requires MovesRun(e, moves) && z == ExecMoves(e, moves) && EngineInv(z)
    requires t < |z.points| && InRing(z.points[t]) && z.points[t].shard == 0 && 0 < |z.shards|
    requires RingMachine.Enabled(z.shards[0].ring, Step(t))
    ensures MovesRun(e, moves') && z' == ExecMoves(e, moves') && EngineInv(z')
    ensures z' == WithRing(z, RingMachine.StepOf(z.shards[0].ring, t))
    ensures |z'.shards| == |z.shards| && z'.points == z.points
        && z'.shards[0].ring == RingMachine.StepOf(z.shards[0].ring, t)
  {
    hide MovesRun;
    hide ExecMoves;
    hide ApplyMove;
    hide EngineInv;
    hide Before;
    hide RingMachine.StepOf;
    StepReady(z, t);
    LocalRingStep(z, t);
    moves', z' := OneMove(e, moves, z, Go(t));
  }

  lemma LocalRingStep(z: Engine, t: nat)
    requires MoveEnabled(z, Go(t)) && InRing(z.points[t]) && z.points[t].shard == 0
    requires RingMachine.Enabled(z.shards[0].ring, Step(t))
    ensures ApplyMove(z, Go(t)) == WithRing(z, RingMachine.StepOf(z.shards[0].ring, t))
  {
    hide RingMachine.StepOf;
    hide Sized;
    assert z.points[t := z.points[t]] == z.points;
  }

  /** A thread alone inside the ring of shard 0 leads from one scene to the one its ring run leads to. */
  lemma Plays(e: Engine, moves0: seq<Move>, z0: Engine, s: Scene, t: nat, k: nat, r': Ring, s': Scene)
    returns (moves: seq<Move>, z: Engine)
    requires Stage(e, moves0, z0, s) && 0 < |e.shards| && 0 < |z0.shards| && t < |s.points|
    requires InRing(s.points[t]) && s.points[t].shard == 0
    requires Solo(z0.shards[0].ring, t, k, r') && RingAt(r', e.shards[0].ring, s')
    requires s' == s.(tail := s'.tail, head := s'.head, pcs := s'.pcs)
    ensures Stage(e, moves, z, s')
  {
    hide MovesRun;
    hide ExecMoves;
    hide EngineInv;
    hide Solo;
    hide RingAt;
    moves, z := Lift(e, moves0, z0, t, k, r');
  }

  // ----------------------------------------------------------------- a whole publish

  /** Nobody is in the ring of shard 0, except perhaps thread t. */
  predicate Alone(s: Scene, t: nat) { forall u :: 0 <= u < |s.pcs| && u != t ==> s.pcs[u].Idle? }

  /** The ring pcs of a scene in which thread t is inside the ring. */
  function Inside(s: Scene, t: nat, pc: Point, c: Pc): Scene
    requires t < |s.points| && t < |s.pcs|
  {
    s.(points := s.points[t := pc], pcs := s.pcs[t := c])
  }

  function Room(e: Engine, s: Scene): bool
    requires 0 < |e.shards|
  {
    s.tail < s.head + e.shards[0].ring.capacity
  }

  /** After its gauge a producer goes on to the latch exactly if the occupancy has reached the high mark. */
  function Gauged(s: Scene, capacity: nat): Point
    requires 0 < capacity && s.head <= s.tail
  {
    if Percent(s.tail - s.head, capacity) >= s.g.high then LatchHot(0) else Off
  }

  lemma Draws(e: Engine, moves0: seq<Move>, z0: Engine, s: Scene, t: nat, call: Call)
    returns (moves: seq<Move>, z: Engine, req: Request)
    requires Stage(e, moves0, z0, s) && t < |s.points| && t < |s.pcs| && s.points[t] == DrawTicket(call)
    requires call.shard == 0
    ensures Stage(e, moves, z, Inside(s.(g := s.g.(ticket := s.g.ticket + 1)), t, InPublish(0), ClaimLoadTail(req)))
  {
    hide RequestOf;
    hide Stage;
    hide Sized;
    Shapes(e, moves0, z0, s);
    req := RequestOf(s.g, call);
    moves, z := Steps(e, moves0, z0, s, t);
    SameRing(e, moves0, z0, s);
  }

  /** The ring of shard 0 as the scene shows it. */
  lemma SameRing(e: Engine, moves: seq<Move>, z: Engine, s: Scene)
    requires Stage(e, moves, z, s)
    ensures 0 < |z.shards| == |e.shards| && z.shards[0].ring.pcs == s.pcs && z.shards[0].hot == s.hot
    ensures z.shards[0].ring.capacity == e.shards[0].ring.capacity && z.g == s.g
  {
    hide EngineInv;
  }

  /** While less than a lap is outstanding and nobody consumes, the producer finds its cell free. */
  lemma FindsRoom(e: Engine, moves: seq<Move>, z: Engine, s: Scene, t: nat)
    requires Stage(e, moves, z, s) && 0 < |e.shards| && Room(e, s) && Alone(s, t) && t < |s.pcs| && !Consumes(s.pcs[t])
    ensures 0 < |z.shards| && var m := z.shards[0].ring; Sized(m) && SeqOf(m, m.tail) == m.tail
  {
    RingSound(z);
    hide EngineInv;
    hide Inv;
    hide Helped;
    hide Slot;
    hide SeqOf;
    FreeWhenNotFull(z.shards[0].ring);
  }

  lemma Publishes(e: Engine, moves0: seq<Move>, z0: Engine, s: Scene, t: nat, req: Request)
    returns (moves: seq<Move>, z: Engine)
    requires Stage(e, moves0, z0, s) && 0 < |e.shards| && Room(e, s) && Alone(s, t) && t < |s.points| && t < |s.pcs|
    requires s.points[t] == InPublish(0) && s.pcs[t] == ClaimLoadTail(req)
    ensures Stage(e, moves, z, s.(tail := s.tail + 1, pcs := s.pcs[t := Published(s.tail)]))
  {
    hide MovesRun;
    hide ExecMoves;
    hide EngineInv;
    hide Inv;
    hide Helped;
    hide Slot;
    hide Sized;
    hide Solo;
    FindsRoom(e, moves0, z0, s, t);
    RingSound(z0);
    var m := z0.shards[0].ring;
    var k, r' := PublishSolo(m, t, req);
    var s' := s.(tail := s.tail + 1, pcs := s.pcs[t := Published(s.tail)]);
    assert RingAt(r', e.shards[0].ring, s');
    hide Stage;
    hide RingAt;
    moves, z := Plays(e, moves0, z0, s, t, k, r', s');
  }

  /** Publish counts the record and begins its gauge. */
  lemma Counts(e: Engine, moves0: seq<Move>, z0: Engine, s: Scene, t: nat) returns (moves: seq<Move>, z: Engine)
    requires Stage(e, moves0, z0, s) && t < |s.points| && t < |s.pcs|
    requires s.points[t] == InPublish(0) && s.pcs[t].Published?
    ensures Stage(e, moves, z, Inside(s, t, Gauge(0), PendLoadHead))
  {
    hide Stage;
    hide Sized;
    Shapes(e, moves0, z0, s);
    SameRing(e, moves0, z0, s);
    moves, z := Steps(e, moves0, z0, s, t);
    assert s.pcs[t := Idle][t := PendLoadHead] == s.pcs[t := PendLoadHead];
  }

  /** A thread that reads the occupancy of shard 0 alone gets the true one. */
  lemma Reads(e: Engine, moves0: seq<Move>, z0: Engine, s: Scene, t: nat)
    returns (moves: seq<Move>, z: Engine, p: Pc)
    requires Stage(e, moves0, z0, s) && t < |s.points| && t < |s.pcs|
    requires InRing(s.points[t]) && s.points[t].shard == 0 && s.pcs[t] == PendLoadHead
    ensures s.head <= s.tail && p.PendingIs? && p.n == s.tail - s.head
    ensures Stage(e, moves, z, s.(pcs := s.pcs[t := p]))
  {
    hide MovesRun;
    hide ExecMoves;
    hide EngineInv;
    hide Inv;
    hide Helped;
    hide Sized;
    hide Solo;
    RingSound(z0);
    var k, r' := PendingSolo(z0.shards[0].ring, t);
    p := r'.pcs[t];
    assert RingAt(r', e.shards[0].ring, s.(pcs := s.pcs[t := p]));
    hide Stage;
    hide RingAt;
    moves, z := Plays(e, moves0, z0, s, t, k, r', s.(pcs := s.pcs[t := p]));
  }

  /** Below the high mark publish returns; at the high mark it goes on to the latch. */
  lemma Judges(e: Engine, moves0: seq<Move>, z0: Engine, s: Scene, t: nat) returns (moves: seq<Move>, z: Engine)
    requires Stage(e, moves0, z0, s) && t < |s.points| && t < |s.pcs| && s.points[t] == Gauge(0)
    requires s.pcs[t].PendingIs? && s.head <= s.tail && s.pcs[t].n == s.tail - s.head
    requires 0 < |e.shards| && 0 < e.shards[0].ring.capacity
    ensures Stage(e, moves, z, Inside(s, t, Gauged(s, e.shards[0].ring.capacity), Idle))
  {
    hide Stage;
    hide Sized;
    hide Percent;
    SameRing(e, moves0, z0, s);
    moves, z := Steps(e, moves0, z0, s, t);
  }

  /** A whole publish past the gate, by a thread alone in the ring, with room in it. */
  lemma Offers(e: Engine, moves0: seq<Move>, z0: Engine, s: Scene, t: nat, call: Call)
    returns (moves: seq<Move>, z: Engine, s': Scene)
    requires Stage(e, moves0, z0, s) && t < |s.points| && s.points[t] == DrawTicket(call) && call.shard == 0
    requires 0 < |e.shards| && Room(e, s) && Alone(s, t)
    ensures s.head <= s.tail && 0 < e.shards[0].ring.capacity
    ensures s' == s.(g := s.g.(ticket := s.g.ticket + 1), tail := s.tail + 1,
                     points := s.points[t := Gauged(s.(tail := s.tail + 1), e.shards[0].ring.capacity)])
    ensures Stage(e, moves, z, s')
  {
    hide Stage;
    hide Percent;
    Shapes(e, moves0, z0, s);
    IdleOutside(e, moves0, z0, s, t);
    var req, p;
    moves, z, req := Draws(e, moves0, z0, s, t, call);
    s' := Inside(s.(g := s.g.(ticket := s.g.ticket + 1)), t, InPublish(0), ClaimLoadTail(req));
    moves, z := Publishes(e, moves, z, s', t, req);
    s' := s'.(tail := s.tail + 1, pcs := s'.pcs[t := Published(s.tail)]);
    moves, z := Counts(e, moves, z, s', t);
    s' := Inside(s', t, Gauge(0), PendLoadHead);
    moves, z, p := Reads(e, moves, z, s', t);
    s' := s'.(pcs := s'.pcs[t := p]);
    moves, z := Judges(e, moves, z, s', t);
    s' := Inside(s', t, Gauged(s', e.shards[0].ring.capacity), Idle);
    assert s'.pcs == s.pcs;
  }

  /** A call that publish accepts, from its start. */
  lemma Publishing(e: Engine, moves0: seq<Move>, z0: Engine, s: Scene, t: nat, call: Call)
    returns (moves: seq<Move>, z: Engine, s': Scene)
    requires Stage(e, moves0, z0, s) && t < |s.points| && s.points[t].Off? && s.g.running && !s.g.closed
    requires 0 < |e.shards| && Room(e, s) && Alone(s, t)
    requires call.shard == 0 && call.key != 0 && |call.payload| <= e.shards[0].ring.payloadCap
    ensures s.head <= s.tail && 0 < e.shards[0].ring.capacity
    ensures s' == s.(g := s.g.(ticket := s.g.ticket + 1), tail := s.tail + 1,
                     points := s.points[t := Gauged(s.(tail := s.tail + 1), e.shards[0].ring.capacity)])
    ensures Stage(e, moves, z, s')
  {
    hide Stage;
    hide Percent;
    moves, z := Starting(e, moves0, z0, s, t, PublishCall(call));
    s' := s.Move(t, CheckRunning(call));
    moves, z := Checks(e, moves, z, s', t);
    s' := s'.Move(t, CheckGate(call));
    moves, z := Checks(e, moves, z, s', t);
    s' := s'.Move(t, DrawTicket(call));
    moves, z, s' := Offers(e, moves, z, s', t, call);
  }

  /** The checks of the running flag and of the gate. */
  lemma Checks(e: Engine, moves0: seq<Move>, z0: Engine, s: Scene, t: nat) returns (moves: seq<Move>, z: Engine)
    requires Stage(e, moves0, z0, s) && t < |s.points|
    requires (s.points[t].CheckRunning? && s.g.running) || (s.points[t].CheckGate? && !s.g.closed)
    requires s.points[t].call.shard == 0
    ensures Stage(e, moves, z, s.Move(t,
              if s.points[t].CheckRunning? then CheckGate(s.points[t].call) else DrawTicket(s.points[t].call)))
  {
    hide Stage;
    hide Sized;
    Shapes(e, moves0, z0, s);
    SameRing(e, moves0, z0, s);
    moves, z := Steps(e, moves0, z0, s, t);
  }

  /** Below a mark of at most 100 percent there is room. */
  lemma BelowMarkHasRoom(n: nat, capacity: nat, high: nat)
    requires 0 < capacity && high <= 100 && Percent(n, capacity) < high
    ensures n < capacity
  {
    PercentAtLeast(n, capacity, high);
    TimesMonotone(high, 100, capacity);
    hide Percent;
  }

  lemma NothingIsZero(capacity: nat)
    requires 0 < capacity
    ensures Percent(0, capacity) == 0
  {
  }

  /** One record after another, a producer fills shard 0 up to the high mark. */
  lemma {:induction false} FillsUp(e: Engine, moves0: seq<Move>, z0: Engine, s: Scene, t: nat, call: Call)
    returns (moves: seq<Move>, z: Engine, s': Scene)
    requires Stage(e, moves0, z0, s) && t < |s.points| && s.points[t].Off? && s.g.running && !s.g.closed
    requires 0 < |e.shards| && 0 < e.shards[0].ring.capacity && s.head <= s.tail && Alone(s, t)
    requires Percent(s.tail - s.head, e.shards[0].ring.capacity) < s.g.high <= 100
    requires call.shard == 0 && call.key != 0 && |call.payload| <= e.shards[0].ring.payloadCap
    ensures Stage(e, moves, z, s') && s.tail < s'.tail
    ensures s' == s.(g := s.g.(ticket := s'.g.ticket), tail := s'.tail, points := s.points[t := LatchHot(0)])
    decreases e.shards[0].ring.capacity - (s.tail - s.head)
  {
    hide Stage;
    BelowMarkHasRoom(s.tail - s.head, e.shards[0].ring.capacity, s.g.high);
    hide Percent;
    moves, z, s' := Publishing(e, moves0, z0, s, t, call);
    if s'.points[t].Off? {
      assert s'.points == s.points;
      moves, z, s' := FillsUp(e, moves, z, s', t, call);
    }
  }

  // ----------------------------------------------------------------- a whole dequeue

  /** Where a consumer goes on after a dequeue that found a record, or none. */
  function AfterTake(pc: Point, found: bool): Point
    requires pc.WorkTop? || pc.DrainTop?
  {
    match pc
    case WorkTop(i, n) =>
      if found then if n + 1 < Configs.DRAIN_BATCH then WorkTop(i, n + 1) else ReadHot(i, Batch(i))
      else if n > 0 then ReadHot(i, Batch(i)) else WorkRunning(i)
    case DrainTop(i, total, max) => if found then DrainTop(i, total + 1, max) else ReadHot(i, Sweep(i, total, max))
  }

  function DequeueOf(pc: Point): Point
    requires pc.WorkTop? || pc.DrainTop?
  {
    match pc
    case WorkTop(i, n) => WorkDequeue(i, n)
    case DrainTop(i, total, max) => DrainDequeue(i, total, max)
  }

  /** A worker, or a drain without a limit, about to dequeue from shard 0. */
  predicate Dequeuer(pc: Point) { (pc.WorkTop? && pc.shard == 0) || (pc.DrainTop? && pc.shard == 0 && pc.max <= 0) }

  lemma Enters(e: Engine, moves0: seq<Move>, z0: Engine, s: Scene, t: nat) returns (moves: seq<Move>, z: Engine)
    requires Stage(e, moves0, z0, s) && t < |s.points| && t < |s.pcs| && Dequeuer(s.points[t])
    ensures Stage(e, moves, z, Inside(s, t, DequeueOf(s.points[t]), DeqLoadHead))
  {
    hide Stage;
    hide Sized;
    Shapes(e, moves0, z0, s);
    SameRing(e, moves0, z0, s);
    moves, z := Steps(e, moves0, z0, s, t);
  }

  /** The scene once the thread has been through the ring's dequeue. */
  function Dequeued(s: Scene, t: nat): Scene
    requires t < |s.pcs|
  {
    if s.head < s.tail then s.(head := s.head + 1, pcs := s.pcs[t := Released(s.head)])
    else s.(pcs := s.pcs[t := DeqEmpty])
  }

  lemma Dequeues(e: Engine, moves0: seq<Move>, z0: Engine, s: Scene, t: nat) returns (moves: seq<Move>, z: Engine)
    requires Stage(e, moves0, z0, s) && t < |s.points| && t < |s.pcs| && s.pcs[t] == DeqLoadHead
    requires InRing(s.points[t]) && s.points[t].shard == 0
    ensures Stage(e, moves, z, Dequeued(s, t))
  {
    hide MovesRun;
    hide ExecMoves;
    hide EngineInv;
    hide Inv;
    hide Helped;
    hide Sized;
    hide Solo;
    hide Slot;
    RingSound(z0);
    var k, r' := DequeueSolo(z0.shards[0].ring, t);
    assert RingAt(r', e.shards[0].ring, Dequeued(s, t));
    hide Stage;
    hide RingAt;
    moves, z := Plays(e, moves0, z0, s, t, k, r', Dequeued(s, t));
  }

  lemma TakesBack(e: Engine, moves0: seq<Move>, z0: Engine, s: Scene, t: nat, from: Point)
    returns (moves: seq<Move>, z: Engine)
    requires Stage(e, moves0, z0, s) && t < |s.points| && t < |s.pcs|
    requires Dequeuer(from) && s.points[t] == DequeueOf(from) && (s.pcs[t].Released? || s.pcs[t].DeqEmpty?)
    ensures Stage(e, moves, z, Inside(s, t, AfterTake(from, s.pcs[t].Released?), Idle))
  {
    hide Stage;
    hide Sized;
    Shapes(e, moves0, z0, s);
    SameRing(e, moves0, z0, s);
    moves, z := Steps(e, moves0, z0, s, t);
  }

  /** A consumer that is alone in the ring takes the next record, or finds none. */
  lemma Takes(e: Engine, moves0: seq<Move>, z0: Engine, s: Scene, t: nat)
    returns (moves: seq<Move>, z: Engine, s': Scene)
    requires Stage(e, moves0, z0, s) && t < |s.points| && Dequeuer(s.points[t])
    ensures s.head <= s.tail
    ensures s' == s.(head := if s.head < s.tail then s.head + 1 else s.head,
                     points := s.points[t := AfterTake(s.points[t], s.head < s.tail)])
    ensures Stage(e, moves, z, s')
  {
    hide Stage;
    Shapes(e, moves0, z0, s);
    IdleOutside(e, moves0, z0, s, t);
    moves, z := Enters(e, moves0, z0, s, t);
    s' := Inside(s, t, DequeueOf(s.points[t]), DeqLoadHead);
    moves, z := Dequeues(e, moves, z, s', t);
    s' := Dequeued(s', t);
    moves, z := TakesBack(e, moves, z, s', t, s.points[t]);
    s' := Inside(s', t, AfterTake(s.points[t], s'.pcs[t].Released?), Idle);
    assert s'.pcs == s.pcs;
  }

  // ----------------------------------------------------------------- the occupancy checks of consumers

  /** markDrained reads a hot latch, or a worker sees running cleared: it goes on to read the occupancy. */
  lemma Looks(e: Engine, moves0: seq<Move>, z0: Engine, s: Scene, t: nat) returns (moves: seq<Move>, z: Engine)
    requires Stage(e, moves0, z0, s) && t < |s.points| && t < |s.pcs|
    requires (s.points[t].ReadHot? && s.hot) || (s.points[t].WorkRunning? && !s.g.running)
    requires s.points[t].shard == 0
    ensures Stage(e, moves, z, Inside(s, t, LookOf(s.points[t]), PendLoadHead))
  {
    hide Stage;
    hide Sized;
    Shapes(e, moves0, z0, s);
    SameRing(e, moves0, z0, s);
    moves, z := Steps(e, moves0, z0, s, t);
  }

  function LookOf(pc: Point): Point
    requires pc.ReadHot? || pc.WorkRunning?
  {
    if pc.ReadHot? then GaugeDrained(pc.shard, pc.next) else WorkPending(pc.shard)
  }

  /** markDrained is about to clear a latch whose shard is empty, and a worker whose shard is empty returns. */
  lemma Leaves(e: Engine, moves0: seq<Move>, z0: Engine, s: Scene, t: nat, from: Point)
    returns (moves: seq<Move>, z: Engine)
    requires Stage(e, moves0, z0, s) && t < |s.points| && t < |s.pcs|
    requires (from.ReadHot? || from.WorkRunning?) && from.shard == 0 && s.points[t] == LookOf(from)
    requires s.pcs[t].PendingIs? && s.pcs[t].n == 0
    ensures Stage(e, moves, z, Inside(s, t, if from.ReadHot? then ClearHot(0, from.next) else WorkDone(0), Idle))
  {
    hide Stage;
    hide Sized;
    hide Percent;
    Shapes(e, moves0, z0, s);
    SameRing(e, moves0, z0, s);
    NothingIsZero(e.shards[0].ring.capacity);
    moves, z := Steps(e, moves0, z0, s, t);
  }

  lemma FindsEmpty(e: Engine, moves0: seq<Move>, z0: Engine, s: Scene, t: nat)
    returns (moves: seq<Move>, z: Engine, s': Scene)
    requires Stage(e, moves0, z0, s) && t < |s.points| && s.head == s.tail
    requires (s.points[t].ReadHot? && s.hot) || (s.points[t].WorkRunning? && !s.g.running)
    requires s.points[t].shard == 0
    ensures s' == s.Move(t, if s.points[t].ReadHot? then ClearHot(0, s.points[t].next) else WorkDone(0))
    ensures Stage(e, moves, z, s')
  {
    hide Stage;
    Shapes(e, moves0, z0, s);
    IdleOutside(e, moves0, z0, s, t);
    var p;
    moves, z := Looks(e, moves0, z0, s, t);
    s' := Inside(s, t, LookOf(s.points[t]), PendLoadHead);
    moves, z, p := Reads(e, moves, z, s', t);
    s' := s'.(pcs := s'.pcs[t := p]);
    moves, z := Leaves(e, moves, z, s', t, s.points[t]);
    s' := Inside(s', t, if s.points[t].ReadHot? then ClearHot(0, s.points[t].next) else WorkDone(0), Idle);
    assert s'.pcs == s.pcs;
  }

  // ----------------------------------------------------------------- other single steps

  /** The producer latches the shard hot; the addition comes after. */
  lemma Latches(e: Engine, moves0: seq<Move>, z0: Engine, s: Scene, t: nat) returns (moves: seq<Move>, z: Engine)
    requires Stage(e, moves0, z0, s) && t < |s.points| && s.points[t] == LatchHot(0) && !s.hot
    ensures Stage(e, moves, z, s.(hot := true).Move(t, AddSaturated))
  {
    hide Stage;
    hide Sized;
    Shapes(e, moves0, z0, s);
    SameRing(e, moves0, z0, s);
    moves, z := Steps(e, moves0, z0, s, t);
  }

  /** markDrained finds the latch cold, or a worker finds the engine running: both go on. */
  lemma Passes(e: Engine, moves0: seq<Move>, z0: Engine, s: Scene, t: nat) returns (moves: seq<Move>, z: Engine)
    requires Stage(e, moves0, z0, s) && t < |s.points|
    requires (s.points[t].ReadHot? && !s.hot) || (s.points[t].WorkRunning? && s.g.running)
    requires s.points[t].shard == 0
    ensures Stage(e, moves, z, s.Move(t, if s.points[t].ReadHot? then Continue(s.points[t].next) else WorkTop(0, 0)))
  {
    hide Stage;
    hide Sized;
    Shapes(e, moves0, z0, s);
    SameRing(e, moves0, z0, s);
    moves, z := Steps(e, moves0, z0, s, t);
  }
}
