/**
 The whole engine as an interleaved machine: one ring per shard, the ticket dispenser, the running flag, the
 saturation latch (a hot flag per shard, a global counter that wraps as a 64-bit word, and the gate) and the
 counters. Threads run Publish, a shard's worker, Drain or the start of Close, one atomic step at a time; inside
 a ring operation they take the steps of RingMachine.
 */
module EngineMachine {
  import opened Bits
  import opened Records
  import opened Checksums
  import Configs
  import Hysteresis
  import opened RingMachine

  datatype Shard = Shard(ring: Ring, hot: bool, ingested: nat, consumed: nat, rejected: nat)

  /**
   The engine-wide state. History, which influences no step: forced says that Close has forced the valve open;
   stopTails holds each ring's tail at the moment Close cleared running.
   */
  datatype Globals = Globals(
    high: nat, low: nat, checksums: bool,
    ticket: nat, running: bool, dropped: nat,
    saturated: nat, closed: bool, closes: nat, opens: nat, rejects: nat,
    forced: bool, stopTails: seq<nat>)

  /** Arguments of publish; routing has already picked the shard. */
  datatype Call = Call(shard: nat, key: nat, flags: nat, payload: seq<Byte>, now: nat)

  /** What a thread goes on with after markSaturated or markDrained. */
  datatype Next = Finish | Batch(shard: nat) | Sweep(shard: nat, total: nat, max: int)

  datatype Point =
    | Off
    // publish
    | CheckRunning(call: Call)
    | CheckGate(call: Call)
    | Refuse
    | DrawTicket(call: Call)
    | InPublish(shard: nat)
    | CountDropped(shard: nat)
    | Gauge(shard: nat)
    // markSaturated
    | LatchHot(shard: nat)
    | AddSaturated
    | ShutGate(next: Next)
    | CountClose(next: Next)
    // markDrained
    | ReadHot(shard: nat, next: Next)
    | GaugeDrained(shard: nat, next: Next)
    | ClearHot(shard: nat, next: Next)
    | SubSaturated(next: Next)
    | OpenGate(next: Next)
    | CountOpen(next: Next)
    | Recheck(next: Next)
    // worker: n records consumed in the current batch
    | WorkTop(shard: nat, n: nat)
    | WorkDequeue(shard: nat, n: nat)
    | WorkRunning(shard: nat)
    | WorkPending(shard: nat)
    | WorkDone(shard: nat)
    // Drain
    | DrainTop(shard: nat, total: nat, max: int)
    | DrainDequeue(shard: nat, total: nat, max: int)
    // Close, up to the release of the valve
    | StopRunning
    | ForceOpen

  datatype Engine = Engine(shards: seq<Shard>, g: Globals, points: seq<Point>)

  datatype Task = PublishCall(call: Call) | Worker(shard: nat) | Drain(max: int) | Close

  datatype Move = Start(thread: nat, task: Task) | Go(thread: nat)

  /** Points at which a thread is inside the ring of its shard. */
  predicate InRing(pc: Point) {
    pc.InPublish? || pc.Gauge? || pc.GaugeDrained? || pc.WorkDequeue? || pc.WorkPending? || pc.DrainDequeue?
  }

  /** Points from which the next step may enter a ring operation. */
  predicate NeedsIdle(pc: Point) { pc.DrawTicket? || pc.ReadHot? || pc.WorkTop? || pc.WorkRunning? || pc.DrainTop? }

  /** The results a ring operation can hand back at each point; Broken is the one that never comes. */
  predicate Answers(pc: Point, r: Pc) {
    && (pc.InPublish? ==> r.Published? || r.ClaimFull?)
    && (pc.Gauge? || pc.GaugeDrained? || pc.WorkPending? ==> r.PendingIs?)
    && (pc.WorkDequeue? || pc.DrainDequeue? ==> r.Released? || r.DeqEmpty?)
  }

  /** The shard a thread's next step works on; shard 0 where it works on none. */
  function ShardOf(shards: nat, pc: Point): nat {
    match pc
    case CheckRunning(call) => call.shard
    case CheckGate(call) => call.shard
    case DrawTicket(call) => call.shard
    case DrainTop(i, _, _) => if i < shards then i else 0
    case InPublish(i) => i
    case CountDropped(i) => i
    case Gauge(i) => i
    case LatchHot(i) => i
    case ReadHot(i, _) => i
    case GaugeDrained(i, _) => i
    case ClearHot(i, _) => i
    case WorkTop(i, _) => i
    case WorkDequeue(i, _) => i
    case WorkRunning(i) => i
    case WorkPending(i) => i
    case DrainDequeue(i, _, _) => i
    case _ => 0
  }

  // ----------------------------------------------------------------- one thread, one shard

  /** The outcome of a step: the new engine-wide state, the new shard, the new program point. */
  datatype Effect = Effect(g: Globals, sh: Shard, pc: Point)

  ghost predicate Ready(sh: Shard, pc: Point, t: nat) {
    && Sized(sh.ring) && t < |sh.ring.pcs|
    && (InRing(pc) ==>
      if Returned(sh.ring.pcs[t]) then Answers(pc, sh.ring.pcs[t]) else RingMachine.Enabled(sh.ring, Step(t)))
    && (NeedsIdle(pc) ==> sh.ring.pcs[t].Idle?)
    && (pc.DrawTicket? ==> |pc.call.payload| <= sh.ring.payloadCap)
  }

  /** Thread t starts ring operation op in the shard. */
  ghost function Enter(sh: Shard, t: nat, op: Op): Shard
    requires RingMachine.Enabled(sh.ring, Invoke(t, op))
  {
    sh.(ring := RingMachine.Apply(sh.ring, Invoke(t, op)))
  }

  /** Thread t takes back the result of its ring operation. */
  ghost function Leave(sh: Shard, t: nat): Shard
    requires RingMachine.Enabled(sh.ring, Return(t))
  {
    sh.(ring := RingMachine.Apply(sh.ring, Return(t)))
  }

  /** Where a thread continues after the latch. */
  function Continue(next: Next): Point {
    match next
    case Finish => Off
    case Batch(i) => WorkTop(i, 0)
    case Sweep(i, total, max) => DrainTop(i + 1, total, max)
  }

  predicate InMark(pc: Point) { pc.LatchHot? || pc.AddSaturated? || pc.ShutGate? || pc.CountClose? }

  predicate InDrained(pc: Point) {
    pc.ReadHot? || pc.ClearHot? || pc.SubSaturated? || pc.OpenGate? || pc.CountOpen? || pc.Recheck?
  }

  predicate InPublishCall(pc: Point) {
    pc.CheckRunning? || pc.CheckGate? || pc.Refuse? || pc.DrawTicket? || pc.CountDropped?
  }

  predicate InConsume(pc: Point) { pc.WorkTop? || pc.WorkRunning? || pc.DrainTop? }

  /** One atomic step of thread t at pc, working on shard sh of an engine with `shards` shards. */
  ghost function Local(g: Globals, sh: Shard, pc: Point, t: nat, shards: nat): Effect
    requires Ready(sh, pc, t)
  {
    if InRing(pc) then
      if Returned(sh.ring.pcs[t]) then Answer(g, sh, pc, t)
      else Effect(g, sh.(ring := RingMachine.Apply(sh.ring, Step(t))), pc)
    else if InMark(pc) then MarkStep(g, sh, pc, t)
    else if InDrained(pc) then DrainedStep(g, sh, pc, t)
    else if InPublishCall(pc) then PublishStep(g, sh, pc, t)
    else if InConsume(pc) then ConsumeStep(g, sh, pc, t, shards)
    else if pc.ForceOpen? then Effect(g.(closed := false, forced := true), sh, Off)
    else Effect(g, sh, pc)
  }

  /**
   Going on with the result of a ring operation. publish counts the record and gauges the occupancy, or counts the
   rejection; the gauges decide on the latch and the worker's exit; consumers count the record or end their batch.
   */
  ghost function Answer(g: Globals, sh: Shard, pc: Point, t: nat): Effect
    requires Ready(sh, pc, t) && InRing(pc) && Returned(sh.ring.pcs[t])
  {
    var r, back := sh.ring.pcs[t], Leave(sh, t);
    match pc
    case InPublish(i) =>
      if r.Published? then Effect(g, Enter(back.(ingested := sh.ingested + 1), t, Pending), Gauge(i))
      else Effect(g, back.(rejected := sh.rejected + 1), CountDropped(i))
    case Gauge(i) => Effect(g, back, if Hysteresis.Percent(r.n, sh.ring.capacity) >= g.high then LatchHot(i) else Off)
    case GaugeDrained(i, next) =>
      Effect(g, back, if Hysteresis.Percent(r.n, sh.ring.capacity) > g.low then Continue(next) else ClearHot(i, next))
    case WorkPending(i) => Effect(g, back, if r.n == 0 then WorkDone(i) else WorkTop(i, 0))
    case WorkDequeue(i, n) =>
      if r.Released? then
        Effect(g, back.(consumed := sh.consumed + 1),
               if n + 1 < Configs.DRAIN_BATCH then WorkTop(i, n + 1) else ReadHot(i, Batch(i)))
      else Effect(g, back, if n > 0 then ReadHot(i, Batch(i)) else WorkRunning(i))
    case DrainDequeue(i, total, max) =>
      if r.Released? then Effect(g, back.(consumed := sh.consumed + 1), DrainTop(i, total + 1, max))
      else Effect(g, back, ReadHot(i, Sweep(i, total, max)))
  }

  /** markSaturated, and shut. */
  function MarkStep(g: Globals, sh: Shard, pc: Point, t: nat): Effect
    requires InMark(pc)
  {
    match pc
    case LatchHot(i) => if sh.hot then Effect(g, sh, Off) else Effect(g, sh.(hot := true), AddSaturated)
    case AddSaturated => Effect(g.(saturated := Word64(g.saturated + 1)), sh, ShutGate(Finish))
    case ShutGate(next) =>
      if g.closed then Effect(g, sh, Continue(next)) else Effect(g.(closed := true), sh, CountClose(next))
    case CountClose(next) => Effect(g.(closes := g.closes + 1), sh, Continue(next))
  }

  /** markDrained, apart from its gauge and its shut. */
  ghost function DrainedStep(g: Globals, sh: Shard, pc: Point, t: nat): Effect
    requires Ready(sh, pc, t) && InDrained(pc)
  {
    match pc
    case ReadHot(i, next) =>
      if sh.hot then Effect(g, Enter(sh, t, Pending), GaugeDrained(i, next)) else Effect(g, sh, Continue(next))
    case ClearHot(i, next) =>
      if sh.hot then Effect(g, sh.(hot := false), SubSaturated(next)) else Effect(g, sh, Continue(next))
    case SubSaturated(next) =>
      var left := Word64(g.saturated - 1);
      Effect(g.(saturated := left), sh, if left == 0 then OpenGate(next) else Continue(next))
    case OpenGate(next) =>
      if g.closed then Effect(g.(closed := false), sh, CountOpen(next)) else Effect(g, sh, Recheck(next))
    case CountOpen(next) => Effect(g.(opens := g.opens + 1), sh, Recheck(next))
    case Recheck(next) => Effect(g, sh, if g.saturated != 0 then ShutGate(next) else Continue(next))
  }

  /** The record a publish writes: the ticket just drawn, and the checksum if checksums are on. */
  function RequestOf(g: Globals, call: Call): Request {
    Request(g.ticket + 1, call.now, call.key, call.flags, call.payload, Stamp(g.checksums, call.payload))
  }

  /** publish outside the ring: the running flag, the gate, the ticket, the drop counter. */
  ghost function PublishStep(g: Globals, sh: Shard, pc: Point, t: nat): Effect
    requires Ready(sh, pc, t) && InPublishCall(pc)
  {
    match pc
    case CheckRunning(call) => Effect(g, sh, if g.running then CheckGate(call) else Off)
    case CheckGate(call) => Effect(g, sh, if g.closed then Refuse else DrawTicket(call))
    case Refuse => Effect(g.(rejects := g.rejects + 1), sh, Off)
    case DrawTicket(call) =>
      Effect(g.(ticket := g.ticket + 1), Enter(sh, t, Publish(RequestOf(g, call))), InPublish(call.shard))
    case CountDropped(i) => Effect(g.(dropped := g.dropped + 1), sh, LatchHot(i))
  }

  /** worker and Drain between dequeues. */
  ghost function ConsumeStep(g: Globals, sh: Shard, pc: Point, t: nat, shards: nat): Effect
    requires Ready(sh, pc, t) && InConsume(pc)
  {
    match pc
    case WorkTop(i, n) => Effect(g, Enter(sh, t, Dequeue), WorkDequeue(i, n))
    case WorkRunning(i) =>
      if g.running then Effect(g, sh, WorkTop(i, 0)) else Effect(g, Enter(sh, t, Pending), WorkPending(i))
    case DrainTop(i, total, max) =>
      if i >= shards then Effect(g, sh, Off)
      else if max <= 0 || total < max then Effect(g, Enter(sh, t, Dequeue), DrainDequeue(i, total, max))
      else Effect(g, sh, ReadHot(i, Sweep(i, total, max)))
  }

  // ----------------------------------------------------------------- the engine

  ghost predicate Fits(e: Engine) {
    && 0 < |e.shards|
    && |e.shards| + |e.points| < TWO63
  }

  ghost predicate MoveEnabled(e: Engine, m: Move) {
    && Fits(e)
    && m.thread < |e.points|
    && match m
       case Start(t, PublishCall(call)) => e.points[t].Off? && call.shard < |e.shards|
       case Start(t, Worker(i)) => e.points[t].Off? && i < |e.shards|
       case Start(t, _) => e.points[t].Off?
       case Go(t) =>
         && !e.points[t].Off? && !e.points[t].WorkDone?
         && ShardOf(|e.shards|, e.points[t]) < |e.shards|
         && Ready(e.shards[ShardOf(|e.shards|, e.points[t])], e.points[t], t)
  }

  /** The point at which a task begins; publish refuses key 0 and oversized payloads before touching anything. */
  function Entry(e: Engine, task: Task): Point
    requires task.PublishCall? ==> task.call.shard < |e.shards|
  {
    match task
    case PublishCall(call) =>
      if call.key == 0 || |call.payload| > e.shards[call.shard].ring.payloadCap then Off else CheckRunning(call)
    case Worker(i) => WorkTop(i, 0)
    case Drain(max) => DrainTop(0, 0, max)
    case Close => StopRunning
  }

  ghost function ApplyMove(e: Engine, m: Move): Engine
    requires MoveEnabled(e, m)
  {
    match m
    case Start(t, task) => e.(points := e.points[t := Entry(e, task)])
    case Go(t) =>
      if e.points[t].StopRunning? then Stop(e, t)
      else
        var k := ShardOf(|e.shards|, e.points[t]);
        var f := Local(e.g, e.shards[k], e.points[t], t, |e.shards|);
        Engine(e.shards[k := f.sh], f.g, e.points[t := f.pc])
  }

  /** Close clears running; a later Close finds the engine closed and returns. */
  function Stop(e: Engine, t: nat): Engine
    requires t < |e.points|
  {
    if !e.g.running then e.(points := e.points[t := Off])
    else e.(
      points := e.points[t := ForceOpen],
      g := e.g.(running := false,
          stopTails := seq(|e.shards|, i requires 0 <= i < |e.shards| => e.shards[i].ring.tail)))
  }

  /** A fresh engine, as New leaves it. */
  ghost predicate FreshEngine(e: Engine) {
    && Fits(e)
    && (forall i :: 0 <= i < |e.shards| ==>
      && RingMachine.Init(e.shards[i].ring, |e.points|) && 2 <= e.shards[i].ring.capacity
      && !e.shards[i].hot && e.shards[i].ingested == e.shards[i].consumed == e.shards[i].rejected == 0)
    && (forall t :: 0 <= t < |e.points| ==> e.points[t].Off?)
    && e.g.ticket == e.g.dropped == e.g.saturated == e.g.closes == e.g.opens == e.g.rejects == 0
    && e.g.running && !e.g.closed && !e.g.forced
    && e.g.low < e.g.high <= 100
  }

  ghost predicate MovesRun(e: Engine, moves: seq<Move>)
    decreases |moves|
  {
    |moves| == 0 || (MoveEnabled(e, moves[0]) && MovesRun(ApplyMove(e, moves[0]), moves[1..]))
  }

  ghost function ExecMoves(e: Engine, moves: seq<Move>): Engine
    requires MovesRun(e, moves)
    decreases |moves|
  {
    if |moves| == 0 then e else ExecMoves(ApplyMove(e, moves[0]), moves[1..])
  }
}
