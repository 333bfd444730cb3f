/**
 Every run of the engine is, for each of its shards, a run of that shard's ring. So what is proved of the ring alone
 holds inside the engine: in particular a worker that is the only consumer of its shard delivers in strict position
 order.
 */
module EngineRings {
  import opened Slots
  import opened Sums
  import opened RingMachine
  import opened RingSafety
  import opened RingDelivery
  import opened RingProgress
  import opened RingRuns
  import opened EngineMachine
  import opened EngineSafety
  import opened EngineBooks
  import opened EngineClose

  // ----------------------------------------------------------------- who consumes

  /** The thread goes on consuming from shard i afterwards. */
  predicate ForConsumer(next: Next, i: nat) { next == Batch(i) || next.Sweep? }

  /** A worker of shard i that has not returned, or a drain. */
  predicate Consumer(pc: Point, i: nat) {
    match pc
    case WorkTop(k, _) => k == i
    case WorkDequeue(k, _) => k == i
    case WorkRunning(k) => k == i
    case WorkPending(k) => k == i
    case DrainTop(_, _, _) => true
    case DrainDequeue(_, _, _) => true
    case ReadHot(_, next) => ForConsumer(next, i)
    case GaugeDrained(_, next) => ForConsumer(next, i)
    case ClearHot(_, next) => ForConsumer(next, i)
    case SubSaturated(next) => ForConsumer(next, i)
    case OpenGate(next) => ForConsumer(next, i)
    case CountOpen(next) => ForConsumer(next, i)
    case Recheck(next) => ForConsumer(next, i)
    case ShutGate(next) => ForConsumer(next, i)
    case CountClose(next) => ForConsumer(next, i)
    case _ => false
  }

  /** Tasks that consume from shard i. */
  predicate Consumes(task: Task, i: nat) { task == Worker(i) || task.Drain? }

  /** Thread t starts a task that consumes from shard i. */
  predicate Starts(moves: seq<Move>, t: nat, i: nat) {
    exists m :: m in moves && m.Start? && m.thread == t && Consumes(m.task, i)
  }

  /** Thread t consumes from shard i at the start of the run, or starts to in it. */
  ghost predicate MayConsume(e: Engine, moves: seq<Move>, t: nat, i: nat) {
    (t < |e.points| && Consumer(e.points[t], i)) || Starts(moves, t, i)
  }

  /** Only thread t starts tasks that consume from shard i. */
  predicate OnlyConsumer(moves: seq<Move>, t: nat, i: nat) {
    forall m :: m in moves && m.Start? && Consumes(m.task, i) ==> m.thread == t
  }

  // ----------------------------------------------------------------- one step

  predicate DequeuesOnly(actions: seq<Action>, t: nat) {
    forall a :: a in actions && a.Invoke? && a.op.Dequeue? ==> a.thread == t
  }

  predicate NoDequeues(actions: seq<Action>) { forall a :: a in actions ==> !(a.Invoke? && a.op.Dequeue?) }

  /** A step of thread t on its shard is a run of the shard's ring, and starts a dequeue only as a consumer. */
  lemma LocalProject(g: Globals, sh: Shard, pc: Point, t: nat, n: nat, i: nat) returns (acts: seq<Action>)
    requires Ready(sh, pc, t) && !pc.StopRunning? && i == ShardOf(n, pc)
    ensures RingMachine.Runs(sh.ring, acts) && RingMachine.Exec(sh.ring, acts) == Local(g, sh, pc, t, n).sh.ring
    ensures DequeuesOnly(acts, t) && (!Consumer(pc, i) ==> NoDequeues(acts))
  {
    hide RingMachine.Runs;
    hide RingMachine.Exec;
    hide Answer;
    hide RingMachine.StepOf;
    if InRing(pc) && !Returned(sh.ring.pcs[t]) {
      RingOne(sh.ring, Step(t));
      acts := [Step(t)];
    } else if InRing(pc) {
      acts := AnswerProject(g, sh, pc, t);
    } else {
      acts := OutsideProject(g, sh, pc, t, n);
      hide Local;
    }
  }

  /** No step makes a thread a consumer of a shard. */
  lemma LocalConsumers(g: Globals, sh: Shard, pc: Point, t: nat, n: nat)
    requires Ready(sh, pc, t) && !pc.StopRunning?
    ensures forall j :: !Consumer(pc, j) ==> !Consumer(Local(g, sh, pc, t, n).pc, j)
  {
    hide Enter;
    hide Leave;
    hide RingMachine.Enabled;
    hide Sized;
    if InRing(pc) && Returned(sh.ring.pcs[t]) {
      AnswerConsumers(g, sh, pc, t);
      hide Answer;
    }
  }

  lemma AnswerConsumers(g: Globals, sh: Shard, pc: Point, t: nat)
    requires Ready(sh, pc, t) && InRing(pc) && Returned(sh.ring.pcs[t])
    ensures forall j :: !Consumer(pc, j) ==> !Consumer(Answer(g, sh, pc, t).pc, j)
  {
    hide Enter;
    hide Leave;
    hide RingMachine.Enabled;
    hide Sized;
  }

  lemma AnswerProject(g: Globals, sh: Shard, pc: Point, t: nat) returns (acts: seq<Action>)
    requires Ready(sh, pc, t) && InRing(pc) && Returned(sh.ring.pcs[t])
    ensures RingMachine.Runs(sh.ring, acts) && RingMachine.Exec(sh.ring, acts) == Answer(g, sh, pc, t).sh.ring
    ensures NoDequeues(acts)
  {
    hide RingMachine.Runs;
    hide RingMachine.Exec;
    var back := RingMachine.Apply(sh.ring, Return(t));
    if pc.InPublish? && sh.ring.pcs[t].Published? {
      RingTwo(sh.ring, Return(t), Invoke(t, Pending));
      acts := [Return(t), Invoke(t, Pending)];
    } else {
      RingOne(sh.ring, Return(t));
      acts := [Return(t)];
    }
    hide RingMachine.Apply;
    hide RingMachine.Enabled;
  }

  lemma OutsideProject(g: Globals, sh: Shard, pc: Point, t: nat, n: nat) returns (acts: seq<Action>)
    requires Ready(sh, pc, t) && !InRing(pc) && !pc.StopRunning?
    ensures RingMachine.Runs(sh.ring, acts) && RingMachine.Exec(sh.ring, acts) == Local(g, sh, pc, t, n).sh.ring
    ensures DequeuesOnly(acts, t)
    ensures !pc.WorkTop? && !pc.DrainTop? ==> NoDequeues(acts)
  {
    hide RingMachine.Runs;
    hide RingMachine.Exec;
    var op := if pc.DrawTicket? then Publish(RequestOf(g, pc.call)) else if pc.WorkTop? || pc.DrainTop? then Dequeue
        else Pending;
    if NeedsIdle(pc) {
      RingOne(sh.ring, Invoke(t, op));
    }
    RingNone(sh.ring);
    hide RingMachine.Apply;
    hide RingMachine.Enabled;
    hide Sized;
    acts := if Local(g, sh, pc, t, n).sh.ring == sh.ring then [] else [Invoke(t, op)];
  }

  /** One move of the engine is a run, possibly empty, of the ring of each shard. */
  lemma ProjectMove(e: Engine, m: Move, i: nat) returns (acts: seq<Action>)
    requires EngineInv(e) && MoveEnabled(e, m) && i < |e.shards|
    ensures var e' := ApplyMove(e, m);
      && |e'.shards| == |e.shards| && |e'.points| == |e.points|
      && RingMachine.Runs(e.shards[i].ring, acts) && RingMachine.Exec(e.shards[i].ring, acts) == e'.shards[i].ring
    ensures m.thread < |e.points| && DequeuesOnly(acts, m.thread)
    ensures !Consumer(e.points[m.thread], i) ==> NoDequeues(acts)
    ensures forall u :: 0 <= u < |e.points| && u != m.thread ==> ApplyMove(e, m).points[u] == e.points[u]
    ensures m.Go? ==> forall j :: !Consumer(e.points[m.thread], j) ==>
        !Consumer(ApplyMove(e, m).points[m.thread], j)
  {
    var t := m.thread;
    acts := [];
    RingNone(e.shards[i].ring);
    hide RingMachine.Runs;
    hide RingMachine.Exec;
    hide EngineInv;
    hide Local;
    hide Ready;
    hide Sound;
    hide Balanced;
    hide Consumer;
    if m.Go? && !e.points[t].StopRunning? {
      var k, f := StepIs(e, t);
      var local := LocalProject(e.g, e.shards[k], e.points[t], t, |e.shards|, k);
      LocalConsumers(e.g, e.shards[k], e.points[t], t, |e.shards|);
      if i == k {
        acts := local;
      }
    }
  }

  /** Starting a task makes a thread a consumer of shard i only if the task is one that consumes from it. */
  lemma StartConsumer(e: Engine, m: Move, i: nat)
    requires MoveEnabled(e, m) && m.Start? && !Consumes(m.task, i)
    ensures !Consumer(ApplyMove(e, m).points[m.thread], i)
  {
  }

  // ----------------------------------------------------------------- whole runs

  /** Whoever may consume after the first move of a run may consume in the run. */
  lemma MayConsumeBefore(e: Engine, moves: seq<Move>, u: nat, i: nat)
    requires 0 < |moves| && MoveEnabled(e, moves[0]) && moves[0].thread < |e.points|
    requires var m, e' := moves[0], ApplyMove(e, moves[0]);
      && |e'.points| == |e.points|
      && (forall v :: 0 <= v < |e.points| && v != m.thread ==> e'.points[v] == e.points[v])
      && (m.Go? ==> forall j :: !Consumer(e.points[m.thread], j) ==> !Consumer(e'.points[m.thread], j))
      && MayConsume(e', moves[1..], u, i)
    ensures MayConsume(e, moves, u, i)
  {
    var m := moves[0];
    assert m in moves;
    if m.Start? && !Consumes(m.task, i) {
      StartConsumer(e, m, i);
    }
    hide ApplyMove;
    hide MoveEnabled;
    hide Consumer;
  }

  /** Dequeues are started only by threads that may consume. */
  ghost predicate ByConsumers(actions: seq<Action>, e: Engine, moves: seq<Move>, i: nat) {
    forall a :: a in actions && a.Invoke? && a.op.Dequeue? ==> MayConsume(e, moves, a.thread, i)
  }

  /**
   Every run of the engine is a run of each shard's ring, from its ring at the start to its ring at the end; only
   threads that consume from the shard at the start, or start a task that does, dequeue in it.
   */
  lemma {:induction false} Project(e: Engine, moves: seq<Move>, i: nat) returns (actions: seq<Action>)
    requires EngineInv(e) && MovesRun(e, moves) && i < |e.shards|
    ensures var z := ExecMoves(e, moves);
      && |z.shards| == |e.shards|
      && RingMachine.Runs(e.shards[i].ring, actions)
      && RingMachine.Exec(e.shards[i].ring, actions) == z.shards[i].ring
    ensures ByConsumers(actions, e, moves, i)
    decreases |moves|
  {
    if |moves| == 0 {
      actions := [];
      RingNone(e.shards[i].ring);
    } else {
      var m, r := moves[0], e.shards[i].ring;
      hide EngineInv;
      hide ApplyMove;
      hide MoveEnabled;
      hide RingMachine.Runs;
      hide RingMachine.Exec;
      hide Consumer;
      var first := ProjectMove(e, m, i);
      KeepsEngineInv(e, m);
      var e' := ApplyMove(e, m);
      var rest := Project(e', moves[1..], i);
      RingConcat(r, first, rest);
      actions := first + rest;
      forall a | a in actions && a.Invoke? && a.op.Dequeue? ensures MayConsume(e, moves, a.thread, i) {
        if a in rest {
          MayConsumeBefore(e, moves, a.thread, i);
        }
      }
    }
  }

  /** In every run of the engine, retries on a ring's cursors are paid for by other threads' successes on them. */
  lemma EngineRetriesPaid(e: Engine, moves: seq<Move>, i: nat)
    requires FreshEngine(e) && MovesRun(e, moves) && i < |e.shards|
    ensures var z := ExecMoves(e, moves);
      && i < |z.shards|
      && var r := z.shards[i].ring;
         && |r.tallies| == |r.pcs|
         && forall t :: 0 <= t < |r.pcs| ==>
              && r.tallies[t].claimRetries <= Sum(r.tallies, ClaimsOf) - r.tallies[t].claims
              && r.tallies[t].commitRetries <= Sum(r.tallies, CommitsOf) - r.tallies[t].commits
              && r.tallies[t].takeRetries <= Sum(r.tallies, TakesOf) - r.tallies[t].takes
  {
    InitEngineInv(e);
    var r := e.shards[i].ring;
    assert RingMachine.Init(r, |e.points|) && 2 <= r.capacity;
    InitProgress(r, |e.points|);
    var actions := Project(e, moves, i);
    hide FreshEngine;
    hide MovesRun;
    hide ExecMoves;
    hide EngineInv;
    RetriesArePaid(r, actions);
    hide RingMachine.Exec;
    hide RingMachine.Runs;
    hide CellOk;
    hide ThreadOk;
  }

  /** The deliveries of a ring whose only consumer is thread t: positions 0, 1, 2, ... in order, each as published. */
  ghost predicate InOrder(deliveries: seq<Delivery>, end: Ring, t: nat) {
    && 0 < end.capacity && t < |end.pcs| && |deliveries| == NextDelivery(end, t) <= end.head <= |end.log|
    && forall k :: 0 <= k < |deliveries| ==>
         && deliveries[k].pos == k
         && var r, q := deliveries[k].record, end.log[k].req;
            && r.ticket == q.ticket && r.timestamp == q.timestamp && r.key == q.key && r.payload == q.payload
            && r.checksum == q.checksum && r.flags % 2 == 1 && r.flags / 2 == q.flags / 2
            && r.epoch == end.epoch && r.slot == Slot(k, end.capacity)
  }

  lemma InitSole(r: Ring, threads: nat, t: nat)
    requires RingMachine.Init(r, threads) && 2 <= r.capacity && t < threads
    ensures Inv(r) && Sole(r, t) && NextDelivery(r, t) == 0 && r.tail == r.head == |r.log| == 0
  {
    InitInv(r, threads);
    hide Inv;
  }

  lemma SoleInOrder(r: Ring, threads: nat, t: nat, actions: seq<Action>)
    requires RingMachine.Init(r, threads) && 2 <= r.capacity && t < threads
    requires RingMachine.Runs(r, actions) && DequeuesOnly(actions, t)
    ensures InOrder(Deliveries(r, actions), RingMachine.Exec(r, actions), t)
  {
    hide RingMachine.Init;
    hide RingMachine.Runs;
    hide RingMachine.Exec;
    hide Inv;
    hide Slot;
    hide Delivers;
    hide Claims;
    hide Takes;
    hide Deliveries;
    InitSole(r, threads, t);
    SoleConsumerInOrder(r, t, actions);
    DeliversExactly(r, threads, actions);
    ClaimsInOrder(r, actions);
    TakesInOrder(r, actions);
    ExactlyInOrder(Claims(r, actions), Takes(r, actions), Deliveries(r, actions), RingMachine.Exec(r, actions), t);
  }

  lemma ExactlyInOrder(claims: seq<Claim>, takes: seq<nat>, deliveries: seq<Delivery>, end: Ring, t: nat)
    requires Delivers(claims, takes, deliveries, end) && t < |end.pcs|
    requires |takes| == end.head && |claims| == |end.log|
    requires forall k :: 0 <= k < |claims| ==> claims[k] == Claim(k, end.log[k].req)
    requires |deliveries| == NextDelivery(end, t) && forall k :: 0 <= k < |deliveries| ==> deliveries[k].pos == k
    ensures InOrder(deliveries, end, t)
  {
    hide Slot;
  }

  /**
   When thread t is the only one to start tasks that consume from shard i, what it is delivered is, at any time, a
   prefix of the shard's log: positions 0, 1, 2, ... in order, each once, each exactly as published. Once its worker
   has returned that prefix is everything taken, and covers every position claimed before Close cleared running.
   */
  lemma WorkerDeliversInOrder(e: Engine, moves: seq<Move>, i: nat, t: nat) returns (actions: seq<Action>)
    requires FreshEngine(e) && MovesRun(e, moves) && i < |e.shards| && t < |e.points|
    requires OnlyConsumer(moves, t, i)
    ensures i < |ExecMoves(e, moves).shards| && t < |ExecMoves(e, moves).points|
    ensures RingMachine.Runs(e.shards[i].ring, actions)
    ensures RingMachine.Exec(e.shards[i].ring, actions) == ExecMoves(e, moves).shards[i].ring
    ensures InOrder(Deliveries(e.shards[i].ring, actions), ExecMoves(e, moves).shards[i].ring, t)
    ensures var z := ExecMoves(e, moves);
      z.points[t].WorkDone? && z.points[t].shard == i ==>
        && |Deliveries(e.shards[i].ring, actions)| == z.shards[i].ring.head
        && i < |z.g.stopTails| && z.g.stopTails[i] <= z.shards[i].ring.head
  {
    hide FreshEngine;
    hide MovesRun;
    hide ExecMoves;
    hide RingMachine.Runs;
    hide RingMachine.Exec;
    InitStop(e);
    RunStop(e, moves);
    var r, z := e.shards[i].ring, ExecMoves(e, moves);
    InitConsumes(e, i);
    actions := Project(e, moves, i);
    assert DequeuesOnly(actions, t);
    KeepsPoints(e, moves);
    SoleInOrder(r, |e.points|, t, actions);
    if z.points[t].WorkDone? && z.points[t].shard == i {
      DoneHasAll(z, i, t);
    }
  }

  lemma InitConsumes(e: Engine, i: nat)
    requires FreshEngine(e) && i < |e.shards|
    ensures forall u :: 0 <= u < |e.points| ==> !Consumer(e.points[u], i)
    ensures RingMachine.Init(e.shards[i].ring, |e.points|) && 2 <= e.shards[i].ring.capacity
  {
  }

  /** A returned worker is outside its ring, and has seen everything claimed before Close cleared running. */
  lemma DoneHasAll(z: Engine, i: nat, t: nat)
    requires EngineInv(z) && StopOk(z) && i < |z.shards| && t < |z.points| && z.points[t] == WorkDone(i)
    ensures t < |z.shards[i].ring.pcs| && NextDelivery(z.shards[i].ring, t) == z.shards[i].ring.head
    ensures i < |z.g.stopTails| && z.g.stopTails[i] <= z.shards[i].ring.head
  {
    HomeIsOk(z, t);
    assert ExitOk(z.g, z.shards[i], z.points[t], t);
    assert ShardOk(z, i);
    assert AtHome(z.points[t], i, z.shards[i].ring.pcs[t]);
    hide RingOk;
  }

  lemma {:induction false} KeepsPoints(e: Engine, moves: seq<Move>)
    requires EngineInv(e) && MovesRun(e, moves)
    ensures |ExecMoves(e, moves).points| == |e.points|
    decreases |moves|
  {
    if |moves| > 0 {
      KeepsEngineInv(e, moves[0]);
      var acts := ProjectMove(e, moves[0], 0);
      hide EngineInv;
      KeepsPoints(ApplyMove(e, moves[0]), moves[1..]);
    }
  }
}
