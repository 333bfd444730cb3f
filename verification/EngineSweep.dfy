/**
 Drain in the interleaved engine: whatever other threads do meanwhile, a drain that returns has handed over at most its
 limit, and unless it reached that limit it has seen every shard empty since it began: everything committed before has
 been taken.
 */
module EngineSweep {
  import opened Slots
  import opened RingMachine
  import opened RingSafety
  import opened RingProgress
  import opened EngineMachine
  import opened EngineSafety
  import opened EngineBooks
  import opened EngineRings
  import opened EngineEvents

  /** Everything that was committed when the drain began has been taken from the first n shards. */
  ghost predicate TakenTo(e: Engine, from: seq<nat>, n: int) {
    forall i :: 0 <= i < n && i < |e.shards| && i < |from| ==> from[i] <= e.shards[i].ring.head
  }

  predicate Full(max: int, count: nat) { 0 < max && count == max }

  /** Between two shards: the first n are done with. */
  ghost predicate Swept(e: Engine, from: seq<nat>, max: int, count: nat, n: int) {
    (max <= 0 || count <= max) && (TakenTo(e, from, n) || Full(max, count))
  }

  ghost predicate SweptNext(e: Engine, from: seq<nat>, max: int, count: nat, next: Next) {
    next.Sweep? && next.max == max && next.total == count && Swept(e, from, max, count, next.shard + 1)
  }

  /** Thread t is inside a drain that has handed over `count` records, or has returned from it. */
  ghost predicate SweepAt(e: Engine, t: nat, from: seq<nat>, max: int, count: nat)
    requires t < |e.points|
  {
    match e.points[t]
    case Off => Swept(e, from, max, count, |e.shards|)
    case DrainTop(i, total, limit) => limit == max && total == count && Swept(e, from, max, count, i)
    case DrainDequeue(i, total, limit) =>
      && limit == max && total == count && (max <= 0 || count < max)
      && TakenTo(e, from, i) && i < |e.shards| && t < |e.shards[i].ring.pcs|
      && (e.shards[i].ring.pcs[t].DeqEmpty? ==> TakenTo(e, from, i + 1))
    case ReadHot(_, next) => SweptNext(e, from, max, count, next)
    case GaugeDrained(_, next) => SweptNext(e, from, max, count, next)
    case ClearHot(_, next) => SweptNext(e, from, max, count, next)
    case SubSaturated(next) => SweptNext(e, from, max, count, next)
    case OpenGate(next) => SweptNext(e, from, max, count, next)
    case CountOpen(next) => SweptNext(e, from, max, count, next)
    case Recheck(next) => SweptNext(e, from, max, count, next)
    case ShutGate(next) => SweptNext(e, from, max, count, next)
    case CountClose(next) => SweptNext(e, from, max, count, next)
    case _ => false
  }

  /** The positions given were committed before. */
  ghost predicate Began(e: Engine, from: seq<nat>) {
    |from| == |e.shards| && forall i :: 0 <= i < |from| ==> from[i] <= e.shards[i].ring.commit
  }

  /** Cursors only move up. */
  ghost predicate Later(e: Engine, e': Engine) {
    && |e'.shards| == |e.shards| && |e'.points| == |e.points|
    && forall i :: 0 <= i < |e.shards| ==>
      e.shards[i].ring.head <= e'.shards[i].ring.head && e.shards[i].ring.commit <= e'.shards[i].ring.commit
  }

  lemma {:induction false} ActionsRaise(r: Ring, acts: seq<Action>)
    requires RingMachine.Runs(r, acts)
    ensures var r' := RingMachine.Exec(r, acts);
      r.head <= r'.head && r.commit <= r'.commit
    decreases |acts|
  {
    hide RingMachine.Apply;
    hide RingMachine.Enabled;
    if |acts| > 0 {
      TalliesStep(r, acts[0]);
      ActionsRaise(RingMachine.Apply(r, acts[0]), acts[1..]);
    }
  }

  lemma MoveRaises(e: Engine, m: Move)
    requires EngineInv(e) && MoveEnabled(e, m)
    ensures Later(e, ApplyMove(e, m))
  {
    hide EngineInv;
    hide ApplyMove;
    hide MoveEnabled;
    hide RingMachine.Runs;
    hide RingMachine.Exec;
    KeepsEngineInv(e, m);
    HasShard(e);
    var none := ProjectMove(e, m, 0);
    forall i | 0 <= i < |e.shards|
      ensures var r, r' := e.shards[i].ring, ApplyMove(e, m).shards[i].ring; r.head <= r'.head && r.commit <= r'.commit
    {
      var acts := ProjectMove(e, m, i);
      ActionsRaise(e.shards[i].ring, acts);
    }
  }

  lemma HasShard(e: Engine)
    requires EngineInv(e)
    ensures 0 < |e.shards|
  {
  }

  // ----------------------------------------------------------------- one step

  /** Another thread's move. */
  lemma OtherSweeps(e: Engine, m: Move, t: nat, from: seq<nat>, max: int, count: nat)
    requires EngineInv(e) && MoveEnabled(e, m) && m.thread != t && t < |e.points|
    requires SweepAt(e, t, from, max, count) && Began(e, from)
    ensures var e' := ApplyMove(e, m);
      Later(e, e') && SweepAt(e', t, from, max, count)
  {
    hide EngineInv;
    hide MoveEnabled;
    MoveRaises(e, m);
    OthersStay(e, m, t);
    hide ApplyMove;
  }

  /** A move leaves the program point and the ring operations of every other thread alone. */
  lemma OthersStay(e: Engine, m: Move, t: nat)
    requires EngineInv(e) && MoveEnabled(e, m) && m.thread != t && t < |e.points|
    ensures var e' := ApplyMove(e, m);
      && |e'.shards| == |e.shards| && |e'.points| == |e.points| && e'.points[t] == e.points[t]
      && forall i :: 0 <= i < |e.shards| && t < |e.shards[i].ring.pcs| ==>
        t < |e'.shards[i].ring.pcs| && e'.shards[i].ring.pcs[t] == e.shards[i].ring.pcs[t]
  {
    hide EngineInv;
    hide Local;
    hide Ready;
    hide RingOk;
    hide Balanced;
    hide Matches;
    if m.Go? && !e.points[m.thread].StopRunning? {
      var k, f := StepIs(e, m.thread);
    }
  }

  /** A step of a drain outside its dequeue, at its end or between two shards. */
  lemma LocalSweeps(g: Globals, sh: Shard, pc: Point, t: nat, n: nat)
    requires Ready(sh, pc, t) && !pc.StopRunning? && !pc.DrainDequeue?
    ensures var f := Local(g, sh, pc, t, n);
      match pc
      case DrainTop(i, total, max) =>
        if i >= n then f.pc == Off
        else if max <= 0 || total < max then
          f.pc == DrainDequeue(i, total, max) && t < |f.sh.ring.pcs| && !f.sh.ring.pcs[t].DeqEmpty?
        else f.pc == ReadHot(i, Sweep(i, total, max))
      case ReadHot(_, next) => Onwards(f.pc, next)
      case GaugeDrained(_, next) => Onwards(f.pc, next)
      case ClearHot(_, next) => Onwards(f.pc, next)
      case SubSaturated(next) => Onwards(f.pc, next)
      case OpenGate(next) => Onwards(f.pc, next)
      case CountOpen(next) => Onwards(f.pc, next)
      case Recheck(next) => Onwards(f.pc, next)
      case ShutGate(next) => Onwards(f.pc, next)
      case CountClose(next) => Onwards(f.pc, next)
      case _ => true
  {
    hide Leave;
    hide Sized;
  }

  /** Still in the latch on behalf of next, or at where that continues. */
  predicate Onwards(pc: Point, next: Next) {
    || pc == Continue(next)
    || (pc.GaugeDrained? && pc.next == next) || (pc.ClearHot? && pc.next == next)
    || pc == SubSaturated(next) || pc == OpenGate(next) || pc == CountOpen(next) || pc == Recheck(next)
    || pc == ShutGate(next) || pc == CountClose(next)
  }

  /** A step of a drain's dequeue. */
  lemma DequeueSweeps(g: Globals, sh: Shard, pc: Point, t: nat, n: nat)
    requires Ready(sh, pc, t) && pc.DrainDequeue? && Inv(sh.ring) && Matches(pc, sh.ring.pcs[t])
    ensures var f, r := Local(g, sh, pc, t, n), sh.ring.pcs[t];
      if r.Released? then f.pc == DrainTop(pc.shard, pc.total + 1, pc.max)
      else if r.DeqEmpty? then f.pc == ReadHot(pc.shard, Sweep(pc.shard, pc.total, pc.max))
      else
        && f.pc == pc && t < |f.sh.ring.pcs|
        && (f.sh.ring.pcs[t].DeqEmpty? ==> f.sh.ring.head == sh.ring.head == sh.ring.commit)
  {
    hide Leave;
    hide Slot;
    hide Inv;
    if !Returned(sh.ring.pcs[t]) && sh.ring.pcs[t].DeqLoadCommit? {
      EmptyIsExact(sh.ring, t);
    }
  }

  /** The drain's own step inside its dequeue. */
  lemma OwnDequeues(e: Engine, t: nat, from: seq<nat>, max: int, count: nat)
    requires EngineInv(e) && MoveEnabled(e, Go(t)) && SweepAt(e, t, from, max, count) && Began(e, from)
    requires e.points[t].DrainDequeue?
    ensures var e' := ApplyMove(e, Go(t));
      t < |e'.points| && SweepAt(e', t, from, max, count + if Happens(Handed(t), e, Go(t)) then 1 else 0)
  {
    hide EngineInv;
    hide Local;
    hide Ready;
    hide Balanced;
    hide Inv;
    hide Helped;
    MoveRaises(e, Go(t));
    var k, f := StepIs(e, t);
    ShardSound(e, k);
    DequeueSweeps(e.g, e.shards[k], e.points[t], t, |e.shards|);
    assert TakenTo(ApplyMove(e, Go(t)), from, e.points[t].shard);
  }

  /** The drain's own step outside it. */
  lemma OwnElse(e: Engine, t: nat, from: seq<nat>, max: int, count: nat)
    requires EngineInv(e) && MoveEnabled(e, Go(t)) && SweepAt(e, t, from, max, count)
    requires !e.points[t].DrainDequeue?
    ensures var e' := ApplyMove(e, Go(t));
      t < |e'.points| && SweepAt(e', t, from, max, count) && !Happens(Handed(t), e, Go(t))
  {
    hide EngineInv;
    hide Local;
    hide Ready;
    hide Balanced;
    hide RingOk;
    MoveRaises(e, Go(t));
    var k, f := StepIs(e, t);
    LocalSweeps(e.g, e.shards[k], e.points[t], t, |e.shards|);
  }

  /** The drain's own move. */
  lemma OwnSweeps(e: Engine, t: nat, from: seq<nat>, max: int, count: nat)
    requires EngineInv(e) && MoveEnabled(e, Go(t)) && SweepAt(e, t, from, max, count) && Began(e, from)
    ensures var e' := ApplyMove(e, Go(t));
      && Later(e, e')
      && SweepAt(e', t, from, max, count + if Happens(Handed(t), e, Go(t)) then 1 else 0)
  {
    hide EngineInv;
    hide ApplyMove;
    hide SweepAt;
    hide Happens;
    MoveRaises(e, Go(t));
    if e.points[t].DrainDequeue? {
      OwnDequeues(e, t, from, max, count);
    } else {
      OwnElse(e, t, from, max, count);
    }
  }

  lemma ShardSound(e: Engine, k: nat)
    requires EngineInv(e) && k < |e.shards|
    ensures Inv(e.shards[k].ring)
  {
    assert ShardOk(e, k);
  }

  // ----------------------------------------------------------------- the whole drain

  /** Thread t starts no further task. */
  predicate NoStart(moves: seq<Move>, t: nat) { forall m :: m in moves && m.Start? ==> m.thread != t }

  lemma {:induction false} RunSweeps(e: Engine, moves: seq<Move>, t: nat, from: seq<nat>, max: int, count: nat)
    requires EngineInv(e) && MovesRun(e, moves) && NoStart(moves, t) && t < |e.points|
    requires SweepAt(e, t, from, max, count) && Began(e, from)
    ensures var z := ExecMoves(e, moves);
      && |z.shards| == |e.shards| && t < |z.points|
      && SweepAt(z, t, from, max, count + Times(Handed(t), e, moves))
    decreases |moves|
  {
    hide EngineInv;
    hide ApplyMove;
    hide MoveEnabled;
    hide SweepAt;
    hide Happens;
    if |moves| > 0 {
      var m := moves[0];
      assert m in moves;
      KeepsEngineInv(e, m);
      if m.thread == t {
        OwnSweeps(e, t, from, max, count);
        RunSweeps(ApplyMove(e, m), moves[1..], t, from, max, count + if Happens(Handed(t), e, m) then 1 else 0);
      } else {
        OtherSweeps(e, m, t, from, max, count);
        NotHanded(e, m, t);
        RunSweeps(ApplyMove(e, m), moves[1..], t, from, max, count);
      }
    }
  }

  lemma NotHanded(e: Engine, m: Move, t: nat)
    requires m.thread != t
    ensures !Happens(Handed(t), e, m)
  {
  }

  /**
   A drain by thread t, among whatever other threads do: once it has returned it has handed over at most max records, if
   max is positive; and it has handed over exactly max, or everything that was committed on any shard when it started
   has been taken.
   */
  lemma DrainTakesAll(e: Engine, moves: seq<Move>, t: nat, max: int)
    requires EngineInv(e) && 0 < |moves| && moves[0] == Start(t, Drain(max)) && MovesRun(e, moves)
    requires NoStart(moves[1..], t) && t < |ExecMoves(e, moves).points| && ExecMoves(e, moves).points[t].Off?
    ensures var z, count := ExecMoves(e, moves), Times(Handed(t), e, moves);
      && |z.shards| == |e.shards|
      && (0 < max ==> count <= max)
      && ((0 < max && count == max)
          || forall i :: 0 <= i < |e.shards| ==> e.shards[i].ring.commit <= z.shards[i].ring.head)
  {
    hide EngineInv;
    var from := seq(|e.shards|, i requires 0 <= i < |e.shards| => e.shards[i].ring.commit);
    var y := ApplyMove(e, moves[0]);
    KeepsEngineInv(e, moves[0]);
    assert y.points[t] == DrainTop(0, 0, max) && y.shards == e.shards;
    assert SweepAt(y, t, from, max, 0) && Began(y, from);
    hide MoveEnabled;
    hide ApplyMove;
    RunSweeps(y, moves[1..], t, from, max, 0);
    var z := ExecMoves(e, moves);
    assert z == ExecMoves(y, moves[1..]);
    assert forall i :: 0 <= i < |e.shards| ==> from[i] == e.shards[i].ring.commit;
  }
}
