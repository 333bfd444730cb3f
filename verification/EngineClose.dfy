/**
 Shutdown with workers: once Close has cleared running, a worker that returns has left nothing accepted before
 that unhandled, and once no publish is under way any more every worker returns after boundedly many steps.
 */
module EngineClose {
  import opened Records
  import opened Slots
  import opened RingMachine
  import opened RingSafety
  import opened RingProgress
  import opened EngineMachine
  import opened EngineSafety
  import opened EngineBooks

  // ----------------------------------------------------------------- nothing accepted is left behind

  /** What the exit test of a worker knows about the tail at which Close stopped the engine. */
  ghost predicate ExitOk(g: Globals, sh: Shard, pc: Point, t: nat)
    requires t < |sh.ring.pcs|
  {
    && (pc.WorkPending? ==>
      && !g.running && pc.shard < |g.stopTails|
      && (sh.ring.pcs[t].PendingIs? ==> g.stopTails[pc.shard] <= sh.ring.pcs[t].upTo))
    && (pc.WorkDone? ==> !g.running && pc.shard < |g.stopTails| && g.stopTails[pc.shard] <= sh.ring.head)
  }

  /** The shard whose exit test a thread runs or has passed. */
  function HomeOf(n: nat, pc: Point): nat { if pc.WorkDone? then pc.shard else ShardOf(n, pc) }

  ghost predicate StopOk(e: Engine)
    requires EngineInv(e)
  {
    && (e.g.running || (|e.g.stopTails| == |e.shards|
                        && forall i :: 0 <= i < |e.shards| ==> e.g.stopTails[i] <= e.shards[i].ring.tail))
    && (forall t :: 0 <= t < |e.points| ==>
      HomeOk(e, t) && ExitOk(e.g, e.shards[HomeOf(|e.shards|, e.points[t])], e.points[t], t))
  }

  ghost predicate HomeOk(e: Engine, t: nat)
    requires t < |e.points|
  {
    var k := HomeOf(|e.shards|, e.points[t]);
    k < |e.shards| && t < |e.shards[k].ring.pcs|
  }

  lemma HomeIsOk(e: Engine, t: nat)
    requires EngineInv(e) && t < |e.points|
    ensures HomeOk(e, t)
  {
    assert PointOk(|e.shards|, e.points[t]);
    assert ShardOk(e, HomeOf(|e.shards|, e.points[t]));
  }

  /** Tails and heads never move back. */
  lemma LocalMonotone(g: Globals, sh: Shard, pc: Point, t: nat, n: nat)
    requires Before(g, sh, pc, t, n) && !pc.StopRunning?
    ensures var f := Local(g, sh, pc, t, n);
      && sh.ring.tail <= f.sh.ring.tail && sh.ring.head <= f.sh.ring.head
      && f.g.running == g.running && f.g.stopTails == g.stopTails
  {
    if InRing(pc) && !Returned(sh.ring.pcs[t]) {
      TalliesStep(sh.ring, Step(t));
      hide RingMachine.StepOf;
    } else {
      OthersMonotone(g, sh, pc, t, n);
    }
  }

  lemma OthersMonotone(g: Globals, sh: Shard, pc: Point, t: nat, n: nat)
    requires Before(g, sh, pc, t, n) && !pc.StopRunning? && !(InRing(pc) && !Returned(sh.ring.pcs[t]))
    ensures var f := Local(g, sh, pc, t, n);
      && sh.ring.tail <= f.sh.ring.tail && sh.ring.head <= f.sh.ring.head
      && f.g.running == g.running && f.g.stopTails == g.stopTails
  {
    hide RingOk;
    hide Matches;
    hide PointOk;
  }

  /** The acting thread keeps its exit knowledge: the tail is read after running was seen cleared. */
  lemma OwnExit(g: Globals, sh: Shard, pc: Point, t: nat, n: nat)
    requires Before(g, sh, pc, t, n) && !pc.StopRunning? && !pc.WorkDone? && ExitOk(g, sh, pc, t)
    requires !g.running ==> |g.stopTails| == n && g.stopTails[ShardOf(n, pc)] <= sh.ring.tail
    ensures var f := Local(g, sh, pc, t, n);
      && t < |f.sh.ring.pcs| && ExitOk(f.g, f.sh, f.pc, t)
      && (f.pc.WorkPending? || f.pc.WorkDone? ==> HomeOf(n, f.pc) == ShardOf(n, pc))
  {
    hide Before;
    hide Local;
    if pc.WorkPending? {
      PendingExit(g, sh, pc, t, n);
    } else {
      NotPendingExit(g, sh, pc, t, n);
    }
  }

  lemma PendingExit(g: Globals, sh: Shard, pc: Point, t: nat, n: nat)
    requires Before(g, sh, pc, t, n) && pc.WorkPending? && ExitOk(g, sh, pc, t)
    requires |g.stopTails| == n && g.stopTails[pc.shard] <= sh.ring.tail
    ensures var f := Local(g, sh, pc, t, n);
      t < |f.sh.ring.pcs| && ExitOk(f.g, f.sh, f.pc, t)
          && (f.pc.WorkPending? || f.pc.WorkDone? ==> f.pc.shard == pc.shard)
  {
    hide Slot;
    hide CellOk;
    hide Helped;
    assert ThreadOk(sh.ring, t);
    hide ThreadOk;
    hide Inv;
  }

  lemma NotPendingExit(g: Globals, sh: Shard, pc: Point, t: nat, n: nat)
    requires Before(g, sh, pc, t, n) && !pc.StopRunning? && !pc.WorkDone? && !pc.WorkPending?
    requires !g.running ==> |g.stopTails| == n
    ensures var f := Local(g, sh, pc, t, n);
      && t < |f.sh.ring.pcs| && !f.pc.WorkDone?
      && (f.pc.WorkPending? ==> ExitOk(f.g, f.sh, f.pc, t) && f.pc.shard == ShardOf(n, pc))
  {
    LocalGood(g, sh, pc, t, n);
    if pc.WorkRunning? {
      EnterSound(sh, t, Pending);
      hide RingOk;
      hide Enter;
      hide Sized;
      hide RingMachine.Enabled;
    } else {
      hide Before;
      hide Sound;
      NoExitBegins(g, sh, pc, t, n);
      hide Local;
    }
  }

  /** Only the check of running leads to the exit test, and only the exit test to the return. */
  lemma NoExitBegins(g: Globals, sh: Shard, pc: Point, t: nat, n: nat)
    requires Ready(sh, pc, t) && !pc.WorkDone? && !pc.WorkPending? && !pc.WorkRunning?
    ensures var f := Local(g, sh, pc, t, n); !f.pc.WorkDone? && !f.pc.WorkPending?
  {
    hide Enter;
    hide Leave;
    hide Sized;
    hide RingMachine.Enabled;
  }

  lemma KeepsStopOwn(e: Engine, t: nat)
    requires EngineInv(e) && StopOk(e) && MoveEnabled(e, Go(t)) && !e.points[t].StopRunning?
    ensures var e' := ApplyMove(e, Go(t));
      EngineInv(e') && StopOk(e')
  {
    hide EngineInv;
    hide Before;
    hide Local;
    hide ApplyMove;
    hide Sound;
    hide Balanced;
    hide Remembers;
    hide Ready;
    KeepsEngineInv(e, Go(t));
    var e' := ApplyMove(e, Go(t));
    var k, f := StepIs(e, t);
    StepReady(e, t);
    HomeIsOk(e, t);
    LocalMonotone(e.g, e.shards[k], e.points[t], t, |e.shards|);
    assert ExitOk(e.g, e.shards[HomeOf(|e.shards|, e.points[t])], e.points[t], t);
    OwnExit(e.g, e.shards[k], e.points[t], t, |e.shards|);
    hide ExitOk;
    forall u | 0 <= u < |e'.points|
      ensures HomeOk(e', u) && ExitOk(e'.g, e'.shards[HomeOf(|e'.shards|, e'.points[u])], e'.points[u], u)
    {
      HomeIsOk(e', u);
      if u == t {
        OwnHome(e, t, k, f, e');
      } else {
        OtherExit(e, t, k, f, e', u);
      }
    }
  }

  lemma OwnHome(e: Engine, t: nat, k: nat, f: Effect, e': Engine)
    requires Stepped(e, t, k, f, e') && EngineInv(e')
    requires t < |f.sh.ring.pcs| && ExitOk(f.g, f.sh, f.pc, t)
    requires f.pc.WorkPending? || f.pc.WorkDone? ==> HomeOf(|e.shards|, f.pc) == k
    ensures HomeOk(e', t) && ExitOk(e'.g, e'.shards[HomeOf(|e'.shards|, e'.points[t])], e'.points[t], t)
  {
    HomeIsOk(e', t);
    hide EngineInv;
    hide Sound;
    hide Balanced;
    hide Remembers;
  }

  /** What another thread knows about its exit survives, since the shard's cursors only move forward. */
  lemma OtherExit(e: Engine, t: nat, k: nat, f: Effect, e': Engine, u: nat)
    requires Stepped(e, t, k, f, e') && EngineInv(e') && u < |e.points| && u != t
    requires StopOk(e) && f.g.running == e.g.running && f.g.stopTails == e.g.stopTails
    requires e.shards[k].ring.head <= f.sh.ring.head
    ensures HomeOk(e', u) && ExitOk(e'.g, e'.shards[HomeOf(|e'.shards|, e'.points[u])], e'.points[u], u)
  {
    hide EngineInv;
    hide Balanced;
    hide Remembers;
    hide RingOk;
    HomeIsOk(e', u);
    HomeIsOk(e, u);
    assert ExitOk(e.g, e.shards[HomeOf(|e.shards|, e.points[u])], e.points[u], u);
  }

  lemma KeepsStop(e: Engine, m: Move)
    requires EngineInv(e) && StopOk(e) && MoveEnabled(e, m)
    ensures EngineInv(ApplyMove(e, m)) && StopOk(ApplyMove(e, m))
  {
    hide EngineInv;
    hide StopOk;
    hide ApplyMove;
    if m.Start? {
      KeepsStopStart(e, m);
    } else if e.points[m.thread].StopRunning? {
      KeepsStopStop(e, m.thread);
    } else {
      KeepsStopOwn(e, m.thread);
    }
  }

  lemma KeepsStopStart(e: Engine, m: Move)
    requires EngineInv(e) && StopOk(e) && MoveEnabled(e, m) && m.Start?
    ensures EngineInv(ApplyMove(e, m)) && StopOk(ApplyMove(e, m))
  {
    hide EngineInv;
    KeepsEngineInv(e, m);
    var e' := ApplyMove(e, m);
    forall u | 0 <= u < |e'.points|
      ensures HomeOk(e', u) && ExitOk(e'.g, e'.shards[HomeOf(|e'.shards|, e'.points[u])], e'.points[u], u)
    {
      HomeIsOk(e', u);
      HomeIsOk(e, u);
      assert ExitOk(e.g, e.shards[HomeOf(|e.shards|, e.points[u])], e.points[u], u);
    }
  }

  lemma KeepsStopStop(e: Engine, t: nat)
    requires EngineInv(e) && StopOk(e) && MoveEnabled(e, Go(t)) && e.points[t].StopRunning?
    ensures EngineInv(ApplyMove(e, Go(t))) && StopOk(ApplyMove(e, Go(t)))
  {
    hide EngineInv;
    hide Local;
    hide Ready;
    KeepsEngineInv(e, Go(t));
    var e' := ApplyMove(e, Go(t));
    forall u | 0 <= u < |e'.points|
      ensures HomeOk(e', u) && ExitOk(e'.g, e'.shards[HomeOf(|e'.shards|, e'.points[u])], e'.points[u], u)
    {
      HomeIsOk(e', u);
      HomeIsOk(e, u);
      assert ExitOk(e.g, e.shards[HomeOf(|e.shards|, e.points[u])], e.points[u], u);
    }
  }

  lemma InitStop(e: Engine)
    requires FreshEngine(e)
    ensures EngineInv(e) && StopOk(e)
  {
    InitEngineInv(e);
    forall t | 0 <= t < |e.points|
      ensures HomeOk(e, t) && ExitOk(e.g, e.shards[HomeOf(|e.shards|, e.points[t])], e.points[t], t)
    {
      HomeIsOk(e, t);
    }
  }

  lemma {:induction false} RunStop(e: Engine, moves: seq<Move>)
    requires EngineInv(e) && StopOk(e) && MovesRun(e, moves)
    ensures EngineInv(ExecMoves(e, moves)) && StopOk(ExecMoves(e, moves))
    decreases |moves|
  {
    if |moves| > 0 {
      KeepsStop(e, moves[0]);
      RunStop(ApplyMove(e, moves[0]), moves[1..]);
    }
  }

  /**
   In every run of the engine: when a shard's worker has returned, every position of its ring that was claimed when
   Close cleared running has been taken, and read out exactly as published, unless some other thread (a concurrent
   Drain) took it and is still reading it.
   */
  lemma WorkerReturnsDrained(e: Engine, moves: seq<Move>, t: nat, p: nat)
    requires FreshEngine(e) && MovesRun(e, moves)
    requires var z := ExecMoves(e, moves);
      && t < |z.points| && z.points[t].WorkDone? && z.points[t].shard < |z.g.stopTails|
      && p < z.g.stopTails[z.points[t].shard]
    ensures var z := ExecMoves(e, moves);
      && !z.g.running && z.points[t].shard < |z.shards|
      && var r := z.shards[z.points[t].shard].ring;
         && p < r.head <= r.tail == |r.log| && 0 < r.capacity
         && (|| (p in r.got && r.got[p] == Committed(r.log[p].req, r.epoch, Slot(p, r.capacity)))
             || (exists u :: 0 <= u < |r.pcs| && u != t && Unread(r.pcs[u], p)))
  {
    hide ExecMoves;
    hide MovesRun;
    hide FreshEngine;
    InitStop(e);
    RunStop(e, moves);
    var z := ExecMoves(e, moves);
    HomeIsOk(z, t);
    var i := z.points[t].shard;
    assert ExitOk(z.g, z.shards[i], z.points[t], t);
    assert ShardOk(z, i);
    TakenIsDelivered(z.shards[i].ring, t, p, z.points[t], i);
  }

  lemma TakenIsDelivered(r: Ring, t: nat, p: nat, pc: Point, i: nat)
    requires RingOk(r) && t < |r.pcs| && pc.WorkDone? && AtHome(pc, i, r.pcs[t]) && p < r.head
    ensures p < r.head <= r.tail == |r.log| && 0 < r.capacity
    ensures || (p in r.got && r.got[p] == Committed(r.log[p].req, r.epoch, Slot(p, r.capacity)))
            || (exists u :: 0 <= u < |r.pcs| && u != t && Unread(r.pcs[u], p))
  {
    hide Slot;
    hide CellOk;
    hide ThreadOk;
    hide Helped;
    if p !in r.got {
      assert Unread(r.pcs[r.takes[p]], p);
    }
  }
}
