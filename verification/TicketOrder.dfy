/**
 Tickets and positions. The ticket is drawn before the position is claimed, so position order, which is the order of
 delivery, is ticket order as long as no two publishes overlap between the two on one shard, and may differ otherwise.
 */
module TicketOrder {
  import opened Records
  import opened Slots
  import opened RingMachine
  import opened RingSafety
  import opened RingProgress
  import opened EngineMachine
  import opened EngineSafety
  import opened EngineBooks
  import opened EngineRuns
  import opened EngineRecords

  // ----------------------------------------------------------------- without overlap

  /** Tickets increase with the position, and the claims under way hold larger ones; none exceeds upTo. */
  ghost predicate Ordered(r: Ring, upTo: nat) {
    && (forall p, q :: 0 <= p < q < |r.log| ==> r.log[p].req.ticket < r.log[q].req.ticket)
    && (forall p :: 0 <= p < |r.log| ==> r.log[p].req.ticket <= upTo)
    && (forall u :: 0 <= u < |r.pcs| && InClaim(r.pcs[u]) ==>
      Newer(r.log, r.pcs[u].req.ticket) && r.pcs[u].req.ticket <= upTo)
  }

  predicate Newer(log: seq<Claimed>, ticket: nat) {
    forall p :: 0 <= p < |log| ==> log[p].req.ticket < ticket
  }

  /** At most one thread is between drawing its ticket and winning its position. */
  ghost predicate OneClaims(r: Ring) {
    forall t, u :: 0 <= t < u < |r.pcs| ==> !(InClaim(r.pcs[t]) && InClaim(r.pcs[u]))
  }

  lemma ClaimStepOrdered(r: Ring, t: nat, upTo: nat)
    requires RingMachine.Enabled(r, Step(t)) && InClaim(r.pcs[t]) && Ordered(r, upTo) && OneClaims(r)
    ensures Ordered(ClaimStep(r, t), upTo)
  {
    hide Slot;
    var r' := ClaimStep(r, t);
    var req := r.pcs[t].req;
    assert r'.log == r.log || (r'.log == r.log + [Claimed(t, req)] && !InClaim(r'.pcs[t]));
    assert InClaim(r'.pcs[t]) ==> r'.pcs[t].req == req;
    hide ClaimStep;
    forall u | 0 <= u < |r'.pcs| && u != t ensures !InClaim(r'.pcs[u]) {
      assert r'.pcs[u] == r.pcs[u];
    }
  }

  lemma StepOrdered(r: Ring, t: nat, upTo: nat)
    requires RingMachine.Enabled(r, Step(t)) && Ordered(r, upTo) && OneClaims(r)
    ensures Ordered(RingMachine.StepOf(r, t), upTo)
  {
    if InClaim(r.pcs[t]) {
      ClaimStepOrdered(r, t, upTo);
    } else {
      OtherStepsKeepLog(r, t);
      hide RingMachine.StepOf;
    }
  }

  lemma BoundaryOrdered(r: Ring, a: Action, upTo: nat, after: nat)
    requires RingMachine.Enabled(r, a) && !a.Step? && Ordered(r, upTo) && upTo <= after
    requires a.Invoke? && a.op.Publish? ==> upTo < a.op.req.ticket == after
    ensures Ordered(RingMachine.Apply(r, a), after)
  {
    hide Slot;
  }

  lemma EnterOrdered(sh: Shard, t: nat, op: Op, upTo: nat, after: nat)
    requires RingMachine.Enabled(sh.ring, Invoke(t, op)) && Ordered(sh.ring, upTo) && upTo <= after
    requires op.Publish? ==> upTo < op.req.ticket == after
    ensures Ordered(Enter(sh, t, op).ring, after)
  {
    BoundaryOrdered(sh.ring, Invoke(t, op), upTo, after);
  }

  lemma LeaveOrdered(sh: Shard, t: nat, upTo: nat)
    requires RingMachine.Enabled(sh.ring, Return(t)) && Ordered(sh.ring, upTo)
    ensures Ordered(Leave(sh, t).ring, upTo)
  {
    BoundaryOrdered(sh.ring, Return(t), upTo, upTo);
  }

  lemma AnswerOrdered(g: Globals, sh: Shard, pc: Point, t: nat)
    requires Ready(sh, pc, t) && InRing(pc) && Returned(sh.ring.pcs[t]) && Ordered(sh.ring, g.ticket)
    ensures var f := Answer(g, sh, pc, t);
      Ordered(f.sh.ring, g.ticket) && f.g == g
  {
    LeaveOrdered(sh, t, g.ticket);
    if pc.InPublish? && sh.ring.pcs[t].Published? {
      EnterOrdered(Leave(sh, t).(ingested := sh.ingested + 1), t, Pending, g.ticket, g.ticket);
    }
    hide Enter;
    hide Ordered;
  }

  lemma OutsideOrdered(g: Globals, sh: Shard, pc: Point, t: nat, n: nat)
    requires Ready(sh, pc, t) && !InRing(pc) && !pc.StopRunning? && Ordered(sh.ring, g.ticket)
    ensures var f := Local(g, sh, pc, t, n);
      g.ticket <= f.g.ticket && Ordered(f.sh.ring, f.g.ticket)
  {
    hide Enter;
    hide Ordered;
    hide Sized;
    hide RingMachine.Enabled;
    if pc.DrawTicket? {
      EnterOrdered(sh, t, Publish(RequestOf(g, pc.call)), g.ticket, g.ticket + 1);
    } else if pc.WorkTop? || pc.DrainTop? {
      EnterOrdered(sh, t, Dequeue, g.ticket, g.ticket);
    } else if pc.WorkRunning? || pc.ReadHot? {
      EnterOrdered(sh, t, Pending, g.ticket, g.ticket);
    }
  }

  lemma LocalOrdered(g: Globals, sh: Shard, pc: Point, t: nat, n: nat)
    requires Ready(sh, pc, t) && !pc.StopRunning? && Ordered(sh.ring, g.ticket) && OneClaims(sh.ring)
    ensures var f := Local(g, sh, pc, t, n);
      g.ticket <= f.g.ticket && Ordered(f.sh.ring, f.g.ticket)
  {
    if InRing(pc) && Returned(sh.ring.pcs[t]) {
      AnswerOrdered(g, sh, pc, t);
    } else if InRing(pc) {
      StepOrdered(sh.ring, t, g.ticket);
      hide RingMachine.StepOf;
      hide Ordered;
    } else {
      OutsideOrdered(g, sh, pc, t, n);
    }
  }

  lemma OrderedLater(r: Ring, upTo: nat, later: nat)
    requires Ordered(r, upTo) && upTo <= later
    ensures Ordered(r, later)
  {
  }

  ghost predicate AllOrdered(e: Engine) {
    forall i :: 0 <= i < |e.shards| ==> Ordered(e.shards[i].ring, e.g.ticket)
  }

  /** In no state of the run are two publishes of one shard between ticket and position at once. */
  ghost predicate NeverOverlaps(e: Engine, moves: seq<Move>)
    requires MovesRun(e, moves)
    decreases |moves|
  {
    && (forall i :: 0 <= i < |e.shards| ==> OneClaims(e.shards[i].ring))
    && (|moves| > 0 ==> NeverOverlaps(ApplyMove(e, moves[0]), moves[1..]))
  }

  lemma KeepsOrdered(e: Engine, m: Move)
    requires EngineInv(e) && MoveEnabled(e, m) && AllOrdered(e)
    requires forall i :: 0 <= i < |e.shards| ==> OneClaims(e.shards[i].ring)
    ensures AllOrdered(ApplyMove(e, m))
  {
    hide Ordered;
    hide OneClaims;
    var t := m.thread;
    if m.Go? && !e.points[t].StopRunning? {
      var k, f := StepIs(e, t);
      LocalOrdered(e.g, e.shards[k], e.points[t], t, |e.shards|);
      var e' := ApplyMove(e, m);
      hide EngineInv;
      hide Local;
      hide Ready;
      forall i | 0 <= i < |e'.shards| ensures Ordered(e'.shards[i].ring, e'.g.ticket) {
        if i != k {
          OrderedLater(e.shards[i].ring, e.g.ticket, f.g.ticket);
        }
      }
    }
  }

  /** Without overlap, every shard's records are in strict ticket order, in every state of every run. */
  lemma {:induction false} TicketOrderHolds(e: Engine, moves: seq<Move>)
    requires EngineInv(e) && AllOrdered(e) && MovesRun(e, moves) && NeverOverlaps(e, moves)
    ensures AllOrdered(ExecMoves(e, moves))
    decreases |moves|
  {
    if |moves| > 0 {
      KeepsOrdered(e, moves[0]);
      KeepsEngineInv(e, moves[0]);
      TicketOrderHolds(ApplyMove(e, moves[0]), moves[1..]);
    }
  }

  // ----------------------------------------------------------------- with overlap

  /** Thread t inside shard k takes one ring step. */
  lemma RingMove(e: Engine, moves: seq<Move>, z: Engine, t: nat, k: nat) returns (moves': seq<Move>, z': Engine)
    requires MovesRun(e, moves) && z == ExecMoves(e, moves) && EngineInv(z)
    requires t < |z.points| && k < |z.shards| && z.points[t] == InPublish(k)
    requires t < |z.shards[k].ring.pcs| && InClaim(z.shards[k].ring.pcs[t])
    ensures MovesRun(e, moves') && z' == ExecMoves(e, moves') && EngineInv(z')
    ensures RingMachine.Enabled(z.shards[k].ring, Step(t))
    ensures z' == z.(shards := z.shards[k := z.shards[k].(ring := ClaimStep(z.shards[k].ring, t))])
  {
    hide MovesRun;
    hide ExecMoves;
    hide EngineInv;
    hide Before;
    hide ClaimStep;
    StepReady(z, t);
    KeepsEngineInv(z, Go(t));
    z' := ApplyMove(z, Go(t));
    RunsOne(z, Go(t));
    RunsConcat(e, moves, [Go(t)]);
    moves' := moves + [Go(t)];
    assert z.points[t := InPublish(k)] == z.points;
  }

  /** A thread that runs its claim alone takes the next position, if its cell is free. */
  lemma ClaimAlone(e: Engine, moves: seq<Move>, z: Engine, t: nat, k: nat, req: Request)
    returns (moves': seq<Move>, z': Engine)
    requires MovesRun(e, moves) && z == ExecMoves(e, moves) && EngineInv(z)
    requires t < |z.points| && k < |z.shards| && z.points[t] == InPublish(k)
    requires var r := z.shards[k].ring;
      Sized(r) && t < |r.pcs| && r.pcs[t] == ClaimLoadTail(req) && SeqOf(r, r.tail) == r.tail
    ensures MovesRun(e, moves') && z' == ExecMoves(e, moves') && EngineInv(z')
    ensures z'.points == z.points && |z'.shards| == |z.shards|
    ensures var r, r' := z.shards[k].ring, z'.shards[k].ring;
      && r'.log == r.log + [Claimed(t, req)] && r'.tail == r.tail + 1 && r'.cells == r.cells
      && r'.capacity == r.capacity
      && r'.pcs == r.pcs[t := Writing(req, r.tail, 0)] && Sized(r')
  {
    hide MovesRun;
    hide ExecMoves;
    hide EngineInv;
    hide Slot;
    moves', z' := RingMove(e, moves, z, t, k);
    moves', z' := RingMove(e, moves', z', t, k);
    moves', z' := RingMove(e, moves', z', t, k);
  }

  function ClaimStage(pc: Pc): nat { if pc.ClaimLoadSeq? then 2 else if pc.ClaimCas? then 1 else 0 }

  lemma RingSoundAt(z: Engine, k: nat)
    requires EngineInv(z) && k < |z.shards|
    ensures Inv(z.shards[k].ring) && Sized(z.shards[k].ring) && |z.shards[k].ring.pcs| == |z.points|
  {
    assert ShardOk(z, k);
    hide CellOk;
    hide ThreadOk;
    hide Helped;
  }

  /**
   One claim step that does not yet win: with the cell at tail free, it leads on, and changes nothing but the thread.
   */
  lemma ClaimOn(r: Ring, t: nat)
    requires Inv(r) && Sized(r) && RingMachine.Enabled(r, Step(t)) && InClaim(r.pcs[t])
    requires SeqOf(r, r.tail) == r.tail && !r.pcs[t].ClaimLoadTail?
    ensures var r', req := ClaimStep(r, t), r.pcs[t].req;
      && r'.cells == r.cells && r'.capacity == r.capacity
      && if r.pcs[t].ClaimCas? && r.pcs[t].pos == r.tail then
           r'.pcs[t] == Writing(req, r.tail, 0) && r'.log == r.log + [Claimed(t, req)] && r'.tail == r.tail + 1
         else
           && InClaim(r'.pcs[t]) && r'.pcs[t].req == req && ClaimStage(r'.pcs[t]) < ClaimStage(r.pcs[t])
           && r'.log == r.log && r'.tail == r.tail
  {
    hide Slot;
    hide CellOk;
    assert ThreadOk(r, t);
    if r.pcs[t].ClaimLoadSeq? {
      StaleClaim(r, r.pcs[t].pos);
    }
  }

  /** From anywhere inside its claim a thread that runs alone takes the next position, if its cell is free. */
  lemma {:induction false} ClaimAnywhere(e: Engine, moves: seq<Move>, z: Engine, t: nat, k: nat, req: Request)
    returns (moves': seq<Move>, z': Engine)
    requires MovesRun(e, moves) && z == ExecMoves(e, moves) && EngineInv(z)
    requires t < |z.points| && k < |z.shards| && z.points[t] == InPublish(k)
    requires var r := z.shards[k].ring;
      && Sized(r) && t < |r.pcs| && InClaim(r.pcs[t]) && r.pcs[t].req == req && SeqOf(r, r.tail) == r.tail
    ensures MovesRun(e, moves') && z' == ExecMoves(e, moves') && EngineInv(z')
    ensures z'.points == z.points && |z'.shards| == |z.shards|
    ensures var r, r' := z.shards[k].ring, z'.shards[k].ring;
      && r'.log == r.log + [Claimed(t, req)] && r'.tail == r.tail + 1 && r'.cells == r.cells
      && r'.capacity == r.capacity
      && r'.pcs == r.pcs[t := Writing(req, r.tail, 0)] && Sized(r')
    decreases if t < |z.shards[k].ring.pcs| then ClaimStage(z.shards[k].ring.pcs[t]) else 0
  {
    hide MovesRun;
    hide ExecMoves;
    hide EngineInv;
    hide Slot;
    hide Inv;
    var r := z.shards[k].ring;
    if r.pcs[t].ClaimLoadTail? {
      moves', z' := ClaimAlone(e, moves, z, t, k, req);
    } else {
      RingSoundAt(z, k);
      var y;
      moves', y := RingMove(e, moves, z, t, k);
      ClaimOn(r, t);
      hide ClaimStep;
      var r' := y.shards[k].ring;
      assert Framed(r, t, r');
      if InClaim(r'.pcs[t]) {
        assert SeqOf(r', r'.tail) == r'.tail;
        moves', z' := ClaimAnywhere(e, moves', y, t, k, req);
      } else {
        z' := y;
      }
    }
  }

  /**
   Any overlap can be inverted: when two publishes on a shard are between ticket and position, wherever inside their
   claims, and there is room for both, letting the later ticket win first puts it at the lower position, and it will be
   delivered first.
   */
  lemma OverlapCanInvert(e: Engine, t: nat, u: nat, k: nat) returns (moves: seq<Move>, z: Engine)
    requires EngineInv(e) && t < |e.points| && u < |e.points| && k < |e.shards|
    requires e.points[t] == InPublish(k) && e.points[u] == InPublish(k)
    requires var r := e.shards[k].ring;
      && Sized(r) && t < |r.pcs| && u < |r.pcs|
      && InClaim(r.pcs[t]) && InClaim(r.pcs[u]) && r.pcs[t].req.ticket < r.pcs[u].req.ticket
      && SeqOf(r, r.tail) == r.tail && SeqOf(r, r.tail + 1) == r.tail + 1
    ensures MovesRun(e, moves) && z == ExecMoves(e, moves)
    ensures k < |z.shards|
    ensures var r := e.shards[k].ring;
      z.shards[k].ring.log == r.log + [Claimed(u, r.pcs[u].req), Claimed(t, r.pcs[t].req)]
    ensures !Ordered(z.shards[k].ring, z.g.ticket)
  {
    NoMoves(e);
    hide MovesRun;
    hide ExecMoves;
    hide EngineInv;
    hide Slot;
    var older, newer := e.shards[k].ring.pcs[t].req, e.shards[k].ring.pcs[u].req;
    moves, z := ClaimAnywhere(e, [], e, u, k, newer);
    moves, z := ClaimAnywhere(e, moves, z, t, k, older);
    var log, log0 := z.shards[k].ring.log, e.shards[k].ring.log;
    assert log[|log0|] == Claimed(u, newer) && log[|log0| + 1] == Claimed(t, older);
  }

  // ----------------------------------------------------------------- an overlap from a fresh engine

  lemma FreshSequence(r: Ring, threads: nat)
    requires RingMachine.Init(r, threads) && 2 <= r.capacity
    ensures SeqOf(r, r.tail) == r.tail && SeqOf(r, r.tail + 1) == r.tail + 1
  {
    SlotSmall(0, r.capacity);
    SlotSmall(1, r.capacity);
  }

  /** Two publishes on one shard of a fresh engine: the second ticket takes the first position. */
  lemma TicketOrderCanFail(e: Engine, k: nat, call: Call, call': Call) returns (moves: seq<Move>, z: Engine)
    requires FreshEngine(e) && 2 <= |e.points| && k < |e.shards|
    requires call.shard == call'.shard == k && call.key != 0 && call'.key != 0
    requires |call.payload| <= e.shards[k].ring.payloadCap && |call'.payload| <= e.shards[k].ring.payloadCap
    ensures MovesRun(e, moves) && z == ExecMoves(e, moves) && k < |z.shards|
    ensures var log := z.shards[k].ring.log; |log| == 2 && log[0].req.ticket == 2 && log[1].req.ticket == 1
  {
    InitEngineInv(e);
    var r := e.shards[k].ring;
    FreshSequence(r, |e.points|);
    assert r.log == [] && |r.pcs| == |e.points| && Sized(r);
    assert e.g.running && !e.g.closed && e.g.ticket == 0 && e.points[0].Off? && e.points[1].Off?;
    var mid;
    moves, mid := TwoDraw(e, k, call, call');
    hide FreshEngine;
    hide MovesRun;
    hide ExecMoves;
    hide EngineInv;
    hide RingMachine.Init;
    hide Slot;
    assert RequestOf(e.g, call).ticket == 1 && RequestOf(e.g.(ticket := 1), call').ticket == 2;
    hide RequestOf;
    var rest;
    rest, z := OverlapCanInvert(mid, 0, 1, k);
    RunsConcat(e, moves, rest);
    moves := moves + rest;
  }

  lemma TwoDraw(e: Engine, k: nat, call: Call, call': Call) returns (moves: seq<Move>, mid: Engine)
    requires EngineInv(e) && 2 <= |e.points| && k < |e.shards|
    requires e.g.running && !e.g.closed && e.g.ticket == 0 && e.points[0].Off? && e.points[1].Off?
    requires call.shard == call'.shard == k && call.key != 0 && call'.key != 0
    requires |call.payload| <= e.shards[k].ring.payloadCap && |call'.payload| <= e.shards[k].ring.payloadCap
    requires |e.shards[k].ring.pcs| == |e.points|
    ensures MovesRun(e, moves) && mid == ExecMoves(e, moves) && EngineInv(mid)
    ensures mid.points == e.points[0 := InPublish(k)][1 := InPublish(k)] && |mid.shards| == |e.shards|
    ensures mid.shards[k].ring == Goto(Goto(e.shards[k].ring, 0, ClaimLoadTail(RequestOf(e.g, call))), 1,
                                       ClaimLoadTail(RequestOf(e.g.(ticket := 1), call')))
  {
    NoMoves(e);
    hide MovesRun;
    hide ExecMoves;
    hide EngineInv;
    hide RequestOf;
    var once;
    moves, once := DrawAlone(e, [], e, 0, call);
    assert once.g == e.g.(ticket := 1) && once.points[1] == e.points[1];
    assert once.shards[k].ring == Goto(e.shards[k].ring, 0, ClaimLoadTail(RequestOf(e.g, call)));
    moves, mid := DrawAlone(e, moves, once, 1, call');
    assert mid.shards[k].ring == Goto(once.shards[k].ring, 1, ClaimLoadTail(RequestOf(once.g, call')));
  }

  // ----------------------------------------------------------------- exactly

  /** A single thread cannot overlap with itself. */
  lemma {:induction false} OneThreadNeverOverlaps(e: Engine, moves: seq<Move>)
    requires EngineInv(e) && |e.points| <= 1 && MovesRun(e, moves)
    ensures NeverOverlaps(e, moves)
    decreases |moves|
  {
    forall i | 0 <= i < |e.shards| ensures OneClaims(e.shards[i].ring) {
      RingSoundAt(e, i);
    }
    if |moves| > 0 {
      KeepsEngineInv(e, moves[0]);
      OnePoint(e, moves[0]);
      hide EngineInv;
      hide OneClaims;
      OneThreadNeverOverlaps(ApplyMove(e, moves[0]), moves[1..]);
    }
  }

  lemma InitOrdered(e: Engine)
    requires FreshEngine(e)
    ensures AllOrdered(e)
  {
    forall i | 0 <= i < |e.shards| ensures Ordered(e.shards[i].ring, e.g.ticket) {
      assert RingMachine.Init(e.shards[i].ring, |e.points|);
    }
  }

  /** Over all runs of a fresh engine, position order is ticket order exactly if at most one thread uses it. */
  lemma TicketOrderIffOneThread(e: Engine)
    requires FreshEngine(e)
    ensures (forall moves :: MovesRun(e, moves) ==> AllOrdered(ExecMoves(e, moves))) <==>
        |e.points| <= 1
  {
    hide MovesRun;
    hide ExecMoves;
    hide EngineInv;
    InitEngineInv(e);
    InitOrdered(e);
    assert 0 < |e.shards|;
    if |e.points| <= 1 {
      hide FreshEngine;
      forall moves | MovesRun(e, moves) ensures AllOrdered(ExecMoves(e, moves)) {
        OneThreadNeverOverlaps(e, moves);
        TicketOrderHolds(e, moves);
      }
    } else {
      var call := Call(0, 1, 0, [], 0);
      var moves, z := TicketOrderCanFail(e, 0, call, call);
      hide FreshEngine;
      var log := z.shards[0].ring.log;
      assert log[0].req.ticket > log[1].req.ticket;
      assert !Ordered(z.shards[0].ring, z.g.ticket);
    }
  }
}
