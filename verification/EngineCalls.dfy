/**
 Where records come from: in every run of the engine each record in a ring is, field by field, what one call of publish
 was given, and each call gives at most one record. So what consumers are delivered are the callers' own records.
 */
module EngineCalls {
  import opened Records
  import opened Checksums
  import opened Slots
  import opened RingMachine
  import opened RingSafety
  import opened RingDelivery
  import opened EngineMachine
  import opened EngineSafety
  import opened EngineBooks
  import opened EngineRuns
  import opened EngineRecords
  import opened EngineRings

  // ----------------------------------------------------------------- calls, tickets and logs alone

  /** How far a thread has got with a call: before its ticket, between its ticket and its position, or neither. */
  datatype Stage = NoCall | Calling(call: Call) | Claiming(shard: nat, req: Request)

  /** What matters of an engine here. */
  datatype Trace = Trace(logs: seq<seq<Claimed>>, stages: seq<Stage>, ticket: nat)

  function StageIn(r: Ring, pc: Point, t: nat): Stage {
    if pc.CheckRunning? || pc.CheckGate? || pc.DrawTicket? then Calling(pc.call)
    else if pc.InPublish? && t < |r.pcs| && InClaim(r.pcs[t]) then Claiming(pc.shard, r.pcs[t].req)
    else NoCall
  }

  function StageOf(e: Engine, t: nat): Stage
    requires t < |e.points| && 0 < |e.shards|
  {
    var pc := e.points[t];
    StageIn(e.shards[if pc.InPublish? && pc.shard < |e.shards| then pc.shard else 0].ring, pc, t)
  }

  ghost function TraceOf(e: Engine): (x: Trace)
    requires 0 < |e.shards|
    ensures |x.logs| == |e.shards| && forall i :: 0 <= i < |e.shards| ==> x.logs[i] == e.shards[i].ring.log
    ensures |x.stages| == |e.points| && forall t :: 0 <= t < |e.points| ==> x.stages[t] == StageOf(e, t)
    ensures x.ticket == e.g.ticket
  {
    Trace(seq(|e.shards|, i requires 0 <= i < |e.shards| => e.shards[i].ring.log),
          seq(|e.points|, t requires 0 <= t < |e.points| => StageOf(e, t)), e.g.ticket)
  }

  /** The request is, field by field, what the call was given; its ticket is left open. */
  predicate Carries(q: Request, c: Call, on: bool) {
    && q.key == c.key && q.flags == c.flags && q.timestamp == c.now && q.payload == c.payload
    && q.checksum == if on then Folded(Digest(FNV_OFFSET, c.payload)) else 0
  }

  /** One step of thread t, as far as calls, tickets and the log of its shard go. */
  predicate Advances(s: Stage, s': Stage, log: seq<Claimed>, log': seq<Claimed>, ticket: nat, ticket': nat, on: bool,
      t: nat)
  {
    match s
    case NoCall => s' == NoCall && log' == log && ticket' == ticket
    case Calling(c) =>
      && log' == log
      && if s'.Claiming? then s'.shard == c.shard && Carries(s'.req, c, on) && ticket' == s'.req.ticket == ticket + 1
         else (s' == s || s' == NoCall) && ticket' == ticket
    case Claiming(k, q) =>
      && ticket' == ticket
      && if log' == log then s' == s || s' == NoCall else s' == NoCall && log' == log + [Claimed(t, q)]
  }

  lemma ClaimAdvances(r: Ring, k: nat, t: nat, ticket: nat, on: bool)
    requires RingMachine.Enabled(r, Step(t)) && InClaim(r.pcs[t])
    ensures var r' := RingMachine.StepOf(r, t);
      Advances(StageIn(r, InPublish(k), t), StageIn(r', InPublish(k), t), r.log, r'.log, ticket, ticket, on, t)
  {
    hide Slot;
    hide Sized;
  }

  lemma EnterAdvances(sh: Shard, t: nat, op: Op)
    requires Sized(sh.ring) && t < |sh.ring.pcs| && sh.ring.pcs[t].Idle?
    requires op.Publish? ==> |op.req.payload| <= sh.ring.payloadCap
    ensures RingMachine.Enabled(sh.ring, Invoke(t, op))
    ensures var r := Enter(sh, t, op).ring;
      && r.log == sh.ring.log && t < |r.pcs|
      && if op.Publish? then r.pcs[t] == ClaimLoadTail(op.req) else !InClaim(r.pcs[t])
  {
    hide Sized;
  }

  lemma LeaveAdvances(sh: Shard, t: nat)
    requires RingMachine.Enabled(sh.ring, Return(t))
    ensures Leave(sh, t).ring.log == sh.ring.log
  {
    hide Sized;
  }

  lemma AnswerAdvances(g: Globals, sh: Shard, pc: Point, t: nat)
    requires Ready(sh, pc, t) && InRing(pc) && Returned(sh.ring.pcs[t])
    ensures var f := Answer(g, sh, pc, t);
      f.sh.ring.log == sh.ring.log && f.g == g && StageIn(f.sh.ring, f.pc, t) == NoCall
  {
    LeaveAdvances(sh, t);
    if pc.InPublish? && sh.ring.pcs[t].Published? {
      EnterAdvances(Leave(sh, t).(ingested := sh.ingested + 1), t, Pending);
    }
    hide Enter;
    hide Leave;
    hide Sized;
  }

  lemma CallAdvances(g: Globals, sh: Shard, pc: Point, t: nat)
    requires Ready(sh, pc, t) && InPublishCall(pc)
    ensures var f := PublishStep(g, sh, pc, t);
      Advances(StageIn(sh.ring, pc, t), StageIn(f.sh.ring, f.pc, t), sh.ring.log, f.sh.ring.log, g.ticket, f.g.ticket,
               g.checksums, t) && f.g.checksums == g.checksums
  {
    hide Enter;
    hide Sized;
    hide RingMachine.Enabled;
    if pc.DrawTicket? {
      EnterAdvances(sh, t, Publish(RequestOf(g, pc.call)));
    }
  }

  lemma OthersAdvance(g: Globals, sh: Shard, pc: Point, t: nat, n: nat)
    requires Ready(sh, pc, t) && !InRing(pc) && !InPublishCall(pc) && !pc.StopRunning?
    ensures var f := Local(g, sh, pc, t, n);
      && f.sh.ring.log == sh.ring.log && f.g.ticket == g.ticket && f.g.checksums == g.checksums
      && StageIn(f.sh.ring, f.pc, t) == NoCall
  {
    hide Enter;
    hide Sized;
    hide PublishStep;
    hide RingMachine.Enabled;
    if pc.WorkTop? || pc.DrainTop? {
      EnterAdvances(sh, t, Dequeue);
    } else if pc.WorkRunning? || pc.ReadHot? {
      EnterAdvances(sh, t, Pending);
    }
  }

  lemma RingAdvances(g: Globals, sh: Shard, pc: Point, t: nat, n: nat)
    requires Ready(sh, pc, t) && InRing(pc) && Matches(pc, sh.ring.pcs[t])
    ensures var f := Local(g, sh, pc, t, n);
      Advances(StageIn(sh.ring, pc, t), StageIn(f.sh.ring, f.pc, t), sh.ring.log, f.sh.ring.log, g.ticket, f.g.ticket,
               g.checksums, t) && f.g.checksums == g.checksums
  {
    hide RingMachine.StepOf;
    hide Answer;
    if Returned(sh.ring.pcs[t]) {
      AnswerAdvances(g, sh, pc, t);
    } else if pc.InPublish? && InClaim(sh.ring.pcs[t]) {
      ClaimAdvances(sh.ring, pc.shard, t, g.ticket, g.checksums);
    } else {
      OtherStepsKeepLog(sh.ring, t);
    }
  }

  lemma LocalAdvances(g: Globals, sh: Shard, pc: Point, t: nat, n: nat)
    requires Ready(sh, pc, t) && !pc.StopRunning? && (InRing(pc) ==> Matches(pc, sh.ring.pcs[t]))
    ensures var f := Local(g, sh, pc, t, n);
      Advances(StageIn(sh.ring, pc, t), StageIn(f.sh.ring, f.pc, t), sh.ring.log, f.sh.ring.log, g.ticket, f.g.ticket,
               g.checksums, t) && f.g.checksums == g.checksums
  {
    hide Answer;
    hide PublishStep;
    hide DrainedStep;
    hide ConsumeStep;
    hide MarkStep;
    if InRing(pc) {
      RingAdvances(g, sh, pc, t, n);
    } else if InPublishCall(pc) {
      CallAdvances(g, sh, pc, t);
    } else {
      OthersAdvance(g, sh, pc, t, n);
    }
  }

  /** The stages and logs of an engine after a move, from those before it. */
  ghost predicate Follows(x: Trace, m: Move, x': Trace, on: bool) {
    && |x'.logs| == |x.logs| && m.thread < |x.stages| == |x'.stages|
    && (forall u :: 0 <= u < |x.stages| && u != m.thread ==> x'.stages[u] == x.stages[u])
    && match m
       case Start(t, task) =>
         && x'.logs == x.logs && x'.ticket == x.ticket && x.stages[t] == NoCall
         && (x'.stages[t] == NoCall || (task.PublishCall? && task.call.key != 0 && x'.stages[t] == Calling(task.call)))
       case Go(t) =>
         exists k: nat :: k < |x.logs| && Moves(x, x', k, t, on)
  }

  /** A step of thread t that works on shard k. */
  ghost predicate Moves(x: Trace, x': Trace, k: nat, t: nat, on: bool) {
    && k < |x.logs| == |x'.logs| && t < |x.stages| == |x'.stages|
    && (forall i :: 0 <= i < |x.logs| && i != k ==> x'.logs[i] == x.logs[i])
    && (x.stages[t].Claiming? ==> x.stages[t].shard == k)
    && Advances(x.stages[t], x'.stages[t], x.logs[k], x'.logs[k], x.ticket, x'.ticket, on, t)
  }

  lemma StartFollows(e: Engine, m: Move)
    requires EngineInv(e) && MoveEnabled(e, m) && m.Start?
    ensures |ApplyMove(e, m).shards| == |e.shards| > 0 && ApplyMove(e, m).g == e.g
    ensures Follows(TraceOf(e), m, TraceOf(ApplyMove(e, m)), e.g.checksums)
  {
    hide EngineInv;
    var e' := ApplyMove(e, m);
    forall u | 0 <= u < |e.points| && u != m.thread ensures StageOf(e', u) == StageOf(e, u) {
    }
    assert TraceOf(e').logs == TraceOf(e).logs;
  }

  lemma GoFollows(e: Engine, t: nat)
    requires EngineInv(e) && MoveEnabled(e, Go(t)) && !e.points[t].StopRunning?
    ensures |ApplyMove(e, Go(t)).shards| == |e.shards| > 0 && ApplyMove(e, Go(t)).g.checksums == e.g.checksums
    ensures Follows(TraceOf(e), Go(t), TraceOf(ApplyMove(e, Go(t))), e.g.checksums)
  {
    hide Local;
    hide Ready;
    hide EngineInv;
    hide RingOk;
    hide Balanced;
    hide Advances;
    hide Matches;
    var k, f := StepIs(e, t);
    LocalAdvances(e.g, e.shards[k], e.points[t], t, |e.shards|);
    var e' := ApplyMove(e, Go(t));
    hide ApplyMove;
    hide MoveEnabled;
    var x, x' := TraceOf(e), TraceOf(e');
    forall u | 0 <= u < |e.points| && u != t ensures StageOf(e', u) == StageOf(e, u) {
      assert e'.points[u] == e.points[u];
    }
    assert StageOf(e, t) == StageIn(e.shards[k].ring, e.points[t], t);
    assert StageOf(e', t) == StageIn(e'.shards[k].ring, e'.points[t], t);
    assert Moves(x, x', k, t, e.g.checksums);
  }

  lemma StopFollows(e: Engine, t: nat)
    requires EngineInv(e) && MoveEnabled(e, Go(t)) && e.points[t].StopRunning?
    ensures |ApplyMove(e, Go(t)).shards| == |e.shards| > 0 && ApplyMove(e, Go(t)).g.checksums == e.g.checksums
    ensures Follows(TraceOf(e), Go(t), TraceOf(ApplyMove(e, Go(t))), e.g.checksums)
  {
    hide EngineInv;
    hide Local;
    hide Ready;
    var e' := ApplyMove(e, Go(t));
    forall u | 0 <= u < |e.points| && u != t ensures StageOf(e', u) == StageOf(e, u) {
    }
    assert TraceOf(e').logs == TraceOf(e).logs;
    assert Moves(TraceOf(e), TraceOf(e'), 0, t, e.g.checksums);
  }

  lemma MoveFollows(e: Engine, m: Move)
    requires EngineInv(e) && MoveEnabled(e, m)
    ensures |ApplyMove(e, m).shards| == |e.shards| > 0 && ApplyMove(e, m).g.checksums == e.g.checksums
    ensures Follows(TraceOf(e), m, TraceOf(ApplyMove(e, m)), e.g.checksums)
  {
    hide EngineInv;
    hide ApplyMove;
    hide TraceOf;
    hide Follows;
    if m.Start? {
      StartFollows(e, m);
    } else if e.points[m.thread].StopRunning? {
      StopFollows(e, m.thread);
    } else {
      GoFollows(e, m.thread);
    }
  }

  // ----------------------------------------------------------------- the ledger of a run

  /**
   Which move each thread last started a task with; for every position of every shard, the move its record stems from;
   for every move, where its record went; and for every ticket, the move it was drawn for.
   */
  datatype Ledger = Ledger(open: seq<nat>, origin: seq<seq<nat>>, landed: map<nat, (nat, nat)>, drawn: seq<nat>)

  /** Move j started a publish, by the given thread, of a call for shard i that the request carries. */
  predicate Began(done: seq<Move>, j: nat, t: nat, i: nat, q: Request, on: bool) {
    && j < |done| && done[j].Start? && done[j].thread == t && done[j].task.PublishCall?
    && done[j].task.call.shard == i && done[j].task.call.key != 0 && Carries(q, done[j].task.call, on)
  }

  predicate Drew(drawn: seq<nat>, ticket: nat, j: nat) { 0 < ticket <= |drawn| && drawn[ticket - 1] == j }

  /** The entry at position p of shard i is accounted for. */
  predicate EntryOk(l: Ledger, done: seq<Move>, i: nat, p: nat, entry: Claimed, on: bool) {
    && i < |l.origin| && p < |l.origin[i]|
    && var j := l.origin[i][p];
       && Began(done, j, entry.thread, i, entry.req, on)
       && j in l.landed && l.landed[j] == (i, p)
       && Drew(l.drawn, entry.req.ticket, j)
  }

  predicate StageOk(l: Ledger, done: seq<Move>, t: nat, s: Stage, on: bool) {
    && t < |l.open|
    && (!s.NoCall? ==> l.open[t] !in l.landed)
    && match s
       case NoCall => true
       case Calling(c) => l.open[t] < |done| && done[l.open[t]] == Start(t, PublishCall(c)) && c.key != 0
       case Claiming(k, q) => Began(done, l.open[t], t, k, q, on) && Drew(l.drawn, q.ticket, l.open[t])
  }

  predicate LogOk(l: Ledger, done: seq<Move>, i: nat, log: seq<Claimed>, on: bool) {
    && i < |l.origin| && |l.origin[i]| == |log|
    && forall p :: 0 <= p < |log| ==> EntryOk(l, done, i, p, log[p], on)
  }

  predicate Accounted(x: Trace, done: seq<Move>, l: Ledger, on: bool) {
    && |l.open| == |x.stages| && |l.origin| == |x.logs| && |l.drawn| == x.ticket
    && (forall j :: j in l.landed ==> j < |done|)
    && (forall t :: 0 <= t < |x.stages| ==> StageOk(l, done, t, x.stages[t], on))
    && (forall i :: 0 <= i < |x.logs| ==> LogOk(l, done, i, x.logs[i], on))
  }

  /** The ledger after a move: a start is noted, a ticket and a position are put down to the call they were won for. */
  function Noted(x: Trace, done: seq<Move>, l: Ledger, m: Move, x': Trace): Ledger
    requires m.thread < |x.stages| && |l.open| == |x.stages| && |l.origin| == |x.logs|
  {
    match m
    case Start(t, _) => l.(open := l.open[t := |done|])
    case Go(t) =>
      if x'.ticket > x.ticket then l.(drawn := l.drawn + [l.open[t]])
      else if x.stages[t].Claiming? && x.stages[t].shard < |x.logs| == |x'.logs|
              && x'.logs[x.stages[t].shard] != x.logs[x.stages[t].shard] then
        var k := x.stages[t].shard;
        l.(origin := l.origin[k := l.origin[k] + [l.open[t]]], landed := l.landed[l.open[t] := (k, |x.logs[k]|)])
      else l
  }

  lemma StartAccounted(x: Trace, done: seq<Move>, l: Ledger, m: Move, x': Trace, on: bool)
    requires Accounted(x, done, l, on) && Follows(x, m, x', on) && m.Start?
    ensures Accounted(x', done + [m], Noted(x, done, l, m, x'), on)
  {
    hide Carries;
    var l', done' := Noted(x, done, l, m, x'), done + [m];
    forall u | 0 <= u < |x'.stages| ensures StageOk(l', done', u, x'.stages[u], on) {
      assert StageOk(l, done, u, x.stages[u], on);
    }
    forall i | 0 <= i < |x'.logs| ensures LogOk(l', done', i, x'.logs[i], on) {
      assert LogOk(l, done, i, x.logs[i], on);
      forall p | 0 <= p < |x.logs[i]| ensures EntryOk(l', done', i, p, x'.logs[i][p], on) {
        assert EntryOk(l, done, i, p, x.logs[i][p], on);
      }
    }
  }

  /** An entry stays accounted for as moves are made, tickets drawn and other records placed. */
  lemma EntryStays(l: Ledger, done: seq<Move>, l': Ledger, m: Move, i: nat, p: nat, entry: Claimed, on: bool)
    requires EntryOk(l, done, i, p, entry, on)
    requires i < |l'.origin| && l.origin[i] <= l'.origin[i] && l.drawn <= l'.drawn
    requires forall j :: j in l.landed ==> j in l'.landed && l'.landed[j] == l.landed[j]
    ensures EntryOk(l', done + [m], i, p, entry, on)
  {
    hide Carries;
  }

  lemma StageStays(l: Ledger, done: seq<Move>, l': Ledger, m: Move, u: nat, s: Stage, on: bool)
    requires StageOk(l, done, u, s, on) && l'.open == l.open && l.drawn <= l'.drawn
    requires !s.NoCall? && l.open[u] in l'.landed ==> l.open[u] in l.landed
    ensures StageOk(l', done + [m], u, s, on)
  {
    hide Carries;
  }

  /** A step that draws no ticket and wins no position. */
  lemma QuietAccounted(x: Trace, done: seq<Move>, l: Ledger, t: nat, x': Trace, on: bool)
    requires Accounted(x, done, l, on) && Follows(x, Go(t), x', on)
    requires x'.ticket == x.ticket && x'.logs == x.logs
    ensures Noted(x, done, l, Go(t), x') == l && Accounted(x', done + [Go(t)], l, on)
  {
    hide Carries;
    hide Began;
    forall u | 0 <= u < |x'.stages| ensures StageOk(l, done + [Go(t)], u, x'.stages[u], on) {
      StageStays(l, done, l, Go(t), u, x.stages[u], on);
    }
    forall i | 0 <= i < |x'.logs| ensures LogOk(l, done + [Go(t)], i, x'.logs[i], on) {
      assert LogOk(l, done, i, x.logs[i], on);
      forall p | 0 <= p < |x.logs[i]| ensures EntryOk(l, done + [Go(t)], i, p, x'.logs[i][p], on) {
        EntryStays(l, done, l, Go(t), i, p, x.logs[i][p], on);
      }
    }
  }

  /** A step that draws a ticket: the request it is drawn for carries the call. */
  lemma DrawAccounted(x: Trace, done: seq<Move>, l: Ledger, t: nat, x': Trace, on: bool)
    requires Accounted(x, done, l, on) && Follows(x, Go(t), x', on) && x'.ticket > x.ticket
    ensures Accounted(x', done + [Go(t)], Noted(x, done, l, Go(t), x'), on)
  {
    hide Carries;
    var l', done' := Noted(x, done, l, Go(t), x'), done + [Go(t)];
    assert x'.logs == x.logs;
    assert StageOk(l, done, t, x.stages[t], on);
    forall u | 0 <= u < |x'.stages| ensures StageOk(l', done', u, x'.stages[u], on) {
      if u != t {
        StageStays(l, done, l', Go(t), u, x.stages[u], on);
      }
    }
    forall i | 0 <= i < |x'.logs| ensures LogOk(l', done', i, x'.logs[i], on) {
      assert LogOk(l, done, i, x.logs[i], on);
      forall p | 0 <= p < |x.logs[i]| ensures EntryOk(l', done', i, p, x'.logs[i][p], on) {
        EntryStays(l, done, l', Go(t), i, p, x.logs[i][p], on);
      }
    }
  }

  /** A step that wins a position. */
  lemma WinAccounted(x: Trace, done: seq<Move>, l: Ledger, t: nat, x': Trace, on: bool)
    requires Accounted(x, done, l, on) && Follows(x, Go(t), x', on) && x'.ticket == x.ticket && x'.logs != x.logs
    ensures Accounted(x', done + [Go(t)], Noted(x, done, l, Go(t), x'), on)
  {
    hide Carries;
    var l', done' := Noted(x, done, l, Go(t), x'), done + [Go(t)];
    var k: nat :| k < |x.logs| && Moves(x, x', k, t, on);
    assert StageOk(l, done, t, x.stages[t], on);
    assert LogOk(l, done, k, x.logs[k], on);
    assert x.stages[t].Claiming? && x.stages[t].shard == k && x'.logs[k] == x.logs[k] + [Claimed(t, x.stages[t].req)];
    forall u | 0 <= u < |x'.stages| ensures StageOk(l', done', u, x'.stages[u], on) {
      assert StageOk(l, done, u, x.stages[u], on);
      if u != t {
        StageStays(l, done, l', Go(t), u, x.stages[u], on);
      }
    }
    forall i | 0 <= i < |x'.logs| ensures LogOk(l', done', i, x'.logs[i], on) {
      assert LogOk(l, done, i, x.logs[i], on);
      forall p | 0 <= p < |x.logs[i]| ensures EntryOk(l', done', i, p, x'.logs[i][p], on) {
        EntryStays(l, done, l', Go(t), i, p, x.logs[i][p], on);
      }
    }
  }

  lemma MoveAccounted(x: Trace, done: seq<Move>, l: Ledger, m: Move, x': Trace, on: bool) returns (l': Ledger)
    requires Accounted(x, done, l, on) && Follows(x, m, x', on)
    ensures Accounted(x', done + [m], l', on)
  {
    l' := Noted(x, done, l, m, x');
    if m.Start? {
      StartAccounted(x, done, l, m, x', on);
    } else {
      var k: nat :| k < |x.logs| && Moves(x, x', k, m.thread, on);
      assert x'.ticket >= x.ticket;
      if x'.ticket > x.ticket {
        DrawAccounted(x, done, l, m.thread, x', on);
      } else if x'.logs != x.logs {
        WinAccounted(x, done, l, m.thread, x', on);
      } else {
        QuietAccounted(x, done, l, m.thread, x', on);
      }
    }
  }

  lemma OneAccounted(e: Engine, done: seq<Move>, l: Ledger, m: Move) returns (l': Ledger)
    requires EngineInv(e) && 0 < |e.shards| && Accounted(TraceOf(e), done, l, e.g.checksums) && MoveEnabled(e, m)
    ensures var e' := ApplyMove(e, m);
      && |e'.shards| == |e.shards| && e'.g.checksums == e.g.checksums && EngineInv(e')
      && Accounted(TraceOf(e'), done + [m], l', e.g.checksums)
  {
    hide EngineInv;
    hide TraceOf;
    hide Follows;
    hide Accounted;
    hide ApplyMove;
    hide MoveEnabled;
    MoveFollows(e, m);
    KeepsEngineInv(e, m);
    l' := MoveAccounted(TraceOf(e), done, l, m, TraceOf(ApplyMove(e, m)), e.g.checksums);
  }

  lemma {:induction false} RunAccounted(e: Engine, done: seq<Move>, l: Ledger, moves: seq<Move>) returns (l': Ledger)
    requires EngineInv(e) && 0 < |e.shards| && Accounted(TraceOf(e), done, l, e.g.checksums) && MovesRun(e, moves)
    ensures var z := ExecMoves(e, moves);
      && |z.shards| == |e.shards| && z.g.checksums == e.g.checksums && EngineInv(z)
      && Accounted(TraceOf(z), done + moves, l', e.g.checksums)
    decreases |moves|
  {
    hide EngineInv;
    hide TraceOf;
    hide Accounted;
    hide ApplyMove;
    hide MoveEnabled;
    if |moves| == 0 {
      assert done + moves == done;
      l' := l;
    } else {
      l' := OneAccounted(e, done, l, moves[0]);
      assert (done + [moves[0]]) + moves[1..] == done + moves;
      l' := RunAccounted(ApplyMove(e, moves[0]), done + [moves[0]], l', moves[1..]);
    }
  }

  lemma FreshAccounted(e: Engine) returns (l: Ledger)
    requires FreshEngine(e)
    ensures EngineInv(e) && 0 < |e.shards| && Accounted(TraceOf(e), [], l, e.g.checksums)
  {
    InitEngineInv(e);
    l := Ledger(seq(|e.points|, t => 0), seq(|e.shards|, i => []), map[], []);
  }

  // ----------------------------------------------------------------- where records come from

  /**
   In every run of a fresh engine the record at position p of shard i stems from the start of a publish by the thread
   that claimed p, namely move origin[i][p]: it was a call for shard i with a key other than 0, and the record holds
   that call's key, flags, time and payload, with the payload's digest if checksums are on. No call gives two records,
   and no two records have the same ticket.
   */
  lemma RecordsStemFromCalls(e: Engine, moves: seq<Move>) returns (origin: seq<seq<nat>>)
    requires FreshEngine(e) && MovesRun(e, moves)
    ensures var z := ExecMoves(e, moves);
      |origin| == |z.shards| == |e.shards| && forall i :: 0 <= i < |z.shards| ==> |origin[i]| == |z.shards[i].ring.log|
    ensures var z := ExecMoves(e, moves);
      forall i, p :: 0 <= i < |z.shards| && 0 <= p < |z.shards[i].ring.log| ==>
        var entry := z.shards[i].ring.log[p];
        && origin[i][p] < |moves|
        && var m := moves[origin[i][p]];
           && m.Start? && m.thread == entry.thread && m.task.PublishCall? && m.task.call.shard == i
           && m.task.call.key != 0
           && entry.req.key == m.task.call.key && entry.req.flags == m.task.call.flags
           && entry.req.timestamp == m.task.call.now && entry.req.payload == m.task.call.payload
           && entry.req.checksum == (if e.g.checksums then Folded(Digest(FNV_OFFSET, m.task.call.payload)) else 0)
           && 0 < entry.req.ticket <= z.g.ticket
    ensures var z := ExecMoves(e, moves);
      forall i, k :: 0 <= i < |z.shards| && 0 <= k < |z.shards| ==>
        var log, log' := z.shards[i].ring.log, z.shards[k].ring.log;
        forall p, q :: 0 <= p < |log| && 0 <= q < |log'| && (p != q || i != k) ==>
          origin[i][p] != origin[k][q] && log[p].req.ticket != log'[q].req.ticket
  {
    hide FreshEngine;
    hide MovesRun;
    hide ExecMoves;
    hide EngineInv;
    var none := FreshAccounted(e);
    var l := RunAccounted(e, [], none, moves);
    assert [] + moves == moves;
    var z := ExecMoves(e, moves);
    origin := l.origin;
    forall i, p | 0 <= i < |z.shards| && 0 <= p < |z.shards[i].ring.log|
      ensures EntryOk(l, moves, i, p, z.shards[i].ring.log[p], e.g.checksums)
    {
      assert LogOk(l, moves, i, TraceOf(z).logs[i], e.g.checksums);
    }
  }

  /** The record is, field by field, what the publish started by the move was called with. */
  ghost predicate Returns(r: Record, m: Move, i: nat, on: bool) {
    && m.Start? && m.task.PublishCall? && m.task.call.shard == i
    && r.key == m.task.call.key && r.timestamp == m.task.call.now && r.payload == m.task.call.payload
    && r.flags % 2 == 1 && r.flags / 2 == m.task.call.flags / 2
    && r.checksum == if on then Folded(Digest(FNV_OFFSET, m.task.call.payload)) else 0
  }

  lemma GotIs(r: Ring, p: nat)
    requires Inv(r) && p in r.got
    ensures p < |r.log|
    ensures var rec, q := r.got[p], r.log[p].req;
      && rec.ticket == q.ticket && rec.timestamp == q.timestamp && rec.key == q.key && rec.payload == q.payload
      && rec.checksum == q.checksum && rec.flags % 2 == 1 && rec.flags / 2 == q.flags / 2
  {
    hide Slot;
    hide CellOk;
    hide ThreadOk;
  }

  /**
   In every run, each record that any consumer has read out of shard i is what one call of publish for that shard was
   given, with flag bit 0 set; different positions, of one shard or of two, give back different calls.
   */
  lemma DeliveredRecordsAreCalls(e: Engine, moves: seq<Move>) returns (origin: seq<seq<nat>>)
    requires FreshEngine(e) && MovesRun(e, moves)
    ensures var z := ExecMoves(e, moves);
      && |origin| == |z.shards|
      && forall i, p :: 0 <= i < |z.shards| && p in z.shards[i].ring.got ==>
           && p < |origin[i]| && origin[i][p] < |moves|
           && var r, m := z.shards[i].ring.got[p], moves[origin[i][p]];
              && m.Start? && m.task.PublishCall? && m.task.call.shard == i
              && r.key == m.task.call.key && r.timestamp == m.task.call.now && r.payload == m.task.call.payload
              && r.flags % 2 == 1 && r.flags / 2 == m.task.call.flags / 2
              && r.checksum == if e.g.checksums then Folded(Digest(FNV_OFFSET, m.task.call.payload)) else 0
    ensures forall i, k :: 0 <= i < |origin| && 0 <= k < |origin| ==>
      forall p, q :: 0 <= p < |origin[i]| && 0 <= q < |origin[k]| && (p != q || i != k) ==> origin[i][p] != origin[k][q]
  {
    hide FreshEngine;
    hide MovesRun;
    hide ExecMoves;
    hide EngineInv;
    hide Inv;
    InitEngineInv(e);
    RunEngineInv(e, moves);
    origin := RecordsStemFromCalls(e, moves);
    var z := ExecMoves(e, moves);
    forall i, p | 0 <= i < |z.shards| && p in z.shards[i].ring.got
      ensures p < |z.shards[i].ring.log| && Returns(z.shards[i].ring.got[p], moves[origin[i][p]], i, e.g.checksums)
    {
      RingsOk(z, i);
      GotIs(z.shards[i].ring, p);
    }
  }

  lemma RingsOk(z: Engine, i: nat)
    requires EngineInv(z) && i < |z.shards|
    ensures Inv(z.shards[i].ring)
  {
    assert ShardOk(z, i);
  }

  /**
   When thread t is the only consumer of shard i, its k-th delivery is the record at position k and gives back one call
   of publish for that shard, field by field; different deliveries give back different calls. Once its worker has
   returned, that covers every position claimed before Close cleared running.
   */
  lemma WorkerDeliversCalls(e: Engine, moves: seq<Move>, i: nat, t: nat)
    returns (actions: seq<Action>, calls: seq<nat>)
    requires FreshEngine(e) && MovesRun(e, moves) && i < |e.shards| && t < |e.points|
    requires OnlyConsumer(moves, t, i)
    ensures RingMachine.Runs(e.shards[i].ring, actions)
    ensures i < |ExecMoves(e, moves).shards| && t < |ExecMoves(e, moves).points|
    ensures RingMachine.Exec(e.shards[i].ring, actions) == ExecMoves(e, moves).shards[i].ring
    ensures var deliveries := Deliveries(e.shards[i].ring, actions);
      && |calls| == |deliveries|
      && forall k :: 0 <= k < |deliveries| ==>
           && deliveries[k].pos == k && calls[k] < |moves|
           && var r, m := deliveries[k].record, moves[calls[k]];
              && m.Start? && m.task.PublishCall? && m.task.call.shard == i
              && r.key == m.task.call.key && r.timestamp == m.task.call.now && r.payload == m.task.call.payload
              && r.flags % 2 == 1 && r.flags / 2 == m.task.call.flags / 2
              && r.checksum == if e.g.checksums then Folded(Digest(FNV_OFFSET, m.task.call.payload)) else 0
    ensures forall k, l :: 0 <= k < l < |calls| ==> calls[k] != calls[l]
    ensures var z := ExecMoves(e, moves);
      z.points[t].WorkDone? && z.points[t].shard == i ==> i < |z.g.stopTails| && z.g.stopTails[i] <= |calls|
  {
    hide FreshEngine;
    hide MovesRun;
    hide ExecMoves;
    hide RingMachine.Runs;
    hide RingMachine.Exec;
    hide Deliveries;
    hide OnlyConsumer;
    hide Slot;
    actions := WorkerDeliversInOrder(e, moves, i, t);
    var origin := RecordsStemFromCalls(e, moves);
    var deliveries, end := Deliveries(e.shards[i].ring, actions), ExecMoves(e, moves).shards[i].ring;
    assert InOrder(deliveries, end, t);
    calls := origin[i][..|deliveries|];
    forall k | 0 <= k < |deliveries|
      ensures deliveries[k].pos == k && Returns(deliveries[k].record, moves[calls[k]], i, e.g.checksums)
    {
      assert calls[k] == origin[i][k];
    }
  }
}
