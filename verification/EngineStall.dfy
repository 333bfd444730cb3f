/**
 Who clears a latch. A worker calls markDrained only after a batch that found records, so a hot shard relies on records
 left in its ring or on a consumer still on its way to the check. Every move keeps that, except a producer that latches
 a shard emptied since it read the occupancy; after that the gate stays shut until somebody drains or closes.
 */
module EngineStall {
  import opened Hysteresis
  import opened Slots
  import opened RingMachine
  import opened RingSafety
  import opened RingProgress
  import opened EngineMachine
  import opened EngineSafety
  import opened EngineBooks

  // ----------------------------------------------------------------- attendants

  /** Has taken a record it has not yet counted as consumed. */
  predicate Holding(c: Pc) { c.DeqConfirm? || InRead(c) || c.Released? }

  /** A drain that has yet to come to shard i. */
  predicate Later(next: Next, i: nat) { next.Sweep? && next.shard < i }

  /** A reading of the occupancy that will show it at or below the low mark, or has been overtaken by no take. */
  predicate Telling(c: Pc, r: Ring, low: nat)
    requires 0 < r.capacity
  {
    c.PendLoadHead? || (c.PendLoadTail? && c.h == r.head) || (c.PendingIs? && Percent(c.n, r.capacity) <= low)
  }

  /**
   A consumer, with ring pc c in shard i, that will yet check the occupancy of the shard, and clear its latch if low.
   */
  predicate Attends(pc: Point, c: Pc, r: Ring, low: nat, i: nat)
    requires 0 < r.capacity
  {
    match pc
    case WorkTop(k, n) => k == i && n > 0
    case WorkDequeue(k, n) => k == i && (n > 0 || Holding(c))
    case DrainTop(k, _, _) => k <= i
    case DrainDequeue(k, _, _) => k <= i
    case ReadHot(k, next) => k == i || Later(next, i)
    case GaugeDrained(k, next) => Later(next, i) || (k == i && Telling(c, r, low))
    case ClearHot(k, next) => k == i || Later(next, i)
    case SubSaturated(next) => Later(next, i)
    case OpenGate(next) => Later(next, i)
    case CountOpen(next) => Later(next, i)
    case Recheck(next) => Later(next, i)
    case ShutGate(next) => Later(next, i)
    case CountClose(next) => Later(next, i)
    case _ => false
  }

  ghost predicate Attended(e: Engine, i: nat)
    requires i < |e.shards| && 0 < e.shards[i].ring.capacity && |e.shards[i].ring.pcs| == |e.points|
  {
    var r := e.shards[i].ring;
    exists t :: 0 <= t < |e.points| && Attends(e.points[t], r.pcs[t], r, e.g.low, i)
  }

  /** If the shard is hot, records are left in it or some consumer will yet check it. */
  ghost predicate Tended(e: Engine, i: nat)
    requires i < |e.shards| && 0 < e.shards[i].ring.capacity && |e.shards[i].ring.pcs| == |e.points|
  {
    e.shards[i].hot ==> e.shards[i].ring.head < e.shards[i].ring.tail || Attended(e, i)
  }

  ghost predicate ShardShape(e: Engine, i: nat)
    requires i < |e.shards|
  {
    0 < e.shards[i].ring.capacity && |e.shards[i].ring.pcs| == |e.points| && Inv(e.shards[i].ring)
  }

  lemma Shaped(e: Engine, i: nat)
    requires EngineInv(e) && i < |e.shards|
    ensures ShardShape(e, i)
  {
    assert ShardOk(e, i);
    hide CellOk;
    hide ThreadOk;
    hide Helped;
  }

  ghost predicate AllTended(e: Engine) {
    forall i :: 0 <= i < |e.shards| ==> ShardShape(e, i) && Tended(e, i)
  }

  /** A producer latches a cold shard that holds nothing, with no consumer left to check it. */
  ghost predicate LatchesUntended(e: Engine, m: Move) {
    m.Go? && m.thread < |e.points| && e.points[m.thread].LatchHot? &&
    var i := e.points[m.thread].shard;
    && i < |e.shards| && ShardShape(e, i)
    && !e.shards[i].hot && e.shards[i].ring.head == e.shards[i].ring.tail && !Attended(e, i)
  }

  // ----------------------------------------------------------------- one step of an attendant

  /** After the step the shard is cold, or holds records, or the thread still attends it. */
  ghost predicate StaysTended(f: Effect, t: nat, low: nat, i: nat)
    requires 0 < f.sh.ring.capacity && t < |f.sh.ring.pcs|
  {
    f.sh.hot ==> f.sh.ring.head < f.sh.ring.tail || Attends(f.pc, f.sh.ring.pcs[t], f.sh.ring, low, i)
  }

  lemma RingStepAttends(g: Globals, sh: Shard, pc: Point, t: nat, i: nat)
    requires Inv(sh.ring) && RingMachine.Enabled(sh.ring, Step(t)) && Matches(pc, sh.ring.pcs[t]) && InRing(pc)
    requires pc.shard == i && Attends(pc, sh.ring.pcs[t], sh.ring, g.low, i)
    ensures var r := RingMachine.StepOf(sh.ring, t);
      && 0 < r.capacity && t < |r.pcs| && (r.head < r.tail || Attends(pc, r.pcs[t], r, g.low, i))
  {
    hide Slot;
    hide CellOk;
    assert ThreadOk(sh.ring, t);
    if pc.GaugeDrained? {
      assert sh.ring.capacity > 0;
      ZeroPercent(sh.ring.capacity);
    } else if sh.ring.pcs[t].DeqConfirm? {
      TakenIsPublished(sh.ring, t);
    }
    hide Inv;
    hide ThreadOk;
    hide Percent;
  }

  lemma ZeroPercent(capacity: nat)
    requires 0 < capacity
    ensures Percent(0, capacity) == 0
  {
  }

  lemma AnswerAttends(g: Globals, sh: Shard, pc: Point, t: nat, i: nat)
    requires Ready(sh, pc, t) && InRing(pc) && Returned(sh.ring.pcs[t]) && 0 < sh.ring.capacity
    requires pc.shard == i && Attends(pc, sh.ring.pcs[t], sh.ring, g.low, i)
    ensures var f := Answer(g, sh, pc, t);
      && 0 < f.sh.ring.capacity && t < |f.sh.ring.pcs| && Attends(f.pc, f.sh.ring.pcs[t], f.sh.ring, g.low, i)
  {
    hide Sized;
    hide Percent;
    hide RingMachine.Enabled;
  }

  lemma OutsideAttends(g: Globals, sh: Shard, pc: Point, t: nat, n: nat)
    requires Ready(sh, pc, t) && !InRing(pc) && !pc.StopRunning? && 0 < sh.ring.capacity && ShardOf(n, pc) < n
    requires Attends(pc, sh.ring.pcs[t], sh.ring, g.low, ShardOf(n, pc))
    ensures var f := Local(g, sh, pc, t, n);
      && 0 < f.sh.ring.capacity && t < |f.sh.ring.pcs|
      && (f.sh.hot ==> Attends(f.pc, f.sh.ring.pcs[t], f.sh.ring, g.low, ShardOf(n, pc)))
  {
    hide Sized;
    hide Percent;
    hide RingMachine.Enabled;
  }

  /** An attendant of the shard it works on leaves it cold or with records, or goes on attending it. */
  lemma OwnAttends(g: Globals, sh: Shard, pc: Point, t: nat, n: nat)
    requires Before(g, sh, pc, t, n) && !pc.StopRunning? && 0 < sh.ring.capacity
    requires Attends(pc, sh.ring.pcs[t], sh.ring, g.low, ShardOf(n, pc))
    ensures var f := Local(g, sh, pc, t, n);
      0 < f.sh.ring.capacity && t < |f.sh.ring.pcs| && StaysTended(f, t, g.low, ShardOf(n, pc))
  {
    hide Inv;
    hide Helped;
    hide Attends;
    hide Answer;
    hide RingMachine.StepOf;
    if InRing(pc) && !Returned(sh.ring.pcs[t]) {
      RingStepAttends(g, sh, pc, t, pc.shard);
    } else if InRing(pc) {
      AnswerAttends(g, sh, pc, t, pc.shard);
    } else {
      OutsideAttends(g, sh, pc, t, n);
      hide Local;
    }
  }

  /** A thread at work on one shard goes on attending every other shard it attends. */
  lemma OtherAttends(g: Globals, sh: Shard, pc: Point, t: nat, n: nat, i: nat, c: Pc, own: Ring)
    requires Ready(sh, pc, t) && !pc.StopRunning? && i < n && i != ShardOf(n, pc) && 0 < own.capacity
    requires Attends(pc, c, own, g.low, i)
    ensures Attends(Local(g, sh, pc, t, n).pc, c, own, g.low, i)
  {
    hide Sized;
    hide Percent;
    hide RingMachine.Enabled;
    hide Enter;
    hide Leave;
  }

  /** Only the latch of a producer makes the shard hot, and the marks are constant. */
  ghost predicate HotRule(g: Globals, sh: Shard, pc: Point, f: Effect) {
    && (f.sh.hot && !sh.hot ==> pc.LatchHot? && f.sh.ring == sh.ring && f.pc.AddSaturated?)
    && f.g.low == g.low && f.g.high == g.high
  }

  lemma HotByLatch(g: Globals, sh: Shard, pc: Point, t: nat, n: nat)
    requires Ready(sh, pc, t) && !pc.StopRunning?
    ensures HotRule(g, sh, pc, Local(g, sh, pc, t, n))
  {
    hide HotRule;
    hide Sized;
    hide RingMachine.Enabled;
    hide RingMachine.Apply;
    hide Answer;
    hide MarkStep;
    hide DrainedStep;
    hide PublishStep;
    hide ConsumeStep;
    if InRing(pc) {
      if Returned(sh.ring.pcs[t]) {
        HotAnswer(g, sh, pc, t);
      } else {
        HotSame(g, sh, pc, g, sh.(ring := RingMachine.Apply(sh.ring, Step(t))), pc);
      }
    } else if InMark(pc) || InDrained(pc) {
      HotLatch(g, sh, pc, t);
    } else if InPublishCall(pc) || InConsume(pc) {
      HotCall(g, sh, pc, t, n);
    } else {
      HotSame(g, sh, pc, g.(closed := false, forced := true), sh, Off);
      HotSame(g, sh, pc, g, sh, pc);
    }
  }

  lemma HotSame(g: Globals, sh: Shard, pc: Point, g': Globals, sh': Shard, pc': Point)
    requires sh'.hot == sh.hot && g'.low == g.low && g'.high == g.high
    ensures HotRule(g, sh, pc, Effect(g', sh', pc'))
  {
  }

  lemma HotAnswer(g: Globals, sh: Shard, pc: Point, t: nat)
    requires Ready(sh, pc, t) && InRing(pc) && Returned(sh.ring.pcs[t])
    ensures HotRule(g, sh, pc, Answer(g, sh, pc, t))
  {
    hide Sized;
    hide RingMachine.Enabled;
    hide RingMachine.Apply;
  }

  lemma HotLatch(g: Globals, sh: Shard, pc: Point, t: nat)
    requires Ready(sh, pc, t)
    ensures InMark(pc) ==> HotRule(g, sh, pc, MarkStep(g, sh, pc, t))
    ensures InDrained(pc) ==> HotRule(g, sh, pc, DrainedStep(g, sh, pc, t))
  {
    hide Sized;
    hide RingMachine.Enabled;
    hide RingMachine.Apply;
  }

  lemma HotCall(g: Globals, sh: Shard, pc: Point, t: nat, n: nat)
    requires Ready(sh, pc, t)
    ensures InPublishCall(pc) ==> HotRule(g, sh, pc, PublishStep(g, sh, pc, t))
    ensures InConsume(pc) ==> HotRule(g, sh, pc, ConsumeStep(g, sh, pc, t, n))
  {
    hide Sized;
    hide RingMachine.Enabled;
    hide RingMachine.Apply;
  }

  /** Whoever moves head has taken a record, and attends the shard. */
  lemma TakerAttends(g: Globals, sh: Shard, pc: Point, t: nat, n: nat)
    requires Before(g, sh, pc, t, n) && !pc.StopRunning? && 0 < sh.ring.capacity
    ensures var f := Local(g, sh, pc, t, n);
      && 0 < f.sh.ring.capacity && t < |f.sh.ring.pcs|
      && (f.sh.ring.head != sh.ring.head ==>
            Attends(f.pc, f.sh.ring.pcs[t], f.sh.ring, g.low, ShardOf(n, pc)))
  {
    hide Inv;
    hide Helped;
    hide Answer;
    hide Percent;
    hide RingMachine.StepOf;
    if InRing(pc) && !Returned(sh.ring.pcs[t]) {
      HeadByTake(sh.ring, t);
    } else {
      OutsideKeepsHead(g, sh, pc, t, n);
      hide Local;
    }
  }

  lemma HeadByTake(r: Ring, t: nat)
    requires RingMachine.Enabled(r, Step(t))
    ensures var r' := RingMachine.StepOf(r, t);
      r'.head != r.head ==> r'.pcs[t].DeqConfirm? && r.pcs[t].DeqCas?
  {
    hide Slot;
  }

  lemma OutsideKeepsHead(g: Globals, sh: Shard, pc: Point, t: nat, n: nat)
    requires Ready(sh, pc, t) && !pc.StopRunning? && !(InRing(pc) && !Returned(sh.ring.pcs[t]))
    ensures var r := Local(g, sh, pc, t, n).sh.ring;
      r == sh.ring.(pcs := r.pcs) && |r.pcs| == |sh.ring.pcs| && forall u :: 0 <= u < |r.pcs| && u != t ==>
          r.pcs[u] == sh.ring.pcs[u]
  {
    hide Sized;
    hide RingMachine.Enabled;
  }

  // ----------------------------------------------------------------- one move of the engine

  /** What the move of thread t leaves alone, as seen from another attendant of the shard. */
  lemma OthersAttend(e: Engine, t: nat, k: nat, f: Effect, e': Engine, u: nat)
    requires Stepped(e, t, k, f, e') && u < |e.points| && u != t && ShardShape(e, k) && ShardShape(e', k)
    requires f.sh.ring.head == e.shards[k].ring.head && e'.g.low == e.g.low
    requires Attends(e.points[u], e.shards[k].ring.pcs[u], e.shards[k].ring, e.g.low, k)
    ensures Attended(e', k)
  {
    hide EngineInv;
    hide Balanced;
    hide Remembers;
    hide RingOk;
    hide Inv;
    hide Percent;
    assert Attends(e'.points[u], e'.shards[k].ring.pcs[u], e'.shards[k].ring, e'.g.low, k);
  }

  lemma SelfAttends(e: Engine, t: nat, k: nat, f: Effect, e': Engine)
    requires Stepped(e, t, k, f, e') && ShardShape(e, k) && ShardShape(e', k) && e'.g.low == e.g.low
    requires Attends(f.pc, f.sh.ring.pcs[t], f.sh.ring, e.g.low, k)
    ensures Attended(e', k)
  {
    hide EngineInv;
    hide Sound;
    hide Balanced;
    hide Remembers;
    hide Inv;
    hide Attends;
    assert Attends(e'.points[t], e'.shards[k].ring.pcs[t], e'.shards[k].ring, e'.g.low, k);
  }

  /** The shard a thread works on stays tended, unless the thread latches it untended. */
  lemma OwnStaysTended(e: Engine, t: nat, k: nat, f: Effect, e': Engine)
    requires EngineInv(e) && MoveEnabled(e, Go(t)) && !e.points[t].StopRunning? && !LatchesUntended(e, Go(t))
    requires e' == ApplyMove(e, Go(t)) && Stepped(e, t, k, f, e')
    requires Ready(e.shards[k], e.points[t], t) && f == Local(e.g, e.shards[k], e.points[t], t, |e.shards|)
    requires ShardShape(e, k) && ShardShape(e', k) && Tended(e, k)
    ensures Tended(e', k)
  {
    var sh, pc, n := e.shards[k], e.points[t], |e.shards|;
    hide ApplyMove;
    hide EngineInv;
    hide MoveEnabled;
    hide Local;
    hide Ready;
    hide Before;
    hide Attends;
    hide Sound;
    hide Balanced;
    hide Remembers;
    hide AtHome;
    StepReady(e, t);
    HotByLatch(e.g, sh, pc, t, n);
    TakerAttends(e.g, sh, pc, t, n);
    assert f.g == e'.g && f.sh == e'.shards[k] && f.pc == e'.points[t];
    if f.sh.hot {
      if f.sh.ring.head != sh.ring.head {
        SelfAttends(e, t, k, f, e');
      } else {
        TailKept(e, t, k, f, e');
        if sh.ring.head == sh.ring.tail {
          SomeoneAttends(e, t, k, f, e');
        }
      }
    }
  }

  lemma TailKept(e: Engine, t: nat, k: nat, f: Effect, e': Engine)
    requires Stepped(e, t, k, f, e') && ShardShape(e, k) && ShardShape(e', k)
    requires Ready(e.shards[k], e.points[t], t) && !e.points[t].StopRunning?
    requires f == Local(e.g, e.shards[k], e.points[t], t, |e.shards|)
    ensures e.shards[k].ring.tail <= f.sh.ring.tail
    ensures e.shards[k].ring.head <= e.shards[k].ring.tail && f.sh.ring.head <= f.sh.ring.tail
  {
    hide EngineInv;
    hide Balanced;
    hide Remembers;
    hide CellOk;
    hide ThreadOk;
    hide Answer;
    hide Slot;
    if InRing(e.points[t]) && !Returned(e.shards[k].ring.pcs[t]) {
      TailGrows(e.shards[k].ring, t);
      hide RingMachine.StepOf;
    } else {
      OutsideKeepsHead(e.g, e.shards[k], e.points[t], t, |e.shards|);
      hide Local;
    }
  }

  lemma TailGrows(r: Ring, t: nat)
    requires RingMachine.Enabled(r, Step(t))
    ensures r.tail <= RingMachine.StepOf(r, t).tail
  {
    hide Slot;
  }

  /** With the ring empty and head unmoved, the attendant the shard had is still there, or has done its work. */
  lemma SomeoneAttends(e: Engine, t: nat, k: nat, f: Effect, e': Engine)
    requires EngineInv(e) && MoveEnabled(e, Go(t)) && !e.points[t].StopRunning? && !LatchesUntended(e, Go(t))
    requires Stepped(e, t, k, f, e') && Ready(e.shards[k], e.points[t], t)
    requires f == Local(e.g, e.shards[k], e.points[t], t, |e.shards|)
    requires ShardShape(e, k) && ShardShape(e', k) && Tended(e, k) && e'.g.low == e.g.low
    requires f.sh.hot && (e.shards[k].hot || e.points[t].LatchHot?)
    requires e.shards[k].ring.head == e.shards[k].ring.tail == f.sh.ring.head
    ensures Tended(e', k)
  {
    var sh, pc, n := e.shards[k], e.points[t], |e.shards|;
    hide EngineInv;
    hide MoveEnabled;
    hide Local;
    hide Ready;
    hide Before;
    hide Sound;
    hide Balanced;
    hide Remembers;
    hide AtHome;
    hide Inv;
    hide Percent;
    assert Attended(e, k);
    var u :| 0 <= u < |e.points| && Attends(e.points[u], sh.ring.pcs[u], sh.ring, e.g.low, k);
    StepReady(e, t);
    hide Attends;
    if u != t {
      OthersAttend(e, t, k, f, e', u);
    } else {
      OwnAttends(e.g, sh, pc, t, n);
      if Attends(f.pc, f.sh.ring.pcs[t], f.sh.ring, e.g.low, k) {
        SelfAttends(e, t, k, f, e');
      }
    }
  }

  /** The other shards stay tended. */
  lemma OtherStaysTended(e: Engine, t: nat, k: nat, f: Effect, e': Engine, i: nat)
    requires Stepped(e, t, k, f, e') && Ready(e.shards[k], e.points[t], t) && !e.points[t].StopRunning?
    requires f == Local(e.g, e.shards[k], e.points[t], t, |e.shards|)
    requires i < |e.shards| && i != k && ShardShape(e, i) && ShardShape(e', i) && Tended(e, i)
    ensures Tended(e', i)
  {
    hide EngineInv;
    hide Local;
    hide Ready;
    hide Sound;
    hide Balanced;
    hide Remembers;
    hide AtHome;
    hide Inv;
    hide Attends;
    var r := e.shards[i].ring;
    HotByLatch(e.g, e.shards[k], e.points[t], t, |e.shards|);
    if Attended(e, i) {
      var u :| 0 <= u < |e.points| && Attends(e.points[u], r.pcs[u], r, e.g.low, i);
      if u == t {
        OtherAttends(e.g, e.shards[k], e.points[t], t, |e.shards|, i, r.pcs[u], r);
      }
      assert Attends(e'.points[u], r.pcs[u], r, e'.g.low, i);
    }
  }

  lemma StartStaysTended(e: Engine, m: Move, i: nat)
    requires EngineInv(e) && MoveEnabled(e, m) && (m.Start? || e.points[m.thread].StopRunning?)
    requires i < |e.shards| && ShardShape(e, i) && Tended(e, i)
    ensures var e' := ApplyMove(e, m); i < |e'.shards| && ShardShape(e', i) && Tended(e', i)
  {
    hide EngineInv;
    hide Local;
    hide Ready;
    hide Inv;
    hide Percent;
    var r, e' := e.shards[i].ring, ApplyMove(e, m);
    if Attended(e, i) {
      var u :| 0 <= u < |e.points| && Attends(e.points[u], r.pcs[u], r, e.g.low, i);
      assert u != m.thread;
      assert Attends(e'.points[u], r.pcs[u], r, e'.g.low, i);
    }
  }

  lemma UntendedLatch(e: Engine, t: nat, k: nat, f: Effect, e': Engine)
    requires EngineInv(e) && MoveEnabled(e, Go(t)) && LatchesUntended(e, Go(t)) && Stepped(e, t, k, f, e')
    requires Ready(e.shards[k], e.points[t], t) && f == Local(e.g, e.shards[k], e.points[t], t, |e.shards|)
    requires ShardShape(e', k)
    ensures !Tended(e', k)
  {
    hide EngineInv;
    hide MoveEnabled;
    hide Sound;
    hide Balanced;
    hide Remembers;
    hide AtHome;
    hide Inv;
    hide Percent;
    hide Ready;
    var r := e.shards[k].ring;
    assert e'.points[t] == AddSaturated && e'.shards[k] == e.shards[k].(hot := true) && e'.g == e.g;
    hide Local;
    forall u | 0 <= u < |e'.points| ensures !Attends(e'.points[u], r.pcs[u], r, e'.g.low, k) {
      if u != t {
        assert e'.points[u] == e.points[u];
      }
    }
  }

  /** A move keeps every hot shard tended exactly if it is not an untended latch. */
  lemma TendedExact(e: Engine, m: Move)
    requires EngineInv(e) && MoveEnabled(e, m) && AllTended(e)
    ensures AllTended(ApplyMove(e, m)) <==> !LatchesUntended(e, m)
  {
    var t, e' := m.thread, ApplyMove(e, m);
    KeepsEngineInv(e, m);
    hide EngineInv;
    hide ShardShape;
    hide Tended;
    if m.Start? || e.points[t].StopRunning? {
      hide Local;
      hide Ready;
      forall i | 0 <= i < |e'.shards| ensures ShardShape(e', i) && Tended(e', i) {
        StartStaysTended(e, m, i);
      }
    } else {
      GoTended(e, t);
    }
  }

  lemma GoTended(e: Engine, t: nat)
    requires EngineInv(e) && MoveEnabled(e, Go(t)) && AllTended(e) && !e.points[t].StopRunning?
    requires EngineInv(ApplyMove(e, Go(t)))
    ensures AllTended(ApplyMove(e, Go(t))) <==> !LatchesUntended(e, Go(t))
  {
    hide EngineInv;
    hide MoveEnabled;
    hide ApplyMove;
    hide Local;
    hide Ready;
    hide Inv;
    hide Tended;
    hide LatchesUntended;
    hide Sound;
    hide Balanced;
    hide Remembers;
    hide AtHome;
    var e' := ApplyMove(e, Go(t));
    var k, f := StepIs(e, t);
    assert |e'.shards| == |e.shards|;
    Shaped(e', k);
    if LatchesUntended(e, Go(t)) {
      UntendedLatch(e, t, k, f, e');
    } else {
      forall i | 0 <= i < |e'.shards| ensures ShardShape(e', i) && Tended(e', i) {
        Shaped(e', i);
        if i == k {
          OwnStaysTended(e, t, k, f, e');
        } else {
          OtherStaysTended(e, t, k, f, e', i);
        }
      }
    }
  }

  // ----------------------------------------------------------------- whole runs

  /** No move of the run latches a shard untended. */
  ghost predicate NeverUntended(e: Engine, moves: seq<Move>)
    requires MovesRun(e, moves)
    decreases |moves|
  {
    |moves| > 0 ==> !LatchesUntended(e, moves[0]) && NeverUntended(ApplyMove(e, moves[0]), moves[1..])
  }

  lemma InitTended(e: Engine)
    requires FreshEngine(e)
    ensures EngineInv(e) && AllTended(e)
  {
    InitEngineInv(e);
    forall i | 0 <= i < |e.shards| ensures ShardShape(e, i) && Tended(e, i) {
      Shaped(e, i);
    }
  }

  /** In a run without untended latches every hot shard is tended, in every state. */
  lemma {:induction false} TendedThroughout(e: Engine, moves: seq<Move>)
    requires EngineInv(e) && AllTended(e) && MovesRun(e, moves) && NeverUntended(e, moves)
    ensures AllTended(ExecMoves(e, moves))
    decreases |moves|
  {
    if |moves| > 0 {
      hide EngineInv;
      hide AllTended;
      hide LatchesUntended;
      hide ApplyMove;
      hide MoveEnabled;
      KeepsEngineInv(e, moves[0]);
      TendedExact(e, moves[0]);
      TendedThroughout(ApplyMove(e, moves[0]), moves[1..]);
    }
  }
}
