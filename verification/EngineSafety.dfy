/**
 The engine keeps every ring's invariant: each of its steps is a step of the ring machine or leaves the rings alone.
 */
module EngineSafety {
  import opened Bits
  import opened Slots
  import opened RingMachine
  import opened RingSafety
  import opened RingProgress
  import opened EngineMachine

  /** What a thread at pc may be doing inside the ring of its shard. */
  predicate Matches(pc: Point, r: Pc) {
    if pc.InPublish? then InClaim(r) || r.Writing? || InAdvance(r) || r.ClaimFull? || r.Published?
    else if pc.Gauge? || pc.GaugeDrained? || pc.WorkPending? then r.PendLoadHead? || r.PendLoadTail? || r.PendingIs?
    else if pc.WorkDequeue? || pc.DrainDequeue? then InDequeue(r) || InRead(r) || r.DeqEmpty? || r.Released?
        || r.Broken?
    else r.Idle?
  }

  ghost predicate RingOk(r: Ring) { Inv(r) && Helped(r) }

  predicate NextOk(n: nat, next: Next) {
    match next
    case Finish => true
    case Batch(i) => i < n
    case Sweep(i, _, _) => i < n
  }

  /** The shard numbers a thread remembers exist. */
  predicate PointOk(n: nat, pc: Point) {
    && ShardOf(n, pc) < n
    && match pc
       case ShutGate(next) => NextOk(n, next)
       case CountClose(next) => NextOk(n, next)
       case ReadHot(_, next) => NextOk(n, next)
       case GaugeDrained(_, next) => NextOk(n, next)
       case ClearHot(_, next) => NextOk(n, next)
       case SubSaturated(next) => NextOk(n, next)
       case OpenGate(next) => NextOk(n, next)
       case CountOpen(next) => NextOk(n, next)
       case Recheck(next) => NextOk(n, next)
       case WorkDone(i) => i < n
       case _ => true
  }

  /** A publish under way has passed the size check. */
  predicate CallOk(sh: Shard, pc: Point) {
    (pc.CheckRunning? || pc.CheckGate? || pc.DrawTicket?) ==> |pc.call.payload| <= sh.ring.payloadCap
  }

  // ----------------------------------------------------------------- one thread, one shard

  lemma LocalReady(sh: Shard, pc: Point, t: nat)
    requires RingOk(sh.ring) && t < |sh.ring.pcs| && Matches(pc, sh.ring.pcs[t]) && CallOk(sh, pc)
    ensures Ready(sh, pc, t)
  {
    hide Slot;
    hide CellOk;
    hide Helped;
    NeverStuck(sh.ring, t);
    assert ThreadOk(sh.ring, t);
  }

  ghost predicate Sound(sh: Shard, t: nat, f: Effect) {
    && RingOk(f.sh.ring)
    && |f.sh.ring.pcs| == |sh.ring.pcs| && t < |sh.ring.pcs|
    && f.sh.ring.pcs == sh.ring.pcs[t := f.sh.ring.pcs[t]]
    && f.sh.ring.capacity == sh.ring.capacity && f.sh.ring.payloadCap == sh.ring.payloadCap
    && f.sh.ring.epoch == sh.ring.epoch
    && Matches(f.pc, f.sh.ring.pcs[t])
  }

  lemma EnterSound(sh: Shard, t: nat, op: Op)
    requires RingOk(sh.ring) && t < |sh.ring.pcs| && sh.ring.pcs[t].Idle?
    requires op.Publish? ==> |op.req.payload| <= sh.ring.payloadCap
    ensures RingMachine.Enabled(sh.ring, Invoke(t, op))
    ensures var sh' := Enter(sh, t, op);
      && sh' == sh.(ring := sh'.ring) && RingOk(sh'.ring) && Framed(sh.ring, t, sh'.ring)
      && sh'.ring.tail == sh.ring.tail && sh'.ring.head == sh.ring.head
      && sh'.ring.pcs[t]
         == (match op case Publish(req) => ClaimLoadTail(req) case Dequeue => DeqLoadHead case Pending => PendLoadHead)
      && Flows(sh, t, sh')
  {
    KeepsHelped(sh.ring, Invoke(t, op));
  }

  lemma LeaveSound(sh: Shard, t: nat)
    requires RingOk(sh.ring) && t < |sh.ring.pcs| && Returned(sh.ring.pcs[t])
    ensures RingMachine.Enabled(sh.ring, Return(t))
    ensures var sh' := Leave(sh, t);
      && sh' == sh.(ring := sh'.ring) && RingOk(sh'.ring) && Framed(sh.ring, t, sh'.ring)
      && sh'.ring.tail == sh.ring.tail && sh'.ring.head == sh.ring.head && sh'.ring.pcs[t].Idle?
      && (sh.ring.pcs[t].Published? ==> Flows(sh, t, sh'.(ingested := sh.ingested + 1)))
      && (sh.ring.pcs[t].Released? ==> Flows(sh, t, sh'.(consumed := sh.consumed + 1)))
      && (Claiming(sh.ring.pcs[t]) == Taking(sh.ring.pcs[t]) == 0 ==> Flows(sh, t, sh'))
  {
    KeepsHelped(sh.ring, Return(t));
  }

  /** A step inside an operation leaves the thread inside that operation or at its result. */
  lemma StaysInOperation(r: Ring, t: nat, pc: Point)
    requires RingMachine.Enabled(r, Step(t)) && Matches(pc, r.pcs[t])
    ensures Matches(pc, RingMachine.StepOf(r, t).pcs[t])
  {
    hide Slot;
  }

  // ----------------------------------------------------------------- the books

  // Weights: what each thread owes to the counters at its program point.

  /** Drew a ticket that is not yet counted as ingested or dropped. */
  function InFlight(pc: Point): int { if pc.InPublish? || pc.CountDropped? then 1 else 0 }

  /** Counted a rejection that is not yet counted as dropped. */
  function Dropping(pc: Point): int { if pc.CountDropped? then 1 else 0 }

  /** Latched a shard hot and has not yet added to the saturation counter. */
  function Adding(pc: Point): int { if pc.AddSaturated? then 1 else 0 }

  /** Cleared a shard's latch and has not yet subtracted from the saturation counter. */
  function Subtracting(pc: Point): int { if pc.SubSaturated? then 1 else 0 }

  /** Claimed a position whose record is not yet counted as ingested. */
  function Claiming(r: Pc): int { if r.Writing? || InAdvance(r) || r.Published? then 1 else 0 }

  /** Took a position whose record is not yet counted as consumed. */
  function Taking(r: Pc): int {
    if r.DeqConfirm? || r.BrokenRelease? || r.Broken? || InRead(r) || r.Released? then 1 else 0
  }

  function Hot(sh: Shard): int { if sh.hot then 1 else 0 }

  /** A step moves the counters by exactly what it changes in the weights of its thread and its shard. */
  ghost predicate Balanced(g: Globals, sh: Shard, pc: Point, t: nat, f: Effect) {
    && f.g.ticket - g.ticket == f.sh.ingested - sh.ingested + f.g.dropped - g.dropped + InFlight(f.pc) - InFlight(pc)
    && f.sh.rejected - sh.rejected == f.g.dropped - g.dropped + Dropping(f.pc) - Dropping(pc)
    && f.g.saturated
       == Word64(g.saturated + Hot(f.sh) - Hot(sh) - Adding(f.pc) + Adding(pc) + Subtracting(f.pc) - Subtracting(pc))
    && Flows(sh, t, f.sh)
  }

  ghost predicate Flows(sh: Shard, t: nat, sh': Shard) {
    && t < |sh.ring.pcs| == |sh'.ring.pcs|
    && sh'.ring.tail - sh.ring.tail == sh'.ingested - sh.ingested + Claiming(sh'.ring.pcs[t]) - Claiming(sh.ring.pcs[t])
    && sh'.ring.head - sh.ring.head == sh'.consumed - sh.consumed + Taking(sh'.ring.pcs[t]) - Taking(sh.ring.pcs[t])
  }

  lemma ProducerFlows(r: Ring, t: nat)
    requires Inv(r) && RingMachine.Enabled(r, Step(t)) && ProducerSide(r.pcs[t])
    ensures var r' := RingMachine.StepOf(r, t);
      r'.tail - r.tail == Claiming(r'.pcs[t]) - Claiming(r.pcs[t])
          && r'.head - r.head == Taking(r'.pcs[t]) - Taking(r.pcs[t])
  {
    hide Slot;
    hide CellOk;
    assert ThreadOk(r, t);
    hide ThreadOk;
    hide Inv;
  }

  lemma ConsumerFlows(r: Ring, t: nat)
    requires Inv(r) && RingMachine.Enabled(r, Step(t)) && !ProducerSide(r.pcs[t])
    ensures var r' := RingMachine.StepOf(r, t);
      r'.tail - r.tail == Claiming(r'.pcs[t]) - Claiming(r.pcs[t])
          && r'.head - r.head == Taking(r'.pcs[t]) - Taking(r.pcs[t])
  {
    hide Slot;
    hide CellOk;
    assert ThreadOk(r, t);
    hide ThreadOk;
    hide Inv;
  }

  lemma StepFlows(sh: Shard, t: nat)
    requires RingOk(sh.ring) && RingMachine.Enabled(sh.ring, Step(t))
    ensures Flows(sh, t, sh.(ring := RingMachine.StepOf(sh.ring, t)))
  {
    hide RingMachine.StepOf;
    if ProducerSide(sh.ring.pcs[t]) {
      ProducerFlows(sh.ring, t);
    } else {
      ConsumerFlows(sh.ring, t);
    }
  }

  // ----------------------------------------------------------------- soundness of each kind of step

  /** The shard numbers and sizes a thread remembers stay valid. */
  ghost predicate Remembers(f: Effect, n: nat) { PointOk(n, f.pc) && CallOk(f.sh, f.pc) }

  ghost predicate Before(g: Globals, sh: Shard, pc: Point, t: nat, n: nat) {
    && RingOk(sh.ring) && t < |sh.ring.pcs| && Matches(pc, sh.ring.pcs[t])
    && Ready(sh, pc, t) && PointOk(n, pc) && CallOk(sh, pc) && 0 < n
    && g.saturated < TWO64
  }

  lemma AnswerSound(g: Globals, sh: Shard, pc: Point, t: nat, n: nat)
    requires Before(g, sh, pc, t, n) && InRing(pc) && Returned(sh.ring.pcs[t])
    ensures Sound(sh, t, Answer(g, sh, pc, t))
  {
    hide Flows;
    hide RingOk;
    hide Enter;
    hide Leave;
    hide Sized;
    hide RingMachine.Enabled;
    LeaveSound(sh, t);
    if pc.InPublish? && sh.ring.pcs[t].Published? {
      EnterSound(Leave(sh, t).(ingested := sh.ingested + 1), t, Pending);
    }
  }

  lemma PublishAnswerBalanced(g: Globals, sh: Shard, pc: Point, t: nat, n: nat)
    requires Before(g, sh, pc, t, n) && pc.InPublish? && Returned(sh.ring.pcs[t])
    ensures Balanced(g, sh, pc, t, Answer(g, sh, pc, t))
  {
    hide Flows;
    hide Framed;
    hide RingOk;
    hide Matches;
    hide PointOk;
    hide Enter;
    hide Leave;
    hide Sized;
    hide RingMachine.Enabled;
    LeaveSound(sh, t);
    var back := Leave(sh, t);
    if sh.ring.pcs[t].Published? {
      var counted := back.(ingested := sh.ingested + 1);
      EnterSound(counted, t, Pending);
      FlowsTrans(sh, t, counted, Enter(counted, t, Pending));
    } else {
      FlowsSame(sh, t, back, back.(rejected := sh.rejected + 1));
    }
  }

  lemma AnswerBalanced(g: Globals, sh: Shard, pc: Point, t: nat, n: nat)
    requires Before(g, sh, pc, t, n) && InRing(pc) && Returned(sh.ring.pcs[t])
    ensures Balanced(g, sh, pc, t, Answer(g, sh, pc, t))
  {
    hide Flows;
    hide Framed;
    hide RingOk;
    hide Matches;
    hide PointOk;
    hide Enter;
    hide Leave;
    hide Sized;
    hide RingMachine.Enabled;
    if pc.InPublish? {
      PublishAnswerBalanced(g, sh, pc, t, n);
      return;
    }
    LeaveSound(sh, t);
  }

  lemma FlowsTrans(a: Shard, t: nat, b: Shard, c: Shard)
    requires Flows(a, t, b) && Flows(b, t, c)
    ensures Flows(a, t, c)
  {
  }

  lemma FlowsKept(a: Shard, t: nat, b: Shard)
    requires t < |a.ring.pcs| && b == a.(hot := b.hot)
    ensures Flows(a, t, b)
  {
  }

  lemma FlowsSame(a: Shard, t: nat, b: Shard, c: Shard)
    requires Flows(a, t, b) && c == b.(rejected := c.rejected)
    ensures Flows(a, t, c)
  {
  }

  lemma AnswerRemembers(g: Globals, sh: Shard, pc: Point, t: nat, n: nat)
    requires Before(g, sh, pc, t, n) && InRing(pc) && Returned(sh.ring.pcs[t])
    ensures Remembers(Answer(g, sh, pc, t), n)
  {
    hide Flows;
    hide Matches;
    hide RingOk;
    hide Enter;
    hide Leave;
    hide Sized;
    hide RingMachine.Enabled;
    LeaveSound(sh, t);
    if pc.InPublish? && sh.ring.pcs[t].Published? {
      EnterSound(Leave(sh, t).(ingested := sh.ingested + 1), t, Pending);
    }
  }

  lemma MarkSound(g: Globals, sh: Shard, pc: Point, t: nat, n: nat)
    requires Before(g, sh, pc, t, n) && InMark(pc)
    ensures Sound(sh, t, MarkStep(g, sh, pc, t))
  {
    hide RingOk;
    hide Enter;
    hide Leave;
    hide Sized;
    hide RingMachine.Enabled;
  }

  lemma MarkBalanced(g: Globals, sh: Shard, pc: Point, t: nat, n: nat)
    requires Before(g, sh, pc, t, n) && InMark(pc)
    ensures Balanced(g, sh, pc, t, MarkStep(g, sh, pc, t))
  {
    hide RingOk;
    hide Enter;
    hide Leave;
    hide Sized;
    hide RingMachine.Enabled;
  }

  lemma MarkRemembers(g: Globals, sh: Shard, pc: Point, t: nat, n: nat)
    requires Before(g, sh, pc, t, n) && InMark(pc)
    ensures Remembers(MarkStep(g, sh, pc, t), n)
  {
    hide RingOk;
    hide Enter;
    hide Leave;
    hide Sized;
    hide RingMachine.Enabled;
  }

  lemma DrainedSound(g: Globals, sh: Shard, pc: Point, t: nat, n: nat)
    requires Before(g, sh, pc, t, n) && InDrained(pc)
    ensures Sound(sh, t, DrainedStep(g, sh, pc, t))
  {
    hide RingOk;
    hide Enter;
    hide Leave;
    hide Sized;
    hide RingMachine.Enabled;
    if pc.ReadHot? {
      EnterSound(sh, t, Pending);
    }
  }

  lemma DrainedBalanced(g: Globals, sh: Shard, pc: Point, t: nat, n: nat)
    requires Before(g, sh, pc, t, n) && InDrained(pc)
    ensures Balanced(g, sh, pc, t, DrainedStep(g, sh, pc, t))
  {
    hide Flows;
    hide Matches;
    hide Framed;
    hide RingOk;
    hide Enter;
    hide Leave;
    hide Sized;
    hide RingMachine.Enabled;
    if pc.ReadHot? {
      EnterSound(sh, t, Pending);
    }
    FlowsKept(sh, t, sh);
    FlowsKept(sh, t, sh.(hot := false));
  }

  lemma DrainedRemembers(g: Globals, sh: Shard, pc: Point, t: nat, n: nat)
    requires Before(g, sh, pc, t, n) && InDrained(pc)
    ensures Remembers(DrainedStep(g, sh, pc, t), n)
  {
    hide Flows;
    hide Matches;
    hide RingOk;
    hide Enter;
    hide Leave;
    hide Sized;
    hide RingMachine.Enabled;
    if pc.ReadHot? {
      EnterSound(sh, t, Pending);
    }
  }

  lemma PublishSound(g: Globals, sh: Shard, pc: Point, t: nat, n: nat)
    requires Before(g, sh, pc, t, n) && InPublishCall(pc)
    ensures Sound(sh, t, PublishStep(g, sh, pc, t))
  {
    hide RingOk;
    hide Enter;
    hide Leave;
    hide Sized;
    hide RingMachine.Enabled;
    if pc.DrawTicket? {
      EnterSound(sh, t, Publish(RequestOf(g, pc.call)));
    }
  }

  lemma PublishBalanced(g: Globals, sh: Shard, pc: Point, t: nat, n: nat)
    requires Before(g, sh, pc, t, n) && InPublishCall(pc)
    ensures Balanced(g, sh, pc, t, PublishStep(g, sh, pc, t))
  {
    hide Flows;
    hide Matches;
    hide Framed;
    hide RingOk;
    hide Enter;
    hide Leave;
    hide Sized;
    hide RingMachine.Enabled;
    if pc.DrawTicket? {
      EnterSound(sh, t, Publish(RequestOf(g, pc.call)));
    }
    FlowsKept(sh, t, sh);
  }

  lemma PublishRemembers(g: Globals, sh: Shard, pc: Point, t: nat, n: nat)
    requires Before(g, sh, pc, t, n) && InPublishCall(pc)
    ensures Remembers(PublishStep(g, sh, pc, t), n)
  {
    hide RingOk;
    hide Enter;
    hide Leave;
    hide Sized;
    hide RingMachine.Enabled;
    if pc.DrawTicket? {
      EnterSound(sh, t, Publish(RequestOf(g, pc.call)));
    }
  }

  lemma ConsumeSound(g: Globals, sh: Shard, pc: Point, t: nat, n: nat)
    requires Before(g, sh, pc, t, n) && InConsume(pc)
    ensures Sound(sh, t, ConsumeStep(g, sh, pc, t, n))
  {
    hide RingOk;
    hide Enter;
    hide Leave;
    hide Sized;
    hide RingMachine.Enabled;
    EnterSound(sh, t, if pc.WorkRunning? then Pending else Dequeue);
  }

  lemma ConsumeBalanced(g: Globals, sh: Shard, pc: Point, t: nat, n: nat)
    requires Before(g, sh, pc, t, n) && InConsume(pc)
    ensures Balanced(g, sh, pc, t, ConsumeStep(g, sh, pc, t, n))
  {
    hide Flows;
    hide Matches;
    hide Framed;
    hide RingOk;
    hide Enter;
    hide Leave;
    hide Sized;
    hide RingMachine.Enabled;
    EnterSound(sh, t, if pc.WorkRunning? then Pending else Dequeue);
    FlowsKept(sh, t, sh);
  }

  lemma ConsumeRemembers(g: Globals, sh: Shard, pc: Point, t: nat, n: nat)
    requires Before(g, sh, pc, t, n) && InConsume(pc)
    ensures Remembers(ConsumeStep(g, sh, pc, t, n), n)
  {
    hide RingOk;
    hide Enter;
    hide Leave;
    hide Sized;
    hide RingMachine.Enabled;
    EnterSound(sh, t, if pc.WorkRunning? then Pending else Dequeue);
  }

  lemma RingStepSound(sh: Shard, pc: Point, t: nat, g: Globals)
    requires RingOk(sh.ring) && RingMachine.Enabled(sh.ring, Step(t)) && Matches(pc, sh.ring.pcs[t])
    ensures Sound(sh, t, Effect(g, sh.(ring := RingMachine.StepOf(sh.ring, t)), pc))
  {
    KeepsHelped(sh.ring, Step(t));
    StaysInOperation(sh.ring, t, pc);
    hide Inv;
    hide Helped;
    hide RingMachine.StepOf;
  }

  lemma RingStepBalanced(sh: Shard, pc: Point, t: nat, g: Globals)
    requires RingOk(sh.ring) && RingMachine.Enabled(sh.ring, Step(t)) && g.saturated < TWO64
    ensures Balanced(g, sh, pc, t, Effect(g, sh.(ring := RingMachine.StepOf(sh.ring, t)), pc))
  {
    StepFlows(sh, t);
    hide RingOk;
    hide RingMachine.StepOf;
  }

  /** Everything a step of one thread on its shard preserves and accounts for. */
  lemma LocalGood(g: Globals, sh: Shard, pc: Point, t: nat, n: nat)
    requires Before(g, sh, pc, t, n) && !pc.StopRunning?
    ensures var f := Local(g, sh, pc, t, n);
      Sound(sh, t, f) && Balanced(g, sh, pc, t, f) && Remembers(f, n)
  {
    hide RingOk;
    hide Sized;
    hide RingMachine.Enabled;
    hide Balanced;
    hide Answer;
    hide MarkStep;
    hide DrainedStep;
    hide PublishStep;
    hide ConsumeStep;
    if InRing(pc) {
      if Returned(sh.ring.pcs[t]) {
        AnswerSound(g, sh, pc, t, n);
        AnswerBalanced(g, sh, pc, t, n);
        AnswerRemembers(g, sh, pc, t, n);
      } else {
        RingStepSound(sh, pc, t, g);
        RingStepBalanced(sh, pc, t, g);
      }
    } else if InMark(pc) {
      MarkSound(g, sh, pc, t, n);
      MarkBalanced(g, sh, pc, t, n);
      MarkRemembers(g, sh, pc, t, n);
    } else if InDrained(pc) {
      DrainedSound(g, sh, pc, t, n);
      DrainedBalanced(g, sh, pc, t, n);
      DrainedRemembers(g, sh, pc, t, n);
    } else if InPublishCall(pc) {
      PublishSound(g, sh, pc, t, n);
      PublishBalanced(g, sh, pc, t, n);
      PublishRemembers(g, sh, pc, t, n);
    } else if InConsume(pc) {
      ConsumeSound(g, sh, pc, t, n);
      ConsumeBalanced(g, sh, pc, t, n);
      ConsumeRemembers(g, sh, pc, t, n);
    } else {
      RestGood(g, sh, pc, t, n);
    }
  }

  lemma RestGood(g: Globals, sh: Shard, pc: Point, t: nat, n: nat)
    requires Before(g, sh, pc, t, n) && !InRing(pc) && !InMark(pc) && !InDrained(pc) && !InPublishCall(pc)
        && !InConsume(pc)
    ensures var f := if pc.ForceOpen? then Effect(g.(closed := false, forced := true), sh, Off) else Effect(g, sh, pc);
      Sound(sh, t, f) && Balanced(g, sh, pc, t, f) && Remembers(f, n)
  {
    hide RingOk;
  }
}
