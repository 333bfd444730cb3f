/**
 What an observer of the ring sees over a whole run: the claims won, the positions taken and the records read
 out, in the order in which they happen.
 */
module RingDelivery {
  import opened Records
  import opened Slots
  import opened RingMachine
  import opened RingSafety

  datatype Claim = Claim(pos: nat, req: Request)

  datatype Delivery = Delivery(pos: nat, record: Record)

  // The event, if any, that an action causes, read off the acting thread's own local variables.

  ghost function ClaimOf(s: Ring, a: Action): seq<Claim>
    requires Enabled(s, a)
  {
    if a.Step? && s.pcs[a.thread].ClaimCas? && s.tail == s.pcs[a.thread].pos
    then [Claim(s.pcs[a.thread].pos, s.pcs[a.thread].req)]
    else []
  }

  ghost function TakeOf(s: Ring, a: Action): seq<nat>
    requires Enabled(s, a)
  {
    if a.Step? && s.pcs[a.thread].DeqCas? && s.head == s.pcs[a.thread].pos then [s.pcs[a.thread].pos] else []
  }

  ghost function DeliveryOf(s: Ring, a: Action): (d: seq<Delivery>)
    requires Enabled(s, a)
    ensures |d| <= 1
  {
    if a.Step? && s.pcs[a.thread].Reading? && !StepOf(s, a.thread).pcs[a.thread].Reading?
    then
      var pos := s.pcs[a.thread].pos;
      [Delivery(pos, Assemble(s.pcs[a.thread].buf, Slot(pos, s.capacity)))]
    else []
  }

  ghost function Claims(s: Ring, actions: seq<Action>): seq<Claim>
    requires Runs(s, actions)
    decreases |actions|
  {
    if |actions| == 0 then [] else ClaimOf(s, actions[0]) + Claims(Apply(s, actions[0]), actions[1..])
  }

  ghost function Takes(s: Ring, actions: seq<Action>): seq<nat>
    requires Runs(s, actions)
    decreases |actions|
  {
    if |actions| == 0 then [] else TakeOf(s, actions[0]) + Takes(Apply(s, actions[0]), actions[1..])
  }

  ghost function Deliveries(s: Ring, actions: seq<Action>): seq<Delivery>
    requires Runs(s, actions)
    decreases |actions|
  {
    if |actions| == 0 then [] else DeliveryOf(s, actions[0]) + Deliveries(Apply(s, actions[0]), actions[1..])
  }

  ghost predicate Delivered(deliveries: seq<Delivery>, pos: nat) {
    exists k :: 0 <= k < |deliveries| && deliveries[k].pos == pos
  }

  ghost predicate BeingRead(s: Ring, pos: nat) {
    exists t :: 0 <= t < |s.pcs| && Unread(s.pcs[t], pos)
  }

  /** tail and the log move exactly with the claims that happen. */
  lemma ClaimStepExact(s: Ring, a: Action)
    requires Enabled(s, a) && |s.log| == s.tail
    ensures var c := ClaimOf(s, a);
      if c == [] then Apply(s, a).tail == s.tail && Apply(s, a).log == s.log
      else
        && c[0].pos == s.tail && Apply(s, a).tail == s.tail + 1
        && Apply(s, a).log == s.log + [Claimed(a.thread, c[0].req)]
  {
    hide Slot;
  }

  lemma {:induction false} ClaimsInOrder(s: Ring, actions: seq<Action>)
    requires |s.log| == s.tail && Runs(s, actions)
    ensures s.log <= Exec(s, actions).log
    ensures s.tail + |Claims(s, actions)| == Exec(s, actions).tail == |Exec(s, actions).log|
    ensures forall k :: 0 <= k < |Claims(s, actions)| ==>
      Claims(s, actions)[k] == Claim(s.tail + k, Exec(s, actions).log[s.tail + k].req)
    decreases |actions|
  {
    if |actions| > 0 {
      var s' := Apply(s, actions[0]);
      ClaimStepExact(s, actions[0]);
      hide Apply;
      hide Enabled;
      hide ClaimOf;
      ClaimsInOrder(s', actions[1..]);
    }
  }

  /** head moves exactly with the takes that happen. */
  lemma TakeStepExact(s: Ring, a: Action)
    requires Enabled(s, a)
    ensures var c := TakeOf(s, a);
      if c == [] then Apply(s, a).head == s.head else c[0] == s.head && Apply(s, a).head == s.head + 1
  {
    hide Slot;
  }

  lemma {:induction false} TakesInOrder(s: Ring, actions: seq<Action>)
    requires Runs(s, actions)
    ensures s.head + |Takes(s, actions)| == Exec(s, actions).head
    ensures forall k :: 0 <= k < |Takes(s, actions)| ==> Takes(s, actions)[k] == s.head + k
    decreases |actions|
  {
    if |actions| > 0 {
      TakeStepExact(s, actions[0]);
      hide Apply;
      hide Enabled;
      TakesInOrder(Apply(s, actions[0]), actions[1..]);
    }
  }

  /** An action either leaves the records read out alone or adds exactly the one it delivers. */
  lemma DeliveryStep(s: Ring, a: Action)
    requires Inv(s) && Enabled(s, a)
    ensures var d := DeliveryOf(s, a);
      if d == [] then Apply(s, a).got == s.got
      else d[0].pos !in s.got && Apply(s, a).got == s.got[d[0].pos := d[0].record]
  {
    hide Slot;
    hide CellOk;
    hide ClaimStep;
    hide WriteStep;
    hide AdvanceStep;
    hide DequeueStep;
    hide PendingStep;
    assert ThreadOk(s, a.thread);
  }

  /** What the deliveries of a run are, relative to what had been read out before and what has been after. */
  ghost predicate Accounts(before: map<nat, Record>, d: seq<Delivery>, after: map<nat, Record>) {
    && (forall k :: 0 <= k < |d| ==> d[k].pos !in before && d[k].pos in after && after[d[k].pos] == d[k].record)
    && (forall j, k :: 0 <= j < k < |d| ==> d[j].pos != d[k].pos)
    && (forall p :: p in before ==> p in after && after[p] == before[p])
    && (forall p :: p in after ==> p in before || Delivered(d, p))
  }

  lemma AccountsCons(before: map<nat, Record>, first: seq<Delivery>, mid: map<nat, Record>, rest: seq<Delivery>,
      after: map<nat, Record>)
    requires |first| <= 1
    requires if first == [] then mid == before
      else first[0].pos !in before && mid == before[first[0].pos := first[0].record]
    requires Accounts(mid, rest, after)
    ensures Accounts(before, first + rest, after)
  {
    var d := first + rest;
    if first == [] {
      assert d == rest;
      return;
    }
    var p0 := first[0].pos;
    assert p0 in mid && p0 in after;
    forall k | 0 <= k < |d|
      ensures d[k].pos !in before && d[k].pos in after && after[d[k].pos] == d[k].record && (0 < k ==> d[k].pos != p0)
    {
      assert k > 0 ==> d[k] == rest[k - 1];
    }
    forall j, k | 0 <= j < k < |d| ensures d[j].pos != d[k].pos {
      assert d[k] == rest[k - 1] && (j > 0 ==> d[j] == rest[j - 1]);
    }
    forall p | p in before ensures p in after && after[p] == before[p] {
      assert p in mid;
    }
    forall p | p in after ensures p in before || Delivered(d, p) {
      if p !in before {
        if p in mid {
          assert d[0].pos == p;
        } else {
          var k :| 0 <= k < |rest| && rest[k].pos == p;
          assert d[1 + k].pos == p;
        }
      }
    }
  }

  lemma {:induction false} DeliveriesOnce(s: Ring, actions: seq<Action>)
    requires Inv(s) && Runs(s, actions)
    ensures Accounts(s.got, Deliveries(s, actions), Exec(s, actions).got)
    decreases |actions|
  {
    if |actions| > 0 {
      var s' := Apply(s, actions[0]);
      KeepsInv(s, actions[0]);
      DeliveryStep(s, actions[0]);
      DeliveriesOnce(s', actions[1..]);
      AccountsCons(s.got, DeliveryOf(s, actions[0]), s'.got, Deliveries(s', actions[1..]), Exec(s, actions).got);
    }
  }

  lemma {:induction false} KeepsConstants(s: Ring, actions: seq<Action>)
    requires Runs(s, actions)
    ensures Exec(s, actions).epoch == s.epoch && Exec(s, actions).capacity == s.capacity
    ensures Exec(s, actions).payloadCap == s.payloadCap && |Exec(s, actions).pcs| == |s.pcs|
    decreases |actions|
  {
    if |actions| > 0 {
      hide Apply;
      KeepsConstants(Apply(s, actions[0]), actions[1..]);
    }
  }

  /** The streams of a run match its final state, so they match each other. */
  ghost predicate Delivers(claims: seq<Claim>, takes: seq<nat>, deliveries: seq<Delivery>, end: Ring) {
    && 0 < end.capacity
    && |takes| <= |claims|
    && (forall p :: 0 <= p < |claims| ==> claims[p].pos == p)
    && (forall p :: 0 <= p < |takes| ==> takes[p] == p)
    && (forall k :: 0 <= k < |deliveries| ==>
      && deliveries[k].pos < |takes|
      && var r, q := deliveries[k].record, claims[deliveries[k].pos].req;
         && r.ticket == q.ticket && r.timestamp == q.timestamp && r.key == q.key && r.payload == q.payload
         && r.checksum == q.checksum && r.flags % 2 == 1 && r.flags / 2 == q.flags / 2
         && r.epoch == end.epoch && r.slot == Slot(deliveries[k].pos, end.capacity))
    && (forall j, k :: 0 <= j < k < |deliveries| ==> deliveries[j].pos != deliveries[k].pos)
    && (forall p :: 0 <= p < |takes| ==> Delivered(deliveries, p) || BeingRead(end, p))
  }

  lemma StreamsMatch(claims: seq<Claim>, takes: seq<nat>, deliveries: seq<Delivery>, end: Ring)
    requires Inv(end)
    requires |claims| == end.tail && forall k :: 0 <= k < |claims| ==> claims[k] == Claim(k, end.log[k].req)
    requires |takes| == end.head && forall k :: 0 <= k < |takes| ==> takes[k] == k
    requires Accounts(map[], deliveries, end.got)
    ensures Delivers(claims, takes, deliveries, end)
  {
    hide Slot;
    hide CellOk;
    hide ThreadOk;
    forall p | 0 <= p < end.head ensures Delivered(deliveries, p) || BeingRead(end, p) {
      assert p in end.got || Unread(end.pcs[end.takes[p]], p);
    }
  }

  /**
   In every run of any number of threads over a ring with at least two cells: positions are claimed in the order
   0, 1, 2, ... and taken in the order 0, 1, 2, ...; each position is delivered at most once, only after being
   taken, and always with every field its claiming producer handed in, and flag bit 0 set; and every position taken
   has been delivered unless its taker is still reading it.
   */
  lemma DeliversExactly(s: Ring, threads: nat, actions: seq<Action>)
    requires Init(s, threads) && 2 <= s.capacity && Runs(s, actions)
    ensures Delivers(Claims(s, actions), Takes(s, actions), Deliveries(s, actions), Exec(s, actions))
    ensures Exec(s, actions).epoch == s.epoch
  {
    InitInv(s, threads);
    hide Inv;
    hide Apply;
    hide Enabled;
    hide Exec;
    hide Runs;
    hide Claims;
    hide Takes;
    hide Deliveries;
    RunInv(s, actions);
    ClaimsInOrder(s, actions);
    TakesInOrder(s, actions);
    DeliveriesOnce(s, actions);
    KeepsConstants(s, actions);
    StreamsMatch(Claims(s, actions), Takes(s, actions), Deliveries(s, actions), Exec(s, actions));
  }

  predicate Consuming(pc: Pc) {
    pc.DeqConfirm? || pc.Reading? || pc.Releasing? || pc.BrokenRelease?
  }

  /** Once no consumer is between its take and its release, everything taken has been delivered. */
  lemma QuietConsumersDeliverAll(s: Ring, threads: nat, actions: seq<Action>)
    requires Init(s, threads) && 2 <= s.capacity && Runs(s, actions)
    requires forall t :: 0 <= t < |Exec(s, actions).pcs| ==> !Consuming(Exec(s, actions).pcs[t])
    ensures forall p :: 0 <= p < Exec(s, actions).head ==> Delivered(Deliveries(s, actions), p)
  {
    InitInv(s, threads);
    DeliversExactly(s, threads, actions);
    TakesInOrder(s, actions);
    var end := Exec(s, actions);
    forall p | 0 <= p < end.head ensures Delivered(Deliveries(s, actions), p) {
      assert Takes(s, actions)[p] == p;
      assert !BeingRead(end, p);
    }
  }

  // ----------------------------------------------------------------- a single consumer

  /** Only thread t dequeues, and everything taken before its current position has been read out. */
  ghost predicate Sole(s: Ring, t: nat) {
    && t < |s.pcs|
    && (forall u :: 0 <= u < |s.pcs| && u != t ==> !InDequeue(s.pcs[u]) && !InRead(s.pcs[u]))
    && (forall p :: 0 <= p < s.head ==> p in s.got || (p == s.head - 1 && Unread(s.pcs[t], p)))
  }

  /** The position whose record the sole consumer delivers next. */
  ghost function NextDelivery(s: Ring, t: nat): nat
    requires t < |s.pcs|
  {
    if 0 < s.head && Unread(s.pcs[t], s.head - 1) then s.head - 1 else s.head
  }

  lemma SoleStep(s: Ring, t: nat, a: Action)
    requires Inv(s) && Sole(s, t) && Enabled(s, a)
    requires a.Invoke? && a.op.Dequeue? ==> a.thread == t
    ensures Sole(Apply(s, a), t)
    ensures var d := DeliveryOf(s, a);
      if d == [] then NextDelivery(Apply(s, a), t) == NextDelivery(s, t)
      else d[0].pos == NextDelivery(s, t) && NextDelivery(Apply(s, a), t) == NextDelivery(s, t) + 1
  {
    hide Slot;
    hide CellOk;
    if a.thread == t && a.Step? {
      SoleOwnStep(s, t);
    } else {
      assert ThreadOk(s, t);
      SoleOtherStep(s, t, a);
    }
  }

  lemma SoleOwnStep(s: Ring, t: nat)
    requires Inv(s) && Sole(s, t) && Enabled(s, Step(t))
    ensures Sole(StepOf(s, t), t)
    ensures var d := DeliveryOf(s, Step(t));
      if d == [] then NextDelivery(StepOf(s, t), t) == NextDelivery(s, t)
      else d[0].pos == NextDelivery(s, t) && NextDelivery(StepOf(s, t), t) == NextDelivery(s, t) + 1
  {
    var pc := s.pcs[t];
    hide Inv;
    hide Sole;
    hide NextDelivery;
    hide DeliveryOf;
    hide Enabled;
    hide StepOf;
    if pc.Reading? || pc.DeqConfirm? {
      SoleReads(s, t);
    } else {
      SoleMoves(s, t);
    }
  }

  /** The step of the sole consumer while it has not yet read its record out. */
  lemma SoleReads(s: Ring, t: nat)
    requires Inv(s) && Sole(s, t) && Enabled(s, Step(t)) && (s.pcs[t].Reading? || s.pcs[t].DeqConfirm?)
    ensures Sole(StepOf(s, t), t)
    ensures var d := DeliveryOf(s, Step(t));
      if d == [] then NextDelivery(StepOf(s, t), t) == NextDelivery(s, t)
      else d[0].pos == NextDelivery(s, t) && NextDelivery(StepOf(s, t), t) == NextDelivery(s, t) + 1
  {
    hide Slot;
    hide CellOk;
    assert ThreadOk(s, t);
    var pc := s.pcs[t];
    assert pc.pos !in s.got;
    assert pc.pos == s.head - 1;
    if pc.DeqConfirm? {
      assert SeqOf(s, pc.pos) == pc.pos + 1;
    }
  }

  /** Every other step of it delivers nothing, and may take the next position. */
  lemma SoleMoves(s: Ring, t: nat)
    requires Inv(s) && Sole(s, t) && Enabled(s, Step(t)) && !s.pcs[t].Reading? && !s.pcs[t].DeqConfirm?
    ensures Sole(StepOf(s, t), t)
    ensures DeliveryOf(s, Step(t)) == [] && NextDelivery(StepOf(s, t), t) == NextDelivery(s, t)
  {
    hide Slot;
    hide CellOk;
    hide ThreadOk;
    hide Inv;
    assert forall p :: !Unread(s.pcs[t], p);
  }

  lemma SoleOtherStep(s: Ring, t: nat, a: Action)
    requires Inv(s) && Sole(s, t) && Enabled(s, a) && ThreadOk(s, t)
    requires a.thread != t || !a.Step?
    requires a.Invoke? && a.op.Dequeue? ==> a.thread == t
    ensures Sole(Apply(s, a), t) && NextDelivery(Apply(s, a), t) == NextDelivery(s, t) && DeliveryOf(s, a) == []
  {
    hide Slot;
    hide Inv;
    hide ThreadOk;
    if a.Step? {
      NoConsumerStep(s, a.thread);
      hide StepOf;
    }
  }

  /** A step of a thread that is not consuming takes nothing, reads nothing out and does not begin to. */
  lemma NoConsumerStep(s: Ring, u: nat)
    requires Enabled(s, Step(u)) && !InDequeue(s.pcs[u]) && !InRead(s.pcs[u])
    ensures var s' := StepOf(s, u);
      s'.head == s.head && s'.got == s.got && !InDequeue(s'.pcs[u]) && !InRead(s'.pcs[u])
  {
    hide Slot;
  }

  /**
   When one thread does all the dequeuing, as a shard's worker does, records are delivered in position order, up to
   head, or to the position before it while the thread still reads that one out.
   */
  lemma {:induction false} SoleConsumerInOrder(s: Ring, t: nat, actions: seq<Action>)
    requires Inv(s) && Sole(s, t) && Runs(s, actions)
    requires forall a :: a in actions && a.Invoke? && a.op.Dequeue? ==> a.thread == t
    ensures forall k :: 0 <= k < |Deliveries(s, actions)| ==> Deliveries(s, actions)[k].pos == NextDelivery(s, t) + k
    ensures Sole(Exec(s, actions), t)
    ensures NextDelivery(s, t) + |Deliveries(s, actions)| == NextDelivery(Exec(s, actions), t)
    decreases |actions|
  {
    if |actions| > 0 {
      var s' := Apply(s, actions[0]);
      assert actions[0] in actions;
      KeepsInv(s, actions[0]);
      SoleStep(s, t, actions[0]);
      hide Apply;
      hide Inv;
      hide Sole;
      hide NextDelivery;
      hide DeliveryOf;
      hide Enabled;
      SoleConsumerInOrder(s', t, actions[1..]);
      var first, rest := DeliveryOf(s, actions[0]), Deliveries(s', actions[1..]);
      InOrderCons(first, rest, NextDelivery(s, t), NextDelivery(s', t));
    }
  }

  lemma InOrderCons(first: seq<Delivery>, rest: seq<Delivery>, before: nat, after: nat)
    requires |first| <= 1
    requires if first == [] then after == before else first[0].pos == before && after == before + 1
    requires forall k :: 0 <= k < |rest| ==> rest[k].pos == after + k
    ensures forall k :: 0 <= k < |first + rest| ==> (first + rest)[k].pos == before + k
  {
    forall k | 0 <= k < |first + rest| ensures (first + rest)[k].pos == before + k {
      if k < |first| {
        assert (first + rest)[k] == first[0];
      } else {
        assert (first + rest)[k] == rest[k - |first|];
      }
    }
  }

  // ----------------------------------------------------------------- cells

  /**
   Each cell's sequence word is q, q + 1 or q + capacity for the latest position q claimed in it, or its own index.
   */
  lemma LifeCycle(s: Ring, i: nat)
    requires Inv(s) && i < s.capacity
    ensures var q, sequence := s.owner[i], s.cells[i].sequence;
      && (forall p :: 0 <= p < s.tail && Slot(p, s.capacity) == i ==> p <= q)
      && (0 <= q ==> q < s.tail && Slot(q, s.capacity) == i && sequence in {q as int, q + 1, q + s.capacity})
      && (q < 0 ==> sequence == i)
  {
    hide Slot;
    var q := s.owner[i];
    assert CellOk(s, i);
    forall p | 0 <= p < s.tail && Slot(p, s.capacity) == i ensures p <= q {
      if q < p {
        SlotUnique(p, q, s.capacity);
      }
    }
    if q < 0 {
      SlotShift(q, s.capacity);
      SlotSmall(q + s.capacity, s.capacity);
    }
  }

  /** No action ever moves a sequence word backwards, and whoever changes it owned the cell's position. */
  lemma SequenceAdvances(s: Ring, a: Action, i: nat)
    requires Inv(s) && Enabled(s, a) && i < s.capacity
    ensures s.cells[i].sequence <= Apply(s, a).cells[i].sequence
    ensures s.cells[i].sequence != Apply(s, a).cells[i].sequence ==>
      0 <= s.owner[i] && (WritesAt(s.pcs[a.thread], s.owner[i]) || HoldsAt(s.pcs[a.thread], s.owner[i]))
  {
    hide Slot;
    assert ThreadOk(s, a.thread) && CellOk(s, i);
  }

  /** At any time a cell belongs to at most one thread. */
  lemma ExclusiveOwner(s: Ring, t: nat, u: nat, p: nat, q: nat)
    requires Inv(s) && t < |s.pcs| && u < |s.pcs| && t != u
    requires WritesAt(s.pcs[t], p) || HoldsAt(s.pcs[t], p)
    requires WritesAt(s.pcs[u], q) || HoldsAt(s.pcs[u], q)
    ensures Slot(p, s.capacity) != Slot(q, s.capacity)
  {
    assert ThreadOk(s, t) && ThreadOk(s, u);
  }
}
