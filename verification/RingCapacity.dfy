/**
 A ring of one cell is accepted by initRing, but pos + 1 and pos + capacity then coincide, so a published cell
 looks free. Delivery is exact if and only if the ring has at least two cells.
 */
module RingCapacity {
  import opened Records
  import opened Slots
  import opened RingMachine
  import opened RingSafety

  /** Every record read out is the one its producer wrote, and no more is in flight than the ring has cells. */
  ghost predicate Intact(s: Ring) {
    && s.tail <= s.head + s.capacity
    && 0 < s.capacity
    && (forall p :: p in s.got ==>
      p < |s.log| && s.got[p] == Committed(s.log[p].req, s.epoch, Slot(p, s.capacity)))
  }

  lemma {:induction false} ExecSnoc(s: Ring, actions: seq<Action>, a: Action)
    requires Runs(s, actions) && Enabled(Exec(s, actions), a)
    ensures Runs(s, actions + [a]) && Exec(s, actions + [a]) == Apply(Exec(s, actions), a)
    decreases |actions|
  {
    if |actions| == 0 {
      assert actions + [a] == [a];
      assert [a][1..] == [];
    } else {
      assert (actions + [a])[1..] == actions[1..] + [a];
      ExecSnoc(Apply(s, actions[0]), actions[1..], a);
    }
  }

  /** A run in progress: the state reached from s by the actions so far. */
  ghost predicate At(s: Ring, actions: seq<Action>, e: Ring) {
    Runs(s, actions) && Exec(s, actions) == e
  }

  lemma Start(s: Ring)
    ensures At(s, [], s)
  {
  }

  lemma Reached(s: Ring, actions: seq<Action>, e: Ring)
    requires At(s, actions, e)
    ensures Runs(s, actions) && Exec(s, actions) == e
  {
  }

  lemma Then(s: Ring, actions: seq<Action>, e: Ring, a: Action) returns (actions': seq<Action>, e': Ring)
    requires At(s, actions, e) && Enabled(e, a)
    ensures At(s, actions', e') && e' == Apply(e, a)
  {
    ExecSnoc(s, actions, a);
    actions', e' := actions + [a], Apply(e, a);
  }

  const First: Request := Request(1, 0, 1, 0, [], 0)
  const Second: Request := Request(2, 0, 2, 0, [], 0)

  ghost predicate OneCell(e: Ring) {
    Sized(e) && e.capacity == 1
  }

  /** From tail == sequence == pos on, a producer claims the only cell. */
  lemma ClaimOnlyCell(s: Ring, actions: seq<Action>, e: Ring, t: nat, req: Request)
    returns (actions': seq<Action>, e': Ring)
    requires At(s, actions, e) && OneCell(e) && t < |e.pcs| && e.pcs[t] == Idle && req.payload == []
    requires e.cells[0].sequence == e.tail == |e.log|
    ensures At(s, actions', e') && OneCell(e')
    ensures e'.pcs == e.pcs[t := Writing(req, e.tail, 0)] && e'.tail == e.tail + 1
        && e'.log == e.log + [Claimed(t, req)]
    ensures e'.cells == e.cells && e'.head == e.head && e'.commit == e.commit && e'.got == e.got
  {
    hide At;
    hide Slot;
    hide WriteStep;
    hide AdvanceStep;
    hide DequeueStep;
    hide ReadStep;
    hide PendingStep;
    actions', e' := Then(s, actions, e, Invoke(t, Publish(req)));
    actions', e' := Then(s, actions', e', Step(t));
    actions', e' := Then(s, actions', e', Step(t));
    actions', e' := Then(s, actions', e', Step(t));
  }

  /** The first producer then writes its record and publishes position 0. */
  lemma PublishFirst(s: Ring, actions: seq<Action>, e: Ring) returns (actions': seq<Action>, e': Ring)
    requires At(s, actions, e) && OneCell(e) && 0 < |e.pcs| && e.pcs[0] == Writing(First, 0, 0)
    ensures At(s, actions', e') && OneCell(e')
    ensures e'.pcs == e.pcs[0 := AdvLoadCommit(0)]
    ensures e'.tail == e.tail && e'.commit == e.commit && e'.head == e.head && e'.log == e.log && e'.got == e.got
    ensures e'.cells[0].sequence == 1
    ensures e'.cells[0].words[LENGTH] == 0
  {
    hide At;
    hide Slot;
    hide ClaimStep;
    hide AdvanceStep;
    hide DequeueStep;
    hide ReadStep;
    hide PendingStep;
    actions', e' := actions, e;
    var done := 0;
    while done < 7
      invariant 0 <= done <= 7
      invariant At(s, actions', e') && OneCell(e') && e'.payloadCap == e.payloadCap
      invariant e'.pcs == e.pcs[0 := Writing(First, 0, done)]
      invariant e'.tail == e.tail && e'.commit == e.commit && e'.head == e.head && e'.log == e.log && e'.got == e.got
      invariant LENGTH < done ==> e'.cells[0].words[LENGTH] == 0
    {
      actions', e' := Then(s, actions', e', Step(0));
      done := done + 1;
    }
    actions', e' := Then(s, actions', e', Step(0));
  }

  /** In its helping loop it finds position 0 claimed and not committed. */
  lemma CommitSeek(s: Ring, actions: seq<Action>, e: Ring) returns (actions': seq<Action>, e': Ring)
    requires At(s, actions, e) && OneCell(e) && 0 < |e.pcs| && e.pcs[0] == AdvLoadCommit(0) && e.tail == 1
        && e.commit == 0
    ensures At(s, actions', e') && OneCell(e') && e' == Goto(e, 0, AdvLoadSeq(0, 0))
  {
    hide At;
    hide Slot;
    hide ClaimStep;
    hide WriteStep;
    hide DequeueStep;
    hide ReadStep;
    hide PendingStep;
    actions', e' := Then(s, actions, e, Step(0));
    actions', e' := Then(s, actions', e', Step(0));
    assert e'.pcs == e.pcs[0 := AdvLoadSeq(0, 0)];
  }

  /** It moves commit over position 0. */
  lemma CommitFirst(s: Ring, actions: seq<Action>, e: Ring) returns (actions': seq<Action>, e': Ring)
    requires At(s, actions, e) && OneCell(e) && 0 < |e.pcs| && e.pcs[0] == AdvLoadCommit(0)
    requires e.tail == 1 && e.commit == 0 && e.cells[0].sequence == 1
    ensures At(s, actions', e') && OneCell(e')
    ensures e'.pcs == e.pcs[0 := AdvLoadCommit(0)] && e'.commit == 1
    ensures e'.tail == e.tail && e'.head == e.head && e'.log == e.log && e'.got == e.got && e'.cells == e.cells
  {
    hide At;
    hide Slot;
    hide ClaimStep;
    hide WriteStep;
    hide DequeueStep;
    hide ReadStep;
    hide PendingStep;
    actions', e' := CommitSeek(s, actions, e);
    actions', e' := Then(s, actions', e', Step(0));
    actions', e' := Then(s, actions', e', Step(0));
  }

  /** A consumer goes for position 0. */
  lemma SeekFirst(s: Ring, actions: seq<Action>, e: Ring) returns (actions': seq<Action>, e': Ring)
    requires At(s, actions, e) && OneCell(e) && 2 < |e.pcs| && e.pcs[2] == Idle && e.head == 0 && e.commit == 1
    ensures At(s, actions', e') && OneCell(e') && 2 < |e'.pcs| && e'.pcs[2] == DeqCas(0)
    ensures e'.head == 0 && e'.cells == e.cells && e'.log == e.log && e'.epoch == e.epoch
  {
    hide At;
    hide Slot;
    hide ClaimStep;
    hide WriteStep;
    hide AdvanceStep;
    hide ReadStep;
    hide PendingStep;
    actions', e' := Then(s, actions, e, Invoke(2, Dequeue));
    actions', e' := Then(s, actions', e', Step(2));
    actions', e' := Then(s, actions', e', Step(2));
  }

  /** It takes the position and finds it published. */
  lemma TakeFirst(s: Ring, actions: seq<Action>, e: Ring) returns (actions': seq<Action>, e': Ring)
    requires At(s, actions, e) && OneCell(e) && 2 < |e.pcs| && e.pcs[2] == DeqCas(0) && e.head == 0
        && e.cells[0].sequence == 1
    ensures At(s, actions', e') && OneCell(e') && 2 < |e'.pcs| && e'.pcs[2] == Reading(0, [])
    ensures e'.cells == e.cells && e'.log == e.log && e'.epoch == e.epoch
  {
    hide At;
    hide Slot;
    hide ClaimStep;
    hide WriteStep;
    hide AdvanceStep;
    hide ReadStep;
    hide PendingStep;
    actions', e' := Then(s, actions, e, Step(2));
    actions', e' := Then(s, actions', e', Step(2));
  }

  /** It reads out whatever the cell holds by then. */
  lemma ReadFirst(s: Ring, actions: seq<Action>, e: Ring) returns (actions': seq<Action>, e': Ring)
    requires At(s, actions, e) && OneCell(e) && 2 < |e.pcs| && e.pcs[2] == Reading(0, [])
        && e.cells[0].words[LENGTH] == 0
    ensures At(s, actions', e') && OneCell(e')
    ensures 0 in e'.got && e'.got[0].ticket == e.cells[0].words[0]
    ensures e'.log == e.log && e'.epoch == e.epoch
  {
    hide At;
    hide Slot;
    hide ClaimStep;
    hide WriteStep;
    hide AdvanceStep;
    hide DequeueStep;
    hide PendingStep;
    actions', e' := actions, e;
    var k := 0;
    while k < 7
      invariant 0 <= k <= 7
      invariant At(s, actions', e') && OneCell(e')
      invariant 2 < |e'.pcs| && e'.pcs[2].Reading? && e'.pcs[2].pos == 0 && |e'.pcs[2].buf| == k
      invariant 0 < k ==> e'.pcs[2].buf[0] == 0
      invariant 1 < k ==> e'.pcs[2].buf[1] == e.cells[0].words[0]
      invariant e'.cells == e.cells && e'.log == e.log && e'.epoch == e.epoch
    {
      actions', e' := Then(s, actions', e', Step(2));
      k := k + 1;
    }
    actions', e' := Then(s, actions', e', Step(2));
  }

  /** Over one cell a second producer overwrites the first record before it has been read out. */
  lemma OneCellOverwrites(s: Ring, threads: nat) returns (actions: seq<Action>)
    requires Init(s, threads) && 3 <= threads && s.capacity == 1
    ensures Runs(s, actions)
    ensures var e := Exec(s, actions);
      && 0 in e.got && 0 < |e.log| && e.got[0].ticket == 2 && e.log[0].req.ticket == 1
      && e.got[0] != Committed(e.log[0].req, e.epoch, 0)
  {
    var e: Ring;
    actions, e := BothClaim(s, threads);
    hide At;
    hide Slot;
    hide RingMachine.Apply;
    hide Init;
    actions, e := SeekFirst(s, actions, e);
    actions, e := TakeFirst(s, actions, e);
    actions, e := ReadFirst(s, actions, e);
    Reached(s, actions, e);
  }

  /** One producer publishes position 0, and a second one claims the same cell and begins to write. */
  lemma BothClaim(s: Ring, threads: nat) returns (actions: seq<Action>, e: Ring)
    requires Init(s, threads) && 3 <= threads && s.capacity == 1
    ensures At(s, actions, e) && OneCell(e) && 2 < |e.pcs| && e.pcs[2] == Idle && e.head == 0 && e.commit == 1
    ensures e.cells[0].sequence == 1 && e.cells[0].words[LENGTH] == 0 && e.cells[0].words[0] == 2
    ensures 0 < |e.log| && e.log[0].req == First
  {
    hide At;
    hide Slot;
    Start(s);
    actions, e := ClaimOnlyCell(s, [], s, 0, First);
    actions, e := PublishFirst(s, actions, e);
    actions, e := CommitFirst(s, actions, e);
    actions, e := ClaimOnlyCell(s, actions, e, 1, Second);
    assert e.log[0].req == First;
    hide ClaimStep;
    hide AdvanceStep;
    hide DequeueStep;
    hide ReadStep;
    hide PendingStep;
    actions, e := Then(s, actions, e, Step(1));
  }

  /** The thread that published position 0 returns. */
  lemma ReturnFirst(s: Ring, actions: seq<Action>, e: Ring) returns (actions': seq<Action>, e': Ring)
    requires At(s, actions, e) && OneCell(e) && 0 < |e.pcs| && e.pcs[0] == AdvLoadCommit(0)
    requires e.tail == 1 == e.commit
    ensures At(s, actions', e') && OneCell(e') && |e'.pcs| == |e.pcs| && e'.pcs[0] == Idle
    ensures e'.tail == e.tail && e'.head == e.head && e'.log == e.log && e'.got == e.got && e'.cells == e.cells
  {
    hide At;
    hide Slot;
    hide ClaimStep;
    hide WriteStep;
    hide DequeueStep;
    hide ReadStep;
    hide PendingStep;
    actions', e' := Then(s, actions, e, Step(0));
    actions', e' := Then(s, actions', e', Step(0));
    actions', e' := Then(s, actions', e', Return(0));
  }

  /** Over one cell even a single thread claims a second position with the first record still unconsumed. */
  lemma OneThreadOverruns(s: Ring, threads: nat) returns (actions: seq<Action>)
    requires Init(s, threads) && 0 < threads && s.capacity == 1
    ensures Runs(s, actions)
    ensures var e := Exec(s, actions); e.head == 0 && e.tail == 2 && e.capacity == 1
  {
    hide At;
    hide Slot;
    var e := s;
    actions := [];
    Start(s);
    actions, e := ClaimOnlyCell(s, actions, e, 0, First);
    actions, e := PublishFirst(s, actions, e);
    actions, e := CommitFirst(s, actions, e);
    actions, e := ReturnFirst(s, actions, e);
    actions, e := ClaimOnlyCell(s, actions, e, 0, Second);
    Reached(s, actions, e);
  }

  /**
   Over all runs of however many threads, delivery is intact exactly when the ring has at least two cells, or nobody
   uses it.
   */
  lemma IntactIffTwoCells(s: Ring, threads: nat)
    requires Init(s, threads)
    ensures (forall actions :: Runs(s, actions) ==> Intact(Exec(s, actions))) <==> 2 <= s.capacity || threads == 0
  {
    if 2 <= s.capacity {
      InitInv(s, threads);
      forall actions | Runs(s, actions) ensures Intact(Exec(s, actions)) {
        RunInv(s, actions);
      }
    } else if threads == 0 {
      forall actions | Runs(s, actions) ensures Intact(Exec(s, actions)) {
        assert |actions| > 0 ==> !Enabled(s, actions[0]);
      }
    } else {
      var actions := OneThreadOverruns(s, threads);
    }
  }
}
