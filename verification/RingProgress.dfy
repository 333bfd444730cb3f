/**
 Progress and exactness of the ring: no published position is ever left uncommitted without a helper, every
 retry is paid for by another thread's success, and every refusal is true at the instant it is decided.
 */
module RingProgress {
  import opened Slots
  import opened Records
  import opened RingMachine
  import opened RingSafety
  import opened Sums

  // ----------------------------------------------------------------- no commit is left behind

  /** A thread at the top of the helping loop, or inside it with c as the commit it loaded. */
  predicate Helps(pc: Pc, c: nat) {
    pc.AdvLoadCommit? || ((pc.AdvLoadTail? || pc.AdvLoadSeq? || pc.AdvCas?) && pc.c == c)
  }

  ghost predicate Helped(s: Ring)
    requires Shape(s)
  {
    s.commit < s.tail && SeqOf(s, s.commit) == s.commit + 1 ==>
      exists t :: 0 <= t < |s.pcs| && Helps(s.pcs[t], s.commit)
  }

  /**
   A step that neither stores a sequence word nor moves commit or tail cannot strand a commit, unless it leaves the
   loop.
   */
  lemma KeepsHelpedSame(s: Ring, t: nat, s': Ring)
    requires Inv(s) && Helped(s) && Shape(s') && t < |s.pcs| && |s'.pcs| == |s.pcs|
    requires s'.pcs == s.pcs[t := s'.pcs[t]] && s'.capacity == s.capacity
    requires s'.commit == s.commit && s'.tail == s.tail && SeqOf(s', s.commit) == SeqOf(s, s.commit)
    requires Helps(s.pcs[t], s.commit) && s.commit < s.tail && SeqOf(s, s.commit) == s.commit + 1 ==>
        Helps(s'.pcs[t], s.commit)
    ensures Helped(s')
  {
    if s.commit < s.tail && SeqOf(s, s.commit) == s.commit + 1 {
      var u :| 0 <= u < |s.pcs| && Helps(s.pcs[u], s.commit);
      assert Helps(s'.pcs[u], s.commit);
    }
  }

  lemma KeepsHelpedClaim(s: Ring, t: nat)
    requires Inv(s) && Helped(s) && Enabled(s, Step(t)) && s.pcs[t].ClaimCas? && s.tail == s.pcs[t].pos
    ensures Shape(StepOf(s, t)) && Helped(StepOf(s, t))
  {
    hide Slot;
    KeepsInv(s, Step(t));
    assert ThreadOk(s, t);
    var s' := StepOf(s, t);
    if s.commit < s.tail && SeqOf(s, s.commit) == s.commit + 1 {
      var u :| 0 <= u < |s.pcs| && Helps(s.pcs[u], s.commit);
      assert Helps(s'.pcs[u], s.commit);
    }
  }

  /** The release store puts its own thread at the top of the helping loop; other writes touch no sequence word. */
  lemma KeepsHelpedWrite(s: Ring, t: nat)
    requires Inv(s) && Helped(s) && Enabled(s, Step(t)) && s.pcs[t].Writing?
    ensures Shape(StepOf(s, t)) && Helped(StepOf(s, t))
  {
    hide Slot;
    KeepsInv(s, Step(t));
    var s' := StepOf(s, t);
    if s'.pcs[t].AdvLoadCommit? {
      assert Helps(s'.pcs[t], s'.commit);
    } else {
      KeepsHelpedSame(s, t, s');
    }
  }

  lemma KeepsHelpedRelease(s: Ring, t: nat)
    requires Inv(s) && Helped(s) && Enabled(s, Step(t)) && s.pcs[t].Releasing?
    ensures Shape(StepOf(s, t)) && Helped(StepOf(s, t))
  {
    hide Slot;
    KeepsInv(s, Step(t));
    assert ThreadOk(s, t);
    if s.commit < s.tail {
      Current(s, s.commit);
      assert s.pcs[t].pos < s.commit;
      KeepsHelpedSame(s, t, StepOf(s, t));
    }
  }

  lemma KeepsHelpedAdvance(s: Ring, t: nat)
    requires Inv(s) && Helped(s) && Enabled(s, Step(t))
    requires InAdvance(s.pcs[t])
    ensures Shape(StepOf(s, t)) && Helped(StepOf(s, t))
  {
    hide Slot;
    KeepsInv(s, Step(t));
    assert ThreadOk(s, t);
    var s' := StepOf(s, t);
    if s'.pcs[t].AdvLoadCommit? {
      assert Helps(s'.pcs[t], s'.commit);
    } else {
      KeepsHelpedSame(s, t, s');
    }
  }

  lemma KeepsHelped(s: Ring, a: Action)
    requires Inv(s) && Helped(s) && Enabled(s, a)
    ensures Inv(Apply(s, a)) && Helped(Apply(s, a))
  {
    hide Inv;
    hide StepOf;
    hide Helped;
    KeepsInv(s, a);
    var t := a.thread;
    var pc := s.pcs[t];
    if a.Step? && pc.ClaimCas? && s.tail == pc.pos {
      KeepsHelpedClaim(s, t);
    } else if a.Step? && pc.Writing? {
      KeepsHelpedWrite(s, t);
    } else if a.Step? && pc.Releasing? {
      KeepsHelpedRelease(s, t);
    } else if a.Step? && InAdvance(pc) {
      KeepsHelpedAdvance(s, t);
    } else {
      KeepsHelpedElse(s, a);
    }
  }

  lemma KeepsHelpedElse(s: Ring, a: Action)
    requires Inv(s) && Helped(s) && Enabled(s, a) && Inv(Apply(s, a))
    requires var pc := s.pcs[a.thread];
      a.Step? ==> !(pc.ClaimCas? && s.tail == pc.pos) && !pc.Writing? && !pc.Releasing? && !InAdvance(pc)
    ensures Helped(Apply(s, a))
  {
    hide Slot;
    hide CellOk;
    assert ThreadOk(s, a.thread);
    KeepsHelpedSame(s, a.thread, Apply(s, a));
  }

  /**
   In every run, whenever the position at commit is published, some thread is at the top of advanceCommit or
   inside it with that very commit: the index is never left behind.
   */
  lemma {:induction false} NoCommitLeftBehind(s: Ring, actions: seq<Action>)
    requires Inv(s) && Helped(s) && Runs(s, actions)
    ensures Inv(Exec(s, actions)) && Helped(Exec(s, actions))
    decreases |actions|
  {
    if |actions| > 0 {
      KeepsHelped(s, actions[0]);
      NoCommitLeftBehind(Apply(s, actions[0]), actions[1..]);
    }
  }

  predicate Producing(pc: Pc) {
    pc.Writing? || pc.AdvLoadCommit? || pc.AdvLoadTail? || pc.AdvLoadSeq? || pc.AdvCas?
  }

  /** Once no producer is between its claim and the end of publish, everything claimed is committed. */
  lemma QuietProducersCommitAll(s: Ring)
    requires Inv(s) && Helped(s)
    requires forall pc :: pc in s.pcs ==> !Producing(pc)
    ensures s.commit == s.tail
  {
    hide Slot;
    if s.commit < s.tail {
      Current(s, s.commit);
      assert s.pcs[s.log[s.commit].thread] in s.pcs;
      assert SeqOf(s, s.commit) == s.commit + 1;
      forall t | 0 <= t < |s.pcs| ensures !Helps(s.pcs[t], s.commit) {
        assert s.pcs[t] in s.pcs;
      }
      assert false;
    }
  }

  // ----------------------------------------------------------------- lock-freedom accounting

  /** The cursor value a thread's current attempt started from; the cursor itself between attempts. */
  function ClaimBase(s: Ring, pc: Pc): nat { if pc.ClaimLoadSeq? || pc.ClaimCas? then pc.pos else s.tail }

  function CommitBase(s: Ring, pc: Pc): nat {
    if pc.AdvLoadTail? || pc.AdvLoadSeq? || pc.AdvCas? then pc.c else s.commit
  }

  function TakeBase(s: Ring, pc: Pc): nat { if pc.DeqLoadCommit? || pc.DeqCas? then pc.pos else s.head }

  ghost predicate TallyOk(s: Ring, t: nat)
    requires Sized(s) && t < |s.pcs|
  {
    && s.tallies[t].claims + s.tallies[t].claimRetries <= ClaimBase(s, s.pcs[t])
    && s.tallies[t].commits + s.tallies[t].commitRetries <= CommitBase(s, s.pcs[t])
    && s.tallies[t].takes + s.tallies[t].takeRetries <= TakeBase(s, s.pcs[t])
  }

  const ClaimsOf: Tally -> int := (y: Tally) => y.claims
  const CommitsOf: Tally -> int := (y: Tally) => y.commits
  const TakesOf: Tally -> int := (y: Tally) => y.takes

  ghost predicate Paid(s: Ring)
    requires Sized(s)
  {
    && (forall t :: 0 <= t < |s.pcs| ==> TallyOk(s, t))
    && Sum(s.tallies, ClaimsOf) == s.tail
    && Sum(s.tallies, CommitsOf) == s.commit
    && Sum(s.tallies, TakesOf) == s.head
  }

  /**
   A retry in claim, advanceCommit or dequeue happens only after the cursor has moved beyond the value this very
   attempt loaded; the thread itself has not moved it since, so another thread has.
   */
  lemma RetryMeansProgress(s: Ring, t: nat)
    requires Inv(s) && Enabled(s, Step(t))
    ensures var y, y' := s.tallies[t], StepOf(s, t).tallies[t];
      && (y'.claimRetries != y.claimRetries ==> y'.claims == y.claims && ClaimBase(s, s.pcs[t]) < s.tail)
      && (y'.commitRetries != y.commitRetries ==> y'.commits == y.commits && CommitBase(s, s.pcs[t]) < s.commit)
      && (y'.takeRetries != y.takeRetries ==> y'.takes == y.takes && TakeBase(s, s.pcs[t]) < s.head)
  {
    hide Slot;
    assert ThreadOk(s, t);
    if s.pcs[t].ClaimLoadSeq? {
      StaleClaim(s, s.pcs[t].pos);
    }
  }

  /** Every lost compare-and-swap and every stale read is counted, once, and every won one as a success. */
  lemma RetriesCounted(s: Ring, t: nat)
    requires Enabled(s, Step(t))
    ensures var s' := StepOf(s, t);
      var y, y', pc, pc' := s.tallies[t], s'.tallies[t], s.pcs[t], s'.pcs[t];
      && y'.claimRetries == y.claimRetries + (if InClaim(pc) && pc'.ClaimLoadTail? then 1 else 0)
      && y'.commitRetries == y.commitRetries + (if pc.AdvCas? && s'.commit == s.commit then 1 else 0)
      && y'.takeRetries == y.takeRetries + (if pc.DeqCas? && s'.head == s.head then 1 else 0)
      && y'.claims == y.claims + s'.tail - s.tail && y'.commits == y.commits + s'.commit - s.commit
      && y'.takes == y.takes + s'.head - s.head
  {
    hide Slot;
    if ProducerSide(s.pcs[t]) {
      TalliesProducer(s, t);
    } else {
      TalliesConsumer(s, t);
    }
  }

  /** What the sequence word of a position not beyond tail says about tail. */
  lemma StaleClaim(s: Ring, pos: nat)
    requires Inv(s) && pos <= s.tail
    ensures pos < SeqOf(s, pos) <==> pos < s.tail && SeqOf(s, pos) != pos
    ensures SeqOf(s, pos) < pos ==> pos == s.tail && s.owner[Slot(pos, s.capacity)] == pos - s.capacity
  {
    hide Slot;
    var i := Slot(pos, s.capacity);
    assert CellOk(s, i);
    if pos == s.tail {
      NextCell(s);
    } else {
      LatestAtLeast(s, pos);
    }
  }

  lemma LatestAtLeast(s: Ring, pos: nat)
    requires Inv(s) && pos < s.tail
    ensures pos <= s.owner[Slot(pos, s.capacity)]
  {
    hide Slot;
    var i := Slot(pos, s.capacity);
    assert CellOk(s, i);
    if s.owner[i] < pos {
      SlotUnique(pos, s.owner[i], s.capacity);
    }
  }

  lemma KeepsPaid(s: Ring, a: Action)
    requires Inv(s) && Paid(s) && Enabled(s, a)
    ensures Inv(Apply(s, a)) && Paid(Apply(s, a))
  {
    hide Apply;
    hide CellOk;
    hide ThreadOk;
    var s' := Apply(s, a);
    KeepsInv(s, a);
    TalliesStep(s, a);
    OwnTally(s, a);
    KeepsSums(s, a.thread, s');
    forall u | 0 <= u < |s'.pcs| && u != a.thread ensures TallyOk(s', u) {
      OtherTally(s, a.thread, s', u);
    }
  }

  lemma KeepsSums(s: Ring, t: nat, s': Ring)
    requires Moves(s, t, s')
    ensures Sum(s'.tallies, ClaimsOf) - Sum(s.tallies, ClaimsOf) == s'.tail - s.tail
    ensures Sum(s'.tallies, CommitsOf) - Sum(s.tallies, CommitsOf) == s'.commit - s.commit
    ensures Sum(s'.tallies, TakesOf) - Sum(s.tallies, TakesOf) == s'.head - s.head
  {
    SumUpdate(s.tallies, t, s'.tallies[t], ClaimsOf);
    SumUpdate(s.tallies, t, s'.tallies[t], CommitsOf);
    SumUpdate(s.tallies, t, s'.tallies[t], TakesOf);
  }

  lemma OtherTally(s: Ring, t: nat, s': Ring, u: nat)
    requires Sized(s) && Sized(s') && Moves(s, t, s') && u < |s.pcs| && u != t
    requires TallyOk(s, u)
    ensures TallyOk(s', u)
  {
  }

  lemma OwnTallyClaim(s: Ring, t: nat)
    requires Inv(s) && Paid(s) && Enabled(s, Step(t)) && InClaim(s.pcs[t])
    ensures Sized(StepOf(s, t)) && TallyOk(StepOf(s, t), t)
  {
    hide Slot;
    hide CellOk;
    hide WriteStep;
    hide AdvanceStep;
    hide DequeueStep;
    hide ReadStep;
    hide PendingStep;
    assert TallyOk(s, t) && ThreadOk(s, t) && Sized(s);
    hide Inv;
    hide Paid;
    RetryMeansProgress(s, t);
  }

  lemma OwnTallyAdvance(s: Ring, t: nat)
    requires Inv(s) && Paid(s) && Enabled(s, Step(t)) && InAdvance(s.pcs[t])
    ensures Sized(StepOf(s, t)) && TallyOk(StepOf(s, t), t)
  {
    hide Slot;
    hide CellOk;
    hide ClaimStep;
    hide WriteStep;
    hide DequeueStep;
    hide ReadStep;
    hide PendingStep;
    assert TallyOk(s, t) && ThreadOk(s, t) && Sized(s);
    hide Inv;
    hide Paid;
    RetryMeansProgress(s, t);
  }

  lemma OwnTallyTake(s: Ring, t: nat)
    requires Inv(s) && Paid(s) && Enabled(s, Step(t)) && InDequeue(s.pcs[t])
    ensures Sized(StepOf(s, t)) && TallyOk(StepOf(s, t), t)
  {
    hide Slot;
    hide CellOk;
    hide ClaimStep;
    hide WriteStep;
    hide AdvanceStep;
    hide ReadStep;
    hide PendingStep;
    assert TallyOk(s, t) && ThreadOk(s, t) && Sized(s);
    hide Inv;
    hide Paid;
    RetryMeansProgress(s, t);
  }

  lemma OwnTallyWrite(s: Ring, t: nat)
    requires Inv(s) && Paid(s) && Enabled(s, Step(t)) && s.pcs[t].Writing?
    ensures Sized(StepOf(s, t)) && TallyOk(StepOf(s, t), t)
  {
    hide Slot;
    hide CellOk;
    hide ClaimStep;
    hide AdvanceStep;
    hide DequeueStep;
    hide ReadStep;
    hide PendingStep;
    assert TallyOk(s, t) && ThreadOk(s, t) && Sized(s);
    hide Inv;
    hide Paid;
  }

  lemma OwnTallyRead(s: Ring, t: nat)
    requires Inv(s) && Paid(s) && Enabled(s, Step(t))
        && (InRead(s.pcs[t]) || s.pcs[t].PendLoadHead? || s.pcs[t].PendLoadTail?)
    ensures Sized(StepOf(s, t)) && TallyOk(StepOf(s, t), t)
  {
    hide Slot;
    hide CellOk;
    hide Assemble;
    hide ReadAt;
    hide ClaimStep;
    hide WriteStep;
    hide AdvanceStep;
    hide DequeueStep;
    assert TallyOk(s, t) && ThreadOk(s, t) && Sized(s);
    hide Inv;
    hide Paid;
  }

  lemma OwnTally(s: Ring, a: Action)
    requires Inv(s) && Paid(s) && Enabled(s, a)
    ensures Sized(Apply(s, a)) && TallyOk(Apply(s, a), a.thread)
  {
    hide StepOf;
    assert TallyOk(s, a.thread);
    if a.Step? {
      if InClaim(s.pcs[a.thread]) {
        OwnTallyClaim(s, a.thread);
      } else if InAdvance(s.pcs[a.thread]) {
        OwnTallyAdvance(s, a.thread);
      } else if InDequeue(s.pcs[a.thread]) {
        OwnTallyTake(s, a.thread);
      } else if s.pcs[a.thread].Writing? {
        OwnTallyWrite(s, a.thread);
      } else {
        OwnTallyRead(s, a.thread);
      }
    }
  }

  predicate ProducerSide(pc: Pc) {
    pc.ClaimLoadTail? || pc.ClaimLoadSeq? || pc.ClaimCas? || pc.Writing?
    || pc.AdvLoadCommit? || pc.AdvLoadTail? || pc.AdvLoadSeq? || pc.AdvCas?
  }

  /** Cursors and tallies move together, and only for the acting thread. */
  ghost predicate Moves(s: Ring, t: nat, s': Ring) {
    && t < |s.pcs| == |s'.pcs| && t < |s.tallies| == |s'.tallies|
    && s'.pcs == s.pcs[t := s'.pcs[t]] && s'.tallies == s.tallies[t := s'.tallies[t]]
    && s'.tail - s.tail == s'.tallies[t].claims - s.tallies[t].claims
    && s'.commit - s.commit == s'.tallies[t].commits - s.tallies[t].commits
    && s'.head - s.head == s'.tallies[t].takes - s.tallies[t].takes
    && s.tail <= s'.tail && s.commit <= s'.commit && s.head <= s'.head
  }

  lemma TalliesProducer(s: Ring, t: nat)
    requires Enabled(s, Step(t)) && ProducerSide(s.pcs[t])
    ensures Moves(s, t, StepOf(s, t))
  {
    hide Slot;
  }

  lemma TalliesConsumer(s: Ring, t: nat)
    requires Enabled(s, Step(t)) && !ProducerSide(s.pcs[t])
    ensures Moves(s, t, StepOf(s, t))
  {
    hide Slot;
  }

  /** How one action moves the cursors and the acting thread's tally. */
  lemma TalliesStep(s: Ring, a: Action)
    requires Enabled(s, a)
    ensures Moves(s, a.thread, Apply(s, a))
  {
    hide StepOf;
    if a.Step? {
      if ProducerSide(s.pcs[a.thread]) {
        TalliesProducer(s, a.thread);
      } else {
        TalliesConsumer(s, a.thread);
      }
    }
  }

  /**
   Over a whole run, a thread's retries on each cursor are at most the successes of the other threads on that
   cursor: the cursor counts all successes, and the thread's own successes come off.
   */
  lemma {:induction false} RetriesArePaid(s: Ring, actions: seq<Action>)
    requires Inv(s) && Paid(s) && Runs(s, actions)
    ensures var e := Exec(s, actions);
      && Inv(e) && Paid(e)
      && forall t :: 0 <= t < |e.pcs| ==>
        && e.tallies[t].claimRetries <= Sum(e.tallies, ClaimsOf) - e.tallies[t].claims
        && e.tallies[t].commitRetries <= Sum(e.tallies, CommitsOf) - e.tallies[t].commits
        && e.tallies[t].takeRetries <= Sum(e.tallies, TakesOf) - e.tallies[t].takes
    decreases |actions|
  {
    if |actions| > 0 {
      KeepsPaid(s, actions[0]);
      RetriesArePaid(Apply(s, actions[0]), actions[1..]);
    } else {
      forall t | 0 <= t < |s.pcs|
        ensures s.tallies[t].claimRetries <= Sum(s.tallies, ClaimsOf) - s.tallies[t].claims
          && s.tallies[t].commitRetries <= Sum(s.tallies, CommitsOf) - s.tallies[t].commits
          && s.tallies[t].takeRetries <= Sum(s.tallies, TakesOf) - s.tallies[t].takes
      {
        assert TallyOk(s, t) && ThreadOk(s, t);
      }
    }
  }

  /** A fresh ring satisfies everything the theorems above start from. */
  lemma InitProgress(s: Ring, threads: nat)
    requires Init(s, threads) && 2 <= s.capacity
    ensures Inv(s) && Helped(s) && Paid(s)
  {
    InitInv(s, threads);
    SumZero(s.tallies, ClaimsOf);
    SumZero(s.tallies, CommitsOf);
    SumZero(s.tallies, TakesOf);
  }

  // ----------------------------------------------------------------- refusals are exact

  /** When claim reports the ring full, tail is still the position it tried, whose cell is not released yet. */
  lemma FullIsExact(s: Ring, t: nat)
    requires Inv(s) && Enabled(s, Step(t)) && s.pcs[t].ClaimLoadSeq?
    requires StepOf(s, t).pcs[t].ClaimFull?
    ensures s.pcs[t].pos == s.tail
    ensures 0 <= s.tail - s.capacity && SeqOf(s, s.tail) < s.tail
    ensures s.tail - s.capacity < s.head ==> HoldsAt(s.pcs[s.takes[s.tail - s.capacity]], s.tail - s.capacity)
  {
    hide Slot;
    assert ThreadOk(s, t);
    StaleClaim(s, s.pcs[t].pos);
    NextCell(s);
  }

  /** Conversely, if the cell of the position one lap back is still in use when claim looks, claim reports full. */
  lemma FullWhenInUse(s: Ring, t: nat)
    requires Inv(s) && Enabled(s, Step(t)) && s.pcs[t].ClaimLoadSeq? && s.pcs[t].pos == s.tail
    requires s.capacity <= s.tail && SeqOf(s, s.tail) != s.tail
    ensures StepOf(s, t).pcs[t].ClaimFull?
  {
    hide Slot;
    StaleClaim(s, s.tail);
  }

  /** dequeue reports empty exactly when, at its load of commit, head and commit and its own position all agree. */
  lemma EmptyIsExact(s: Ring, t: nat)
    requires Inv(s) && Enabled(s, Step(t)) && s.pcs[t].DeqLoadCommit?
    ensures StepOf(s, t).pcs[t].DeqEmpty? <==> s.pcs[t].pos == s.head == s.commit
  {
    assert ThreadOk(s, t);
  }

  /** The branch of dequeue for a taken cell that is not published is never entered. */
  lemma TakenIsPublished(s: Ring, t: nat)
    requires Inv(s) && Enabled(s, Step(t)) && s.pcs[t].DeqConfirm?
    ensures StepOf(s, t).pcs[t].Reading?
  {
    assert ThreadOk(s, t);
  }

  /** pending is at least the true occupancy at both of its loads, and never takes its clamping branch. */
  lemma PendingIsUpperBound(s: Ring, t: nat)
    requires Inv(s) && Enabled(s, Step(t)) && s.pcs[t].PendLoadTail?
    ensures s.pcs[t].h <= s.tail
    ensures StepOf(s, t).pcs[t].PendingIs? && s.tail - s.head <= StepOf(s, t).pcs[t].n
    ensures s.pcs[t].first <= StepOf(s, t).pcs[t].n
  {
    assert ThreadOk(s, t);
  }
}
