/**
 A run of a fresh ring past position 2^64: one thread publishes and consumes record after record until head is the last
 position of the first 2^64 and commit is the first of the next. From there on the word-level dequeue reports empty over
 a committed record, and pending reports zero.
 */
module RingWrap {
  import opened Bits
  import opened Records
  import opened Slots
  import opened RingMachine
  import opened RingSafety
  import opened RingProgress
  import opened RingSolo
  import opened RingRuns
  import opened RingWords

  /** A run leads from s to r, where every thread is idle and everything claimed is committed. */
  ghost predicate Rests(s: Ring, actions: seq<Action>, r: Ring, tail: nat, head: nat) {
    && Runs(s, actions) && r == Exec(s, actions) && Inv(r) && Helped(r)
    && 0 < |r.pcs| && (forall t :: 0 <= t < |r.pcs| ==> r.pcs[t].Idle?)
    && r.tail == r.commit == tail && r.head == head && r.capacity == s.capacity
  }

  /** Steps of one thread alone are a run. */
  lemma {:induction false} SoloRuns(r: Ring, t: nat, n: nat, r': Ring) returns (actions: seq<Action>)
    requires Solo(r, t, n, r')
    ensures Runs(r, actions) && Exec(r, actions) == r'
    decreases n
  {
    hide StepOf;
    hide Enabled;
    if n == 0 {
      actions := [];
      RingNone(r);
    } else {
      var rest := SoloRuns(StepOf(r, t), t, n - 1, r');
      RingOne(r, Step(t));
      RingConcat(r, [Step(t)], rest);
      actions := [Step(t)] + rest;
    }
  }

  /** An operation: its start, its steps alone, and its return. */
  lemma Operation(s: Ring, actions0: seq<Action>, r: Ring, op: Op, n: nat, m: Ring)
    returns (actions: seq<Action>, r': Ring)
    requires Runs(s, actions0) && r == Exec(s, actions0) && Enabled(r, Invoke(0, op))
    requires Solo(Apply(r, Invoke(0, op)), 0, n, m) && Enabled(m, Return(0)) && Inv(m) && Helped(m)
    ensures Runs(s, actions) && r' == Exec(s, actions) && r' == Apply(m, Return(0)) && Inv(r') && Helped(r')
  {
    hide Enabled;
    hide Apply;
    hide Solo;
    hide Inv;
    hide Helped;
    hide Runs;
    hide Exec;
    var steps := SoloRuns(Apply(r, Invoke(0, op)), 0, n, m);
    RingOne(r, Invoke(0, op));
    RingConcat(r, [Invoke(0, op)], steps);
    RingOne(m, Return(0));
    RingConcat(r, [Invoke(0, op)] + steps, [Return(0)]);
    RingConcat(s, actions0, [Invoke(0, op)] + steps + [Return(0)]);
    actions := actions0 + ([Invoke(0, op)] + steps + [Return(0)]);
    r' := Apply(m, Return(0));
    KeepsHelped(m, Return(0));
  }

  const Something: Request := Request(1, 0, 1, 0, [], 0)

  /** What the start of an operation leaves as it is. */
  lemma Invoked(r: Ring, op: Op)
    requires Inv(r) && Helped(r) && 0 < |r.pcs| && r.pcs[0].Idle? && (op.Publish? ==> op.req == Something)
    ensures Enabled(r, Invoke(0, op))
    ensures var i := Apply(r, Invoke(0, op)); Inv(i) && Helped(i) && i == r.(pcs := i.pcs) && Framed(r, 0, i)
    ensures Apply(r, Invoke(0, op)).pcs[0]
      == match op case Publish(req) => ClaimLoadTail(req) case Dequeue => DeqLoadHead case Pending => PendLoadHead
  {
    KeepsHelped(r, Invoke(0, op));
    hide Inv;
    hide Helped;
  }

  lemma PublishesOne(s: Ring, actions0: seq<Action>, r: Ring, n: nat) returns (actions: seq<Action>, r': Ring)
    requires Rests(s, actions0, r, n, n) && 2 <= s.capacity
    ensures Rests(s, actions, r', n + 1, n)
  {
    hide Inv;
    hide Helped;
    hide Slot;
    hide Runs;
    hide Exec;
    hide Solo;
    Invoked(r, Publish(Something));
    var i := Apply(r, Invoke(0, Publish(Something)));
    assert forall u :: 0 <= u < |i.pcs| ==> !Consumes(i.pcs[u]);
    FreeWhenNotFull(i);
    var k, m := PublishSolo(i, 0, Something);
    StillSound(i, 0, m);
    hide Apply;
    ReturnsQuietly(r, i, m);
    actions, r' := Operation(s, actions0, r, Publish(Something), k, m);
  }

  /** Thread 0 takes back its result, and everybody is idle. */
  lemma ReturnsQuietly(r: Ring, i: Ring, m: Ring)
    requires Quietly(i, 0, m) && Framed(r, 0, i) && Sized(m) && Returned(m.pcs[0])
    requires forall t :: 0 <= t < |r.pcs| ==> r.pcs[t].Idle?
    ensures Enabled(m, Return(0))
    ensures var r' := Apply(m, Return(0));
      && r' == m.(pcs := r'.pcs) && |r'.pcs| == |r.pcs| && forall t :: 0 <= t < |r'.pcs| ==> r'.pcs[t].Idle?
  {
    hide Inv;
    hide Helped;
  }

  lemma TakesOne(s: Ring, actions0: seq<Action>, r: Ring, n: nat) returns (actions: seq<Action>, r': Ring)
    requires Rests(s, actions0, r, n + 1, n) && 2 <= s.capacity
    ensures Rests(s, actions, r', n + 1, n + 1)
  {
    hide Inv;
    hide Helped;
    hide Slot;
    hide Runs;
    hide Exec;
    hide Solo;
    Invoked(r, Dequeue);
    var i := Apply(r, Invoke(0, Dequeue));
    var k, m := DequeueSolo(i, 0);
    StillSound(i, 0, m);
    StillSized(i, 0, m);
    hide Apply;
    ReturnsQuietly(r, i, m);
    actions, r' := Operation(s, actions0, r, Dequeue, k, m);
  }

  /** One thread publishes and consumes n records, one at a time. */
  lemma {:induction false} Laps(s: Ring, threads: nat, n: nat) returns (actions: seq<Action>, r: Ring)
    requires Init(s, threads) && 2 <= s.capacity && 0 < threads
    ensures Rests(s, actions, r, n, n)
    decreases n
  {
    if n == 0 {
      actions, r := [], s;
      RingNone(s);
      InitProgress(s, threads);
      hide Inv;
      hide Helped;
    } else {
      hide Rests;
      hide Init;
      actions, r := Laps(s, threads, n - 1);
      actions, r := PublishesOne(s, actions, r, n - 1);
      actions, r := TakesOne(s, actions, r, n - 1);
    }
  }

  /**
   From any fresh ring of two or more cells: a run to a state in which one record is committed and not taken, dequeue on
   positions goes on to take it, and dequeue and pending on words see nothing.
   */
  lemma CanMissRecords(s: Ring, threads: nat) returns (actions: seq<Action>, r: Ring)
    requires Init(s, threads) && 2 <= s.capacity && 0 < threads
    ensures Runs(s, actions) && r == Exec(s, actions) && Inv(r)
    ensures r.head + 1 == r.commit == r.tail == TWO64
    ensures 0 < r.capacity && WordDequeue(WordsOf(r), TakeCommit(Word64(r.head))).1 == Empty
    ensures WordPending(Word64(r.head), Word64(r.tail)) == 0
  {
    hide Inv;
    hide Helped;
    hide Init;
    hide Runs;
    hide Exec;
    actions, r := Laps(s, threads, TWO64 - 1);
    actions, r := PublishesOne(s, actions, r, TWO64 - 1);
  }
}
