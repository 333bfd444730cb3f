/**
 The interleaved ring and the sequential one agree: a thread that runs a ring operation while nobody else moves
 finishes it after finitely many steps, with exactly the effect the sequential operation has on the log.
 */
module RingSolo {
  import opened Records
  import opened Slots
  import opened RingMachine
  import opened RingSafety
  import opened RingProgress

  /** Thread t alone takes n steps from r to r'. */
  ghost predicate Solo(r: Ring, t: nat, n: nat, r': Ring)
    decreases n
  {
    if n == 0 then r' == r
    else RingMachine.Enabled(r, Step(t)) && Solo(RingMachine.StepOf(r, t), t, n - 1, r')
  }

  lemma {:induction false} SoloTrans(a: Ring, t: nat, n: nat, b: Ring, m: nat, c: Ring)
    requires Solo(a, t, n, b) && Solo(b, t, m, c)
    ensures Solo(a, t, n + m, c)
    decreases n
  {
    hide RingMachine.StepOf;
    hide RingMachine.Enabled;
    if n > 0 {
      SoloTrans(RingMachine.StepOf(a, t), t, n - 1, b, m, c);
    }
  }

  /** Alone or not, the thread keeps the ring's invariants, and moves no other thread. */
  ghost predicate Quietly(r: Ring, t: nat, r': Ring) {
    && Inv(r) && Helped(r) && t < |r.pcs| == |r'.pcs| && Inv(r') && Helped(r')
    && r'.pcs == r.pcs[t := r'.pcs[t]]
    && r'.capacity == r.capacity && r'.payloadCap == r.payloadCap && r'.epoch == r.epoch
  }

  /** One more step at the end of a solo run. */
  lemma Next(r: Ring, t: nat, n: nat, m: Ring) returns (r': Ring)
    requires Solo(r, t, n, m) && Quietly(r, t, m) && t < |m.pcs| && !m.pcs[t].Idle? && !Returned(m.pcs[t])
    ensures RingMachine.Enabled(m, Step(t)) && r' == RingMachine.StepOf(m, t)
    ensures Solo(r, t, n + 1, r') && Quietly(r, t, r') && t < |r'.pcs|
  {
    NeverStuck(m, t);
    r' := RingMachine.StepOf(m, t);
    KeepsHelped(m, Step(t));
    assert Solo(m, t, 1, r') by {
      assert Solo(r', t, 0, r');
    }
    SoloTrans(r, t, n, m, 1, r');
    hide Solo;
    hide Inv;
    hide Helped;
    hide RingMachine.StepOf;
  }

  lemma StillSound(r: Ring, t: nat, m: Ring)
    requires Quietly(r, t, m)
    ensures Inv(m) && Helped(m) && m.capacity == r.capacity && m.epoch == r.epoch
  {
    hide Inv;
    hide Helped;
  }

  lemma Begin(r: Ring, t: nat)
    requires Inv(r) && Helped(r) && t < |r.pcs|
    ensures Solo(r, t, 0, r) && Quietly(r, t, r)
  {
    hide Inv;
    hide Helped;
  }

  // ----------------------------------------------------------------- publish

  /** Nothing has changed but thread t's program point, the retry tallies and perhaps words of cells. */
  ghost predicate OnlyWords(r: Ring, t: nat, r': Ring) {
    && r'.tail == r.tail && r'.commit == r.commit && r'.head == r.head
    && r'.log == r.log && r'.takes == r.takes && r'.got == r.got && r'.owner == r.owner
    && |r'.cells| == |r.cells| && forall i :: 0 <= i < |r.cells| ==> r'.cells[i].sequence == r.cells[i].sequence
  }

  /** claim: takes the position at tail if its cell is free, and reports full otherwise. */
  lemma ClaimSolo(r: Ring, t: nat, req: Request) returns (n: nat, r': Ring)
    requires Inv(r) && Helped(r) && t < |r.pcs| && r.pcs[t] == ClaimLoadTail(req)
    ensures Solo(r, t, n, r') && Quietly(r, t, r')
    ensures if SeqOf(r, r.tail) == r.tail then
        && r'.pcs[t] == Writing(req, r.tail, 0) && r'.tail == r.tail + 1 && r'.log == r.log + [Claimed(t, req)]
        && r'.commit == r.commit && r'.head == r.head && r'.cells == r.cells && r'.got == r.got && r'.takes == r.takes
      else r'.pcs[t] == ClaimFull && OnlyWords(r, t, r')
  {
    hide Solo;
    hide Quietly;
    hide Inv;
    hide Helped;
    hide Slot;
    StaleClaim(r, r.tail);
    Begin(r, t);
    n := 0;
    r' := Next(r, t, n, r);
    n := n + 1;
    r' := Next(r, t, n, r');
    n := n + 1;
    if SeqOf(r, r.tail) == r.tail {
      r' := Next(r, t, n, r');
      n := n + 1;
    }
  }

  /** The field-by-field write, from the given point of it to its end. */
  lemma {:induction false} WriteSolo(r0: Ring, t: nat, n0: nat, r: Ring, req: Request, pos: nat, done: nat)
    returns (n: nat, r': Ring)
    requires Solo(r0, t, n0, r) && Quietly(r0, t, r) && t < |r.pcs|
    requires r.pcs[t] == Writing(req, pos, done) && done <= req.Words()
    ensures Solo(r0, t, n, r') && Quietly(r0, t, r') && t < |r'.pcs|
    ensures r'.pcs[t] == Writing(req, pos, req.Words()) && OnlyWords(r, t, r')
    decreases req.Words() - done
  {
    hide Solo;
    hide Quietly;
    hide Inv;
    hide Helped;
    hide Slot;
    if done == req.Words() {
      n, r' := n0, r;
    } else {
      var m := Next(r0, t, n0, r);
      assert m.pcs[t] == Writing(req, pos, done + 1) && OnlyWords(r, t, m);
      hide RingMachine.StepOf;
      n, r' := WriteSolo(r0, t, n0 + 1, m, req, pos, done + 1);
    }
  }

  /** Nothing but commit, the tallies and thread t's program point has changed. */
  ghost predicate OnlyCommit(r: Ring, r': Ring) {
    && r'.tail == r.tail && r'.head == r.head && r'.log == r.log && r'.takes == r.takes && r'.got == r.got
    && r'.cells == r.cells && r'.capacity == r.capacity && 0 < r.capacity == |r.cells|
  }

  /** commit has moved over published positions only, and as far as there are any. */
  ghost predicate CommitMaximal(r: Ring, from: nat)
    requires 0 < r.capacity == |r.cells|
  {
    && from <= r.commit <= r.tail
    && (forall p :: from <= p < r.commit ==> SeqOf(r, p) == p + 1)
    && (r.commit == r.tail || SeqOf(r, r.commit) != r.commit + 1)
  }

  /** The helping loop, alone: it moves commit over every published position and stops at the first other one. */
  lemma {:induction false} AdvanceSolo(r0: Ring, t: nat, n0: nat, r: Ring, pos: nat) returns (n: nat, r': Ring)
    requires Solo(r0, t, n0, r) && Quietly(r0, t, r) && t < |r.pcs| && 0 < r.capacity == |r.cells|
    requires r.pcs[t] == AdvLoadCommit(pos) && r.commit <= r.tail
    ensures Solo(r0, t, n, r') && Quietly(r0, t, r') && t < |r'.pcs|
    ensures r'.pcs[t] == Published(pos) && OnlyCommit(r, r') && CommitMaximal(r', r.commit)
    decreases r.tail - r.commit
  {
    hide Solo;
    hide Quietly;
    hide Inv;
    hide Helped;
    hide Slot;
    hide ClaimStep;
    hide WriteStep;
    hide DequeueStep;
    hide ReadStep;
    hide PendingStep;
    if r.commit < r.tail && SeqOf(r, r.commit) == r.commit + 1 {
      var m := HelpOnce(r0, t, n0, r, pos);
      hide AdvanceStep;
      n, r' := AdvanceSolo(r0, t, n0 + 4, m, pos);
      assert SeqOf(r', r.commit) == SeqOf(r, r.commit);
    } else {
      n, r' := StopSolo(r0, t, n0, r, pos);
    }
  }

  /** One turn of the helping loop that moves commit. */
  lemma HelpOnce(r0: Ring, t: nat, n0: nat, r: Ring, pos: nat) returns (r': Ring)
    requires Solo(r0, t, n0, r) && Quietly(r0, t, r) && t < |r.pcs| && 0 < r.capacity == |r.cells|
    requires r.pcs[t] == AdvLoadCommit(pos) && r.commit < r.tail && SeqOf(r, r.commit) == r.commit + 1
    ensures Solo(r0, t, n0 + 4, r') && Quietly(r0, t, r') && t < |r'.pcs|
    ensures r'.pcs[t] == AdvLoadCommit(pos) && OnlyCommit(r, r') && r'.commit == r.commit + 1
  {
    hide Solo;
    hide Quietly;
    hide Inv;
    hide Helped;
    hide Slot;
    hide ClaimStep;
    hide WriteStep;
    hide DequeueStep;
    hide ReadStep;
    hide PendingStep;
    r' := Next(r0, t, n0, r);
    r' := Next(r0, t, n0 + 1, r');
    assert r'.pcs[t] == AdvLoadSeq(pos, r.commit) && OnlyCommit(r, r') && r'.commit == r.commit;
    r' := Next(r0, t, n0 + 2, r');
    r' := Next(r0, t, n0 + 3, r');
  }

  /** The last turn of the helping loop. */
  lemma StopSolo(r0: Ring, t: nat, n0: nat, r: Ring, pos: nat) returns (n: nat, r': Ring)
    requires Solo(r0, t, n0, r) && Quietly(r0, t, r) && t < |r.pcs| && 0 < r.capacity == |r.cells|
    requires r.pcs[t] == AdvLoadCommit(pos) && (r.commit == r.tail || SeqOf(r, r.commit) != r.commit + 1)
    ensures Solo(r0, t, n, r') && Quietly(r0, t, r') && t < |r'.pcs|
    ensures r'.pcs[t] == Published(pos) && OnlyCommit(r, r') && r'.commit == r.commit
  {
    hide Solo;
    hide Quietly;
    hide Inv;
    hide Helped;
    hide Slot;
    hide ClaimStep;
    hide WriteStep;
    hide DequeueStep;
    hide ReadStep;
    hide PendingStep;
    r' := Next(r0, t, n0, r);
    r' := Next(r0, t, n0 + 1, r');
    n := n0 + 2;
    if r.commit != r.tail {
      r' := Next(r0, t, n0 + 2, r');
      n := n0 + 3;
    }
  }

  /** The release store and the helping loop. */
  lemma CommitSolo(r0: Ring, t: nat, n0: nat, r: Ring, req: Request, pos: nat) returns (n: nat, r': Ring)
    requires Solo(r0, t, n0, r) && Quietly(r0, t, r) && t < |r.pcs| && 0 < r.capacity == |r.cells|
    requires r.pcs[t] == Writing(req, pos, req.Words()) && r.commit <= r.tail
    ensures Solo(r0, t, n, r') && Quietly(r0, t, r') && t < |r'.pcs| && 0 < r'.capacity == |r'.cells|
    ensures r'.pcs[t] == Published(pos) && SeqOf(r', pos) == pos + 1 && CommitMaximal(r', r.commit)
    ensures r'.tail == r.tail && r'.head == r.head && r'.log == r.log && r'.got == r.got && r'.takes == r.takes
  {
    hide Solo;
    hide Quietly;
    hide Inv;
    hide Helped;
    hide Slot;
    var m := Next(r0, t, n0, r);
    assert SeqOf(m, pos) == pos + 1 && m.pcs[t] == AdvLoadCommit(pos);
    hide RingMachine.StepOf;
    n, r' := AdvanceSolo(r0, t, n0 + 1, m, pos);
    assert SeqOf(r', pos) == SeqOf(m, pos);
  }

  /**
   A publish that runs alone, whatever other threads have left unfinished: if the cell at tail is free, its record is
   appended to the log and published, and commit moves as far as published positions reach; if not, it reports full
   and changes nothing. With nothing unfinished behind it the record is committed.
   */
  lemma PublishSolo(r: Ring, t: nat, req: Request) returns (n: nat, r': Ring)
    requires Inv(r) && Helped(r) && t < |r.pcs| && r.pcs[t] == ClaimLoadTail(req)
    ensures Solo(r, t, n, r') && Quietly(r, t, r') && Sized(r')
    ensures r'.head == r.head && r'.got == r.got && r'.takes == r.takes
    ensures if SeqOf(r, r.tail) == r.tail then
        && r'.pcs[t] == Published(r.tail) && r'.log == r.log + [Claimed(t, req)] && r'.tail == r.tail + 1
        && SeqOf(r', r.tail) == r.tail + 1 && CommitMaximal(r', r.commit)
        && (r.commit == r.tail ==> r'.commit == r'.tail)
      else r'.pcs[t] == ClaimFull && OnlyWords(r, t, r')
  {
    var free := SeqOf(r, r.tail) == r.tail;
    LogCovers(r);
    n, r' := ClaimSolo(r, t, req);
    assert Sized(r');
    hide Inv;
    hide Helped;
    hide Slot;
    if free {
      hide Solo;
      n, r' := WriteSolo(r, t, n, r', req, r.tail, 0);
      n, r' := CommitSolo(r, t, n, r', req, r.tail);
    }
    StillSized(r, t, r');
  }

  lemma StillSized(r: Ring, t: nat, m: Ring)
    requires Quietly(r, t, m)
    ensures Sized(m)
  {
    hide CellOk;
    hide ThreadOk;
    hide Helped;
  }

  predicate Consumes(pc: Pc) { pc.DeqConfirm? || InRead(pc) || pc.BrokenRelease? }

  /** With nothing in flight the cell at tail is free exactly if less than a lap is outstanding. */
  lemma FreeWhenNotFull(r: Ring)
    requires Inv(r) && r.commit == r.tail && forall u :: 0 <= u < |r.pcs| ==> !Consumes(r.pcs[u])
    ensures SeqOf(r, r.tail) == r.tail <==> r.tail < r.head + r.capacity
  {
    hide Slot;
    NextCell(r);
    hide Inv;
    var q := r.owner[Slot(r.tail, r.capacity)];
    assert q == r.tail - r.capacity;
  }

  // ----------------------------------------------------------------- dequeue

  ghost predicate SameCursors(r: Ring, r': Ring) {
    r'.tail == r.tail && r'.commit == r.commit && r'.head == r.head && r'.log == r.log && r'.takes == r.takes
  }

  /** The word-by-word read-out, up to the point before the release. */
  lemma {:induction false} ReadSolo(r0: Ring, t: nat, n0: nat, r: Ring, pos: nat, buf: seq<Word>)
    returns (n: nat, r': Ring)
    requires Solo(r0, t, n0, r) && Quietly(r0, t, r) && t < |r.pcs| && r.pcs[t] == Reading(pos, buf)
    ensures Solo(r0, t, n, r') && Quietly(r0, t, r') && t < |r'.pcs|
    ensures r'.pcs[t] == Releasing(pos) && SameCursors(r, r')
    ensures pos in r'.got && r'.got == r.got[pos := r'.got[pos]]
    decreases HEADER_WORDS + r.payloadCap + 1 - |buf|
  {
    hide Solo;
    hide Quietly;
    hide Inv;
    hide Helped;
    hide Slot;
    hide Sized;
    var m := Next(r0, t, n0, r);
    if m.pcs[t].Reading? {
      assert m.got == r.got && SameCursors(r, m);
      n, r' := ReadSolo(r0, t, n0 + 1, m, pos, m.pcs[t].buf);
    } else {
      n, r' := n0 + 1, m;
    }
  }

  /** dequeue up to the confirmation that the taken cell is published. */
  lemma TakeSolo(r: Ring, t: nat) returns (n: nat, r': Ring)
    requires Inv(r) && Helped(r) && t < |r.pcs| && r.pcs[t] == DeqLoadHead
    ensures Solo(r, t, n, r') && Quietly(r, t, r') && t < |r'.pcs|
    ensures r'.tail == r.tail && r'.commit == r.commit && r'.log == r.log && r'.got == r.got
    ensures if r.head < r.commit then r'.pcs[t] == Reading(r.head, []) && r'.head == r.head + 1
            else r'.pcs[t] == DeqEmpty && r'.head == r.head
  {
    hide Solo;
    hide Quietly;
    hide Inv;
    hide Helped;
    hide Slot;
    hide ClaimStep;
    hide WriteStep;
    hide AdvanceStep;
    hide ReadStep;
    hide PendingStep;
    Begin(r, t);
    r' := Next(r, t, 0, r);
    r' := Next(r, t, 1, r');
    n := 2;
    if r.head < r.commit {
      var m := Next(r, t, 2, r');
      n, r' := ConfirmSolo(r, t, 3, m, r.head);
    }
  }

  lemma ConfirmSolo(r0: Ring, t: nat, n0: nat, r: Ring, pos: nat) returns (n: nat, r': Ring)
    requires Solo(r0, t, n0, r) && Quietly(r0, t, r) && t < |r.pcs| && r.pcs[t] == DeqConfirm(pos)
    ensures Solo(r0, t, n, r') && Quietly(r0, t, r') && t < |r'.pcs|
    ensures r'.pcs[t] == Reading(pos, []) && SameCursors(r, r') && r'.got == r.got
  {
    hide Solo;
    hide Quietly;
    hide Inv;
    hide Helped;
    hide Slot;
    hide ClaimStep;
    hide WriteStep;
    hide AdvanceStep;
    hide ReadStep;
    hide PendingStep;
    StillSound(r0, t, r);
    r' := Next(r0, t, n0, r);
    n := n0 + 1;
    TakenIsPublished(r, t);
  }

  /**
   A dequeue, read-out and release that runs alone: if something is committed it delivers the record at head exactly as
   published and moves head on; otherwise it reports empty. The log and the other cursors stay as they are.
   */
  lemma DequeueSolo(r: Ring, t: nat) returns (n: nat, r': Ring)
    requires Inv(r) && Helped(r) && t < |r.pcs| && r.pcs[t] == DeqLoadHead
    ensures Solo(r, t, n, r') && Quietly(r, t, r')
    ensures r'.tail == r.tail && r'.commit == r.commit && r'.log == r.log && |r.log| == r.tail && 0 < r.capacity
    ensures if r.head < r.commit then
        && r'.pcs[t] == Released(r.head) && r'.head == r.head + 1 && r.head < |r.log|
        && r'.got == r.got[r.head := Committed(r.log[r.head].req, r.epoch, Slot(r.head, r.capacity))]
      else r'.pcs[t] == DeqEmpty && r'.head == r.head && r'.got == r.got
  {
    LogCovers(r);
    n, r' := TakeSolo(r, t);
    hide Solo;
    hide Quietly;
    hide Inv;
    hide Helped;
    hide Slot;
    hide ClaimStep;
    hide WriteStep;
    hide AdvanceStep;
    hide DequeueStep;
    hide PendingStep;
    if r.head < r.commit {
      var m;
      n, m := ReadSolo(r, t, n, r', r.head, []);
      StillSound(r, t, m);
      GotExact(m, r.head);
      hide ReadStep;
      n, r' := ReleaseSolo(r, t, n, m, r.head);
    }
  }

  lemma ReleaseSolo(r0: Ring, t: nat, n0: nat, r: Ring, pos: nat) returns (n: nat, r': Ring)
    requires Solo(r0, t, n0, r) && Quietly(r0, t, r) && t < |r.pcs| && r.pcs[t] == Releasing(pos)
    ensures Solo(r0, t, n, r') && Quietly(r0, t, r') && t < |r'.pcs|
    ensures r'.pcs[t] == Released(pos) && SameCursors(r, r') && r'.got == r.got
  {
    hide Solo;
    hide Quietly;
    hide Inv;
    hide Helped;
    hide Slot;
    r' := Next(r0, t, n0, r);
    n := n0 + 1;
  }

  lemma LogCovers(r: Ring)
    requires Inv(r)
    ensures |r.log| == r.tail && 0 < r.capacity && r.head <= r.commit <= r.tail
  {
    hide CellOk;
    hide ThreadOk;
  }

  lemma GotExact(r: Ring, p: nat)
    requires Inv(r) && p in r.got
    ensures p < |r.log| && 0 < r.capacity && r.got[p] == Committed(r.log[p].req, r.epoch, Slot(p, r.capacity))
  {
    hide Slot;
    hide CellOk;
    hide ThreadOk;
  }

  // ----------------------------------------------------------------- pending

  /** The occupancy read alone is the true one. */
  lemma PendingSolo(r: Ring, t: nat) returns (n: nat, r': Ring)
    requires Inv(r) && Helped(r) && t < |r.pcs| && r.pcs[t] == PendLoadHead
    ensures Solo(r, t, n, r') && Quietly(r, t, r')
    ensures SameCursors(r, r') && r'.got == r.got && r.head <= r.tail
    ensures r'.pcs[t].PendingIs? && r'.pcs[t].n == r.tail - r.head
  {
    LogCovers(r);
    Begin(r, t);
    hide Solo;
    hide Quietly;
    hide Inv;
    hide Helped;
    hide Slot;
    hide ClaimStep;
    hide WriteStep;
    hide AdvanceStep;
    hide DequeueStep;
    hide ReadStep;
    r' := Next(r, t, 0, r);
    r' := Next(r, t, 1, r');
    n := 2;
  }
}
