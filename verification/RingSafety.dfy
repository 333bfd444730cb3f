/**
 Safety of the ring over every interleaving: the cursor order, the life cycle of each cell, exclusive ownership,
 and delivery of exactly the published records in position order.
 */
module RingSafety {
  import opened Records
  import opened Slots
  import opened RingMachine

  // ----------------------------------------------------------------- the invariant

  predicate WritesAt(pc: Pc, pos: nat) { pc.Writing? && pc.pos == pos }

  predicate Unread(pc: Pc, pos: nat) { (pc.DeqConfirm? || pc.Reading?) && pc.pos == pos }

  predicate HoldsAt(pc: Pc, pos: nat) { Unread(pc, pos) || (pc.Releasing? && pc.pos == pos) }

  ghost predicate Shape(s: Ring) {
    && Sized(s)
    && 2 <= s.capacity
    && |s.log| == s.tail
    && |s.takes| == s.head
    && (forall p :: 0 <= p < s.tail ==> s.log[p].thread < |s.pcs| && |s.log[p].req.payload| <= s.payloadCap)
    && (forall p :: 0 <= p < s.head ==> s.takes[p] < |s.pcs|)
  }

  ghost predicate Cursors(s: Ring) {
    s.head <= s.commit <= s.tail <= s.head + s.capacity
  }

  /** The life cycle of cell i: free for its next position, being written, published, or released. */
  ghost predicate CellOk(s: Ring, i: nat)
    requires Shape(s) && Cursors(s) && i < s.capacity
  {
    var q := s.owner[i];
    var cell := s.cells[i];
    && Slot(q, s.capacity) == i
    && s.tail - s.capacity <= q < s.tail
    && (q < 0 ==> cell.sequence == q + s.capacity)
    && (0 <= q ==>
      || (cell.sequence == q && s.commit <= q && WritesAt(s.pcs[s.log[q].thread], q))
      || (cell.sequence == q + 1 && Holds(cell.words, s.log[q].req, s.epoch)
          && (q < s.head ==> HoldsAt(s.pcs[s.takes[q]], q)))
      || (cell.sequence == q + s.capacity && q < s.head && q in s.got))
  }

  ghost predicate OwnsCell(s: Ring, pos: nat, value: nat)
    requires Shape(s)
  {
    s.owner[Slot(pos, s.capacity)] == pos && SeqOf(s, pos) == value
  }

  /** What thread t may rely on at its program point, whatever the other threads do. */
  ghost predicate ThreadOk(s: Ring, t: nat)
    requires Shape(s) && Cursors(s) && t < |s.pcs|
  {
    match s.pcs[t]
    case ClaimLoadTail(req) => |req.payload| <= s.payloadCap
    case ClaimLoadSeq(req, pos) => |req.payload| <= s.payloadCap && pos <= s.tail
    case ClaimCas(req, pos) =>
      |req.payload| <= s.payloadCap && pos <= s.tail && (pos == s.tail ==> SeqOf(s, pos) == pos)
    case Writing(req, pos, done) =>
      && pos < s.tail && s.log[pos] == Claimed(t, req) && OwnsCell(s, pos, pos)
      && done <= req.Words()
      && (forall k :: 0 <= k < done ==>
        s.cells[Slot(pos, s.capacity)].words[WriteAt(|req.payload|, k)] == ImageWord(req, s.epoch,
            WriteAt(|req.payload|, k)))
    case AdvLoadCommit(pos) => pos < s.tail
    case AdvLoadTail(pos, c) => pos < s.tail && c <= s.commit
    case AdvLoadSeq(pos, c) => pos < s.tail && c <= s.commit && c < s.tail
    case AdvCas(pos, c) => pos < s.tail && c <= s.commit && c < s.tail && (c == s.commit ==> SeqOf(s, c) == c + 1)
    case Published(pos) => pos < s.tail
    case DeqLoadCommit(pos) => pos <= s.head
    case DeqCas(pos) => pos <= s.head && pos < s.commit
    case DeqConfirm(pos) => pos < s.head && s.takes[pos] == t && OwnsCell(s, pos, pos + 1) && pos !in s.got
    case Reading(pos, buf) =>
      && pos < s.head && s.takes[pos] == t && OwnsCell(s, pos, pos + 1) && pos !in s.got
      && |buf| <= s.log[pos].req.Words()
      && (forall j :: 0 <= j < |buf| ==>
        ReadAt(j) < s.log[pos].req.Words() && buf[j] == ImageWord(s.log[pos].req, s.epoch, ReadAt(j)))
    case Releasing(pos) => pos < s.head && s.takes[pos] == t && OwnsCell(s, pos, pos + 1) && pos in s.got
    case Released(pos) => pos < s.head && pos in s.got
    case PendLoadTail(h, first) => h <= s.head && first <= s.tail - h
    case PendingIs(n, first, upTo) => first <= n <= upTo <= s.tail && upTo <= s.head + n
    case BrokenRelease(_) => false
    case Broken => false
    case _ => true
  }

  /** Every position taken has been read out by its taker, exactly as its producer wrote it, or is still being read. */
  ghost predicate DeliveredOk(s: Ring)
    requires Shape(s) && Cursors(s)
  {
    && (forall p :: p in s.got ==>
      p < s.head && s.got[p] == Committed(s.log[p].req, s.epoch, Slot(p, s.capacity)))
    && (forall p :: 0 <= p < s.head ==> p in s.got || Unread(s.pcs[s.takes[p]], p))
  }

  ghost predicate Inv(s: Ring) {
    && Shape(s)
    && Cursors(s)
    && (forall i :: 0 <= i < s.capacity ==> CellOk(s, i))
    && (forall t :: 0 <= t < |s.pcs| ==> ThreadOk(s, t))
    && DeliveredOk(s)
  }

  // ----------------------------------------------------------------- consequences of the invariant

  /** A claimed position of the current lap is the latest one claimed in its cell. */
  lemma Current(s: Ring, pos: nat)
    requires Inv(s) && s.tail - s.capacity <= pos < s.tail
    ensures s.owner[Slot(pos, s.capacity)] == pos && CellOk(s, Slot(pos, s.capacity))
  {
    var i := Slot(pos, s.capacity);
    assert CellOk(s, i);
    SlotUnique(pos, s.owner[i], s.capacity);
  }

  /** The cell that the next position will use was last claimed exactly one lap ago. */
  lemma NextCell(s: Ring)
    requires Inv(s)
    ensures s.owner[Slot(s.tail, s.capacity)] == s.tail - s.capacity && CellOk(s, Slot(s.tail, s.capacity))
  {
    var i := Slot(s.tail, s.capacity);
    assert CellOk(s, i);
    SlotShift(s.tail, s.capacity);
    SlotUnique(s.tail - s.capacity, s.owner[i], s.capacity);
  }

  lemma InitInv(s: Ring, threads: nat)
    requires Init(s, threads) && 2 <= s.capacity
    ensures Inv(s)
  {
    hide Slot;
    forall i | 0 <= i < s.capacity ensures CellOk(s, i) {
      SlotSmall(i, s.capacity);
      SlotShift(i, s.capacity);
    }
  }

  // ----------------------------------------------------------------- preservation, one kind of step at a time

  /** The state after thread t has moved between points that own no cell. */
  ghost predicate Moved(s: Ring, t: nat, s': Ring) {
    && t < |s.pcs| && |s'.tallies| == |s.tallies| && |s'.pcs| == |s.pcs|
    && s' == s.(pcs := s.pcs[t := s'.pcs[t]], tallies := s'.tallies)
    && forall p :: !HoldsAt(s.pcs[t], p) && !WritesAt(s.pcs[t], p)
  }

  lemma MovedCell(s: Ring, t: nat, s': Ring, i: nat)
    requires Moved(s, t, s') && Shape(s) && Cursors(s) && i < s.capacity && CellOk(s, i)
    ensures Shape(s') && Cursors(s') && CellOk(s', i)
  {
    hide Slot;
    hide Holds;
  }

  lemma MovedThread(s: Ring, t: nat, s': Ring, u: nat)
    requires Moved(s, t, s') && Shape(s) && Cursors(s) && u < |s.pcs| && u != t && ThreadOk(s, u)
    ensures Shape(s') && Cursors(s') && ThreadOk(s', u)
  {
    hide Slot;
  }

  lemma MovedDelivered(s: Ring, t: nat, s': Ring)
    requires Moved(s, t, s') && Shape(s) && Cursors(s) && DeliveredOk(s)
    ensures Shape(s') && Cursors(s') && DeliveredOk(s')
  {
    hide Slot;
    forall p | 0 <= p < s.head ensures p in s.got || Unread(s'.pcs[s.takes[p]], p) {
      assert p in s.got || Unread(s.pcs[s.takes[p]], p);
      assert !HoldsAt(s.pcs[t], p);
    }
  }

  lemma KeepsMove(s: Ring, t: nat, s': Ring)
    requires Inv(s) && Moved(s, t, s') && ThreadOk(s', t)
    ensures Inv(s')
  {
    MovedDelivered(s, t, s');
    hide Moved;
    hide CellOk;
    hide ThreadOk;
    hide DeliveredOk;
    forall i | 0 <= i < s.capacity ensures CellOk(s', i) {
      MovedCell(s, t, s', i);
    }
    forall u | 0 <= u < |s'.pcs| ensures ThreadOk(s', u) {
      if u != t {
        MovedThread(s, t, s', u);
      }
    }
  }

  lemma KeepsClaimCas(s: Ring, t: nat)
    requires Inv(s) && Enabled(s, Step(t)) && s.pcs[t].ClaimCas?
    ensures Inv(StepOf(s, t))
  {
    hide Slot;
    var s' := StepOf(s, t);
    var pos := s.pcs[t].pos;
    assert ThreadOk(s, t);
    if pos != s.tail {
      KeepsMove(s, t, s');
      return;
    }
    ClaimWonCells(s, t, s.pcs[t].req, s');
    ClaimWonThreads(s, t, s.pcs[t].req, s');
    assert DeliveredOk(s') by {
      forall p | 0 <= p < s.head ensures p in s.got || Unread(s'.pcs[s.takes[p]], p) {
        assert p in s.got || Unread(s.pcs[s.takes[p]], p);
      }
    }
  }

  /** The state after thread t has won the next position. */
  ghost predicate ClaimWon(s: Ring, t: nat, req: Request, s': Ring) {
    && Inv(s)
    && t < |s.pcs| && s.pcs[t] == ClaimCas(req, s.tail) && |req.payload| <= s.payloadCap
    && SeqOf(s, s.tail) == s.tail
    && |s'.tallies| == |s.tallies|
    && s' == s.(
      pcs := s.pcs[t := Writing(req, s.tail, 0)],
      tallies := s'.tallies,
      tail := s.tail + 1,
      log := s.log + [Claimed(t, req)],
      owner := s.owner[Slot(s.tail, s.capacity) := s.tail])
  }

  lemma ClaimWonCells(s: Ring, t: nat, req: Request, s': Ring)
    requires ClaimWon(s, t, req, s')
    ensures Shape(s') && Cursors(s') && forall i :: 0 <= i < s.capacity ==> CellOk(s', i)
  {
    hide Slot;
    NextCell(s);
    forall i | 0 <= i < s.capacity ensures CellOk(s', i) {
      assert CellOk(s, i);
      if i != Slot(s.tail, s.capacity) && s.owner[i] == s.tail - s.capacity {
        SlotShift(s.tail, s.capacity);
      }
    }
  }

  lemma ClaimWonThreads(s: Ring, t: nat, req: Request, s': Ring)
    requires ClaimWon(s, t, req, s') && Shape(s') && Cursors(s')
    ensures forall u :: 0 <= u < |s.pcs| ==> ThreadOk(s', u)
  {
    hide CellOk;
    hide Slot;
    NextCell(s);
    forall u | 0 <= u < |s.pcs| ensures ThreadOk(s', u) {
      assert ThreadOk(s, u);
    }
  }

  lemma KeepsWrite(s: Ring, t: nat)
    requires Inv(s) && Enabled(s, Step(t)) && s.pcs[t].Writing? && s.pcs[t].done < s.pcs[t].req.Words()
    ensures Inv(StepOf(s, t))
  {
    hide Slot;
    var s' := StepOf(s, t);
    assert ThreadOk(s, t);
    assert Shape(s') && Cursors(s');
    WroteDelivered(s, t, s');
    hide StepOf;
    hide CellOk;
    hide ThreadOk;
    forall i | 0 <= i < s.capacity ensures CellOk(s', i) {
      WroteCell(s, t, i);
    }
    forall u | 0 <= u < |s.pcs| ensures ThreadOk(s', u) {
      WroteThread(s, t, u);
    }
  }

  lemma WroteCell(s: Ring, t: nat, i: nat)
    requires Inv(s) && Enabled(s, Step(t)) && s.pcs[t].Writing? && s.pcs[t].done < s.pcs[t].req.Words()
    requires i < s.capacity
    ensures var s' := StepOf(s, t); Shape(s') && Cursors(s') && CellOk(s', i)
  {
    hide Slot;
    assert ThreadOk(s, t) && CellOk(s, i);
    hide Inv;
  }

  lemma WroteThread(s: Ring, t: nat, u: nat)
    requires Inv(s) && Enabled(s, Step(t)) && s.pcs[t].Writing? && s.pcs[t].done < s.pcs[t].req.Words()
    requires u < |s.pcs|
    ensures var s' := StepOf(s, t); Shape(s') && Cursors(s') && ThreadOk(s', u)
  {
    hide Slot;
    hide CellOk;
    assert ThreadOk(s, t) && ThreadOk(s, u);
    hide Inv;
  }

  lemma WroteDelivered(s: Ring, t: nat, s': Ring)
    requires Shape(s) && Cursors(s) && DeliveredOk(s) && Shape(s') && Cursors(s') && t < |s.pcs| == |s'.pcs|
    requires s'.pcs == s.pcs[t := s'.pcs[t]] && s.pcs[t].Writing?
    requires s'.got == s.got && s'.takes == s.takes && s'.log == s.log && s'.head == s.head
    requires s'.epoch == s.epoch && s'.capacity == s.capacity
    ensures DeliveredOk(s')
  {
    hide Slot;
    forall p | 0 <= p < s.head ensures p in s.got || Unread(s'.pcs[s.takes[p]], p) {
      assert p in s.got || Unread(s.pcs[s.takes[p]], p);
    }
  }

  /** The state after thread t has published the fully written position pos. */
  ghost predicate ReleaseStore(s: Ring, t: nat, req: Request, pos: nat, s': Ring) {
    && Inv(s)
    && t < |s.pcs| && s.pcs[t] == Writing(req, pos, req.Words())
    && s' == StoreSeq(s, pos, pos + 1).(pcs := s.pcs[t := AdvLoadCommit(pos)])
  }

  lemma PublishCells(s: Ring, t: nat, req: Request, pos: nat, s': Ring)
    requires ReleaseStore(s, t, req, pos, s')
    ensures Shape(s') && forall i :: 0 <= i < s.capacity ==> CellOk(s', i)
  {
    hide Slot;
    var slot := Slot(pos, s.capacity);
    assert ThreadOk(s, t);
    assert CellOk(s, slot);
    WritesComplete(s.cells[slot].words, req, s.epoch);
    forall i | 0 <= i < s.capacity ensures CellOk(s', i) {
      assert CellOk(s, i);
    }
  }

  lemma PublishThread(s: Ring, t: nat, req: Request, pos: nat, s': Ring, u: nat)
    requires ReleaseStore(s, t, req, pos, s') && Shape(s') && u < |s.pcs|
    ensures ThreadOk(s', u)
  {
    hide CellOk;
    hide Slot;
    assert ThreadOk(s, t) && ThreadOk(s, u);
    if s.pcs[u].ClaimCas? {
      NextCell(s);
    } else if s.pcs[u].AdvCas? && s.commit < s.tail {
      Current(s, s.commit);
    }
  }

  lemma KeepsPublish(s: Ring, t: nat)
    requires Inv(s) && Enabled(s, Step(t)) && s.pcs[t].Writing? && s.pcs[t].done == s.pcs[t].req.Words()
    ensures Inv(StepOf(s, t))
  {
    hide Slot;
    var s' := StepOf(s, t);
    PublishCells(s, t, s.pcs[t].req, s.pcs[t].pos, s');
    forall u | 0 <= u < |s.pcs| ensures ThreadOk(s', u) {
      PublishThread(s, t, s.pcs[t].req, s.pcs[t].pos, s', u);
    }
    KeepsDelivered(s, t, s');
  }

  /** The state after thread t has moved commit past the published position it was at. */
  ghost predicate CommitWon(s: Ring, t: nat, s': Ring) {
    && Inv(s)
    && t < |s.pcs| == |s'.pcs| && |s'.tallies| == |s.tallies| && s.commit < s.tail
    && s.pcs[t].AdvCas? && s.pcs[t].c == s.commit && s'.pcs[t] == AdvLoadCommit(s.pcs[t].pos)
    && s' == s.(pcs := s.pcs[t := s'.pcs[t]], tallies := s'.tallies, commit := s.commit + 1)
  }

  lemma CommitWonThread(s: Ring, t: nat, s': Ring, u: nat)
    requires CommitWon(s, t, s') && Shape(s') && Cursors(s') && u < |s.pcs|
    ensures ThreadOk(s', u)
  {
    hide CellOk;
    hide Slot;
    assert ThreadOk(s, t) && ThreadOk(s, u);
  }

  /** Winning the commit compare-and-swap: the position passed is published. */
  lemma KeepsAdvCas(s: Ring, t: nat)
    requires Inv(s) && Enabled(s, Step(t)) && s.pcs[t].AdvCas?
    ensures Inv(StepOf(s, t))
  {
    hide Slot;
    var s' := StepOf(s, t);
    assert ThreadOk(s, t);
    if s.commit != s.pcs[t].c {
      KeepsMove(s, t, s');
      return;
    }
    Current(s, s.commit);
    forall i | 0 <= i < s.capacity ensures CellOk(s', i) {
      assert CellOk(s, i);
    }
    forall u | 0 <= u < |s.pcs| ensures ThreadOk(s', u) {
      CommitWonThread(s, t, s', u);
    }
    KeepsDelivered(s, t, s');
  }

  /** Delivery is untouched by a step of a thread that is not reading, as long as nothing is taken or read out. */
  lemma KeepsDelivered(s: Ring, t: nat, s': Ring)
    requires Inv(s) && t < |s.pcs| && Shape(s') && Cursors(s') && |s'.pcs| == |s.pcs|
    requires s'.pcs == s.pcs[t := s'.pcs[t]] && s'.head == s.head && s'.takes == s.takes && s'.got == s.got
    requires s'.epoch == s.epoch && s'.capacity == s.capacity && s.tail <= s'.tail && s'.log[..s.tail] == s.log
    requires forall p :: !Unread(s.pcs[t], p)
    ensures DeliveredOk(s')
  {
    forall p | 0 <= p < s.head ensures p in s.got || Unread(s'.pcs[s.takes[p]], p) {
      assert p in s.got || Unread(s.pcs[s.takes[p]], p);
      assert !Unread(s.pcs[t], p);
    }
    assert forall p :: 0 <= p < s.tail ==> s'.log[p] == s'.log[..s.tail][p];
  }

  /** The state after thread t has taken the position at head. */
  ghost predicate TakeWon(s: Ring, t: nat, s': Ring) {
    && Inv(s)
    && t < |s.pcs| == |s'.pcs| && |s'.tallies| == |s.tallies| && s.head < s.commit
    && s.pcs[t] == DeqCas(s.head) && s'.pcs[t] == DeqConfirm(s.head)
    && s' == s.(pcs := s.pcs[t := s'.pcs[t]], tallies := s'.tallies, head := s.head + 1, takes := s.takes + [t])
  }

  lemma TakeWonThread(s: Ring, t: nat, s': Ring, u: nat)
    requires TakeWon(s, t, s') && Shape(s') && Cursors(s') && u < |s.pcs|
    ensures ThreadOk(s', u)
  {
    hide Slot;
    assert ThreadOk(s, t) && ThreadOk(s, u);
    if u == t {
      Current(s, s.head);
    }
  }

  /** Winning the head compare-and-swap: the position taken is published and in nobody else's hands. */
  lemma KeepsDeqCas(s: Ring, t: nat)
    requires Inv(s) && Enabled(s, Step(t)) && s.pcs[t].DeqCas?
    ensures Inv(StepOf(s, t))
  {
    hide Slot;
    var s' := StepOf(s, t);
    assert ThreadOk(s, t);
    if s.head != s.pcs[t].pos {
      KeepsMove(s, t, s');
      return;
    }
    Current(s, s.head);
    assert s'.takes[s.head] == t;
    forall i | 0 <= i < s.capacity ensures CellOk(s', i) {
      assert CellOk(s, i);
    }
    forall u | 0 <= u < |s.pcs| ensures ThreadOk(s', u) {
      TakeWonThread(s, t, s', u);
    }
    assert DeliveredOk(s') by {
      forall p | 0 <= p < s'.head ensures p in s.got || Unread(s'.pcs[s'.takes[p]], p) {
        if p < s.head {
          assert p in s.got || Unread(s.pcs[s.takes[p]], p);
        }
      }
    }
  }

  /** A thread that keeps its cell and only moves on, with a new program point that is fine for it. */
  lemma KeepsHolding(s: Ring, t: nat, pos: nat, s': Ring)
    requires Inv(s) && t < |s.pcs| && Unread(s.pcs[t], pos) && ThreadOk(s, t) && |s'.pcs| == |s.pcs|
    requires s' == s.(pcs := s.pcs[t := s'.pcs[t]]) && Unread(s'.pcs[t], pos) && ThreadOk(s', t)
    ensures Inv(s')
  {
    hide Slot;
    forall p | 0 <= p < s.head ensures p in s.got || Unread(s'.pcs[s.takes[p]], p) {
      assert p in s.got || Unread(s.pcs[s.takes[p]], p);
    }
    assert DeliveredOk(s');
    hide DeliveredOk;
    forall u | 0 <= u < |s.pcs| ensures ThreadOk(s', u) {
      assert ThreadOk(s, u);
    }
    hide ThreadOk;
    forall i | 0 <= i < s.capacity ensures CellOk(s', i) {
      assert CellOk(s, i);
    }
  }

  lemma KeepsConfirm(s: Ring, t: nat)
    requires Inv(s) && Enabled(s, Step(t)) && s.pcs[t].DeqConfirm?
    ensures Inv(StepOf(s, t))
  {
    assert ThreadOk(s, t);
    KeepsHolding(s, t, s.pcs[t].pos, StepOf(s, t));
  }

  /** The word a consumer reads next is the one its producer wrote, so no read is torn. */
  lemma ReadsImage(s: Ring, t: nat)
    requires Inv(s) && t < |s.pcs| && s.pcs[t].Reading?
    ensures ThreadOk(s, t) && CellOk(s, Slot(s.pcs[t].pos, s.capacity))
    ensures Holds(s.cells[Slot(s.pcs[t].pos, s.capacity)].words, s.log[s.pcs[t].pos].req, s.epoch)
    ensures 0 < |s.pcs[t].buf| ==> s.pcs[t].buf[0] == |s.log[s.pcs[t].pos].req.payload|
  {
    hide Slot;
    assert ThreadOk(s, t);
    assert CellOk(s, Slot(s.pcs[t].pos, s.capacity));
    if 0 < |s.pcs[t].buf| {
      assert s.pcs[t].buf[0] == ImageWord(s.log[s.pcs[t].pos].req, s.epoch, ReadAt(0));
    }
  }

  lemma KeepsReading(s: Ring, t: nat)
    requires Inv(s) && Enabled(s, Step(t)) && s.pcs[t].Reading? && StepOf(s, t).pcs[t].Reading?
    ensures Inv(StepOf(s, t))
  {
    hide Slot;
    ReadsImage(s, t);
    KeepsHolding(s, t, s.pcs[t].pos, StepOf(s, t));
  }

  /** The state after thread t has finished reading position pos out as record rec. */
  ghost predicate ReadOut(s: Ring, t: nat, pos: nat, s': Ring) {
    && Inv(s)
    && t < |s.pcs| && Unread(s.pcs[t], pos)
    && pos < s.head
    && s' == s.(
      pcs := s.pcs[t := Releasing(pos)],
      got := s.got[pos := Committed(s.log[pos].req, s.epoch, Slot(pos, s.capacity))])
  }

  lemma ReadOutThread(s: Ring, t: nat, pos: nat, s': Ring, u: nat)
    requires ReadOut(s, t, pos, s') && Shape(s') && u < |s.pcs|
    ensures ThreadOk(s', u)
  {
    hide CellOk;
    hide Slot;
    assert ThreadOk(s, t) && ThreadOk(s, u);
  }

  lemma KeepsReadOut(s: Ring, t: nat, pos: nat, s': Ring)
    requires ReadOut(s, t, pos, s')
    ensures Inv(s')
  {
    hide Slot;
    hide ThreadOk;
    assert ThreadOk(s, t);
    forall i | 0 <= i < s.capacity ensures CellOk(s', i) {
      assert CellOk(s, i);
    }
    forall u | 0 <= u < |s.pcs| ensures ThreadOk(s', u) {
      ReadOutThread(s, t, pos, s', u);
    }
    forall p | 0 <= p < s.head ensures p in s'.got || Unread(s'.pcs[s.takes[p]], p) {
      assert p in s.got || Unread(s.pcs[s.takes[p]], p);
    }
  }

  lemma KeepsReadEnd(s: Ring, t: nat)
    requires Inv(s) && Enabled(s, Step(t)) && s.pcs[t].Reading? && !StepOf(s, t).pcs[t].Reading?
    ensures Inv(StepOf(s, t))
  {
    hide Slot;
    ReadsImage(s, t);
    var pos := s.pcs[t].pos;
    AssembleRecovers(s.pcs[t].buf, s.log[pos].req, s.epoch, Slot(pos, s.capacity));
    KeepsReadOut(s, t, pos, StepOf(s, t));
  }

  /** The state after thread t has released the cell of position pos. */
  ghost predicate Release(s: Ring, t: nat, pos: nat, s': Ring) {
    && Inv(s)
    && t < |s.pcs| && s.pcs[t] == Releasing(pos)
    && s' == StoreSeq(s, pos, pos + s.capacity).(pcs := s.pcs[t := Released(pos)])
  }

  lemma ReleaseCells(s: Ring, t: nat, pos: nat, s': Ring)
    requires Release(s, t, pos, s')
    ensures Shape(s') && forall i :: 0 <= i < s.capacity ==> CellOk(s', i)
  {
    hide Slot;
    assert ThreadOk(s, t);
    forall i | 0 <= i < s.capacity ensures CellOk(s', i) {
      assert CellOk(s, i);
    }
  }

  lemma ReleaseThread(s: Ring, t: nat, pos: nat, s': Ring, u: nat)
    requires Release(s, t, pos, s') && Shape(s') && u < |s.pcs|
    ensures ThreadOk(s', u)
  {
    hide CellOk;
    hide Slot;
    assert ThreadOk(s, t) && ThreadOk(s, u);
    if s.pcs[u].ClaimCas? {
      NextCell(s);
    } else if s.pcs[u].AdvCas? && s.commit < s.tail {
      Current(s, s.commit);
    }
  }

  /** Releasing hands the cell to the producer one lap ahead. */
  lemma KeepsReleasing(s: Ring, t: nat)
    requires Inv(s) && Enabled(s, Step(t)) && s.pcs[t].Releasing?
    ensures Inv(StepOf(s, t))
  {
    hide Slot;
    var s' := StepOf(s, t);
    ReleaseCells(s, t, s.pcs[t].pos, s');
    forall u | 0 <= u < |s.pcs| ensures ThreadOk(s', u) {
      ReleaseThread(s, t, s.pcs[t].pos, s', u);
    }
    KeepsDelivered(s, t, s');
  }

  predicate LoadsOnly(pc: Pc) {
    !(pc.AdvCas? || pc.DeqCas? || pc.ClaimCas? || pc.Writing? || pc.DeqConfirm? || pc.Reading? || pc.Releasing?)
  }

  /** Steps that only load, on the producer side. */
  lemma KeepsProducerLocal(s: Ring, t: nat)
    requires Inv(s) && Enabled(s, Step(t)) && LoadsOnly(s.pcs[t])
    requires InClaim(s.pcs[t]) || InAdvance(s.pcs[t])
    ensures Inv(StepOf(s, t))
  {
    hide Slot;
    assert ThreadOk(s, t);
    KeepsMove(s, t, StepOf(s, t));
  }

  /** Steps that only load, on the consumer side; the branch for a lost record is never taken. */
  lemma KeepsConsumerLocal(s: Ring, t: nat)
    requires Inv(s) && Enabled(s, Step(t)) && LoadsOnly(s.pcs[t])
    requires !InClaim(s.pcs[t]) && !InAdvance(s.pcs[t])
    ensures Inv(StepOf(s, t))
  {
    hide Slot;
    assert ThreadOk(s, t);
    KeepsMove(s, t, StepOf(s, t));
  }

  /** The boundaries of an operation. */
  lemma KeepsBoundary(s: Ring, a: Action)
    requires Inv(s) && Enabled(s, a) && !a.Step?
    ensures Inv(Apply(s, a))
  {
    hide Slot;
    KeepsMove(s, a.thread, Apply(s, a));
  }

  /** Every action of every thread preserves the invariant. */
  lemma KeepsInv(s: Ring, a: Action)
    requires Inv(s) && Enabled(s, a)
    ensures Inv(Apply(s, a))
  {
    if !a.Step? {
      KeepsBoundary(s, a);
      return;
    }
    var t := a.thread;
    match s.pcs[t] {
      case ClaimCas(_, _) => KeepsClaimCas(s, t);
      case Writing(req, _, done) => if done < req.Words() { KeepsWrite(s, t); } else { KeepsPublish(s, t); }
      case AdvCas(_, _) => KeepsAdvCas(s, t);
      case DeqCas(_) => KeepsDeqCas(s, t);
      case DeqConfirm(_) => KeepsConfirm(s, t);
      case Releasing(_) => KeepsReleasing(s, t);
      case Reading(_, _) => if StepOf(s, t).pcs[t].Reading? { KeepsReading(s, t); } else { KeepsReadEnd(s, t); }
      case ClaimLoadTail(_) => KeepsProducerLocal(s, t);
      case ClaimLoadSeq(_, _) => KeepsProducerLocal(s, t);
      case AdvLoadCommit(_) => KeepsProducerLocal(s, t);
      case AdvLoadTail(_, _) => KeepsProducerLocal(s, t);
      case AdvLoadSeq(_, _) => KeepsProducerLocal(s, t);
      case _ => KeepsConsumerLocal(s, t);
    }
  }

  /** No thread is ever stuck: in a reachable state every operation in progress has its next step enabled. */
  lemma NeverStuck(s: Ring, t: nat)
    requires Inv(s) && t < |s.pcs|
    ensures !s.pcs[t].Idle? && !Returned(s.pcs[t]) ==> Enabled(s, Step(t))
    ensures Returned(s.pcs[t]) ==> Enabled(s, Return(t))
  {
    hide Slot;
    hide CellOk;
    assert ThreadOk(s, t);
    if s.pcs[t].Reading? {
      ReadsImage(s, t);
    }
  }

  /** Every state of every run of a ring with at least two cells satisfies the invariant. */
  lemma {:induction false} RunInv(s: Ring, actions: seq<Action>)
    requires Inv(s) && Runs(s, actions)
    ensures Inv(Exec(s, actions))
    decreases |actions|
  {
    if |actions| > 0 {
      KeepsInv(s, actions[0]);
      RunInv(Apply(s, actions[0]), actions[1..]);
    }
  }
}
