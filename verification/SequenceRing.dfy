/**
 The ring as the engine's sequential operations use it: an object whose cells, cursors and sequence words change in
 place. A ghost log holds every record accepted so far, by position; the ring is a bounded queue over that log.
 */
module SequenceRing {
  import opened Bits
  import opened Errors
  import opened Records
  import opened Slots

  /** One cell: the sequence word, the header words and the payload bytes they make valid. */
  datatype Cell = Cell(
    sequence: nat, ticket: nat, timestamp: nat, key: nat, epoch: nat, checksum: nat, flags: nat, payload: seq<Byte>)

  // ----------------------------------------------------------------- what the cells hold

  /** The cell after request q has been published to it, apart from later changes of the sequence word. */
  function CellOf(q: Request, sequence: nat, epoch: nat): Cell {
    Cell(sequence, q.ticket, q.timestamp, q.key, epoch, q.checksum, WithCommitted(q.flags), q.payload)
  }

  /** The sequence word of a cell whose latest record sits at position p, when positions below freed are released. */
  function Mark(p: nat, freed: nat, capacity: nat): nat { if p < freed then p + capacity else p + 1 }

  /** Each cell holds the latest record claimed in it, or is as initRing left it. */
  ghost predicate Mirrors(cells: seq<Cell>, log: seq<Request>, freed: nat, epoch: nat) {
    && 0 < |cells| && freed <= |log|
    && (forall i :: |log| <= i < |cells| ==> cells[i].sequence == i && cells[i].key == 0)
    && (forall p :: 0 <= p < |log| <= p + |cells| ==>
      cells[Slot(p, |cells|)] == CellOf(log[p], Mark(p, freed, |cells|), epoch))
  }

  /**
   The turnstile test at the tail: the cell is free exactly if less than a lap is outstanding, or there is one cell.
   */
  lemma TurnstileExact(cells: seq<Cell>, log: seq<Request>, freed: nat, epoch: nat)
    requires Mirrors(cells, log, freed, epoch)
    ensures var sequence := cells[Slot(|log|, |cells|)].sequence;
      && (sequence == |log| <==> |log| < freed + |cells| || |cells| == 1)
      && sequence <= |log|
  {
    var t, c := |log|, |cells|;
    hide Slot;
    if t < c {
      SlotSmall(t, c);
    } else {
      SlotShift(t, c);
      assert cells[Slot(t - c, c)] == CellOf(log[t - c], Mark(t - c, freed, c), epoch);
    }
  }

  /** Publishing at the tail. */
  lemma WriteMirrors(cells: seq<Cell>, log: seq<Request>, freed: nat, epoch: nat, q: Request)
    requires Mirrors(cells, log, freed, epoch)
    ensures Mirrors(cells[Slot(|log|, |cells|) := CellOf(q, |log| + 1, epoch)], log + [q], freed, epoch)
  {
    var t, c := |log|, |cells|;
    hide Slot;
    if t < c {
      SlotSmall(t, c);
    }
    forall p | 0 <= p < t < p + c ensures Slot(p, c) != Slot(t, c) {
      if Slot(p, c) == Slot(t, c) {
        SlotUnique(p, t, c);
      }
    }
  }

  /** Releasing the oldest record that is not yet released. */
  lemma FreeMirrors(cells: seq<Cell>, log: seq<Request>, freed: nat, epoch: nat)
    requires Mirrors(cells, log, freed, epoch) && freed < |log| <= freed + |cells|
    ensures var i := Slot(freed, |cells|);
      Mirrors(cells[i := cells[i].(sequence := freed + |cells|)], log, freed + 1, epoch)
  {
    var c := |cells|;
    hide Slot;
    if |log| < c {
      SlotSmall(freed, c);
    }
    forall p | 0 <= p < |log| <= p + c && p != freed ensures Slot(p, c) != Slot(freed, c) {
      if Slot(p, c) == Slot(freed, c) {
        SlotUnique(p, freed, c);
      }
    }
  }

  // ----------------------------------------------------------------- the ring

  class Ring {
    const capacity: nat
    const payloadCap: nat
    const epoch: nat
    const cells: array<Cell>
    var tail: nat
    var commit: nat
    var head: nat
    ghost var log: seq<Request>

    /**
     The ring between operations (claimed == held == 0), after a claim that is not yet published (claimed == 1), or
     after a dequeue that is not yet released (held == 1).
     */
    ghost predicate Sound(claimed: nat, held: nat)
      reads this, cells
    {
      && 0 < capacity == cells.Length
      && claimed <= 1 && held <= 1 && held <= head
      && head <= commit == |log| && tail == |log| + claimed <= head - held + capacity
      && Mirrors(cells[..], log, head - held, epoch)
      && forall p :: 0 <= p < |log| ==> |log[p].payload| <= payloadCap
    }

    ghost predicate Valid()
      reads this, cells
    {
      Sound(0, 0)
    }

    /** The priming loop of initRing: every cell starts out owned by the producer at its own index. */
    constructor (cells: nat, payloadCap: nat, epoch: nat)
      requires IsPow2(cells)
      ensures Valid() && log == [] && tail == head == 0 && fresh(this.cells)
      ensures capacity == cells && this.payloadCap == payloadCap && this.epoch == epoch
      ensures forall j :: 0 <= j < cells ==> this.cells[j] == Cell(j, 0, 0, 0, epoch, 0, 0, [])
    {
      this.capacity, this.payloadCap, this.epoch := cells, payloadCap, epoch;
      this.cells := new Cell[cells];
      tail, commit, head, log := 0, 0, 0, [];
      new;
      for i := 0 to cells
        invariant forall j :: 0 <= j < i ==> this.cells[j] == Cell(j, 0, 0, 0, epoch, 0, 0, [])
        invariant log == [] && tail == commit == head == 0
      {
        this.cells[i] := Cell(i, 0, 0, 0, epoch, 0, 0, []);
      }
    }

    /** initRing, for a ring whose cell 0 is at address base. */
    static method Init(base: nat, cells: nat, payloadCap: nat, epoch: nat) returns (res: Result<Ring>)
      ensures res.Ok? <==> IsPow2(cells) && IsAligned(base, 64)
      ensures res.Err? ==> res.error == ErrConfig
      ensures res.Ok? ==> var r := res.value;
        && fresh(r) && fresh(r.cells) && r.Valid() && r.log == [] && r.tail == r.head == 0
        && r.capacity == cells && r.payloadCap == payloadCap && r.epoch == epoch
        && forall j :: 0 <= j < cells ==> r.cells[j] == Cell(j, 0, 0, 0, epoch, 0, 0, [])
    {
      if cells == 0 || !IsPow2(cells) {
        return Err(ErrConfig);
      }
      if !IsAligned(base, 64) {
        return Err(ErrConfig);
      }
      var r := new Ring(cells, payloadCap, epoch);
      return Ok(r);
    }

    /**
     claim: take the next position unless the ring is full. With a single cell the sequence values for published and
     for released coincide, and the position is handed out even when the cell is occupied.
     */
    method Claim() returns (pos: nat, ok: bool)
      requires Valid()
      modifies this`tail
      ensures ok <==> old(tail) < head + capacity || capacity == 1
      ensures ok ==> pos == old(tail) == tail - 1
      ensures !ok ==> tail == old(tail)
      ensures old(tail) < head + capacity ==> Sound(1, 0)
    {
      pos := tail;
      TurnstileExact(cells[..], log, head, epoch);
      var dif := cells[Slot(pos, capacity)].sequence - pos;
      if dif == 0 {
        tail := pos + 1;
        return pos, true;
      }
      return 0, false;
    }

    /** publish: header and payload first, then the sequence word, then the commit index. */
    method Publish(pos: nat, q: Request)
      requires Sound(1, 0) && pos == tail - 1 && |q.payload| <= payloadCap
      modifies this`commit, this`log, cells
      ensures Valid() && log == old(log) + [q]
    {
      WriteMirrors(cells[..], log, head, epoch, q);
      var i := Slot(pos, capacity);
      cells[i] := cells[i].(
        payload := q.payload, ticket := q.ticket, timestamp := q.timestamp, key := q.key, epoch := epoch,
        checksum := q.checksum, flags := WithCommitted(q.flags));
      cells[i] := cells[i].(sequence := pos + 1);
      log := log + [q];
      assert cells[..] == old(cells[..])[i := CellOf(q, pos + 1, epoch)];
      AdvanceCommit();
    }

    /** advanceCommit: the commit index moves over every published position and stops at the first other one. */
    method AdvanceCommit()
      requires 0 < capacity == cells.Length && commit <= tail
      modifies this`commit
      ensures old(commit) <= commit <= tail
      ensures forall p :: old(commit) <= p < commit ==> cells[Slot(p, capacity)].sequence == p + 1
      ensures commit == tail || cells[Slot(commit, capacity)].sequence != commit + 1
    {
      while commit != tail && cells[Slot(commit, capacity)].sequence == commit + 1
        invariant old(commit) <= commit <= tail
        invariant forall p :: old(commit) <= p < commit ==> cells[Slot(p, capacity)].sequence == p + 1
        decreases tail - commit
      {
        commit := commit + 1;
      }
    }

    /** dequeue: the oldest record that has not been taken, field by field as it was published, with flag bit 0 set. */
    method Dequeue() returns (pos: nat, ok: bool, rec: Record)
      requires Valid()
      modifies this`head
      ensures ok <==> old(head) < |log|
      ensures ok ==>
        && pos == old(head) == head - 1 && Sound(0, 1)
        && rec == Committed(log[pos], epoch, Slot(pos, capacity))
        && rec.ticket == log[pos].ticket && rec.timestamp == log[pos].timestamp && rec.key == log[pos].key
        && rec.payload == log[pos].payload && rec.checksum == log[pos].checksum
        && rec.flags % 2 == 1 && rec.flags / 2 == log[pos].flags / 2
        && rec.epoch == epoch && rec.slot == Slot(pos, capacity)
      ensures !ok ==> head == old(head)
    {
      pos := head;
      if pos >= commit {
        return 0, false, Record(0, 0, 0, 0, 0, 0, 0, []);
      }
      head := pos + 1;
      var i := Slot(pos, capacity);
      var c := cells[i];
      assert c == CellOf(log[pos], pos + 1, epoch);
      return pos, true, Record(c.ticket, c.timestamp, c.key, c.epoch, i, c.flags, c.checksum, c.payload);
    }

    /** release: the cell goes to the producer of the next lap. */
    method Release(pos: nat)
      requires Sound(0, 1) && pos == head - 1
      modifies cells
      ensures Valid()
    {
      FreeMirrors(cells[..], log, pos, epoch);
      var i := Slot(pos, capacity);
      cells[i] := cells[i].(sequence := pos + capacity);
      assert cells[..] == old(cells[..])[i := old(cells[..])[i].(sequence := pos + capacity)];
    }

    /** pending: positions claimed and not yet taken. */
    function Pending(): nat
      reads this
    {
      if tail < head then 0 else tail - head
    }

    function OccupancyPct(): nat
      requires 0 < capacity
      reads this
    {
      Pending() * 100 / capacity
    }
  }
}
