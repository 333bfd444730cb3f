/** Which cell serves a position: the position modulo the number of cells. */
module Slots {
  import opened Bits

  function Slot(pos: int, capacity: nat): (i: nat)
    requires capacity > 0
    ensures i < capacity
  {
    pos % capacity
  }

  /** Positions one lap apart share a cell. */
  lemma SlotShift(pos: int, capacity: nat)
    requires capacity > 0
    ensures Slot(pos - capacity, capacity) == Slot(pos, capacity) == Slot(pos + capacity, capacity)
  {
    var q, r := pos / capacity, pos % capacity;
    assert pos == q * capacity + r;
    assert pos - capacity == (q - 1) * capacity + r;
    assert pos + capacity == (q + 1) * capacity + r;
    ModIs(pos - capacity, q - 1, r, capacity);
    ModIs(pos + capacity, q + 1, r, capacity);
  }

  /** Two positions less than one lap apart that share a cell are the same position. */
  lemma SlotUnique(p: int, q: int, capacity: nat)
    requires capacity > 0 && Slot(p, capacity) == Slot(q, capacity)
    requires p - q < capacity && q - p < capacity
    ensures p == q
  {
    var k := p / capacity - q / capacity;
    assert p - q == k * capacity;
    assert k > 0 ==> k * capacity >= capacity;
    assert k < 0 ==> k * capacity <= (0 - 1) * capacity;
  }

  lemma SlotSmall(pos: nat, capacity: nat)
    requires pos < capacity
    ensures Slot(pos, capacity) == pos
  {
    ModIs(pos, 0, pos, capacity);
  }
}
