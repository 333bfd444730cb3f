/**
 The index agrees with the ring: it points at exactly the newest record of every indexed key that is still in its
 cell. From it: what Lookup answers, and when an upsert can fail.
 */
module IndexAgreement {
  import opened Errors
  import opened KeyIndexes
  import opened Records
  import opened SequenceRing
  import opened Slots

  /** The position of the newest record of a key, or -1. */
  function Newest(log: seq<Request>, key: nat): (q: int)
    ensures -1 <= q < |log|
    ensures q >= 0 ==> log[q].key == key
    ensures forall p :: q < p < |log| ==> log[p].key != key
  {
    if |log| == 0 then -1
    else if log[|log| - 1].key == key then |log| - 1
    else Newest(log[..|log| - 1], key)
  }

  lemma NewestSnoc(log: seq<Request>, q: Request, key: nat)
    ensures Newest(log + [q], key) == if q.key == key then |log| else Newest(log, key)
  {
    assert (log + [q])[..|log|] == log;
  }

  /** Tickets are issued in increasing order from 1, and key 0 is never published. */
  ghost predicate Ticketed(log: seq<Request>) {
    && (forall p :: 0 <= p < |log| ==> log[p].key != 0 && log[p].ticket != 0)
    && (forall p, q :: 0 <= p < q < |log| ==> log[p].ticket < log[q].ticket)
  }

  /** Bucket i, if occupied, holds the newest record of its key, whose upsert succeeded. */
  ghost predicate PointsAtNewest(table: seq<Bucket>, log: seq<Request>, indexed: seq<bool>, capacity: nat, i: nat)
    requires i < |table| && |indexed| == |log| && 0 < capacity
  {
    var q := Newest(log, table[i].key);
    table[i].key == 0 || (q >= 0 && indexed[q] && table[i] == Bucket(table[i].key, log[q].ticket, Slot(q, capacity)))
  }

  ghost predicate HasBucket(table: seq<Bucket>, key: nat) { exists i :: 0 <= i < |table| && table[i].key == key }

  /** The record at position p is the newest of its key, is indexed, and is still in its cell. */
  predicate Findable(log: seq<Request>, indexed: seq<bool>, capacity: nat, p: nat)
    requires p < |log| == |indexed|
  {
    indexed[p] && |log| <= p + capacity && Newest(log, log[p].key) == p
  }

  ghost predicate Agrees(table: seq<Bucket>, log: seq<Request>, indexed: seq<bool>, capacity: nat) {
    && |indexed| == |log| && 0 < capacity
    && (forall i :: 0 <= i < |table| ==> PointsAtNewest(table, log, indexed, capacity, i))
    && (forall p :: 0 <= p < |log| && Findable(log, indexed, capacity, p) ==> HasBucket(table, log[p].key))
  }

  /** A newest record that is still in its cell keeps its bucket alive. */
  lemma ResidentIsAlive(cells: seq<Cell>, log: seq<Request>, freed: nat, epoch: nat, b: Bucket)
    requires Mirrors(cells, log, freed, epoch)
    requires var q := Newest(log, b.key); 0 <= q < |log| <= q + |cells| && b.slot == Slot(q, |cells|)
    ensures !Dead(b, cells)
  {
    var q := Newest(log, b.key);
    assert cells[Slot(q, |cells|)] == CellOf(log[q], Mark(q, freed, |cells|), epoch);
  }

  /** The bucket an upsert writes, if it succeeds. */
  ghost predicate Wrote(x: Index, x': Index, i: nat, b: Bucket) {
    i < |x.table| && b.key != 0 && x'.table == x.table[i := b]
  }

  /** What an upsert with a fresh ticket does to the table: it fails and changes nothing, or it writes one bucket. */
  lemma UpsertWrites(x: Index, hash: nat -> nat, cells: seq<Cell>, key: nat, ticket: nat, slot: nat) returns (i: nat)
    requires Structured(x, hash) && key != 0
    requires forall j :: 0 <= j < |x.table| && x.table[j].key == key ==> x.table[j].ticket < ticket
    ensures var x' := Upserted(x, cells, Home(hash, key, |x.table|), key, ticket, slot);
      if Succeeds(x.table, cells, Home(hash, key, |x.table|), key) then
        && Wrote(x, x', i, Bucket(key, ticket, slot))
        && (x.table[i].key == 0 || x.table[i].key == key || Dead(x.table[i], cells))
        && forall j :: 0 <= j < |x.table| && x.table[j].key == key ==> j == i
      else
        x'.table == x.table && forall j :: 0 <= j < |x.table| ==> x.table[j].key != key
  {
    assert 0 < |x.table|;
    hide At;
    hide FirstStop;
    hide FirstDead;
    hide Structured;
    var h := Home(hash, key, |x.table|);
    var p, d := FirstStop(x.table, h, key, 0), FirstDead(x.table, cells, h, 0);
    i := if p < MAX_PROBE then At(h, p, |x.table|) else if d < MAX_PROBE then At(h, d, |x.table|) else 0;
    forall j | 0 <= j < |x.table| && x.table[j].key == key ensures p < MAX_PROBE && j == i {
      FindsExactly(x, hash, key, j);
    }
  }

  /** Publishing a record and upserting it keeps the agreement; whether the upsert succeeded is remembered. */
  lemma KeepsAgreement(x: Index, hash: nat -> nat, cells: seq<Cell>, log: seq<Request>, indexed: seq<bool>, q: Request,
      freed: nat, epoch: nat)
    requires Structured(x, hash) && Agrees(x.table, log, indexed, |cells|) && Ticketed(log + [q])
    requires Mirrors(cells, log + [q], freed, epoch)
    ensures var h := Home(hash, q.key, |x.table|);
      var x' := Upserted(x, cells, h, q.key, q.ticket, Slot(|log|, |cells|));
      Agrees(x'.table, log + [q], indexed + [Succeeds(x.table, cells, h, q.key)], |cells|)
  {
    var h := Home(hash, q.key, |x.table|);
    var ok := Succeeds(x.table, cells, h, q.key);
    var log', indexed', slot := log + [q], indexed + [ok], Slot(|log|, |cells|);
    assert q == log'[|log|];
    forall j | 0 <= j < |x.table| && x.table[j].key == q.key ensures x.table[j].ticket < q.ticket {
      assert PointsAtNewest(x.table, log, indexed, |cells|, j);
      var p := Newest(log, q.key);
      assert log'[p].ticket < log'[|log|].ticket;
    }
    var i := UpsertWrites(x, hash, cells, q.key, q.ticket, slot);
    var x' := Upserted(x, cells, h, q.key, q.ticket, slot);
    hide Upserted;
    hide Succeeds;
    hide Structured;
    hide Slot;
    if ok {
      WrittenAgrees(x, x', i, cells, log, indexed, q, freed, epoch);
    } else {
      UnwrittenAgrees(x.table, log, indexed, |cells|, q);
    }
  }

  lemma UnwrittenAgrees(table: seq<Bucket>, log: seq<Request>, indexed: seq<bool>, capacity: nat, q: Request)
    requires Agrees(table, log, indexed, capacity) && q.key != 0
    requires forall j :: 0 <= j < |table| ==> table[j].key != q.key
    ensures Agrees(table, log + [q], indexed + [false], capacity)
  {
    hide Slot;
    var log', indexed' := log + [q], indexed + [false];
    forall j | 0 <= j < |table| ensures PointsAtNewest(table, log', indexed', capacity, j) {
      assert PointsAtNewest(table, log, indexed, capacity, j);
      NewestSnoc(log, q, table[j].key);
    }
    forall p | 0 <= p < |log'| && Findable(log', indexed', capacity, p) ensures HasBucket(table, log'[p].key) {
      NewestSnoc(log, q, log'[p].key);
      assert Findable(log, indexed, capacity, p);
    }
  }

  lemma WrittenAgrees(x: Index, x': Index, i: nat, cells: seq<Cell>, log: seq<Request>, indexed: seq<bool>, q: Request,
      freed: nat, epoch: nat)
    requires Agrees(x.table, log, indexed, |cells|) && Ticketed(log + [q]) && Mirrors(cells, log + [q], freed, epoch)
    requires Wrote(x, x', i, Bucket(q.key, q.ticket, Slot(|log|, |cells|)))
    requires x.table[i].key == 0 || x.table[i].key == q.key || Dead(x.table[i], cells)
    requires forall j :: 0 <= j < |x.table| && x.table[j].key == q.key ==> j == i
    ensures Agrees(x'.table, log + [q], indexed + [true], |cells|)
  {
    hide Slot;
    hide Dead;
    hide Newest;
    hide Mirrors;
    var log', indexed' := log + [q], indexed + [true];
    assert q == log'[|log|];
    forall j | 0 <= j < |x.table| ensures PointsAtNewest(x'.table, log', indexed', |cells|, j) {
      assert PointsAtNewest(x.table, log, indexed, |cells|, j);
      NewestSnoc(log, q, x'.table[j].key);
    }
    forall p | 0 <= p < |log'| && Findable(log', indexed', |cells|, p) ensures HasBucket(x'.table, log'[p].key) {
      NewestSnoc(log, q, log'[p].key);
      if p == |log| {
        assert x'.table[i].key == q.key;
      } else {
        assert log'[p].key == log[p].key != q.key;
        assert Findable(log, indexed, |cells|, p);
        var j :| 0 <= j < |x.table| && x.table[j].key == log[p].key;
        assert PointsAtNewest(x.table, log, indexed, |cells|, j);
        assert Newest(log', x.table[j].key) == p && x.table[j].slot == Slot(p, |cells|);
        ResidentIsAlive(cells, log', freed, epoch, x.table[j]);
        assert x'.table[j].key == log'[p].key;
      }
    }
  }

  // ----------------------------------------------------------------- what Lookup answers

  /** The simple specification: the newest record of the key, if its upsert succeeded and it is still in its cell. */
  function NewestRecord(log: seq<Request>, indexed: seq<bool>, capacity: nat, epoch: nat, key: nat): Result<Record>
    requires |indexed| == |log| && 0 < capacity
  {
    var q := Newest(log, key);
    if q >= 0 && indexed[q] && |log| <= q + capacity then Ok(Committed(log[q], epoch, Slot(q, capacity)))
    else Err(ErrNotFound)
  }

  /** A record just published is the answer for its key if its upsert succeeded; if not, the key is not found. */
  lemma NewestIsLast(log: seq<Request>, indexed: seq<bool>, capacity: nat, epoch: nat, q: Request, found: bool)
    requires |indexed| == |log| && 0 < capacity
    ensures NewestRecord(log + [q], indexed + [found], capacity, epoch, q.key)
         == if found then Ok(Committed(q, epoch, Slot(|log|, capacity))) else Err(ErrNotFound)
  {
    NewestSnoc(log, q, q.key);
  }

  /** A record of another key leaves the answer as it is, unless it takes the cell of the newest record. */
  lemma NewestLapped(log: seq<Request>, indexed: seq<bool>, capacity: nat, epoch: nat, q: Request, found: bool,
      key: nat)
    requires |indexed| == |log| && 0 < capacity && key != q.key
    ensures NewestRecord(log + [q], indexed + [found], capacity, epoch, key)
         == if 0 <= Newest(log, key) == |log| - capacity then Err(ErrNotFound)
            else NewestRecord(log, indexed, capacity, epoch, key)
  {
    NewestSnoc(log, q, key);
  }

  /** The latest position in a cell that has been claimed at least once. */
  lemma LatestIn(q: nat, tail: nat, capacity: nat) returns (r: nat)
    requires 0 < capacity && q + capacity < tail
    ensures q < r < tail <= r + capacity && Slot(r, capacity) == Slot(q, capacity)
    decreases tail - q
  {
    SlotShift(q, capacity);
    if tail <= q + capacity + capacity {
      r := q + capacity;
    } else {
      r := LatestIn(q + capacity, tail, capacity);
    }
  }

  /** A bucket whose record has left its cell resolves to nothing: the cell now holds another key. */
  lemma StaleResolves(cells: seq<Cell>, log: seq<Request>, freed: nat, epoch: nat, q: nat)
    requires Mirrors(cells, log, freed, epoch) && q < |log| && Newest(log, log[q].key) == q && q + |cells| < |log|
    ensures cells[Slot(q, |cells|)].key != log[q].key
  {
    hide Slot;
    var r := LatestIn(q, |log|, |cells|);
    assert cells[Slot(r, |cells|)] == CellOf(log[r], Mark(r, freed, |cells|), epoch);
  }

  /** Lookup, through any mix of inserts, updates and reclaims, answers what the simple specification says. */
  lemma ResolveIsNewest(x: Index, hash: nat -> nat, cells: seq<Cell>, log: seq<Request>, indexed: seq<bool>, freed: nat,
      epoch: nat, payloadCap: nat, key: nat)
    requires Structured(x, hash) && Agrees(x.table, log, indexed, |cells|) && Ticketed(log) && key != 0
    requires Mirrors(cells, log, freed, epoch) && forall p :: 0 <= p < |log| ==> |log[p].payload| <= payloadCap
    ensures Resolve(x.table, cells, payloadCap, Home(hash, key, |x.table|), key)
         == NewestRecord(log, indexed, |cells|, epoch, key)
  {
    assert 0 < |x.table|;
    var h, q := Home(hash, key, |x.table|), Newest(log, key);
    var p := FirstStop(x.table, h, key, 0);
    if HasBucket(x.table, key) {
      var i :| 0 <= i < |x.table| && x.table[i].key == key;
      FindsExactly(x, hash, key, i);
      assert PointsAtNewest(x.table, log, indexed, |cells|, i);
      BucketResolves(x.table[i], cells, log, indexed, freed, epoch, payloadCap);
      hide Structured;
      hide Slot;
      hide At;
      hide FirstStop;
      hide Mirrors;
    } else {
      if q >= 0 {
        assert !Findable(log, indexed, |cells|, q);
      }
      hide Structured;
      hide Slot;
      hide At;
      hide FirstStop;
      hide Mirrors;
      if p < MAX_PROBE {
        assert x.table[At(h, p, |x.table|)].key == 0;
      }
    }
  }

  /** isDead: an occupied bucket is dead exactly if the newest record of its key has been lapped. */
  lemma DeadWhenLapped(table: seq<Bucket>, cells: seq<Cell>, log: seq<Request>, indexed: seq<bool>, freed: nat,
      epoch: nat, i: nat)
    requires Agrees(table, log, indexed, |cells|) && Mirrors(cells, log, freed, epoch)
    requires i < |table| && table[i].key != 0
    ensures Dead(table[i], cells) <==> Newest(log, table[i].key) + |cells| < |log|
  {
    hide Slot;
    assert PointsAtNewest(table, log, indexed, |cells|, i);
    var q := Newest(log, table[i].key);
    if q + |cells| < |log| {
      StaleResolves(cells, log, freed, epoch, q);
    } else {
      ResidentIsAlive(cells, log, freed, epoch, table[i]);
    }
  }

  /** The checks lookup makes on the cell its bucket points at. */
  lemma BucketResolves(b: Bucket, cells: seq<Cell>, log: seq<Request>, indexed: seq<bool>, freed: nat, epoch: nat,
      payloadCap: nat)
    requires Mirrors(cells, log, freed, epoch) && Ticketed(log) && |indexed| == |log|
    requires forall p :: 0 <= p < |log| ==> |log[p].payload| <= payloadCap
    requires var q := Newest(log, b.key); q >= 0 && b == Bucket(b.key, log[q].ticket, Slot(q, |cells|))
    ensures b.key != 0 && b.ticket != 0 && b.slot < |cells|
    ensures var q, c := Newest(log, b.key), cells[b.slot];
      if |log| <= q + |cells| then
        && c.key == b.key && c.flags % 2 != 0 && |c.payload| <= payloadCap
        && Record(c.ticket, c.timestamp, b.key, c.epoch, b.slot, c.flags, c.checksum, c.payload)
           == Committed(log[q], epoch, Slot(q, |cells|))
      else c.key != b.key
  {
    hide Slot;
    var q := Newest(log, b.key);
    if |log| <= q + |cells| {
      assert cells[Slot(q, |cells|)] == CellOf(log[q], Mark(q, freed, |cells|), epoch);
    } else {
      StaleResolves(cells, log, freed, epoch, q);
    }
  }

  // ----------------------------------------------------------------- when an upsert fails

  /** Distinct numbers below m are at most m many. */
  lemma {:induction false} Pigeonhole(xs: seq<nat>, m: nat)
    requires forall i :: 0 <= i < |xs| ==> xs[i] < m
    requires forall i, j :: 0 <= i < j < |xs| ==> xs[i] != xs[j]
    ensures |xs| <= m
    decreases m
  {
    if |xs| > 0 {
      assert xs[0] < m;
      if m - 1 in xs {
        var k :| 0 <= k < |xs| && xs[k] == m - 1;
        Pigeonhole(xs[..k] + xs[k + 1..], m - 1);
      } else {
        Pigeonhole(xs, m - 1);
      }
    }
  }

  /** Distinct occupied buckets that are not dead. */
  ghost predicate Alive(table: seq<Bucket>, cells: seq<Cell>, picks: seq<nat>) {
    && (forall j :: 0 <= j < |picks| ==>
      picks[j] < |table| && table[picks[j]].key != 0 && !Dead(table[picks[j]], cells))
    && (forall j, k :: 0 <= j < k < |picks| ==> picks[j] != picks[k])
  }

  function SlotsOf(table: seq<Bucket>, picks: seq<nat>): (slots: seq<nat>)
    requires forall j :: 0 <= j < |picks| ==> picks[j] < |table|
    ensures |slots| == |picks| && forall j :: 0 <= j < |picks| ==> slots[j] == table[picks[j]].slot
  {
    seq(|picks|, j requires 0 <= j < |picks| => table[picks[j]].slot)
  }

  lemma SlotsDistinct(x: Index, hash: nat -> nat, cells: seq<Cell>, picks: seq<nat>)
    requires Structured(x, hash) && Alive(x.table, cells, picks)
    ensures var slots := SlotsOf(x.table, picks);
      && (forall j :: 0 <= j < |slots| ==> slots[j] < |cells| && cells[slots[j]].key == x.table[picks[j]].key)
      && (forall j, k :: 0 <= j < k < |slots| ==> slots[j] != slots[k])
  {
    var slots := SlotsOf(x.table, picks);
    forall j, k | 0 <= j < k < |slots| ensures slots[j] != slots[k] {
      assert picks[j] != picks[k];
      assert x.table[picks[j]].key != x.table[picks[k]].key;
    }
  }

  /** Buckets that are not dead inject into the cells: each cell holds one key, and each key has one bucket. */
  lemma AliveBucketsFit(x: Index, hash: nat -> nat, cells: seq<Cell>, picks: seq<nat>)
    requires Structured(x, hash) && Alive(x.table, cells, picks)
    ensures |picks| <= |cells|
  {
    SlotsDistinct(x, hash, cells, picks);
    Pigeonhole(SlotsOf(x.table, picks), |cells|);
  }

  /** If moreover some cell holds the key of none of them, they are fewer than the cells. */
  lemma SpareCell(x: Index, hash: nat -> nat, cells: seq<Cell>, picks: seq<nat>, s: nat)
    requires Structured(x, hash) && Alive(x.table, cells, picks) && s < |cells|
    requires forall j :: 0 <= j < |picks| ==> x.table[picks[j]].key != cells[s].key
    ensures |picks| < |cells|
  {
    SlotsDistinct(x, hash, cells, picks);
    Pigeonhole(SlotsOf(x.table, picks) + [s], |cells|);
  }

  function Least(a: nat, b: nat): nat { if a <= b then a else b }

  /** The buckets of the whole probe window, each once. */
  function Window(h: nat, buckets: nat): (picks: seq<nat>)
    requires 0 < buckets
    ensures |picks| == Least(16, buckets)
    ensures forall j :: 0 <= j < |picks| ==> picks[j] == At(h, j, buckets)
  {
    seq(Least(16, buckets), j requires 0 <= j => At(h, j, buckets))
  }

  lemma WindowDistinct(h: nat, buckets: nat)
    requires 0 < buckets
    ensures var picks := Window(h, buckets); forall j, k :: 0 <= j < k < |picks| ==> picks[j] != picks[k]
  {
    hide Slot;
    var picks := Window(h, buckets);
    forall j, k | 0 <= j < k < |picks| ensures picks[j] != picks[k] {
      assert picks[j] == At(h, j, buckets) && picks[k] == At(h, k, buckets);
      if Slot(h + j, buckets) == Slot(h + k, buckets) {
        SlotUnique(h + j, h + k, buckets);
      }
    }
  }

  /** The probed bucket belongs to another key whose record the bucket points at is still in its cell. */
  predicate HeldByOther(b: Bucket, cells: seq<Cell>, key: nat) {
    b.key != 0 && b.key != key && b.slot < |cells| && cells[b.slot].key == b.key
  }

  ghost predicate WindowHeld(table: seq<Bucket>, cells: seq<Cell>, h: nat, key: nat)
    requires 0 < |table|
  {
    forall j :: 0 <= j < 16 ==> HeldByOther(table[At(h, j, |table|)], cells, key)
  }

  /** What it takes for the whole window to be held. */
  lemma WindowMeans(table: seq<Bucket>, cells: seq<Cell>, h: nat, key: nat)
    requires 0 < |table|
    ensures WindowHeld(table, cells, h, key) <==> forall j :: 0 <= j < 16 ==>
      var b := table[At(h, j, |table|)];
      b.key != 0 && b.key != key && b.slot < |cells| && cells[b.slot].key == b.key
  {
    hide At;
  }

  lemma FailsIffHeld(table: seq<Bucket>, cells: seq<Cell>, h: nat, key: nat)
    requires 0 < |table|
    ensures !Succeeds(table, cells, h, key) <==> WindowHeld(table, cells, h, key)
  {
    hide At;
    hide Succeeds;
    FailsExactly(table, cells, h, key);
  }

  /**
   An upsert fails exactly if every bucket of its probe window belongs to another key still resident in the ring. Right
   after the publish of the key itself, these buckets are fewer than the ring has cells.
   */
  lemma OverflowExact(x: Index, hash: nat -> nat, cells: seq<Cell>, key: nat, slot: nat)
    requires Structured(x, hash) && key != 0 && slot < |cells| && cells[slot].key == key
    ensures !Succeeds(x.table, cells, Home(hash, key, |x.table|), key) <==>
      forall j :: 0 <= j < 16 ==>
        var b := x.table[At(Home(hash, key, |x.table|), j, |x.table|)];
        b.key != 0 && b.key != key && b.slot < |cells| && cells[b.slot].key == b.key
    ensures !Succeeds(x.table, cells, Home(hash, key, |x.table|), key) ==> 16 < |cells| || |x.table| < |cells|
  {
    assert 0 < |x.table|;
    var h := Home(hash, key, |x.table|);
    FailsIffHeld(x.table, cells, h, key);
    hide Succeeds;
    hide Home;
    hide Structured;
    hide WindowHeld;
    if WindowHeld(x.table, cells, h, key) {
      HeldMeansAlive(x.table, cells, h, key);
      SpareCell(x, hash, cells, Window(h, |x.table|), slot);
    }
  }

  lemma HeldMeansAlive(table: seq<Bucket>, cells: seq<Cell>, h: nat, key: nat)
    requires 0 < |table| && WindowHeld(table, cells, h, key)
    ensures var picks := Window(h, |table|);
      && Alive(table, cells, picks)
      && forall j :: 0 <= j < |picks| ==> table[picks[j]].key != key
  {
    WindowDistinct(h, |table|);
    hide At;
    hide Slot;
    var picks := Window(h, |table|);
    forall j | 0 <= j < |picks|
      ensures picks[j] < |table| && HeldByOther(table[picks[j]], cells, key)
    {
      assert picks[j] == At(h, j, |table|);
    }
  }

  /** With at most sixteen cells, and a bucket for each, ErrIndexFull is impossible. */
  lemma SmallRingsNeverOverflow(x: Index, hash: nat -> nat, cells: seq<Cell>, key: nat, slot: nat)
    requires Structured(x, hash) && key != 0 && slot < |cells| && cells[slot].key == key
    requires |cells| <= 16 && |cells| <= |x.table|
    ensures Succeeds(x.table, cells, Home(hash, key, |x.table|), key)
  {
    OverflowExact(x, hash, cells, key, slot);
  }
}
