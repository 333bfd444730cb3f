/** One shard of the sequential engine: a ring, its key index, the saturation latch and the counters. */
module Shards {
  import opened Bits
  import opened Errors
  import opened Hysteresis
  import opened IndexAgreement
  import opened KeyIndexes
  import opened Records
  import opened SequenceRing
  import opened Slots

  /** A shard's queue, history and latch, as a value. */
  datatype View = View(queue: seq<Record>, log: seq<Request>, indexed: seq<bool>, hot: bool)

  class Shard {
    const ring: Ring
    const index: KeyIndex
    var hot: bool
    var ingested: nat
    var consumed: nat
    var rejected: nat
    /** For every position, whether its upsert succeeded. */
    ghost var indexed: seq<bool>
    ghost var heats: nat
    ghost var cools: nat

    ghost function Footprint(): set<object> { {this, ring, ring.cells, index, index.table} }

    /** Between operations, or inside one: see Ring.Sound. */
    ghost predicate Sound(claimed: nat, held: nat)
      reads this`ingested, this`consumed, this`indexed, ring, ring.cells, index, index.table
    {
      && ring.Sound(claimed, held) && index.Valid()
      && ring.capacity <= index.table.Length
      && ingested == |ring.log| && consumed == ring.head - held
      && Ticketed(ring.log) && Agrees(index.table[..], ring.log, indexed, ring.capacity)
    }

    ghost predicate Valid()
      reads this`ingested, this`consumed, this`indexed, ring, ring.cells, index, index.table
    {
      Sound(0, 0)
    }

    ghost function State(): Latch
      reads this
    {
      Latch(hot, ingested, consumed, heats, cools)
    }

    /** The records not yet consumed, oldest first, as a consumer will see them. */
    ghost function Queue(): seq<Record>
      requires Valid()
      reads this`ingested, this`consumed, this`indexed, ring, ring.cells, index, index.table
    {
      QueueOf(ring.log, ring.head, ring.epoch, ring.capacity)
    }

    /** The ring's occupancy is that of the counters. */
    lemma PercentIs()
      requires Valid()
      ensures State().consumed <= State().ingested
      ensures ring.OccupancyPct() == Percent(State().Pending(), ring.capacity)
    {
    }

    lemma InTicketOrder()
      requires Valid()
      ensures Ticketed(ring.log)
    {
    }

    lemma EmptyMeansNonePending()
      requires Valid()
      ensures Queue() == [] <==> ring.Pending() == 0
    {
    }

    constructor (hash: nat -> nat, cells: nat, buckets: nat, payloadCap: nat, epoch: nat)
      requires IsPow2(cells) && IsPow2(buckets) && cells <= buckets
      ensures Valid() && fresh(Footprint())
      ensures ring.log == [] && ring.head == 0 && ring.capacity == cells && ring.payloadCap == payloadCap
          && ring.epoch == epoch
      ensures index.hash == hash && index.View() == Empty(buckets) && index.table.Length == buckets
      ensures State() == Latch(false, 0, 0, 0, 0) && rejected == 0
    {
      ring := new Ring(cells, payloadCap, epoch);
      index := new KeyIndex(hash, buckets);
      hot, ingested, consumed, rejected, indexed, heats, cools := false, 0, 0, 0, [], 0, 0;
      new;
      assert Agrees(index.table[..], [], [], cells) by {
        assert forall i :: 0 <= i < buckets ==> PointsAtNewest(index.table[..], [], [], cells, i);
      }
    }

    /**
     The rest of publish after its claim: write the record, count it, and point the index at it. The record becomes
     addressable unless its whole probe window is held by other resident keys, which takes more than sixteen cells.
     */
    method Ingest(pos: nat, q: Request) returns (ghost found: bool)
      requires Sound(1, 0) && pos == ring.tail - 1 && |q.payload| <= ring.payloadCap
      requires Ticketed(ring.log + [q])
      modifies this`ingested, this`indexed, ring`commit, ring`log, ring.cells, index, index.table
      ensures Valid() && ring.log == old(ring.log) + [q] && ingested == old(ingested) + 1
      ensures indexed == old(indexed) + [found]
      ensures 0 < index.table.Length
      ensures !found <==> forall j :: 0 <= j < 16 ==>
        var b := old(index.table[..])[At(Home(index.hash, q.key, index.table.Length), j, index.table.Length)];
        b.key != 0 && b.key != q.key && b.slot < ring.capacity && ring.cells[b.slot].key == b.key
      ensures !found ==> 16 < ring.capacity
    {
      ghost var log, table := ring.log, index.table[..];
      hide Mirrors;
      hide Ticketed;
      hide Agrees;
      hide Structured;
      hide Slot;
      hide At;
      hide Home;
      hide WindowHeld;
      ring.Publish(pos, q);
      ingested := ingested + 1;
      found := Address(pos, q, log);
      WindowMeans(table, ring.cells[..], Home(index.hash, q.key, |table|), q.key);
    }

    /** The upsert of a record just published, and its outcome. */
    method Address(pos: nat, q: Request, ghost log: seq<Request>) returns (ghost found: bool)
      requires index.Valid() && ring.cells.Length == ring.capacity <= index.table.Length && pos == |log|
      requires Agrees(index.table[..], log, indexed, ring.capacity) && Ticketed(log + [q])
      requires Mirrors(ring.cells[..], log + [q], ring.head, ring.epoch)
      modifies this`indexed, index, index.table
      ensures index.Valid() && indexed == old(indexed) + [found]
      ensures Agrees(index.table[..], log + [q], indexed, ring.capacity)
      ensures !found <==>
        WindowHeld(old(index.table[..]), ring.cells[..], Home(index.hash, q.key, index.table.Length), q.key)
      ensures !found ==> 16 < ring.capacity
    {
      hide Mirrors;
      hide Ticketed;
      hide Agrees;
      hide Structured;
      hide Slot;
      hide Succeeds;
      hide Upserted;
      hide WindowHeld;
      hide Home;
      ghost var x := index.View();
      UpsertAfterPublish(x, index.hash, ring.cells[..], log, indexed, q, ring.head, ring.epoch);
      var res := index.Upsert(q.key, q.ticket, Slot(pos, ring.capacity), ring);
      found := res.Ok?;
      indexed := indexed + [found];
    }

    /**
     The shard's history is the given one and then request q. That record is addressable unless, in the table as it
     was, the whole probe window of its key was held by other resident keys, which takes more than sixteen cells.
     */
    ghost predicate Extends(log: seq<Request>, before: seq<bool>, table: seq<Bucket>, q: Request)
      reads this`indexed, ring, ring.cells
    {
      && ring.log == log + [q] && |before| == |log| && |indexed| == |log| + 1 && indexed[..|log|] == before
      && 0 < |table|
      && (!indexed[|log|] <==> WindowHeld(table, ring.cells[..], Home(index.hash, q.key, |table|), q.key))
      && (!indexed[|log|] ==> 16 < ring.capacity)
    }

    twostate predicate Took(q: Request)
      reads this`indexed, ring, ring.cells
    {
      && ring.log == old(ring.log) + [q] && ring.head == old(ring.head)
      && Extends(old(ring.log), old(indexed), old(index.table[..]), q)
    }

    /** The queue is the part of the log from head on, field by field as published, with flag bit 0 set. */
    lemma QueueIs(j: nat)
      requires Valid() && j < |Queue()|
      ensures |Queue()| == |ring.log| - ring.head && 0 < ring.capacity
      ensures var r, q := Queue()[j], ring.log[ring.head + j];
        && r.ticket == q.ticket && r.timestamp == q.timestamp && r.key == q.key && r.payload == q.payload
        && r.checksum == q.checksum && r.flags % 2 == 1 && r.flags / 2 == q.flags / 2
        && r.epoch == ring.epoch && r.slot == Slot(ring.head + j, ring.capacity)
    {
      hide Slot;
    }

    twostate predicate Kept()
      reads this`indexed, ring
    {
      ring.log == old(ring.log) && indexed == old(indexed) && ring.head == old(ring.head)
    }

    /** What it means that a shard took a request, or kept everything as it was. */
    twostate lemma TookMeans(q: Request)
      requires Took(q) && old(Valid()) && Valid()
      ensures ring.log == old(ring.log) + [q] && ring.head == old(ring.head) && 0 < index.table.Length
      ensures |indexed| == |ring.log| && indexed[..|indexed| - 1] == old(indexed)
      ensures !indexed[|indexed| - 1] ==> 16 < ring.capacity
      ensures !indexed[|indexed| - 1] <==> forall j :: 0 <= j < 16 ==>
        var b := old(index.table[..])[At(Home(index.hash, q.key, index.table.Length), j, index.table.Length)];
        b.key != 0 && b.key != q.key && b.slot < ring.capacity && ring.cells[b.slot].key == b.key
    {
      hide At;
      hide Slot;
      hide Mirrors;
      hide Agrees;
      hide Structured;
    }

    twostate lemma KeptMeans()
      requires Kept()
      ensures ring.log == old(ring.log) && indexed == old(indexed) && ring.head == old(ring.head)
    {
    }

    /** The shard is as in view. */
    ghost predicate Shows(view: View)
      reads this`ingested, this`consumed, this`indexed, this`hot, ring, ring.cells, index, index.table
    {
      Valid() && view == View(Queue(), ring.log, indexed, hot)
    }

    lemma ShowsMeans(view: View)
      requires Shows(view)
      ensures Valid() && Queue() == view.queue && ring.log == view.log && indexed == view.indexed && hot == view.hot
    {
    }

    lemma ShowsIs()
      requires Valid()
      ensures Shows(View(Queue(), ring.log, indexed, hot))
    {
    }

    /**
     The part of publish that works on the shard: claim a position and ingest the record, or count a rejection. The
     ring takes the record exactly if it is not full. (A full ring of one cell would take it too, over the record in
     it.)
     */
    method Offer(q: Request) returns (ok: bool)
      requires Valid() && |q.payload| <= ring.payloadCap && Ticketed(ring.log + [q])
      requires ring.capacity == 1 ==> State().Pending() < 1
      modifies this`ingested, this`indexed, this`rejected, ring, ring.cells, index, index.table
      ensures Valid() && (ok <==> old(State()).Pending() < ring.capacity)
      ensures rejected == old(rejected) + if ok then 0 else 1
      ensures ok ==> State() == old(State()).(ingested := old(ingested) + 1) && Took(q)
      ensures !ok ==> State() == old(State()) && Kept()
    {
      hide Mirrors;
      hide Ticketed;
      hide Agrees;
      hide Structured;
      hide Slot;
      hide WindowHeld;
      hide At;
      hide Home;
      ghost var log, before := ring.log, indexed;
      assert |before| == |log| by { SameLength(); }
      var pos;
      pos, ok := ring.Claim();
      if !ok {
        rejected := rejected + 1;
        return false;
      }
      var found := Ingest(pos, q);
      WindowMeans(old(index.table[..]), ring.cells[..], Home(index.hash, q.key, index.table.Length), q.key);
      assert indexed[..|log|] == before;
    }

    lemma SameLength()
      requires Valid()
      ensures |indexed| == |ring.log|
    {
    }

    /** What Lookup ought to answer: the newest accepted record of the key, if addressable and still in its cell. */
    ghost function Answer(key: nat): Result<Record>
      requires Valid()
      reads this`ingested, this`consumed, this`indexed, ring, ring.cells, index, index.table
    {
      if key == 0 then Err(ErrConfig) else NewestRecord(ring.log, indexed, ring.capacity, ring.epoch, key)
    }

    /** After a publish its key is answered with its record, if that became addressable, and with nothing otherwise. */
    twostate lemma ReadYourWrites(q: Request)
      requires old(Valid()) && Valid() && Took(q)
      ensures 0 < |indexed| == |ring.log| && 0 < ring.capacity
      ensures Answer(q.key) ==
        if indexed[|indexed| - 1] then Ok(Committed(q, ring.epoch, Slot(|ring.log| - 1, ring.capacity)))
        else Err(ErrNotFound)
      ensures Answer(q.key).Ok? ==> var r := Answer(q.key).value;
        && r.ticket == q.ticket && r.timestamp == q.timestamp && r.key == q.key && r.payload == q.payload
        && r.checksum == q.checksum && r.flags % 2 == 1 && r.flags / 2 == q.flags / 2
      ensures ring.capacity <= 16 ==> Answer(q.key).Ok?
    {
      var log, found := old(ring.log), indexed[|indexed| - 1];
      assert ring.log[|log|] == q;
      assert indexed == old(indexed) + [found];
      NewestIsLast(log, old(indexed), ring.capacity, ring.epoch, q, found);
    }

    /** A publish of another key changes a key's answer only by taking the cell of its newest record. */
    twostate lemma LostWhenLapped(q: Request, key: nat)
      requires old(Valid()) && Valid() && Took(q) && key != 0 && key != q.key
      ensures Answer(key) == if 0 <= Newest(old(ring.log), key) == old(|ring.log|) - ring.capacity then Err(ErrNotFound)
                             else old(Answer(key))
    {
      var found := indexed[|indexed| - 1];
      assert indexed == old(indexed) + [found];
      NewestLapped(old(ring.log), old(indexed), ring.capacity, ring.epoch, q, found, key);
    }

    /** Lookup answers exactly that. */
    method Lookup(key: nat) returns (res: Result<Record>)
      requires Valid()
      ensures res == Answer(key)
    {
      if key != 0 {
        ResolveIsNewest(index.View(), index.hash, ring.cells[..], ring.log, indexed, ring.head, ring.epoch,
            ring.payloadCap, key);
      }
      res := index.Lookup(key, ring);
    }

    /** One turn of a consumer loop: dequeue, hand the record to the handler, release, count. */
    method Consume() returns (ok: bool, rec: Record)
      requires Valid()
      modifies this`consumed, ring`head, ring.cells
      ensures Valid() && ok == (old(Queue()) != [])
      ensures ok ==> old(Queue()) == [rec] + Queue() && consumed == old(consumed) + 1
      ensures !ok ==> Queue() == old(Queue()) && consumed == old(consumed)
    {
      hide Mirrors;
      hide Ticketed;
      hide Agrees;
      hide Structured;
      hide Slot;
      ghost var head := ring.head;
      var pos;
      pos, ok, rec := ring.Dequeue();
      if ok {
        ring.Release(pos);
        consumed := consumed + 1;
        QueueFront(ring.log, head, ring.epoch, ring.capacity);
      }
    }
  }

  function QueueOf(log: seq<Request>, head: nat, epoch: nat, capacity: nat): (queue: seq<Record>)
    requires head <= |log| && 0 < capacity
    ensures |queue| == |log| - head
    ensures forall k :: 0 <= k < |queue| ==> queue[k] == Committed(log[head + k], epoch, Slot(head + k, capacity))
  {
    seq(|log| - head, k requires 0 <= k < |log| - head => Committed(log[head + k], epoch, Slot(head + k, capacity)))
  }

  lemma QueueFront(log: seq<Request>, head: nat, epoch: nat, capacity: nat)
    requires head < |log| && 0 < capacity
    ensures QueueOf(log, head, epoch, capacity)
         == [Committed(log[head], epoch, Slot(head, capacity))] + QueueOf(log, head + 1, epoch, capacity)
  {
    hide Slot;
  }

  /** The cell just published holds the published key. */
  lemma LastCell(cells: seq<Cell>, log: seq<Request>, q: Request, freed: nat, epoch: nat)
    requires Mirrors(cells, log + [q], freed, epoch)
    ensures cells[Slot(|log|, |cells|)].key == q.key
  {
    hide Slot;
    assert (log + [q])[|log|] == q;
  }

  /** What the upsert that follows a publish does. */
  lemma UpsertAfterPublish(x: Index, hash: nat -> nat, cells: seq<Cell>, log: seq<Request>, indexed: seq<bool>,
      q: Request, freed: nat, epoch: nat)
    requires Structured(x, hash) && Agrees(x.table, log, indexed, |cells|) && Ticketed(log + [q])
    requires Mirrors(cells, log + [q], freed, epoch) && |cells| <= |x.table|
    ensures q.key != 0
    ensures var h := Home(hash, q.key, |x.table|);
      var ok := Succeeds(x.table, cells, h, q.key);
      && Agrees(Upserted(x, cells, h, q.key, q.ticket, Slot(|log|, |cells|)).table, log + [q], indexed + [ok], |cells|)
      && (!ok <==> WindowHeld(x.table, cells, h, q.key))
      && (!ok ==> 16 < |cells|)
  {
    assert (log + [q])[|log|] == q;
    KeepsAgreement(x, hash, cells, log, indexed, q, freed, epoch);
    LastCell(cells, log, q, freed, epoch);
    OverflowExact(x, hash, cells, q.key, Slot(|log|, |cells|));
  }
}
