/**
 The open-addressed key index of a shard: a fixed table of buckets, probed linearly over at most sixteen buckets,
 with dead buckets recycled in place. The hash is a parameter; everything below holds for every hash.
 */
module KeyIndexes {
  import opened Bits
  import opened Errors
  import opened Records
  import opened SequenceRing
  import opened Slots
  import opened Sums

  const MAX_PROBE: nat := 16

  /** Key 0 marks an empty bucket. */
  datatype Bucket = Bucket(key: nat, ticket: nat, slot: nat)

  /** The table and its counters, as a value. */
  datatype Index = Index(table: seq<Bucket>, live: nat, collides: nat, overflows: nat, reclaims: nat)

  // ----------------------------------------------------------------- what one upsert does

  /** The bucket visited by the given probe of the chain that starts at h. */
  function At(h: nat, probe: nat, buckets: nat): (i: nat)
    requires 0 < buckets
    ensures i < buckets
  {
    Slot(h + probe, buckets)
  }

  /** The masks of the source are remainders: home bucket and probed bucket as numbers. */
  lemma ProbesFrom(hash: nat -> nat, key: nat, probe: nat, buckets: nat)
    requires 0 < buckets && IsPow2(buckets)
    ensures Home(hash, key, buckets) == And(hash(key), buckets - 1)
    ensures At(Home(hash, key, buckets), probe, buckets) == And(And(hash(key), buckets - 1) + probe, buckets - 1)
    ensures At(Home(hash, key, buckets), probe, buckets) == (hash(key) % buckets + probe) % buckets
  {
    var k := IsPow2Sound(buckets);
    MaskIsMod(hash(key), k);
    MaskIsMod(hash(key) % buckets + probe, k);
    hide And;
  }

  predicate Stops(b: Bucket, key: nat) { b.key == 0 || b.key == key }

  /** isDead: the cell the bucket points at no longer holds its key. */
  predicate Dead(b: Bucket, cells: seq<Cell>) {
    b.slot >= |cells| || cells[b.slot].key != b.key
  }

  /** The first probe, from the given one on, that meets the key or an empty bucket; MAX_PROBE if none does. */
  function FirstStop(table: seq<Bucket>, h: nat, key: nat, from: nat): (p: nat)
    requires 0 < |table| && from <= MAX_PROBE
    ensures from <= p <= MAX_PROBE
    ensures p < MAX_PROBE ==> Stops(table[At(h, p, |table|)], key)
    ensures forall j :: from <= j < p ==> !Stops(table[At(h, j, |table|)], key)
    decreases MAX_PROBE - from
  {
    if from == MAX_PROBE || Stops(table[At(h, from, |table|)], key) then from
    else FirstStop(table, h, key, from + 1)
  }

  /** The first probe, from the given one on, that meets a dead bucket; MAX_PROBE if none does. */
  function FirstDead(table: seq<Bucket>, cells: seq<Cell>, h: nat, from: nat): (p: nat)
    requires 0 < |table| && from <= MAX_PROBE
    ensures from <= p <= MAX_PROBE
    ensures p < MAX_PROBE ==> Dead(table[At(h, p, |table|)], cells)
    ensures forall j :: from <= j < p ==> !Dead(table[At(h, j, |table|)], cells)
    decreases MAX_PROBE - from
  {
    if from == MAX_PROBE || Dead(table[At(h, from, |table|)], cells) then from
    else FirstDead(table, cells, h, from + 1)
  }

  /** One probe of either pass. */
  lemma ProbeOne(table: seq<Bucket>, cells: seq<Cell>, h: nat, key: nat, probe: nat)
    requires 0 < |table| && probe < MAX_PROBE
    ensures FirstStop(table, h, key, probe)
         == if Stops(table[At(h, probe, |table|)], key) then probe else FirstStop(table, h, key, probe + 1)
    ensures FirstDead(table, cells, h, probe)
         == if Dead(table[At(h, probe, |table|)], cells) then probe else FirstDead(table, cells, h, probe + 1)
  {
  }

  /** updateMonotonic: the pair moves forward only. */
  function Raised(b: Bucket, ticket: nat, slot: nat): Bucket {
    if b.ticket >= ticket then b else b.(ticket := ticket, slot := slot)
  }

  predicate Succeeds(table: seq<Bucket>, cells: seq<Cell>, h: nat, key: nat)
    requires 0 < |table|
  {
    FirstStop(table, h, key, 0) < MAX_PROBE || FirstDead(table, cells, h, 0) < MAX_PROBE
  }

  /** Neither pass succeeds exactly if sixteen buckets in a row belong to other keys still in their cells. */
  lemma FailsExactly(table: seq<Bucket>, cells: seq<Cell>, h: nat, key: nat)
    requires 0 < |table|
    ensures !Succeeds(table, cells, h, key) <==> forall j :: 0 <= j < 16 ==>
      var b := table[At(h, j, |table|)];
      b.key != 0 && b.key != key && b.slot < |cells| && cells[b.slot].key == b.key
  {
    hide At;
    hide FirstStop;
    hide FirstDead;
    if !Succeeds(table, cells, h, key) {
      forall j | 0 <= j < 16 ensures !Stops(table[At(h, j, |table|)], key) && !Dead(table[At(h, j, |table|)], cells) {
      }
    }
  }

  /** The index after an upsert that hashes to bucket h, with the ring's cells as they are then. */
  function Upserted(x: Index, cells: seq<Cell>, h: nat, key: nat, ticket: nat, slot: nat): (x': Index)
    requires 0 < |x.table|
    ensures |x'.table| == |x.table|
  {
    var p, d := FirstStop(x.table, h, key, 0), FirstDead(x.table, cells, h, 0);
    if p < MAX_PROBE then
      var i := At(h, p, |x.table|);
      if x.table[i].key == 0 then
        x.(table := x.table[i := Bucket(key, ticket, slot)], live := x.live + 1, collides := x.collides + p)
      else x.(table := x.table[i := Raised(x.table[i], ticket, slot)], collides := x.collides + p)
    else if d < MAX_PROBE then
      x.(table := x.table[At(h, d, |x.table|) := Bucket(key, ticket, slot)], reclaims := x.reclaims + 1)
    else x.(overflows := x.overflows + 1)
  }

  /** The first probe that stops pass 1 is counted as its collisions, and a new bucket as live. */
  lemma UpsertCounts(x: Index, cells: seq<Cell>, h: nat, key: nat, ticket: nat, slot: nat, p: nat)
    requires 0 < |x.table| && p < 16
    requires var b := x.table[At(h, p, |x.table|)]; b.key == 0 || b.key == key
    requires forall j :: 0 <= j < p ==> var b := x.table[At(h, j, |x.table|)]; b.key != 0 && b.key != key
    ensures var x' := Upserted(x, cells, h, key, ticket, slot);
      && x'.collides == x.collides + p && x'.reclaims == x.reclaims && x'.overflows == x.overflows
      && x'.live == x.live + if x.table[At(h, p, |x.table|)].key == 0 then 1 else 0
  {
    hide At;
    hide FirstStop;
    hide FirstDead;
    var first := FirstStop(x.table, h, key, 0);
    assert Stops(x.table[At(h, p, |x.table|)], key);
    assert first == p;
  }

  /** If no probe stops pass 1, a dead bucket among them is counted as reclaimed, and none as an overflow. */
  lemma OverflowCounts(x: Index, cells: seq<Cell>, h: nat, key: nat, ticket: nat, slot: nat)
    requires 0 < |x.table|
    requires forall j :: 0 <= j < 16 ==> var b := x.table[At(h, j, |x.table|)]; b.key != 0 && b.key != key
    ensures var x' := Upserted(x, cells, h, key, ticket, slot);
      var dead := exists j :: 0 <= j < 16 && Dead(x.table[At(h, j, |x.table|)], cells);
      && x'.collides == x.collides && x'.live == x.live
      && x'.reclaims == x.reclaims + (if dead then 1 else 0) && x'.overflows == x.overflows + if dead then 0 else 1
  {
    hide At;
    hide FirstStop;
    hide FirstDead;
    hide Dead;
    var first, d := FirstStop(x.table, h, key, 0), FirstDead(x.table, cells, h, 0);
    assert first == MAX_PROBE;
    if d < MAX_PROBE {
      assert Dead(x.table[At(h, d, |x.table|)], cells);
    }
  }

  // ----------------------------------------------------------------- the structure of the table

  function Home(hash: nat -> nat, key: nat, buckets: nat): nat
    requires 0 < buckets
  {
    Slot(hash(key), buckets)
  }

  /** Bucket i is the p-th of the chain that starts at h, and no bucket of the chain before it is empty. */
  ghost predicate Reaches(table: seq<Bucket>, h: nat, p: nat, i: nat) {
    && 0 < |table| && p < MAX_PROBE && At(h, p, |table|) == i
    && forall j :: 0 <= j < p ==> table[At(h, j, |table|)].key != 0
  }

  ghost predicate Chained(table: seq<Bucket>, hash: nat -> nat, i: nat)
    requires i < |table|
  {
    table[i].key == 0 || exists p :: Reaches(table, Home(hash, table[i].key, |table|), p, i)
  }

  const OccupiedOf: Bucket -> int := (b: Bucket) => if b.key == 0 then 0 else 1

  /**
   Each key has at most one bucket; every bucket from the key's home up to that one is occupied, within sixteen
   probes; live counts the occupied buckets.
   */
  ghost predicate Structured(x: Index, hash: nat -> nat) {
    && 0 < |x.table|
    && (forall i :: 0 <= i < |x.table| ==> Chained(x.table, hash, i))
    && (forall i, j :: 0 <= i < j < |x.table| && x.table[i].key == x.table[j].key ==> x.table[i].key == 0)
    && x.live == Sum(x.table, OccupiedOf)
  }

  /** Pass 1 meets a key exactly if the key has a bucket anywhere. */
  lemma FindsExactly(x: Index, hash: nat -> nat, key: nat, i: nat)
    requires Structured(x, hash) && key != 0 && i < |x.table|
    ensures var h := Home(hash, key, |x.table|);
      var p := FirstStop(x.table, h, key, 0);
      x.table[i].key == key <==> p < MAX_PROBE && At(h, p, |x.table|) == i && x.table[i].key != 0
  {
    hide Slot;
    hide At;
    hide FirstStop;
    hide FirstDead;
    hide Sum;
    var h := Home(hash, key, |x.table|);
    var p := FirstStop(x.table, h, key, 0);
    if x.table[i].key == key {
      assert Chained(x.table, hash, i);
      var r :| Reaches(x.table, h, r, i);
      assert Stops(x.table[At(h, r, |x.table|)], key);
      assert p <= r;
    }
  }

  lemma KeepsChained(table: seq<Bucket>, hash: nat -> nat, i: nat, b: Bucket, k: nat)
    requires i < |table| && k < |table| && b.key != 0
    requires Chained(table, hash, k)
    requires k == i ==> exists p :: Reaches(table, Home(hash, b.key, |table|), p, i)
    ensures Chained(table[i := b], hash, k)
  {
    hide Slot;
    hide At;
    var h := Home(hash, table[i := b][k].key, |table|);
    if table[i := b][k].key != 0 {
      var p :| Reaches(table, h, p, k);
      assert Reaches(table[i := b], h, p, k);
    }
  }

  /** Writing a bucket for a key that has no other bucket, at the end of an occupied chain. */
  lemma KeepsStructured(x: Index, hash: nat -> nat, p: nat, b: Bucket)
    requires Structured(x, hash) && b.key != 0
    requires var h := Home(hash, b.key, |x.table|); Reaches(x.table, h, p, At(h, p, |x.table|))
    requires forall j :: 0 <= j < |x.table| && x.table[j].key == b.key ==>
        j == At(Home(hash, b.key, |x.table|), p, |x.table|)
    ensures var i := At(Home(hash, b.key, |x.table|), p, |x.table|);
      Structured(x.(table := x.table[i := b], live := if x.table[i].key == 0 then x.live + 1 else x.live), hash)
  {
    hide Slot;
    hide At;
    var i := At(Home(hash, b.key, |x.table|), p, |x.table|);
    var after := x.table[i := b];
    SumUpdate(x.table, i, b, OccupiedOf);
    forall k | 0 <= k < |after| ensures Chained(after, hash, k) {
      KeepsChained(x.table, hash, i, b, k);
    }
  }

  /** Every upsert keeps the structure, whatever the ring's cells, the ticket and the slot. */
  lemma UpsertStructured(x: Index, hash: nat -> nat, cells: seq<Cell>, key: nat, ticket: nat, slot: nat)
    requires Structured(x, hash) && key != 0
    ensures var x' := Upserted(x, cells, Home(hash, key, |x.table|), key, ticket, slot);
      Structured(x', hash) && |x'.table| == |x.table|
  {
    hide Slot;
    hide At;
    hide FirstStop;
    hide FirstDead;
    hide Sum;
    var h := Home(hash, key, |x.table|);
    var p, d := FirstStop(x.table, h, key, 0), FirstDead(x.table, cells, h, 0);
    forall j | 0 <= j < |x.table| && x.table[j].key == key ensures p < MAX_PROBE && j == At(h, p, |x.table|) {
      FindsExactly(x, hash, key, j);
    }
    if p < MAX_PROBE {
      var i := At(h, p, |x.table|);
      assert Reaches(x.table, h, p, i);
      KeepsStructured(x, hash, p, if x.table[i].key == 0 then Bucket(key, ticket, slot)
          else Raised(x.table[i], ticket, slot));
    } else if d < MAX_PROBE {
      assert forall j :: 0 <= j < d ==> !Stops(x.table[At(h, j, |x.table|)], key);
      assert !Stops(x.table[At(h, d, |x.table|)], key);
      assert Reaches(x.table, h, d, At(h, d, |x.table|));
      KeepsStructured(x, hash, d, Bucket(key, ticket, slot));
    }
  }

  // ----------------------------------------------------------------- runs of upserts

  /** An upsert together with the ring's cells at that moment. */
  datatype Call = Call(cells: seq<Cell>, key: nat, ticket: nat, slot: nat)

  /** The index after a run of upserts; one for key 0 is refused. */
  function After(x: Index, hash: nat -> nat, calls: seq<Call>): (x': Index)
    requires 0 < |x.table|
    ensures |x'.table| == |x.table|
  {
    if |calls| == 0 then x
    else
      var c, y := calls[|calls| - 1], After(x, hash, calls[..|calls| - 1]);
      if c.key == 0 then y else Upserted(y, c.cells, Home(hash, c.key, |y.table|), c.key, c.ticket, c.slot)
  }

  /** initIndex's table. */
  function Empty(buckets: nat): Index {
    Index(seq(buckets, i => Bucket(0, 0, 0)), 0, 0, 0, 0)
  }

  /** After any run of upserts from an empty table, with any ring contents, the table is structured. */
  lemma {:induction false} RunStructured(buckets: nat, hash: nat -> nat, calls: seq<Call>)
    requires 0 < buckets
    ensures Structured(After(Empty(buckets), hash, calls), hash)
  {
    if |calls| == 0 {
      SumZero(Empty(buckets).table, OccupiedOf);
    } else {
      var c, y := calls[|calls| - 1], After(Empty(buckets), hash, calls[..|calls| - 1]);
      RunStructured(buckets, hash, calls[..|calls| - 1]);
      if c.key != 0 {
        UpsertStructured(y, hash, c.cells, c.key, c.ticket, c.slot);
      }
    }
  }

  /** Throughout the run, bucket i belongs to the key: nobody reclaims it. */
  ghost predicate Keeps(x: Index, hash: nat -> nat, calls: seq<Call>, i: nat, key: nat)
    requires i < |x.table|
  {
    && After(x, hash, calls).table[i].key == key
    && (|calls| > 0 ==> Keeps(x, hash, calls[..|calls| - 1], i, key))
  }

  /**
   An upsert changes the bucket of a key it leaves in place only by raising its pair, and only if it is for that key.
   */
  lemma UpsertOnKept(x: Index, hash: nat -> nat, c: Call, i: nat, key: nat)
    requires Structured(x, hash) && key != 0 && c.key != 0 && i < |x.table| && x.table[i].key == key
    requires Upserted(x, c.cells, Home(hash, c.key, |x.table|), c.key, c.ticket, c.slot).table[i].key == key
    ensures Upserted(x, c.cells, Home(hash, c.key, |x.table|), c.key, c.ticket, c.slot).table[i]
         == if c.key == key then Raised(x.table[i], c.ticket, c.slot) else x.table[i]
  {
    hide Structured;
    hide FirstStop;
    hide FirstDead;
    FindsExactly(x, hash, c.key, i);
  }

  /** The pair a bucket ends up with if it starts as b and only ever moves forward. */
  function Best(b: Bucket, calls: seq<Call>): Bucket {
    if |calls| == 0 then b
    else
      var c, best := calls[|calls| - 1], Best(b, calls[..|calls| - 1]);
      if c.key == b.key then Raised(best, c.ticket, c.slot) else best
  }

  lemma {:induction false} BestIsLargest(b: Bucket, calls: seq<Call>)
    ensures var best := Best(b, calls);
      && best.key == b.key && b.ticket <= best.ticket
      && (forall c :: c in calls && c.key == b.key ==> c.ticket <= best.ticket)
      && (best == b || exists c :: c in calls && c.key == b.key && best == Bucket(c.key, c.ticket, c.slot))
  {
    if |calls| > 0 {
      var rest, c := calls[..|calls| - 1], calls[|calls| - 1];
      BestIsLargest(b, rest);
      assert calls == rest + [c];
      var best := Best(b, calls);
      if c.key == b.key && Best(b, rest).ticket < c.ticket {
        assert best == Bucket(c.key, c.ticket, c.slot);
      } else if Best(b, rest) != b {
        var c' :| c' in rest && c'.key == b.key && Best(b, rest) == Bucket(c'.key, c'.ticket, c'.slot);
        assert c' in calls;
      }
    }
  }

  lemma {:induction false} KeptIsBest(x: Index, hash: nat -> nat, calls: seq<Call>, i: nat, key: nat)
    requires Structured(x, hash) && key != 0 && i < |x.table| && Keeps(x, hash, calls, i, key)
    ensures Structured(After(x, hash, calls), hash)
    ensures x.table[i].key == key && After(x, hash, calls).table[i] == Best(x.table[i], calls)
  {
    if |calls| > 0 {
      var rest, c := calls[..|calls| - 1], calls[|calls| - 1];
      KeptIsBest(x, hash, rest, i, key);
      BestIsLargest(x.table[i], rest);
      if c.key != 0 {
        UpsertStructured(After(x, hash, rest), hash, c.cells, c.key, c.ticket, c.slot);
        UpsertOnKept(After(x, hash, rest), hash, c, i, key);
      }
    }
  }

  /**
   Upserts of a key whose bucket is not reclaimed, in any ticket order and mixed with upserts of other keys, leave in
   the bucket the pair with the largest ticket.
   */
  lemma LargestTicketWins(x: Index, hash: nat -> nat, calls: seq<Call>, i: nat)
    requires Structured(x, hash) && i < |x.table| && x.table[i].key != 0
    requires Keeps(x, hash, calls, i, x.table[i].key)
    ensures var b, b' := x.table[i], After(x, hash, calls).table[i];
      && b.ticket <= b'.ticket
      && (forall c :: c in calls && c.key == b.key ==> c.ticket <= b'.ticket)
      && (b' == b || exists c :: c in calls && c.key == b.key && b' == Bucket(c.key, c.ticket, c.slot))
  {
    KeptIsBest(x, hash, calls, i, x.table[i].key);
    BestIsLargest(x.table[i], calls);
  }

  // ----------------------------------------------------------------- lookup

  /** What lookup answers from the table and the cells, for a key that hashes to bucket h. */
  function Resolve(table: seq<Bucket>, cells: seq<Cell>, payloadCap: nat, h: nat, key: nat): Result<Record>
    requires 0 < |table|
  {
    var p := FirstStop(table, h, key, 0);
    if p == MAX_PROBE then Err(ErrNotFound)
    else
      var b := table[At(h, p, |table|)];
      if b.key == 0 || b.ticket == 0 || b.slot >= |cells| then Err(ErrNotFound)
      else
        var c := cells[b.slot];
        if c.key != key || c.flags % 2 == 0 || |c.payload| > payloadCap then Err(ErrNotFound)
        else Ok(Record(c.ticket, c.timestamp, key, c.epoch, b.slot, c.flags, c.checksum, c.payload))
  }

  // ----------------------------------------------------------------- the table in place

  class KeyIndex {
    const hash: nat -> nat
    const table: array<Bucket>
    var live: nat
    var collides: nat
    var overflows: nat
    var reclaims: nat

    ghost function View(): Index
      reads this, table
    {
      Index(table[..], live, collides, overflows, reclaims)
    }

    ghost predicate Valid()
      reads this, table
    {
      Structured(View(), hash)
    }

    /** The loop of initIndex: every bucket starts out empty. */
    constructor (hash: nat -> nat, buckets: nat)
      requires IsPow2(buckets)
      ensures Valid() && fresh(table) && table.Length == buckets && this.hash == hash
      ensures View() == Empty(buckets)
    {
      this.hash := hash;
      table := new Bucket[buckets];
      live, collides, overflows, reclaims := 0, 0, 0, 0;
      new;
      for i := 0 to buckets
        invariant forall j :: 0 <= j < i ==> table[j] == Bucket(0, 0, 0)
        invariant live == collides == overflows == reclaims == 0
      {
        table[i] := Bucket(0, 0, 0);
      }
      assert table[..] == Empty(buckets).table;
      RunStructured(buckets, hash, []);
    }

    /** initIndex, for a table whose bucket 0 is at address base. */
    static method Init(base: nat, hash: nat -> nat, buckets: nat) returns (res: Result<KeyIndex>)
      ensures res.Ok? <==> IsPow2(buckets) && IsAligned(base, 64)
      ensures res.Err? ==> res.error == ErrConfig
      ensures res.Ok? ==> var x := res.value;
        && fresh(x) && fresh(x.table) && x.Valid() && x.View() == Empty(buckets) && x.hash == hash
    {
      if buckets == 0 || !IsPow2(buckets) {
        return Err(ErrConfig);
      }
      if !IsAligned(base, 64) {
        return Err(ErrConfig);
      }
      var x := new KeyIndex(hash, buckets);
      return Ok(x);
    }

    /** upsert: pass 1 looks for the key or an empty bucket, pass 2 recycles a dead one; a second attempt may follow. */
    method Upsert(key: nat, ticket: nat, slot: nat, r: Ring) returns (res: Result<()>)
      requires Valid()
      modifies this, table
      ensures Valid()
      ensures key == 0 ==> res == Err(ErrConfig) && View() == old(View())
      ensures key != 0 ==>
        var h := Home(hash, key, table.Length);
        && View() == Upserted(old(View()), r.cells[..], h, key, ticket, slot)
        && (res.Ok? <==> Succeeds(old(table[..]), r.cells[..], h, key))
        && (res.Err? ==> res.error == ErrIndexFull)
      ensures overflows == old(overflows) + if res == Err(ErrIndexFull) then 1 else 0
      ensures key != 0 ==> (res.Err? <==> forall j :: 0 <= j < 16 ==>
        var b := old(table[..])[At(Home(hash, key, table.Length), j, table.Length)];
        b.key != 0 && b.key != key && b.slot < r.cells.Length && r.cells[b.slot].key == b.key)
    {
      hide Upserted;
      hide Succeeds;
      hide At;
      hide Home;
      hide FirstStop;
      hide FirstDead;
      hide Slot;
      hide Chained;
      hide Sum;
      if key == 0 {
        return Err(ErrConfig);
      }
      var h := Home(hash, key, table.Length);
      UpsertStructured(View(), hash, r.cells[..], key, ticket, slot);
      FailsExactly(table[..], r.cells[..], h, key);
      var done := Attempts(h, key, ticket, slot, r);
      return if done then Ok(()) else Err(ErrIndexFull);
    }

    /** Up to two attempts; failure is counted. */
    method Attempts(h: nat, key: nat, ticket: nat, slot: nat, r: Ring) returns (done: bool)
      requires 0 < table.Length
      modifies this, table
      ensures View() == Upserted(old(View()), r.cells[..], h, key, ticket, slot)
      ensures done <==> Succeeds(old(table[..]), r.cells[..], h, key)
      ensures overflows == old(overflows) + if done then 0 else 1
    {
      hide FirstStop;
      hide FirstDead;
      hide At;
      ghost var x, cells := View(), r.cells[..];
      var attempt, retry := 0, true;
      while attempt < 2 && retry
        invariant View() == x && r.cells[..] == cells
        invariant attempt == 0 ==> retry
        invariant attempt > 0 ==> !retry && !Succeeds(x.table, cells, h, key)
        decreases 2 - attempt
      {
        done, retry := Attempt(h, key, ticket, slot, r);
        if done {
          return true;
        }
        attempt := attempt + 1;
      }
      overflows := overflows + 1;
      return false;
    }

    /** Both passes, once. */
    method Attempt(h: nat, key: nat, ticket: nat, slot: nat, r: Ring) returns (done: bool, retry: bool)
      requires 0 < table.Length
      modifies this, table
      ensures !retry && (done <==> Succeeds(old(table[..]), r.cells[..], h, key))
      ensures View() == if done then Upserted(old(View()), r.cells[..], h, key, ticket, slot) else old(View())
    {
      hide At;
      hide FirstStop;
      hide FirstDead;
      done := FindOrInsert(h, key, ticket, slot, r.cells[..]);
      if done {
        return true, false;
      }
      done, retry := Recycle(h, key, ticket, slot, r);
    }

    /** Pass 1: fill the first empty bucket of the chain, or raise the key's own bucket, whichever comes first. */
    method FindOrInsert(h: nat, key: nat, ticket: nat, slot: nat, ghost cells: seq<Cell>) returns (done: bool)
      requires 0 < table.Length
      modifies this`live, this`collides, table
      ensures done <==> FirstStop(old(table[..]), h, key, 0) < MAX_PROBE
      ensures View() == if done then Upserted(old(View()), cells, h, key, ticket, slot) else old(View())
    {
      hide At;
      hide FirstStop;
      hide FirstDead;
      for probe := 0 to MAX_PROBE
        invariant View() == old(View())
        invariant FirstStop(table[..], h, key, 0) == FirstStop(table[..], h, key, probe)
      {
        ProbeOne(table[..], cells, h, key, probe);
        var i := At(h, probe, table.Length);
        var cur := table[i].key;
        if cur == 0 {
          Fill(i, key, ticket, slot);
          live := live + 1;
          collides := collides + probe;
          return true;
        }
        if cur == key {
          UpdateMonotonic(i, ticket, slot);
          collides := collides + probe;
          return true;
        }
      }
      return false;
    }

    /** Pass 2: recycle the first dead bucket of the chain; ask for a retry on meeting the key or an empty bucket. */
    method Recycle(h: nat, key: nat, ticket: nat, slot: nat, r: Ring) returns (done: bool, retry: bool)
      requires 0 < table.Length
      modifies this`reclaims, table
      ensures FirstStop(old(table[..]), h, key, 0) == MAX_PROBE ==>
        && !retry
        && (done <==> FirstDead(old(table[..]), r.cells[..], h, 0) < MAX_PROBE)
        && View() == if done then Upserted(old(View()), r.cells[..], h, key, ticket, slot) else old(View())
    {
      hide At;
      hide FirstStop;
      hide FirstDead;
      for probe := 0 to MAX_PROBE
        invariant View() == old(View())
        invariant FirstStop(table[..], h, key, 0) == FirstStop(table[..], h, key, probe)
        invariant FirstDead(table[..], r.cells[..], h, 0) == FirstDead(table[..], r.cells[..], h, probe)
      {
        ProbeOne(table[..], r.cells[..], h, key, probe);
        var i := At(h, probe, table.Length);
        var cur := table[i].key;
        if cur == 0 || cur == key {
          return false, true;
        }
        var dead := IsDead(i, cur, r);
        if dead {
          Fill(i, key, ticket, slot);
          reclaims := reclaims + 1;
          return true, false;
        }
      }
      return false, false;
    }

    /** The bucket's key first, then the slot, then the ticket that readers wait for. */
    method Fill(i: nat, key: nat, ticket: nat, slot: nat)
      requires i < table.Length
      modifies table
      ensures table[..] == old(table[..])[i := Bucket(key, ticket, slot)]
    {
      table[i] := table[i].(key := key);
      table[i] := table[i].(slot := slot);
      table[i] := table[i].(ticket := ticket);
    }

    /** isDead, for the entry of the given key in bucket i. */
    method IsDead(i: nat, entryKey: nat, r: Ring) returns (dead: bool)
      requires i < table.Length && table[i].key == entryKey
      ensures dead == Dead(table[i], r.cells[..])
    {
      var slot := table[i].slot;
      if slot >= r.cells.Length {
        return true;
      }
      return r.cells[slot].key != entryKey;
    }

    /** updateMonotonic: an older ticket never replaces a newer one. */
    method UpdateMonotonic(i: nat, ticket: nat, slot: nat)
      requires i < table.Length
      modifies table
      ensures table[..] == old(table[..])[i := Raised(old(table[i]), ticket, slot)]
      ensures old(table[i]).ticket >= ticket ==> table[..] == old(table[..])
      ensures old(table[i]).ticket < ticket ==>
        table[..] == old(table[..])[i := Bucket(old(table[i]).key, ticket, slot)]
    {
      var cur := table[i].ticket;
      if cur >= ticket {
        return;
      }
      table[i] := table[i].(ticket := ticket);
      table[i] := table[i].(slot := slot);
    }

    /** lookup: the first bucket of the chain that holds the key decides, and its cell must confirm. */
    method Lookup(key: nat, r: Ring) returns (res: Result<Record>)
      requires 0 < table.Length
      ensures res == if key == 0 then Err(ErrConfig)
                     else Resolve(table[..], r.cells[..], r.payloadCap, Home(hash, key, table.Length), key)
      ensures key != 0 && res.Err? ==> res.error == ErrNotFound
      ensures res.Ok? ==> var rec := res.value;
        && rec.slot < r.cells.Length && rec.key == key && rec.flags % 2 == 1 && |rec.payload| <= r.payloadCap
        && var c := r.cells[rec.slot];
           && c.key == key && rec.ticket == c.ticket && rec.timestamp == c.timestamp && rec.epoch == c.epoch
           && rec.flags == c.flags && rec.checksum == c.checksum && rec.payload == c.payload
      ensures res.Ok? ==> exists p ::
        && 0 <= p < 16
        && var b := table[At(Home(hash, key, table.Length), p, table.Length)];
           b.key == key && b.ticket != 0 && b.slot == res.value.slot
    {
      if key == 0 {
        return Err(ErrConfig);
      }
      var h := Home(hash, key, table.Length);
      for probe := 0 to MAX_PROBE
        invariant FirstStop(table[..], h, key, 0) == FirstStop(table[..], h, key, probe)
      {
        var i := At(h, probe, table.Length);
        var cur := table[i].key;
        if cur == 0 {
          return Err(ErrNotFound);
        }
        if cur == key {
          var ticket := table[i].ticket;
          if ticket == 0 {
            return Err(ErrNotFound);
          }
          var slot := table[i].slot;
          if slot >= r.cells.Length {
            return Err(ErrNotFound);
          }
          var c := r.cells[slot];
          if c.key != key || c.flags % 2 == 0 || |c.payload| > r.payloadCap {
            return Err(ErrNotFound);
          }
          return Ok(Record(c.ticket, c.timestamp, key, c.epoch, slot, c.flags, c.checksum, c.payload));
        }
      }
      return Err(ErrNotFound);
    }
  }
}
