/**
 The engine as a sequential object: Publish, Lookup, Drain, a worker's final drain and Close, each running to completion
 before the next. Shards and their parts are updated in place.
 */
module Vaultages {
  import opened Bits
  import opened Checksums
  import opened Configs
  import opened Errors
  import opened Gates
  import opened Hysteresis
  import opened IndexAgreement
  import opened KeyIndexes
  import opened Records
  import opened Saturation
  import opened SequenceRing
  import opened Shards
  import opened Slots

  class Vaultage {
    const hash: nat -> nat
    const shards: seq<Shard>
    const valve: Gate
    const capacity: nat
    const payloadCap: nat
    const epoch: nat
    const checksums: bool
    var ticket: nat
    var running: bool
    var dropped: nat
    var saturated: nat

    /** route: the avalanched key, masked to a shard number. */
    function Route(key: nat): (i: nat)
      requires 0 < |shards|
      ensures i < |shards|
    {
      Slot(hash(key), |shards|)
    }

    /** With a power of two of shards, that is the hash masked with one less. */
    lemma RouteMasks(key: nat)
      requires 0 < |shards| && IsPow2(|shards|)
      ensures And(hash(key), |shards| - 1) == Route(key)
    {
      var k := IsPow2Sound(|shards|);
      MaskIsMod(hash(key), k);
      hide And;
    }

    // --------------------------------------------------------------- the state as a value

    ghost function Objects(): set<object> {
      set i, o | 0 <= i < |shards| && o in shards[i].Footprint() :: o
    }

    /** No two shards have any part in common. */
    ghost predicate Separate() {
      forall i, j :: 0 <= i < j < |shards| ==> shards[i].Footprint() !! shards[j].Footprint()
    }

    /** Every record of shard i was routed there, bears a ticket already issued, and is stamped with its checksum. */
    ghost predicate Stamped(log: seq<Request>, i: nat, upTo: nat) {
      && 0 < |shards|
      && forall p :: 0 <= p < |log| ==>
        Route(log[p].key) == i && log[p].ticket <= upTo && log[p].checksum == Stamp(checksums, log[p].payload)
    }

    ghost predicate ShardOk(sh: Shard, i: nat, upTo: nat)
      reads sh`ingested, sh`consumed, sh`indexed, sh.ring, sh.ring.cells, sh.index, sh.index.table
    {
      && sh.Valid()
      && sh.ring.capacity == capacity && sh.ring.payloadCap == payloadCap && sh.ring.epoch == epoch
      && sh.index.hash == hash
      && Stamped(sh.ring.log, i, upTo)
    }

    /** Every ticket in a ring is at most upTo. */
    ghost predicate ValidUpTo(upTo: nat)
      reads valve, Objects()
    {
      && 0 < |shards| < TWO63 && IsPow2(|shards|) && 0 < capacity
      && Separate() && valve.Valid()
      && forall i :: 0 <= i < |shards| ==>
        assert shards[i].Footprint() <= Objects();
        ShardOk(shards[i], i, upTo)
    }

    ghost predicate Valid()
      reads this, valve, Objects()
    {
      ValidUpTo(ticket)
    }

    ghost function States(): (states: seq<Latch>)
      reads shards
      ensures |states| == |shards| && forall i :: 0 <= i < |shards| ==> states[i] == shards[i].State()
    {
      seq(|shards|, i requires 0 <= i < |shards| reads shards => shards[i].State())
    }

    ghost function Counter(): Valve
      reads this, valve
    {
      Valve(saturated, valve.closed, valve.closes, running)
    }

    function Marks(): Limits { Limits(valve.highPct, valve.lowPct, capacity) }

    /** The sequential invariant of latches, counter and gate; see Saturation. */
    ghost predicate Steady()
      reads this, valve, shards
    {
      Saturation.Steady(States(), Counter(), Marks())
    }

    // --------------------------------------------------------------- construction

    /** New, for a configuration that normalize has accepted: every shard empty, the gate open. */
    constructor (hash: nat -> nat, count: nat, cells: nat, buckets: nat, payloadCap: nat, high: nat, low: nat,
                 checksums: bool, epoch: nat)
      requires 0 < count < TWO63 && IsPow2(count) && IsPow2(cells) && IsPow2(buckets) && 0 < cells <= buckets
      requires low < high <= 100
      ensures Valid() && Steady() && running && ticket == dropped == saturated == 0 && fresh(valve) && fresh(Objects())
      ensures valve.highPct == high && valve.lowPct == low && this.payloadCap == payloadCap && !valve.closed
      ensures this.hash == hash && this.checksums == checksums && this.epoch == epoch
      ensures |shards| == count && capacity == cells
      ensures forall i :: 0 <= i < count ==>
        shards[i].index.table.Length == buckets && Untouched(shards[i], hash, cells, buckets, payloadCap, epoch)
    {
      hide Shard.Valid;
      hide Shard.Footprint;
      hide SteadyBut;
      hide IsPow2;
      hide Ring.OccupancyPct;
      var all := Vaultage.Build(hash, count, cells, buckets, payloadCap, epoch);
      shards := all;
      valve := new Gate(high, low);
      this.hash, capacity, this.payloadCap, this.epoch, this.checksums := hash, cells, payloadCap, epoch, checksums;
      ticket, running, dropped, saturated := 0, true, 0, 0;
      new;
      BuiltValid(cells, buckets);
      InitSteady(States(), Counter(), Marks());
    }

    /** Shards fresh from Build make a valid engine, with every latch as at the start. */
    lemma BuiltValid(cells: nat, buckets: nat)
      requires 0 < |shards| < TWO63 && IsPow2(|shards|) && 0 < capacity == cells && valve.Valid() && Separate()
      requires forall i :: 0 <= i < |shards| ==>
        shards[i].Valid() && Untouched(shards[i], hash, cells, buckets, payloadCap, epoch)
      ensures ValidUpTo(0)
      ensures forall i :: 0 <= i < |shards| ==> States()[i] == Latch(false, 0, 0, 0, 0)
    {
      hide Shard.Valid;
      hide Shard.Footprint;
      hide IsPow2;
      forall i | 0 <= i < |shards| ensures ShardOk(shards[i], i, 0) {
      }
    }

    /** The first of the arenas 0 to count that is not obtained. */
    static ghost predicate FirstRefusal(arena: nat -> Result<()>, count: nat, j: nat) {
      j <= count && arena(j).Err? && forall i :: 0 <= i < j ==> arena(i).Ok?
    }

    /** The control arena, and then arena after arena with its ring and index; an index of no buckets is refused. */
    static method MapAll(count: nat, buckets: nat, arena: nat -> Result<()>) returns (res: Result<()>)
      requires 0 < count
      ensures res.Ok? <==> 0 < buckets && forall j :: 0 <= j <= count ==> arena(j).Ok?
      ensures res.Err? ==>
        || (exists j :: FirstRefusal(arena, count, j) && res.error == arena(j).error && (j <= 1 || 0 < buckets))
        || (res.error == ErrConfig && arena(0).Ok? && arena(1).Ok? && buckets == 0)
    {
      if arena(0).Err? {
        assert FirstRefusal(arena, count, 0);
        return Err(arena(0).error);
      }
      for i := 0 to count
        invariant forall j :: 0 <= j <= i ==> arena(j).Ok?
        invariant 0 < i ==> 0 < buckets
      {
        if arena(1 + i).Err? {
          assert FirstRefusal(arena, count, 1 + i);
          return Err(arena(1 + i).error);
        }
        if buckets == 0 {
          return Err(ErrConfig);
        }
      }
      return Ok(());
    }

    /** New past normalize: the arenas, and then the engine. */
    static method Open(hash: nat -> nat, count: nat, cells: nat, perCell: nat, payloadCap: nat, high: nat, low: nat,
        checksums: bool, epoch: nat, arena: nat -> Result<()>)
      returns (res: Result<Vaultage>)
      requires 0 < count < TWO63 && IsPow2(count) && IsPow2(cells) && IsPow2(perCell) && low < high <= 100
      requires 0 < cells < TWO64 && 0 < perCell < TWO64
      ensures res.Ok? <==> cells * perCell < TWO64 && forall j :: 0 <= j <= count ==> arena(j).Ok?
      ensures res.Err? ==>
        || (exists j :: FirstRefusal(arena, count, j) && res.error == arena(j).error
              && (j <= 1 || cells * perCell < TWO64))
        || (res.error == ErrConfig && arena(0).Ok? && arena(1).Ok? && TWO64 <= cells * perCell)
      ensures res.Ok? ==> var v := res.value;
        && fresh(v) && fresh(v.valve) && fresh(v.Objects()) && v.Valid() && v.Steady() && v.running && v.ticket == 0
        && |v.shards| == count && v.capacity == cells && v.payloadCap == payloadCap
        && v.valve.highPct == high && v.valve.lowPct == low && !v.valve.closed
        && v.hash == hash && v.checksums == checksums && v.epoch == epoch && v.dropped == v.saturated == 0
        && forall i :: 0 <= i < count ==>
             && v.shards[i].index.table.Length == cells * perCell
             && Untouched(v.shards[i], hash, cells, v.shards[i].index.table.Length, payloadCap, epoch)
    {
      hide IsPow2;
      hide Pow2;
      hide Word64;
      hide SteadyBut;
      hide Shard.Footprint;
      hide Untouched;
      hide FirstRefusal;
      hide Vaultage.ValidUpTo;
      hide Vaultage.Objects;
      ProductIsPow2(cells, perCell);
      ProductWraps(cells, perCell);
      var buckets := Word64(cells * perCell);
      var mapped := Vaultage.MapAll(count, buckets, arena);
      if mapped.Err? {
        return Err(mapped.error);
      }
      var v := new Vaultage(hash, count, cells, buckets, payloadCap, high, low, checksums, epoch);
      return Ok(v);
    }

    /**
     New: a refused configuration builds nothing; an accepted one yields a fresh, steady engine of that shape if every
     arena is obtained and the number of buckets of a shard, computed as a 64-bit word, has not wrapped to zero. Arena 0
     is the control arena and arena 1 + i that of shard i; the first failure decides the error.
     */
    static method New(cfg: Config, processors: nat, hash: nat -> nat, checksums: bool, epoch: nat,
        arena: nat -> Result<()>)
      returns (res: Result<Vaultage>)
      requires 0 < processors <= 0x4000_0000_0000_0000 && cfg.shards <= 0x4000_0000_0000_0000
      requires cfg.cellsPerShard < TWO64 && cfg.indexBucketsPerCell < TWO64
      modifies cfg
      ensures res.Ok? <==>
        && cfg.Normal() && cfg.cellsPerShard * cfg.indexBucketsPerCell < TWO64
        && forall j :: 0 <= j <= cfg.shards ==> arena(j).Ok?
      ensures res.Err? && !cfg.Normal() ==> res.error == ErrConfig
      ensures res.Err? && cfg.Normal() ==>
        || (exists j :: FirstRefusal(arena, cfg.shards, j) && res.error == arena(j).error
              && (j <= 1 || cfg.cellsPerShard * cfg.indexBucketsPerCell < TWO64))
        || (res.error == ErrConfig && arena(0).Ok? && arena(1).Ok?
              && TWO64 <= cfg.cellsPerShard * cfg.indexBucketsPerCell)
      ensures res.Ok? ==> var v := res.value;
        && fresh(v) && fresh(v.valve) && fresh(v.Objects()) && v.Valid() && v.Steady() && v.running && v.ticket == 0
        && |v.shards| == cfg.shards && v.capacity == cfg.cellsPerShard && v.payloadCap == cfg.payloadCapacity
        && v.valve.highPct == cfg.highWaterPct && v.valve.lowPct == cfg.lowWaterPct && !v.valve.closed
        && v.hash == hash && v.checksums == checksums && v.epoch == epoch && v.dropped == v.saturated == 0
        && forall i :: 0 <= i < cfg.shards ==>
             && v.shards[i].index.table.Length == cfg.cellsPerShard * cfg.indexBucketsPerCell
             && Untouched(v.shards[i], hash, cfg.cellsPerShard, v.shards[i].index.table.Length,
                          cfg.payloadCapacity, epoch)
    {
      hide IsPow2;
      hide Pow2;
      hide Untouched;
      hide FirstRefusal;
      hide Config.Normal;
      hide Vaultage.Valid;
      hide Vaultage.Steady;
      hide Vaultage.Objects;
      var normal := cfg.Normalize(processors);
      if normal.Err? {
        return Err(normal.error);
      }
      NormalMeans(cfg);
      res := Vaultage.Open(hash, cfg.shards, cfg.cellsPerShard, cfg.indexBucketsPerCell, cfg.payloadCapacity,
                           cfg.highWaterPct, cfg.lowWaterPct, checksums, epoch, arena);
    }

    /** The shards of a fresh engine. */
    static method Build(hash: nat -> nat, count: nat, cells: nat, buckets: nat, payloadCap: nat, epoch: nat)
      returns (all: seq<Shard>)
      requires IsPow2(cells) && IsPow2(buckets) && cells <= buckets
      ensures |all| == count
      ensures forall j :: 0 <= j < count ==> fresh(all[j].Footprint()) && all[j].Valid()
      ensures forall j :: 0 <= j < count ==> Untouched(all[j], hash, cells, buckets, payloadCap, epoch)
      ensures forall j, k :: 0 <= j < k < count ==> all[j].Footprint() !! all[k].Footprint()
    {
      hide Shard.Sound;
      all := [];
      for i := 0 to count
        invariant |all| == i
        invariant forall j :: 0 <= j < i ==> fresh(all[j].Footprint()) && all[j].Valid()
        invariant forall j :: 0 <= j < i ==> Untouched(all[j], hash, cells, buckets, payloadCap, epoch)
        invariant forall j, k :: 0 <= j < k < i ==> all[j].Footprint() !! all[k].Footprint()
      {
        var sh := new Shard(hash, cells, buckets, payloadCap, epoch);
        all := all + [sh];
      }
    }

    // --------------------------------------------------------------- the latch

    /** What the gauge reads on shard k. */
    lemma OccupancyIs(k: nat)
      requires Valid() && k < |shards|
      ensures shards[k].ring.capacity == capacity > 0
      ensures var l := States()[k];
        l.consumed <= l.ingested && shards[k].ring.OccupancyPct() == Percent(l.Pending(), capacity)
    {
      assert ShardOk(shards[k], k, ticket);
      shards[k].PercentIs();
    }

    /** markSaturated. */
    method MarkSaturated(sh: Shard, ghost k: nat)
      requires Valid() && k < |shards| && sh == shards[k]
      modifies sh`hot, sh`heats, this`saturated, valve`closed, valve`closes
      ensures Valid()
      ensures States() == old(States())[k := Heated(old(States())[k])]
      ensures Counter() == Saturation.Shut(old(Counter()), old(sh.hot))
    {
      hide ShardOk;
      if !sh.hot {
        sh.hot := true;
        sh.heats := sh.heats + 1;
        saturated := Word64(saturated + 1);
        var did := valve.Shut();
      }
    }

    /**
     markDrained. After the release the source tests the counter again and shuts the gate if it is not zero; with
     nobody else running it is zero.
     */
    method MarkDrained(sh: Shard, ghost k: nat)
      requires Valid() && k < |shards| && sh == shards[k]
      modifies sh`hot, sh`cools, this`saturated, valve`closed, valve`opens
      ensures Valid()
      ensures CoolsNow(old(States())[k]) ==>
        States() == old(States())[k := Cooled(old(States())[k])] && Counter() == Released(old(Counter()))
      ensures !CoolsNow(old(States())[k]) ==> States() == old(States()) && Counter() == old(Counter())
    {
      hide ShardOk;
      hide Percent;
      hide Ring.OccupancyPct;
      OccupancyIs(k);
      if !sh.hot || sh.ring.OccupancyPct() > valve.lowPct {
        return;
      }
      hide ValidUpTo;
      CoolDown(sh, k);
    }

    method CoolDown(sh: Shard, ghost k: nat)
      requires Valid() && k < |shards| && sh == shards[k] && sh.hot
      modifies sh`hot, sh`cools, this`saturated, valve`closed, valve`opens
      ensures Valid() && States() == old(States())[k := Cooled(old(States())[k])]
          && Counter() == Released(old(Counter()))
    {
      hide ShardOk;
      sh.hot := false;
      sh.cools := sh.cools + 1;
      saturated := Word64(saturated - 1);
      if saturated == 0 {
        var did := valve.Release();
      }
    }

    ghost predicate CoolsNow(l: Latch) { 0 < capacity && l.consumed <= l.ingested && Cools(l, Marks()) }

    // --------------------------------------------------------------- publish

    lemma FreshTicket(k: nat, q: Request)
      requires q.ticket > 0 && ValidUpTo(q.ticket - 1) && k < |shards| && q.key != 0
      ensures shards[k].Valid() && shards[k].ring.capacity == capacity && shards[k].ring.payloadCap == payloadCap
      ensures Stamped(shards[k].ring.log, k, q.ticket - 1) && Ticketed(shards[k].ring.log + [q])
      ensures shards[k].ring.epoch == epoch && shards[k].index.hash == hash
    {
      assert ShardOk(shards[k], k, q.ticket - 1);
    }

    /** The record and its index entry, under a ticket newer than every other. */
    method Enter(sh: Shard, ghost k: nat, q: Request) returns (ok: bool)
      requires 0 < q.ticket && ValidUpTo(q.ticket - 1) && k < |shards| && k == Route(q.key) && sh == shards[k]
      requires q.key != 0 && |q.payload| <= payloadCap && q.checksum == Stamp(checksums, q.payload)
      requires capacity == 1 ==> States()[k].Pending() < 1
      modifies sh`ingested, sh`indexed, sh`rejected, sh.ring, sh.ring.cells, sh.index, sh.index.table
      ensures ValidUpTo(q.ticket)
      ensures ok <==> old(States())[k].Pending() < capacity
      ensures ok ==> sh.Took(q)
      ensures ok ==> States() == old(States())[k := old(States())[k].(ingested := old(States())[k].ingested + 1)]
      ensures !ok ==> sh.Kept() && States() == old(States())
    {
      hide ShardOk;
      hide Shard.Valid;
      hide Shard.Extends;
      hide Ticketed;
      hide Stamped;
      hide Stamp;
      hide Route;
      hide Shard.Sound;
      hide Ring.Sound;
      FreshTicket(k, q);
      ok := sh.Offer(q);
      StillOk(k, old(sh.ring.log), q);
      forall i | 0 <= i < |shards| && i != k ensures ShardOk(shards[i], i, q.ticket) {
        assert shards[i].Footprint() !! sh.Footprint();
        assert old(ShardOk(shards[i], i, q.ticket - 1));
        Later(i, q.ticket - 1, q.ticket);
      }
    }

    /** The ticket, the record and its index entry, or the count of a record dropped after its ticket was drawn. */
    method Append(sh: Shard, ghost k: nat, key: nat, flags: nat, payload: seq<Byte>, now: nat) returns (ok: bool)
      requires Valid() && key != 0 && |payload| <= payloadCap && k < |shards| && k == Route(key) && sh == shards[k]
      requires capacity == 1 ==> States()[k].Pending() < 1
      modifies this`ticket, this`dropped
      modifies sh`ingested, sh`indexed, sh`rejected, sh.ring, sh.ring.cells, sh.index, sh.index.table
      ensures Valid() && ticket == old(ticket) + 1 && dropped == old(dropped) + if ok then 0 else 1
      ensures ok <==> old(States())[k].Pending() < capacity
      ensures ok ==>
        var q := Request(key := key, flags := flags, payload := payload, timestamp := now, ticket := ticket,
                         checksum := if checksums then Folded(Digest(FNV_OFFSET, payload)) else 0);
        sh.ring.log == old(sh.ring.log) + [q] && sh.Took(q)
      ensures ok ==> States() == old(States())[k := old(States())[k].(ingested := old(States())[k].ingested + 1)]
      ensures !ok ==> sh.Kept() && States() == old(States())
    {
      hide ValidUpTo;
      hide Shard.Extends;
      hide Route;
      var sum := SumOf(payload);
      ticket := ticket + 1;
      assert this !in Objects();
      assert ValidUpTo(ticket - 1);
      ok := Enter(sh, k, Request(ticket, now, key, flags, payload, sum));
      if !ok {
        dropped := dropped + 1;
      }
    }

    /** The checksum to store with a payload, if checksums are on. */
    method SumOf(payload: seq<Byte>) returns (sum: nat)
      ensures sum == Stamp(checksums, payload)
    {
      sum := 0;
      if checksums {
        sum := Checksum32(payload);
      }
    }

    /** Shard k after a publish was offered to it. */
    lemma StillOk(k: nat, log: seq<Request>, q: Request)
      requires k < |shards| && q.ticket > 0 && Stamped(log, k, q.ticket - 1)
      requires Route(q.key) == k && q.checksum == Stamp(checksums, q.payload)
      requires shards[k].Valid() && (shards[k].ring.log == log || shards[k].ring.log == log + [q])
      requires shards[k].ring.capacity == capacity && shards[k].ring.payloadCap == payloadCap
      requires shards[k].ring.epoch == epoch && shards[k].index.hash == hash
      ensures ShardOk(shards[k], k, q.ticket)
    {
      hide Shard.Valid;
      hide Slot;
    }

    lemma Later(i: nat, u: nat, v: nat)
      requires i < |shards| && ShardOk(shards[i], i, u) && u <= v
      ensures ShardOk(shards[i], i, v)
    {
      hide Shard.Valid;
      hide Slot;
    }

    /** The saturation test at the end of publish. */
    method Gauge(sh: Shard, ghost k: nat)
      requires Valid() && k < |shards| && sh == shards[k]
      modifies sh`hot, sh`heats, this`saturated, valve`closed, valve`closes
      ensures Valid()
      ensures old(SteadyBut(States(), Counter(), Marks(), k)) ==> Steady()
      ensures sh.hot <==> old(sh.hot) || valve.highPct * capacity <= 100 * old(States())[k].Pending()
      ensures valve.closed <==> old(valve.closed) || (sh.hot && !old(sh.hot))
    {
      hide ShardOk;
      hide SteadyBut;
      hide Percent;
      hide Ring.OccupancyPct;
      ghost var states, counter := States(), Counter();
      OccupancyIs(k);
      PercentAtLeast(states[k].Pending(), capacity, valve.highPct);
      if sh.ring.OccupancyPct() >= valve.highPct {
        MarkSaturated(sh, k);
        if old(SteadyBut(States(), Counter(), Marks(), k)) {
          HeatSteady(states, counter, Marks(), k);
        }
      } else if old(SteadyBut(States(), Counter(), Marks(), k)) {
        BelowSteady(states, counter, Marks(), k);
      }
    }

    /** The rest of publish, once the gate has been found open. */
    method Place(sh: Shard, ghost k: nat, key: nat, flags: nat, payload: seq<Byte>, now: nat) returns (res: Result<nat>)
      requires Valid() && key != 0 && |payload| <= payloadCap && k < |shards| && k == Route(key) && sh == shards[k]
      requires capacity == 1 ==> Steady() && running && !valve.closed
      modifies this`ticket, this`dropped, this`saturated, valve`closed, valve`closes
      modifies sh, sh.ring, sh.ring.cells, sh.index, sh.index.table
      ensures Valid() && ticket == old(ticket) + 1 && dropped == old(dropped) + if res.Ok? then 0 else 1
      ensures res == if old(States())[k].Pending() < capacity then Ok(ticket) else Err(ErrShardFull)
      ensures res.Ok? ==>
        var q := Request(key := key, flags := flags, payload := payload, timestamp := now, ticket := ticket,
                         checksum := if checksums then Folded(Digest(FNV_OFFSET, payload)) else 0);
        sh.ring.log == old(sh.ring.log) + [q] && sh.Took(q)
      ensures res.Err? ==> sh.Kept()
      ensures old(Steady()) && running && !old(valve.closed) ==> Steady() && res.Ok?
      ensures res.Ok? ==>
        var before, after := old(States())[k], States()[k];
        && after.ingested == before.ingested + 1 && after.consumed == before.consumed
        && (after.hot <==> before.hot || valve.highPct * capacity <= 100 * after.Pending())
        && (valve.closed <==> old(valve.closed) || (after.hot && !before.hot))
    {
      hide ValidUpTo;
      hide SteadyBut;
      hide Shard.Extends;
      ghost var before, counter := States(), Counter();
      ghost var steady := Steady() && running && !valve.closed;
      if steady {
        SomeRoom(k);
        IngestSteady(before, counter, Marks(), k);
      }
      var ok := Append(sh, k, key, flags, payload, now);
      if !ok {
        MarkSaturated(sh, k);
        return Err(ErrShardFull);
      }
      Gauge(sh, k);
      return Ok(ticket);
    }

    /** Behind an open gate of a running, steady engine every shard has room. */
    lemma SomeRoom(k: nat)
      requires Valid() && Steady() && running && !valve.closed && k < |shards|
      ensures States()[k].Pending() < capacity
    {
      hide ShardOk;
      OpenMeansRoom(States(), Counter(), Marks(), k);
    }

    /** What publish refuses before it draws a ticket, if anything. */
    ghost predicate Refused(key: nat, payload: seq<Byte>)
      reads this, valve
    {
      key == 0 || |payload| > payloadCap || !running || valve.closed
    }

    /** The refusals of publish, in the order of its tests; the gate counts those it causes. */
    method Allow(key: nat, payload: seq<Byte>) returns (res: Result<()>)
      requires Valid()
      modifies valve`rejects
      ensures Valid() && States() == old(States()) && Counter() == old(Counter()) && Steady() == old(Steady())
      ensures res.Err? <==> Refused(key, payload)
      ensures valve.rejects == old(valve.rejects) + (if res == Err(ErrBackpressure) then 1 else 0)
      ensures res.Err? ==> res.error == if key == 0 then ErrConfig else if |payload| > payloadCap
          then ErrPayloadTooLarge
                                        else if !running then ErrClosed else ErrBackpressure
    {
      hide ShardOk;
      if key == 0 {
        return Err(ErrConfig);
      }
      if |payload| > payloadCap {
        return Err(ErrPayloadTooLarge);
      }
      if !running {
        return Err(ErrClosed);
      }
      if valve.closed {
        valve.Reject();
        return Err(ErrBackpressure);
      }
      return Ok(());
    }

    /** A shard's parts are parts of the engine, and no other shard's. */
    lemma Surround(k: nat)
      requires Valid() && k < |shards|
      ensures shards[k].Footprint() <= Objects()
      ensures forall i :: 0 <= i < |shards| && i != k ==> shards[i].Footprint() !! shards[k].Footprint()
    {
      hide ShardOk;
    }

    /** Publish past its refusals: the record goes to the shard of its key. */
    method Admit(key: nat, flags: nat, payload: seq<Byte>, now: nat) returns (res: Result<nat>)
      requires Valid() && (capacity == 1 ==> Steady()) && !Refused(key, payload)
      modifies this`ticket, this`dropped, this`saturated, valve`closed, valve`closes, Objects()
      ensures Valid() && (old(Steady()) ==> Steady() && res != Err(ErrShardFull)) && ticket == old(ticket) + 1
      ensures res == if old(States())[Route(key)].Pending() < capacity then Ok(ticket) else Err(ErrShardFull)
      ensures res.Ok? ==>
        var sh := shards[Route(key)];
        var q := Request(key := key, flags := flags, payload := payload, timestamp := now, ticket := ticket,
                         checksum := if checksums then Folded(Digest(FNV_OFFSET, payload)) else 0);
        sh.ring.log == old(sh.ring.log) + [q] && sh.Took(q)
      ensures res.Ok? ==>
        var before, after := old(States())[Route(key)], States()[Route(key)];
        && after.ingested == before.ingested + 1 && after.consumed == before.consumed
        && (after.hot <==> before.hot || valve.highPct * capacity <= 100 * after.Pending())
        && (valve.closed <==> after.hot && !before.hot)
      ensures forall i :: 0 <= i < |shards| && (res.Err? || i != Route(key)) ==> shards[i].Kept()
      ensures forall i :: 0 <= i < |shards| && i != Route(key) ==> States()[i] == old(States())[i]
    {
      hide ShardOk;
      hide SteadyBut;
      hide Route;
      hide Slot;
      hide Shard.Extends;
      hide Shard.Valid;
      var sid := Route(key);
      var sh := shards[sid];
      Surround(sid);
      res := Place(sh, sid, key, flags, payload, now);
    }

    /**
     Publish. The gate always trips before a ring fills, so in a steady engine ErrShardFull never happens: a publish
     that passes the gate is accepted under the next ticket and lands at the end of its shard's log, as given. Shards
     of one cell are sound only because of that; every sequential run from New keeps the engine steady.
     */
    method Publish(key: nat, flags: nat, payload: seq<Byte>, now: nat) returns (res: Result<nat>)
      requires Valid() && (capacity == 1 ==> Steady())
      modifies this`ticket, this`dropped, this`saturated, valve`closed, valve`closes, valve`rejects, Objects()
      ensures Valid() && (old(Steady()) ==> Steady() && res != Err(ErrShardFull))
      ensures old(Refused(key, payload)) ==>
        && States() == old(States()) && ticket == old(ticket) && Counter() == old(Counter())
        && valve.rejects == old(valve.rejects) + (if res == Err(ErrBackpressure) then 1 else 0)
        && res == Err(if key == 0 then ErrConfig else if |payload| > payloadCap then ErrPayloadTooLarge
                      else if !old(running) then ErrClosed else ErrBackpressure)
      ensures !old(Refused(key, payload)) ==>
        && ticket == old(ticket) + 1
        && res == if old(States())[Route(key)].Pending() < capacity then Ok(ticket) else Err(ErrShardFull)
      ensures res.Ok? ==>
        var sh := shards[Route(key)];
        var q := Request(key := key, flags := flags, payload := payload, timestamp := now, ticket := ticket,
                         checksum := if checksums then Folded(Digest(FNV_OFFSET, payload)) else 0);
        sh.ring.log == old(sh.ring.log) + [q] && sh.Took(q)
      ensures res.Ok? ==>
        var before, after := old(States())[Route(key)], States()[Route(key)];
        && after.ingested == before.ingested + 1 && after.consumed == before.consumed
        && (after.hot <==> before.hot || valve.highPct * capacity <= 100 * after.Pending())
        && (valve.closed <==> after.hot && !before.hot)
      ensures forall i :: 0 <= i < |shards| && (res.Err? || i != Route(key)) ==> shards[i].Kept()
      ensures forall i :: 0 <= i < |shards| && i != Route(key) ==> States()[i] == old(States())[i]
      ensures Route(key) == And(hash(key), |shards| - 1)
    {
      hide And;
      hide IsPow2;
      hide Pow2;
      hide Route;
      hide SteadyBut;
      hide Shard.Extends;
      hide ShardOk;
      hide Objects;
      RouteMasks(key);
      var allowed := Allow(key, payload);
      if allowed.Err? {
        return Err(allowed.error);
      }
      res := Admit(key, flags, payload, now);
    }

    // --------------------------------------------------------------- lookup

    /** Lookup answers what the log of the key's shard says; the record it returns verifies. */
    method Lookup(key: nat) returns (res: Result<Record>, sid: nat)
      requires Valid()
      ensures sid == Route(key) == And(hash(key), |shards| - 1) && shards[sid].Valid() && res == shards[sid].Answer(key)
      ensures res.Ok? ==> Verifies(res.value)
    {
      sid := Route(key);
      var sh := shards[sid];
      RouteMasks(key);
      ShardFacts(sid);
      hide And;
      hide IsPow2;
      hide ShardOk;
      hide Shard.Valid;
      hide Route;
      hide Slot;
      res := sh.Lookup(key);
    }

    lemma ShardFacts(k: nat)
      requires Valid() && k < |shards|
      ensures shards[k].Valid()
      ensures forall key: nat :: shards[k].Answer(key).Ok? ==> Verifies(shards[k].Answer(key).value)
    {
      assert ShardOk(shards[k], k, ticket);
      var sh := shards[k];
      forall key: nat | sh.Answer(key).Ok? ensures Verifies(sh.Answer(key).value) {
        var q := Newest(sh.ring.log, key);
        assert sh.ring.log[q].checksum == Stamp(checksums, sh.ring.log[q].payload);
      }
    }

    /**
     Of all records of a key, in whatever shard's log, the one with the largest ticket is the newest of its home
     shard.
     */
    lemma NewestIsHome(i: nat, p: nat)
      requires Valid() && i < |shards| && p < |shards[i].ring.log|
      ensures var key := shards[i].ring.log[p].key;
        && i == Route(key)
        && var log, q := shards[Route(key)].ring.log, Newest(shards[Route(key)].ring.log, key);
           p <= q && if p < q then log[p].ticket < log[q].ticket else log[p] == log[q]
    {
      assert ShardOk(shards[i], i, ticket);
      shards[i].InTicketOrder();
      hide Shard.Valid;
    }

    /** After an accepted publish the record with the largest ticket of its key, over all logs, is the one published. */
    twostate lemma PublishedIsNewest(q: Request, i: nat, p: nat)
      requires old(Valid()) && Valid() && q.ticket == ticket && shards[Route(q.key)].Took(q)
      requires i < |shards| && p < |shards[i].ring.log| && shards[i].ring.log[p].key == q.key
      ensures i == Route(q.key) && (shards[i].ring.log[p] == q || shards[i].ring.log[p].ticket < q.ticket)
    {
      NewestIsHome(i, p);
      var log := shards[i].ring.log;
      assert log[|log| - 1] == q && Newest(log, q.key) == |log| - 1;
    }

    // --------------------------------------------------------------- consumption

    lemma QueueFacts(k: nat)
      requires Valid() && k < |shards| && shards[k].Valid()
      ensures |shards[k].Queue()| == States()[k].Pending()
      ensures forall j :: 0 <= j < |shards[k].Queue()| ==> Verifies(shards[k].Queue()[j])
    {
      assert ShardOk(shards[k], k, ticket);
      hide Slot;
      var sh := shards[k];
      forall j | 0 <= j < |sh.Queue()| ensures Verifies(sh.Queue()[j]) {
        assert sh.ring.log[sh.ring.head + j].checksum == Stamp(checksums, sh.ring.log[sh.ring.head + j].payload);
      }
    }

    /** One turn of a consumer: dequeue, run the handler, release, count. */
    method ConsumeFrom(sh: Shard, ghost k: nat) returns (ok: bool, rec: Record)
      requires Valid() && k < |shards| && sh == shards[k] && sh.Valid()
      modifies sh`consumed, sh.ring`head, sh.ring.cells
      ensures Valid() && sh.Valid() && (old(Steady()) ==> Steady())
      ensures ok == (old(sh.Queue()) != [])
      ensures ok ==> old(sh.Queue()) == [rec] + sh.Queue() && Verifies(rec)
      ensures !ok ==> sh.Queue() == old(sh.Queue())
    {
      hide Shard.Valid;
      hide Shard.Queue;
      hide Stamped;
      hide SteadyBut;
      hide Verifies;
      assert ShardOk(sh, k, ticket);
      ghost var states, queue := States(), sh.Queue();
      QueueFacts(k);
      ok, rec := sh.Consume();
      assert ok ==> queue[0] == rec;
      forall i | 0 <= i < |shards| && i != k ensures ShardOk(shards[i], i, ticket) {
        assert shards[i].Footprint() !! sh.Footprint();
        assert old(ShardOk(shards[i], i, ticket));
      }
      assert States() == if ok then states[k := states[k].(consumed := states[k].consumed + 1)] else states;
      if ok && old(Steady()) {
        ConsumeSteady(states, Counter(), Marks(), k);
      }
    }

    /** A hot shard with so many records left stays hot: its rounded-down occupancy is above the low mark. */
    predicate StaysHot(left: nat) { (valve.lowPct + 1) * capacity <= 100 * left }

    /** markDrained keeps a steady engine steady, and leaves a shard hot only above the low mark. */
    method Relax(sh: Shard, ghost k: nat)
      requires Valid() && k < |shards| && sh == shards[k] && sh.Valid()
      modifies sh`hot, sh`cools, this`saturated, valve`closed, valve`opens
      ensures Valid() && sh.Valid() && sh.Queue() == old(sh.Queue()) && (old(Steady()) ==> Steady())
      ensures sh.hot <==> old(sh.hot) && (valve.lowPct + 1) * capacity <= 100 * |sh.Queue()|
    {
      hide ValidUpTo;
      hide Shard.Valid;
      hide SteadyBut;
      hide Percent;
      ghost var states, counter := States(), Counter();
      QueueFacts(k);
      PositiveCapacity(k);
      PercentAtLeast(states[k].Pending(), capacity, valve.lowPct + 1);
      MarkDrained(sh, k);
      if old(Steady()) && CoolsNow(states[k]) {
        CoolSteady(states, counter, Marks(), k);
      }
    }

    lemma PositiveCapacity(k: nat)
      requires Valid() && k < |shards|
      ensures 0 < capacity && States()[k].consumed <= States()[k].ingested
    {
      OccupancyIs(k);
    }

    /** Drain's inner loop on one shard: consume until its ring is empty or the limit is reached. */
    method DrainShard(sh: Shard, ghost k: nat, total: nat, max: int) returns (sum: nat, part: seq<Record>)
      requires Valid() && k < |shards| && sh == shards[k] && sh.Valid() && (max <= 0 || total <= max)
      modifies sh`consumed, sh`hot, sh`cools, sh.ring`head, sh.ring.cells, this`saturated, valve`closed, valve`opens
      ensures Valid() && sh.Valid() && (old(Steady()) ==> Steady())
      ensures old(sh.Queue()) == part + sh.Queue() && sum == total + |part|
      ensures max <= 0 || sum <= max
      ensures sh.Queue() == [] || (0 < max && sum == max)
      ensures sh.hot <==> old(sh.hot) && (valve.lowPct + 1) * capacity <= 100 * |sh.Queue()|
      ensures forall j :: 0 <= j < |part| ==> Verifies(part[j])
    {
      hide ValidUpTo;
      hide Shard.Valid;
      hide Shard.Queue;
      hide Steady;
      hide Verifies;
      sum, part := total, [];
      var ok := true;
      while ok && (max <= 0 || sum < max)
        invariant Valid() && sh.Valid() && (old(Steady()) ==> Steady()) && sh.hot == old(sh.hot)
        invariant old(sh.Queue()) == part + sh.Queue() && sum == total + |part| && (max <= 0 || sum <= max)
        invariant !ok ==> sh.Queue() == []
        invariant forall j :: 0 <= j < |part| ==> Verifies(part[j])
        decreases |sh.Queue()|, ok
      {
        var rec;
        ok, rec := ConsumeFrom(sh, k);
        if ok {
          sum, part := sum + 1, part + [rec];
        }
      }
      Relax(sh, k);
    }

    lemma ShardsValid(i: nat)
      requires Valid() && i < |shards|
      ensures shards[i].Valid() && {shards[i], shards[i].ring, shards[i].ring.cells} <= Objects()
    {
      assert shards[i].Footprint() <= Objects();
      assert ShardOk(shards[i], i, ticket);
    }

    lemma Disjoint(i: nat, k: nat)
      requires Valid() && i < |shards| && k < |shards| && i != k
      ensures Apart(shards[i], shards[k])
    {
      assert shards[i].Footprint() !! shards[k].Footprint();
    }

    /** What Drain leaves of a shard that keeps the given records. */
    function After(view: View, rest: seq<Record>): View {
      view.(queue := rest, hot := view.hot && StaysHot(|rest|))
    }

    /** The shards before |parts| have given parts and keep rests; the later ones are still as in views. */
    ghost predicate Drained(views: seq<View>, parts: seq<seq<Record>>, rests: seq<seq<Record>>)
      reads Objects()
    {
      && |parts| == |rests| <= |views| == |shards|
      && (forall j :: 0 <= j < |parts| ==> views[j].queue == parts[j] + rests[j])
      && (forall j :: 0 <= j < |shards| ==>
        assert shards[j].Footprint() <= Objects();
        shards[j].Shows(if j < |rests| then After(views[j], rests[j]) else views[j]))
    }

    /** Drain's outer loop body. */
    method DrainNext(i: nat, total: nat, max: int, ghost views: seq<View>, ghost parts: seq<seq<Record>>,
        ghost rests: seq<seq<Record>>)
      returns (sum: nat, part: seq<Record>, ghost rest: seq<Record>)
      requires Valid() && Drained(views, parts, rests) && |parts| == i < |shards| && (max <= 0 || total <= max)
      modifies this`saturated, valve`closed, valve`opens, Objects()
      ensures Valid() && (old(Steady()) ==> Steady())
      ensures Drained(views, parts + [part], rests + [rest]) && sum == total + |part|
      ensures (max <= 0 || sum <= max) && (rest == [] || (0 < max && sum == max))
      ensures forall j :: 0 <= j < |part| ==> Verifies(part[j])
    {
      hide ValidUpTo;
      hide Shard.Valid;
      hide Shard.Queue;
      hide Steady;
      hide Verifies;
      hide Shard.Shows;
      hide Shard.Footprint;
      var sh := shards[i];
      forall j | 0 <= j < |shards| && j != i ensures Apart(shards[j], sh) {
        Disjoint(j, i);
      }
      ShardsValid(i);
      assert sh.Shows(views[i]);
      sh.ShowsMeans(views[i]);
      sum, part := DrainShard(sh, i, total, max);
      sh.ShowsIs();
      rest := sh.Queue();
      forall j | 0 <= j < |shards|
          ensures shards[j].Shows(if j <= i then After(views[j], (rests + [rest])[j]) else views[j]) {
        assert j != i ==> old(shards[j].Shows(if j < i then After(views[j], rests[j]) else views[j]));
      }
    }

    /**
     Drain: shard by shard, the oldest records first, until everything is delivered or max records are. Each shard,
     which was as in views, gave parts[i] and keeps rests[i]; it keeps something only if the limit was reached by
     then. No shard becomes hot, and one stays hot only if it is left above the low mark; so a drain without limit
     leaves every shard cold, and the gate of a steady running engine open.
     */
    method Drain(max: int)
      returns (total: nat, delivered: seq<Record>,
               ghost views: seq<View>, ghost parts: seq<seq<Record>>, ghost rests: seq<seq<Record>>)
      requires Valid()
      modifies this`saturated, valve`closed, valve`opens, Objects()
      ensures Valid() && (old(Steady()) ==> Steady())
      ensures |views| == |parts| == |shards| && forall i :: 0 <= i < |shards| ==> old(shards[i].Shows(views[i]))
      ensures Drained(views, parts, rests) && delivered == Flatten(parts) && total == |delivered|
      ensures StopsAtLimit(parts, rests, max, total)
      ensures forall j :: 0 <= j < |delivered| ==> Verifies(delivered[j])
      ensures forall i :: 0 <= i < |shards| ==>
        (shards[i].hot <==> old(shards[i].hot) && (valve.lowPct + 1) * capacity <= 100 * |rests[i]|)
      ensures max <= 0 ==> forall i :: 0 <= i < |shards| ==> rests[i] == [] && !shards[i].hot
      ensures max <= 0 && old(Steady()) && running ==> saturated == 0 && !valve.closed
    {
      hide ValidUpTo;
      hide Objects;
      hide Steady;
      hide Verifies;
      hide StopsAtLimit;
      hide Drained;
      views := Views(|shards|);
      total, delivered, parts, rests := 0, [], [], [];
      NoLimitYet(max);
      StartsDrained(views);
      for i := 0 to |shards|
        invariant Valid() && (old(Steady()) ==> Steady())
        invariant |parts| == |rests| == i && delivered == Flatten(parts) && total == |delivered|
        invariant Drained(views, parts, rests)
        invariant StopsAtLimit(parts, rests, max, total) && (max <= 0 || total <= max)
        invariant forall j :: 0 <= j < |delivered| ==> Verifies(delivered[j])
      {
        var part;
        ghost var rest;
        total, part, rest := DrainNext(i, total, max, views, parts, rests);
        FlattenSnoc(parts, part);
        LimitSnoc(parts, rests, max, total, part, rest);
        delivered := delivered + part;
        parts, rests := parts + [part], rests + [rest];
      }
      WhoIsHot(views, parts, rests);
      LimitOnly(parts, rests, max, total);
      if max <= 0 {
        NothingLeft(rests);
        if Steady() && running {
          AllColdOpens();
        }
      }
    }

    /** What it means that a drain went through all shards. */
    lemma DrainedMeans(views: seq<View>, parts: seq<seq<Record>>, rests: seq<seq<Record>>, i: nat)
      requires Valid() && Drained(views, parts, rests) && |parts| == |shards| && i < |shards|
      ensures |rests| == |views| == |shards| && views[i].queue == parts[i] + rests[i]
      ensures shards[i].Valid() && shards[i].Queue() == rests[i] && shards[i].ring.log == views[i].log
          && shards[i].indexed == views[i].indexed
    {
      hide ValidUpTo;
      hide Shard.Shows;
      assert shards[i].Footprint() <= Objects();
      assert shards[i].Shows(After(views[i], rests[i]));
      shards[i].ShowsMeans(After(views[i], rests[i]));
    }

    /** The latches after a drain, shard by shard. */
    lemma WhoIsHot(views: seq<View>, parts: seq<seq<Record>>, rests: seq<seq<Record>>)
      requires Valid() && Drained(views, parts, rests) && |parts| == |shards|
      ensures |views| == |rests| == |shards|
      ensures forall i :: 0 <= i < |shards| ==>
        (shards[i].hot <==> views[i].hot && (valve.lowPct + 1) * capacity <= 100 * |rests[i]|)
    {
      hide ValidUpTo;
      hide Shard.Shows;
      forall i | 0 <= i < |shards|
        ensures shards[i].hot <==> views[i].hot && (valve.lowPct + 1) * capacity <= 100 * |rests[i]|
      {
        assert shards[i].Footprint() <= Objects();
        assert shards[i].Shows(After(views[i], rests[i]));
        shards[i].ShowsMeans(After(views[i], rests[i]));
      }
    }

    /** An empty shard does not stay hot. */
    lemma NothingLeft(rests: seq<seq<Record>>)
      requires Valid() && |rests| == |shards| && forall i :: 0 <= i < |rests| ==> rests[i] == []
      requires forall i :: 0 <= i < |shards| && shards[i].hot ==> (valve.lowPct + 1) * capacity <= 100 * |rests[i]|
      ensures forall i :: 0 <= i < |shards| ==> !shards[i].hot
    {
      hide ShardOk;
      TimesMonotone(1, valve.lowPct + 1, capacity);
    }

    /** In a steady running engine with no shard hot the counter is zero and the gate is open. */
    lemma AllColdOpens()
      requires Valid() && Steady() && running && forall i :: 0 <= i < |shards| ==> !shards[i].hot
      ensures saturated == 0 && !valve.closed
    {
      hide ShardOk;
      ClosedIffHot(States(), Counter(), Marks());
    }

    /** After a drain without limit a steady running engine accepts the next well-formed publish. */
    method DrainThenPublish(key: nat, flags: nat, payload: seq<Byte>, now: nat) returns (res: Result<nat>)
      requires Valid() && Steady() && running && key != 0 && |payload| <= payloadCap
      modifies this`ticket, this`dropped, this`saturated, valve`closed, valve`closes, valve`opens, valve`rejects,
          Objects()
      ensures Valid() && Steady() && res == Ok(ticket) && ticket == old(ticket) + 1
    {
      hide ValidUpTo;
      hide Steady;
      hide Drained;
      hide StopsAtLimit;
      hide Flatten;
      hide Shard.Shows;
      hide And;
      hide Route;
      var total, delivered, views, parts, rests := Drain(0);
      res := Publish(key, flags, payload, now);
    }

    lemma StartsDrained(views: seq<View>)
      requires |views| == |shards| && forall j :: 0 <= j < |shards| ==> shards[j].Shows(views[j])
      ensures Drained(views, [], [])
    {
      hide Shard.Shows;
    }

    lemma Views(n: nat) returns (views: seq<View>)
      requires Valid() && n <= |shards|
      ensures |views| == n && forall j :: 0 <= j < n ==> shards[j].Shows(views[j])
    {
      if n == 0 {
        views := [];
      } else {
        hide Valid;
        hide Shard.Shows;
        views := Views(n - 1);
        var view := ViewOf(n - 1);
        views := views + [view];
      }
    }

    lemma ViewOf(k: nat) returns (view: View)
      requires Valid() && k < |shards|
      ensures shards[k].Shows(view)
    {
      hide ValidUpTo;
      hide Shard.Shows;
      hide Shard.Valid;
      hide Shard.Queue;
      ShardsValid(k);
      var sh := shards[k];
      sh.ShowsIs();
      view := View(sh.Queue(), sh.ring.log, sh.indexed, sh.hot);
    }

    // --------------------------------------------------------------- shutdown

    /** Close, up to the release of the valve: running is cleared first, then the gate is forced open. */
    method Stop()
      requires Valid()
      modifies this`running, valve`closed, valve`forcedOpen
      ensures Valid() && !running && !valve.closed && States() == old(States())
      ensures old(Steady()) ==> Steady()
    {
      hide ShardOk;
      hide Paced;
      hide Below;
      running := false;
      valve.ForceOpen();
    }

    lemma EmptyCools(queue: seq<Record>)
      requires Valid()
      ensures queue == [] ==> !((valve.lowPct + 1) * capacity <= 100 * |queue|)
    {
      hide ShardOk;
      TimesMonotone(1, valve.lowPct + 1, capacity);
    }

    /** A worker's batch: up to 256 records, fewer only if the ring ran empty. */
    method Batch(sh: Shard, ghost k: nat) returns (part: seq<Record>)
      requires Valid() && k < |shards| && sh == shards[k] && sh.Valid()
      modifies sh`consumed, sh.ring`head, sh.ring.cells
      ensures Valid() && sh.Valid() && (old(Steady()) ==> Steady())
      ensures old(sh.Queue()) == part + sh.Queue()
      ensures |part| <= 256 && (|part| < 256 ==> sh.Queue() == []) && (part == [] ==> sh.Queue() == old(sh.Queue()))
      ensures forall j :: 0 <= j < |part| ==> Verifies(part[j])
    {
      hide ValidUpTo;
      hide Shard.Valid;
      hide Shard.Queue;
      hide Steady;
      hide Verifies;
      part := [];
      var ok := true;
      while ok && |part| < DRAIN_BATCH
        invariant Valid() && sh.Valid() && (old(Steady()) ==> Steady())
        invariant old(sh.Queue()) == part + sh.Queue() && |part| <= DRAIN_BATCH
        invariant !ok ==> sh.Queue() == []
        invariant forall j :: 0 <= j < |part| ==> Verifies(part[j])
        decreases DRAIN_BATCH - |part|, ok
      {
        var rec;
        ok, rec := ConsumeFrom(sh, k);
        if ok {
          part := part + [rec];
        }
      }
    }

    /**
     The worker of a shard after Close has stopped ingestion: it handles every record accepted before that exactly once,
     in position order, and then returns; its loop terminates because every round with records left shortens the queue.
     If there was anything to handle it leaves the shard cold.
     */
    method Work(sh: Shard, ghost k: nat) returns (handled: seq<Record>)
      requires Valid() && k < |shards| && sh == shards[k] && sh.Valid() && !running
      modifies sh`consumed, sh`hot, sh`cools, sh.ring`head, sh.ring.cells, this`saturated, valve`closed, valve`opens
      ensures Valid() && sh.Valid() && (old(Steady()) ==> Steady())
      ensures handled == old(sh.Queue()) && sh.Queue() == []
      ensures sh.hot <==> old(sh.hot) && handled == []
      ensures forall j :: 0 <= j < |handled| ==> Verifies(handled[j])
    {
      hide ValidUpTo;
      hide Shard.Valid;
      hide Shard.Queue;
      hide Steady;
      hide Verifies;
      hide Ring.Pending;
      handled := [];
      var done := false;
      while !done
        invariant Valid() && sh.Valid() && (old(Steady()) ==> Steady())
        invariant old(sh.Queue()) == handled + sh.Queue()
        invariant sh.hot ==> old(sh.hot)
        invariant handled == [] ==> sh.hot == old(sh.hot)
        invariant handled != [] && sh.hot ==> sh.Queue() != []
        invariant done ==> sh.Queue() == []
        invariant forall j :: 0 <= j < |handled| ==> Verifies(handled[j])
        decreases |sh.Queue()|, !done
      {
        var part := Batch(sh, k);
        handled := handled + part;
        if |part| > 0 {
          Relax(sh, k);
          EmptyCools(sh.Queue());
        } else {
          sh.EmptyMeansNonePending();
          done := !running && sh.ring.Pending() == 0;
        }
      }
    }
  }

  /** The limit is respected, and a shard keeps records only if it was reached there and later shards gave nothing. */
  ghost predicate StopsAtLimit(parts: seq<seq<Record>>, rests: seq<seq<Record>>, max: int, total: nat)
    requires |parts| == |rests|
  {
    && (max <= 0 || total <= max)
    && forall j :: 0 <= j < |rests| ==>
      (rests[j] == [] || (0 < max && total == max && forall k :: j < k < |parts| ==> parts[k] == []))
  }

  /** Without a limit nothing is kept. */
  lemma LimitOnly(parts: seq<seq<Record>>, rests: seq<seq<Record>>, max: int, total: nat)
    requires |parts| == |rests| && StopsAtLimit(parts, rests, max, total)
    ensures max <= 0 ==> forall j :: 0 <= j < |rests| ==> rests[j] == []
  {
  }

  /** With a limit, a shard that keeps records is the last to give any, and the limit is used up. */
  lemma LimitMeans(parts: seq<seq<Record>>, rests: seq<seq<Record>>, max: int, total: nat, j: nat)
    requires |parts| == |rests| && StopsAtLimit(parts, rests, max, total) && j < |rests| && rests[j] != []
    ensures 0 < max && total == max && forall k :: j < k < |parts| ==> parts[k] == []
  {
  }

  lemma NoLimitYet(max: int)
    ensures StopsAtLimit([], [], max, 0)
  {
  }

  lemma LimitSnoc(parts: seq<seq<Record>>, rests: seq<seq<Record>>, max: int, total: nat, part: seq<Record>,
      rest: seq<Record>)
    requires |parts| == |rests| && |part| <= total && StopsAtLimit(parts, rests, max, total - |part|)
    requires max <= 0 || total <= max
    requires rest == [] || (0 < max && total == max)
    ensures StopsAtLimit(parts + [part], rests + [rest], max, total)
  {
  }

  /** What consumption changes of one shard is no part of the other. */
  predicate Apart(a: Shard, b: Shard) {
    a != b && a.ring != b.ring && a.ring.cells != b.ring.cells
  }

  function Flatten(parts: seq<seq<Record>>): seq<Record> {
    if |parts| == 0 then [] else Flatten(parts[..|parts| - 1]) + parts[|parts| - 1]
  }

  lemma FlattenSnoc(parts: seq<seq<Record>>, part: seq<Record>)
    ensures Flatten(parts + [part]) == Flatten(parts) + part
  {
    assert (parts + [part])[..|parts|] == parts;
  }

  lemma NormalMeans(cfg: Config)
    requires cfg.Normal() && cfg.shards <= 0x4000_0000_0000_0000
    ensures 0 < cfg.shards < TWO63 && IsPow2(cfg.shards) && 0 < cfg.cellsPerShard && 0 < cfg.indexBucketsPerCell
    ensures IsPow2(cfg.cellsPerShard) && IsPow2(cfg.indexBucketsPerCell) && 0 < cfg.payloadCapacity
    ensures cfg.lowWaterPct < cfg.highWaterPct <= 100
  {
    var k :| cfg.shards == Pow2(k);
    IsPow2Complete(k);
  }

  /** What it means for a shard to be fresh. */
  lemma UntouchedMeans(sh: Shard, hash: nat -> nat, cells: nat, buckets: nat, payloadCap: nat, epoch: nat)
    requires Untouched(sh, hash, cells, buckets, payloadCap, epoch)
    ensures sh.ring.log == [] && sh.ring.capacity == cells && sh.ring.payloadCap == payloadCap && sh.ring.epoch == epoch
    ensures sh.index.hash == hash && sh.index.table.Length == buckets
    ensures forall i :: 0 <= i < buckets ==> sh.index.table[i] == Bucket(0, 0, 0)
    ensures !sh.hot && sh.ingested == sh.consumed == sh.rejected == 0
  {
    assert sh.index.table[..] == Empty(buckets).table;
  }

  /** A shard as its constructor leaves it. */
  ghost predicate Untouched(sh: Shard, hash: nat -> nat, cells: nat, buckets: nat, payloadCap: nat, epoch: nat)
    reads sh, sh.ring, sh.index, sh.index.table
  {
    && sh.ring.log == [] && sh.ring.capacity == cells && sh.ring.payloadCap == payloadCap && sh.ring.epoch == epoch
    && sh.index.hash == hash && sh.index.table.Length == buckets && sh.index.View() == Empty(buckets)
    && sh.State() == Latch(false, 0, 0, 0, 0)
    && sh.rejected == 0
  }
}
