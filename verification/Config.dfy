/** The engine's configuration and its normalisation. */
module Configs {
  import opened Bits
  import opened Errors

  /** Records a worker consumes before it looks at the gate again. */
  const DRAIN_BATCH: nat := 256

  /** The value of 1 shifted left k times in a signed 64-bit word. */
  function Shifted(k: nat): int {
    if k < 63 then Pow2(k) else if k == 63 then -(TWO63 as int) else 0
  }

  /**
   The doubling loop of normalize reaches a shard count exactly if that is at most 2^62; beyond, the shift overflows.
   */
  lemma DoublingEndsExactly(shards: int)
    ensures (exists k :: Shifted(k) >= shards) <==> shards <= 0x4000_0000_0000_0000
  {
    PowersTo64();
    assert Pow2(62) == 0x4000_0000_0000_0000;
    assert Shifted(62) == Pow2(62);
    forall k: nat | Shifted(k) >= shards ensures shards <= 0x4000_0000_0000_0000 {
      if k < 62 {
        PowGrows(k, 62);
      }
    }
  }

  /** The doubling loop: the least power of two that is not below the count. */
  method RoundUp(count: int) returns (n: nat)
    requires count <= 0x4000_0000_0000_0000
    ensures count <= n <= 0x4000_0000_0000_0000 && exists k: nat :: n == Pow2(k)
    ensures forall k: nat :: count <= Pow2(k) ==> n <= Pow2(k)
  {
    PowersTo64();
    assert Pow2(62) == 0x4000_0000_0000_0000;
    n := 1;
    ghost var k: nat := 0;
    while n < count
      invariant n == Pow2(k)
      invariant forall j: nat :: count <= Pow2(j) ==> n <= Pow2(j)
      decreases count - n
    {
      forall j: nat | count <= Pow2(j) ensures 2 * n <= Pow2(j) {
        NoPowerBetween(k, j);
      }
      n := 2 * n;
      k := k + 1;
    }
  }

  lemma NoPowerBetween(k: nat, j: nat)
    requires Pow2(k) < Pow2(j)
    ensures 2 * Pow2(k) <= Pow2(j)
  {
    if j < k {
      PowGrows(j, k);
    } else if k + 1 < j {
      PowGrows(k + 1, j);
    }
  }

  class Config {
    var shards: int
    var cellsPerShard: nat
    var payloadCapacity: int
    var highWaterPct: nat
    var lowWaterPct: nat
    var indexBucketsPerCell: nat

    /** The configuration the engine may be built from. */
    ghost predicate Normal()
      reads this
    {
      && (exists k :: shards == Pow2(k)) && IsPow2(cellsPerShard) && IsPow2(indexBucketsPerCell)
      && 0 < payloadCapacity && lowWaterPct < highWaterPct <= 100
    }

    /** The defaults of the marks and of the index. */
    method FillMarks()
      modifies this`highWaterPct, this`lowWaterPct, this`indexBucketsPerCell
      ensures highWaterPct == Or(old(highWaterPct), 90) && lowWaterPct == Or(old(lowWaterPct), 70)
      ensures indexBucketsPerCell == Or(old(indexBucketsPerCell), 2)
    {
      if highWaterPct == 0 {
        highWaterPct := 90;
      }
      if lowWaterPct == 0 {
        lowWaterPct := 70;
      }
      if indexBucketsPerCell == 0 {
        indexBucketsPerCell := 2;
      }
    }

    /**
     normalize: zero fields get their defaults, the shard count (or the processor count) is rounded up to the least
     power of two, and what still makes no sense is refused.
     */
    method Normalize(processors: nat) returns (res: Result<()>)
      requires 0 < processors <= 0x4000_0000_0000_0000 && shards <= 0x4000_0000_0000_0000
      modifies this
      ensures res.Ok? <==> Normal()
      ensures res.Err? ==> res.error == ErrConfig
      ensures res.Ok? <==>
        && (old(cellsPerShard) == 0 || IsPow2(old(cellsPerShard))) && old(payloadCapacity) >= 0
        && (old(indexBucketsPerCell) == 0 || IsPow2(old(indexBucketsPerCell)))
        && (var high, low := Or(old(highWaterPct), 90), Or(old(lowWaterPct), 70); low < high <= 100)
      ensures var asked := if old(shards) <= 0 then processors else old(shards);
        asked <= shards <= 0x4000_0000_0000_0000 && forall k: nat :: asked <= Pow2(k) ==> shards <= Pow2(k)
      ensures res.Ok? ==>
        && cellsPerShard == Or(old(cellsPerShard), 65536) && payloadCapacity == Or(old(payloadCapacity), 448)
        && indexBucketsPerCell == Or(old(indexBucketsPerCell), 2)
        && highWaterPct == Or(old(highWaterPct), 90) && lowWaterPct == Or(old(lowWaterPct), 70)
    {
      hide IsPow2;
      hide Pow2;
      DefaultsArePowers();
      if shards <= 0 {
        shards := processors;
      }
      shards := RoundUp(shards);
      if cellsPerShard == 0 {
        cellsPerShard := 65536;
      }
      if !IsPow2(cellsPerShard) || payloadCapacity < 0 {
        return Err(ErrConfig);
      }
      if payloadCapacity == 0 {
        payloadCapacity := 448;
      }
      FillMarks();
      if !IsPow2(indexBucketsPerCell) || highWaterPct > 100 || lowWaterPct >= highWaterPct {
        return Err(ErrConfig);
      }
      return Ok(());
    }
  }

  /** A field, or its default when it is zero. */
  function Or(field: int, default: nat): int { if field == 0 then default else field }

  lemma DefaultsArePowers()
    ensures IsPow2(65536) && IsPow2(2)
  {
    assert Pow2(8) == 256 && Pow2(1) == 2;
    PowSum(8, 8);
    IsPow2Complete(16);
    IsPow2Complete(1);
  }

  lemma TimesAtLeast(a: int, b: int)
    requires 0 <= a && 1 <= b
    ensures a <= a * b
  {
    assert a * b == a + a * (b - 1);
  }

  lemma ProductIsPow2(a: nat, b: nat)
    requires IsPow2(a) && IsPow2(b)
    ensures 1 <= b && IsPow2(a * b) && a <= a * b
  {
    var j := IsPow2Sound(a);
    var k := IsPow2Sound(b);
    hide IsPow2;
    PowSum(j, k);
    IsPow2Complete(j + k);
    hide Pow2;
    TimesAtLeast(a, b);
  }

  /** As a 64-bit word the product of two powers of two is itself, or zero once it has reached 2^64. */
  lemma ProductWraps(a: nat, b: nat)
    requires IsPow2(a) && IsPow2(b)
    ensures Word64(a * b) == if a * b < TWO64 then a * b else 0
  {
    ProductIsPow2(a, b);
    var m := IsPow2Sound(a * b);
    hide IsPow2;
    PowersTo64();
    if 64 <= m {
      PowSum(64, m - 64);
      ModIs(a * b, Pow2(m - 64), 0, TWO64);
    } else {
      PowGrows(m, 64);
    }
  }
}
