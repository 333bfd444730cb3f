/** Where cells, header fields and index buckets lie in a shard's arena. */
module Layout {
  import opened Bits

  const CACHE_LINE: nat := 64
  const HEADER_SIZE: nat := 64
  const BUCKET_SIZE: nat := 32
  const HUGE_PAGE: nat := 0x20_0000

  lemma Sizes()
    ensures Pow2(6) == CACHE_LINE && Pow2(21) == HUGE_PAGE
  {
    assert Pow2(6) == 64;
    assert Pow2(10) == 1024;
    PowSum(10, 11);
  }

  /** cellStrideFor. */
  function StrideFor(payloadCap: nat): nat { AlignUp(Word64(HEADER_SIZE + payloadCap), CACHE_LINE) }

  /** cellAt, before the wrap at 2^64. */
  function CellAt(base: nat, i: nat, stride: nat): nat { base + i * stride }

  /** The index's bucket, before the wrap at 2^64; the table follows the ring's `cells` cells. */
  function BucketAt(base: nat, cells: nat, stride: nat, i: nat): nat { base + cells * stride + i * BUCKET_SIZE }

  /** Bytes that ring and index of a shard occupy together. */
  function RegionBytes(cells: nat, stride: nat, buckets: nat): nat { cells * stride + buckets * BUCKET_SIZE }

  /** The stride is the least multiple of a cache line that holds the header and the payload. */
  lemma StrideExact(payloadCap: nat)
    requires payloadCap < TWO63
    ensures var stride := StrideFor(payloadCap);
      && stride % 64 == 0 && 64 + payloadCap <= stride < 128 + payloadCap
      && forall m: nat :: 64 + payloadCap <= m && m % 64 == 0 ==> stride <= m
  {
    Sizes();
    hide Pow2;
    hide AlignUp;
    assert Word64(HEADER_SIZE + payloadCap) == HEADER_SIZE + payloadCap;
    AlignUpLeast(HEADER_SIZE + payloadCap, 6);
  }

  // ----------------------------------------------------------------- disjointness

  lemma {:induction false} TimesLess(i: nat, j: nat, d: nat)
    requires i < j
    ensures i * d + d <= j * d
  {
    if i + 1 < j {
      TimesLess(i, j - 1, d);
    }
  }

  /**
   Cells of 64 bytes and the payload, and buckets of 32 bytes, do not overlap, and all cells lie below the table. The
   first cell is at the base, the table follows the last cell, and the region ends with the last bucket.
   */
  lemma RegionPartition(base: nat, cells: nat, payloadCap: nat, buckets: nat)
    requires payloadCap < TWO63
    ensures var stride := StrideFor(payloadCap);
      && (forall i :: 0 <= i < cells ==>
        base <= CellAt(base, i, stride)
            && CellAt(base, i, stride) + 64 + payloadCap <= BucketAt(base, cells, stride, 0))
      && (forall i, j :: 0 <= i < j < cells ==> CellAt(base, i, stride) + 64 + payloadCap <= CellAt(base, j, stride))
      && (forall i, j :: 0 <= i < j < buckets ==>
        BucketAt(base, cells, stride, i) + 32 <= BucketAt(base, cells, stride, j))
      && (forall i :: 0 <= i < buckets ==>
        BucketAt(base, cells, stride, 0) <= BucketAt(base, cells, stride, i)
        && BucketAt(base, cells, stride, i) + 32 <= base + RegionBytes(cells, stride, buckets))
      && CellAt(base, 0, stride) == base && CellAt(base, cells, stride) == BucketAt(base, cells, stride, 0)
      && BucketAt(base, cells, stride, buckets) == base + RegionBytes(cells, stride, buckets)
  {
    hide StrideFor;
    var stride := StrideFor(payloadCap);
    StrideExact(payloadCap);
    forall i | 0 <= i < cells
      ensures base <= CellAt(base, i, stride)
        && CellAt(base, i, stride) + 64 + payloadCap <= BucketAt(base, cells, stride, 0)
    {
      TimesLess(i, cells, stride);
    }
    forall i, j | 0 <= i < j < cells
      ensures CellAt(base, i, stride) + 64 + payloadCap <= CellAt(base, j, stride)
    {
      TimesLess(i, j, stride);
    }
  }

  // ----------------------------------------------------------------- alignment

  lemma SumAligned(a: nat, b: nat, d: nat)
    requires 0 < d && a % d == 0 && b % d == 0
    ensures (a + b) % d == 0
  {
    ModIs(a + b, a / d + b / d, 0, d);
  }

  lemma ProductAligned(i: nat, b: nat, d: nat)
    requires 0 < d && b % d == 0
    ensures (i * b) % d == 0
  {
    var q := b / d;
    assert b == q * d;
    TimesTimes(i, q, d);
    ModIs(i * b, i * q, 0, d);
  }

  lemma TimesTimes(i: int, q: int, d: int)
    ensures i * (q * d) == (i * q) * d
  {
  }

  /**
   In an arena on a 2 MiB boundary every cell starts on a cache line, every 64-bit header field and bucket word lies on
   an 8-byte boundary, and no bucket straddles two cache lines.
   */
  lemma FieldsAligned(base: nat, cells: nat, payloadCap: nat, i: nat, b: nat, offset: nat)
    requires payloadCap < TWO63 && base % 0x20_0000 == 0 && offset % 8 == 0
    ensures var stride := StrideFor(payloadCap);
      && CellAt(base, i, stride) % 64 == 0 && (CellAt(base, i, stride) + offset) % 8 == 0
      && (BucketAt(base, cells, stride, b) + offset) % 8 == 0
      && BucketAt(base, cells, stride, b) % 64 + 32 <= 64
  {
    hide StrideFor;
    var stride := StrideFor(payloadCap);
    StrideOnLine(payloadCap);
    LineOf(base, i, stride, offset);
    LineOf(base, cells, stride, offset);
    BucketsInLine(base + cells * stride, b, offset);
  }

  lemma StrideOnLine(payloadCap: nat)
    requires payloadCap < TWO63
    ensures StrideFor(payloadCap) % 64 == 0
  {
    hide StrideFor;
    StrideExact(payloadCap);
  }

  lemma LineOf(base: nat, i: nat, stride: nat, offset: nat)
    requires base % HUGE_PAGE == 0 && stride % CACHE_LINE == 0 && offset % 8 == 0
    ensures (base + i * stride) % CACHE_LINE == 0 && (base + i * stride + offset) % 8 == 0
  {
    ProductAligned(i, stride, CACHE_LINE);
    LineAfter(base, i * stride, offset);
  }

  lemma LineAfter(base: nat, bytes: nat, offset: nat)
    requires base % HUGE_PAGE == 0 && bytes % CACHE_LINE == 0 && offset % 8 == 0
    ensures (base + bytes) % CACHE_LINE == 0 && (base + bytes + offset) % 8 == 0
  {
    var p, q := base / HUGE_PAGE, bytes / CACHE_LINE;
    assert base == 32768 * CACHE_LINE * p && bytes == CACHE_LINE * q;
    ModIs(base + bytes, 32768 * p + q, 0, CACHE_LINE);
    ModIs(base + bytes + offset, 8 * (32768 * p + q) + offset / 8, 0, 8);
  }

  lemma BucketsInLine(start: nat, b: nat, offset: nat)
    requires start % CACHE_LINE == 0 && offset % 8 == 0
    ensures (start + b * BUCKET_SIZE + offset) % 8 == 0
    ensures (start + b * BUCKET_SIZE) % CACHE_LINE + BUCKET_SIZE <= CACHE_LINE
  {
  }

  // ----------------------------------------------------------------- fitting the arena

  /** The size NewArena gives a request: the 64-bit word of the bytes wanted, rounded up to whole huge pages. */
  function ArenaSize(bytes: nat): nat { AlignUp(Word64(bytes), HUGE_PAGE) }

  /**
   The arena holds the region exactly if the region ends at least 2 MiB below 2^64, and then with less than 2 MiB to
   spare; beyond that the size computation wraps around and the arena is too small.
   */
  lemma ArenaHoldsRegion(bytes: nat)
    ensures bytes <= ArenaSize(bytes) <==> bytes <= 0x1_0000_0000_0000_0000 - 0x20_0000
    ensures bytes <= ArenaSize(bytes) ==> ArenaSize(bytes) < bytes + 0x20_0000
    ensures ArenaSize(bytes) % 0x20_0000 == 0 && ArenaSize(bytes) < 0x1_0000_0000_0000_0000
  {
    Sizes();
    hide Pow2;
    hide AlignUp;
    AlignUpLeast(Word64(bytes), 21);
  }

  /** Every cell and bucket lies inside the arena that NewArena makes for them. */
  lemma LayoutSound(base: nat, cells: nat, payloadCap: nat, buckets: nat, i: nat, b: nat)
    requires payloadCap < TWO63
    requires RegionBytes(cells, StrideFor(payloadCap), buckets) <= 0x1_0000_0000_0000_0000 - 0x20_0000
    requires i < cells && b < buckets
    ensures var stride := StrideFor(payloadCap);
      var size := ArenaSize(RegionBytes(cells, stride, buckets));
      && base <= CellAt(base, i, stride) && CellAt(base, i, stride) + 64 + payloadCap <= base + size
      && base <= BucketAt(base, cells, stride, b) && BucketAt(base, cells, stride, b) + 32 <= base + size
  {
    RegionPartition(base, cells, payloadCap, buckets);
    ArenaHoldsRegion(RegionBytes(cells, StrideFor(payloadCap), buckets));
    hide StrideFor;
    hide ArenaSize;
    hide RegionBytes;
  }
}
