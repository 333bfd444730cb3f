/** The loops that write an arena's bytes, and why writing one cell's payload touches nothing else. */
module Memory {
  import opened Layout
  import opened Records

  /** Zero. */
  method Zero(bytes: array<Byte>)
    modifies bytes
    ensures forall i :: 0 <= i < bytes.Length ==> bytes[i] == 0
  {
    for i := 0 to bytes.Length
      invariant forall j :: 0 <= j < i ==> bytes[j] == 0
    {
      bytes[i] := 0;
    }
  }

  predicate Near(t: nat, stride: nat, i: nat) { t <= i < t + stride }

  /** The page that holds byte i has been written. */
  ghost predicate TouchedNear(touched: set<nat>, stride: nat, i: nat) { exists t :: t in touched && Near(t, stride, i) }

  /** prefault: a write to every page of fresh, zero-filled memory, which stays zero. */
  method Prefault(bytes: array<Byte>, stride: nat) returns (ghost touched: set<nat>)
    requires 0 < stride && forall i :: 0 <= i < bytes.Length ==> bytes[i] == 0
    modifies bytes
    ensures bytes[..] == old(bytes[..])
    ensures forall i :: 0 <= i < bytes.Length ==> TouchedNear(touched, stride, i)
  {
    touched := {};
    var off := 0;
    while off < bytes.Length
      invariant bytes[..] == old(bytes[..])
      invariant forall i :: 0 <= i < off && i < bytes.Length ==> TouchedNear(touched, stride, i)
    {
      assert bytes[off] == bytes[..][off] == old(bytes[..])[off] == 0;
      bytes[off] := 0;
      ghost var before := touched;
      touched := touched + {off};
      forall i | 0 <= i < off + stride && i < bytes.Length ensures TouchedNear(touched, stride, i) {
        if i < off {
          assert TouchedNear(before, stride, i);
          var t :| t in before && Near(t, stride, i);
          assert t in touched;
        } else {
          assert off in touched && Near(off, stride, i);
        }
      }
      off := off + stride;
    }
  }

  /** A span of memory after src has been copied to offset at. */
  function Overwritten(m: seq<Byte>, at: nat, src: seq<Byte>): seq<Byte>
    requires at + |src| <= |m|
  {
    m[..at] + src + m[at + |src|..]
  }

  /** copyIntoPayload, for a cell at the given offset of the arena. */
  method CopyIntoPayload(bytes: array<Byte>, cell: nat, src: seq<Byte>) returns (n: nat)
    requires cell + HEADER_SIZE + |src| <= bytes.Length
    modifies bytes
    ensures n == |src| && bytes[..] == Overwritten(old(bytes[..]), cell + HEADER_SIZE, src)
  {
    var at := cell + HEADER_SIZE;
    for i := 0 to |src|
      invariant forall j :: 0 <= j < bytes.Length && !(at <= j < at + i) ==> bytes[j] == old(bytes[j])
      invariant forall j :: at <= j < at + i ==> bytes[j] == src[j - at]
    {
      bytes[at + i] := src[i];
    }
    assert bytes[at..at + |src|] == src;
    assert bytes[..at] == old(bytes[..at]);
    assert bytes[at + |src|..] == old(bytes[at + |src|..]);
    return |src|;
  }

  /** The bytes of a span of memory. */
  function Bytes(m: seq<Byte>, at: nat, n: nat): seq<Byte>
    requires at + n <= |m|
  {
    m[at..at + n]
  }

  lemma ElsewhereSame(m: seq<Byte>, at: nat, src: seq<Byte>, other: nat, n: nat)
    requires at + |src| <= |m| && other + n <= |m| && (other + n <= at || at + |src| <= other)
    ensures Bytes(Overwritten(m, at, src), other, n) == Bytes(m, other, n)
  {
  }

  /**
   Writing a payload of at most the capacity into cell i shows up in that cell's payload, and leaves its header, every
   other cell and every index bucket exactly as they were.
   */
  lemma PayloadWriteIsLocal(m: seq<Byte>, cells: nat, payloadCap: nat, buckets: nat, i: nat, src: seq<Byte>)
    requires payloadCap < 0x8000_0000_0000_0000 && i < cells && |src| <= payloadCap
    requires RegionBytes(cells, StrideFor(payloadCap), buckets) <= |m|
    ensures var stride := StrideFor(payloadCap);
      var at := CellAt(0, i, stride) + HEADER_SIZE;
      && at + |src| <= |m|
      && Bytes(Overwritten(m, at, src), at, |src|) == src
      && Bytes(Overwritten(m, at, src), CellAt(0, i, stride), HEADER_SIZE) == Bytes(m, CellAt(0, i, stride),
           HEADER_SIZE)
    ensures forall j :: 0 <= j < cells && j != i ==> CellUntouched(m, cells, payloadCap, buckets, i, src, j)
    ensures forall b :: 0 <= b < buckets ==> BucketUntouched(m, cells, payloadCap, buckets, i, src, b)
  {
    var stride := StrideFor(payloadCap);
    RegionPartition(0, cells, payloadCap, buckets);
    hide StrideFor;
    hide CellAt;
    hide BucketAt;
    hide Overwritten;
    hide Bytes;
    var at := CellAt(0, i, stride) + HEADER_SIZE;
    FitsBelow(cells, stride, buckets);
    ElsewhereSame(m, at, src, CellAt(0, i, stride), HEADER_SIZE);
    Lands(m, at, src);
    forall j | 0 <= j < cells && j != i ensures CellUntouched(m, cells, payloadCap, buckets, i, src, j) {
      ElsewhereSame(m, at, src, CellAt(0, j, stride), HEADER_SIZE + payloadCap);
    }
    forall b | 0 <= b < buckets ensures BucketUntouched(m, cells, payloadCap, buckets, i, src, b) {
      ElsewhereSame(m, at, src, BucketAt(0, cells, stride, b), BUCKET_SIZE);
    }
  }

  lemma FitsBelow(cells: nat, stride: nat, buckets: nat)
    ensures BucketAt(0, cells, stride, 0) <= RegionBytes(cells, stride, buckets)
  {
  }

  lemma Lands(m: seq<Byte>, at: nat, src: seq<Byte>)
    requires at + |src| <= |m|
    ensures Bytes(Overwritten(m, at, src), at, |src|) == src
  {
  }

  ghost predicate CellUntouched(m: seq<Byte>, cells: nat, payloadCap: nat, buckets: nat, i: nat, src: seq<Byte>,
      j: nat) {
    var stride := StrideFor(payloadCap);
    var at := CellAt(0, i, stride) + HEADER_SIZE;
    && at + |src| <= |m| && CellAt(0, j, stride) + HEADER_SIZE + payloadCap <= |m|
    && Bytes(Overwritten(m, at, src), CellAt(0, j, stride), HEADER_SIZE + payloadCap)
       == Bytes(m, CellAt(0, j, stride), HEADER_SIZE + payloadCap)
  }

  ghost predicate BucketUntouched(m: seq<Byte>, cells: nat, payloadCap: nat, buckets: nat, i: nat, src: seq<Byte>,
      b: nat) {
    var stride := StrideFor(payloadCap);
    var at := CellAt(0, i, stride) + HEADER_SIZE;
    && at + |src| <= |m| && BucketAt(0, cells, stride, b) + BUCKET_SIZE <= |m|
    && Bytes(Overwritten(m, at, src), BucketAt(0, cells, stride, b), BUCKET_SIZE)
       == Bytes(m, BucketAt(0, cells, stride, b), BUCKET_SIZE)
  }
}
