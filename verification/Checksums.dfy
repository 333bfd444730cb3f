/** The 32-bit FNV-1a digest of a payload, with 0 reserved for "no checksum". */
module Checksums {
  import opened Bits
  import opened Records

  const FNV_OFFSET: nat := 2166136261

  type Word32 = x: nat | x < 0x1_0000_0000

  /** Multiplication of a 32-bit word by the 32-bit FNV prime, modulo 2^32. */
  function TimesPrime(x: nat): Word32 { (x * 16777619) % 0x1_0000_0000 }

  /** One byte: exclusive-or it in, then multiply. */
  function Mix(h: Word32, b: Byte): Word32 { TimesPrime(Xor(h, b)) }

  /** The raw digest of a payload, continued from h. */
  function Digest(h: Word32, payload: seq<Byte>): Word32
    decreases |payload|
  {
    if |payload| == 0 then h else Digest(Mix(h, payload[0]), payload[1..])
  }

  /** What a record's checksum field holds for a payload: the digest, with 0 nudged to 1. */
  function Folded(digest: Word32): (sum: Word32)
    ensures sum != 0
  {
    if digest == 0 then 1 else digest
  }

  lemma {:induction false} DigestConcat(h: Word32, a: seq<Byte>, b: seq<Byte>)
    ensures Digest(h, a + b) == Digest(Digest(h, a), b)
    decreases |a|
  {
    if |a| == 0 {
      assert a + b == b;
    } else {
      assert (a + b)[1..] == a[1..] + b;
      DigestConcat(Mix(h, a[0]), a[1..], b);
    }
  }

  lemma DigestSnoc(h: Word32, a: seq<Byte>, b: Byte)
    ensures Digest(h, a + [b]) == Mix(Digest(h, a), b)
  {
    DigestConcat(h, a, [b]);
    assert [b][1..] == [];
  }

  /** checksum32: the loop over the payload bytes. */
  method Checksum32(payload: seq<Byte>) returns (sum: Word32)
    ensures sum == Folded(Digest(FNV_OFFSET, payload))
  {
    var h: Word32 := FNV_OFFSET;
    for i := 0 to |payload|
      invariant h == Digest(FNV_OFFSET, payload[..i])
    {
      DigestSnoc(FNV_OFFSET, payload[..i], payload[i]);
      assert payload[..i] + [payload[i]] == payload[..i + 1];
      var x := Xor(h, payload[i]);
      h := TimesPrime(x);
    }
    assert payload[..|payload|] == payload;
    if h == 0 {
      return 1;
    }
    return h;
  }

  /** The prime is odd, so multiplying by it modulo 2^32 loses nothing: 899433627 is its inverse. */
  lemma TimesPrimeInjective(x: Word32, y: Word32)
    requires TimesPrime(x) == TimesPrime(y)
    ensures x == y
  {
    var d := x - y;
    var q := (x * 16777619) / 0x1_0000_0000 - (y * 16777619) / 0x1_0000_0000;
    assert d * 16777619 == q * 0x1_0000_0000;
    assert d * 15090354709594113 == q * 3863038012887662592;
    assert d == (q * 899433627 - d * 3513497) * 0x1_0000_0000;
  }

  /** Each step is injective in the running digest and in the byte. */
  lemma MixInjective(h: Word32, b: Byte, h': Word32, b': Byte)
    requires Mix(h, b) == Mix(h', b')
    ensures b == b' ==> h == h'
    ensures h == h' ==> b == b'
  {
    hide TimesPrime;
    XorWord(h, b);
    XorWord(h', b');
    TimesPrimeInjective(Xor(h, b), Xor(h', b'));
    XorTwice(h, b);
    XorTwice(h', b');
    XorComm(h, b);
    XorComm(h', b');
    XorTwice(b, h);
    XorTwice(b', h');
  }

  lemma XorWord(h: Word32, b: Byte)
    ensures Xor(h, b) < 0x1_0000_0000
  {
    Pow32();
    XorBound(h, b, 32);
  }

  lemma Pow32()
    ensures Pow2(32) == 0x1_0000_0000
  {
    assert Pow2(8) == 256;
    PowSum(8, 8);
    PowSum(16, 16);
  }

  lemma {:induction false} DigestInjective(h: Word32, h': Word32, payload: seq<Byte>)
    requires h != h'
    ensures Digest(h, payload) != Digest(h', payload)
    decreases |payload|
  {
    if |payload| > 0 {
      if Mix(h, payload[0]) == Mix(h', payload[0]) {
        MixInjective(h, payload[0], h', payload[0]);
      }
      DigestInjective(Mix(h, payload[0]), Mix(h', payload[0]), payload[1..]);
    }
  }

  lemma XorA()
    ensures Xor(2166136261, 97) == 2166136228
  {
    hide Xor;
    XorZero(16922939);
    XorBit(16922939, 1, 0, 1);
    XorBit(33845879, 0, 1, 1);
    XorBit(67691758, 0, 3, 0);
    XorBit(135383516, 0, 6, 0);
    XorBit(270767032, 1, 12, 0);
    XorBit(541534065, 0, 24, 0);
    XorBit(1083068130, 1, 48, 1);
  }

  lemma XorB()
    ensures Xor(3826002220, 98) == 3826002254
  {
    hide Xor;
    XorZero(29890642);
    XorBit(29890642, 0, 0, 1);
    XorBit(59781284, 1, 1, 1);
    XorBit(119562569, 0, 3, 0);
    XorBit(239125138, 1, 6, 0);
    XorBit(478250277, 1, 12, 0);
    XorBit(956500555, 0, 24, 1);
    XorBit(1913001110, 0, 49, 0);
  }

  /** The digests of no bytes, of the byte 97 and of the bytes 97 and 98, as the definition of FNV-1a gives them. */
  lemma KnownDigests()
    ensures Digest(FNV_OFFSET, []) == 0x811c9dc5
    ensures Digest(FNV_OFFSET, [97]) == 0xe40c292c && Folded(0xe40c292c) == 0xe40c292c
    ensures Digest(FNV_OFFSET, [97, 98]) == 0x4d2505ca
    ensures Folded(0) == 1
  {
    hide Xor;
    XorA();
    XorB();
    var none: seq<Byte> := [];
    assert none + [97] == [97] && [97] + [98] == [97, 98];
    DigestSnoc(FNV_OFFSET, none, 97);
    DigestSnoc(FNV_OFFSET, [97], 98);
  }

  /**
   Changing exactly one byte of a payload always changes its raw digest; the checksums then differ too, except
   exactly when one of the digests is 0 and the other 1.
   */
  lemma OneByteChangeDetected(payload: seq<Byte>, i: nat, b: Byte)
    requires i < |payload| && b != payload[i]
    ensures var d, d' := Digest(FNV_OFFSET, payload), Digest(FNV_OFFSET, payload[i := b]);
      && d != d'
      && (Folded(d) == Folded(d') <==> (d == 0 && d' == 1) || (d == 1 && d' == 0))
  {
    hide Mix;
    var front, back := payload[..i], payload[i + 1..];
    assert payload == front + ([payload[i]] + back);
    assert payload[i := b] == front + ([b] + back);
    DigestConcat(FNV_OFFSET, front, [payload[i]] + back);
    DigestConcat(FNV_OFFSET, front, [b] + back);
    var h := Digest(FNV_OFFSET, front);
    assert ([payload[i]] + back)[1..] == back && ([b] + back)[1..] == back;
    if Mix(h, payload[i]) == Mix(h, b) {
      MixInjective(h, payload[i], h, b);
    }
    DigestInjective(Mix(h, payload[i]), Mix(h, b), back);
  }

  /** Record.Verify. */
  predicate Verifies(r: Record) {
    r.checksum == 0 || Folded(Digest(FNV_OFFSET, r.payload)) == r.checksum
  }

  /** A producer's request carries the payload's checksum, or 0 when checksums are off. */
  function Stamp(on: bool, payload: seq<Byte>): (sum: Word32)
    ensures on <==> sum != 0
  {
    if on then Folded(Digest(FNV_OFFSET, payload)) else 0
  }

  /**
   With checksums on, a delivered record whose payload had one byte changed passes Verify exactly when one of the
   two digests is 0 and the other 1.
   */
  lemma CorruptionRefused(q: Request, epoch: nat, slot: nat, i: nat, b: Byte)
    requires q.checksum == Stamp(true, q.payload) && i < |q.payload| && b != q.payload[i]
    ensures var d, d' := Digest(FNV_OFFSET, q.payload), Digest(FNV_OFFSET, q.payload[i := b]);
      var r := Committed(q, epoch, slot).(payload := q.payload[i := b]);
      Verifies(r) <==> (d == 0 && d' == 1) || (d == 1 && d' == 0)
  {
    OneByteChangeDetected(q.payload, i, b);
  }
}
