/** Unsigned 64-bit words as numbers: bitwise AND, masks, power-of-two tests, alignment and wrapped differences. */
module Bits {

  const TWO63: nat := 0x8000_0000_0000_0000
  const TWO64: nat := 0x1_0000_0000_0000_0000

  function Pow2(k: nat): (p: nat)
    ensures 1 <= p
  {
    if k == 0 then 1 else 2 * Pow2(k - 1)
  }

  /** Bitwise AND, bit by bit. */
  function And(a: nat, b: nat): nat
    decreases a
  {
    if a == 0 then 0 else 2 * And(a / 2, b / 2) + (a % 2) * (b % 2)
  }

  /** Bitwise AND-NOT, bit by bit. */
  function AndNot(a: nat, b: nat): nat
    decreases a
  {
    if a == 0 then 0 else 2 * AndNot(a / 2, b / 2) + (a % 2) * (1 - b % 2)
  }

  /** Bitwise exclusive or, bit by bit. */
  function Xor(a: nat, b: nat): nat
    decreases a + b
  {
    if a == 0 then b else if b == 0 then a else 2 * Xor(a / 2, b / 2) + BitXor(a % 2, b % 2)
  }

  /** One step of Xor, also when an operand is zero. */
  lemma {:induction false} XorStep(a: nat, b: nat)
    ensures Xor(a, b) == 2 * Xor(a / 2, b / 2) + BitXor(a % 2, b % 2)
  {
  }

  /** The last bit of an exclusive or, and the rest. */
  lemma XorBit(a: nat, p: nat, b: nat, q: nat)
    requires p < 2 && q < 2
    ensures Xor(2 * a + p, 2 * b + q) == 2 * Xor(a, b) + (p + q) % 2
  {
    hide Xor;
    XorStep(2 * a + p, 2 * b + q);
    HalfAndBit(2 * a + p, a, p);
    HalfAndBit(2 * b + q, b, q);
  }

  lemma XorZero(a: nat)
    ensures Xor(a, 0) == a
  {
  }

  lemma XorTwiceStep(a: nat, b: nat)
    requires Xor(Xor(a / 2, b / 2), b / 2) == a / 2
    ensures Xor(Xor(a, b), b) == a
  {
    var half, bit := Xor(a / 2, b / 2), BitXor(a % 2, b % 2);
    XorStep(a, b);
    XorStep(Xor(a, b), b);
    hide Xor;
    HalfAndBit(Xor(a, b), half, bit);
    BitXorTwice(a % 2, b % 2);
  }

  function BitXor(p: nat, q: nat): (r: nat)
    ensures r < 2
  {
    (p + q) % 2
  }

  lemma BitXorTwice(p: nat, q: nat)
    requires p < 2 && q < 2
    ensures BitXor(BitXor(p, q), q) == p
  {
  }

  lemma HalfAndBit(x: nat, half: nat, bit: nat)
    requires bit < 2 && x == 2 * half + bit
    ensures x / 2 == half && x % 2 == bit
  {
  }

  /** Exclusive or with b is its own inverse. */
  lemma {:induction false} XorTwice(a: nat, b: nat)
    ensures Xor(Xor(a, b), b) == a
    decreases a + b
  {
    if a > 0 && b > 0 {
      XorTwice(a / 2, b / 2);
      XorTwiceStep(a, b);
    } else if a == 0 {
      XorSelf(b);
    }
  }

  lemma {:induction false} XorSelf(b: nat)
    ensures Xor(b, b) == 0
  {
    if b > 0 {
      XorSelf(b / 2);
      assert BitXor(b % 2, b % 2) == 0;
    }
  }

  lemma {:induction false} XorComm(a: nat, b: nat)
    ensures Xor(a, b) == Xor(b, a)
    decreases a + b
  {
    if a > 0 && b > 0 {
      XorComm(a / 2, b / 2);
    }
  }

  lemma {:induction false} XorBound(a: nat, b: nat, k: nat)
    requires a < Pow2(k) && b < Pow2(k)
    ensures Xor(a, b) < Pow2(k)
    decreases k
  {
    if a > 0 && b > 0 {
      XorBound(a / 2, b / 2, k - 1);
    }
  }

  lemma {:induction false} HalfMod(a: nat, k: nat)
    requires 0 < k
    ensures a % Pow2(k) == 2 * ((a / 2) % Pow2(k - 1)) + a % 2
  {
    var m := Pow2(k - 1);
    var q, r := (a / 2) / m, (a / 2) % m;
    assert a == 2 * (q * m + r) + a % 2;
    assert a == q * (2 * m) + (2 * r + a % 2);
    ModIs(a, q, 2 * r + a % 2, 2 * m);
  }

  lemma ModIs(x: int, q: int, r: int, d: int)
    requires 0 <= r < d && x == q * d + r
    ensures x % d == r && x / d == q
  {
    var k := x / d - q;
    assert k * d == r - x % d;
    assert k > 0 ==> k * d >= d;
    assert k < 0 ==> k * d <= (0 - 1) * d;
  }

  /** Masking with 2^k - 1 is the remainder modulo 2^k. */
  lemma {:induction false} MaskIsMod(a: nat, k: nat)
    ensures And(a, Pow2(k) - 1) == a % Pow2(k)
    decreases k
  {
    if k == 0 {
      AndZero(a);
    } else {
      MaskIsMod(a / 2, k - 1);
      HalfMod(a, k);
      MaskStep(a, k);
    }
  }

  /** The lowest bit passes a mask of k > 0 ones. */
  lemma MaskStep(a: nat, k: nat)
    requires 0 < k
    ensures And(a, Pow2(k) - 1) == 2 * And(a / 2, Pow2(k - 1) - 1) + a % 2
  {
    var m := Pow2(k) - 1;
    assert m == 2 * (Pow2(k - 1) - 1) + 1;
    HalfAndBit(m, Pow2(k - 1) - 1, 1);
    hide Pow2;
    assert And(a, m) == 2 * And(a / 2, m / 2) + (a % 2) * (m % 2);
  }

  lemma {:induction false} AndZero(a: nat)
    ensures And(a, 0) == 0
  {
    if a > 0 {
      AndZero(a / 2);
    }
  }

  lemma {:induction false} AndNotIsDifference(a: nat, b: nat)
    ensures And(a, b) <= a && AndNot(a, b) == a - And(a, b)
    decreases a
  {
    if a > 0 {
      AndNotIsDifference(a / 2, b / 2);
      BitSplits(a % 2, b % 2);
      assert And(a, b) == 2 * And(a / 2, b / 2) + (a % 2) * (b % 2);
      assert AndNot(a, b) == 2 * AndNot(a / 2, b / 2) + (a % 2) * (1 - b % 2);
      hide And;
      hide AndNot;
    }
  }

  lemma BitSplits(p: nat, q: nat)
    requires p < 2 && q < 2
    ensures p * q + p * (1 - q) == p && 0 <= p * q <= p
  {
    if p == 0 {
    } else {
      assert p == 1;
    }
  }

  /** isPow2: n is not zero and shares no bit with its predecessor. */
  predicate IsPow2(n: nat) { n != 0 && And(n, n - 1) == 0 }

  lemma {:induction false} IsPow2Complete(k: nat)
    ensures IsPow2(Pow2(k))
  {
    MaskIsMod(Pow2(k), k);
    ModIs(Pow2(k), 1, 0, Pow2(k));
  }

  lemma OddSharesTopBits(h: nat)
    requires 0 < h
    ensures And(2 * h + 1, 2 * h) == 2 * h
  {
    var a, b := 2 * h + 1, 2 * h;
    assert a / 2 == h && b / 2 == h && b % 2 == 0;
    assert And(a, b) == 2 * And(h, h) + (a % 2) * 0;
    AndSelf(h);
  }

  lemma EvenHalves(h: nat)
    requires 0 < h
    ensures And(2 * h, 2 * h - 1) == 2 * And(h, h - 1)
  {
    assert (2 * h - 1) / 2 == h - 1;
  }

  /** A number other than 1 that passes the bit test is even, and its half passes it. */
  lemma HalfIsPow2(n: nat)
    requires IsPow2(n) && n != 1
    ensures n == 2 * (n / 2) && IsPow2(n / 2)
  {
    hide And;
    OddSharesTopBits(n / 2);
    EvenHalves(n / 2);
  }

  lemma {:induction false} IsPow2Sound(n: nat) returns (k: nat)
    requires IsPow2(n)
    ensures n == Pow2(k)
  {
    if n == 1 {
      k := 0;
    } else {
      HalfIsPow2(n);
      hide IsPow2;
      var j := IsPow2Sound(n / 2);
      k := j + 1;
    }
  }

  lemma BitSquare(b: nat)
    requires b < 2
    ensures b * b == b
  {
    if b == 0 {
    } else {
      assert b == 1;
    }
  }

  lemma {:induction false} AndSelf(a: nat)
    ensures And(a, a) == a
  {
    if a > 0 {
      AndSelf(a / 2);
      BitSquare(a % 2);
      AndSelfStep(a);
    }
  }

  lemma AndSelfStep(a: nat)
    requires 0 < a && And(a / 2, a / 2) == a / 2 && (a % 2) * (a % 2) == a % 2
    ensures And(a, a) == a
  {
    assert And(a, a) == 2 * And(a / 2, a / 2) + (a % 2) * (a % 2);
    hide And;
  }

  /** The bit test accepts exactly the powers of two. */
  lemma IsPow2Exact(n: nat)
    ensures IsPow2(n) <==> exists k :: n == Pow2(k)
  {
    if IsPow2(n) {
      var k := IsPow2Sound(n);
    }
    forall k | n == Pow2(k) ensures IsPow2(n) {
      IsPow2Complete(k);
    }
  }

  // ----------------------------------------------------------------- alignment

  /** alignUp on 64-bit words: the addition wraps. */
  function AlignUp(n: nat, align: nat): nat
    requires 0 < align
  {
    AndNot((n + align - 1) % TWO64, align - 1)
  }

  predicate IsAligned(addr: nat, align: nat)
    requires 0 < align
  {
    And(addr, align - 1) == 0
  }

  lemma AlignedIsMultiple(addr: nat, k: nat)
    ensures IsAligned(addr, Pow2(k)) <==> addr % Pow2(k) == 0
  {
    MaskIsMod(addr, k);
  }

  /** What alignUp computes: the wrapped sum, cut down to a multiple of the alignment. */
  lemma AlignUpIs(n: nat, k: nat)
    ensures var sum := (n + Pow2(k) - 1) % TWO64;
      && AlignUp(n, Pow2(k)) == sum - sum % Pow2(k)
      && AlignUp(n, Pow2(k)) % Pow2(k) == 0
  {
    var align := Pow2(k);
    var sum := (n + align - 1) % TWO64;
    MaskIsMod(sum, k);
    AndNotIsDifference(sum, align - 1);
    DownIsMultiple(sum, align);
  }

  lemma DownIsMultiple(x: nat, d: nat)
    requires 0 < d
    ensures (x - x % d) % d == 0
  {
    ModIs(x - x % d, x / d, 0, d);
  }

  /** Within one alignment of the top of the address space the addition wraps, and alignUp returns 0. */
  lemma AlignUpWraps(n: nat, k: nat)
    requires TWO64 - Pow2(k) < n < TWO64 && Pow2(k) <= TWO63
    ensures AlignUp(n, Pow2(k)) == 0
  {
    AlignUpIs(n, k);
    ModIs(n + Pow2(k) - 1, 1, n + Pow2(k) - 1 - TWO64, TWO64);
    ModIs(n + Pow2(k) - 1 - TWO64, 0, n + Pow2(k) - 1 - TWO64, Pow2(k));
  }

  lemma AlignUpBounds(n: nat, k: nat)
    requires n <= TWO64 - Pow2(k) && Pow2(k) <= TWO63
    ensures n <= AlignUp(n, Pow2(k)) < n + Pow2(k)
  {
    AlignUpIs(n, k);
    ModIs(n + Pow2(k) - 1, 0, n + Pow2(k) - 1, TWO64);
  }

  /**
   alignUp returns the least multiple of align that is not below n, exactly when n lies at least one alignment
   below the top of the address space; above that the addition wraps and the result is 0.
   */
  lemma AlignUpLeast(n: nat, k: nat)
    requires n < TWO64 && Pow2(k) <= TWO63
    ensures var align, r := Pow2(k), AlignUp(n, Pow2(k));
      && r % align == 0
      && (n <= r <==> n <= TWO64 - align)
      && (n <= TWO64 - align ==> r < n + align && r <= TWO64 - align)
      && (n <= TWO64 - align ==> forall m: nat :: n <= m && m % align == 0 ==> r <= m)
      && (n > TWO64 - align ==> r == 0)
  {
    var align, r := Pow2(k), AlignUp(n, Pow2(k));
    AlignUpIs(n, k);
    if n <= TWO64 - align {
      AlignUpBounds(n, k);
      TopIsMultiple(k);
      if TWO64 - align < r {
        NoMultipleBetween(TWO64 - align, r, align);
      }
      forall m: nat | n <= m && m % align == 0 ensures r <= m {
        if m < r {
          NoMultipleBetween(m, r, align);
        }
      }
    } else {
      AlignUpWraps(n, k);
    }
  }

  /** Two multiples of d are at least d apart. */
  lemma NoMultipleBetween(a: nat, b: nat, d: nat)
    requires 0 < d && a % d == 0 && b % d == 0 && a < b
    ensures a + d <= b
  {
    var k := b / d - a / d;
    assert b - a == k * d;
    assert k <= 0 ==> k * d <= 0;
    assert k >= 1 ==> k * d >= d;
  }

  lemma {:induction false} TopIsMultiple(k: nat)
    requires Pow2(k) <= TWO63
    ensures (TWO64 - Pow2(k)) % Pow2(k) == 0
  {
    PowersTo64();
    var j := LogOf(k);
    PowSum(k, j);
    var m := Pow2(j);
    assert TWO64 - Pow2(k) == (m - 1) * Pow2(k) + 0;
    ModIs(TWO64 - Pow2(k), m - 1, 0, Pow2(k));
  }

  lemma {:induction false} PowSum(j: nat, k: nat)
    ensures Pow2(j + k) == Pow2(j) * Pow2(k)
  {
    if j > 0 {
      PowSum(j - 1, k);
      assert 2 * Pow2(j - 1) * Pow2(k) == Pow2(j) * Pow2(k);
    }
  }

  lemma PowersTo64()
    ensures Pow2(64) == TWO64 && Pow2(63) == TWO63
  {
    assert Pow2(8) == 256;
    PowSum(8, 8);
    PowSum(16, 16);
    PowSum(32, 31);
    PowSum(16, 15);
    assert Pow2(15) == 32768 by { PowSum(8, 7); assert Pow2(7) == 128; }
  }

  lemma LogOf(k: nat) returns (j: nat)
    requires Pow2(k) <= TWO63
    ensures j == 64 - k
  {
    PowersTo64();
    if k > 63 {
      PowGrows(63, k);
    }
    j := 64 - k;
  }

  lemma {:induction false} PowGrows(j: nat, k: nat)
    requires j < k
    ensures Pow2(j) < Pow2(k)
  {
    if j + 1 < k {
      PowGrows(j, k - 1);
    }
  }

  // ----------------------------------------------------------------- wrapped positions

  /** The 64-bit word that holds an unbounded position. */
  function Word64(x: int): (w: nat)
    ensures w < TWO64
  {
    x % TWO64
  }

  /** Subtraction of two words read as signed 64-bit integers, with wrap-around. */
  function SignedDifference(a: nat, b: nat): int {
    var d := (a - b) % TWO64;
    if d < TWO63 then d else d - TWO64
  }

  /** The wrapped signed difference of two positions is their true difference while that stays below 2^63. */
  lemma SignedDifferenceExact(a: nat, b: nat)
    requires -(TWO63 as int) <= a - b < TWO63
    ensures SignedDifference(Word64(a), Word64(b)) == a - b
  {
  }

  /** Masking the wrapped word of a position still yields the position modulo the capacity, even past 2^64. */
  lemma MaskSurvivesWrap(pos: nat, k: nat)
    requires k <= 64
    ensures And(Word64(pos), Pow2(k) - 1) == pos % Pow2(k)
  {
    var w := Word64(pos);
    MaskIsMod(w, k);
    PowersTo64();
    PowSum(64 - k, k);
    ModOfMod(pos, Pow2(64 - k), Pow2(k));
  }

  /** Reducing modulo a multiple of c first does not change the remainder modulo c. */
  lemma ModOfMod(x: nat, m: nat, c: nat)
    requires 0 < m && 0 < c && 0 < m * c
    ensures (x % (m * c)) % c == x % c
  {
    var q, w := x / (m * c), x % (m * c);
    Regroup(q, m, c, w / c);
    ModIs(x, q * m + w / c, w % c, c);
  }

  lemma Regroup(q: int, m: int, c: int, u: int)
    ensures q * (m * c) + u * c == (q * m + u) * c
  {
  }

  /** Comparing two wrapped positions as unsigned words is right exactly when no multiple of 2^64 separates them. */
  lemma UnsignedCompareExact(pos: nat, bound: nat)
    requires pos <= bound < pos + TWO64
    ensures (Word64(pos) >= Word64(bound) <==> pos >= bound) <==> (pos == bound || pos / TWO64 == bound / TWO64)
  {
  }
}
