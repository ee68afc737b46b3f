/** Bit strings, most significant bit first, and their values. */
module Bits {
  import opened Common

  type Bit = b: int | 0 <= b <= 1

  type Byte = b: int | 0 <= b < 256

  /** 2 to the power n. */
  function Pow2(n: nat): (p: nat)
    ensures p >= 1
  {
    if n == 0 then 1 else 2 * Pow2(n - 1)
  }

  /** v shifted right by n places. */
  function Shr(v: nat, n: nat): nat {
    if n == 0 then v else Shr(v / 2, n - 1)
  }

  /** v shifted left by n places. */
  function Shl(v: nat, n: nat): nat {
    if n == 0 then v else 2 * Shl(v, n - 1)
  }

  /** The number a big-endian bit string denotes. */
  function Value(bits: seq<Bit>): nat {
    if bits == [] then 0 else 2 * Value(bits[..|bits| - 1]) + bits[|bits| - 1]
  }

  /** The low n bits of v, most significant first. */
  function BitsOf(n: nat, v: nat): (bits: seq<Bit>)
    ensures |bits| == n
  {
    if n == 0 then [] else BitsOf(n - 1, v / 2) + [v % 2]
  }

  lemma {:induction false} Pow2Add(m: nat, n: nat)
    ensures Pow2(m + n) == Pow2(m) * Pow2(n)
  {
    if n == 0 {
    } else {
      Pow2Add(m, n - 1);
      assert Pow2(m + n) == 2 * (Pow2(m) * Pow2(n - 1)) == Pow2(m) * (2 * Pow2(n - 1));
    }
  }

  lemma {:induction false} ValueBound(bits: seq<Bit>)
    ensures Value(bits) < Pow2(|bits|)
  {
    if bits != [] {
      ValueBound(bits[..|bits| - 1]);
    }
  }

  lemma {:induction false} ValueAppend(a: seq<Bit>, b: seq<Bit>)
    ensures Value(a + b) == Value(a) * Pow2(|b|) + Value(b)
  {
    if b == [] {
      assert a + b == a;
    } else {
      var b' := b[..|b| - 1];
      ValueAppend(a, b');
      assert (a + b)[..|a + b| - 1] == a + b';
      assert Value(a + b) == 2 * (Value(a) * Pow2(|b'|) + Value(b')) + b[|b| - 1];
      assert 2 * (Value(a) * Pow2(|b'|)) == Value(a) * (2 * Pow2(|b'|));
    }
  }

  /** BitsOf and Value are inverse on values that fit. */
  lemma {:induction false} ValueBitsOf(n: nat, v: nat)
    requires v < Pow2(n)
    ensures Value(BitsOf(n, v)) == v
  {
    if n > 0 {
      ValueBitsOf(n - 1, v / 2);
      assert BitsOf(n, v)[..n - 1] == BitsOf(n - 1, v / 2);
    }
  }

  lemma {:induction false} BitsOfValue(bits: seq<Bit>)
    ensures BitsOf(|bits|, Value(bits)) == bits
  {
    if bits != [] {
      BitsOfValue(bits[..|bits| - 1]);
    }
  }

  /** A value splits into its upper m bits and its lower n bits. */
  lemma {:induction false} BitsOfSplit(m: nat, n: nat, v: nat)
    ensures BitsOf(m + n, v) == BitsOf(m, Shr(v, n)) + BitsOf(n, v)
  {
    if n == 0 {
    } else {
      BitsOfSplit(m, n - 1, v / 2);
      var hi, lo := BitsOf(m, Shr(v, n)), BitsOf(n - 1, v / 2);
      assert (hi + lo) + [v % 2] == hi + (lo + [v % 2]);
    }
  }

  lemma {:induction false} ShrIsDiv(v: nat, n: nat)
    ensures Shr(v, n) == v / Pow2(n)
  {
    if n > 0 {
      ShrIsDiv(v / 2, n - 1);
      DivDiv(v, Pow2(n - 1));
    }
  }

  lemma DivDiv(v: nat, d: nat)
    requires d >= 1
    ensures v / 2 / d == v / (2 * d) == v / d / 2
  {
    var q := v / (2 * d);
    var r := v % (2 * d);
    assert v == (2 * d) * q + r;
    assert (2 * d) * q == 2 * (d * q);
    assert v / 2 == d * q + r / 2;
    DivUnique(v / 2, d, q, r / 2);
    var high, low := v / d, v % d;
    assert v == d * high + low;
    assert d * high == 2 * d * (high / 2) + d * (high % 2);
    DivUnique(v, 2 * d, high / 2, d * (high % 2) + low);
  }

  lemma DivUnique(v: int, d: int, q: int, r: int)
    requires d > 0 && 0 <= r < d && v == d * q + r
    ensures v / d == q && v % d == r
  {
    var q' := v / d;
    var r' := v % d;
    assert d * q' + r' == d * q + r;
    assert d * (q' - q) == r - r';
    MulAway(d, q' - q);
  }

  lemma MultipleAligned(c: nat, p: nat)
    requires p > 0
    ensures c * p % p == 0
  {
    DivUnique(c * p, p, c, 0);
  }

  lemma MulAway(d: int, k: int)
    requires d > 0
    ensures k >= 1 ==> d * k >= d
    ensures k <= -1 ==> d * k <= -d
  {
  }

  /** Bits above position n do not matter. */
  lemma {:induction false} BitsOfMod(n: nat, v: nat, w: nat)
    requires v % Pow2(n) == w % Pow2(n)
    ensures BitsOf(n, v) == BitsOf(n, w)
  {
    if n > 0 {
      var d := Pow2(n - 1);
      HalfMod(v, d);
      HalfMod(w, d);
      BitsOfMod(n - 1, v / 2, w / 2);
    }
  }

  lemma HalfMod(v: nat, d: nat)
    requires d >= 1
    ensures v / 2 % d == v % (2 * d) / 2
    ensures v % 2 == v % (2 * d) % 2
  {
    var q := v / (2 * d);
    var r := v % (2 * d);
    assert v == (2 * d) * q + r;
    assert (2 * d) * q == 2 * (d * q);
    assert v / 2 == d * q + r / 2;
    DivUnique(v / 2, d, q, r / 2);
  }

  lemma {:induction false} ValueRepeat(b: Bit, n: nat)
    ensures Value(Repeat(b, n)) == b * (Pow2(n) - 1)
  {
    if n > 0 {
      ValueRepeat(b, n - 1);
      assert Repeat(b, n)[..n - 1] == Repeat(b, n - 1);
    }
  }

  lemma {:induction false} ValueBitsOfMod(n: nat, v: nat)
    ensures Value(BitsOf(n, v)) == v % Pow2(n)
  {
    if n > 0 {
      ValueBitsOfMod(n - 1, v / 2);
      assert BitsOf(n, v)[..n - 1] == BitsOf(n - 1, v / 2);
      HalfMod(v, Pow2(n - 1));
    }
  }

  /** A left shift appends zero bits. */
  lemma {:induction false} BitsOfShl(m: nat, n: nat, v: nat)
    ensures BitsOf(m + n, Shl(v, n)) == BitsOf(m, v) + Repeat(0, n)
  {
    if n > 0 {
      BitsOfShl(m, n - 1, v);
      assert Repeat(0, n) == Repeat(0, n - 1) + [0];
      assert (BitsOf(m, v) + Repeat(0, n - 1)) + [0] == BitsOf(m, v) + (Repeat(0, n - 1) + [0]);
    }
  }

  /** Masking to at least n bits keeps the low n bits. */
  lemma {:induction false} BitsOfMask(n: nat, m: nat, v: nat)
    requires n <= m
    ensures BitsOf(n, v % Pow2(m)) == BitsOf(n, v)
  {
    if n > 0 {
      HalfMod(v, Pow2(m - 1));
      BitsOfMask(n - 1, m - 1, v / 2);
    }
  }

  lemma {:induction false} ShrBound(v: nat, m: nat, n: nat)
    requires v < Pow2(m + n)
    ensures Shr(v, n) < Pow2(m)
  {
    if n > 0 {
      ShrBound(v / 2, m, n - 1);
    }
  }

  lemma {:induction false} BitsOfOnes(n: nat)
    ensures BitsOf(n, Pow2(n) - 1) == Repeat(1, n)
  {
    if n > 0 {
      BitsOfOnes(n - 1);
      assert Repeat(1, n) == Repeat(1, n - 1) + [1];
    }
  }

  lemma {:induction false} BitsOfZero(n: nat)
    ensures BitsOf(n, 0) == Repeat(0, n)
  {
    if n > 0 {
      BitsOfZero(n - 1);
      assert Repeat(0, n) == Repeat(0, n - 1) + [0];
    }
  }

  lemma {:induction false} ShrOnes(m: nat, n: nat)
    ensures Shr(Pow2(m + n) - 1, n) == Pow2(m) - 1
    ensures Shr(0, n) == 0
  {
    if n > 0 {
      ShrOnes(m, n - 1);
    }
  }

  /** Eight bits one by one. */
  lemma EightBits(s: seq<Bit>)
    requires |s| == 8
    ensures var a: nat, b: nat, c: nat, d: nat := s[0], s[1], s[2], s[3];
            var e: nat, f: nat, g: nat, h: nat := s[4], s[5], s[6], s[7];
            Value(s) == 128 * a + 64 * b + 32 * c + 16 * d + 8 * e + 4 * f + 2 * g + h
  {
    hide Value;
    LastBit(s, 8);
    LastBit(s, 7);
    LastBit(s, 6);
    LastBit(s, 5);
    LastBit(s, 4);
    LastBit(s, 3);
    LastBit(s, 2);
    LastBit(s, 1);
    NoBits(s[..0]);
    assert s[..8] == s;
  }

  lemma LastBit(s: seq<Bit>, n: nat)
    requires 0 < n <= |s|
    ensures Value(s[..n]) == 2 * Value(s[..n - 1]) + s[n - 1]
  {
    assert s[..n][..n - 1] == s[..n - 1];
  }

  lemma NoBits(s: seq<Bit>)
    requires s == []
    ensures Value(s) == 0
  {
  }

  lemma FourOctets(a: seq<Bit>, b: seq<Bit>, c: seq<Bit>, d: seq<Bit>)
    requires |a| == |b| == |c| == |d| == 8
    ensures Value(d + c + b + a) == Value(a) + 0x100 * Value(b) + 0x1_0000 * Value(c) + 0x100_0000 * Value(d)
  {
    hide *;
    OctetBehind(d + c + b, a);
    OctetBehind(d + c, b);
    OctetBehind(d, c);
  }

  lemma OctetBehind(w: seq<Bit>, a: seq<Bit>)
    requires |a| == 8
    ensures Value(w + a) == 0x100 * Value(w) + Value(a)
  {
    assert Pow2(4) == 16 && Pow2(8) == 0x100;
    hide Value, Pow2;
    ValueAppend(w, a);
  }
}
