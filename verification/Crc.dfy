/** The checksum of decoded pictures: a table-driven register against division bit by bit. A register is
    its 32 bits, most significant first, so a shift drops bits at one end and appends zeros at the other. */
module Crc {
  import opened Common
  import opened Bits

  type Register = r: seq<Bit> | |r| == 32 witness Repeat(0, 32)

  /** 0x04c11db7. */
  const POLYNOM: Register :=
    [0, 0, 0, 0, 0, 1, 0, 0] + [1, 1, 0, 0, 0, 0, 0, 1] + [0, 0, 0, 1, 1, 1, 0, 1] + [1, 0, 1, 1, 0, 1, 1, 1]

  lemma PolynomIs()
    ensures POLYNOM == BitsOf(32, 0x04c1_1db7)
  {
    hide *;
    PolynomOctets();
    var a, b, c, d := POLYNOM[24..], POLYNOM[16..24], POLYNOM[8..16], POLYNOM[..8];
    EightBits(a);
    EightBits(b);
    EightBits(c);
    EightBits(d);
    FourOctets(a, b, c, d);
    BitsOfValue(POLYNOM);
  }

  lemma PolynomOctets()
    ensures POLYNOM[..8] == [0, 0, 0, 0, 0, 1, 0, 0] && POLYNOM[8..16] == [1, 1, 0, 0, 0, 0, 0, 1]
    ensures POLYNOM[16..24] == [0, 0, 0, 1, 1, 1, 0, 1] && POLYNOM[24..] == [1, 0, 1, 1, 0, 1, 1, 1]
    ensures POLYNOM == POLYNOM[..8] + POLYNOM[8..16] + POLYNOM[16..24] + POLYNOM[24..]
  {
  }

  function Xor(a: seq<Bit>, b: seq<Bit>): (r: seq<Bit>)
    requires |a| == |b|
    ensures |r| == |a|
  {
    seq(|a|, i requires 0 <= i < |a| => if a[i] == b[i] then 0 else 1)
  }

  function ShiftLeft(a: seq<Bit>, n: nat): (r: seq<Bit>)
    requires n <= |a|
    ensures |r| == |a|
  {
    a[n..] + Repeat(0, n)
  }

  /** One step of the division by the polynomial. */
  function Divide(c: Register): Register {
    if c[0] == 1 then Xor(ShiftLeft(c, 1), POLYNOM) else ShiftLeft(c, 1)
  }

  /** It takes the polynomial of degree 32, when it goes in, away from the register with a zero behind it,
      and leaves no digit at the top. */
  lemma DivideMeans(c: Register)
    ensures [0] + Divide(c) == if c[0] == 1 then Xor(c + [0], [1] + POLYNOM) else c + [0]
  {
    hide POLYNOM;
    assert ShiftLeft(c, 1) == c[1..] + [0];
    if c[0] == 1 {
      assert forall i :: 0 <= i < 32 ==> ([1] + POLYNOM)[i + 1] == POLYNOM[i] && (c + [0])[i + 1] == ShiftLeft(c, 1)[i];
    }
  }

  function Divided(c: Register, n: nat): Register
    decreases n
  {
    if n == 0 then c else Divided(Divide(c), n - 1)
  }

  /** Bits at the top of an otherwise empty register. */
  function AtTop(s: seq<Bit>): Register
    requires |s| <= 32
  {
    s + Repeat(0, 32 - |s|)
  }

  /** The bit-serial checksum of one sample: its bits enter at the top, most significant first, each
      followed by a division step. */
  function Serial(c: Register, s: seq<Bit>): Register
    decreases |s|
  {
    if s == [] then c else Serial(Divide(Xor(c, AtTop([s[0]]))), s[1..])
  }

  /** The bit-serial checksum of samples of d bits. */
  function SerialAll(c: Register, samples: seq<nat>, d: nat): Register {
    if samples == [] then c else Serial(SerialAll(c, samples[..|samples| - 1], d), BitsOf(d, samples[|samples| - 1]))
  }

  // ---------------------------------------------------------------------------------------------
  // Linearity
  // ---------------------------------------------------------------------------------------------

  lemma DivideLinear(x: Register, y: Register)
    requires y[0] == 0
    ensures Divide(Xor(x, y)) == Xor(Divide(x), ShiftLeft(y, 1))
  {
  }

  lemma {:induction false} DividedLinear(x: Register, y: Register, n: nat)
    requires n <= 32 && forall i :: 0 <= i < n ==> y[i] == 0
    ensures Divided(Xor(x, y), n) == Xor(Divided(x, n), ShiftLeft(y, n))
    decreases n
  {
    if n == 0 {
      assert ShiftLeft(y, 0) == y;
    } else {
      DivideLinear(x, y);
      DividedLinear(Divide(x), ShiftLeft(y, 1), n - 1);
      assert ShiftLeft(ShiftLeft(y, 1), n - 1) == ShiftLeft(y, n);
    }
  }

  /** Feeding a sample bit by bit is dividing it away at the top of the register. */
  lemma {:induction false} SerialDivides(c: Register, s: seq<Bit>)
    requires |s| <= 32
    ensures Serial(c, s) == Divided(Xor(c, AtTop(s)), |s|)
    decreases |s|
  {
    if s == [] {
      assert Xor(c, AtTop(s)) == c;
    } else {
      var first, rest := AtTop([s[0]]), [0] + AtTop(s)[1..];
      assert Xor(c, AtTop(s)) == Xor(Xor(c, first), rest);
      DivideLinear(Xor(c, first), rest);
      assert ShiftLeft(rest, 1) == AtTop(s[1..]);
      SerialDivides(Divide(Xor(c, first)), s[1..]);
    }
  }

  /** One table step is d serial steps. */
  lemma TableStep(c: Register, s: seq<Bit>)
    requires |s| <= 32
    ensures Xor(ShiftLeft(c, |s|), Divided(AtTop(Xor(c[..|s|], s)), |s|)) == Serial(c, s)
  {
    hide *;
    var d := |s|;
    var high, low := AtTop(Xor(c[..d], s)), Repeat(0, d) + c[d..];
    SplitTop(c, s);
    DividedLinear(high, low, d);
    SerialDivides(c, s);
    XorSwaps(Divided(high, d), ShiftLeft(c, d));
  }

  lemma SplitTop(c: Register, s: seq<Bit>)
    requires |s| <= 32
    ensures var low := Repeat(0, |s|) + c[|s|..];
            && |low| == 32 && (forall i :: 0 <= i < |s| ==> low[i] == 0)
            && Xor(c, AtTop(s)) == Xor(AtTop(Xor(c[..|s|], s)), low) && ShiftLeft(low, |s|) == ShiftLeft(c, |s|)
  {
  }

  lemma XorSwaps(a: seq<Bit>, b: seq<Bit>)
    requires |a| == |b|
    ensures Xor(a, b) == Xor(b, a)
  {
  }

  // ---------------------------------------------------------------------------------------------
  // The table
  // ---------------------------------------------------------------------------------------------

  /** Entry i of the table for samples of d bits. */
  function Entry(d: nat, i: nat): Register
    requires d <= 32
  {
    Divided(AtTop(BitsOf(d, i)), d)
  }

  lemma EntryIs(d: nat, i: nat)
    requires d <= 32
    ensures Entry(d, i) == Divided(AtTop(BitsOf(d, i)), d)
  {
  }

  lemma NotDivided(c: Register)
    ensures Divided(c, 0) == c
  {
  }

  lemma {:induction false} DividedLast(c: Register, n: nat)
    ensures Divided(c, n + 1) == Divide(Divided(c, n))
    decreases n
  {
    hide Divide;
    if n > 0 {
      DividedLast(Divide(c), n - 1);
    }
  }

  /** The table is static in the source: it is filled on the first call, for the depth of that call. */
  class CrcTable {
    const crc32_table: array<Register>
    var bInitCRC: bool
    ghost var depth: nat

    ghost predicate Valid()
      reads this, crc32_table
    {
      && crc32_table.Length == 1024
      && (bInitCRC ==> depth <= 10 && Pow2(depth) <= 1024
                       && forall i :: 0 <= i < Pow2(depth) ==> crc32_table[i] == Entry(depth, i))
    }

    constructor ()
      ensures Valid() && !bInitCRC
    {
      crc32_table := new Register[1024](_ => Repeat(0, 32));
      bInitCRC := false;
    }

    method InitCrc32(bitdepth: nat)
      requires crc32_table.Length == 1024 && bitdepth <= 10
      modifies crc32_table
      ensures Pow2(bitdepth) <= 1024
      ensures forall i :: 0 <= i < Pow2(bitdepth) ==> crc32_table[i] == Entry(bitdepth, i)
    {
      hide *;
      TableSize(bitdepth);
      var size := Pow2(bitdepth);
      for i := 0 to size
        invariant forall k :: 0 <= k < i ==> crc32_table[k] == Entry(bitdepth, k)
      {
        var crcPrecalc := Precalculated(bitdepth, i);
        crc32_table[i] := crcPrecalc;
      }
    }

    /** The inner loop: bit by bit. */
    method Precalculated(bitdepth: nat, i: nat) returns (crcPrecalc: Register)
      requires bitdepth <= 10
      ensures crcPrecalc == Entry(bitdepth, i)
    {
      hide *;
      crcPrecalc := AtTop(BitsOf(bitdepth, i));
      ghost var start := crcPrecalc;
      NotDivided(start);
      for j := 0 to bitdepth
        invariant crcPrecalc == Divided(start, j)
      {
        DividedLast(start, j);
        crcPrecalc := Divide(crcPrecalc);
      }
      EntryIs(bitdepth, i);
    }

    /** One sample, stream and output depth equal; the depth never changes once the table is filled. */
    method Crc32(iBd: nat, crc: Register, pix: nat) returns (next: Register)
      requires Valid() && iBd <= 10 && (bInitCRC ==> iBd == depth)
      modifies this, crc32_table
      ensures Valid() && bInitCRC && depth == iBd
      ensures next == Serial(crc, BitsOf(iBd, pix))
    {
      if !bInitCRC {
        InitCrc32(iBd);
        bInitCRC := true;
        depth := iBd;
      }
      var s := BitsOf(iBd, pix);
      var index := Xor(crc[..iBd], s);
      ValueBound(index);
      BitsOfValue(index);
      next := Xor(ShiftLeft(crc, iBd), crc32_table[Value(index)]);
      TableStep(crc, s);
    }

    /** The register over any number of samples. */
    method ComputeCrc(iBd: nat, pBuf: seq<nat>) returns (crc: Register)
      requires Valid() && iBd <= 10 && (bInitCRC ==> iBd == depth)
      modifies this, crc32_table
      ensures Valid() && crc == SerialAll(Repeat(1, 32), pBuf, iBd)
    {
      crc := Repeat(1, 32);
      for iPix := 0 to |pBuf|
        invariant Valid() && (bInitCRC ==> iBd == depth)
        invariant crc == SerialAll(Repeat(1, 32), pBuf[..iPix], iBd)
      {
        assert pBuf[..iPix + 1][..iPix] == pBuf[..iPix];
        crc := Crc32(iBd, crc, pBuf[iPix]);
      }
      assert pBuf[..|pBuf|] == pBuf;
    }
  }

  lemma TableSize(d: nat)
    requires d <= 10
    ensures Pow2(d) <= 1024
  {
    Pow2Add(d, 10 - d);
    Pow2Add(8, 2);
    assert Pow2(4) == 16 && Pow2(8) == 256 && Pow2(2) == 4;
    hide Pow2;
    if Pow2(d) > 1024 {
      MulLessOrEqual(Pow2(d), 1, Pow2(10 - d));
    }
  }

}
