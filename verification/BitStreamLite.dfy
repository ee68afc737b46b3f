/** The byte-wise bit writer. */
module BitStreamLite {
  import opened Common
  import opened Bits

  const UINT32: nat := 0x1_0000_0000

  /** The bits of a byte buffer in reading order. */
  function BufferBits(data: seq<Byte>): (bits: seq<Bit>)
    ensures |bits| == 8 * |data|
  {
    if data == [] then [] else BitsOf(8, data[0]) + BufferBits(data[1..])
  }

  /** How many bits of w fall into byte i, when at least one does. */
  function Filled(w: seq<Bit>, i: nat): (k: nat)
    requires 8 * i < |w|
    ensures 1 <= k <= 8 && 8 * i + k <= |w|
  {
    if |w| - 8 * i < 8 then |w| - 8 * i else 8
  }

  /** The bits of w that fall into byte i, filled up with zeros. */
  function PaddedBits(w: seq<Bit>, i: nat): (bits: seq<Bit>)
    requires 8 * i < |w|
    ensures |bits| == 8
  {
    w[8 * i..8 * i + Filled(w, i)] + Repeat(0, 8 - Filled(w, i))
  }

  /** data holds w in its first size bytes; what does not fit was dropped. */
  ghost predicate Packed(data: seq<Byte>, w: seq<Bit>, size: nat)
  {
    && size <= |data|
    && forall i :: 0 <= i < size && 8 * i < |w| ==> data[i] == Value(PaddedBits(w, i))
  }

  lemma {:induction false} BufferBitsAt(data: seq<Byte>, j: nat)
    requires j < 8 * |data|
    ensures BufferBits(data)[j] == BitsOf(8, data[j / 8])[j % 8]
  {
    if j >= 8 {
      BufferBitsAt(data[1..], j - 8);
      assert (j - 8) / 8 == j / 8 - 1;
    }
  }

  /** The buffer reads back as everything written that fits. */
  lemma PackedReadsBack(data: seq<Byte>, w: seq<Bit>, size: nat)
    requires Packed(data, w, size)
    ensures var n := if |w| <= 8 * size then |w| else 8 * size;
            BufferBits(data)[..n] == w[..n]
  {
    var n := if |w| <= 8 * size then |w| else 8 * size;
    forall j | 0 <= j < n
      ensures j < |BufferBits(data)| && BufferBits(data)[j] == w[j]
    {
      BitReadsBack(data, w, size, j);
    }
  }

  lemma BitReadsBack(data: seq<Byte>, w: seq<Bit>, size: nat, j: nat)
    requires Packed(data, w, size) && j < |w| && j < 8 * size
    ensures j < |BufferBits(data)| && BufferBits(data)[j] == w[j]
  {
    var i := j / 8;
    assert 8 * i <= j < 8 * i + 8;
    BufferBitsAt(data, j);
    BitsOfValue(PaddedBits(w, i));
    hide BitsOf, Value;
    assert j - 8 * i < Filled(w, i);
    assert w[8 * i..8 * i + Filled(w, i)][j - 8 * i] == w[j];
  }

  /** Appending bits inside one byte adds their shifted value to it. */
  lemma PadAppend(w: seq<Bit>, bits: seq<Bit>, n: nat)
    requires |w| + |bits| + n == 8
    ensures Value(w + bits + Repeat(0, n)) == Value(w + Repeat(0, |bits| + n)) + Value(bits + Repeat(0, n))
  {
    assert w + bits + Repeat(0, n) == w + (bits + Repeat(0, n));
    ValueAppend(w, bits + Repeat(0, n));
    ValueAppend(w, Repeat(0, |bits| + n));
    ValueRepeat(0, |bits| + n);
  }

  /** The byte stored for an n-bit field shifted up by k: field bits, then zeros. */
  lemma ShiftedByte(v: nat, m: nat, n: nat)
    requires m + n <= 8
    requires m + n == 8 || v < Pow2(m)
    ensures Shl(v, n) % UINT32 % 256 == Value(BitsOf(m, v) + Repeat(0, n))
  {
    var x := Shl(v, n);
    BitsOfShl(m, n, v);
    TruncateTwice(x);
    if m + n == 8 {
      ValueBitsOfMod(8, x);
      Pow2Of8();
    } else {
      ShlBound(v, m, n);
      BelowByte(x, m + n);
      ValueBitsOf(m + n, x);
    }
  }

  lemma BelowByte(x: nat, k: nat)
    requires k <= 8 && x < Pow2(k)
    ensures x < 256
  {
    Pow2Of8();
    Pow2Add(k, 8 - k);
    MulLessOrEqual(Pow2(k), 1, Pow2(8 - k));
  }

  lemma TruncateTwice(x: nat)
    ensures x % UINT32 % 256 == x % 256
    ensures x < 256 ==> x % 256 == x
  {
  }

  lemma UncarriedAdd(b: nat, x: nat)
    requires b + x % UINT32 % 256 < 256
    ensures (b + x % UINT32) % 256 == b + x % UINT32 % 256
  {
  }

  /** The byte stored at a byte boundary. */
  lemma StoreFresh(w: seq<Bit>, i: nat, n: nat, v: nat)
    requires |w| == 8 * i && 0 < n <= 8
    ensures Shl(v, 8 - n) % UINT32 % 256 == Value(PaddedBits(w + BitsOf(n, v), i))
  {
    var bits := BitsOf(n, v);
    ShiftedByte(v, n, 8 - n);
    assert PaddedBits(w + bits, i) == bits + Repeat(0, 8 - n);
  }

  /** The byte after adding a field to the bits it already holds. */
  lemma StoreAdded(w: seq<Bit>, i: nat, off: nat, n: nat, v: nat, b: Byte)
    requires |w| == 8 * i + off && 0 < off && off + n <= 8
    requires v < Pow2(n)
    requires b == Value(PaddedBits(w, i))
    ensures (b + Shl(v, 8 - off - n) % UINT32) % 256 == Value(PaddedBits(w + BitsOf(n, v), i))
  {
    var rest := 8 - off - n;
    var tail := w[8 * i..];
    PaddedTail(w, [], i, off);
    PaddedTail(w, BitsOf(n, v), i, off);
    AddedByte(tail, n, rest, v, b);
  }

  lemma PaddedTail(w: seq<Bit>, bits: seq<Bit>, i: nat, off: nat)
    requires |w| == 8 * i + off && 0 < off && off + |bits| <= 8
    ensures PaddedBits(w + bits, i) == w[8 * i..] + bits + Repeat(0, 8 - off - |bits|)
    ensures bits == [] ==> PaddedBits(w, i) == w[8 * i..] + Repeat(0, 8 - off)
  {
    assert (w + bits)[8 * i..8 * i + off + |bits|] == w[8 * i..] + bits;
  }

  lemma AddedByte(tail: seq<Bit>, n: nat, rest: nat, v: nat, b: Byte)
    requires |tail| + n + rest == 8 && v < Pow2(n)
    requires b == Value(tail + Repeat(0, n + rest))
    ensures (b + Shl(v, rest) % UINT32) % 256 == Value(tail + BitsOf(n, v) + Repeat(0, rest))
  {
    var bits := BitsOf(n, v);
    ShiftedByte(v, n, rest);
    PadAppend(tail, bits, rest);
    ByteBound(tail + bits + Repeat(0, rest));
    UncarriedAdd(b, Shl(v, rest));
  }

  lemma ByteBound(bits: seq<Bit>)
    requires |bits| == 8
    ensures Value(bits) < 256
  {
    ValueBound(bits);
    Pow2Of8();
  }

  lemma Pow2Of8()
    ensures Pow2(8) == 256
  {
    assert Pow2(4) == 16;
  }

  lemma {:induction false} ShlBound(v: nat, m: nat, n: nat)
    requires v < Pow2(m)
    ensures Shl(v, n) < Pow2(m + n)
  {
    if n > 0 {
      ShlBound(v, m, n - 1);
    }
  }

  /** Writing bits b after w changes only the byte the first of them falls in. */
  lemma PackedAppend(data: seq<Byte>, data': seq<Byte>, w: seq<Bit>, b: seq<Bit>, size: nat)
    requires Packed(data, w, size) && |data'| == |data|
    requires |w| % 8 + |b| <= 8
    requires forall i :: 0 <= i < size && i != |w| / 8 ==> data'[i] == data[i]
    requires |b| > 0 && |w| / 8 < size ==> data'[|w| / 8] == Value(PaddedBits(w + b, |w| / 8))
    requires |w| % 8 > 0 && |w| / 8 < size ==> data'[|w| / 8] == Value(PaddedBits(w + b, |w| / 8))
    ensures Packed(data', w + b, size)
  {
    forall i | 0 <= i < size && 8 * i < |w + b|
      ensures data'[i] == Value(PaddedBits(w + b, i))
    {
      if i < |w| / 8 {
        assert (w + b)[8 * i..8 * i + 8] == w[8 * i..8 * i + 8];
      }
    }
  }

  /** Distance from bit position n to the next byte boundary. */
  function ToByteEnd(n: nat): (k: nat)
    ensures k < 8 && (n + k) % 8 == 0
  {
    if n % 8 == 0 then 0 else 8 - n % 8
  }

  class BitStream {
    var pData: array<Byte>
    var iBitCount: int
    var iMaxBits: int
    var isOverflow: bool
    /** Every bit put so far, dropped or not. */
    ghost var written: seq<Bit>

    ghost predicate Valid()
      reads this, pData
    {
      && iBitCount == |written|
      && iMaxBits >= 0 && iMaxBits % 8 == 0
      && (isOverflow <==> iBitCount > iMaxBits)
      && Packed(pData[..], written, iMaxBits / 8)
    }

    constructor (pBuf: array<Byte>, iMaxSize: nat)
      requires iMaxSize <= pBuf.Length
      ensures Valid() && written == [] && pData == pBuf && iMaxBits == 8 * iMaxSize
    {
      pData := pBuf;
      iBitCount := 0;
      iMaxBits := iMaxSize * 8;
      isOverflow := false;
      written := [];
    }

    method WriteData(iNumBits: nat, uValue: nat)
      requires Valid()
      requires iBitCount % 8 + iNumBits <= 8 && iBitCount + iNumBits <= iMaxBits
      requires iNumBits > 0 || iBitCount != iMaxBits
      requires iBitCount % 8 == 0 || uValue < Pow2(iNumBits)
      modifies pData
      ensures Packed(pData[..], written + BitsOf(iNumBits, uValue), iMaxBits / 8)
      ensures forall i :: iMaxBits / 8 <= i < pData.Length ==> pData[i] == old(pData[i])
    {
      var byteNum := iBitCount / 8;
      var byteOffset := iBitCount % 8;
      if byteOffset == 0 {
        if iNumBits > 0 { StoreFresh(written, byteNum, iNumBits, uValue); }
        pData[byteNum] := Shl(uValue, 8 - iNumBits) % UINT32 % 256;
      } else {
        var bitsLeft := 8 - byteOffset;
        StoreAdded(written, byteNum, byteOffset, iNumBits, uValue, pData[byteNum]);
        pData[byteNum] := (pData[byteNum] + Shl(uValue, bitsLeft - iNumBits) % UINT32) % 256;
      }
      ghost var bits := BitsOf(iNumBits, uValue);
      PackedAppend(old(pData[..]), pData[..], written, bits, iMaxBits / 8);
    }

    method PutInByte(iNumBits: nat, uValue: nat)
      requires Valid()
      requires iBitCount % 8 + iNumBits <= 8
      requires iNumBits > 0 || iBitCount != iMaxBits
      requires iBitCount % 8 == 0 || uValue < Pow2(iNumBits)
      modifies this`iBitCount, this`isOverflow, this`written, pData
      ensures Valid() && written == old(written) + BitsOf(iNumBits, uValue)
      ensures forall i :: iMaxBits / 8 <= i < pData.Length ==> pData[i] == old(pData[i])
    {
      ghost var bits := BitsOf(iNumBits, uValue);
      if iBitCount + iNumBits <= iMaxBits {
        WriteData(iNumBits, uValue);
      } else {
        isOverflow := true;
        PackedAppend(pData[..], pData[..], written, bits, iMaxBits / 8);
      }
      iBitCount := iBitCount + iNumBits;
      written := written + bits;
    }

    /** iNumBits is uint8_t and the caller's value must fit (the source asserts it); an empty put on a
        byte-aligned full buffer is the one the source would write outside the buffer. */
    method PutBits(iNumBits: nat, uValue: nat)
      requires Valid()
      requires iNumBits <= 32 && uValue < Pow2(iNumBits)
      requires iNumBits > 0 || iBitCount != iMaxBits
      modifies this`iBitCount, this`isOverflow, this`written, pData
      ensures Valid() && written == old(written) + BitsOf(iNumBits, uValue)
      ensures forall i :: iMaxBits / 8 <= i < pData.Length ==> pData[i] == old(pData[i])
    {
      hide *;
      ghost var bits := BitsOf(iNumBits, uValue);
      var n: nat, v: nat := iNumBits, uValue;
      var numBitsToWrite := 8 - iBitCount % 8;
      NonePut(bits, n, v, written);
      Room(iBitCount);
      while n > numBitsToWrite
        invariant Valid() && n <= iNumBits && 1 <= numBitsToWrite <= 8 && iBitCount % 8 + numBitsToWrite == 8
        invariant n > 0 || (n == iNumBits && iBitCount != iMaxBits)
        invariant Remains(bits, n, v, old(written), written)
        invariant iBitCount % 8 == 0 || v < Pow2(n)
        invariant forall i: nat :: iMaxBits / 8 <= i < pData.Length ==> pData[i] == old(pData[i])
      {
        var byteValue := Shr(v, n - numBitsToWrite) % 256;
        ChunkPut(bits, n, v, old(written), written, numBitsToWrite);
        Counts();
        NextBoundary(iBitCount, numBitsToWrite);
        PutInByte(numBitsToWrite, byteValue);
        Counts();
        v := v % Pow2(32 - numBitsToWrite);
        n := n - numBitsToWrite;
        numBitsToWrite := 8 - iBitCount % 8;
        Room(iBitCount);
      }
      AllPut(bits, n, v, old(written), written);
      PutInByte(n, v);
    }

    lemma Counts()
      requires Valid()
      ensures iBitCount == |written|
    {
    }

    method PutBit(iBit: Bit)
      requires Valid()
      modifies this`iBitCount, this`isOverflow, this`written, pData
      ensures Valid() && written == old(written) + [iBit]
      ensures forall i :: iMaxBits / 8 <= i < pData.Length ==> pData[i] == old(pData[i])
    {
      assert BitsOf(1, iBit) == [iBit] by {
        assert BitsOf(0, iBit / 2) == [];
      }
      PutBits(1, iBit);
    }

    method AlignWithBits(iBit: Bit)
      requires Valid()
      modifies this`iBitCount, this`isOverflow, this`written, pData
      ensures Valid() && |written| % 8 == 0
      ensures written == old(written) + Repeat(iBit, ToByteEnd(|old(written)|))
      ensures forall i :: iMaxBits / 8 <= i < pData.Length ==> pData[i] == old(pData[i])
    {
      hide Packed, Padding, ToByteEnd;
      NoPadding(written, iBit);
      while iBitCount % 8 != 0
        invariant Valid() && Padding(old(written), written, iBit)
        invariant forall i: nat :: iMaxBits / 8 <= i < pData.Length ==> pData[i] == old(pData[i])
        decreases ToByteEnd(|written|)
      {
        MorePadding(old(written), written, iBit);
        PutBit(iBit);
      }
      AllPadding(old(written), written, iBit);
    }
  }

  /** Bits b have been appended, no more than lack to the byte boundary. */
  ghost predicate Padding(before: seq<Bit>, written: seq<Bit>, b: Bit) {
    |written| + ToByteEnd(|written|) == |before| + ToByteEnd(|before|) && |before| <= |written|
    && written == before + Repeat(b, |written| - |before|)
  }

  lemma NoPadding(before: seq<Bit>, b: Bit)
    ensures Padding(before, before, b)
  {
  }

  lemma MorePadding(before: seq<Bit>, written: seq<Bit>, b: Bit)
    requires Padding(before, written, b) && |written| % 8 != 0
    ensures Padding(before, written + [b], b) && ToByteEnd(|written + [b]|) < ToByteEnd(|written|)
  {
    assert Repeat(b, |written| - |before|) + [b] == Repeat(b, |written| + 1 - |before|);
    hide Repeat;
  }

  lemma AllPadding(before: seq<Bit>, written: seq<Bit>, b: Bit)
    requires Padding(before, written, b) && |written| % 8 == 0
    ensures written == before + Repeat(b, ToByteEnd(|before|))
  {
    hide Repeat;
  }

  lemma Room(c: int)
    ensures 1 <= 8 - c % 8 <= 8
  {
  }

  lemma NextBoundary(c: nat, k: nat)
    requires c % 8 + k == 8
    ensures (c + k) % 8 == 0
  {
  }

  /** Of the bits of a put the last n, those of v, are still to go out. */
  ghost predicate Remains(bits: seq<Bit>, n: nat, v: nat, before: seq<Bit>, written: seq<Bit>) {
    n <= |bits| <= 32 && written == before + bits[..|bits| - n] && BitsOf(n, v) == bits[|bits| - n..]
  }

  lemma NonePut(bits: seq<Bit>, n: nat, v: nat, before: seq<Bit>)
    requires n <= 32 && bits == BitsOf(n, v)
    ensures Remains(bits, n, v, before, before)
  {
    assert bits[..0] == [] && bits[0..] == bits;
  }

  lemma ChunkPut(bits: seq<Bit>, n: nat, v: nat, before: seq<Bit>, written: seq<Bit>, k: nat)
    requires Remains(bits, n, v, before, written) && 0 < k <= 8 && k <= n
    ensures n - k <= 32 - k && n <= 32
    ensures Remains(bits, n - k, v % Pow2(32 - k), before, written + BitsOf(k, Shr(v, n - k) % 256))
    ensures v < Pow2(n) ==> Shr(v, n - k) % 256 < Pow2(k)
  {
    hide BitsOf;
    NextChunk(v, n, k, bits);
    assert (before + bits[..|bits| - n]) + BitsOf(k, Shr(v, n - k) % 256) == before + bits[..|bits| - (n - k)];
  }

  lemma AllPut(bits: seq<Bit>, n: nat, v: nat, before: seq<Bit>, written: seq<Bit>)
    requires Remains(bits, n, v, before, written)
    ensures written + BitsOf(n, v) == before + bits
  {
    hide BitsOf;
    assert bits[..|bits| - n] + bits[|bits| - n..] == bits;
  }

  /** One chunk of a put: the top k of the n bits still to go out leave, the rest survives the mask. */
  lemma NextChunk(v: nat, n: nat, k: nat, bits: seq<Bit>)
    requires 0 < k <= 8 && k <= n <= |bits| <= 32
    requires BitsOf(n, v) == bits[|bits| - n..]
    ensures bits[..|bits| - n] + BitsOf(k, Shr(v, n - k) % 256) == bits[..|bits| - (n - k)]
    ensures BitsOf(n - k, v % Pow2(32 - k)) == bits[|bits| - (n - k)..]
    ensures v < Pow2(n) ==> Shr(v, n - k) % 256 < Pow2(k)
  {
    SplitField(v, n, k);
    var cut := |bits| - (n - k);
    assert bits[|bits| - n..][..k] == bits[|bits| - n..cut];
    assert bits[|bits| - n..][k..] == bits[cut..];
    assert bits[..|bits| - n] + bits[|bits| - n..cut] == bits[..cut];
  }

  lemma SplitField(v: nat, n: nat, k: nat)
    requires 0 < k <= 8 && k <= n <= 32
    ensures BitsOf(n, v) == BitsOf(k, Shr(v, n - k) % 256) + BitsOf(n - k, v % Pow2(32 - k))
    ensures v < Pow2(n) ==> Shr(v, n - k) % 256 < Pow2(k)
  {
    BitsOfSplit(k, n - k, v);
    Pow2Of8();
    BitsOfMask(k, 8, Shr(v, n - k));
    BitsOfMask(n - k, 32 - k, v);
    if v < Pow2(n) {
      ShrBound(v, k, n - k);
      BelowByte(Shr(v, n - k), k);
      TruncateTwice(Shr(v, n - k));
    }
  }
}
