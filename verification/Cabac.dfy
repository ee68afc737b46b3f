/** The arithmetic encoder in place: registers, context arrays and bit stream are updated, and every
    call is proved to do what CabacModel says. */
module Cabac {
  import opened Common
  import opened Bits
  import opened BitStreamLite
  import opened CabacTables
  import opened CabacModel

  /** The contexts held by two parallel arrays. */
  ghost function Contexts(pState: array<StateIdx>, pValMPS: array<Bit>): seq<Context>
    requires pState.Length == pValMPS.Length
    reads pState, pValMPS
  {
    seq(pState.Length, i requires 0 <= i < pState.Length reads pState, pValMPS => Context(pState[i], pValMPS[i]))
  }

  class CabacCtx {
    var uLow: nat
    var uRange: nat
    var uOut: nat
    var uFirst: nat

    /** The coder these registers and the stream they write to form. */
    ghost function Coder(bs: BitStream): Coder
      reads this, bs
    {
      CabacModel.Coder(uLow, uRange, uOut, uFirst != 0, bs.written)
    }

    constructor ()
      ensures uLow == 0 && uRange == 0x1FE && uOut == 0 && uFirst == 1
    {
      uLow := 0;
      uRange := 0x1FE;
      uOut := 0;
      uFirst := 1;
    }

    method PutBit(bs: BitStream, b: Bit)
      requires bs.Valid()
      modifies this`uOut, this`uFirst, bs`iBitCount, bs`isOverflow, bs`written, bs.pData
      ensures bs.Valid() && Coder(bs) == Emit(old(Coder(bs)), b)
    {
      hide Packed, BitsOf, BitStream.Valid, Pow2, Repeat;
      NoRun(1 - b);
      if uFirst != 0 {
        uFirst := 0;
      } else {
        bs.PutBit(b);
      }
      ghost var before := bs.written;
      assert before == old(bs.written) + if old(uFirst) != 0 then [] else [b];
      if uOut == 0 {
        assert before + [] == before;
        return;
      }
      var uValue: nat := (1 - b) * (UINT32 - 1);
      var iNumBits: nat := uOut;
      Ones(b, 32);
      while iNumBits > 32
        invariant bs.Valid() && 0 < iNumBits <= uOut == old(uOut) && uFirst == 0
        invariant bs.written == before + Repeat<Bit>(1 - b, uOut - iNumBits)
      {
        bs.PutBits(32, uValue);
        iNumBits := iNumBits - 32;
        RunAppend(1 - b, uOut - iNumBits - 32, 32);
      }
      Ones(b, iNumBits);
      bs.PutBits(iNumBits, Shr(uValue, 32 - iNumBits));
      RunAppend(1 - b, uOut - iNumBits, iNumBits);
      uOut := 0;
    }

    method RenormE(bs: BitStream)
      requires bs.Valid() && Coder(bs).Fits() && uRange < 512
      modifies this, bs`iBitCount, bs`isOverflow, bs`written, bs.pData
      ensures bs.Valid() && Coder(bs) == Renorm(old(Coder(bs)))
    {
      while uRange < 0x100
        invariant bs.Valid() && Coder(bs).Fits() && uRange < 512
        invariant Renorm(Coder(bs)) == Renorm(old(Coder(bs)))
        decreases 512 - uRange
      {
        if uLow >= 0x200 || uLow < 0x100 {
          PutBit(bs, uLow / 512);
          uLow := uLow % 512;
        } else {
          uOut := uOut + 1;
          uLow := uLow - 0x100;
        }
        uLow := uLow * 2;
        uRange := uRange * 2;
      }
    }

    /** Codes one bin with the context at index i of the two arrays. */
    method WriteBin(bs: BitStream, pState: array<StateIdx>, pValMPS: array<Bit>, i: nat, iBinVal: Bit)
      requires bs.Valid() && Ready(Coder(bs))
      requires pState.Length == pValMPS.Length && i < pState.Length
      modifies this, bs`iBitCount, bs`isOverflow, bs`written, bs.pData, pState, pValMPS
      ensures bs.Valid()
      ensures Coder(bs) == old(Step(Coder(bs), Contexts(pState, pValMPS), Regular(i, iBinVal)))
      ensures Contexts(pState, pValMPS) == old(AdaptAll(Contexts(pState, pValMPS), Regular(i, iBinVal)))
    {
      TableSizes();
      ghost var c, xs := Coder(bs), Contexts(pState, pValMPS);
      var uCodIRangeLPS := TAB_RANGE_LPS[pState[i]].At(uRange / 64 % 4);
      uRange := uRange - uCodIRangeLPS;
      if pValMPS[i] != iBinVal {
        uLow := uLow + uRange;
        uRange := uCodIRangeLPS;
        if pState[i] == 0 {
          pValMPS[i] := 1 - pValMPS[i];
        }
        pState[i] := TRANS_IDX_LPS[pState[i]];
      } else {
        pState[i] := TRANS_IDX_MPS[pState[i]];
      }
      assert Coder(bs) == NarrowBin(c, xs[i], iBinVal);
      assert Contexts(pState, pValMPS) == AdaptAll(xs, Regular(i, iBinVal));
      hide NarrowBin, AdaptAll, Renorm;
      RenormE(bs);
    }

    method Terminate(bs: BitStream, iBinVal: Bit)
      requires bs.Valid() && Ready(Coder(bs))
      modifies this, bs`iBitCount, bs`isOverflow, bs`written, bs.pData
      ensures bs.Valid()
      ensures Coder(bs) == old(Renorm(NarrowTerminate(Coder(bs), iBinVal)))
    {
      uRange := uRange - 2;
      if iBinVal == 1 {
        uLow := uLow + uRange;
        uRange := 2;
      }
      RenormE(bs);
    }

    method Finish(bs: BitStream)
      requires bs.Valid()
      modifies this, bs`iBitCount, bs`isOverflow, bs`written, bs.pData
      ensures bs.Valid() && bs.written == Finished(old(Coder(bs)))
    {
      ghost var c := Coder(bs);
      PutBit(bs, uLow / 512 % 2);
      var two := uLow / 128 % 4;
      StopBit(uLow);
      bs.PutBits(2, two - two % 2 + 1);
      assert bs.written == Flushed(c);
      bs.AlignWithBits(0);
    }
  }

  lemma NoRun(b: Bit)
    ensures Repeat(b, 0) == []
  {
  }

  lemma RunAppend(b: Bit, m: nat, n: nat)
    ensures Repeat(b, m + n) == Repeat(b, m) + Repeat(b, n)
  {
  }

  lemma Ones(b: Bit, n: nat)
    requires n <= 32
    ensures (1 - b) * (UINT32 - 1) < Pow2(32)
    ensures Shr((1 - b) * (UINT32 - 1), 32 - n) < Pow2(n)
    ensures BitsOf(n, Shr((1 - b) * (UINT32 - 1), 32 - n)) == Repeat<Bit>(1 - b, n)
  {
    Pow2Of32();
    ShrOnes(n, 32 - n);
    BitsOfOnes(n);
    BitsOfZero(n);
  }

  lemma Pow2Of32()
    ensures Pow2(32) == UINT32
  {
    Pow2Of8();
    Pow2Add(8, 8);
    Pow2Add(16, 16);
  }

  /** OR-ing the lowest bit in makes it the stop bit. */
  lemma StopBit(low: nat)
    ensures var two := low / 128 % 4;
            var v := two - two % 2 + 1;
            0 <= v < Pow2(2) && BitsOf(2, v) == [low / 256 % 2, 1]
  {
    var two := low / 128 % 4;
    var v := two - two % 2 + 1;
    assert low / 256 == low / 128 / 2;
    assert v / 2 == low / 256 % 2 && v % 2 == 1;
    assert BitsOf(1, v / 2) == [v / 2 % 2];
    assert BitsOf(2, v) == [v / 2 % 2] + [v % 2];
    assert Pow2(2) == 4;
  }
}
