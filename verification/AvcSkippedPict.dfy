/** The skipped AVC picture: one slice whose macroblocks are all skipped. */
module AvcSkippedPict {
  import opened Common
  import opened Bits
  import opened BitStreamLite
  import opened CabacTables
  import opened CabacAdaptation
  import opened CabacModel
  import opened CabacDecoder
  import opened Cabac
  import opened Option
  import opened SkippedPictures

  const TAB_STATE: seq<StateIdx> := [6, 3, 0]
  const TAB_VAL_MPS: seq<Bit> := [1, 0, 0]

  /** The context of mb_skip_flag for a cabac_init_idc. */
  function SkipContext(idc: nat): Context
    requires idc < 3
  {
    Context(TAB_STATE[idc], TAB_VAL_MPS[idc])
  }

  /** m and n of ctxIdx 11 in Table 9-13 of H.264, for each cabac_init_idc: mb_skip_flag in P slices when
      both neighbours are skipped or missing. */
  const SKIP_FLAG_INIT: seq<(int, int)> := [(23, 33), (22, 25), (29, 16)]

  /** The table holds what the initialisation of the standard gives for a slice QP of 26. */
  lemma StartsAsStandard(idc: nat)
    requires idc < 3
    ensures SkipContext(idc) == Initialised(SKIP_FLAG_INIT[idc].0, SKIP_FLAG_INIT[idc].1, 26)
  {
  }

  /** The bins of the first k of n macroblocks: mb_skip_flag, then end_of_slice_flag. */
  function MbSymbols(k: nat, n: nat): (syms: seq<Symbol>)
    ensures AllInModel([Context(0, 0)], syms) && |syms| == 2 * k
  {
    if k == 0 then []
    else MbSymbols(k - 1, n) + [Regular(0, 1), Terminate(if k == n then 1 else 0)]
  }

  /** Coder and context after the first k of n macroblocks. */
  function AfterMbs(c: Coder, x: Context, k: nat, n: nat): (r: (Coder, seq<Context>))
    requires Ready(c)
    ensures Ready(r.0) && |r.1| == 1
  {
    if k == 0 then (c, [x])
    else
      var (m, xs) := AfterMbs(c, x, k - 1, n);
      (AfterMb(m, xs, if k == n then 1 else 0), AdaptAll(xs, Regular(0, 1)))
  }

  /** Coder after one more macroblock. */
  function AfterMb(c: Coder, xs: seq<Context>, last: Bit): (r: Coder)
    requires Ready(c) && |xs| == 1
    ensures Ready(r)
  {
    Renorm(NarrowTerminate(Step(c, xs, Regular(0, 1)), last))
  }

  lemma NothingEncoded(c: Coder, x: Context)
    requires Ready(c)
    ensures Encode(c, [x], []) == c && Adapted([x], []) == [x]
  {
  }

  lemma {:induction false} AfterMbsEncodes(c: Coder, x: Context, k: nat, n: nat)
    requires Ready(c)
    ensures AllInModel([x], MbSymbols(k, n))
    ensures AfterMbs(c, x, k, n) == (Encode(c, [x], MbSymbols(k, n)), Adapted([x], MbSymbols(k, n)))
  {
    hide LpsRange, Adapt, Renorm, NarrowTerminate, NarrowBin, Encode, Adapted;
    if k == 0 {
      NothingEncoded(c, x);
    } else {
      var syms := MbSymbols(k - 1, n);
      var last: Symbol := Terminate(if k == n then 1 else 0);
      AfterMbsEncodes(c, x, k - 1, n);
      assert MbSymbols(k, n) == (syms + [Regular(0, 1)]) + [last];
      EncodeLast(c, [x], syms + [Regular(0, 1)], last);
      AdaptedLast([x], syms + [Regular(0, 1)], last);
      EncodeLast(c, [x], syms, Regular(0, 1));
      AdaptedLast([x], syms, Regular(0, 1));
    }
  }

  /** The macroblock loop. */
  method CodeMacroblocks(bs: BitStream, ctx: CabacCtx, uState: array<StateIdx>, uValMPS: array<Bit>, iNumMBs: int)
      returns (uBins: nat)
    requires bs.Valid() && Ready(ctx.Coder(bs)) && uState.Length == uValMPS.Length == 1
    modifies bs`iBitCount, bs`isOverflow, bs`written, bs.pData, ctx, uState, uValMPS
    ensures bs.Valid()
    ensures var n := if iNumMBs < 0 then 0 else iNumMBs;
            && uBins == 2 * n
            && ctx.Coder(bs) == AfterMbs(old(ctx.Coder(bs)), old(Context(uState[0], uValMPS[0])), n, n).0
  {
    hide LpsRange, Adapt, AdaptAll, Step, Renorm, NarrowTerminate;
    ghost var n := if iNumMBs < 0 then 0 else iNumMBs;
    ghost var c0, x := ctx.Coder(bs), Context(uState[0], uValMPS[0]);
    assert Contexts(uState, uValMPS) == [x];
    uBins := 0;
    var iMB := 1;
    while iMB <= iNumMBs
      invariant 1 <= iMB <= n + 1
      invariant bs.Valid() && uBins == 2 * (iMB - 1)
      invariant (ctx.Coder(bs), Contexts(uState, uValMPS)) == AfterMbs(c0, x, iMB - 1, n)
    {
      ctx.WriteBin(bs, uState, uValMPS, 0, 1);
      uBins := uBins + 1;
      ctx.Terminate(bs, if iMB == iNumMBs then 1 else 0);
      uBins := uBins + 1;
      iMB := iMB + 1;
    }
  }

  method GenerateSkippedPictureCabac(bs: BitStream, iCabacInitIdc: nat, iNumMBs: int) returns (uBins: nat)
    requires bs.Valid() && iCabacInitIdc < 3
    modifies bs`iBitCount, bs`isOverflow, bs`written, bs.pData
    ensures bs.Valid()
    ensures var n := if iNumMBs < 0 then 0 else iNumMBs;
            && uBins == 2 * n
            && bs.written == Finished(Encode(Start(old(bs.written)), [SkipContext(iCabacInitIdc)], MbSymbols(n, n)))
  {
    hide Finished, AfterMbs, Encode, Adapted, MbSymbols;
    var uState := new StateIdx[1](_ => TAB_STATE[iCabacInitIdc]);
    var uValMPS := new Bit[1](_ => TAB_VAL_MPS[iCabacInitIdc]);
    var ctx := new CabacCtx();
    ghost var n := if iNumMBs < 0 then 0 else iNumMBs;
    AfterMbsEncodes(ctx.Coder(bs), SkipContext(iCabacInitIdc), n, n);
    uBins := CodeMacroblocks(bs, ctx, uState, uValMPS, iNumMBs);
    ctx.Finish(bs);
  }

  // ---------------------------------------------------------------------------------------------
  // Parsing the slice back
  // ---------------------------------------------------------------------------------------------

  /** slice_data (section 7.3.4 of H.264) with entropy_coding_mode_flag 1, as long as every macroblock
      is skipped: how many there are up to the set end_of_slice_flag, and where the decoder stops.
      A bin may cost no bit, so the number of macroblocks is bounded by fuel. */
  function ParseSlice(stream: seq<Bit>, d: Decoder, x: Context, fuel: nat): Option<(nat, Decoder)>
    decreases fuel
  {
    if fuel == 0 || !(256 <= d.range <= 510) then None
    else
      match DecodeDecision(stream, d, x)
      case None => None
      case Some((skip, d')) =>
        if skip == 0 || !(256 <= d'.range <= 510) then None
        else
          match DecodeTerminate(stream, d')
          case None => None
          case Some((end, d'')) =>
            if end == 1 then Some((1, d''))
            else
              match ParseSlice(stream, d'', Transition(x, skip), fuel - 1)
              case None => None
              case Some((n, e)) => Some((n + 1, e))
  }

  lemma {:induction false} MbSymbolsFront(k: nat, n: nat)
    requires 1 <= k <= n
    ensures k < n ==> MbSymbols(k, n) == [Regular(0, 1), Terminate(0)] + MbSymbols(k - 1, n - 1)
    ensures k == n > 1 ==> MbSymbols(k, n) == [Regular(0, 1), Terminate(0)] + MbSymbols(k - 1, n - 1)
  {
    if k > 1 {
      MbSymbolsFront(k - 1, n);
      var a: seq<Symbol> := [Regular(0, 1), Terminate(0)];
      var z: seq<Symbol> := [Regular(0, 1), Terminate(if k == n then 1 else 0)];
      assert (a + MbSymbols(k - 2, n - 1)) + z == a + (MbSymbols(k - 2, n - 1) + z);
    } else {
      assert MbSymbols(0, n) == [];
    }
  }

  lemma HeadBin(stream: seq<Bit>, d: Decoder, x: Context, bin: Bit, bins: seq<Bit>, reqs: seq<Request>,
                e: Decoder, xs: seq<Context>) returns (d': Decoder)
    requires Decode(stream, d, [x], [ForContext(0)] + reqs) == Some(([bin] + bins, e, xs))
    ensures 256 <= d.range <= 510
    ensures DecodeDecision(stream, d, x) == Some((bin, d'))
    ensures Decode(stream, d', [Transition(x, bin)], reqs) == Some((bins, e, xs))
  {
    assert ([ForContext(0)] + reqs)[1..] == reqs;
    var b := DecodeDecision(stream, d, x).value.0;
    d' := DecodeDecision(stream, d, x).value.1;
    assert [x][0 := Transition(x, b)] == [Transition(x, b)];
    SameHead(b, Decode(stream, d', [Transition(x, b)], reqs).value.0, bin, bins);
  }

  lemma HeadTerminate(stream: seq<Bit>, d: Decoder, x: Context, bin: Bit, bins: seq<Bit>, reqs: seq<Request>,
                      e: Decoder, xs: seq<Context>) returns (d': Decoder)
    requires Decode(stream, d, [x], [ForTerminate] + reqs) == Some(([bin] + bins, e, xs))
    ensures 256 <= d.range <= 510
    ensures DecodeTerminate(stream, d) == Some((bin, d'))
    ensures bin == 1 ==> d' == e
    ensures bin == 0 ==> Decode(stream, d', [x], reqs) == Some((bins, e, xs))
  {
    assert ([ForTerminate] + reqs)[1..] == reqs;
    var b := DecodeTerminate(stream, d).value.0;
    d' := DecodeTerminate(stream, d).value.1;
    if b == 0 {
      SameHead(b, Decode(stream, d', [x], reqs).value.0, bin, bins);
    } else {
      SameHead(b, [], bin, bins);
    }
  }

  lemma SameHead(b: Bit, bs: seq<Bit>, c: Bit, cs: seq<Bit>)
    requires [b] + bs == [c] + cs
    ensures b == c && bs == cs
  {
    assert ([b] + bs)[0] == ([c] + cs)[0];
    assert ([b] + bs)[1..] == bs && ([c] + cs)[1..] == cs;
  }

  lemma PairLists(bin: Bit, rest: seq<Symbol>)
    ensures Requests([Regular(0, 1), Terminate(bin)] + rest) == [ForContext(0)] + ([ForTerminate] + Requests(rest))
    ensures Bins([Regular(0, 1), Terminate(bin)] + rest) == [1] + ([bin] + Bins(rest))
  {
    var syms := [Regular(0, 1), Terminate(bin)] + rest;
    assert syms[1..] == [Terminate(bin)] + rest;
    assert syms[1..][1..] == rest;
  }

  lemma SliceFront(n: nat)
    requires 1 <= n
    ensures var rest := if n == 1 then [] else MbSymbols(n - 1, n - 1);
            MbSymbols(n, n) == [Regular(0, 1), Terminate(if n == 1 then 1 else 0)] + rest
  {
    if n == 1 {
      assert MbSymbols(0, n) == [];
    } else {
      MbSymbolsFront(n, n);
    }
  }

  /** The parser's step for a macroblock that is not the last. */
  lemma ParseMore(stream: seq<Bit>, d: Decoder, x: Context, fuel: nat, d': Decoder, d'': Decoder,
                  rest: Option<(nat, Decoder)>)
    requires 1 <= fuel && 256 <= d.range <= 510 && 256 <= d'.range <= 510
    requires DecodeDecision(stream, d, x) == Some((1, d'))
    requires DecodeTerminate(stream, d') == Some((0, d''))
    requires rest == ParseSlice(stream, d'', Transition(x, 1), fuel - 1)
    ensures rest.Some? ==> ParseSlice(stream, d, x, fuel) == Some((rest.value.0 + 1, rest.value.1))
  {
    hide DecodeDecision, DecodeTerminate, Transition;
  }

  lemma ParseLast(stream: seq<Bit>, d: Decoder, x: Context, fuel: nat, d': Decoder, d'': Decoder)
    requires 1 <= fuel && 256 <= d.range <= 510 && 256 <= d'.range <= 510
    requires DecodeDecision(stream, d, x) == Some((1, d'))
    requires DecodeTerminate(stream, d') == Some((1, d''))
    ensures ParseSlice(stream, d, x, fuel) == Some((1, d''))
  {
    hide DecodeDecision, DecodeTerminate, Transition;
  }

  /** If the bins of an n-macroblock slice come out, the slice parser counts n macroblocks. */
  lemma {:induction false} ParseCounts(stream: seq<Bit>, d: Decoder, x: Context, n: nat, fuel: nat,
                                       e: Decoder, xs: seq<Context>)
    requires 1 <= n <= fuel
    requires Decode(stream, d, [x], Requests(MbSymbols(n, n))) == Some((Bins(MbSymbols(n, n)), e, xs))
    ensures ParseSlice(stream, d, x, fuel) == Some((n, e))
    decreases n
  {
    hide *;
    var end: Bit := if n == 1 then 1 else 0;
    var rest: seq<Symbol> := if n == 1 then [] else MbSymbols(n - 1, n - 1);
    SliceFront(n);
    PairLists(end, rest);
    var d' := HeadBin(stream, d, x, 1, [end] + Bins(rest), [ForTerminate] + Requests(rest), e, xs);
    var d'' := HeadTerminate(stream, d', Transition(x, 1), end, Bins(rest), Requests(rest), e, xs);
    if n == 1 {
      ParseLast(stream, d, x, fuel, d', d'');
    } else {
      var tail := ParseSlice(stream, d'', Transition(x, 1), fuel - 1);
      ParseMore(stream, d, x, fuel, d', d'', tail);
      ParseCounts(stream, d'', Transition(x, 1), n - 1, fuel - 1, e, xs);
    }
  }

  /** A skipped slice of n macroblocks, wherever it starts and whatever follows, parses as exactly n
      skipped macroblocks with the end flag set only on the last, ending at the stop bit. */
  lemma SkippedSliceParses(pre: seq<Bit>, post: seq<Bit>, x: Context, n: nat, fuel: nat)
    requires 1 <= n <= fuel
    ensures AllInModel([x], MbSymbols(n, n))
    ensures var c := Encode(Start(pre), [x], MbSymbols(n, n));
            var stream := Finished(c) + post;
            var d := DecodeInit(stream, |pre|);
            && d.Some?
            && var r := ParseSlice(stream, d.value, x, fuel);
            && r.Some? && r.value.0 == n && r.value.1.pos == |Flushed(c)|
  {
    var syms := MbSymbols(n - 1, n) + [Regular(0, 1)];
    LastMb(n);
    var c := Segment(pre, [x], syms);
    var stream := Finished(c) + post;
    RoundTrip(pre, post, [x], syms);
    BinsAppend(syms, [Terminate(1)]);
    assert Bins([Terminate(1)]) == [1] + Bins([Terminate(1)][1..]);
    assert Bins(MbSymbols(n, n)) == Bins(syms) + [1];
    var d := DecodeInit(stream, |pre|).value;
    hide *;
    var r := Decode(stream, d, [x], Requests(MbSymbols(n, n))).value;
    ParseCounts(stream, d, x, n, fuel, r.1, r.2);
  }

  lemma LastMb(n: nat)
    requires 1 <= n
    ensures var syms := MbSymbols(n - 1, n) + [Regular(0, 1)];
            && MbSymbols(n, n) == syms + [Terminate(1)]
            && Continuing(syms) && forall x: Context :: AllInModel([x], syms) && AllInModel([x], MbSymbols(n, n))
  {
    ContinuingMbs(n - 1, n);
    var a, r, t := MbSymbols(n - 1, n), Regular(0, 1), Terminate(1);
    assert a + [r, t] == (a + [r]) + [t];
  }

  lemma {:induction false} ContinuingMbs(k: nat, n: nat)
    requires k < n
    ensures Continuing(MbSymbols(k, n)) && forall x: Context :: AllInModel([x], MbSymbols(k, n))
  {
    if k > 0 {
      ContinuingMbs(k - 1, n);
    }
  }

  /** From its first bit the stream parses as a slice of n skipped macroblocks, whose last bit is at most
      the alignment away from end. */
  ghost predicate Parses(stream: seq<Bit>, end: int, x: Context, n: nat) {
    var d := DecodeInit(stream, 0);
    && d.Some?
    && var r := ParseSlice(stream, d.value, x, n);
       r.Some? && r.value.0 == n && 0 <= end - r.value.1.pos < 8
  }

  /** The bits of a slice of n skipped macroblocks. */
  ghost predicate WholeSliceBits(w: seq<Bit>, x: Context, n: nat) {
    AllInModel([x], MbSymbols(n, n)) && w == Finished(Encode(Start([]), [x], MbSymbols(n, n)))
  }

  /** The bits of a slice of n skipped macroblocks, aligned. */
  ghost function SliceStream(x: Context, n: nat): seq<Bit> {
    Finished(Encode(Start([]), [x], MbSymbols(n, n)))
  }

  lemma SliceHeld(data: seq<Byte>, w: seq<Bit>, size: nat)
    requires Packed(data, w, size)
    ensures var held := Min(|w|, 8 * size); held <= 8 * |data| && BufferBits(data)[..held] == w[..held]
  {
    PackedReadsBack(data, w, size);
    hide BufferBits;
  }

  /** Fills pSkipPict; with CABAC and room for all the bits, the bytes hold exactly the skipped slice. */
  method GenerateSkippedPicture(pSkipPict: SkippedPicture?, iNumMBs: int, bCabac: bool, iCabacInitIdc: nat)
      returns (ok: bool)
    requires iCabacInitIdc < 3
    requires pSkipPict != null && pSkipPict.pData != null ==> pSkipPict.iBufSize <= pSkipPict.pData.Length
    modifies pSkipPict, if pSkipPict == null || pSkipPict.pData == null then {} else {pSkipPict.pData}
    ensures ok <==> pSkipPict != null && pSkipPict.pData != null
    ensures ok ==> pSkipPict.iNumTiles == 0 && pSkipPict.iNumBins == if bCabac && iNumMBs > 0 then 2 * iNumMBs else 0
    ensures ok && !bCabac ==> pSkipPict.iNumBits == 0
    ensures ok && bCabac ==>
              var stream := SliceStream(SkipContext(iCabacInitIdc), if iNumMBs < 0 then 0 else iNumMBs);
              var held := Min(|stream|, 8 * pSkipPict.iBufSize);
              && pSkipPict.iNumBits == |stream| && held <= 8 * pSkipPict.pData.Length
              && BufferBits(pSkipPict.pData[..])[..held] == stream[..held]
    ensures ok && bCabac && iNumMBs >= 1 && pSkipPict.iNumBits <= 8 * pSkipPict.iBufSize ==>
              && pSkipPict.iNumBits % 8 == 0
              && Parses(BufferBits(pSkipPict.pData[..]), pSkipPict.iNumBits, SkipContext(iCabacInitIdc), iNumMBs)
  {
    if pSkipPict == null || pSkipPict.pData == null {
      return false;
    }
    var bs := new BitStream(pSkipPict.pData, pSkipPict.iBufSize);
    var iBinsCount := 0;
    if bCabac {
      iBinsCount := GenerateSkippedPictureCabac(bs, iCabacInitIdc, iNumMBs);
      SliceHeld(bs.pData[..], bs.written, bs.iMaxBits / 8);
      if iNumMBs >= 1 && bs.iBitCount <= bs.iMaxBits {
        WholeSlice(bs.pData[..], bs.written, bs.iMaxBits / 8, SkipContext(iCabacInitIdc), iNumMBs);
      }
    }
    pSkipPict.iNumBits := bs.iBitCount;
    pSkipPict.iNumBins := iBinsCount;
    pSkipPict.iNumTiles := 0;
    return true;
  }

  lemma WholeSlice(data: seq<Byte>, w: seq<Bit>, size: nat, x: Context, n: nat)
    requires 1 <= n && Packed(data, w, size) && |w| <= 8 * size && WholeSliceBits(w, x, n)
    ensures |w| % 8 == 0 && Parses(BufferBits(data), |w|, x, n)
  {
    var stream := BufferBits(data);
    PackedReadsBack(data, w, size);
    hide *;
    assert w[..|w|] == w;
    assert stream == stream[..|w|] + stream[|w|..];
    SliceParses(stream[|w|..], w, x, n);
  }

  lemma SliceParses(post: seq<Bit>, w: seq<Bit>, x: Context, n: nat)
    requires 1 <= n && WholeSliceBits(w, x, n)
    ensures |w| % 8 == 0 && Parses(w + post, |w|, x, n)
  {
    hide AllInModel, MbSymbols, Finished, Encode, ParseSlice, DecodeInit, Flushed;
    SkippedSliceParses([], post, x, n, n);
    FinishedLength(Encode(Start([]), [x], MbSymbols(n, n)));
  }
}
