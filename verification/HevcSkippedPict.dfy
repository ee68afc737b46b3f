/** The skipped HEVC picture generator in place: recursive writers on the arithmetic coder, the tile
    loop, and the picture loop with its table of tile sizes. */
module HevcSkippedPict {
  import opened Common
  import opened Bits
  import opened BitStreamLite
  import opened CabacTables
  import opened CabacAdaptation
  import opened CabacModel
  import opened CabacDecoder
  import opened Cabac
  import opened HevcQuadtree
  import opened HevcTile

  /** Coder and contexts after a list of symbols. */
  ghost function Coded(s: (Coder, seq<Context>), syms: seq<Symbol>): (r: (Coder, seq<Context>))
    requires Ready(s.0) && |s.1| == 5 && FiveContexts(syms)
    ensures Ready(r.0) && |r.1| == 5
  {
    (Encode(s.0, s.1, syms), Adapted(s.1, syms))
  }

  lemma CodedAppend(s: (Coder, seq<Context>), a: seq<Symbol>, b: seq<Symbol>)
    requires Ready(s.0) && |s.1| == 5 && FiveContexts(a) && FiveContexts(b)
    ensures FiveContexts(a + b)
    ensures Coded(s, a + b) == Coded(Coded(s, a), b)
  {
    EncodeAppend(s.0, s.1, a, b);
  }

  lemma CodedNone(s: (Coder, seq<Context>))
    requires Ready(s.0) && |s.1| == 5
    ensures Coded(s, []) == s
  {
  }

  lemma CodedOne(s: (Coder, seq<Context>), sym: Symbol)
    requires Ready(s.0) && |s.1| == 5 && FiveContexts([sym])
    ensures InModel(s.1, sym)
    ensures Coded(s, [sym]) == (Step(s.0, s.1, sym), AdaptAll(s.1, sym))
  {
    hide Step, AdaptAll;
    assert [sym][0].Regular? ==> [sym][0].ctx < 5;
    assert [sym][1..] == [];
    var c, xs := Step(s.0, s.1, sym), AdaptAll(s.1, sym);
    assert Encode(c, xs, []) == c && Adapted(xs, []) == xs;
  }

  /** A generator at work: stream, coder registers and context arrays. */
  class Writer {
    const bs: BitStream
    const ctx: CabacCtx
    const pState: array<StateIdx>
    const pValMPS: array<Bit>

    ghost predicate Valid()
      reads this, bs, bs.pData, ctx, pState, pValMPS
    {
      bs.Valid() && pState.Length == pValMPS.Length == 5 && Ready(ctx.Coder(bs))
    }

    ghost function State(): (s: (Coder, seq<Context>))
      requires Valid()
      reads this, bs, bs.pData, ctx, pState, pValMPS
      ensures Ready(s.0) && |s.1| == 5
    {
      (ctx.Coder(bs), Contexts(pState, pValMPS))
    }

    constructor (bs: BitStream)
      requires bs.Valid()
      ensures this.bs == bs && fresh(ctx) && fresh(pState) && fresh(pValMPS) && Valid()
      ensures State() == (Start(bs.written), INITIAL_CONTEXTS)
    {
      this.bs := bs;
      ctx := new CabacCtx();
      pState := new StateIdx[5] [16, 15, 8, 16, 16];
      pValMPS := new Bit[5] [0, 0, 1, 1, 0];
      new;
      assert Contexts(pState, pValMPS) == INITIAL_CONTEXTS;
    }

    method WriteBin(i: nat, bin: Bit)
      requires Valid() && i < 5
      modifies ctx, bs`iBitCount, bs`isOverflow, bs`written, bs.pData, pState, pValMPS
      ensures Valid() && State() == Coded(old(State()), [Regular(i, bin)])
    {
      CodedOne(State(), Regular(i, bin));
      ctx.WriteBin(bs, pState, pValMPS, i, bin);
    }

    method Terminate(bin: Bit)
      requires Valid()
      modifies ctx, bs`iBitCount, bs`isOverflow, bs`written, bs.pData
      ensures Valid() && State() == Coded(old(State()), [CabacModel.Terminate(bin)])
    {
      CodedOne(State(), CabacModel.Terminate(bin));
      ctx.Terminate(bs, bin);
    }

    method WriteSkippedCU(iAvailA: bool, iAvailB: bool, iSplit: bool) returns (uBins: nat)
      requires Valid()
      modifies ctx, bs`iBitCount, bs`isOverflow, bs`written, bs.pData, pState, pValMPS
      ensures Valid() && State() == Coded(old(State()), Cu(iAvailA, iAvailB, iSplit))
      ensures uBins == |Cu(iAvailA, iAvailB, iSplit)|
    {
      ghost var s := State();
      hide Coded, State, FiveContexts, Cu, Writer.Valid;
      uBins := 0;
      CodedNone(s);
      if !iSplit {
        WriteBin(0, 0);
        uBins := uBins + 1;
      }
      var iCtx := 1;
      if iAvailA {
        iCtx := iCtx + 1;
      }
      if iAvailB {
        iCtx := iCtx + 1;
      }
      WriteBin(iCtx, 1);
      uBins := uBins + 1;
      WriteBin(4, 0);
      uBins := uBins + 1;
      CuInOrder(s, iAvailA, iAvailB, iSplit);
    }

    /** The right border; iMsk is the one-bit mask 2^j. */
    method WriteSkippedCuRight(iAvailB: bool, iMod: nat, iMsk: nat, ghost j: nat) returns (uBins: nat)
      requires Valid() && iMsk == Pow2(j)
      modifies ctx, bs`iBitCount, bs`isOverflow, bs`written, bs.pData, pState, pValMPS
      ensures Valid() && State() == Coded(old(State()), Right(iAvailB, iMod, j))
      ensures uBins == |Right(iAvailB, iMod, j)|
      decreases j
    {
      hide Coded, State, Right, FiveContexts, Cu;
      ghost var s, done: seq<Symbol> := State(), [];
      CodedNone(s);
      MaskOne(j);
      uBins := 0;
      var n: nat;
      if iMsk == 1 {
        n := WriteSkippedCU(true, iAvailB, true);
        uBins := uBins + n;
        done := Extend(s, done, Cu(true, iAvailB, true), State());
        n := WriteSkippedCU(true, true, true);
        uBins := uBins + n;
        done := Extend(s, done, Cu(true, true, true), State());
        RightBase(iAvailB, iMod);
        assert done == Cu(true, iAvailB, true) + [] + Cu(true, true, true) + [];
        return;
      }
      RightParts(iAvailB, iMod, j);
      MaskHalf(j);
      var bit, low := iMod / iMsk % 2 == 1, iMod % iMsk != 0;
      if bit {
        n := WriteSkippedCU(true, iAvailB, false);
        uBins := uBins + n;
        done := Extend(s, done, Cu(true, iAvailB, false), State());
      }
      if low {
        n := WriteSkippedCuRight(iAvailB, iMod, iMsk / 2, j - 1);
        uBins := uBins + n;
        done := Extend(s, done, Right(iAvailB, iMod, j - 1), State());
      }
      if bit {
        n := WriteSkippedCU(true, true, false);
        uBins := uBins + n;
        done := Extend(s, done, Cu(true, true, false), State());
      }
      if low {
        n := WriteSkippedCuRight(true, iMod, iMsk / 2, j - 1);
        uBins := uBins + n;
        done := Extend(s, done, Right(true, iMod, j - 1), State());
      }
      assert done == Right(iAvailB, iMod, j);
    }

    /** The bottom border. */
    method WriteSkippedCuBottom(iAvailA: bool, iMod: nat, iMsk: nat, ghost j: nat) returns (uBins: nat)
      requires Valid() && iMsk == Pow2(j)
      modifies ctx, bs`iBitCount, bs`isOverflow, bs`written, bs.pData, pState, pValMPS
      ensures Valid() && State() == Coded(old(State()), Bottom(iAvailA, iMod, j))
      ensures uBins == |Bottom(iAvailA, iMod, j)|
      decreases j
    {
      hide Coded, State, Bottom, FiveContexts, Cu;
      ghost var s, done: seq<Symbol> := State(), [];
      CodedNone(s);
      MaskOne(j);
      uBins := 0;
      var n: nat;
      if iMsk == 1 {
        n := WriteSkippedCU(iAvailA, true, true);
        uBins := uBins + n;
        done := Extend(s, done, Cu(iAvailA, true, true), State());
        n := WriteSkippedCU(true, true, true);
        uBins := uBins + n;
        done := Extend(s, done, Cu(true, true, true), State());
        BottomBase(iAvailA, iMod);
        assert done == Cu(iAvailA, true, true) + Cu(true, true, true) + [] + [];
        return;
      }
      BottomParts(iAvailA, iMod, j);
      MaskHalf(j);
      if iMod / iMsk % 2 == 1 {
        n := WriteSkippedCU(iAvailA, true, false);
        uBins := uBins + n;
        done := Extend(s, done, Cu(iAvailA, true, false), State());
        n := WriteSkippedCU(true, true, false);
        uBins := uBins + n;
        done := Extend(s, done, Cu(true, true, false), State());
      }
      if iMod % iMsk != 0 {
        n := WriteSkippedCuBottom(iAvailA, iMod, iMsk / 2, j - 1);
        uBins := uBins + n;
        done := Extend(s, done, Bottom(iAvailA, iMod, j - 1), State());
        n := WriteSkippedCuBottom(true, iMod, iMsk / 2, j - 1);
        uBins := uBins + n;
        done := Extend(s, done, Bottom(true, iMod, j - 1), State());
      }
      assert done == Bottom(iAvailA, iMod, j);
    }

    /** The corner. */
    method WriteSkippedCuBotRight(iModW: nat, iModH: nat, iMsk: nat, ghost j: nat) returns (uBins: nat)
      requires Valid() && iMsk == Pow2(j)
      modifies ctx, bs`iBitCount, bs`isOverflow, bs`written, bs.pData, pState, pValMPS
      ensures Valid() && State() == Coded(old(State()), BotRight(iModW, iModH, j))
      ensures uBins == |BotRight(iModW, iModH, j)|
      decreases j
    {
      hide Coded, State, BotRight, Right, Bottom, FiveContexts, Cu;
      MaskOne(j);
      if iMsk == 1 {
        uBins := WriteSkippedCU(true, true, true);
        BotRightBase(iModW, iModH);
        assert Cu(true, true, true) + [] + [] + [] == Cu(true, true, true);
        return;
      }
      ghost var s, done: seq<Symbol> := State(), [];
      CodedNone(s);
      uBins := 0;
      var n: nat;
      BotRightParts(iModW, iModH, j);
      MaskHalf(j);
      if iModH / iMsk % 2 == 1 {
        if iModW / iMsk % 2 == 1 {
          n := WriteSkippedCU(true, true, false);
          uBins := uBins + n;
          done := Extend(s, done, Cu(true, true, false), State());
        }
        if iModW % iMsk != 0 {
          n := WriteSkippedCuRight(true, iModW, iMsk / 2, j - 1);
          uBins := uBins + n;
          done := Extend(s, done, Right(true, iModW, j - 1), State());
        }
      }
      if iModH % iMsk != 0 {
        if iModW / iMsk % 2 == 1 {
          n := WriteSkippedCuBottom(true, iModH, iMsk / 2, j - 1);
          uBins := uBins + n;
          done := Extend(s, done, Bottom(true, iModH, j - 1), State());
        }
        if iModW % iMsk != 0 {
          n := WriteSkippedCuBotRight(iModW, iModH, iMsk / 2, j - 1);
          uBins := uBins + n;
          done := Extend(s, done, BotRight(iModW, iModH, j - 1), State());
        }
      }
      assert done == BotRight(iModW, iModH, j);
    }
  }

  /** One more part has been coded behind what was already done. */
  lemma Extend(s: (Coder, seq<Context>), done: seq<Symbol>, part: seq<Symbol>, now: (Coder, seq<Context>))
      returns (more: seq<Symbol>)
    requires Ready(s.0) && |s.1| == 5 && FiveContexts(done) && FiveContexts(part)
    requires now == Coded(Coded(s, done), part)
    ensures more == done + part && FiveContexts(more)
    ensures now == Coded(s, more)
  {
    more := done + part;
    CodedAppend(s, done, part);
  }

  lemma MaskOne(j: nat)
    ensures Pow2(j) == 1 <==> j == 0
  {
  }

  lemma MaskHalf(j: nat)
    requires j > 0
    ensures Pow2(j) / 2 == Pow2(j - 1)
  {
  }

  lemma CuInOrder(s: (Coder, seq<Context>), availA: bool, availB: bool, split: bool)
    requires Ready(s.0) && |s.1| == 5
    ensures var a: seq<Symbol> := if split then [] else [Regular(0, 0)];
            var skip, merge := [Regular(1 + Bool(availA) + Bool(availB), 1)], [Regular(4, 0)];
            && FiveContexts(a) && FiveContexts(skip) && FiveContexts(merge)
            && Coded(s, Cu(availA, availB, split)) == Coded(Coded(Coded(s, a), skip), merge)
            && |Cu(availA, availB, split)| == |a| + 2
  {
    var a: seq<Symbol> := if split then [] else [Regular(0, 0)];
    var skip, merge := [Regular(1 + Bool(availA) + Bool(availB), 1)], [Regular(4, 0)];
    hide Coded;
    assert Cu(availA, availB, split) == (a + skip) + merge;
    CodedAppend(s, a, skip);
    CodedAppend(s, a + skip, merge);
  }

  /** cabac initialisation with QP 26. */
  const INITIAL_CONTEXTS: seq<Context> :=
    [Context(16, 0), Context(15, 0), Context(8, 1), Context(16, 1), Context(16, 0)]

  /** initValue of the first context of split_cu_flag, of the three of cu_skip_flag and of merge_idx, as
      section 9.3 of H.265 tabulates them for initType 1, that of P slices. */
  const INIT_VALUES: seq<nat> := [107, 197, 185, 201, 122]

  /** They are what the initialisation process (9.3.2.2 of H.265) gives for a slice QP of 26. */
  lemma StartsAsStandard(i: nat)
    requires i < 5
    ensures |INITIAL_CONTEXTS| == |INIT_VALUES| == 5
    ensures INITIAL_CONTEXTS[i] == FromInitValue(INIT_VALUES[i], 26)
  {
    FiveInitialised();
    hide FromInitValue;
    assert i == 0 || i == 1 || i == 2 || i == 3 || i == 4;
  }

  lemma FiveInitialised()
    ensures FromInitValue(107, 26) == Context(16, 0) && FromInitValue(197, 26) == Context(15, 0)
    ensures FromInitValue(185, 26) == Context(8, 1) && FromInitValue(201, 26) == Context(16, 1)
    ensures FromInitValue(122, 26) == Context(16, 0)
  {
  }

  // ---------------------------------------------------------------------------------------------
  // Tiles
  // ---------------------------------------------------------------------------------------------

  /** Dimensions in samples against dimensions in minimum coding units. */
  lemma InMinUnits(n: nat, min: nat, max: nat)
    requires min <= max && n % Pow2(min) == 0
    ensures var w, K := n / Pow2(min), max - min;
            && (n + Pow2(max) - 1) / Pow2(max) == Lcus(w, K)
            && n / Pow2(max) == w / Pow2(K)
            && n % Pow2(max) / Pow2(min) == w % Pow2(K)
  {
    var m, p := Pow2(min), Pow2(max - min);
    Pow2Add(max - min, min);
    hide Lcus;
    LcusIs(n / m, max - min);
    Rescale(n, m, p);
  }

  lemma Rescale(n: nat, m: nat, p: nat)
    requires m > 0 && p > 0 && n % m == 0
    ensures p * m > 0
    ensures n / (p * m) == n / m / p
    ensures n % (p * m) / m == n / m % p
    ensures (n + p * m - 1) / (p * m) == n / m / p + if n / m % p != 0 then 1 else 0
  {
    var q, r, d := n / m / p, n / m % p, p * m;
    DivMod(n, m);
    DivMod(n / m, p);
    Regroup(p, q, r, m);
    hide *;
    DivUnique(n, d, q, r * m);
    DivUnique(r * m, m, r, 0);
    if r == 0 {
      DivUnique(n + d - 1, d, q, d - 1);
    } else {
      DivUnique(n + d - 1, d, q + 1, r * m - 1);
    }
  }

  /** A number of smallest units taken apart into largest units and a rest. */
  lemma Regroup(p: nat, q: nat, r: nat, m: nat)
    requires m > 0 && r < p
    ensures m * (p * q + r) == p * m * q + r * m && 0 <= r * m < p * m && m * r == r * m
    ensures r == 0 ==> r * m == 0
    ensures r > 0 ==> r * m >= 1
    ensures p * m * (q + 1) == p * m * q + p * m
  {
    var d := p * m;
    assert m * (p * q) == d * q;
    assert d * (q + 1) == d * q + d;
    MulLessOrEqual(m, r + 1, p);
    assert m * (r + 1) == r * m + m && m * p == d;
    if r > 0 {
      MulLessOrEqual(m, 1, r);
    }
  }

  method GenerateSkippedTileCabac(bs: BitStream, bLastTile: bool, iWidth: nat, iHeight: nat,
                                  uMaxCuSize: nat, uMinCuSize: nat, uNumLCU: nat) returns (uBins: nat)
    requires bs.Valid() && uMinCuSize <= uMaxCuSize && 0 < iWidth
    requires iWidth % Pow2(uMinCuSize) == 0 && iHeight % Pow2(uMinCuSize) == 0
    modifies bs`iBitCount, bs`isOverflow, bs`written, bs.pData
    ensures bs.Valid()
    ensures var w, h, K := iWidth / Pow2(uMinCuSize), iHeight / Pow2(uMinCuSize), uMaxCuSize - uMinCuSize;
            && Lcus(w, K) > 0
            && var syms := Tile(true, uNumLCU, uNumLCU, bLastTile, w, h, K);
            && uBins == |syms|
            && bs.written == Finished(Coded((Start(old(bs.written)), INITIAL_CONTEXTS), syms).0)
  {
    hide *;
    var wr := new Writer(bs);
    ghost var w, h, K := iWidth / Pow2(uMinCuSize), iHeight / Pow2(uMinCuSize), uMaxCuSize - uMinCuSize;
    InMinUnits(iWidth, uMinCuSize, uMaxCuSize);
    InMinUnits(iHeight, uMinCuSize, uMaxCuSize);
    var uWidthLCU := (iWidth + Pow2(uMaxCuSize) - 1) / Pow2(uMaxCuSize);
    var uHeightLCU := iHeight / Pow2(uMaxCuSize);
    var iW := iWidth % Pow2(uMaxCuSize) / Pow2(uMinCuSize);
    var iH := iHeight % Pow2(uMaxCuSize) / Pow2(uMinCuSize);
    var iT := Pow2(uMaxCuSize - uMinCuSize);
    SomeLcu(iWidth, uMaxCuSize);
    uBins := CodeLcus(wr, bLastTile, uNumLCU, uWidthLCU, uHeightLCU, iW, iH, iT, w, h, K);
    StreamReady(wr);
    wr.ctx.Finish(bs);
  }

  lemma StreamReady(wr: Writer)
    requires wr.Valid()
    ensures wr.bs.Valid() && wr.ctx.Coder(wr.bs) == wr.State().0
  {
  }

  /** The tile loop. */
  method CodeLcus(wr: Writer, bLastTile: bool, uNumLCU: nat, uWidthLCU: nat, uHeightLCU: nat,
                  iW: nat, iH: nat, iT: nat, ghost w: nat, ghost h: nat, ghost K: nat) returns (uBins: nat)
    requires wr.Valid() && uWidthLCU == Lcus(w, K) > 0 && uHeightLCU == h / Pow2(K)
    requires iW == w % Pow2(K) && iH == h % Pow2(K) && iT == Pow2(K)
    modifies wr.ctx, wr.bs`iBitCount, wr.bs`isOverflow, wr.bs`written, wr.bs.pData, wr.pState, wr.pValMPS
    ensures wr.Valid()
    ensures wr.State() == Coded(old(wr.State()), Tile(true, uNumLCU, uNumLCU, bLastTile, w, h, K))
    ensures uBins == |Tile(true, uNumLCU, uNumLCU, bLastTile, w, h, K)|
  {
    hide *;
    ghost var s := wr.State();
    uBins := 0;
    CodedNone(s);
    NoTile(uNumLCU, bLastTile, w, h, K);
    for uLCU := 0 to uNumLCU
      invariant wr.Valid()
      invariant wr.State() == Coded(s, Tile(true, uLCU, uNumLCU, bLastTile, w, h, K))
      invariant uBins == |Tile(true, uLCU, uNumLCU, bLastTile, w, h, K)|
    {
      ghost var before := wr.State();
      var n := CodeLcu(wr, uLCU, bLastTile, uLCU == uNumLCU - 1, uWidthLCU, uHeightLCU, iW, iH, iT, w, h, K);
      uBins := uBins + n;
      TileStep(uLCU + 1, uNumLCU, bLastTile, w, h, K);
      ghost var done := Tile(true, uLCU, uNumLCU, bLastTile, w, h, K);
      ghost var unit, tail := LcuCode(uLCU, w, h, K), Tail(uLCU + 1 == uNumLCU, bLastTile);
      CodedAppend(s, done, unit);
      CodedAppend(s, done + unit, tail);
      CodedAppend(before, unit, tail);
    }
  }

  lemma SomeLcu(n: nat, max: nat)
    requires n > 0
    ensures (n + Pow2(max) - 1) / Pow2(max) > 0
  {
    AtLeastOne(n + Pow2(max) - 1, Pow2(max));
  }

  lemma AtLeastOne(a: nat, p: nat)
    requires 0 < p <= a
    ensures a / p >= 1
  {
    var q := a / p;
    DivMod(a, p);
    assert q == 0 ==> p * q == 0;
  }

  /** One pass of the tile loop. */
  method CodeLcu(wr: Writer, uLCU: nat, bLastTile: bool, bLastLCU: bool, uWidthLCU: nat, uHeightLCU: nat,
                 iW: nat, iH: nat, iT: nat, ghost w: nat, ghost h: nat, ghost K: nat) returns (uBins: nat)
    requires wr.Valid() && uWidthLCU == Lcus(w, K) > 0 && uHeightLCU == h / Pow2(K)
    requires iW == w % Pow2(K) && iH == h % Pow2(K) && iT == Pow2(K)
    modifies wr.ctx, wr.bs`iBitCount, wr.bs`isOverflow, wr.bs`written, wr.bs.pData, wr.pState, wr.pValMPS
    ensures wr.Valid()
    ensures wr.State() == Coded(old(wr.State()), LcuCode(uLCU, w, h, K) + Tail(bLastLCU, bLastTile))
    ensures uBins == |LcuCode(uLCU, w, h, K) + Tail(bLastLCU, bLastTile)|
  {
    hide Coded, Lcus, Right, Bottom, BotRight, Cu, FiveContexts, Writer.State;
    ghost var s := wr.State();
    ghost var j := if K > 0 then K - 1 else 0;
    if K > 0 {
      MaskHalf(K);
    } else {
      NoRemainder(w, h);
    }
    var iRightColumn := uLCU % uWidthLCU == uWidthLCU - 1;
    var iBottomRow := uLCU / uWidthLCU == uHeightLCU;
    if iRightColumn && iW != 0 && iBottomRow && iH != 0 {
      uBins := wr.WriteSkippedCuBotRight(iW, iH, iT / 2, j);
    } else if iRightColumn && iW != 0 {
      uBins := wr.WriteSkippedCuRight(uLCU >= uWidthLCU, iW, iT / 2, j);
    } else if iBottomRow && iH != 0 {
      uBins := wr.WriteSkippedCuBottom(uLCU % uWidthLCU != 0, iH, iT / 2, j);
    } else {
      uBins := wr.WriteSkippedCU(uLCU >= uWidthLCU, uLCU % uWidthLCU != 0, false);
    }
    ghost var unit := LcuCode(uLCU, w, h, K);
    assert wr.State() == Coded(s, unit);
    hide *;
    var n := EndLcu(wr, bLastTile, bLastLCU);
    uBins := uBins + n;
    CodedAppend(s, unit, Tail(bLastLCU, bLastTile));
  }

  method EndLcu(wr: Writer, bLastTile: bool, bLastLCU: bool) returns (uBins: nat)
    requires wr.Valid()
    modifies wr.ctx, wr.bs`iBitCount, wr.bs`isOverflow, wr.bs`written, wr.bs.pData
    ensures wr.Valid()
    ensures wr.State() == Coded(old(wr.State()), Tail(bLastLCU, bLastTile))
    ensures uBins == |Tail(bLastLCU, bLastTile)|
  {
    hide Coded, FiveContexts, Writer.State;
    ghost var s := wr.State();
    var endOfSliceSegmentFlag: Bit := if bLastTile && bLastLCU then 1 else 0;
    wr.Terminate(endOfSliceSegmentFlag);
    uBins := 1;
    if !bLastTile && bLastLCU {
      wr.Terminate(1);
      uBins := uBins + 1;
      CodedAppend(s, [Terminate(0)], [Terminate(1)]);
      assert Tail(bLastLCU, bLastTile) == [Terminate(0)] + [Terminate(1)];
    } else {
      assert Tail(bLastLCU, bLastTile) == [Terminate(endOfSliceSegmentFlag)];
    }
  }

  lemma NoRemainder(w: nat, h: nat)
    ensures w % Pow2(0) == 0 && h % Pow2(0) == 0
  {
  }

  // ---------------------------------------------------------------------------------------------
  // Reading a tile back
  // ---------------------------------------------------------------------------------------------

  lemma {:induction false} TileContinues(n: nat, total: nat, lastTile: bool, w: nat, h: nat, K: nat)
    requires Lcus(w, K) > 0 && n < total
    ensures Continuing(Tile(true, n, total, lastTile, w, h, K))
  {
    hide Tile, LcuCode, LcuSpec, FiveContexts, Lcus;
    if n == 0 {
      NoTile(total, lastTile, w, h, K);
    } else {
      TileContinues(n - 1, total, lastTile, w, h, K);
      TileStep(n, total, lastTile, w, h, K);
    }
  }

  /** The bits of a tile with at least one unit, at any place of a stream, decode to exactly its bins,
      and the decoder stops at the stop bit of the tile. */
  lemma TileDecodes(pre: seq<Bit>, post: seq<Bit>, n: nat, lastTile: bool, w: nat, h: nat, K: nat)
    requires Lcus(w, K) > 0 && n > 0
    ensures var syms := Tile(true, n, n, lastTile, w, h, K);
            var c := Coded((Start(pre), INITIAL_CONTEXTS), syms).0;
            var stream := Finished(c) + post;
            var d := DecodeInit(stream, |pre|);
            && pre <= Flushed(c) <= stream && d.Some?
            && var r := Decode(stream, d.value, INITIAL_CONTEXTS, Requests(syms));
            && r.Some? && r.value.0 == Bins(syms) && r.value.1.pos == |Flushed(c)|
  {
    var syms := Tile(true, n, n, lastTile, w, h, K);
    TileEnds(n, lastTile, w, h, K);
    var body := syms[..|syms| - 1];
    hide Tile, LcuCode, Lcus, Finished, Flushed, Decode, DecodeInit;
    assert syms == body + [Terminate(1)];
    assert AllInModel(INITIAL_CONTEXTS, body);
    RoundTrip(pre, post, INITIAL_CONTEXTS, body);
    BinsAppend(body, [Terminate(1)]);
    assert Bins([Terminate(1)]) == [1] + Bins([Terminate(1)][1..]);
  }

  /** A tile ends with a terminating 1 and has no other. */
  lemma TileEnds(n: nat, lastTile: bool, w: nat, h: nat, K: nat)
    requires Lcus(w, K) > 0 && n > 0
    ensures var syms := Tile(true, n, n, lastTile, w, h, K);
            syms != [] && syms[|syms| - 1] == Terminate(1) && Continuing(syms[..|syms| - 1])
  {
    hide Tile, LcuCode, Lcus, FiveContexts;
    TileContinues(n - 1, n, lastTile, w, h, K);
    TileStep(n, n, lastTile, w, h, K);
    var done, unit, tail := Tile(true, n - 1, n, lastTile, w, h, K), LcuCode(n - 1, w, h, K), Tail(true, lastTile);
    var syms := done + unit + tail;
    assert tail == if lastTile then [Terminate(1)] else [Terminate(0), Terminate(1)];
    assert syms[..|syms| - 1] == done + unit + tail[..|tail| - 1];
  }
}
