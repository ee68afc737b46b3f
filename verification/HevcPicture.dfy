/** The skipped HEVC picture: its tiles one after the other, each byte-aligned, with a table of sizes. */
module HevcPicture {
  import opened Common
  import opened Bits
  import opened BitStreamLite
  import opened CabacModel
  import opened CabacDecoder
  import opened HevcQuadtree
  import opened HevcTile
  import opened HevcSkippedPict
  import opened SkippedPictures

  /** A tile in minimum coding units, with the number of largest units coded for it. */
  datatype TileDim = TileDim(w: nat, h: nat, n: nat, last: bool)

  /** Sizes of a picture: samples, log2 sizes of the largest and smallest coding unit, tile grid in
      largest units. */
  datatype Grid = Grid(width: nat, height: nat, max: nat, min: nat, widths: seq<nat>, heights: seq<nat>) {
    /** The picture is a whole number of smallest units and every tile begins inside it. */
    ghost predicate Valid() {
      && min <= max && width % Pow2(min) == 0 && height % Pow2(min) == 0
      && (forall c :: 0 <= c < |widths| ==> widths[c] > 0)
      && (forall c :: 0 <= c < |widths| ==> Sum(widths[..c]) * Pow2(max) < width)
      && (forall r :: 0 <= r < |heights| ==> heights[r] > 0)
      && (forall r :: 0 <= r < |heights| ==> Sum(heights[..r]) * Pow2(max) < height)
    }
  }

  function Sum(ns: seq<nat>): nat {
    if ns == [] then 0 else Sum(ns[..|ns| - 1]) + ns[|ns| - 1]
  }

  /** The extent in samples of entry c of a tile column or row list. */
  function Extent(ns: seq<nat>, c: nat, size: nat, max: nat): int
    requires c < |ns|
  {
    Min(ns[c] * Pow2(max), size - Sum(ns[..c]) * Pow2(max))
  }

  lemma ExtentFits(ns: seq<nat>, c: nat, size: nat, max: nat, min: nat)
    requires c < |ns| && min <= max && size % Pow2(min) == 0 && Sum(ns[..c]) * Pow2(max) < size
    ensures 0 <= Extent(ns, c, size, max) && Extent(ns, c, size, max) % Pow2(min) == 0
    ensures ns[c] > 0 ==> Extent(ns, c, size, max) > 0
  {
    var m := Pow2(min);
    Pow2Add(max - min, min);
    MultipleOf(ns[c], Pow2(max - min), m);
    MultipleOf(Sum(ns[..c]), Pow2(max - min), m);
    hide Sum, Pow2;
    DifferenceOf(size, Sum(ns[..c]) * Pow2(max), m);
    Scaled(ns[c], Pow2(max));
  }

  lemma MultipleOf(a: nat, p: nat, m: nat)
    requires m > 0
    ensures a * (p * m) % m == 0 && a * (p * m) >= 0
  {
    assert a * (p * m) == m * (a * p);
    DivUnique(a * (p * m), m, a * p, 0);
  }

  lemma DifferenceOf(a: nat, b: nat, m: nat)
    requires m > 0 && a % m == 0 && b % m == 0 && b <= a
    ensures (a - b) % m == 0
  {
    DivMod(a, m);
    DivMod(b, m);
    assert m * (a / m) - m * (b / m) == m * (a / m - b / m);
    DivUnique(a - b, m, a / m - b / m, 0);
  }

  /** The tile in row r and column c. */
  function TileOf(g: Grid, r: nat, c: nat): (t: TileDim)
    requires g.Valid() && r < |g.heights| && c < |g.widths|
    ensures Lcus(t.w, g.max - g.min) > 0
  {
    TileOfFits(g, r, c);
    TileDim(Extent(g.widths, c, g.width, g.max) / Pow2(g.min), Extent(g.heights, r, g.height, g.max) / Pow2(g.min),
            g.widths[c] * g.heights[r], r == |g.heights| - 1 && c == |g.widths| - 1)
  }

  lemma TileOfFits(g: Grid, r: nat, c: nat)
    requires g.Valid() && r < |g.heights| && c < |g.widths|
    ensures var w, h := Extent(g.widths, c, g.width, g.max), Extent(g.heights, r, g.height, g.max);
            && w > 0 && h >= 0 && w % Pow2(g.min) == 0 && h % Pow2(g.min) == 0
            && w / Pow2(g.min) >= 0 && h / Pow2(g.min) >= 0 && g.widths[c] * g.heights[r] >= 0
            && Lcus(w / Pow2(g.min), g.max - g.min) > 0
  {
    hide *;
    ValidAt(g, r, c);
    ExtentAt(g.widths, c, g.width, g.max, g.min);
    ExtentAt(g.heights, r, g.height, g.max, g.min);
    ProductOfNats(g.widths[c], g.heights[r]);
  }

  lemma ValidAt(g: Grid, r: nat, c: nat)
    requires g.Valid() && r < |g.heights| && c < |g.widths|
    ensures g.min <= g.max && g.width % Pow2(g.min) == 0 && g.height % Pow2(g.min) == 0
    ensures g.widths[c] > 0 && Sum(g.widths[..c]) * Pow2(g.max) < g.width
    ensures g.heights[r] > 0 && Sum(g.heights[..r]) * Pow2(g.max) < g.height
  {
    hide Sum, Pow2;
  }

  lemma ExtentAt(ns: seq<nat>, c: nat, size: nat, max: nat, min: nat)
    requires c < |ns| && min <= max && size % Pow2(min) == 0 && Sum(ns[..c]) * Pow2(max) < size && ns[c] > 0
    ensures var e := Extent(ns, c, size, max);
            && e > 0 && e % Pow2(min) == 0 && e / Pow2(min) >= 0 && Lcus(e / Pow2(min), max - min) > 0
  {
    ExtentFits(ns, c, size, max, min);
    var e: nat := Extent(ns, c, size, max);
    hide *;
    InMinUnits(e, min, max);
    SomeLcu(e, max);
  }

  /** The tiles of the first r rows and the first c of row r. */
  function Tiles(g: Grid, r: nat, c: nat): (ts: seq<TileDim>)
    requires g.Valid() && r <= |g.heights| && c <= |g.widths| && (c > 0 ==> r < |g.heights|)
    ensures Measured(ts, g.max - g.min)
    decreases r, c
  {
    if c > 0 then Tiles(g, r, c - 1) + [TileOf(g, r, c - 1)]
    else if r > 0 then Tiles(g, r - 1, |g.widths|)
    else []
  }

  /** Every tile is at least one largest unit wide. */
  ghost predicate Measured(ts: seq<TileDim>, K: nat) {
    forall i :: 0 <= i < |ts| ==> Lcus(ts[i].w, K) > 0
  }

  /** The symbols of a tile. */
  function TileSymbols(t: TileDim, K: nat): (syms: seq<Symbol>)
    requires Lcus(t.w, K) > 0
    ensures FiveContexts(syms)
  {
    Tile(true, t.n, t.n, t.last, t.w, t.h, K)
  }

  /** The stream after a tile has been coded behind pre, every tile with a coder of its own. */
  ghost function Append(pre: seq<Bit>, t: TileDim, K: nat): seq<Bit>
    requires Lcus(t.w, K) > 0
  {
    Finished(Coded((Start(pre), INITIAL_CONTEXTS), TileSymbols(t, K)).0)
  }

  /** The stream after a list of tiles. */
  ghost function After(ts: seq<TileDim>, K: nat): seq<Bit>
    requires Measured(ts, K)
  {
    if ts == [] then [] else Append(After(ts[..|ts| - 1], K), ts[|ts| - 1], K)
  }

  /** All tiles of a picture. */
  function Picture(g: Grid): (ts: seq<TileDim>)
    requires g.Valid()
    ensures Measured(ts, g.max - g.min)
  {
    Tiles(g, |g.heights|, 0)
  }

  /** The stream before tile i: its length is the entry point of the tile. */
  ghost function Before(ts: seq<TileDim>, i: nat, K: nat): seq<Bit>
    requires Measured(ts, K) && i <= |ts|
  {
    After(ts[..i], K)
  }

  /** The table holds the tiles' lengths in bytes. */
  ghost predicate SizesOf(sizes: seq<nat>, ts: seq<TileDim>, K: nat) {
    && Measured(ts, K) && |ts| <= |sizes|
    && forall i :: 0 <= i < |ts| ==> 8 * sizes[i] == |Before(ts, i + 1, K)| - |Before(ts, i, K)|
  }

  /** The tiles ts are coded: their bits are in the stream, their sizes in the table, and the count kept
      is the bins of the last. */
  ghost predicate Progress(sizes: seq<nat>, bits: seq<Bit>, bins: int, ts: seq<TileDim>, K: int) {
    && K >= 0 && Measured(ts, K) && bits == After(ts, K) && SizesOf(sizes, ts, K) && bins == BinsOfLast(ts, K)
  }

  /** As far as column c of tile row r the picture is coded: count tiles. */
  ghost predicate Reached(sizes: seq<nat>, bits: seq<Bit>, bins: int, g: Grid, r: nat, c: nat, count: int) {
    && g.Valid() && r <= |g.heights| && c <= |g.widths| && (c > 0 ==> r < |g.heights|)
    && Progress(sizes, bits, bins, Tiles(g, r, c), g.max - g.min) && count == |Tiles(g, r, c)|
  }

  /** All tiles of the picture are coded, with their sizes in the table. */
  ghost predicate CodesPicture(sizes: seq<nat>, bits: seq<Bit>, bins: int, g: Grid) {
    g.Valid() && Progress(sizes, bits, bins, Picture(g), g.max - g.min)
  }

  /** What the first k entries of a tile column or row list leave of a size in samples. */
  ghost predicate Remains(rest: int, ns: seq<nat>, k: nat, size: nat, max: nat) {
    k <= |ns| && rest == size - Sum(ns[..k]) * Pow2(max)
  }

  ghost predicate RoomFor(g: Grid, n: nat) {
    g.Valid() && |Picture(g)| <= n
  }

  /** Fills pSkipPict with all tiles; the table gives every tile's length, so its entry point. The bin
      count kept is that of the last tile only. */
  method GenerateSkippedPicture(pSkipPict: SkippedPicture?, ghost g: Grid, iWidth: nat, iHeight: nat,
                                uMaxCuSize: nat, uMinCuSize: nat, pTileWidths: seq<nat>, pTileHeights: seq<nat>)
      returns (ok: bool, ghost bits: seq<Bit>)
    requires g == Grid(iWidth, iHeight, uMaxCuSize, uMinCuSize, pTileWidths, pTileHeights) && g.Valid()
    requires pSkipPict != null && pSkipPict.pData != null ==>
               pSkipPict.iBufSize <= pSkipPict.pData.Length && RoomFor(g, pSkipPict.uTileSizes.Length)
    modifies pSkipPict, if pSkipPict == null || pSkipPict.pData == null then {} else {pSkipPict.pData}
    modifies if pSkipPict == null then {} else {pSkipPict.uTileSizes}
    ensures ok <==> pSkipPict != null && pSkipPict.pData != null
    ensures ok ==>
              && pSkipPict.iNumTiles == |pTileWidths| * |pTileHeights|
              && CodesPicture(pSkipPict.uTileSizes[..], bits, pSkipPict.iNumBins, g)
              && pSkipPict.iNumBits == |bits|
              && (|bits| <= 8 * pSkipPict.iBufSize ==> bits <= BufferBits(pSkipPict.pData[..]))
  {
    if pSkipPict == null || pSkipPict.pData == null {
      return false, [];
    }
    hide *;
    var bs := new BitStream(pSkipPict.pData, pSkipPict.iBufSize);
    var iBinsCount := CodeTiles(pSkipPict, bs, Grid(iWidth, iHeight, uMaxCuSize, uMinCuSize, pTileWidths, pTileHeights));
    CountIs(bs);
    if bs.iBitCount <= 8 * pSkipPict.iBufSize {
      ReadsAfter(bs, bs.written);
    }
    pSkipPict.iNumBits := bs.iBitCount;
    pSkipPict.iNumBins := iBinsCount;
    pSkipPict.iNumTiles := |pTileWidths| * |pTileHeights|;
    return true, bs.written;
  }

  /** The loop over tile rows. */
  method CodeTiles(pSkipPict: SkippedPicture, bs: BitStream, g: Grid) returns (iBinsCount: nat)
    requires bs.Valid() && bs.written == [] && RoomFor(g, pSkipPict.uTileSizes.Length)
    modifies pSkipPict.uTileSizes, bs`iBitCount, bs`isOverflow, bs`written, bs.pData
    ensures bs.Valid()
    ensures CodesPicture(pSkipPict.uTileSizes[..], bs.written, iBinsCount, g)
  {
    hide *;
    RoomIs(g, pSkipPict.uTileSizes.Length);
    var H: int, iTile := g.height, 0;
    iBinsCount := 0;
    NothingReached(pSkipPict.uTileSizes[..], g);
    for iTileRow := 0 to |g.heights|
      invariant bs.Valid()
      invariant Reached(pSkipPict.uTileSizes[..], bs.written, iBinsCount, g, iTileRow, 0, iTile)
      invariant Remains(H, g.heights, iTileRow, g.height, g.max)
    {
      iBinsCount, iTile := CodeTileRow(pSkipPict, bs, g, iTileRow, H, iTile, iBinsCount);
      RowReached(pSkipPict.uTileSizes[..], bs.written, iBinsCount, g, iTileRow, iTile);
      RemainsNext(H, g.heights, iTileRow, g.height, g.max);
      H := H - g.heights[iTileRow] * Pow2(g.max);
    }
    PictureReached(pSkipPict.uTileSizes[..], bs.written, iBinsCount, g, iTile);
  }

  /** The loop over the tiles of row r; firstTile is the number of tiles already coded. */
  method CodeTileRow(pSkipPict: SkippedPicture, bs: BitStream, g: Grid, r: nat, H: int, firstTile: nat, bins: nat)
      returns (iBinsCount: nat, iTile: nat)
    requires bs.Valid() && RoomFor(g, pSkipPict.uTileSizes.Length) && r < |g.heights|
    requires Remains(H, g.heights, r, g.height, g.max)
    requires Reached(pSkipPict.uTileSizes[..], bs.written, bins, g, r, 0, firstTile)
    modifies pSkipPict.uTileSizes, bs`iBitCount, bs`isOverflow, bs`written, bs.pData
    ensures bs.Valid()
    ensures Reached(pSkipPict.uTileSizes[..], bs.written, iBinsCount, g, r, |g.widths|, iTile)
  {
    hide *;
    iTile := firstTile;
    var W: int := g.width;
    iBinsCount := bins;
    RemainsFirst(g.widths, g.width, g.max);
    for iTileColumn := 0 to |g.widths|
      invariant bs.Valid()
      invariant Reached(pSkipPict.uTileSizes[..], bs.written, iBinsCount, g, r, iTileColumn, iTile)
      invariant Remains(W, g.widths, iTileColumn, g.width, g.max)
    {
      var iPrevBitsCount := bs.iBitCount;
      iBinsCount := CodeTile(pSkipPict, bs, g, r, iTileColumn, W, H, iTile, iPrevBitsCount, iBinsCount);
      RemainsNext(W, g.widths, iTileColumn, g.width, g.max);
      iTile := iTile + 1;
      W := W - g.widths[iTileColumn] * Pow2(g.max);
    }
  }

  /** One pass of the inner loop: codes the tile in row r and column c and enters its size. */
  method CodeTile(pSkipPict: SkippedPicture, bs: BitStream, g: Grid, r: nat, c: nat, W: int, H: int,
                  iTile: nat, iPrevBitsCount: int, ghost bins: nat) returns (iBinsCount: nat)
    requires bs.Valid() && RoomFor(g, pSkipPict.uTileSizes.Length)
    requires r < |g.heights| && c < |g.widths| && iPrevBitsCount == bs.iBitCount
    requires Remains(W, g.widths, c, g.width, g.max) && Remains(H, g.heights, r, g.height, g.max)
    requires Reached(pSkipPict.uTileSizes[..], bs.written, bins, g, r, c, iTile)
    modifies pSkipPict.uTileSizes, bs`iBitCount, bs`isOverflow, bs`written, bs.pData
    ensures bs.Valid()
    ensures Reached(pSkipPict.uTileSizes[..], bs.written, iBinsCount, g, r, c + 1, iTile + 1)
  {
    hide *;
    ReachedIs(pSkipPict.uTileSizes[..], bs.written, bins, g, r, c, iTile);
    RemainsIs(W, g.widths, c, g.width, g.max);
    RemainsIs(H, g.heights, r, g.height, g.max);
    RoomLeft(g, r, c, pSkipPict.uTileSizes.Length);
    CountIs(bs);
    ProgressIs(pSkipPict.uTileSizes[..], bs.written, bins, Tiles(g, r, c), g.max - g.min);
    ghost var K, ts, t, sizes := g.max - g.min, Tiles(g, r, c), TileOf(g, r, c), pSkipPict.uTileSizes[..];
    ValidAt(g, r, c);
    TileOfIs(g, r, c);
    TileOfFits(g, r, c);
    TilesNext(g, r, c);
    AfterOne(ts, t, K);
    AppendIs(After(ts, K), t, K);
    AfterAligned(ts, K);
    AppendGrows(After(ts, K), t, K);
    var bLastTile := c == |g.widths| - 1 && r == |g.heights| - 1;
    var uTileNumLCU := g.widths[c] * g.heights[r];
    var iTileWidth := Min(g.widths[c] * Pow2(g.max), W);
    var iTileHeight := Min(g.heights[r] * Pow2(g.max), H);
    iBinsCount := GenerateSkippedTileCabac(bs, bLastTile, iTileWidth, iTileHeight, g.max, g.min, uTileNumLCU);
    var iBitsCount := bs.iBitCount;
    assert bs.written == After(ts + [t], K) && iBitsCount == |bs.written| by {
      CountIs(bs);
    }
    DifferenceOf(iBitsCount, iPrevBitsCount, 8);
    assert (iBitsCount - iPrevBitsCount) % 8 == 0;
    pSkipPict.uTileSizes[iTile] := (iBitsCount - iPrevBitsCount) / 8;
    SizesNext(sizes, pSkipPict.uTileSizes[..], ts, t, K);
    ProgressMade(pSkipPict.uTileSizes[..], bs.written, iBinsCount, ts + [t], K);
    ReachedMade(pSkipPict.uTileSizes[..], bs.written, iBinsCount, g, r, c + 1);
  }

  lemma ReachedIs(sizes: seq<nat>, bits: seq<Bit>, bins: int, g: Grid, r: nat, c: nat, count: int)
    requires Reached(sizes, bits, bins, g, r, c, count)
    ensures g.Valid() && g.min <= g.max && r <= |g.heights| && c <= |g.widths| && (c > 0 ==> r < |g.heights|)
    ensures Progress(sizes, bits, bins, Tiles(g, r, c), g.max - g.min) && count == |Tiles(g, r, c)|
  {
    hide Tiles, Progress, Sum, Pow2;
  }

  lemma ReachedMade(sizes: seq<nat>, bits: seq<Bit>, bins: int, g: Grid, r: nat, c: nat)
    requires g.Valid() && r <= |g.heights| && c <= |g.widths| && (c > 0 ==> r < |g.heights|)
    requires Progress(sizes, bits, bins, Tiles(g, r, c), g.max - g.min)
    ensures Reached(sizes, bits, bins, g, r, c, |Tiles(g, r, c)|)
  {
    hide Tiles, Progress, Grid.Valid;
  }

  lemma RowReached(sizes: seq<nat>, bits: seq<Bit>, bins: int, g: Grid, r: nat, count: int)
    requires r < |g.heights| && Reached(sizes, bits, bins, g, r, |g.widths|, count)
    ensures Reached(sizes, bits, bins, g, r + 1, 0, count)
  {
    hide *;
    ReachedIs(sizes, bits, bins, g, r, |g.widths|, count);
    TilesRow(g, r);
    ReachedMade(sizes, bits, bins, g, r + 1, 0);
  }

  lemma NothingReached(sizes: seq<nat>, g: Grid)
    requires g.Valid()
    ensures Reached(sizes, [], 0, g, 0, 0, 0) && Remains(g.height, g.heights, 0, g.height, g.max)
  {
    assert g.min <= g.max;
    hide *;
    NoTiles(g);
    NoSizes(sizes, g.max - g.min);
    ProgressMade(sizes, [], 0, [], g.max - g.min);
    ReachedMade(sizes, [], 0, g, 0, 0);
    RemainsFirst(g.heights, g.height, g.max);
  }

  lemma PictureReached(sizes: seq<nat>, bits: seq<Bit>, bins: int, g: Grid, count: int)
    requires Reached(sizes, bits, bins, g, |g.heights|, 0, count)
    ensures CodesPicture(sizes, bits, bins, g)
  {
    hide Progress, Tiles, Grid.Valid, Measured;
  }

  lemma RemainsFirst(ns: seq<nat>, size: nat, max: nat)
    ensures Remains(size, ns, 0, size, max)
  {
    assert ns[..0] == [];
    Whole(size, Pow2(max));
  }

  lemma RemainsIs(rest: int, ns: seq<nat>, k: nat, size: nat, max: nat)
    requires Remains(rest, ns, k, size, max)
    ensures k <= |ns| && rest == size - Sum(ns[..k]) * Pow2(max)
  {
    hide Sum, Pow2;
  }

  lemma RemainsNext(rest: int, ns: seq<nat>, k: nat, size: nat, max: nat)
    requires Remains(rest, ns, k, size, max) && k < |ns|
    ensures Remains(rest - ns[k] * Pow2(max), ns, k + 1, size, max)
  {
    SumNext(ns, k, Pow2(max));
    hide Sum, Pow2;
  }

  lemma RoomIs(g: Grid, n: nat)
    requires RoomFor(g, n)
    ensures g.Valid()
  {
    hide Picture, Grid.Valid;
  }

  lemma RoomLeft(g: Grid, r: nat, c: nat, n: nat)
    requires RoomFor(g, n) && r < |g.heights| && c < |g.widths|
    ensures g.Valid() && |Tiles(g, r, c)| < n
  {
    assert g.Valid() && |Picture(g)| <= n;
    hide *;
    TilesNext(g, r, c);
  }

  lemma ProgressIs(sizes: seq<nat>, bits: seq<Bit>, bins: int, ts: seq<TileDim>, K: int)
    requires Progress(sizes, bits, bins, ts, K)
    ensures K >= 0 && Measured(ts, K) && bits == After(ts, K) && SizesOf(sizes, ts, K) && bins == BinsOfLast(ts, K)
  {
  }

  lemma ProgressMade(sizes: seq<nat>, bits: seq<Bit>, bins: int, ts: seq<TileDim>, K: nat)
    requires Measured(ts, K) && bits == After(ts, K) && SizesOf(sizes, ts, K) && bins == BinsOfLast(ts, K)
    ensures Progress(sizes, bits, bins, ts, K)
  {
  }

  lemma CountIs(bs: BitStream)
    requires bs.Valid()
    ensures bs.iBitCount == |bs.written|
  {
  }

  lemma ReadsAfter(bs: BitStream, w: seq<Bit>)
    requires bs.Valid() && bs.written == w && |w| <= bs.iMaxBits
    ensures w <= BufferBits(bs.pData[..])
  {
    PackedReadsBack(bs.pData[..], w, bs.iMaxBits / 8);
    assert w[..|w|] == w;
  }

  lemma PictureIs(g: Grid)
    requires g.Valid()
    ensures Picture(g) == Tiles(g, |g.heights|, 0)
  {
    hide Tiles;
  }

  lemma NoSizes(sizes: seq<nat>, K: nat)
    ensures SizesOf(sizes, [], K) && BinsOfLast([], K) == 0
  {
  }

  lemma Whole(n: nat, p: nat)
    ensures n - 0 * p == n
  {
  }

  lemma TileOfIs(g: Grid, r: nat, c: nat)
    requires g.Valid() && r < |g.heights| && c < |g.widths|
    ensures var t, w, h := TileOf(g, r, c), Extent(g.widths, c, g.width, g.max), Extent(g.heights, r, g.height, g.max);
            && w == Min(g.widths[c] * Pow2(g.max), g.width - Sum(g.widths[..c]) * Pow2(g.max))
            && h == Min(g.heights[r] * Pow2(g.max), g.height - Sum(g.heights[..r]) * Pow2(g.max))
            && t.w == w / Pow2(g.min) && t.h == h / Pow2(g.min) && t.n == g.widths[c] * g.heights[r]
            && t.last == (r == |g.heights| - 1 && c == |g.widths| - 1)
            && g.widths[c] * Pow2(g.max) >= 0 && g.heights[r] * Pow2(g.max) >= 0
  {
    TileOfFits(g, r, c);
    ProductOfNats(g.widths[c], Pow2(g.max));
    ProductOfNats(g.heights[r], Pow2(g.max));
    hide Sum, Min, Pow2, Lcus, Grid.Valid;
  }

  lemma TilesNext(g: Grid, r: nat, c: nat)
    requires g.Valid() && r < |g.heights| && c < |g.widths|
    ensures Tiles(g, r, c + 1) == Tiles(g, r, c) + [TileOf(g, r, c)]
    ensures |Tiles(g, r, c)| < |Picture(g)|
  {
    hide *;
    TilesNextIs(g, r, c);
    TileCount(g, r, c);
    TileCount(g, |g.heights|, 0);
    PictureIs(g);
    InsideGrid(c, r, |g.widths|, |g.heights|);
  }

  lemma TilesNextIs(g: Grid, r: nat, c: nat)
    requires g.Valid() && r < |g.heights| && c < |g.widths|
    ensures Tiles(g, r, c + 1) == Tiles(g, r, c) + [TileOf(g, r, c)]
  {
    hide TileOf, Measured, Grid.Valid;
  }

  lemma TilesRow(g: Grid, r: nat)
    requires g.Valid() && r < |g.heights|
    ensures Tiles(g, r + 1, 0) == Tiles(g, r, |g.widths|)
  {
    hide TileOf, Measured, Grid.Valid;
  }

  lemma SumNext(ns: seq<nat>, c: nat, p: nat)
    requires c < |ns|
    ensures Sum(ns[..c + 1]) * p == Sum(ns[..c]) * p + ns[c] * p
  {
    assert ns[..c + 1][..c] == ns[..c];
    assert Sum(ns[..c + 1]) == Sum(ns[..c]) + ns[c];
  }

  lemma AppendIs(pre: seq<Bit>, t: TileDim, K: nat)
    requires Lcus(t.w, K) > 0
    ensures Append(pre, t, K) == Finished(Coded((Start(pre), INITIAL_CONTEXTS), Tile(true, t.n, t.n, t.last, t.w, t.h, K)).0)
    ensures TileSymbols(t, K) == Tile(true, t.n, t.n, t.last, t.w, t.h, K)
  {
    hide Finished, Coded, Tile, Lcus;
  }

  lemma {:induction false} AfterAligned(ts: seq<TileDim>, K: nat)
    requires Measured(ts, K)
    ensures |After(ts, K)| % 8 == 0
    ensures ts != [] ==> |After(ts[..|ts| - 1], K)| <= |After(ts, K)|
  {
    if ts != [] {
      var t := ts[|ts| - 1];
      AppendGrows(After(ts[..|ts| - 1], K), t, K);
      hide Append, Lcus;
    }
  }

  lemma AppendGrows(pre: seq<Bit>, t: TileDim, K: nat)
    requires Lcus(t.w, K) > 0
    ensures |Append(pre, t, K)| % 8 == 0 && pre <= Append(pre, t, K)
  {
    var s := (Start(pre), INITIAL_CONTEXTS);
    var c := Coded(s, TileSymbols(t, K)).0;
    StartSound(pre);
    EncodeRefines(Start(pre), |pre|, INITIAL_CONTEXTS, TileSymbols(t, K));
    FinishedGrows(c);
    hide Finished, TileSymbols, Lcus;
  }

  lemma FinishedGrows(c: Coder)
    ensures c.bits <= Finished(c) && |Finished(c)| % 8 == 0
  {
  }

  lemma SizesNext(sizes: seq<nat>, sizes': seq<nat>, ts: seq<TileDim>, t: TileDim, K: nat)
    requires Measured(ts + [t], K) && SizesOf(sizes, ts, K) && |ts| < |sizes| == |sizes'|
    requires forall i :: 0 <= i < |ts| ==> sizes'[i] == sizes[i]
    requires 8 * sizes'[|ts|] == |After(ts + [t], K)| - |After(ts, K)|
    ensures SizesOf(sizes', ts + [t], K)
    ensures BinsOfLast(ts + [t], K) == |TileSymbols(t, K)|
  {
    hide After, TileSymbols, Lcus;
    var us := ts + [t];
    forall i | 0 <= i < |us|
      ensures 8 * sizes'[i] == |Before(us, i + 1, K)| - |Before(us, i, K)|
    {
      if i < |ts| {
        assert us[..i + 1] == ts[..i + 1] && us[..i] == ts[..i];
        assert 8 * sizes[i] == |Before(ts, i + 1, K)| - |Before(ts, i, K)|;
      } else {
        assert us[..i + 1] == us && us[..i] == ts;
      }
    }
  }

  /** The bins of the last tile. */
  ghost function BinsOfLast(ts: seq<TileDim>, K: nat): nat
    requires Measured(ts, K)
  {
    if ts == [] then 0 else |TileSymbols(ts[|ts| - 1], K)|
  }

  lemma NoTiles(g: Grid)
    requires g.Valid()
    ensures Tiles(g, 0, 0) == [] && After([], g.max - g.min) == [] && Sum([]) == 0
  {
  }

  lemma {:induction false} TileCount(g: Grid, r: nat, c: nat)
    requires g.Valid() && r <= |g.heights| && c <= |g.widths| && (c > 0 ==> r < |g.heights|)
    ensures |Tiles(g, r, c)| == r * |g.widths| + c
    decreases r, c
  {
    hide TileOf, Measured, Grid.Valid;
    if c > 0 {
      TileCount(g, r, c - 1);
    } else if r > 0 {
      TileCount(g, r - 1, |g.widths|);
      assert r * |g.widths| == (r - 1) * |g.widths| + |g.widths|;
    }
  }

  lemma AfterOne(ts: seq<TileDim>, t: TileDim, K: nat)
    requires Measured(ts + [t], K)
    ensures Measured(ts, K) && Lcus(t.w, K) > 0
    ensures After(ts + [t], K) == Append(After(ts, K), t, K)
  {
    hide Append, Lcus;
    assert (ts + [t])[..|ts + [t]| - 1] == ts;
    assert forall i :: 0 <= i < |ts| ==> ts[i] == (ts + [t])[i];
    assert (ts + [t])[|ts|] == t;
  }

  // ---------------------------------------------------------------------------------------------
  // Entry points
  // ---------------------------------------------------------------------------------------------

  /** The sizes of the first tiles in the table. */
  function SizeSum(sizes: seq<nat>, i: nat): nat
    requires i <= |sizes|
  {
    if i == 0 then 0 else SizeSum(sizes, i - 1) + sizes[i - 1]
  }

  /** The table locates every tile. */
  lemma {:induction false} EntryPoint(sizes: seq<nat>, ts: seq<TileDim>, i: nat, K: nat)
    requires SizesOf(sizes, ts, K) && i <= |ts|
    ensures 8 * SizeSum(sizes, i) == |Before(ts, i, K)|
  {
    hide Before, Lcus;
    if i == 0 {
      NothingBefore(ts, K);
    } else {
      EntryPoint(sizes, ts, i - 1, K);
      assert 8 * sizes[i - 1] == |Before(ts, i - 1 + 1, K)| - |Before(ts, i - 1, K)|;
    }
  }

  lemma NothingBefore(ts: seq<TileDim>, K: nat)
    requires Measured(ts, K)
    ensures Before(ts, 0, K) == []
  {
    assert ts[..0] == [];
  }

  /** A tile is coded behind the ones before it, and the later ones leave it alone. */
  lemma {:induction false} TileStays(ts: seq<TileDim>, i: nat, K: nat)
    requires Measured(ts, K) && i < |ts|
    ensures Lcus(ts[i].w, K) > 0
    ensures Append(Before(ts, i, K), ts[i], K) <= After(ts, K)
    decreases |ts|
  {
    var init, t := ts[..|ts| - 1], ts[|ts| - 1];
    hide Append, Lcus;
    AppendGrows(After(init, K), t, K);
    if i < |init| {
      TileStays(init, i, K);
      assert init[..i] == ts[..i] && init[i] == ts[i];
    } else {
      assert ts[..i] == init;
    }
  }

  /** A decoder started at the entry point the table gives for a tile reads exactly that tile's bins. */
  lemma TileDecodesAtEntry(sizes: seq<nat>, ts: seq<TileDim>, i: nat, K: nat, stream: seq<Bit>)
    requires SizesOf(sizes, ts, K) && i < |ts| && ts[i].n > 0 && After(ts, K) <= stream
    ensures Lcus(ts[i].w, K) > 0 && i <= |sizes|
    ensures var d := DecodeInit(stream, 8 * SizeSum(sizes, i));
            && d.Some?
            && var r := Decode(stream, d.value, INITIAL_CONTEXTS, Requests(TileSymbols(ts[i], K)));
            && r.Some? && r.value.0 == Bins(TileSymbols(ts[i], K))
            && 0 <= 8 * SizeSum(sizes, i + 1) - r.value.1.pos < 8
  {
    MeasuredAt(sizes, ts, i, K);
    hide *;
    var pre, t := Before(ts, i, K), ts[i];
    EntryPoint(sizes, ts, i, K);
    EntryPoint(sizes, ts, i + 1, K);
    TileStays(ts, i, K);
    NextBefore(ts, i, K);
    AppendIs(pre, t, K);
    var whole := Append(pre, t, K);
    var post := stream[|whole|..];
    assert stream == whole + post;
    TileDecodes(pre, post, t.n, t.last, t.w, t.h, K);
    FinishedLength(Coded((Start(pre), INITIAL_CONTEXTS), Tile(true, t.n, t.n, t.last, t.w, t.h, K)).0);
  }

  lemma MeasuredAt(sizes: seq<nat>, ts: seq<TileDim>, i: nat, K: nat)
    requires SizesOf(sizes, ts, K) && i < |ts|
    ensures Measured(ts, K) && Lcus(ts[i].w, K) > 0 && |ts| <= |sizes|
  {
  }

  lemma NextBefore(ts: seq<TileDim>, i: nat, K: nat)
    requires Measured(ts, K) && i < |ts|
    ensures Lcus(ts[i].w, K) > 0 && Before(ts, i + 1, K) == Append(Before(ts, i, K), ts[i], K)
  {
    hide Append, Lcus;
    assert ts[..i + 1] == ts[..i] + [ts[i]];
    AfterOne(ts[..i], ts[i], K);
  }
}
