/** Ten-bit pictures: tiles of four by four samples packed in ten 16-bit words, raster planes with one
    sample in a word, and raster planes with three samples in a 32-bit word. A plane is a two-dimensional
    array of words whose second dimension is the pitch. An OR of fields that do not overlap is a sum. */
module PixelTiles {
  import opened Bits
  import opened PixelFields

  function RowOf<T>(a: array2<T>, y: nat): (row: seq<T>)
    requires y < a.Length0
    reads a
    ensures |row| == a.Length1
  {
    seq(a.Length1, x requires 0 <= x < a.Length1 reads a => a[y, x])
  }

  /** Number of the sample at column w and row h of a row of tiles. */
  function TileIndex(w: nat, h: nat): nat {
    w / 4 * 16 + h % 4 * 4 + w % 4
  }

  /** The sample at column w and row h of a row of tiles. */
  function TileSample(row: seq<Word16>, w: nat, h: nat): nat
    requires 10 * (w / 4 + 1) <= |row|
  {
    Sample(row, TileIndex(w, h))
  }

  function TileSamples(row: seq<Word16>, width: nat, h: nat): (s: seq<nat>)
    requires 10 * ((width + 3) / 4) <= |row|
    ensures |s| == width
  {
    seq(width, w requires 0 <= w < width => TileSample(row, w, h))
  }

  /** Word i of a packed row: three samples, the first lowest; missing ones are zero. */
  function PackWord(s: seq<nat>, i: nat): nat
    requires 3 * i < |s|
  {
    s[3 * i]
    + (if 3 * i + 1 < |s| then 0x400 * s[3 * i + 1] else 0)
    + (if 3 * i + 2 < |s| then 0x10_0000 * s[3 * i + 2] else 0)
  }

  function Masked(s: seq<Word16>): (r: seq<nat>)
    ensures |r| == |s|
  {
    seq(|s|, k requires 0 <= k < |s| => s[k] % 0x400)
  }

  // ---------------------------------------------------------------------------------------------
  // Reading one sample of a tile
  // ---------------------------------------------------------------------------------------------

  lemma {:induction false} ShlIsMul(v: nat, n: nat)
    ensures Shl(v, n) == Pow2(n) * v
  {
    if n > 0 {
      ShlIsMul(v, n - 1);
    }
  }

  /** The formula: a shifted word, and what the next one contributes. */
  method GetTile10BitVal(w: nat, hInsideTile: nat, pSrc: array2<Word16>, y: nat) returns (result: nat)
    requires y < pSrc.Length0 && 10 * (w / 4 + 1) <= pSrc.Length1
    ensures result == TileSample(RowOf(pSrc, y), w, hInsideTile) < 0x400
  {
    hide Field, Pow2, Shr, Shl;
    var offset := w / 4 * 16 + hInsideTile % 4 * 4 + w % 4;
    var u16offset := offset * 5 / 8;
    var bitOffset := offset * 10 % 16;
    ghost var row := RowOf(pSrc, y);
    SampleIs(row, offset);
    assert u16offset == 10 * offset / 16;
    ShrIsDiv(pSrc[y, u16offset], bitOffset);
    result := Shr(pSrc[y, u16offset], bitOffset);
    if bitOffset > 6 {
      var remainingBit := bitOffset - 6;
      var next := pSrc[y, u16offset + 1];
      TopOfWord(pSrc[y, u16offset], bitOffset);
      ShlIsMul(next, 10 - remainingBit);
      MaskedSum(result, next, bitOffset);
      WordCut(result + Shl(next, 10 - remainingBit));
      result := (result + Shl(next, 10 - remainingBit)) % 0x1_0000;
    }
    result := result % 0x400;
  }

  lemma WordCut(v: nat)
    ensures v % 0x1_0000 % 0x400 == v % 0x400
  {
  }

  /** The first n words of row h are the packed samples s. */
  ghost predicate PackedTo(a: array2<Word32>, h: nat, n: nat, s: seq<nat>)
    requires h < a.Length0 && n <= a.Length1
    reads a
  {
    3 * n <= |s| + 2 && forall i :: 0 <= i < n ==> a[h, i] == PackWord(s, i)
  }

  /** Everything but row h is left alone. */
  twostate predicate OtherRowsKept(a: array2<Word32>, h: nat)
    reads a
  {
    forall r, i :: 0 <= r < a.Length0 && 0 <= i < a.Length1 ==> a[r, i] == old(a[r, i]) || r == h
  }

  /** Writes the next word of a packed row. */
  method PutWord(pDst: array2<Word32>, h: nat, d: nat, v: Word32, ghost s: seq<nat>)
    requires h < pDst.Length0 && d < pDst.Length1 && PackedTo(pDst, h, d, s)
    requires 3 * d < |s| && v == PackWord(s, d)
    modifies pDst
    ensures PackedTo(pDst, h, d + 1, s) && OtherRowsKept(pDst, h)
  {
    hide PackWord;
    pDst[h, d] := v;
  }

  lemma WordOf(s: seq<nat>, i: nat)
    requires 3 * i < |s|
    ensures 3 * i + 1 == |s| ==> PackWord(s, i) == s[3 * i]
    ensures 3 * i + 2 == |s| ==> PackWord(s, i) == s[3 * i] + 0x400 * s[3 * i + 1]
    ensures 3 * i + 2 < |s| ==> PackWord(s, i) == s[3 * i] + 0x400 * s[3 * i + 1] + 0x10_0000 * s[3 * i + 2]
  {
  }

  lemma NothingPacked(a: array2<Word32>, h: nat, s: seq<nat>)
    requires h < a.Length0
    ensures PackedTo(a, h, 0, s)
  {
  }

  /** Row h of a row of tiles, packed three to a word. */
  method TileRowToXv(pSrc: array2<Word16>, y: nat, hInsideTile: nat, iWidth: nat, pDst: array2<Word32>, h: nat)
    requires y < pSrc.Length0 && 10 * ((iWidth + 3) / 4) <= pSrc.Length1
    requires h < pDst.Length0 && (iWidth + 2) / 3 <= pDst.Length1
    modifies pDst
    ensures PackedTo(pDst, h, (iWidth + 2) / 3, TileSamples(RowOf(pSrc, y), iWidth, hInsideTile))
    ensures OtherRowsKept(pDst, h)
  {
    hide TileSamples, PackWord, PackedTo, RowOf, TileSample, TileIndex, Sample, Field;
    ghost var s := TileSamples(RowOf(pSrc, y), iWidth, hInsideTile);
    var w, d := 0, 0;
    NothingPacked(pDst, h, s);
    while w < iWidth - 2
      invariant w == 3 * d && d <= (iWidth + 2) / 3 && PackedTo(pDst, h, d, s)
      invariant OtherRowsKept(pDst, h)
    {
      SampleAt(RowOf(pSrc, y), iWidth, hInsideTile, w);
      SampleAt(RowOf(pSrc, y), iWidth, hInsideTile, w + 1);
      SampleAt(RowOf(pSrc, y), iWidth, hInsideTile, w + 2);
      var a := GetTile10BitVal(w, hInsideTile, pSrc, y);
      var b := GetTile10BitVal(w + 1, hInsideTile, pSrc, y);
      var c := GetTile10BitVal(w + 2, hInsideTile, pSrc, y);
      WordOf(s, d);
      PutWord(pDst, h, d, a + 0x400 * b + 0x10_0000 * c, s);
      w := w + 3;
      d := d + 1;
    }
    if w < iWidth {
      WordOf(s, d);
      SampleAt(RowOf(pSrc, y), iWidth, hInsideTile, w);
      var v: Word32 := GetTile10BitVal(w, hInsideTile, pSrc, y);
      if w + 1 < iWidth {
        SampleAt(RowOf(pSrc, y), iWidth, hInsideTile, w + 1);
        var b := GetTile10BitVal(w + 1, hInsideTile, pSrc, y);
        v := v + 0x400 * b;
      }
      PutWord(pDst, h, d, v, s);
    }
  }

  lemma SampleAt(row: seq<Word16>, width: nat, h: nat, w: nat)
    requires w < width && 10 * ((width + 3) / 4) <= |row|
    ensures 10 * (w / 4 + 1) <= |row| && TileSamples(row, width, h)[w] == TileSample(row, w, h)
  {
    hide TileSample;
  }

  /** Untiling and packing in one go, for one component. */
  method TileToXvOneComponent(pSrc: array2<Word16>, pDst: array2<Word32>, iWidth: nat, iDstHeight: nat)
    requires (iDstHeight + 3) / 4 <= pSrc.Length0 && 10 * ((iWidth + 3) / 4) <= pSrc.Length1
    requires iDstHeight <= pDst.Length0 && (iWidth + 2) / 3 <= pDst.Length1
    modifies pDst
    ensures forall h :: 0 <= h < iDstHeight ==>
                          PackedTo(pDst, h, (iWidth + 2) / 3, TileSamples(RowOf(pSrc, h / 4), iWidth, h % 4))
  {
    hide TileSamples, PackWord;
    for h := 0 to iDstHeight
      invariant forall r :: 0 <= r < h ==>
                              PackedTo(pDst, r, (iWidth + 2) / 3, TileSamples(RowOf(pSrc, r / 4), iWidth, r % 4))
    {
      TileRowToXv(pSrc, h / 4, h % 4, iWidth, pDst, h);
    }
  }

  // ---------------------------------------------------------------------------------------------
  // Unpacking a whole tile
  // ---------------------------------------------------------------------------------------------

  lemma SampleWithin(t: seq<Word16>, k: nat, u: nat, s: nat)
    requires 10 * k == 16 * u + s && s <= 6 && u < |t|
    ensures 10 * k + 10 <= 16 * |t| && Sample(t, k) == Shr(t[u], s) % 0x400
  {
    hide Pow2, Field, Shr;
    SampleIs(t, k);
    assert 10 * k / 16 == u && 10 * k % 16 == s;
    ShrIsDiv(t[u], s);
  }

  lemma SampleAcross(t: seq<Word16>, k: nat, u: nat, s: nat)
    requires 10 * k == 16 * u + s && 6 < s < 16 && u + 1 < |t|
    ensures 10 * k + 10 <= 16 * |t| && Sample(t, k) == (Shr(t[u], s) + Shl(t[u + 1], 16 - s)) % 0x400
  {
    hide Pow2, Field, Shl, Shr;
    SampleIs(t, k);
    assert 10 * k / 16 == u && 10 * k % 16 == s;
    TopOfWord(t[u], s);
    ShrIsDiv(t[u], s);
    ShlIsMul(t[u + 1], 16 - s);
    MaskedSum(Shr(t[u], s), t[u + 1], s);
  }

  /** Half a block, eight samples in five words, unpacked by explicit shifts and masks. */
  function HalfBlock(a: nat, b: nat, c: nat, d: nat, e: nat): (s: seq<nat>)
    ensures |s| == 8
  {
    [a % 0x400, (Shr(a, 10) + Shl(b, 6)) % 0x400, Shr(b, 4) % 0x400, (Shr(b, 14) + Shl(c, 2)) % 0x400,
     (Shr(c, 8) + Shl(d, 8)) % 0x400, Shr(d, 2) % 0x400, (Shr(d, 12) + Shl(e, 4)) % 0x400, Shr(e, 6)]
  }

  lemma HalfBlockSamples(t: seq<Word16>, half: nat)
    requires |t| == 10 && half < 2
    ensures var s := HalfBlock(t[5 * half], t[5 * half + 1], t[5 * half + 2], t[5 * half + 3], t[5 * half + 4]);
            forall k :: 0 <= k < 8 ==> s[k] == Sample(t, 8 * half + k)
  {
    hide Sample, Shr, Shl;
    var i, k := 5 * half, 8 * half;
    ShrNone(t[i]);
    SampleWithin(t, k, i, 0);
    SampleAcross(t, k + 1, i, 10);
    SampleWithin(t, k + 2, i + 1, 4);
    SampleAcross(t, k + 3, i + 1, 14);
    SampleAcross(t, k + 4, i + 2, 8);
    SampleWithin(t, k + 5, i + 3, 2);
    SampleAcross(t, k + 6, i + 3, 12);
    SampleWithin(t, k + 7, i + 4, 6);
    TopTen(t[i + 4]);
  }

  lemma ShrNone(w: nat)
    ensures Shr(w, 0) == w
  {
  }

  /** The last sample of a half needs no mask. */
  lemma TopTen(w: Word16)
    ensures Shr(w, 6) < 0x400
  {
    Pow2Of16();
    TopOfWord(w, 6);
    ShrIsDiv(w, 6);
    hide Pow2, Shr;
  }

  /** Two rows of four samples. */
  ghost predicate HalfWritten(s: seq<nat>, a: array2<Word16>, H: nat, W: nat)
    requires |s| == 8 && H + 2 <= a.Length0 && W + 4 <= a.Length1
    reads a
  {
    forall r, c :: H <= r < H + 2 && W <= c < W + 4 ==> a[r, c] == s[4 * (r - H) + (c - W)]
  }

  /** Half of the unrolled unpacking; the source writes out both halves. */
  method WriteHalf(pTiled: array2<Word16>, y: nat, i: nat, pUntiled: array2<Word16>, H: nat, W: nat)
    requires pTiled != pUntiled && y < pTiled.Length0 && i + 5 <= pTiled.Length1
    requires H + 2 <= pUntiled.Length0 && W + 4 <= pUntiled.Length1
    modifies pUntiled
    ensures HalfWritten(HalfBlock(pTiled[y, i], pTiled[y, i + 1], pTiled[y, i + 2], pTiled[y, i + 3], pTiled[y, i + 4]),
                        pUntiled, H, W)
    ensures forall r, c :: 0 <= r < pUntiled.Length0 && 0 <= c < pUntiled.Length1 ==>
                             pUntiled[r, c] == old(pUntiled[r, c]) || (H <= r < H + 2 && W <= c < W + 4)
  {
    var a: nat, b: nat, c: nat := pTiled[y, i], pTiled[y, i + 1], pTiled[y, i + 2];
    var d: nat, e: nat := pTiled[y, i + 3], pTiled[y, i + 4];
    hide Shr, Shl;
    TopTen(pTiled[y, i + 4]);
    pUntiled[H, W] := a % 0x400;
    pUntiled[H, W + 1] := (Shr(a, 10) + Shl(b, 6)) % 0x400;
    pUntiled[H, W + 2] := Shr(b, 4) % 0x400;
    pUntiled[H, W + 3] := (Shr(b, 14) + Shl(c, 2)) % 0x400;
    pUntiled[H + 1, W] := (Shr(c, 8) + Shl(d, 8)) % 0x400;
    pUntiled[H + 1, W + 1] := Shr(d, 2) % 0x400;
    pUntiled[H + 1, W + 2] := (Shr(d, 12) + Shl(e, 4)) % 0x400;
    pUntiled[H + 1, W + 3] := Shr(e, 6);
  }

  /** Rows H to H + 3, columns W to W + 3 hold block number block of the row of tiles. */
  ghost predicate Untiled(row: seq<Word16>, block: nat, a: array2<Word16>, H: nat, W: nat)
    requires 10 * block + 10 <= |row| && H + 4 <= a.Length0 && W + 4 <= a.Length1
    reads a
  {
    forall r, c :: H <= r < H + 4 && W <= c < W + 4 ==> a[r, c] == Sample(row, 16 * block + (4 * (r - H) + (c - W)))
  }

  lemma HalvesUntile(row: seq<Word16>, block: nat, a: array2<Word16>, H: nat, W: nat)
    requires 10 * block + 10 <= |row| && H + 4 <= a.Length0 && W + 4 <= a.Length1
    requires var b := 10 * block;
             && HalfWritten(HalfBlock(row[b], row[b + 1], row[b + 2], row[b + 3], row[b + 4]), a, H, W)
             && HalfWritten(HalfBlock(row[b + 5], row[b + 6], row[b + 7], row[b + 8], row[b + 9]), a, H + 2, W)
    ensures Untiled(row, block, a, H, W)
  {
    hide Field, HalfBlock, Pow2, Sample;
    var b := 10 * block;
    var t := row[b..b + 10];
    HalfBlockSamples(t, 0);
    HalfBlockSamples(t, 1);
    forall r, c | H <= r < H + 4 && W <= c < W + 4
      ensures a[r, c] == Sample(row, 16 * block + (4 * (r - H) + (c - W)))
    {
      var k := 4 * (r - H) + (c - W);
      SampleOfBlock(row, block, k);
      if r < H + 2 {
        assert a[r, c] == Sample(t, k);
      } else {
        assert 4 * (r - (H + 2)) + (c - W) == k - 8;
        assert a[r, c] == Sample(t, 8 + (k - 8));
      }
    }
  }

  /** The unrolled unpacking of a four by four block, ten words from 10 * block on. */
  method Untile4x4Block10b(pTiled: array2<Word16>, y: nat, block: nat, pUntiled: array2<Word16>, H: nat, W: nat)
    requires pTiled != pUntiled && y < pTiled.Length0 && 10 * block + 10 <= pTiled.Length1
    requires H + 4 <= pUntiled.Length0 && W + 4 <= pUntiled.Length1
    modifies pUntiled
    ensures Untiled(RowOf(pTiled, y), block, pUntiled, H, W)
    ensures forall r, c :: 0 <= r < pUntiled.Length0 && 0 <= c < pUntiled.Length1 ==>
                             pUntiled[r, c] == old(pUntiled[r, c]) || (H <= r < H + 4 && W <= c < W + 4)
  {
    hide HalfBlock, Field, Pow2, Sample, Untiled;
    WriteHalf(pTiled, y, 10 * block, pUntiled, H, W);
    WriteHalf(pTiled, y, 10 * block + 5, pUntiled, H + 2, W);
    HalvesUntile(RowOf(pTiled, y), block, pUntiled, H, W);
  }

  /** Columns up to to of the four rows from 4 * y on hold their samples. */
  ghost predicate StripeDone(row: seq<Word16>, a: array2<Word16>, y: nat, to: nat)
    requires 4 * y + 4 <= a.Length0 && to <= a.Length1 && 10 * ((to + 3) / 4) <= |row|
    reads a
  {
    forall r, c :: 4 * y <= r < 4 * y + 4 && 0 <= c < to ==> a[r, c] == TileSample(row, c, r)
  }

  lemma BlockNumber(block: nat, y: nat, r: nat, c: nat)
    requires 4 * y <= r < 4 * y + 4 && 4 * block <= c < 4 * block + 4
    ensures TileIndex(c, r) == 16 * block + (4 * (r - 4 * y) + (c - 4 * block))
  {
  }

  lemma StripeGrows(row: seq<Word16>, a: array2<Word16>, y: nat, block: nat)
    requires 4 * y + 4 <= a.Length0 && 4 * block + 4 <= a.Length1 && 10 * block + 10 <= |row|
    requires StripeDone(row, a, y, 4 * block) && Untiled(row, block, a, 4 * y, 4 * block)
    ensures StripeDone(row, a, y, 4 * block + 4)
  {
    hide Sample;
    forall r, c | 4 * y <= r < 4 * y + 4 && 0 <= c < 4 * block + 4
      ensures a[r, c] == TileSample(row, c, r)
    {
      if c >= 4 * block {
        BlockNumber(block, y, r, c);
      }
    }
  }

  /** Unpacks the next block of a row of tiles. */
  method UntileNext(pSrc: array2<Word16>, y: nat, block: nat, pDst: array2<Word16>)
    requires pSrc != pDst && y < pSrc.Length0 && 10 * block + 10 <= pSrc.Length1
    requires 4 * y + 4 <= pDst.Length0 && 4 * block + 4 <= pDst.Length1
    requires StripeDone(RowOf(pSrc, y), pDst, y, 4 * block)
    modifies pDst
    ensures StripeDone(RowOf(pSrc, y), pDst, y, 4 * block + 4) && OtherStripesKept(pDst, y)
  {
    hide TileSample, Sample, Untiled;
    ghost var row := RowOf(pSrc, y);
    Untile4x4Block10b(pSrc, y, block, pDst, 4 * y, 4 * block);
    assert RowOf(pSrc, y) == row;
    assert StripeDone(row, pDst, y, 4 * block);
    StripeGrows(row, pDst, y, block);
  }

  /** Everything but the four rows from 4 * y on is left alone. */
  twostate predicate OtherStripesKept(a: array2<Word16>, y: nat)
    reads a
  {
    forall r, i :: 0 <= r < a.Length0 && 0 <= i < a.Length1 ==> a[r, i] == old(a[r, i]) || 4 * y <= r < 4 * y + 4
  }

  /** One row of tiles of T60A_To_Y010: tiles 64 samples wide, the last one cut. */
  method UntileStripe(pSrc: array2<Word16>, y: nat, pDst: array2<Word16>, iWidth: nat)
    requires pSrc != pDst && iWidth % 4 == 0 && y < pSrc.Length0 && 10 * (iWidth / 4) <= pSrc.Length1
    requires 4 * y + 4 <= pDst.Length0 && iWidth <= pDst.Length1
    modifies pDst
    ensures StripeDone(RowOf(pSrc, y), pDst, y, iWidth) && OtherStripesKept(pDst, y)
  {
    var iTileW := 64;
    var pIn, W: nat := 0, 0;
    ghost var blocks, tile := iWidth / 4, 0;
    NoStripe(RowOf(pSrc, y), pDst, y);
    while W < iWidth
      invariant W == 64 * tile && pIn == 160 * tile
      invariant StripeDone(RowOf(pSrc, y), pDst, y, if W < iWidth then W else iWidth) && OtherStripesKept(pDst, y)
    {
      hide StripeDone, RowOf;
      var iCropW := if W + iTileW - iWidth < 0 then 0 else W + iTileW - iWidth;
      var w := 0;
      ghost var block := 0;
      while w < iTileW - iCropW
        invariant w == 4 * block && w <= iTileW - iCropW && pIn == 160 * tile + 10 * block
        invariant StripeDone(RowOf(pSrc, y), pDst, y, 4 * (16 * tile + block)) && OtherStripesKept(pDst, y)
      {
        assert 16 * tile + block < blocks && pIn / 10 == 16 * tile + block;
        UntileNext(pSrc, y, pIn / 10, pDst);
        pIn := pIn + 10;
        w := w + 4;
        block := block + 1;
      }
      pIn := pIn + 5 * iCropW / 2;
      W := W + iTileW;
      tile := tile + 1;
    }
  }

  lemma NoStripe(row: seq<Word16>, a: array2<Word16>, y: nat)
    requires 4 * y + 4 <= a.Length0
    ensures StripeDone(row, a, y, 0)
  {
  }

  /** T60A_To_Y010, and the chroma part of T60A_To_P010: heights and widths that cut no block. */
  method UntileOneComponent(pSrc: array2<Word16>, pDst: array2<Word16>, iWidth: nat, iHeight: nat)
    requires pSrc != pDst && iWidth % 4 == 0 && iHeight % 4 == 0
    requires iHeight / 4 <= pSrc.Length0 && 10 * (iWidth / 4) <= pSrc.Length1
    requires iHeight <= pDst.Length0 && iWidth <= pDst.Length1
    modifies pDst
    ensures forall y :: 0 <= y < iHeight / 4 ==> StripeDone(RowOf(pSrc, y), pDst, y, iWidth)
  {
    var H, y := 0, 0;
    while H < iHeight
      invariant H == 4 * y && y <= iHeight / 4
      invariant forall i :: 0 <= i < y ==> StripeDone(RowOf(pSrc, i), pDst, i, iWidth)
    {
      hide RowOf, TileSample;
      UntileStripe(pSrc, y, pDst, iWidth);
      H := H + 4;
      y := y + 1;
    }
  }

  // ---------------------------------------------------------------------------------------------
  // Packing a raster plane
  // ---------------------------------------------------------------------------------------------

  /** Row h of a raster plane, packed three to a word. */
  method RasterRowToXv(pSrc: array2<Word16>, pDst: array2<Word32>, iWidth: nat, h: nat)
    requires h < pSrc.Length0 && iWidth <= pSrc.Length1 && h < pDst.Length0 && (iWidth + 2) / 3 <= pDst.Length1
    modifies pDst
    ensures PackedTo(pDst, h, (iWidth + 2) / 3, Masked(RowOf(pSrc, h)[..iWidth])) && OtherRowsKept(pDst, h)
  {
    ghost var row := RowOf(pSrc, h);
    ghost var s := Masked(row[..iWidth]);
    assert forall k :: 0 <= k < iWidth ==> s[k] == pSrc[h, k] % 0x400;
    hide PackWord, PackedTo, RowOf, Masked;
    var d, src := 0, 0;
    var w := iWidth / 3;
    NothingPacked(pDst, h, s);
    while w > 0
      invariant 0 <= w && src == 3 * d && d + w == iWidth / 3 && PackedTo(pDst, h, d, s) && OtherRowsKept(pDst, h)
    {
      w := w - 1;
      WordOf(s, d);
      PutWord(pDst, h, d, pSrc[h, src] % 0x400 + 0x400 * (pSrc[h, src + 1] % 0x400) + 0x10_0000 * (pSrc[h, src + 2] % 0x400), s);
      src := src + 3;
      d := d + 1;
    }
    if iWidth % 3 > 1 {
      WordOf(s, d);
      PutWord(pDst, h, d, pSrc[h, src] % 0x400 + 0x400 * (pSrc[h, src + 1] % 0x400), s);
    } else if iWidth % 3 > 0 {
      WordOf(s, d);
      PutWord(pDst, h, d, pSrc[h, src] % 0x400, s);
    }
  }

  method SemiPlanarToXvOneComponent(pSrc: array2<Word16>, pDst: array2<Word32>, iWidth: nat, iDstHeight: nat)
    requires iDstHeight <= pSrc.Length0 && iWidth <= pSrc.Length1
    requires iDstHeight <= pDst.Length0 && (iWidth + 2) / 3 <= pDst.Length1
    modifies pDst
    ensures forall h :: 0 <= h < iDstHeight ==>
                          PackedTo(pDst, h, (iWidth + 2) / 3, Masked(RowOf(pSrc, h)[..iWidth]))
  {
    hide Masked, PackWord;
    for h := 0 to iDstHeight
      invariant forall r :: 0 <= r < h ==> PackedTo(pDst, r, (iWidth + 2) / 3, Masked(RowOf(pSrc, r)[..iWidth]))
    {
      RasterRowToXv(pSrc, pDst, iWidth, h);
    }
  }

  // ---------------------------------------------------------------------------------------------
  // The two ways agree
  // ---------------------------------------------------------------------------------------------

  lemma {:induction false} FieldBound(t: seq<Word16>, b: nat, n: nat)
    requires b + n <= 16 * |t|
    ensures Field(t, b, n) < Pow2(n)
    decreases n
  {
    if n > 0 {
      FieldBound(t, b + 1, n - 1);
    }
  }

  lemma TileSampleBound(row: seq<Word16>, c: nat, h: nat)
    requires 10 * (c / 4 + 1) <= |row|
    ensures TileSample(row, c, h) % 0x400 == TileSample(row, c, h) == TileSample(row, c, h % 4)
  {
    SameTileRow(c, h);
    hide Field, TileIndex;
    SampleBound(row, TileIndex(c, h));
  }

  lemma SameTileRow(c: nat, h: nat)
    ensures TileIndex(c, h) == TileIndex(c, h % 4) && TileIndex(c, h) < 16 * (c / 4 + 1)
  {
  }

  lemma SampleBound(row: seq<Word16>, k: nat)
    requires 10 * k + 10 <= 16 * |row|
    ensures Sample(row, k) < 0x400
  {
    Pow2Of16();
    FieldBound(row, 10 * k, 10);
    hide Field, Pow2;
  }

  lemma UntiledRow(row: seq<Word16>, mid: array2<Word16>, y: nat, h: nat, width: nat)
    requires 4 * y + 4 <= mid.Length0 && width <= mid.Length1 && 10 * ((width + 3) / 4) <= |row|
    requires StripeDone(row, mid, y, width) && 4 * y <= h < 4 * y + 4
    ensures Masked(RowOf(mid, h)[..width]) == TileSamples(row, width, h % 4)
  {
    hide TileSample;
    forall c | 0 <= c < width
      ensures Masked(RowOf(mid, h)[..width])[c] == TileSamples(row, width, h % 4)[c]
    {
      assert mid[h, c] == TileSample(row, c, h);
      TileSampleBound(row, c, h);
    }
  }

  /** Packing straight from the tiles gives the words that untiling first and packing then gives, for
      every visible sample. */
  lemma UntilingCommutes(src: array2<Word16>, mid: array2<Word16>, direct: array2<Word32>, packed: array2<Word32>,
                         width: nat, height: nat)
    requires width % 4 == 0 && height % 4 == 0
    requires height / 4 <= src.Length0 && 10 * (width / 4) <= src.Length1 && height <= mid.Length0 && width <= mid.Length1
    requires height <= direct.Length0 && height <= packed.Length0
    requires (width + 2) / 3 <= direct.Length1 && (width + 2) / 3 <= packed.Length1
    requires forall y :: 0 <= y < height / 4 ==> StripeDone(RowOf(src, y), mid, y, width)
    requires forall h :: 0 <= h < height ==>
                           PackedTo(direct, h, (width + 2) / 3, TileSamples(RowOf(src, h / 4), width, h % 4))
    requires forall h :: 0 <= h < height ==> PackedTo(packed, h, (width + 2) / 3, Masked(RowOf(mid, h)[..width]))
    ensures forall h, i :: 0 <= h < height && 0 <= i < (width + 2) / 3 ==> direct[h, i] == packed[h, i]
  {
    hide TileSamples, Masked, PackWord, RowOf, StripeDone;
    forall h, i | 0 <= h < height && 0 <= i < (width + 2) / 3
      ensures direct[h, i] == packed[h, i]
    {
      var y := h / 4;
      assert StripeDone(RowOf(src, y), mid, y, width);
      UntiledRow(RowOf(src, y), mid, y, h, width);
      assert PackedTo(direct, h, (width + 2) / 3, TileSamples(RowOf(src, y), width, h % 4));
      assert PackedTo(packed, h, (width + 2) / 3, Masked(RowOf(mid, h)[..width]));
    }
  }

  /** T60A to XV15, and T60A to P010 to XV15, on the planes of a picture: the same words of luma and of
      chroma, which has half the rows, U and V in turn. */
  method UntileBothWays(pTiledY: array2<Word16>, pTiledC: array2<Word16>, iWidth: nat, iHeight: nat,
                        pRasterY: array2<Word16>, pRasterC: array2<Word16>, pDirectY: array2<Word32>, pDirectC: array2<Word32>,
                        pPackedY: array2<Word32>, pPackedC: array2<Word32>)
    requires iWidth % 4 == 0 && iHeight % 8 == 0
    requires {pTiledY, pTiledC} !! {pRasterY, pRasterC} && {pDirectY, pDirectC} !! {pPackedY, pPackedC}
    requires pRasterY != pRasterC && pDirectY != pDirectC && pPackedY != pPackedC
    requires WayFits(pTiledY, pRasterY, pDirectY, pPackedY, iWidth, iHeight)
    requires WayFits(pTiledC, pRasterC, pDirectC, pPackedC, iWidth, iHeight / 2)
    modifies pRasterY, pRasterC, pDirectY, pDirectC, pPackedY, pPackedC
    ensures forall h, i :: 0 <= h < iHeight && 0 <= i < (iWidth + 2) / 3 ==> pDirectY[h, i] == pPackedY[h, i]
    ensures forall h, i :: 0 <= h < iHeight / 2 && 0 <= i < (iWidth + 2) / 3 ==> pDirectC[h, i] == pPackedC[h, i]
  {
    OneBothWays(pTiledY, pRasterY, pDirectY, pPackedY, iWidth, iHeight);
    OneBothWays(pTiledC, pRasterC, pDirectC, pPackedC, iWidth, iHeight / 2);
  }

  /** The planes of one component are large enough. */
  ghost predicate WayFits(tiled: array2<Word16>, raster: array2<Word16>, direct: array2<Word32>, packed: array2<Word32>,
                          width: nat, height: nat) {
    && height / 4 <= tiled.Length0 && 10 * (width / 4) <= tiled.Length1 && height <= raster.Length0 && width <= raster.Length1
    && height <= direct.Length0 && (width + 2) / 3 <= direct.Length1
    && height <= packed.Length0 && (width + 2) / 3 <= packed.Length1
  }

  method OneBothWays(pTiled: array2<Word16>, pRaster: array2<Word16>, pDirect: array2<Word32>, pPacked: array2<Word32>,
                     iWidth: nat, iHeight: nat)
    requires iWidth % 4 == 0 && iHeight % 4 == 0 && pTiled != pRaster && pDirect != pPacked
    requires WayFits(pTiled, pRaster, pDirect, pPacked, iWidth, iHeight)
    modifies pRaster, pDirect, pPacked
    ensures forall h, i :: 0 <= h < iHeight && 0 <= i < (iWidth + 2) / 3 ==> pDirect[h, i] == pPacked[h, i]
  {
    hide StripeDone, PackedTo, RowOf, TileSamples, Masked;
    UntileOneComponent(pTiled, pRaster, iWidth, iHeight);
    SemiPlanarToXvOneComponent(pRaster, pPacked, iWidth, iHeight);
    TileToXvOneComponent(pTiled, pDirect, iWidth, iHeight);
    UntilingCommutes(pTiled, pRaster, pDirect, pPacked, iWidth, iHeight);
  }
}
