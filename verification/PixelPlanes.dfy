/** Whole pictures of ten-bit samples, between the planar formats (a plane of luma, and a plane with the
    rows of U above as many rows of V) and the packed ones. */
module PixelPlanes {
  import opened PixelFields
  import opened PixelTiles
  import opened PixelChroma

  // ---------------------------------------------------------------------------------------------
  // Luma
  // ---------------------------------------------------------------------------------------------

  ghost predicate LumaPacked(src: array2<Word16>, height: nat, width: nat, xv: array2<Word32>)
    requires height <= src.Length0 && width <= src.Length1 && height <= xv.Length0 && (width + 2) / 3 <= xv.Length1
    reads src, xv
  {
    forall h :: 0 <= h < height ==> PackedTo(xv, h, (width + 2) / 3, Masked(RowOf(src, h)[..width]))
  }

  /** The first n columns of row h are the samples of the packed row. */
  ghost predicate RowRead(a: array2<Word16>, h: nat, n: nat, src: array2<Word32>)
    requires h < a.Length0 && n <= a.Length1 && h < src.Length0 && (n + 2) / 3 <= src.Length1
    reads a, src
  {
    forall x :: 0 <= x < n ==> a[h, x] == PackedSample(src, h, x)
  }

  twostate predicate OtherSamplesKept(a: array2<Word16>, h: nat)
    reads a
  {
    forall r, i :: 0 <= r < a.Length0 && 0 <= i < a.Length1 ==> a[r, i] == old(a[r, i]) || r == h
  }

  lemma ThreeSamples(a: array2<Word32>, h: nat, d: nat)
    requires h < a.Length0 && d < a.Length1
    ensures PackedSample(a, h, 3 * d) == Unpacked(a[h, d], 0) < 0x400
    ensures PackedSample(a, h, 3 * d + 1) == Unpacked(a[h, d], 1) < 0x400
    ensures PackedSample(a, h, 3 * d + 2) == Unpacked(a[h, d], 2) < 0x400
  {
    UnpackedBound(a[h, d], 0);
    UnpackedBound(a[h, d], 1);
    UnpackedBound(a[h, d], 2);
    hide Unpacked;
  }

  method PutSample(pDst: array2<Word16>, h: nat, x: nat, v: Word16, ghost src: array2<Word32>)
    requires h < pDst.Length0 && x < pDst.Length1 && h < src.Length0 && (x + 3) / 3 <= src.Length1
    requires RowRead(pDst, h, x, src) && v == PackedSample(src, h, x)
    modifies pDst
    ensures RowRead(pDst, h, x + 1, src) && OtherSamplesKept(pDst, h)
  {
    hide PackedSample;
    pDst[h, x] := v;
  }

  method XvRowToY010(pSrc: array2<Word32>, h: nat, iWidth: nat, pDst: array2<Word16>)
    requires h < pDst.Length0 && iWidth <= pDst.Length1 && h < pSrc.Length0 && (iWidth + 2) / 3 <= pSrc.Length1
    modifies pDst
    ensures RowRead(pDst, h, iWidth, pSrc) && OtherSamplesKept(pDst, h)
  {
    var x, d := 0, 0;
    var w := iWidth / 3;
    while w > 0
      invariant 0 <= w && d + w == iWidth / 3 && x == 3 * d
      invariant RowRead(pDst, h, x, pSrc) && OtherSamplesKept(pDst, h)
    {
      hide PackedSample, RowRead, Unpacked;
      w := w - 1;
      ThreeSamples(pSrc, h, d);
      PutSample(pDst, h, x, Unpacked(pSrc[h, d], 0), pSrc);
      PutSample(pDst, h, x + 1, Unpacked(pSrc[h, d], 1), pSrc);
      PutSample(pDst, h, x + 2, Unpacked(pSrc[h, d], 2), pSrc);
      x := x + 3;
      d := d + 1;
    }
    hide PackedSample, RowRead, Unpacked;
    if iWidth % 3 > 0 {
      ThreeSamples(pSrc, h, d);
      PutSample(pDst, h, x, Unpacked(pSrc[h, d], 0), pSrc);
      if iWidth % 3 > 1 {
        PutSample(pDst, h, x + 1, Unpacked(pSrc[h, d], 1), pSrc);
      }
    }
  }

  ghost predicate LumaRead(a: array2<Word16>, height: nat, width: nat, src: array2<Word32>)
    requires height <= a.Length0 && width <= a.Length1 && height <= src.Length0 && (width + 2) / 3 <= src.Length1
    reads a, src
  {
    forall h :: 0 <= h < height ==> RowRead(a, h, width, src)
  }

  method XvToY010(pSrc: array2<Word32>, pDst: array2<Word16>, iWidth: nat, iHeight: nat)
    requires iHeight <= pDst.Length0 && iWidth <= pDst.Length1 && iHeight <= pSrc.Length0 && (iWidth + 2) / 3 <= pSrc.Length1
    modifies pDst
    ensures LumaRead(pDst, iHeight, iWidth, pSrc)
  {
    for h := 0 to iHeight
      invariant LumaRead(pDst, h, iWidth, pSrc)
    {
      label before:
      XvRowToY010(pSrc, h, iWidth, pDst);
      assert forall r :: 0 <= r < h && old@before(RowRead(pDst, r, iWidth, pSrc)) ==> RowRead(pDst, r, iWidth, pSrc);
    }
  }

  lemma LumaBack(src: array2<Word16>, xv: array2<Word32>, back: array2<Word16>, height: nat, width: nat)
    requires height <= src.Length0 && width <= src.Length1 && height <= xv.Length0 && (width + 2) / 3 <= xv.Length1
    requires height <= back.Length0 && width <= back.Length1
    requires LumaPacked(src, height, width, xv) && LumaRead(back, height, width, xv)
    ensures forall h, x :: 0 <= h < height && 0 <= x < width ==> back[h, x] == src[h, x] % 0x400
  {
    forall h, x | 0 <= h < height && 0 <= x < width
      ensures back[h, x] == src[h, x] % 0x400
    {
      hide RowOf, PackedSample;
      assert RowRead(back, h, width, xv);
      var s := Masked(RowOf(src, h)[..width]);
      assert s[x] == src[h, x] % 0x400;
      PackUnpack(xv, h, (width + 2) / 3, s, x);
    }
  }

  // ---------------------------------------------------------------------------------------------
  // Chroma
  // ---------------------------------------------------------------------------------------------

  /** Row h of U and of V, which lies heightC rows below, are packed in row h. */
  ghost predicate PairPacked(src: array2<Word16>, heightC: nat, h: nat, n: nat, xv: array2<Word32>)
    requires heightC + h < src.Length0 && n <= src.Length1 && h < xv.Length0 && (2 * n + 2) / 3 <= xv.Length1
    reads src, xv
  {
    PackedTo(xv, h, (2 * n + 2) / 3, ChromaRow(src, h, heightC + h, n))
  }

  ghost predicate ChromaPacked(src: array2<Word16>, heightC: nat, n: nat, xv: array2<Word32>)
    requires 2 * heightC <= src.Length0 && n <= src.Length1 && heightC <= xv.Length0 && (2 * n + 2) / 3 <= xv.Length1
    reads src, xv
  {
    forall h :: 0 <= h < heightC ==> PairPacked(src, heightC, h, n, xv)
  }

  method IxalChromaToXv(pSrc: array2<Word16>, pDst: array2<Word32>, iWidth: nat, iHeightC: nat)
    requires iWidth % 2 == 0 && 2 * iHeightC <= pSrc.Length0 && iWidth / 2 <= pSrc.Length1
    requires iHeightC <= pDst.Length0 && (iWidth + 2) / 3 <= pDst.Length1
    modifies pDst
    ensures ChromaPacked(pSrc, iHeightC, iWidth / 2, pDst)
  {
    for h := 0 to iHeightC
      invariant forall r :: 0 <= r < h ==> PairPacked(pSrc, iHeightC, r, iWidth / 2, pDst)
    {
      hide PackWord, ChromaRow;
      label before:
      IxalRowToXv(pSrc, h, iHeightC + h, iWidth, pDst);
      assert forall r :: 0 <= r < h && old@before(PairPacked(pSrc, iHeightC, r, iWidth / 2, pDst)) ==>
                           PairPacked(pSrc, iHeightC, r, iWidth / 2, pDst);
    }
  }

  ghost predicate PairRead(a: array2<Word16>, heightC: nat, h: nat, n: nat, src: array2<Word32>)
    requires h < heightC && heightC + h < a.Length0 && n <= a.Length1 && h < src.Length0 && (2 * n + 2) / 3 <= src.Length1
    reads a, src
  {
    Planar(a, h, heightC + h, n, src)
  }

  ghost predicate ChromaRead(a: array2<Word16>, heightC: nat, n: nat, src: array2<Word32>)
    requires 2 * heightC <= a.Length0 && n <= a.Length1 && heightC <= src.Length0 && (2 * n + 2) / 3 <= src.Length1
    reads a, src
  {
    forall h :: 0 <= h < heightC ==> PairRead(a, heightC, h, n, src)
  }

  method XvChromaToIxal(pSrc: array2<Word32>, pDst: array2<Word16>, iWidth: nat, iHeightC: nat)
    requires iWidth % 2 == 0 && 2 * iHeightC <= pDst.Length0 && iWidth / 2 <= pDst.Length1
    requires iHeightC <= pSrc.Length0 && (iWidth + 2) / 3 <= pSrc.Length1
    modifies pDst
    ensures ChromaRead(pDst, iHeightC, iWidth / 2, pSrc)
  {
    for h := 0 to iHeightC
      invariant forall r :: 0 <= r < h ==> PairRead(pDst, iHeightC, r, iWidth / 2, pSrc)
    {
      label before:
      XvRowToIxal(pSrc, h, iHeightC + h, iWidth, pDst);
      assert forall r :: 0 <= r < h && old@before(PairRead(pDst, iHeightC, r, iWidth / 2, pSrc)) ==>
                           PairRead(pDst, iHeightC, r, iWidth / 2, pSrc);
    }
  }

  lemma ChromaBack(src: array2<Word16>, xv: array2<Word32>, back: array2<Word16>, heightC: nat, n: nat)
    requires 2 * heightC <= src.Length0 && n <= src.Length1 && heightC <= xv.Length0 && (2 * n + 2) / 3 <= xv.Length1
    requires 2 * heightC <= back.Length0 && n <= back.Length1
    requires ChromaPacked(src, heightC, n, xv) && ChromaRead(back, heightC, n, xv)
    ensures forall r, x :: 0 <= r < 2 * heightC && 0 <= x < n ==> back[r, x] == src[r, x] % 0x400
  {
    hide PairPacked, PairRead;
    forall r, x | 0 <= r < 2 * heightC && 0 <= x < n
      ensures back[r, x] == src[r, x] % 0x400
    {
      var h := if r < heightC then r else r - heightC;
      assert PairPacked(src, heightC, h, n, xv) && PairRead(back, heightC, h, n, xv);
      PairBack(src, xv, back, heightC, h, n, x);
    }
  }

  lemma PairBack(src: array2<Word16>, xv: array2<Word32>, back: array2<Word16>, heightC: nat, h: nat, n: nat, x: nat)
    requires h < heightC && 2 * heightC <= src.Length0 && n <= src.Length1 && h < xv.Length0 && (2 * n + 2) / 3 <= xv.Length1
    requires 2 * heightC <= back.Length0 && n <= back.Length1 && x < n
    requires PairPacked(src, heightC, h, n, xv) && PairRead(back, heightC, h, n, xv)
    ensures back[h, x] == src[h, x] % 0x400 && back[heightC + h, x] == src[heightC + h, x] % 0x400
  {
    hide PackedSample, PackedTo, ChromaRow;
    ChromaRowAt(src, h, heightC + h, n, x);
    var s := ChromaRow(src, h, heightC + h, n);
    PackUnpack(xv, h, (2 * n + 2) / 3, s, 2 * x);
    PackUnpack(xv, h, (2 * n + 2) / 3, s, 2 * x + 1);
  }

  lemma ChromaRowAt(a: array2<Word16>, h: nat, v: nat, n: nat, x: nat)
    requires h < a.Length0 && v < a.Length0 && x < n <= a.Length1
    ensures ChromaRow(a, h, v, n)[2 * x] == a[h, x] % 0x400 && ChromaRow(a, h, v, n)[2 * x + 1] == a[v, x] % 0x400
    ensures forall k :: 0 <= k < 2 * n ==> ChromaRow(a, h, v, n)[k] < 0x400
  {
    InterleavedAt(Masked(RowOf(a, h)[..n]), Masked(RowOf(a, v)[..n]), x);
  }

  // ---------------------------------------------------------------------------------------------
  // Pictures
  // ---------------------------------------------------------------------------------------------

  /** IXAL_To_XVXX. */
  method IxalToXv(pSrcY: array2<Word16>, pSrcC: array2<Word16>, iWidth: nat, iHeight: nat, uVrtCScale: nat,
                  pDstY: array2<Word32>, pDstC: array2<Word32>)
    requires iWidth % 2 == 0 && uVrtCScale > 0 && pDstY != pDstC
    requires iHeight <= pSrcY.Length0 && iWidth <= pSrcY.Length1
    requires 2 * (iHeight / uVrtCScale) <= pSrcC.Length0 && iWidth / 2 <= pSrcC.Length1
    requires iHeight <= pDstY.Length0 && (iWidth + 2) / 3 <= pDstY.Length1
    requires iHeight / uVrtCScale <= pDstC.Length0 && (iWidth + 2) / 3 <= pDstC.Length1
    modifies pDstY, pDstC
    ensures LumaPacked(pSrcY, iHeight, iWidth, pDstY) && ChromaPacked(pSrcC, iHeight / uVrtCScale, iWidth / 2, pDstC)
  {
    hide PackedTo, PairPacked, RowOf, Masked;
    SemiPlanarToXvOneComponent(pSrcY, pDstY, iWidth, iHeight);
    IxalChromaToXv(pSrcC, pDstC, iWidth, iHeight / uVrtCScale);
  }

  /** XVXX_To_IXAL. */
  method XvToIxal(pSrcY: array2<Word32>, pSrcC: array2<Word32>, iWidth: nat, iHeight: nat, uVrtCScale: nat,
                  pDstY: array2<Word16>, pDstC: array2<Word16>)
    requires iWidth % 2 == 0 && uVrtCScale > 0 && pDstY != pDstC
    requires iHeight <= pDstY.Length0 && iWidth <= pDstY.Length1
    requires 2 * (iHeight / uVrtCScale) <= pDstC.Length0 && iWidth / 2 <= pDstC.Length1
    requires iHeight <= pSrcY.Length0 && (iWidth + 2) / 3 <= pSrcY.Length1
    requires iHeight / uVrtCScale <= pSrcC.Length0 && (iWidth + 2) / 3 <= pSrcC.Length1
    modifies pDstY, pDstC
    ensures LumaRead(pDstY, iHeight, iWidth, pSrcY) && ChromaRead(pDstC, iHeight / uVrtCScale, iWidth / 2, pSrcC)
  {
    hide RowRead, PairRead;
    XvToY010(pSrcY, pDstY, iWidth, iHeight);
    XvChromaToIxal(pSrcC, pDstC, iWidth, iHeight / uVrtCScale);
  }

  /** A picture packed and unpacked again: ten bits of every visible sample come back, whatever the
      pitches, U and V each in their rows. */
  method PackAndUnpack(pSrcY: array2<Word16>, pSrcC: array2<Word16>, iWidth: nat, iHeight: nat, uVrtCScale: nat,
                       pXvY: array2<Word32>, pXvC: array2<Word32>, pDstY: array2<Word16>, pDstC: array2<Word16>)
    requires iWidth % 2 == 0 && uVrtCScale > 0 && pXvY != pXvC && pDstY != pDstC && {pSrcY, pSrcC} !! {pDstY, pDstC}
    requires iHeight <= pSrcY.Length0 && iWidth <= pSrcY.Length1
    requires 2 * (iHeight / uVrtCScale) <= pSrcC.Length0 && iWidth / 2 <= pSrcC.Length1
    requires iHeight <= pXvY.Length0 && (iWidth + 2) / 3 <= pXvY.Length1
    requires iHeight / uVrtCScale <= pXvC.Length0 && (iWidth + 2) / 3 <= pXvC.Length1
    requires iHeight <= pDstY.Length0 && iWidth <= pDstY.Length1
    requires 2 * (iHeight / uVrtCScale) <= pDstC.Length0 && iWidth / 2 <= pDstC.Length1
    modifies pXvY, pXvC, pDstY, pDstC
    ensures forall h, x :: 0 <= h < iHeight && 0 <= x < iWidth ==> pDstY[h, x] == pSrcY[h, x] % 0x400
    ensures forall r, x :: 0 <= r < 2 * (iHeight / uVrtCScale) && 0 <= x < iWidth / 2 ==> pDstC[r, x] == pSrcC[r, x] % 0x400
  {
    hide LumaPacked, ChromaPacked, LumaRead, ChromaRead;
    IxalToXv(pSrcY, pSrcC, iWidth, iHeight, uVrtCScale, pXvY, pXvC);
    XvToIxal(pXvY, pXvC, iWidth, iHeight, uVrtCScale, pDstY, pDstC);
    LumaBack(pSrcY, pXvY, pDstY, iHeight, iWidth);
    ChromaBack(pSrcC, pXvC, pDstC, iHeight / uVrtCScale, iWidth / 2);
  }
}
