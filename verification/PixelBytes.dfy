/** Whole pictures of eight-bit samples: planar (I420, YV12, I422), with U and V in turn (NV12, NV16), and
    packed (XV15, XV20), where a sample takes the upper eight of ten bits. */
module PixelBytes {
  import opened Bits
  import opened PixelFields
  import opened PixelTiles
  import opened PixelChroma

  /** Eight-bit samples as ten-bit ones. */
  function Tens(s: seq<Byte>): (r: seq<nat>)
    ensures |r| == |s|
  {
    seq(|s|, k requires 0 <= k < |s| => var b: nat := s[k]; 4 * b)
  }

  function TenRow(a: array2<Byte>, h: nat, n: nat): (s: seq<nat>)
    requires h < a.Length0 && n <= a.Length1
    reads a
    ensures |s| == n && forall x :: 0 <= x < n ==> s[x] == 4 * a[h, x]
  {
    Tens(RowOf(a, h)[..n])
  }

  // ---------------------------------------------------------------------------------------------
  // Packing a raster plane: luma, or chroma with U and V in turn
  // ---------------------------------------------------------------------------------------------

  function ToTen(sample: Byte): nat {
    4 * sample % 0x400
  }

  /** One row of Y800_To_XV10, and of the chroma loop of NV1X_To_XVXX, which shifts by 2, 12 and 22. */
  method ByteRowToXv(pSrc: array2<Byte>, h: nat, iWidth: nat, pDst: array2<Word32>)
    requires h < pSrc.Length0 && iWidth <= pSrc.Length1 && h < pDst.Length0 && (iWidth + 2) / 3 <= pDst.Length1
    modifies pDst
    ensures PackedTo(pDst, h, (iWidth + 2) / 3, TenRow(pSrc, h, iWidth)) && OtherRowsKept(pDst, h)
  {
    hide PackWord, PackedTo, TenRow;
    ghost var s := TenRow(pSrc, h, iWidth);
    var d, x := 0, 0;
    var w := iWidth / 3;
    NothingPacked(pDst, h, s);
    while w > 0
      invariant 0 <= w && x == 3 * d && d + w == iWidth / 3 && PackedTo(pDst, h, d, s) && OtherRowsKept(pDst, h)
    {
      w := w - 1;
      WordOf(s, d);
      PutWord(pDst, h, d, ToTen(pSrc[h, x]) + 0x400 * ToTen(pSrc[h, x + 1]) + 0x10_0000 * ToTen(pSrc[h, x + 2]), s);
      x := x + 3;
      d := d + 1;
    }
    if iWidth % 3 > 1 {
      WordOf(s, d);
      PutWord(pDst, h, d, ToTen(pSrc[h, x]) + 0x400 * ToTen(pSrc[h, x + 1]), s);
    } else if iWidth % 3 > 0 {
      WordOf(s, d);
      PutWord(pDst, h, d, ToTen(pSrc[h, x]), s);
    }
  }

  ghost predicate RowPacked(src: array2<Byte>, h: nat, n: nat, xv: array2<Word32>)
    requires h < src.Length0 && n <= src.Length1 && h < xv.Length0 && (n + 2) / 3 <= xv.Length1
    reads src, xv
  {
    PackedTo(xv, h, (n + 2) / 3, TenRow(src, h, n))
  }

  ghost predicate RowsPacked(src: array2<Byte>, height: nat, n: nat, xv: array2<Word32>)
    requires height <= src.Length0 && n <= src.Length1 && height <= xv.Length0 && (n + 2) / 3 <= xv.Length1
    reads src, xv
  {
    forall h :: 0 <= h < height ==> RowPacked(src, h, n, xv)
  }

  method BytesToXv(pSrc: array2<Byte>, pDst: array2<Word32>, iWidth: nat, iHeight: nat)
    requires iHeight <= pSrc.Length0 && iWidth <= pSrc.Length1 && iHeight <= pDst.Length0 && (iWidth + 2) / 3 <= pDst.Length1
    modifies pDst
    ensures RowsPacked(pSrc, iHeight, iWidth, pDst)
  {
    for h := 0 to iHeight
      invariant RowsPacked(pSrc, h, iWidth, pDst)
    {
      hide TenRow, PackWord;
      label before:
      ByteRowToXv(pSrc, h, iWidth, pDst);
      assert forall r :: 0 <= r < h && old@before(RowPacked(pSrc, r, iWidth, pDst)) ==> RowPacked(pSrc, r, iWidth, pDst);
    }
  }

  // ---------------------------------------------------------------------------------------------
  // Packing planar chroma
  // ---------------------------------------------------------------------------------------------

  lemma RowWords(a: array2<Byte>, h: nat, v: nat, n: nat, i: nat)
    requires h < a.Length0 && v < a.Length0 && n <= a.Length1
    ensures var s, x, d := Interleaved(TenRow(a, h, n), TenRow(a, v, n)), 3 * i, 2 * i;
            && (x < n ==> PackWord(s, d) == 4 * a[h, x] + 0x1000 * a[v, x] + if x + 1 < n then 0x40_0000 * a[h, x + 1] else 0)
            && (x + 1 < n ==> PackWord(s, d + 1) == 4 * a[v, x + 1]
                                                    + if x + 2 < n then 0x1000 * a[h, x + 2] + 0x40_0000 * a[v, x + 2] else 0)
  {
    hide PackWord, Interleaved, TenRow;
    SixWords(TenRow(a, h, n), TenRow(a, v, n), i);
  }

  /** One chroma row of I42X_To_XVXX; rows h and v of the plane are U and V. */
  method I42xRowToXv(pSrc: array2<Byte>, h: nat, v: nat, iWidth: nat, pDst: array2<Word32>, r: nat)
    requires h < pSrc.Length0 && v < pSrc.Length0 && iWidth % 2 == 0 && iWidth / 2 <= pSrc.Length1
    requires r < pDst.Length0 && (iWidth + 2) / 3 <= pDst.Length1
    modifies pDst
    ensures PackedTo(pDst, r, (iWidth + 2) / 3, Interleaved(TenRow(pSrc, h, iWidth / 2), TenRow(pSrc, v, iWidth / 2)))
    ensures OtherRowsKept(pDst, r)
  {
    hide PackWord, PackedTo, TenRow, Interleaved;
    ghost var n := iWidth / 2;
    ghost var s := Interleaved(TenRow(pSrc, h, n), TenRow(pSrc, v, n));
    var x, d := 0, 0;
    var w: int := iWidth / 6;
    ghost var i := 0;
    NothingPacked(pDst, r, s);
    while w > 0
      invariant 0 <= w && i + w == iWidth / 6 && x == 3 * i && d == 2 * i
      invariant PackedTo(pDst, r, d, s) && OtherRowsKept(pDst, r)
    {
      w := w - 1;
      RowWords(pSrc, h, v, n, i);
      PutWord(pDst, r, d, 4 * pSrc[h, x] + 0x1000 * pSrc[v, x] + 0x40_0000 * pSrc[h, x + 1], s);
      PutWord(pDst, r, d + 1, 4 * pSrc[v, x + 1] + 0x1000 * pSrc[h, x + 2] + 0x40_0000 * pSrc[v, x + 2], s);
      d := d + 2;
      x := x + 3;
      i := i + 1;
    }
    RowWords(pSrc, h, v, n, i);
    if iWidth % 6 > 2 {
      PutWord(pDst, r, d, 4 * pSrc[h, x] + 0x1000 * pSrc[v, x] + 0x40_0000 * pSrc[h, x + 1], s);
      PutWord(pDst, r, d + 1, 4 * pSrc[v, x + 1], s);
    } else if iWidth % 6 > 0 {
      PutWord(pDst, r, d, 4 * pSrc[h, x] + 0x1000 * pSrc[v, x], s);
    }
  }

  /** Where row h of U is in a plane of two components, and row h of V. */
  function RowU(uFirst: bool, heightC: nat, h: nat): nat {
    if uFirst then h else heightC + h
  }

  function RowV(uFirst: bool, heightC: nat, h: nat): nat {
    RowU(!uFirst, heightC, h)
  }

  ghost predicate PairPacked(src: array2<Byte>, uFirst: bool, heightC: nat, h: nat, n: nat, xv: array2<Word32>)
    requires h < heightC && 2 * heightC <= src.Length0 && n <= src.Length1 && h < xv.Length0 && (2 * n + 2) / 3 <= xv.Length1
    reads src, xv
  {
    PackedTo(xv, h, (2 * n + 2) / 3,
             Interleaved(TenRow(src, RowU(uFirst, heightC, h), n), TenRow(src, RowV(uFirst, heightC, h), n)))
  }

  ghost predicate ChromaPacked(src: array2<Byte>, uFirst: bool, heightC: nat, n: nat, xv: array2<Word32>)
    requires 2 * heightC <= src.Length0 && n <= src.Length1 && heightC <= xv.Length0 && (2 * n + 2) / 3 <= xv.Length1
    reads src, xv
  {
    forall h :: 0 <= h < heightC ==> PairPacked(src, uFirst, heightC, h, n, xv)
  }

  method I42xChromaToXv(pSrc: array2<Byte>, pDst: array2<Word32>, iWidth: nat, iHeightC: nat, bIsUFirst: bool)
    requires iWidth % 2 == 0 && 2 * iHeightC <= pSrc.Length0 && iWidth / 2 <= pSrc.Length1
    requires iHeightC <= pDst.Length0 && (iWidth + 2) / 3 <= pDst.Length1
    modifies pDst
    ensures ChromaPacked(pSrc, bIsUFirst, iHeightC, iWidth / 2, pDst)
  {
    for h := 0 to iHeightC
      invariant forall r :: 0 <= r < h ==> PairPacked(pSrc, bIsUFirst, iHeightC, r, iWidth / 2, pDst)
    {
      hide PackWord, TenRow, Interleaved;
      label before:
      I42xRowToXv(pSrc, RowU(bIsUFirst, iHeightC, h), RowV(bIsUFirst, iHeightC, h), iWidth, pDst, h);
      assert forall r :: 0 <= r < h && old@before(PairPacked(pSrc, bIsUFirst, iHeightC, r, iWidth / 2, pDst)) ==>
                           PairPacked(pSrc, bIsUFirst, iHeightC, r, iWidth / 2, pDst);
    }
  }

  // ---------------------------------------------------------------------------------------------
  // Interleaving
  // ---------------------------------------------------------------------------------------------

  ghost predicate RowAlternates(src: array2<Byte>, u: nat, v: nat, n: nat, dst: array2<Byte>, h: nat)
    requires u < src.Length0 && v < src.Length0 && n <= src.Length1 && h < dst.Length0 && 2 * n <= dst.Length1
    reads src, dst
  {
    forall x :: 0 <= x < n ==> dst[h, 2 * x] == src[u, x] && dst[h, 2 * x + 1] == src[v, x]
  }

  twostate predicate OtherBytesKept(a: array2<Byte>, h: nat)
    reads a
  {
    forall r, i :: 0 <= r < a.Length0 && 0 <= i < a.Length1 ==> a[r, i] == old(a[r, i]) || r == h
  }

  method InterleaveRow(pSrc: array2<Byte>, u: nat, v: nat, iWidthC: nat, pDst: array2<Byte>, h: nat)
    requires pSrc != pDst && u < pSrc.Length0 && v < pSrc.Length0 && iWidthC <= pSrc.Length1
    requires h < pDst.Length0 && 2 * iWidthC <= pDst.Length1
    modifies pDst
    ensures RowAlternates(pSrc, u, v, iWidthC, pDst, h) && OtherBytesKept(pDst, h)
  {
    for iW := 0 to iWidthC
      invariant RowAlternates(pSrc, u, v, iW, pDst, h) && OtherBytesKept(pDst, h)
    {
      pDst[h, iW * 2] := pSrc[u, iW];
      pDst[h, iW * 2 + 1] := pSrc[v, iW];
    }
  }

  ghost predicate PairAlternates(src: array2<Byte>, uFirst: bool, heightC: nat, h: nat, n: nat, dst: array2<Byte>)
    requires h < heightC && 2 * heightC <= src.Length0 && n <= src.Length1 && h < dst.Length0 && 2 * n <= dst.Length1
    reads src, dst
  {
    RowAlternates(src, RowU(uFirst, heightC, h), RowV(uFirst, heightC, h), n, dst, h)
  }

  ghost predicate Alternates(src: array2<Byte>, uFirst: bool, heightC: nat, n: nat, dst: array2<Byte>)
    requires 2 * heightC <= src.Length0 && n <= src.Length1 && heightC <= dst.Length0 && 2 * n <= dst.Length1
    reads src, dst
  {
    forall h :: 0 <= h < heightC ==> PairAlternates(src, uFirst, heightC, h, n, dst)
  }

  method Interleave(pSrc: array2<Byte>, pDst: array2<Byte>, iWidthC: nat, iHeightC: nat, bIsUFirst: bool)
    requires pSrc != pDst && 2 * iHeightC <= pSrc.Length0 && iWidthC <= pSrc.Length1
    requires iHeightC <= pDst.Length0 && 2 * iWidthC <= pDst.Length1
    modifies pDst
    ensures Alternates(pSrc, bIsUFirst, iHeightC, iWidthC, pDst)
  {
    for iH := 0 to iHeightC
      invariant forall r :: 0 <= r < iH ==> PairAlternates(pSrc, bIsUFirst, iHeightC, r, iWidthC, pDst)
    {
      label before:
      InterleaveRow(pSrc, RowU(bIsUFirst, iHeightC, iH), RowV(bIsUFirst, iHeightC, iH), iWidthC, pDst, iH);
      assert forall r :: 0 <= r < iH && old@before(PairAlternates(pSrc, bIsUFirst, iHeightC, r, iWidthC, pDst)) ==>
                           PairAlternates(pSrc, bIsUFirst, iHeightC, r, iWidthC, pDst);
    }
  }

  /** The memcpy of each row of luma. */
  method CopyRows(pSrc: array2<Byte>, pDst: array2<Byte>, iWidth: nat, iHeight: nat)
    requires pSrc != pDst && iHeight <= pSrc.Length0 && iWidth <= pSrc.Length1
    requires iHeight <= pDst.Length0 && iWidth <= pDst.Length1
    modifies pDst
    ensures SameSamples(pSrc, pDst, iHeight, iWidth)
  {
    for iH := 0 to iHeight
      invariant SameSamples(pSrc, pDst, iH, iWidth)
    {
      forall x | 0 <= x < iWidth {
        pDst[iH, x] := pSrc[iH, x];
      }
    }
  }

  ghost predicate SameSamples(a: array2<Byte>, b: array2<Byte>, height: nat, width: nat)
    requires height <= a.Length0 && width <= a.Length1 && height <= b.Length0 && width <= b.Length1
    reads a, b
  {
    forall h, x :: 0 <= h < height && 0 <= x < width ==> b[h, x] == a[h, x]
  }

  // ---------------------------------------------------------------------------------------------
  // The two ways of packing agree
  // ---------------------------------------------------------------------------------------------

  ghost predicate SameWords(a: array2<Word32>, b: array2<Word32>, height: nat, n: nat)
    requires height <= a.Length0 && n <= a.Length1 && height <= b.Length0 && n <= b.Length1
    reads a, b
  {
    forall h, i :: 0 <= h < height && 0 <= i < n ==> a[h, i] == b[h, i]
  }

  /** An interleaved row is the row of both components. */
  lemma AlternatingRow(src: array2<Byte>, u: nat, v: nat, n: nat, nv: array2<Byte>, h: nat)
    requires u < src.Length0 && v < src.Length0 && n <= src.Length1 && h < nv.Length0 && 2 * n <= nv.Length1
    requires RowAlternates(src, u, v, n, nv, h)
    ensures TenRow(nv, h, 2 * n) == Interleaved(TenRow(src, u, n), TenRow(src, v, n))
  {
    hide TenRow;
    forall k | 0 <= k < 2 * n
      ensures TenRow(nv, h, 2 * n)[k] == Interleaved(TenRow(src, u, n), TenRow(src, v, n))[k]
    {
      assert nv[h, 2 * (k / 2)] == src[u, k / 2];
    }
  }

  /** Packing planar chroma gives the words that interleaving first gives, tails included: the last words
      of the two loops are cut at six and at three samples. */
  lemma ChromaWaysAgree(src: array2<Byte>, uFirst: bool, heightC: nat, n: nat, nv: array2<Byte>, direct: array2<Word32>,
                        packed: array2<Word32>)
    requires 2 * heightC <= src.Length0 && n <= src.Length1 && heightC <= nv.Length0 && 2 * n <= nv.Length1
    requires heightC <= direct.Length0 && (2 * n + 2) / 3 <= direct.Length1
    requires heightC <= packed.Length0 && (2 * n + 2) / 3 <= packed.Length1
    requires ChromaPacked(src, uFirst, heightC, n, direct)
    requires Alternates(src, uFirst, heightC, n, nv) && RowsPacked(nv, heightC, 2 * n, packed)
    ensures SameWords(direct, packed, heightC, (2 * n + 2) / 3)
  {
    hide TenRow, Interleaved, PackWord, RowAlternates;
    forall h, i | 0 <= h < heightC && 0 <= i < (2 * n + 2) / 3
      ensures direct[h, i] == packed[h, i]
    {
      assert PairPacked(src, uFirst, heightC, h, n, direct);
      assert PairAlternates(src, uFirst, heightC, h, n, nv) && RowPacked(nv, h, 2 * n, packed);
      AlternatingRow(src, RowU(uFirst, heightC, h), RowV(uFirst, heightC, h), n, nv, h);
    }
  }

  lemma LumaWaysAgree(src: array2<Byte>, nv: array2<Byte>, height: nat, width: nat, direct: array2<Word32>, packed: array2<Word32>)
    requires height <= src.Length0 && width <= src.Length1 && height <= nv.Length0 && width <= nv.Length1
    requires height <= direct.Length0 && (width + 2) / 3 <= direct.Length1
    requires height <= packed.Length0 && (width + 2) / 3 <= packed.Length1
    requires SameSamples(src, nv, height, width) && RowsPacked(src, height, width, direct) && RowsPacked(nv, height, width, packed)
    ensures SameWords(direct, packed, height, (width + 2) / 3)
  {
    hide TenRow, PackWord;
    forall h, i | 0 <= h < height && 0 <= i < (width + 2) / 3
      ensures direct[h, i] == packed[h, i]
    {
      assert RowPacked(src, h, width, direct) && RowPacked(nv, h, width, packed);
      assert TenRow(src, h, width) == TenRow(nv, h, width);
    }
  }

  // ---------------------------------------------------------------------------------------------
  // Unpacking
  // ---------------------------------------------------------------------------------------------

  /** The upper eight bits of the three samples of a word. */
  function Upper(w: nat, j: nat): nat {
    if j == 0 then w / 4 % 0x100 else if j == 1 then w / 0x1000 % 0x100 else w / 0x40_0000 % 0x100
  }

  lemma UpperIs(w: nat, j: nat)
    ensures Upper(w, j) == Unpacked(w, j) / 4 < 0x100
  {
    UpperBits(w);
    UpperBits(w / 0x400);
    UpperBits(w / 0x10_0000);
    assert w / 0x400 / 4 == w / 0x1000;
    assert w / 0x10_0000 / 4 == w / 0x40_0000;
  }

  lemma UpperBits(v: nat)
    ensures v / 4 % 0x100 == v % 0x400 / 4
  {
  }

  lemma WordSamples(a: array2<Word32>, h: nat, d: nat)
    requires h < a.Length0 && d < a.Length1
    ensures PackedSample(a, h, 3 * d) / 4 == Upper(a[h, d], 0) < 0x100
    ensures PackedSample(a, h, 3 * d + 1) / 4 == Upper(a[h, d], 1) < 0x100
    ensures PackedSample(a, h, 3 * d + 2) / 4 == Upper(a[h, d], 2) < 0x100
  {
    UpperIs(a[h, d], 0);
    UpperIs(a[h, d], 1);
    UpperIs(a[h, d], 2);
    hide Unpacked, Upper;
  }

  /** The first n columns of row h are the upper bits of the samples of the packed row. */
  ghost predicate RowRead(a: array2<Byte>, h: nat, n: nat, src: array2<Word32>)
    requires h < a.Length0 && n <= a.Length1 && h < src.Length0 && (n + 2) / 3 <= src.Length1
    reads a, src
  {
    forall x :: 0 <= x < n ==> a[h, x] == PackedSample(src, h, x) / 4
  }

  method PutSample(pDst: array2<Byte>, h: nat, x: nat, b: Byte, ghost src: array2<Word32>)
    requires h < pDst.Length0 && x < pDst.Length1 && h < src.Length0 && (x + 3) / 3 <= src.Length1
    requires RowRead(pDst, h, x, src) && b == PackedSample(src, h, x) / 4
    modifies pDst
    ensures RowRead(pDst, h, x + 1, src) && OtherBytesKept(pDst, h)
  {
    hide PackedSample;
    pDst[h, x] := b;
  }

  method XvRowToY800(pSrc: array2<Word32>, h: nat, iWidth: nat, pDst: array2<Byte>)
    requires h < pDst.Length0 && iWidth <= pDst.Length1 && h < pSrc.Length0 && (iWidth + 2) / 3 <= pSrc.Length1
    modifies pDst
    ensures RowRead(pDst, h, iWidth, pSrc) && OtherBytesKept(pDst, h)
  {
    var x, d := 0, 0;
    var w := iWidth / 3;
    while w > 0
      invariant 0 <= w && d + w == iWidth / 3 && x == 3 * d
      invariant RowRead(pDst, h, x, pSrc) && OtherBytesKept(pDst, h)
    {
      hide PackedSample, RowRead, Upper;
      w := w - 1;
      WordSamples(pSrc, h, d);
      PutSample(pDst, h, x, Upper(pSrc[h, d], 0), pSrc);
      PutSample(pDst, h, x + 1, Upper(pSrc[h, d], 1), pSrc);
      PutSample(pDst, h, x + 2, Upper(pSrc[h, d], 2), pSrc);
      x := x + 3;
      d := d + 1;
    }
    hide PackedSample, RowRead, Upper;
    if iWidth % 3 > 0 {
      WordSamples(pSrc, h, d);
      PutSample(pDst, h, x, Upper(pSrc[h, d], 0), pSrc);
      if iWidth % 3 > 1 {
        PutSample(pDst, h, x + 1, Upper(pSrc[h, d], 1), pSrc);
      }
    }
  }

  ghost predicate LumaRead(a: array2<Byte>, height: nat, width: nat, src: array2<Word32>)
    requires height <= a.Length0 && width <= a.Length1 && height <= src.Length0 && (width + 2) / 3 <= src.Length1
    reads a, src
  {
    forall h :: 0 <= h < height ==> RowRead(a, h, width, src)
  }

  method XvToY800(pSrc: array2<Word32>, pDst: array2<Byte>, iWidth: nat, iHeight: nat)
    requires iHeight <= pDst.Length0 && iWidth <= pDst.Length1 && iHeight <= pSrc.Length0 && (iWidth + 2) / 3 <= pSrc.Length1
    modifies pDst
    ensures LumaRead(pDst, iHeight, iWidth, pSrc)
  {
    for h := 0 to iHeight
      invariant LumaRead(pDst, h, iWidth, pSrc)
    {
      label before:
      XvRowToY800(pSrc, h, iWidth, pDst);
      assert forall r :: 0 <= r < h && old@before(RowRead(pDst, r, iWidth, pSrc)) ==> RowRead(pDst, r, iWidth, pSrc);
    }
  }

  /** The first n columns of rows h and v are U and V of packed row h. */
  ghost predicate Planar(a: array2<Byte>, h: nat, v: nat, n: nat, src: array2<Word32>)
    requires h < a.Length0 && v < a.Length0 && n <= a.Length1 && h < src.Length0 && (2 * n + 2) / 3 <= src.Length1
    reads a, src
  {
    forall x :: 0 <= x < n ==> a[h, x] == PackedSample(src, h, 2 * x) / 4 && a[v, x] == PackedSample(src, h, 2 * x + 1) / 4
  }

  twostate predicate OtherTwoKept(a: array2<Byte>, h: nat, v: nat)
    reads a
  {
    forall r, i :: 0 <= r < a.Length0 && 0 <= i < a.Length1 ==> a[r, i] == old(a[r, i]) || r == h || r == v
  }

  method PutPair(pDst: array2<Byte>, h: nat, v: nat, x: nat, u: Byte, w: Byte, ghost src: array2<Word32>)
    requires h != v && h < pDst.Length0 && v < pDst.Length0 && x < pDst.Length1
    requires h < src.Length0 && (2 * x + 4) / 3 <= src.Length1
    requires Planar(pDst, h, v, x, src)
    requires u == PackedSample(src, h, 2 * x) / 4 && w == PackedSample(src, h, 2 * x + 1) / 4
    modifies pDst
    ensures Planar(pDst, h, v, x + 1, src) && OtherTwoKept(pDst, h, v)
  {
    hide PackedSample;
    pDst[h, x] := u;
    pDst[v, x] := w;
  }

  /** The loop body, Read24BitsOn32Bits twice: words 2 * i and 2 * i + 1 fill columns 3 * i to 3 * i + 2. */
  method UnpackSix(pSrc: array2<Word32>, h: nat, v: nat, x: nat, d: nat, ghost i: nat, pDst: array2<Byte>)
    requires x == 3 * i && d == 2 * i && h != v && h < pDst.Length0 && v < pDst.Length0 && x + 3 <= pDst.Length1
    requires h < pSrc.Length0 && 2 * i + 2 <= pSrc.Length1 && Planar(pDst, h, v, 3 * i, pSrc)
    modifies pDst
    ensures Planar(pDst, h, v, 3 * i + 3, pSrc) && OtherTwoKept(pDst, h, v)
  {
    hide PackedSample, Planar, Upper;
    WordSamples(pSrc, h, d);
    WordSamples(pSrc, h, d + 1);
    var a, b := pSrc[h, d], pSrc[h, d + 1];
    PutPair(pDst, h, v, x, Upper(a, 0), Upper(a, 1), pSrc);
    PutPair(pDst, h, v, x + 1, Upper(a, 2), Upper(b, 0), pSrc);
    PutPair(pDst, h, v, x + 2, Upper(b, 1), Upper(b, 2), pSrc);
  }

  /** One chroma row of XVXX_To_I42X. */
  method XvRowToI42x(pSrc: array2<Word32>, h: nat, v: nat, iWidth: nat, pDst: array2<Byte>)
    requires h != v && h < pDst.Length0 && v < pDst.Length0 && iWidth % 2 == 0 && iWidth / 2 <= pDst.Length1
    requires h < pSrc.Length0 && (iWidth + 2) / 3 <= pSrc.Length1
    modifies pDst
    ensures Planar(pDst, h, v, iWidth / 2, pSrc) && OtherTwoKept(pDst, h, v)
  {
    var x, d := 0, 0;
    var w: int := iWidth / 6;
    ghost var i := 0;
    while w > 0
      invariant 0 <= w && i + w == iWidth / 6 && x == 3 * i && d == 2 * i
      invariant Planar(pDst, h, v, x, pSrc) && OtherTwoKept(pDst, h, v)
    {
      hide PackedSample, Planar;
      w := w - 1;
      UnpackSix(pSrc, h, v, x, d, i, pDst);
      d := d + 2;
      x := x + 3;
      i := i + 1;
    }
    hide PackedSample, Planar, Upper;
    if iWidth % 6 > 2 {
      WordSamples(pSrc, h, d);
      WordSamples(pSrc, h, d + 1);
      var a, b := pSrc[h, d], pSrc[h, d + 1];
      PutPair(pDst, h, v, x, Upper(a, 0), Upper(a, 1), pSrc);
      PutPair(pDst, h, v, x + 1, Upper(a, 2), Upper(b, 0), pSrc);
    } else if iWidth % 6 > 0 {
      WordSamples(pSrc, h, d);
      PutPair(pDst, h, v, x, Upper(pSrc[h, d], 0), Upper(pSrc[h, d], 1), pSrc);
    }
  }

  ghost predicate PairRead(a: array2<Byte>, heightC: nat, h: nat, n: nat, src: array2<Word32>)
    requires h < heightC && 2 * heightC <= a.Length0 && n <= a.Length1 && h < src.Length0 && (2 * n + 2) / 3 <= src.Length1
    reads a, src
  {
    Planar(a, h, heightC + h, n, src)
  }

  ghost predicate ChromaRead(a: array2<Byte>, heightC: nat, n: nat, src: array2<Word32>)
    requires 2 * heightC <= a.Length0 && n <= a.Length1 && heightC <= src.Length0 && (2 * n + 2) / 3 <= src.Length1
    reads a, src
  {
    forall h :: 0 <= h < heightC ==> PairRead(a, heightC, h, n, src)
  }

  method XvChromaToI42x(pSrc: array2<Word32>, pDst: array2<Byte>, iWidth: nat, iHeightC: nat)
    requires iWidth % 2 == 0 && 2 * iHeightC <= pDst.Length0 && iWidth / 2 <= pDst.Length1
    requires iHeightC <= pSrc.Length0 && (iWidth + 2) / 3 <= pSrc.Length1
    modifies pDst
    ensures ChromaRead(pDst, iHeightC, iWidth / 2, pSrc)
  {
    for h := 0 to iHeightC
      invariant forall r :: 0 <= r < h ==> PairRead(pDst, iHeightC, r, iWidth / 2, pSrc)
    {
      label before:
      XvRowToI42x(pSrc, h, iHeightC + h, iWidth, pDst);
      assert forall r :: 0 <= r < h && old@before(PairRead(pDst, iHeightC, r, iWidth / 2, pSrc)) ==>
                           PairRead(pDst, iHeightC, r, iWidth / 2, pSrc);
    }
  }

  // ---------------------------------------------------------------------------------------------
  // There and back
  // ---------------------------------------------------------------------------------------------

  lemma LumaBack(src: array2<Byte>, xv: array2<Word32>, back: array2<Byte>, height: nat, width: nat)
    requires height <= src.Length0 && width <= src.Length1 && height <= xv.Length0 && (width + 2) / 3 <= xv.Length1
    requires height <= back.Length0 && width <= back.Length1
    requires RowsPacked(src, height, width, xv) && LumaRead(back, height, width, xv)
    ensures SameSamples(src, back, height, width)
  {
    forall h, x | 0 <= h < height && 0 <= x < width
      ensures back[h, x] == src[h, x]
    {
      hide TenRow, PackedSample;
      assert RowPacked(src, h, width, xv) && RowRead(back, h, width, xv);
      PackUnpack(xv, h, (width + 2) / 3, TenRow(src, h, width), x);
    }
  }

  lemma PairBack(src: array2<Byte>, uFirst: bool, xv: array2<Word32>, back: array2<Byte>, heightC: nat, h: nat, n: nat, x: nat)
    requires h < heightC && 2 * heightC <= src.Length0 && n <= src.Length1 && h < xv.Length0 && (2 * n + 2) / 3 <= xv.Length1
    requires 2 * heightC <= back.Length0 && n <= back.Length1 && x < n
    requires PairPacked(src, uFirst, heightC, h, n, xv) && PairRead(back, heightC, h, n, xv)
    ensures back[h, x] == src[RowU(uFirst, heightC, h), x] && back[heightC + h, x] == src[RowV(uFirst, heightC, h), x]
  {
    hide PackedSample, PackedTo, TenRow;
    var u, v := TenRow(src, RowU(uFirst, heightC, h), n), TenRow(src, RowV(uFirst, heightC, h), n);
    var s := Interleaved(u, v);
    assert forall k :: 0 <= k < 2 * n ==> s[k] < 0x400;
    InterleavedAt(u, v, x);
    PackUnpack(xv, h, (2 * n + 2) / 3, s, 2 * x);
    PackUnpack(xv, h, (2 * n + 2) / 3, s, 2 * x + 1);
  }

  /** Both components come back, U first. */
  lemma ChromaBack(src: array2<Byte>, uFirst: bool, xv: array2<Word32>, back: array2<Byte>, heightC: nat, n: nat)
    requires 2 * heightC <= src.Length0 && n <= src.Length1 && heightC <= xv.Length0 && (2 * n + 2) / 3 <= xv.Length1
    requires 2 * heightC <= back.Length0 && n <= back.Length1
    requires ChromaPacked(src, uFirst, heightC, n, xv) && ChromaRead(back, heightC, n, xv)
    ensures uFirst ==> forall r, x :: 0 <= r < 2 * heightC && 0 <= x < n ==> back[r, x] == src[r, x]
    ensures !uFirst ==> forall h, x :: 0 <= h < heightC && 0 <= x < n ==>
              back[h, x] == src[heightC + h, x] && back[heightC + h, x] == src[h, x]
  {
    hide PairPacked, PairRead;
    if uFirst {
      forall r, x | 0 <= r < 2 * heightC && 0 <= x < n
        ensures back[r, x] == src[r, x]
      {
        var h := if r < heightC then r else r - heightC;
        assert PairPacked(src, uFirst, heightC, h, n, xv) && PairRead(back, heightC, h, n, xv);
        PairBack(src, uFirst, xv, back, heightC, h, n, x);
      }
    } else {
      forall h, x | 0 <= h < heightC && 0 <= x < n
        ensures back[h, x] == src[heightC + h, x] && back[heightC + h, x] == src[h, x]
      {
        assert PairPacked(src, uFirst, heightC, h, n, xv) && PairRead(back, heightC, h, n, xv);
        PairBack(src, uFirst, xv, back, heightC, h, n, x);
      }
    }
  }

  // ---------------------------------------------------------------------------------------------
  // Pictures
  // ---------------------------------------------------------------------------------------------

  /** Planes of a picture: luma, and half as wide two planes of chroma above each other. */
  ghost predicate PlanarFits(y: array2<Byte>, c: array2<Byte>, iWidth: nat, iHeight: nat, iHeightC: nat) {
    y != c && iHeight <= y.Length0 && iWidth <= y.Length1 && 2 * iHeightC <= c.Length0 && iWidth / 2 <= c.Length1
  }

  ghost predicate PackedFits(y: array2<Word32>, c: array2<Word32>, iWidth: nat, iHeight: nat, iHeightC: nat) {
    y != c && iHeight <= y.Length0 && (iWidth + 2) / 3 <= y.Length1 && iHeightC <= c.Length0 && (iWidth + 2) / 3 <= c.Length1
  }

  ghost predicate SemiPlanarFits(y: array2<Byte>, c: array2<Byte>, iWidth: nat, iHeight: nat, iHeightC: nat) {
    y != c && iHeight <= y.Length0 && iWidth <= y.Length1 && iHeightC <= c.Length0 && iWidth <= c.Length1
  }

  /** I42X_To_XVXX. */
  method I42xToXv(pSrcY: array2<Byte>, pSrcC: array2<Byte>, iWidth: nat, iHeight: nat, iHeightC: nat, bIsUFirst: bool,
                  pDstY: array2<Word32>, pDstC: array2<Word32>)
    requires iWidth % 2 == 0 && PlanarFits(pSrcY, pSrcC, iWidth, iHeight, iHeightC)
    requires PackedFits(pDstY, pDstC, iWidth, iHeight, iHeightC)
    modifies pDstY, pDstC
    ensures RowsPacked(pSrcY, iHeight, iWidth, pDstY) && ChromaPacked(pSrcC, bIsUFirst, iHeightC, iWidth / 2, pDstC)
  {
    hide RowPacked, PairPacked;
    BytesToXv(pSrcY, pDstY, iWidth, iHeight);
    I42xChromaToXv(pSrcC, pDstC, iWidth, iHeightC, bIsUFirst);
  }

  /** I42X_To_NV1X. */
  method I42xToNv1x(pSrcY: array2<Byte>, pSrcC: array2<Byte>, iWidth: nat, iHeight: nat, iHeightC: nat, bIsUFirst: bool,
                    pDstY: array2<Byte>, pDstC: array2<Byte>)
    requires iWidth % 2 == 0 && PlanarFits(pSrcY, pSrcC, iWidth, iHeight, iHeightC)
    requires SemiPlanarFits(pDstY, pDstC, iWidth, iHeight, iHeightC) && {pSrcY, pSrcC} !! {pDstY, pDstC}
    modifies pDstY, pDstC
    ensures SameSamples(pSrcY, pDstY, iHeight, iWidth) && Alternates(pSrcC, bIsUFirst, iHeightC, iWidth / 2, pDstC)
  {
    hide PairAlternates;
    CopyRows(pSrcY, pDstY, iWidth, iHeight);
    Interleave(pSrcC, pDstC, iWidth / 2, iHeightC, bIsUFirst);
  }

  /** NV1X_To_XVXX. */
  method Nv1xToXv(pSrcY: array2<Byte>, pSrcC: array2<Byte>, iWidth: nat, iHeight: nat, iHeightC: nat,
                  pDstY: array2<Word32>, pDstC: array2<Word32>)
    requires SemiPlanarFits(pSrcY, pSrcC, iWidth, iHeight, iHeightC) && PackedFits(pDstY, pDstC, iWidth, iHeight, iHeightC)
    modifies pDstY, pDstC
    ensures RowsPacked(pSrcY, iHeight, iWidth, pDstY) && RowsPacked(pSrcC, iHeightC, iWidth, pDstC)
  {
    hide RowPacked;
    BytesToXv(pSrcY, pDstY, iWidth, iHeight);
    BytesToXv(pSrcC, pDstC, iWidth, iHeightC);
  }

  /** XVXX_To_I42X. */
  method XvToI42x(pSrcY: array2<Word32>, pSrcC: array2<Word32>, iWidth: nat, iHeight: nat, iHeightC: nat,
                  pDstY: array2<Byte>, pDstC: array2<Byte>)
    requires iWidth % 2 == 0 && PlanarFits(pDstY, pDstC, iWidth, iHeight, iHeightC)
    requires PackedFits(pSrcY, pSrcC, iWidth, iHeight, iHeightC)
    modifies pDstY, pDstC
    ensures LumaRead(pDstY, iHeight, iWidth, pSrcY) && ChromaRead(pDstC, iHeightC, iWidth / 2, pSrcC)
  {
    hide RowRead, PairRead;
    XvToY800(pSrcY, pDstY, iWidth, iHeight);
    XvChromaToI42x(pSrcC, pDstC, iWidth, iHeightC);
  }

  /** I420 to XV15 and I420 to NV12 to XV15 give the same words of luma and chroma; with uVrtCScale 1
      instead of 2, I422 and XV20; with V first, YV12. The second component begins iHeightC rows down, and
      for the interleaving that takes a height the scale divides. */
  method PackBothWays(pSrcY: array2<Byte>, pSrcC: array2<Byte>, iWidth: nat, iHeight: nat, uVrtCScale: nat, bIsUFirst: bool,
                      pNvY: array2<Byte>, pNvC: array2<Byte>, pDirectY: array2<Word32>, pDirectC: array2<Word32>,
                      pPackedY: array2<Word32>, pPackedC: array2<Word32>)
    requires iWidth % 2 == 0 && uVrtCScale > 0 && iHeight % uVrtCScale == 0
    requires PlanarFits(pSrcY, pSrcC, iWidth, iHeight, iHeight / uVrtCScale)
    requires SemiPlanarFits(pNvY, pNvC, iWidth, iHeight, iHeight / uVrtCScale) && {pSrcY, pSrcC} !! {pNvY, pNvC}
    requires PackedFits(pDirectY, pDirectC, iWidth, iHeight, iHeight / uVrtCScale)
    requires PackedFits(pPackedY, pPackedC, iWidth, iHeight, iHeight / uVrtCScale)
    requires {pDirectY, pDirectC} !! {pPackedY, pPackedC}
    modifies pNvY, pNvC, pDirectY, pDirectC, pPackedY, pPackedC
    ensures SameWords(pDirectY, pPackedY, iHeight, (iWidth + 2) / 3)
    ensures SameWords(pDirectC, pPackedC, iHeight / uVrtCScale, (iWidth + 2) / 3)
  {
    hide RowsPacked, ChromaPacked, Alternates, SameSamples, SameWords;
    var iHeightC := iHeight / uVrtCScale;
    I42xToNv1x(pSrcY, pSrcC, iWidth, iHeight, iHeightC, bIsUFirst, pNvY, pNvC);
    Nv1xToXv(pNvY, pNvC, iWidth, iHeight, iHeightC, pPackedY, pPackedC);
    I42xToXv(pSrcY, pSrcC, iWidth, iHeight, iHeightC, bIsUFirst, pDirectY, pDirectC);
    LumaWaysAgree(pSrcY, pNvY, iHeight, iWidth, pDirectY, pPackedY);
    ChromaWaysAgree(pSrcC, bIsUFirst, iHeightC, iWidth / 2, pNvC, pDirectC, pPackedC);
  }

  /** I420 to XV15 and back: every visible sample is the one it was, whatever the pitches. */
  method PackAndUnpack(pSrcY: array2<Byte>, pSrcC: array2<Byte>, iWidth: nat, iHeight: nat, uVrtCScale: nat, bIsUFirst: bool,
                       pXvY: array2<Word32>, pXvC: array2<Word32>, pDstY: array2<Byte>, pDstC: array2<Byte>)
    requires iWidth % 2 == 0 && uVrtCScale > 0 && PlanarFits(pSrcY, pSrcC, iWidth, iHeight, iHeight / uVrtCScale)
    requires PackedFits(pXvY, pXvC, iWidth, iHeight, iHeight / uVrtCScale)
    requires PlanarFits(pDstY, pDstC, iWidth, iHeight, iHeight / uVrtCScale) && {pSrcY, pSrcC} !! {pDstY, pDstC}
    modifies pXvY, pXvC, pDstY, pDstC
    ensures SameSamples(pSrcY, pDstY, iHeight, iWidth)
    ensures var heightC := iHeight / uVrtCScale;
            && (bIsUFirst ==> forall r, x :: 0 <= r < 2 * heightC && 0 <= x < iWidth / 2 ==> pDstC[r, x] == pSrcC[r, x])
            && (!bIsUFirst ==> forall h, x :: 0 <= h < heightC && 0 <= x < iWidth / 2 ==>
                                 pDstC[h, x] == pSrcC[heightC + h, x] && pDstC[heightC + h, x] == pSrcC[h, x])
  {
    hide RowsPacked, ChromaPacked, LumaRead, ChromaRead, SameSamples;
    var iHeightC := iHeight / uVrtCScale;
    I42xToXv(pSrcY, pSrcC, iWidth, iHeight, iHeightC, bIsUFirst, pXvY, pXvC);
    XvToI42x(pXvY, pXvC, iWidth, iHeight, iHeightC, pDstY, pDstC);
    LumaBack(pSrcY, pXvY, pDstY, iHeight, iWidth);
    ChromaBack(pSrcC, bIsUFirst, pXvC, pDstC, iHeightC, iWidth / 2);
  }
}
