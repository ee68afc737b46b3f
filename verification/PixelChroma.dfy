/** Chroma rows between planar form, one plane of U and below it one of V, and the packed form that
    alternates U and V, three samples in a word. */
module PixelChroma {
  import opened Bits
  import opened PixelFields
  import opened PixelTiles

  /** U and V samples in turn. */
  function Interleaved(u: seq<nat>, v: seq<nat>): (s: seq<nat>)
    requires |u| == |v|
    ensures |s| == 2 * |u|
  {
    seq(2 * |u|, k requires 0 <= k < 2 * |u| => if k % 2 == 0 then u[k / 2] else v[k / 2])
  }

  lemma InterleavedAt(u: seq<nat>, v: seq<nat>, x: nat)
    requires x < |u| == |v|
    ensures Interleaved(u, v)[2 * x] == u[x] && Interleaved(u, v)[2 * x + 1] == v[x]
  {
    assert 2 * x / 2 == x && (2 * x + 1) / 2 == x;
  }

  /** Words 2 * i and 2 * i + 1 take columns 3 * i to 3 * i + 2, as far as there are any. */
  lemma SixWords(u: seq<nat>, v: seq<nat>, i: nat)
    requires |u| == |v|
    ensures var s, x, d := Interleaved(u, v), 3 * i, 2 * i;
            && (x < |u| ==> PackWord(s, d) == u[x] + 0x400 * v[x] + if x + 1 < |u| then 0x10_0000 * u[x + 1] else 0)
            && (x + 1 < |u| ==>
                  PackWord(s, d + 1) == v[x + 1] + if x + 2 < |u| then 0x400 * u[x + 2] + 0x10_0000 * v[x + 2] else 0)
  {
    hide Interleaved;
    var s, x := Interleaved(u, v), 3 * i;
    if x < |u| {
      InterleavedAt(u, v, x);
      WordOf(s, 2 * i);
    }
    if x + 1 < |u| {
      InterleavedAt(u, v, x + 1);
      WordOf(s, 2 * i + 1);
    }
    if x + 2 < |u| {
      InterleavedAt(u, v, x + 2);
    }
    hide PackWord;
  }

  /** Sample j of a packed word. */
  function Unpacked(w: nat, j: nat): nat {
    if j == 0 then w % 0x400 else if j == 1 then w / 0x400 % 0x400 else w / 0x10_0000 % 0x400
  }

  /** Samples of ten bits each, the first lowest. */
  lemma UnpackedBits(w: nat, j: nat)
    requires j < 3
    ensures Unpacked(w, j) == w / Pow2(10 * j) % 0x400
  {
    Pow2Of16();
    Pow2Add(10, 10);
    assert Pow2(0) == 1;
    assert j == 0 || j == 1 || j == 2;
    hide Pow2;
  }

  /** Sample k of a packed row. */
  function PackedSample(a: array2<Word32>, h: nat, k: nat): nat
    requires h < a.Length0 && k / 3 < a.Length1
    reads a
  {
    Unpacked(a[h, k / 3], k % 3)
  }

  lemma UnpackWord(x: nat, y: nat, z: nat)
    requires x < 0x400 && y < 0x400 && z < 0x400
    ensures var w := x + 0x400 * y + 0x10_0000 * z; Unpacked(w, 0) == x && Unpacked(w, 1) == y && Unpacked(w, 2) == z
  {
  }

  /** Unpacking a packed row gives the samples back, whatever the last word misses. */
  lemma PackUnpack(a: array2<Word32>, h: nat, n: nat, s: seq<nat>, k: nat)
    requires h < a.Length0 && n <= a.Length1 && PackedTo(a, h, n, s) && 3 * n >= |s| && k < |s|
    requires forall i :: 0 <= i < |s| ==> s[i] < 0x400
    ensures k / 3 < a.Length1 && PackedSample(a, h, k) == s[k]
  {
    var i := k / 3;
    assert a[h, i] == PackWord(s, i);
    WordOf(s, i);
    hide PackWord, Unpacked;
    UnpackWord(s[3 * i], if 3 * i + 1 < |s| then s[3 * i + 1] else 0, if 3 * i + 2 < |s| then s[3 * i + 2] else 0);
  }

  // ---------------------------------------------------------------------------------------------
  // Packing
  // ---------------------------------------------------------------------------------------------

  /** Ten bits of each sample of the first n columns of rows h and v, in turn. */
  function ChromaRow(pSrc: array2<Word16>, h: nat, v: nat, n: nat): (s: seq<nat>)
    requires h < pSrc.Length0 && v < pSrc.Length0 && n <= pSrc.Length1
    reads pSrc
    ensures |s| == 2 * n
  {
    Interleaved(Masked(RowOf(pSrc, h)[..n]), Masked(RowOf(pSrc, v)[..n]))
  }

  lemma RowWords(a: array2<Word16>, h: nat, v: nat, n: nat, i: nat)
    requires h < a.Length0 && v < a.Length0 && n <= a.Length1
    ensures var s, x, d := ChromaRow(a, h, v, n), 3 * i, 2 * i;
            && (x < n ==> PackWord(s, d) == a[h, x] % 0x400 + 0x400 * (a[v, x] % 0x400)
                                            + if x + 1 < n then 0x10_0000 * (a[h, x + 1] % 0x400) else 0)
            && (x + 1 < n ==> PackWord(s, d + 1) == a[v, x + 1] % 0x400
                                            + if x + 2 < n then 0x400 * (a[h, x + 2] % 0x400) + 0x10_0000 * (a[v, x + 2] % 0x400) else 0)
  {
    hide PackWord, Interleaved;
    SixWords(Masked(RowOf(a, h)[..n]), Masked(RowOf(a, v)[..n]), i);
  }

  /** One chroma row of IXAL_To_XVXX: six samples in two words, then what is left of the row. Row v of
      the chroma plane is the row of V that goes with row h of U. */
  method IxalRowToXv(pSrc: array2<Word16>, h: nat, v: nat, iWidth: nat, pDst: array2<Word32>)
    requires h < pSrc.Length0 && v < pSrc.Length0 && iWidth % 2 == 0 && iWidth / 2 <= pSrc.Length1
    requires h < pDst.Length0 && (iWidth + 2) / 3 <= pDst.Length1
    modifies pDst
    ensures PackedTo(pDst, h, (iWidth + 2) / 3, ChromaRow(pSrc, h, v, iWidth / 2)) && OtherRowsKept(pDst, h)
  {
    hide PackWord, PackedTo, ChromaRow;
    ghost var n, s := iWidth / 2, ChromaRow(pSrc, h, v, iWidth / 2);
    var x, d := 0, 0;
    var w: int := iWidth / 6;
    ghost var i := 0;
    NothingPacked(pDst, h, s);
    while w > 0
      invariant 0 <= w && i + w == iWidth / 6 && x == 3 * i && d == 2 * i
      invariant PackedTo(pDst, h, d, s) && OtherRowsKept(pDst, h)
    {
      w := w - 1;
      RowWords(pSrc, h, v, n, i);
      PutWord(pDst, h, d, pSrc[h, x] % 0x400 + 0x400 * (pSrc[v, x] % 0x400) + 0x10_0000 * (pSrc[h, x + 1] % 0x400), s);
      PutWord(pDst, h, d + 1, pSrc[v, x + 1] % 0x400 + 0x400 * (pSrc[h, x + 2] % 0x400) + 0x10_0000 * (pSrc[v, x + 2] % 0x400), s);
      d := d + 2;
      x := x + 3;
      i := i + 1;
    }
    RowWords(pSrc, h, v, n, i);
    if iWidth % 6 > 2 {
      PutWord(pDst, h, d, pSrc[h, x] % 0x400 + 0x400 * (pSrc[v, x] % 0x400) + 0x10_0000 * (pSrc[h, x + 1] % 0x400), s);
      PutWord(pDst, h, d + 1, pSrc[v, x + 1] % 0x400, s);
    } else if iWidth % 6 > 0 {
      PutWord(pDst, h, d, pSrc[h, x] % 0x400 + 0x400 * (pSrc[v, x] % 0x400), s);
    }
  }

  // ---------------------------------------------------------------------------------------------
  // Unpacking
  // ---------------------------------------------------------------------------------------------

  /** The first n columns of rows h and v are U and V of the packed row. */
  ghost predicate Planar(a: array2<Word16>, h: nat, v: nat, n: nat, src: array2<Word32>)
    requires h < a.Length0 && v < a.Length0 && n <= a.Length1 && h < src.Length0 && (2 * n + 2) / 3 <= src.Length1
    reads a, src
  {
    forall x :: 0 <= x < n ==> a[h, x] == PackedSample(src, h, 2 * x) && a[v, x] == PackedSample(src, h, 2 * x + 1)
  }

  twostate predicate OtherTwoKept(a: array2<Word16>, h: nat, v: nat)
    reads a
  {
    forall r, i :: 0 <= r < a.Length0 && 0 <= i < a.Length1 ==> a[r, i] == old(a[r, i]) || r == h || r == v
  }

  lemma UnpackedBound(w: nat, j: nat)
    ensures Unpacked(w, j) < 0x400
  {
  }

  /** Writes one pair of samples. */
  method PutPair(pDst: array2<Word16>, h: nat, v: nat, x: nat, u: Word16, w: Word16, ghost src: array2<Word32>)
    requires h != v && h < pDst.Length0 && v < pDst.Length0 && x < pDst.Length1
    requires h < src.Length0 && (2 * x + 4) / 3 <= src.Length1
    requires Planar(pDst, h, v, x, src)
    requires u == PackedSample(src, h, 2 * x) && w == PackedSample(src, h, 2 * x + 1)
    modifies pDst
    ensures Planar(pDst, h, v, x + 1, src) && OtherTwoKept(pDst, h, v)
  {
    hide PackedSample;
    pDst[h, x] := u;
    pDst[v, x] := w;
  }

  /** Samples 6 * i to 6 * i + 5 lie in words 2 * i and 2 * i + 1. */
  lemma SixSamples(a: array2<Word32>, h: nat, i: nat)
    requires h < a.Length0
    ensures 2 * i < a.Length1 ==> PackedSample(a, h, 6 * i) == Unpacked(a[h, 2 * i], 0)
    ensures 2 * i < a.Length1 ==> PackedSample(a, h, 6 * i + 1) == Unpacked(a[h, 2 * i], 1)
    ensures 2 * i < a.Length1 ==> PackedSample(a, h, 6 * i + 2) == Unpacked(a[h, 2 * i], 2)
    ensures 2 * i + 1 < a.Length1 ==> PackedSample(a, h, 6 * i + 3) == Unpacked(a[h, 2 * i + 1], 0)
    ensures 2 * i + 1 < a.Length1 ==> PackedSample(a, h, 6 * i + 4) == Unpacked(a[h, 2 * i + 1], 1)
    ensures 2 * i + 1 < a.Length1 ==> PackedSample(a, h, 6 * i + 5) == Unpacked(a[h, 2 * i + 1], 2)
  {
    hide Unpacked;
  }

  /** The loop body: words 2 * i and 2 * i + 1 fill columns 3 * i to 3 * i + 2. */
  method UnpackSix(pSrc: array2<Word32>, h: nat, v: nat, x: nat, d: nat, ghost i: nat, pDst: array2<Word16>)
    requires x == 3 * i && d == 2 * i && h != v && h < pDst.Length0 && v < pDst.Length0 && x + 3 <= pDst.Length1
    requires h < pSrc.Length0 && 2 * i + 2 <= pSrc.Length1 && Planar(pDst, h, v, 3 * i, pSrc)
    modifies pDst
    ensures Planar(pDst, h, v, 3 * i + 3, pSrc) && OtherTwoKept(pDst, h, v)
  {
    hide PackedSample, Planar, Unpacked;
    SixSamples(pSrc, h, i);
    var a, b := pSrc[h, d], pSrc[h, d + 1];
    UnpackedBound(a, 0);
    UnpackedBound(a, 1);
    UnpackedBound(a, 2);
    UnpackedBound(b, 0);
    UnpackedBound(b, 1);
    UnpackedBound(b, 2);
    PutPair(pDst, h, v, x, Unpacked(a, 0), Unpacked(a, 1), pSrc);
    PutPair(pDst, h, v, x + 1, Unpacked(a, 2), Unpacked(b, 0), pSrc);
    PutPair(pDst, h, v, x + 2, Unpacked(b, 1), Unpacked(b, 2), pSrc);
  }

  /** One chroma row of XVXX_To_IXAL. */
  method XvRowToIxal(pSrc: array2<Word32>, h: nat, v: nat, iWidth: nat, pDst: array2<Word16>)
    requires h != v && h < pDst.Length0 && v < pDst.Length0 && iWidth % 2 == 0 && iWidth / 2 <= pDst.Length1
    requires h < pSrc.Length0 && (iWidth + 2) / 3 <= pSrc.Length1
    modifies pDst
    ensures Planar(pDst, h, v, iWidth / 2, pSrc) && OtherTwoKept(pDst, h, v)
  {
    var x, d := 0, 0;
    var w: int := iWidth / 6;
    ghost var i := 0;
    while w > 0
      invariant 0 <= w && i + w == iWidth / 6 && x == 3 * i && d == 2 * i
      invariant Planar(pDst, h, v, x, pSrc) && OtherTwoKept(pDst, h, v)
    {
      hide PackedSample, Planar, Unpacked;
      w := w - 1;
      UnpackSix(pSrc, h, v, x, d, i, pDst);
      d := d + 2;
      x := x + 3;
      i := i + 1;
    }
    hide PackedSample, Planar, Unpacked;
    SixSamples(pSrc, h, i);
    if iWidth % 6 > 2 {
      var a, b := pSrc[h, d], pSrc[h, d + 1];
      UnpackedBound(a, 0);
      UnpackedBound(a, 1);
      UnpackedBound(a, 2);
      UnpackedBound(b, 0);
      PutPair(pDst, h, v, x, Unpacked(a, 0), Unpacked(a, 1), pSrc);
      PutPair(pDst, h, v, x + 1, Unpacked(a, 2), Unpacked(b, 0), pSrc);
    } else if iWidth % 6 > 0 {
      var a := pSrc[h, d];
      UnpackedBound(a, 0);
      UnpackedBound(a, 1);
      PutPair(pDst, h, v, x, Unpacked(a, 0), Unpacked(a, 1), pSrc);
    }
  }

}
