/** Exp-Golomb syntax elements on the bit writer, and the parser of section 9.1 of ITU-T H.264. */
module ExpGolomb {
  import opened Common
  import opened Bits
  import opened BitStreamLite
  import opened Option

  /** An unsigned or signed syntax element, ue(v) or se(v). */
  datatype Element = UE(u: nat) | SE(s: int)

  datatype Descriptor = DescUE | DescSE

  /** The position of the highest one bit. */
  function Log2(n: nat): (k: nat)
    requires n > 0
    ensures Pow2(k) <= n < Pow2(k + 1)
  {
    if n == 1 then 0 else 1 + Log2(n / 2)
  }

  /** The code number of a signed value (section 9.1.1): positive values odd, the others even. */
  function CodeNum(s: int): nat {
    if s > 0 then 2 * s - 1 else -2 * s
  }

  /** The code word: as many zeros as information bits, a one, the information bits. */
  function Code(u: nat): seq<Bit> {
    var k := Log2(u + 1);
    Repeat(0, k) + [1] + BitsOf(k, u + 1 - Pow2(k))
  }

  function ElementCode(e: Element): seq<Bit> {
    match e
    case UE(u) => Code(u)
    case SE(s) => Code(CodeNum(s))
  }

  function Codes(es: seq<Element>): seq<Bit> {
    if es == [] then [] else ElementCode(es[0]) + Codes(es[1..])
  }

  // ---------------------------------------------------------------------------------------------
  // The parser
  // ---------------------------------------------------------------------------------------------

  /** Leading zero bits from pos up to the first one bit; None when the stream ends first. */
  function LeadingZeros(stream: seq<Bit>, pos: nat): Option<nat>
    decreases |stream| - pos
  {
    if pos >= |stream| then None
    else if stream[pos] == 1 then Some(0)
    else
      match LeadingZeros(stream, pos + 1)
      case None => None
      case Some(n) => Some(n + 1)
  }

  /** Reads a code number; the second result is the position behind it. */
  function ReadCodeNum(stream: seq<Bit>, pos: nat): Option<(nat, nat)> {
    match LeadingZeros(stream, pos)
    case None => None
    case Some(n) =>
      var start := pos + n + 1;
      if start + n > |stream| then None
      else Some((Pow2(n) - 1 + Value(stream[start..start + n]), start + n))
  }

  /** Maps a code number to its signed value: (-1)^(k+1) Ceil(k / 2). */
  function Signed(k: nat): int {
    if k % 2 == 1 then (k + 1) / 2 else -(k / 2)
  }

  /** Table 9-3: 0, then 1 and -1, 2 and -2 and so on. */
  lemma SignedInTurn(n: nat)
    ensures Signed(0) == 0 && Signed(2 * n + 1) == n + 1 && Signed(2 * n + 2) == 0 - n - 1
  {
  }

  function Read(stream: seq<Bit>, pos: nat, desc: Descriptor): Option<(Element, nat)> {
    match ReadCodeNum(stream, pos)
    case None => None
    case Some((k, next)) => Some((if desc == DescUE then UE(k) else SE(Signed(k)), next))
  }

  function ReadAll(stream: seq<Bit>, pos: nat, descs: seq<Descriptor>): Option<(seq<Element>, nat)>
    decreases |descs|
  {
    if descs == [] then Some(([], pos))
    else
      match Read(stream, pos, descs[0])
      case None => None
      case Some((e, next)) =>
        match ReadAll(stream, next, descs[1..])
        case None => None
        case Some((es, end)) => Some(([e] + es, end))
  }

  function DescriptorOf(e: Element): Descriptor {
    if e.UE? then DescUE else DescSE
  }

  function Descriptors(es: seq<Element>): seq<Descriptor> {
    if es == [] then [] else [DescriptorOf(es[0])] + Descriptors(es[1..])
  }

  // ---------------------------------------------------------------------------------------------
  // Reading back
  // ---------------------------------------------------------------------------------------------

  lemma {:induction false} LeadingZerosCount(stream: seq<Bit>, pos: nat, k: nat)
    requires pos + k < |stream| && stream[pos + k] == 1
    requires forall i :: pos <= i < pos + k ==> stream[i] == 0
    ensures LeadingZeros(stream, pos) == Some(k)
    decreases k
  {
    if k > 0 {
      LeadingZerosCount(stream, pos + 1, k - 1);
    }
  }

  lemma CodeReads(pre: seq<Bit>, u: nat, post: seq<Bit>)
    ensures ReadCodeNum(pre + Code(u) + post, |pre|) == Some((u, |pre + Code(u)|))
  {
    var k := Log2(u + 1);
    var info := u + 1 - Pow2(k);
    var stream := pre + Code(u) + post;
    var start := |pre| + k + 1;
    assert stream[|pre|..|pre| + k] == Repeat(0, k);
    assert forall i :: |pre| <= i < |pre| + k ==> stream[i] == stream[|pre|..|pre| + k][i - |pre|];
    assert stream[|pre| + k] == 1;
    LeadingZerosCount(stream, |pre|, k);
    assert stream[start..start + k] == BitsOf(k, info);
    ValueBitsOf(k, info);
  }

  lemma SignedCodeNum(s: int)
    ensures Signed(CodeNum(s)) == s
  {
  }

  lemma ElementReads(pre: seq<Bit>, e: Element, post: seq<Bit>)
    ensures Read(pre + ElementCode(e) + post, |pre|, DescriptorOf(e)) == Some((e, |pre + ElementCode(e)|))
  {
    match e
    case UE(u) => CodeReads(pre, u, post);
    case SE(s) =>
      CodeReads(pre, CodeNum(s), post);
      SignedCodeNum(s);
  }

  lemma NothingCoded()
    ensures Codes([]) == [] && Descriptors([]) == [] && forall s, p: nat :: ReadAll(s, p, []) == Some(([], p))
  {
  }

  lemma FirstCoded(es: seq<Element>)
    requires es != []
    ensures Codes(es) == ElementCode(es[0]) + Codes(es[1..])
    ensures Descriptors(es) == [DescriptorOf(es[0])] + Descriptors(es[1..])
  {
  }

  /** Any sequence of elements, written at any position and followed by anything, parses back. */
  lemma {:induction false} CodesRead(pre: seq<Bit>, es: seq<Element>, post: seq<Bit>)
    ensures ReadAll(pre + Codes(es) + post, |pre|, Descriptors(es)) == Some((es, |pre + Codes(es)|))
    decreases |es|
  {
    hide *;
    if es == [] {
      NothingCoded();
    } else {
      var code, rest, stream := ElementCode(es[0]), Codes(es[1..]), pre + Codes(es) + post;
      FirstCoded(es);
      ElementReads(pre, es[0], rest + post);
      assert stream == pre + code + (rest + post);
      CodesRead(pre + code, es[1..], post);
      assert stream == (pre + code) + rest + post;
      ReadAllStep(stream, |pre|, Descriptors(es), es[0], |pre + code|, es[1..], |pre + code + rest|);
      assert [es[0]] + es[1..] == es;
    }
  }

  lemma ReadAllStep(stream: seq<Bit>, pos: nat, descs: seq<Descriptor>, e: Element, next: nat, es: seq<Element>, end: nat)
    requires descs != []
    requires Read(stream, pos, descs[0]) == Some((e, next))
    requires ReadAll(stream, next, descs[1..]) == Some((es, end))
    ensures ReadAll(stream, pos, descs) == Some(([e] + es, end))
  {
  }

  /** The code of one sequence is never a proper beginning of the code of another of the same shape. */
  lemma CodesInjective(es: seq<Element>, fs: seq<Element>)
    requires Descriptors(es) == Descriptors(fs) && Codes(es) <= Codes(fs)
    ensures es == fs
  {
    hide *;
    var post := Codes(fs)[|Codes(es)|..];
    CodesRead([], es, post);
    CodesRead([], fs, []);
    assert [] + Codes(es) + post == Codes(fs);
    assert [] + Codes(fs) + [] == Codes(fs);
  }

  // ---------------------------------------------------------------------------------------------
  // The writer
  // ---------------------------------------------------------------------------------------------

  /** The source shifts a signed 32-bit word right until it is zero, which ends for NN >= 0 only. */
  method BitScanReverse(nn: int) returns (i: int)
    requires 0 <= nn < 0x8000_0000
    ensures nn == 0 ==> i == -1
    ensures nn > 0 ==> i == Log2(nn)
  {
    i := -1;
    var n := nn;
    while n != 0
      invariant 0 <= n && -1 <= i
      invariant nn == 0 ==> n == 0 && i == -1
      invariant nn > 0 && n > 0 ==> Log2(nn) == i + 1 + Log2(n)
      invariant nn > 0 && n == 0 ==> i == Log2(nn)
    {
      n := n / 2;
      i := i + 1;
    }
  }

  lemma {:induction false} Log2Below(n: nat, m: nat)
    requires 0 < n < Pow2(m)
    ensures Log2(n) < m
  {
    if n > 1 {
      Log2Below(n / 2, m - 1);
    }
  }

  method PutVclBits(bs: BitStream, uCodeLength: nat, uValue: nat)
    requires bs.Valid() && uValue < 0x7FFF_FFFF && uCodeLength == 1 + 2 * Log2(uValue + 1)
    modifies bs`iBitCount, bs`isOverflow, bs`written, bs.pData
    ensures bs.Valid() && bs.written == old(bs.written) + Code(uValue)
    ensures forall i :: bs.iMaxBits / 8 <= i < bs.pData.Length ==> bs.pData[i] == old(bs.pData[i])
  {
    hide *;
    CodeParts(uValue);
    if uCodeLength == 1 {
      bs.PutBits(1, 1);
    } else {
      var uInfoLength := (uCodeLength - 1) / 2;
      var iBits := uValue + 1 - Pow2(uInfoLength);
      Pow2Of31();
      Log2Below(uValue + 1, 31);
      bs.PutBits(uInfoLength, 0);
      bs.PutBits(1, 1);
      bs.PutBits(uInfoLength, iBits);
    }
  }

  /** The three puts of a code word, or the one. */
  lemma CodeParts(u: nat)
    ensures var k := Log2(u + 1);
            && Pow2(k) <= u + 1 < 2 * Pow2(k) && 0 < Pow2(k) && 1 < Pow2(1)
            && Code(u) == BitsOf(k, 0) + BitsOf(1, 1) + BitsOf(k, u + 1 - Pow2(k))
            && (k == 0 ==> Code(u) == BitsOf(1, 1))
  {
    var k := Log2(u + 1);
    assert Pow2(k + 1) == 2 * Pow2(k);
    BitsOfZero(k);
    OneBit();
    assert Pow2(1) == 2 * Pow2(0);
    hide BitsOf;
    if k == 0 {
      NoBits(u + 1 - Pow2(0));
      NoBits(0);
    }
  }

  lemma NoBits(v: nat)
    ensures BitsOf(0, v) == []
  {
  }

  lemma OneBit()
    ensures BitsOf(1, 1) == [1]
  {
    assert BitsOf(1, 1) == BitsOf(0, 0) + [1];
  }

  lemma Pow2Of31()
    ensures Pow2(31) == 0x8000_0000
  {
    Pow2Of8();
    Pow2Add(8, 8);
    Pow2Add(16, 8);
    Pow2Add(24, 7);
    assert Pow2(7) == 128;
  }

  method PutUE(bs: BitStream, uValue: nat)
    requires bs.Valid() && uValue < 0x7FFF_FFFF
    modifies bs`iBitCount, bs`isOverflow, bs`written, bs.pData
    ensures bs.Valid() && bs.written == old(bs.written) + ElementCode(UE(uValue))
    ensures forall i :: bs.iMaxBits / 8 <= i < bs.pData.Length ==> bs.pData[i] == old(bs.pData[i])
  {
    var high := BitScanReverse(uValue + 1);
    var uCodeLength := 1 + 2 * high;
    PutVclBits(bs, uCodeLength, uValue);
  }

  method PutSE(bs: BitStream, iValue: int)
    requires bs.Valid() && -0x4000_0000 < iValue < 0x4000_0000
    modifies bs`iBitCount, bs`isOverflow, bs`written, bs.pData
    ensures bs.Valid() && bs.written == old(bs.written) + ElementCode(SE(iValue))
    ensures forall i :: bs.iMaxBits / 8 <= i < bs.pData.Length ==> bs.pData[i] == old(bs.pData[i])
  {
    hide Code, Packed, BitStream.Valid, BitsOf, Pow2;
    PutUE(bs, 2 * (if iValue > 0 then iValue else -iValue) - (if iValue > 0 then 1 else 0));
  }

  /** What the source's 32-bit PutUE and PutSE accept. */
  ghost predicate Writable(e: Element) {
    match e
    case UE(u) => u < 0x7FFF_FFFF
    case SE(s) => -0x4000_0000 < s < 0x4000_0000
  }

  /** Writes elements one after the other; while they fit the buffer reads back as exactly them,
      starting at whatever bit the writer stood at. */
  method PutAll(bs: BitStream, es: seq<Element>)
    requires bs.Valid() && forall i :: 0 <= i < |es| ==> Writable(es[i])
    modifies bs`iBitCount, bs`isOverflow, bs`written, bs.pData
    ensures bs.Valid() && bs.written == old(bs.written) + Codes(es)
    ensures !bs.isOverflow ==>
              ReadAll(BufferBits(bs.pData[..]), old(bs.iBitCount), Descriptors(es)) == Some((es, bs.iBitCount))
  {
    hide ElementCode, ReadAll, Descriptors, BufferBits;
    ghost var before := bs.written;
    assert es[0..] == es;
    for i := 0 to |es|
      invariant bs.Valid() && bs.written + Codes(es[i..]) == before + Codes(es)
    {
      CodesFront(es, i);
      ghost var w := bs.written;
      match es[i] {
        case UE(u) => PutUE(bs, u);
        case SE(s) => PutSE(bs, s);
      }
      assert w + (ElementCode(es[i]) + Codes(es[i + 1..])) == bs.written + Codes(es[i + 1..]);
    }
    assert Codes(es[|es|..]) == [] && bs.written + [] == bs.written;
    if !bs.isOverflow {
      WrittenReads(bs.pData[..], bs.iMaxBits / 8, before, es);
    }
  }

  lemma CodesFront(es: seq<Element>, i: nat)
    requires i < |es|
    ensures Codes(es[i..]) == ElementCode(es[i]) + Codes(es[i + 1..])
  {
    assert es[i..][1..] == es[i + 1..];
  }

  lemma WrittenReads(data: seq<Byte>, size: nat, before: seq<Bit>, es: seq<Element>)
    requires Packed(data, before + Codes(es), size) && |before + Codes(es)| <= 8 * size
    ensures ReadAll(BufferBits(data), |before|, Descriptors(es)) == Some((es, |before + Codes(es)|))
  {
    var w, stream := before + Codes(es), BufferBits(data);
    PackedReadsBack(data, w, size);
    assert stream[..|w|] == w by {
      assert w[..|w|] == w;
    }
    hide *;
    CodesRead(before, es, stream[|w|..]);
    assert stream == before + Codes(es) + stream[|w|..];
  }
}
