/** The parts of the digest as numbers and text: what the words, the length and the hexadecimal digits say,
    without the way they are put together. */
module Md5Values {
  import opened Bits
  import opened Md5Block
  import opened Md5

  // ---------------------------------------------------------------------------------------------
  // Words
  // ---------------------------------------------------------------------------------------------

  /** The auxiliary functions of section 3.4 of RFC 1321 bit by bit: x chooses, z chooses, parity, and the
      one that is y unless z is off or x on. */
  lemma AuxiliaryBits(x: Bit, y: Bit, z: Bit)
    ensures RfcF(x, y, z) == (if x == 1 then y else z) && RfcG(x, y, z) == (if z == 1 then x else y)
    ensures H(x, y, z) == (x + y + z) % 2
    ensures I(x, y, z) == (if z == 0 || x == 1 then 1 - y else y)
  {
  }

  lemma Pow2Of32()
    ensures Pow2(16) == 0x1_0000 && Pow2(24) == 0x100_0000 && Pow2(32) == 0x1_0000_0000
  {
    assert Pow2(4) == 16 && Pow2(8) == 256;
    Pow2Add(8, 8);
    Pow2Add(16, 8);
    Pow2Add(16, 16);
  }

  /** A number in a word is cut to 32 bits. */
  lemma NumberMeans(n: nat)
    ensures Value(Number(n)) == n % 0x1_0000_0000
  {
    Pow2Of32();
    ValueBitsOfMod(32, n);
    hide Pow2, BitsOf, Value;
  }

  lemma AddMeans(x: Word, y: Word)
    ensures Value(Add(x, y)) == (Value(x) + Value(y)) % 0x1_0000_0000
  {
    NumberMeans(Value(x) + Value(y));
    hide Value, Number;
  }

  /** Rotation to the left: every bit moves s places up, around the end. */
  lemma RotMeans(x: Word, s: nat, i: nat)
    requires s <= 32 && i < 32
    ensures Rot(x, s)[i] == x[(i + s) % 32]
  {
  }

  /** Bytes as a number, the first the least significant. */
  function FromBytes(s: seq<int>): int {
    if s == [] then 0 else s[0] + 0x100 * FromBytes(s[1..])
  }

  lemma FourIs(s: seq<int>)
    requires |s| == 4
    ensures FromBytes(s) == s[0] + 0x100 * s[1] + 0x1_0000 * s[2] + 0x100_0000 * s[3]
  {
    assert s[1..] == [s[1], s[2], s[3]] && s[1..][1..] == [s[2], s[3]] && s[1..][1..][1..] == [s[3]];
    assert FromBytes([s[3]]) == s[3];
  }

  lemma OctetMeans(b: Byte)
    ensures Value(BitsOf(8, b)) == b
  {
    assert Pow2(4) == 16 && Pow2(8) == 0x100;
    ValueBitsOf(8, b);
  }

  /** A word of a block is four bytes, the first the least significant. */
  lemma WordMeans(block: seq<Byte>, i: nat)
    requires 4 * i + 4 <= |block|
    ensures Value(WordOf(block, i)) == FromBytes(block[4 * i..4 * i + 4])
  {
    hide BitsOf, Value, FromBytes;
    var s := block[4 * i..4 * i + 4];
    OctetMeans(s[0]);
    OctetMeans(s[1]);
    OctetMeans(s[2]);
    OctetMeans(s[3]);
    FourOctets(BitsOf(8, s[0]), BitsOf(8, s[1]), BitsOf(8, s[2]), BitsOf(8, s[3]));
    FourIs(s);
  }

  /** The starting words in hexadecimal, as section 3.3 of RFC 1321 writes them. */
  lemma StartsAsStandard()
    ensures Value(INITIAL.a) == 0x6745_2301 && Value(INITIAL.b) == 0xefcd_ab89
    ensures Value(INITIAL.c) == 0x98ba_dcfe && Value(INITIAL.d) == 0x1032_5476
  {
    hide Value, Number;
    NumberMeans(0x6745_2301);
    NumberMeans(0xefcd_ab89);
    NumberMeans(0x98ba_dcfe);
    NumberMeans(0x1032_5476);
  }

  // ---------------------------------------------------------------------------------------------
  // Length and text
  // ---------------------------------------------------------------------------------------------

  /** n cut to as many bytes. */
  function Cut(n: nat, count: nat): nat {
    if count == 0 then 0 else n % 0x100 + 0x100 * Cut(n / 0x100, count - 1)
  }

  /** The length of the message in bits, cut to 64, as the last eight bytes. */
  lemma LengthMeans(n: nat)
    ensures FromBytes(LengthBytes(n)) == n % 0x1_0000_0000_0000_0000
  {
    EightBytes(n);
    CutIs(n, 8);
    hide LengthBytes, FromBytes, Cut;
    Pow2Of64();
  }

  lemma {:induction false} CutIs(n: nat, count: nat)
    ensures Cut(n, count) == n % Pow2(8 * count)
    decreases count
  {
    if count > 0 {
      CutIs(n / 0x100, count - 1);
      var p := Pow2(8 * count - 8);
      Pow2Add(8, 8 * count - 8);
      assert Pow2(4) == 16 && Pow2(8) == 0x100;
      hide Pow2, Cut;
      CutLow(n, p);
    }
  }

  lemma CutLow(n: nat, p: nat)
    requires p > 0
    ensures n % 0x100 + 0x100 * (n / 0x100 % p) == n % (0x100 * p)
  {
    var q, r := n / 0x100 / p, n / 0x100 % p;
    assert n / 0x100 == p * q + r;
    assert n == (0x100 * p) * q + (0x100 * r + n % 0x100);
    DivUnique(n, 0x100 * p, q, 0x100 * r + n % 0x100);
  }

  lemma EightBytes(n: nat)
    ensures FromBytes(LengthBytes(n)) == Cut(n, 8)
  {
    var s := LengthBytes(n);
    var n1, n2 := n / 0x100, n / 0x1_0000;
    assert n1 / 0x100 == n2 && n2 / 0x100 == n / 0x100_0000;
    assert n / 0x100_0000 / 0x100 == n / 0x1_0000_0000 && n / 0x1_0000_0000 / 0x100 == n / 0x100_0000_0000;
    assert n / 0x100_0000_0000 / 0x100 == n / 0x1_0000_0000_0000;
    assert n / 0x1_0000_0000_0000 / 0x100 == n / 0x100_0000_0000_0000;
    EightIs(s);
    FourIs(s[4..]);
    CutEight(n);
    hide FromBytes, Cut, LengthBytes;
  }

  lemma EightIs(s: seq<int>)
    requires |s| == 8
    ensures FromBytes(s) == s[0] + 0x100 * (s[1] + 0x100 * (s[2] + 0x100 * (s[3] + 0x100 * FromBytes(s[4..]))))
  {
    assert s[1..][1..] == s[2..] && s[2..][1..] == s[3..] && s[3..][1..] == s[4..];
    assert FromBytes(s[3..]) == s[3] + 0x100 * FromBytes(s[4..]);
    assert FromBytes(s[2..]) == s[2] + 0x100 * FromBytes(s[3..]);
  }

  lemma CutEight(n: nat)
    ensures Cut(n, 8) == n % 0x100 + 0x100 * (n / 0x100 % 0x100 + 0x100 * (n / 0x100 / 0x100 % 0x100
                         + 0x100 * (n / 0x100 / 0x100 / 0x100 % 0x100 + 0x100 * Cut(n / 0x100 / 0x100 / 0x100 / 0x100, 4))))
    ensures var m := n / 0x100 / 0x100 / 0x100 / 0x100;
            Cut(m, 4) == m % 0x100 + 0x100 * (m / 0x100 % 0x100 + 0x100 * (m / 0x100 / 0x100 % 0x100
                         + 0x100 * (m / 0x100 / 0x100 / 0x100 % 0x100)))
  {
    CutFour(n, 8);
    CutFour(n / 0x100 / 0x100 / 0x100 / 0x100, 4);
    NothingCut(n / 0x100 / 0x100 / 0x100 / 0x100 / 0x100 / 0x100 / 0x100 / 0x100);
    hide Cut;
  }

  lemma NothingCut(n: nat)
    ensures Cut(n, 0) == 0
  {
  }

  lemma CutFour(n: nat, count: nat)
    requires count >= 4
    ensures Cut(n, count) == n % 0x100 + 0x100 * (n / 0x100 % 0x100 + 0x100 * (n / 0x100 / 0x100 % 0x100
                             + 0x100 * (n / 0x100 / 0x100 / 0x100 % 0x100
                                        + 0x100 * Cut(n / 0x100 / 0x100 / 0x100 / 0x100, count - 4))))
  {
    var n1, n2, n3 := n / 0x100, n / 0x100 / 0x100, n / 0x100 / 0x100 / 0x100;
    assert Cut(n3, count - 3) == n3 % 0x100 + 0x100 * Cut(n3 / 0x100, count - 4);
    assert Cut(n2, count - 2) == n2 % 0x100 + 0x100 * Cut(n3, count - 3);
    assert Cut(n1, count - 1) == n1 % 0x100 + 0x100 * Cut(n2, count - 2);
  }

  lemma Pow2Of64()
    ensures Pow2(64) == 0x1_0000_0000_0000_0000
  {
    Pow2Of32();
    Pow2Add(32, 32);
  }

  /** What a hexadecimal digit stands for. */
  function DigitValue(c: char): int {
    if '0' <= c <= '9' then c as int - '0' as int
    else if 'a' <= c <= 'f' then c as int - 'a' as int + 10
    else -1
  }

  /** Two digits are a byte, the upper half first. */
  lemma HexByteMeans(b: nat)
    requires b < 0x100
    ensures var s := HexByte(b);
            |s| == 2 && DigitValue(s[0]) >= 0 && DigitValue(s[1]) >= 0 && 16 * DigitValue(s[0]) + DigitValue(s[1]) == b
  {
    HexDigitMeans(b / 16);
    HexDigitMeans(b % 16);
    hide HexDigit, DigitValue;
  }

  lemma HexDigitMeans(d: nat)
    requires d < 16
    ensures DigitValue(HexDigit(d)) == d
  {
    assert d == 0 || d == 1 || d == 2 || d == 3 || d == 4 || d == 5 || d == 6 || d == 7
        || d == 8 || d == 9 || d == 10 || d == 11 || d == 12 || d == 13 || d == 14 || d == 15;
  }

  /** Text of digits as bytes. */
  function ReadBytes(s: string): seq<int> {
    if |s| < 2 then [] else [16 * DigitValue(s[0]) + DigitValue(s[1])] + ReadBytes(s[2..])
  }

  /** The text of a word reads back as its four bytes, the least significant first. */
  lemma HexWordMeans(w: Word)
    ensures var r := ReadBytes(HexWord(w));
            |HexWord(w)| == 8 && |r| == 4 && (forall i :: 0 <= i < 4 ==> 0 <= r[i] < 0x100) && FromBytes(r) == Value(w)
  {
    var a, b, c, d := w[24..], w[16..24], w[8..16], w[..8];
    HexWordReads(w);
    hide *;
    WordOctets(w);
    FourOctets(a, b, c, d);
    OctetBound(a);
    OctetBound(b);
    OctetBound(c);
    OctetBound(d);
    FourIs([Value(a), Value(b), Value(c), Value(d)]);
  }

  lemma WordOctets(w: Word)
    ensures w == w[..8] + w[8..16] + w[16..24] + w[24..]
  {
  }

  lemma HexWordReads(w: Word)
    ensures |HexWord(w)| == 8 && ReadBytes(HexWord(w)) == [Value(w[24..]), Value(w[16..24]), Value(w[8..16]), Value(w[..8])]
  {
    hide Value, HexByte, DigitValue, ReadBytes;
    OctetReads(w[24..]);
    OctetReads(w[16..24]);
    OctetReads(w[8..16]);
    OctetReads(w[..8]);
    FourPairs(HexByte(Value(w[24..])), HexByte(Value(w[16..24])), HexByte(Value(w[8..16])), HexByte(Value(w[..8])));
  }

  lemma OctetReads(a: seq<Bit>)
    requires |a| == 8
    ensures var s := HexByte(Value(a)); |s| == 2 && 16 * DigitValue(s[0]) + DigitValue(s[1]) == Value(a)
  {
    OctetBound(a);
    HexByteMeans(Value(a));
  }

  lemma OctetBound(a: seq<Bit>)
    requires |a| == 8
    ensures Value(a) < 0x100
  {
    assert Pow2(4) == 16 && Pow2(8) == 0x100;
    ValueBound(a);
  }

  lemma FourPairs(a: string, b: string, c: string, d: string)
    requires |a| == |b| == |c| == |d| == 2
    ensures ReadBytes(a + b + c + d) == [16 * DigitValue(a[0]) + DigitValue(a[1]), 16 * DigitValue(b[0]) + DigitValue(b[1]),
                                         16 * DigitValue(c[0]) + DigitValue(c[1]), 16 * DigitValue(d[0]) + DigitValue(d[1])]
  {
    hide *;
    ReadsOn(a + b + c, d);
    ReadsOn(a + b, c);
    ReadsOn(a, b);
    PairReads(a);
    PairReads(b);
    PairReads(c);
    PairReads(d);
  }

  lemma {:induction false} ReadsOn(s: string, t: string)
    requires |s| % 2 == 0
    ensures ReadBytes(s + t) == ReadBytes(s) + ReadBytes(t)
    decreases |s|
  {
    hide DigitValue;
    if s == "" {
      assert s + t == t;
    } else {
      assert (s + t)[2..] == s[2..] + t;
      ReadsOn(s[2..], t);
    }
  }

  lemma PairReads(s: string)
    requires |s| == 2
    ensures ReadBytes(s) == [16 * DigitValue(s[0]) + DigitValue(s[1])]
  {
    assert s[2..] == "" && ReadBytes("") == [];
    hide DigitValue;
  }

  /** The text of the digest is that of the four words in turn. */
  lemma HexMeans(h: Hash)
    ensures |Hex(h)| == 32
    ensures Hex(h)[..8] == HexWord(h.a) && Hex(h)[8..16] == HexWord(h.b)
    ensures Hex(h)[16..24] == HexWord(h.c) && Hex(h)[24..] == HexWord(h.d)
  {
    HexWordMeans(h.a);
    HexWordMeans(h.b);
    HexWordMeans(h.c);
    HexWordMeans(h.d);
    hide HexWord;
  }
}
