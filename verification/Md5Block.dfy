/** One block of MD5: the unrolled program against the tables of RFC 1321, section 3.4. A word is its 32
    bits, most significant first. */
module Md5Block {
  import opened Common
  import opened Bits

  type Word = w: seq<Bit> | |w| == 32 witness Repeat(0, 32)

  datatype Hash = Hash(a: Word, b: Word, c: Word, d: Word)

  function Number(n: nat): Word {
    BitsOf(32, n)
  }

  /** Addition of 32-bit words. */
  function Add(x: Word, y: Word): Word {
    Number(Value(x) + Value(y))
  }

  function Rot(x: Word, s: nat): Word
    requires s <= 32
  {
    x[s..] + x[..s]
  }

  function Bitwise(f: (Bit, Bit, Bit) -> Bit, x: Word, y: Word, z: Word): Word {
    seq(32, i requires 0 <= i < 32 => f(x[i], y[i], z[i]))
  }

  // Bits

  function And(x: Bit, y: Bit): Bit { if x == 1 then y else 0 }

  function Or(x: Bit, y: Bit): Bit { if x == 1 then 1 else y }

  function Xor(x: Bit, y: Bit): Bit { if x == y then 0 else 1 }

  function Not(x: Bit): Bit { 1 - x }

  // ---------------------------------------------------------------------------------------------
  // The standard
  // ---------------------------------------------------------------------------------------------

  function RfcF(x: Bit, y: Bit, z: Bit): Bit { Or(And(x, y), And(Not(x), z)) }

  function RfcG(x: Bit, y: Bit, z: Bit): Bit { Or(And(x, z), And(y, Not(z))) }

  function H(x: Bit, y: Bit, z: Bit): Bit { Xor(Xor(x, y), z) }

  function I(x: Bit, y: Bit, z: Bit): Bit { Xor(y, Or(x, Not(z))) }

  function Auxiliary(round: nat, x: Word, y: Word, z: Word): Word {
    if round == 0 then Bitwise(RfcF, x, y, z)
    else if round == 1 then Bitwise(RfcG, x, y, z)
    else if round == 2 then Bitwise(H, x, y, z)
    else Bitwise(I, x, y, z)
  }

  /** Which word of the block step i takes. */
  function WordIndex(i: nat): nat {
    if i < 16 then i
    else if i < 32 then (5 * i + 1) % 16
    else if i < 48 then (3 * i + 5) % 16
    else 7 * i % 16
  }

  /** By how much step i rotates. */
  function Rotation(i: nat): (s: nat)
    ensures s <= 32
  {
    var k := i % 4;
    if i < 16 then if k == 0 then 7 else if k == 1 then 12 else if k == 2 then 17 else 22
    else if i < 32 then if k == 0 then 5 else if k == 1 then 9 else if k == 2 then 14 else 20
    else if i < 48 then if k == 0 then 4 else if k == 1 then 11 else if k == 2 then 16 else 23
    else if k == 0 then 6 else if k == 1 then 10 else if k == 2 then 15 else 21
  }

  /** The table of sines, a quarter for every round. */
  function Sine(i: nat): nat {
    if i < 16 then Sine1(i) else if i < 32 then Sine2(i - 16) else if i < 48 then Sine3(i - 32) else Sine4(i - 48)
  }

  function Sine1(i: nat): nat {
    match i
    case 0 => 0xd76a_a478 case 1 => 0xe8c7_b756 case 2 => 0x2420_70db case 3 => 0xc1bd_ceee
    case 4 => 0xf57c_0faf case 5 => 0x4787_c62a case 6 => 0xa830_4613 case 7 => 0xfd46_9501
    case 8 => 0x6980_98d8 case 9 => 0x8b44_f7af case 10 => 0xffff_5bb1 case 11 => 0x895c_d7be
    case 12 => 0x6b90_1122 case 13 => 0xfd98_7193 case 14 => 0xa679_438e case 15 => 0x49b4_0821
    case _ => 0
  }

  function Sine2(i: nat): nat {
    match i
    case 0 => 0xf61e_2562 case 1 => 0xc040_b340 case 2 => 0x265e_5a51 case 3 => 0xe9b6_c7aa
    case 4 => 0xd62f_105d case 5 => 0x0244_1453 case 6 => 0xd8a1_e681 case 7 => 0xe7d3_fbc8
    case 8 => 0x21e1_cde6 case 9 => 0xc337_07d6 case 10 => 0xf4d5_0d87 case 11 => 0x455a_14ed
    case 12 => 0xa9e3_e905 case 13 => 0xfcef_a3f8 case 14 => 0x676f_02d9 case 15 => 0x8d2a_4c8a
    case _ => 0
  }

  function Sine3(i: nat): nat {
    match i
    case 0 => 0xfffa_3942 case 1 => 0x8771_f681 case 2 => 0x6d9d_6122 case 3 => 0xfde5_380c
    case 4 => 0xa4be_ea44 case 5 => 0x4bde_cfa9 case 6 => 0xf6bb_4b60 case 7 => 0xbebf_bc70
    case 8 => 0x289b_7ec6 case 9 => 0xeaa1_27fa case 10 => 0xd4ef_3085 case 11 => 0x0488_1d05
    case 12 => 0xd9d4_d039 case 13 => 0xe6db_99e5 case 14 => 0x1fa2_7cf8 case 15 => 0xc4ac_5665
    case _ => 0
  }

  function Sine4(i: nat): nat {
    match i
    case 0 => 0xf429_2244 case 1 => 0x432a_ff97 case 2 => 0xab94_23a7 case 3 => 0xfc93_a039
    case 4 => 0x655b_59c3 case 5 => 0x8f0c_cc92 case 6 => 0xffef_f47d case 7 => 0x8584_5dd1
    case 8 => 0x6fa8_7e4f case 9 => 0xfe2c_e6e0 case 10 => 0xa301_4314 case 11 => 0x4e08_11a1
    case 12 => 0xf753_7e82 case 13 => 0xbd3a_f235 case 14 => 0x2ad7_d2bb case 15 => 0xeb86_d391
    case _ => 0
  }

  /** The word of four bytes, least significant first. */
  function WordOf(block: seq<Byte>, i: nat): Word
    requires 4 * i + 4 <= |block|
  {
    BitsOf(8, block[4 * i + 3]) + BitsOf(8, block[4 * i + 2]) + BitsOf(8, block[4 * i + 1]) + BitsOf(8, block[4 * i])
  }

  function StepWord(d: Word, x: Word, y: Word, z: Word, block: seq<Byte>, i: nat): Word
    requires |block| == 64
  {
    Add(Rot(Add(Add(Add(d, Auxiliary(i / 16, x, y, z)), WordOf(block, WordIndex(i))), Number(Sine(i))), Rotation(i)), x)
  }

  /** The registers after n of the 64 steps. */
  function Steps(h: Hash, block: seq<Byte>, n: nat): Hash
    requires |block| == 64
  {
    if n == 0 then h
    else
      var s := Steps(h, block, n - 1);
      Hash(s.d, StepWord(s.a, s.b, s.c, s.d, block, n - 1), s.b, s.c)
  }

  function Compressed(h: Hash, block: seq<Byte>): Hash
    requires |block| == 64
  {
    var s := Steps(h, block, 64);
    Hash(Add(h.a, s.a), Add(h.b, s.b), Add(h.c, s.c), Add(h.d, s.d))
  }

  // ---------------------------------------------------------------------------------------------
  // The program
  // ---------------------------------------------------------------------------------------------

  function F(x: Bit, y: Bit, z: Bit): Bit { Xor(z, And(x, Xor(y, z))) }

  function G(x: Bit, y: Bit, z: Bit): Bit { Xor(y, And(z, Xor(x, y))) }

  /** One line of the unrolled program. */
  function Mix(fn: (Bit, Bit, Bit) -> Bit, d: Word, x: Word, y: Word, z: Word, w: Word, c: nat, s: nat): Word
    requires s <= 32
  {
    Add(Rot(Add(Add(Add(d, Bitwise(fn, x, y, z)), w), Number(c)), s), x)
  }

  /** The rewritten auxiliary functions are those of the standard. */
  lemma Rewritten(x: Word, y: Word, z: Word)
    ensures Bitwise(F, x, y, z) == Bitwise(RfcF, x, y, z)
    ensures Bitwise(G, x, y, z) == Bitwise(RfcG, x, y, z)
  {
    forall i | 0 <= i < 32
      ensures Bitwise(F, x, y, z)[i] == Bitwise(RfcF, x, y, z)[i]
      ensures Bitwise(G, x, y, z)[i] == Bitwise(RfcG, x, y, z)[i]
    {
      RewrittenBit(x[i], y[i], z[i]);
    }
  }

  lemma RewrittenBit(x: Bit, y: Bit, z: Bit)
    ensures F(x, y, z) == RfcF(x, y, z) && G(x, y, z) == RfcG(x, y, z)
  {
  }

  /** Line i names word k, constant c and rotation s, as the tables of the standard do. */
  ghost predicate Listed(i: nat, k: nat, c: nat, s: nat) {
    WordIndex(i) == k && Sine(i) == c && Rotation(i) == s
  }

  lemma Line(d: Word, x: Word, y: Word, z: Word, block: seq<Byte>, i: nat, k: nat, c: nat, s: nat)
    requires |block| == 64 && i < 64 && Listed(i, k, c, s)
    ensures 4 * k + 4 <= 64 && s <= 32
    ensures i / 16 == 0 ==> Mix(F, d, x, y, z, WordOf(block, k), c, s) == StepWord(d, x, y, z, block, i)
    ensures i / 16 == 1 ==> Mix(G, d, x, y, z, WordOf(block, k), c, s) == StepWord(d, x, y, z, block, i)
    ensures i / 16 == 2 ==> Mix(H, d, x, y, z, WordOf(block, k), c, s) == StepWord(d, x, y, z, block, i)
    ensures i / 16 == 3 ==> Mix(I, d, x, y, z, WordOf(block, k), c, s) == StepWord(d, x, y, z, block, i)
  {
    Rewritten(x, y, z);
    hide Bitwise, Rot, Add, Number, WordOf, Sine, Rotation;
  }

  /** Four steps bring every register back to its place. */
  lemma FourSteps(h: Hash, block: seq<Byte>, n: nat, s: Hash)
    requires |block| == 64 && s == Steps(h, block, n)
    ensures var a := StepWord(s.a, s.b, s.c, s.d, block, n);
            var d := StepWord(s.d, a, s.b, s.c, block, n + 1);
            var c := StepWord(s.c, d, a, s.b, block, n + 2);
            var b := StepWord(s.b, c, d, a, block, n + 3);
            Steps(h, block, n + 4) == Hash(a, b, c, d)
  {
    hide StepWord;
    var s1 := Steps(h, block, n + 1);
    var s2 := Steps(h, block, n + 2);
    var s3 := Steps(h, block, n + 3);
  }

  /** Round 1. */
  method Round1(ghost h: Hash, block: seq<Byte>, before: Hash) returns (after: Hash)
    requires |block| == 64 && before == Steps(h, block, 0)
    ensures after == Steps(h, block, 16)
  {
    Lines1();
    hide *;
    var a, b, c, d := before.a, before.b, before.c, before.d;
    FourSteps(h, block, 0, Hash(a, b, c, d));
    Line(a, b, c, d, block, 0, 0, 0xd76a_a478, 7);
    a := Mix(F, a, b, c, d, WordOf(block, 0), 0xd76a_a478, 7);
    Line(d, a, b, c, block, 1, 1, 0xe8c7_b756, 12);
    d := Mix(F, d, a, b, c, WordOf(block, 1), 0xe8c7_b756, 12);
    Line(c, d, a, b, block, 2, 2, 0x2420_70db, 17);
    c := Mix(F, c, d, a, b, WordOf(block, 2), 0x2420_70db, 17);
    Line(b, c, d, a, block, 3, 3, 0xc1bd_ceee, 22);
    b := Mix(F, b, c, d, a, WordOf(block, 3), 0xc1bd_ceee, 22);
    FourSteps(h, block, 4, Hash(a, b, c, d));
    Line(a, b, c, d, block, 4, 4, 0xf57c_0faf, 7);
    a := Mix(F, a, b, c, d, WordOf(block, 4), 0xf57c_0faf, 7);
    Line(d, a, b, c, block, 5, 5, 0x4787_c62a, 12);
    d := Mix(F, d, a, b, c, WordOf(block, 5), 0x4787_c62a, 12);
    Line(c, d, a, b, block, 6, 6, 0xa830_4613, 17);
    c := Mix(F, c, d, a, b, WordOf(block, 6), 0xa830_4613, 17);
    Line(b, c, d, a, block, 7, 7, 0xfd46_9501, 22);
    b := Mix(F, b, c, d, a, WordOf(block, 7), 0xfd46_9501, 22);
    FourSteps(h, block, 8, Hash(a, b, c, d));
    Line(a, b, c, d, block, 8, 8, 0x6980_98d8, 7);
    a := Mix(F, a, b, c, d, WordOf(block, 8), 0x6980_98d8, 7);
    Line(d, a, b, c, block, 9, 9, 0x8b44_f7af, 12);
    d := Mix(F, d, a, b, c, WordOf(block, 9), 0x8b44_f7af, 12);
    Line(c, d, a, b, block, 10, 10, 0xffff_5bb1, 17);
    c := Mix(F, c, d, a, b, WordOf(block, 10), 0xffff_5bb1, 17);
    Line(b, c, d, a, block, 11, 11, 0x895c_d7be, 22);
    b := Mix(F, b, c, d, a, WordOf(block, 11), 0x895c_d7be, 22);
    FourSteps(h, block, 12, Hash(a, b, c, d));
    Line(a, b, c, d, block, 12, 12, 0x6b90_1122, 7);
    a := Mix(F, a, b, c, d, WordOf(block, 12), 0x6b90_1122, 7);
    Line(d, a, b, c, block, 13, 13, 0xfd98_7193, 12);
    d := Mix(F, d, a, b, c, WordOf(block, 13), 0xfd98_7193, 12);
    Line(c, d, a, b, block, 14, 14, 0xa679_438e, 17);
    c := Mix(F, c, d, a, b, WordOf(block, 14), 0xa679_438e, 17);
    Line(b, c, d, a, block, 15, 15, 0x49b4_0821, 22);
    b := Mix(F, b, c, d, a, WordOf(block, 15), 0x49b4_0821, 22);
    after := Hash(a, b, c, d);
  }

  lemma Lines1()
    ensures Listed(0, 0, 0xd76a_a478, 7) && Listed(1, 1, 0xe8c7_b756, 12)
    ensures Listed(2, 2, 0x2420_70db, 17) && Listed(3, 3, 0xc1bd_ceee, 22)
    ensures Listed(4, 4, 0xf57c_0faf, 7) && Listed(5, 5, 0x4787_c62a, 12)
    ensures Listed(6, 6, 0xa830_4613, 17) && Listed(7, 7, 0xfd46_9501, 22)
    ensures Listed(8, 8, 0x6980_98d8, 7) && Listed(9, 9, 0x8b44_f7af, 12)
    ensures Listed(10, 10, 0xffff_5bb1, 17) && Listed(11, 11, 0x895c_d7be, 22)
    ensures Listed(12, 12, 0x6b90_1122, 7) && Listed(13, 13, 0xfd98_7193, 12)
    ensures Listed(14, 14, 0xa679_438e, 17) && Listed(15, 15, 0x49b4_0821, 22)
  {
  }

  /** Round 2. */
  method Round2(ghost h: Hash, block: seq<Byte>, before: Hash) returns (after: Hash)
    requires |block| == 64 && before == Steps(h, block, 16)
    ensures after == Steps(h, block, 32)
  {
    Lines2();
    hide *;
    var a, b, c, d := before.a, before.b, before.c, before.d;
    FourSteps(h, block, 16, Hash(a, b, c, d));
    Line(a, b, c, d, block, 16, 1, 0xf61e_2562, 5);
    a := Mix(G, a, b, c, d, WordOf(block, 1), 0xf61e_2562, 5);
    Line(d, a, b, c, block, 17, 6, 0xc040_b340, 9);
    d := Mix(G, d, a, b, c, WordOf(block, 6), 0xc040_b340, 9);
    Line(c, d, a, b, block, 18, 11, 0x265e_5a51, 14);
    c := Mix(G, c, d, a, b, WordOf(block, 11), 0x265e_5a51, 14);
    Line(b, c, d, a, block, 19, 0, 0xe9b6_c7aa, 20);
    b := Mix(G, b, c, d, a, WordOf(block, 0), 0xe9b6_c7aa, 20);
    FourSteps(h, block, 20, Hash(a, b, c, d));
    Line(a, b, c, d, block, 20, 5, 0xd62f_105d, 5);
    a := Mix(G, a, b, c, d, WordOf(block, 5), 0xd62f_105d, 5);
    Line(d, a, b, c, block, 21, 10, 0x0244_1453, 9);
    d := Mix(G, d, a, b, c, WordOf(block, 10), 0x0244_1453, 9);
    Line(c, d, a, b, block, 22, 15, 0xd8a1_e681, 14);
    c := Mix(G, c, d, a, b, WordOf(block, 15), 0xd8a1_e681, 14);
    Line(b, c, d, a, block, 23, 4, 0xe7d3_fbc8, 20);
    b := Mix(G, b, c, d, a, WordOf(block, 4), 0xe7d3_fbc8, 20);
    FourSteps(h, block, 24, Hash(a, b, c, d));
    Line(a, b, c, d, block, 24, 9, 0x21e1_cde6, 5);
    a := Mix(G, a, b, c, d, WordOf(block, 9), 0x21e1_cde6, 5);
    Line(d, a, b, c, block, 25, 14, 0xc337_07d6, 9);
    d := Mix(G, d, a, b, c, WordOf(block, 14), 0xc337_07d6, 9);
    Line(c, d, a, b, block, 26, 3, 0xf4d5_0d87, 14);
    c := Mix(G, c, d, a, b, WordOf(block, 3), 0xf4d5_0d87, 14);
    Line(b, c, d, a, block, 27, 8, 0x455a_14ed, 20);
    b := Mix(G, b, c, d, a, WordOf(block, 8), 0x455a_14ed, 20);
    FourSteps(h, block, 28, Hash(a, b, c, d));
    Line(a, b, c, d, block, 28, 13, 0xa9e3_e905, 5);
    a := Mix(G, a, b, c, d, WordOf(block, 13), 0xa9e3_e905, 5);
    Line(d, a, b, c, block, 29, 2, 0xfcef_a3f8, 9);
    d := Mix(G, d, a, b, c, WordOf(block, 2), 0xfcef_a3f8, 9);
    Line(c, d, a, b, block, 30, 7, 0x676f_02d9, 14);
    c := Mix(G, c, d, a, b, WordOf(block, 7), 0x676f_02d9, 14);
    Line(b, c, d, a, block, 31, 12, 0x8d2a_4c8a, 20);
    b := Mix(G, b, c, d, a, WordOf(block, 12), 0x8d2a_4c8a, 20);
    after := Hash(a, b, c, d);
  }

  lemma Lines2()
    ensures Listed(16, 1, 0xf61e_2562, 5) && Listed(17, 6, 0xc040_b340, 9)
    ensures Listed(18, 11, 0x265e_5a51, 14) && Listed(19, 0, 0xe9b6_c7aa, 20)
    ensures Listed(20, 5, 0xd62f_105d, 5) && Listed(21, 10, 0x0244_1453, 9)
    ensures Listed(22, 15, 0xd8a1_e681, 14) && Listed(23, 4, 0xe7d3_fbc8, 20)
    ensures Listed(24, 9, 0x21e1_cde6, 5) && Listed(25, 14, 0xc337_07d6, 9)
    ensures Listed(26, 3, 0xf4d5_0d87, 14) && Listed(27, 8, 0x455a_14ed, 20)
    ensures Listed(28, 13, 0xa9e3_e905, 5) && Listed(29, 2, 0xfcef_a3f8, 9)
    ensures Listed(30, 7, 0x676f_02d9, 14) && Listed(31, 12, 0x8d2a_4c8a, 20)
  {
  }

  /** Round 3. */
  method Round3(ghost h: Hash, block: seq<Byte>, before: Hash) returns (after: Hash)
    requires |block| == 64 && before == Steps(h, block, 32)
    ensures after == Steps(h, block, 48)
  {
    Lines3();
    hide *;
    var a, b, c, d := before.a, before.b, before.c, before.d;
    FourSteps(h, block, 32, Hash(a, b, c, d));
    Line(a, b, c, d, block, 32, 5, 0xfffa_3942, 4);
    a := Mix(H, a, b, c, d, WordOf(block, 5), 0xfffa_3942, 4);
    Line(d, a, b, c, block, 33, 8, 0x8771_f681, 11);
    d := Mix(H, d, a, b, c, WordOf(block, 8), 0x8771_f681, 11);
    Line(c, d, a, b, block, 34, 11, 0x6d9d_6122, 16);
    c := Mix(H, c, d, a, b, WordOf(block, 11), 0x6d9d_6122, 16);
    Line(b, c, d, a, block, 35, 14, 0xfde5_380c, 23);
    b := Mix(H, b, c, d, a, WordOf(block, 14), 0xfde5_380c, 23);
    FourSteps(h, block, 36, Hash(a, b, c, d));
    Line(a, b, c, d, block, 36, 1, 0xa4be_ea44, 4);
    a := Mix(H, a, b, c, d, WordOf(block, 1), 0xa4be_ea44, 4);
    Line(d, a, b, c, block, 37, 4, 0x4bde_cfa9, 11);
    d := Mix(H, d, a, b, c, WordOf(block, 4), 0x4bde_cfa9, 11);
    Line(c, d, a, b, block, 38, 7, 0xf6bb_4b60, 16);
    c := Mix(H, c, d, a, b, WordOf(block, 7), 0xf6bb_4b60, 16);
    Line(b, c, d, a, block, 39, 10, 0xbebf_bc70, 23);
    b := Mix(H, b, c, d, a, WordOf(block, 10), 0xbebf_bc70, 23);
    FourSteps(h, block, 40, Hash(a, b, c, d));
    Line(a, b, c, d, block, 40, 13, 0x289b_7ec6, 4);
    a := Mix(H, a, b, c, d, WordOf(block, 13), 0x289b_7ec6, 4);
    Line(d, a, b, c, block, 41, 0, 0xeaa1_27fa, 11);
    d := Mix(H, d, a, b, c, WordOf(block, 0), 0xeaa1_27fa, 11);
    Line(c, d, a, b, block, 42, 3, 0xd4ef_3085, 16);
    c := Mix(H, c, d, a, b, WordOf(block, 3), 0xd4ef_3085, 16);
    Line(b, c, d, a, block, 43, 6, 0x0488_1d05, 23);
    b := Mix(H, b, c, d, a, WordOf(block, 6), 0x0488_1d05, 23);
    FourSteps(h, block, 44, Hash(a, b, c, d));
    Line(a, b, c, d, block, 44, 9, 0xd9d4_d039, 4);
    a := Mix(H, a, b, c, d, WordOf(block, 9), 0xd9d4_d039, 4);
    Line(d, a, b, c, block, 45, 12, 0xe6db_99e5, 11);
    d := Mix(H, d, a, b, c, WordOf(block, 12), 0xe6db_99e5, 11);
    Line(c, d, a, b, block, 46, 15, 0x1fa2_7cf8, 16);
    c := Mix(H, c, d, a, b, WordOf(block, 15), 0x1fa2_7cf8, 16);
    Line(b, c, d, a, block, 47, 2, 0xc4ac_5665, 23);
    b := Mix(H, b, c, d, a, WordOf(block, 2), 0xc4ac_5665, 23);
    after := Hash(a, b, c, d);
  }

  lemma Lines3()
    ensures Listed(32, 5, 0xfffa_3942, 4) && Listed(33, 8, 0x8771_f681, 11)
    ensures Listed(34, 11, 0x6d9d_6122, 16) && Listed(35, 14, 0xfde5_380c, 23)
    ensures Listed(36, 1, 0xa4be_ea44, 4) && Listed(37, 4, 0x4bde_cfa9, 11)
    ensures Listed(38, 7, 0xf6bb_4b60, 16) && Listed(39, 10, 0xbebf_bc70, 23)
    ensures Listed(40, 13, 0x289b_7ec6, 4) && Listed(41, 0, 0xeaa1_27fa, 11)
    ensures Listed(42, 3, 0xd4ef_3085, 16) && Listed(43, 6, 0x0488_1d05, 23)
    ensures Listed(44, 9, 0xd9d4_d039, 4) && Listed(45, 12, 0xe6db_99e5, 11)
    ensures Listed(46, 15, 0x1fa2_7cf8, 16) && Listed(47, 2, 0xc4ac_5665, 23)
  {
  }

  /** Round 4. */
  method Round4(ghost h: Hash, block: seq<Byte>, before: Hash) returns (after: Hash)
    requires |block| == 64 && before == Steps(h, block, 48)
    ensures after == Steps(h, block, 64)
  {
    Lines4();
    hide *;
    var a, b, c, d := before.a, before.b, before.c, before.d;
    FourSteps(h, block, 48, Hash(a, b, c, d));
    Line(a, b, c, d, block, 48, 0, 0xf429_2244, 6);
    a := Mix(I, a, b, c, d, WordOf(block, 0), 0xf429_2244, 6);
    Line(d, a, b, c, block, 49, 7, 0x432a_ff97, 10);
    d := Mix(I, d, a, b, c, WordOf(block, 7), 0x432a_ff97, 10);
    Line(c, d, a, b, block, 50, 14, 0xab94_23a7, 15);
    c := Mix(I, c, d, a, b, WordOf(block, 14), 0xab94_23a7, 15);
    Line(b, c, d, a, block, 51, 5, 0xfc93_a039, 21);
    b := Mix(I, b, c, d, a, WordOf(block, 5), 0xfc93_a039, 21);
    FourSteps(h, block, 52, Hash(a, b, c, d));
    Line(a, b, c, d, block, 52, 12, 0x655b_59c3, 6);
    a := Mix(I, a, b, c, d, WordOf(block, 12), 0x655b_59c3, 6);
    Line(d, a, b, c, block, 53, 3, 0x8f0c_cc92, 10);
    d := Mix(I, d, a, b, c, WordOf(block, 3), 0x8f0c_cc92, 10);
    Line(c, d, a, b, block, 54, 10, 0xffef_f47d, 15);
    c := Mix(I, c, d, a, b, WordOf(block, 10), 0xffef_f47d, 15);
    Line(b, c, d, a, block, 55, 1, 0x8584_5dd1, 21);
    b := Mix(I, b, c, d, a, WordOf(block, 1), 0x8584_5dd1, 21);
    FourSteps(h, block, 56, Hash(a, b, c, d));
    Line(a, b, c, d, block, 56, 8, 0x6fa8_7e4f, 6);
    a := Mix(I, a, b, c, d, WordOf(block, 8), 0x6fa8_7e4f, 6);
    Line(d, a, b, c, block, 57, 15, 0xfe2c_e6e0, 10);
    d := Mix(I, d, a, b, c, WordOf(block, 15), 0xfe2c_e6e0, 10);
    Line(c, d, a, b, block, 58, 6, 0xa301_4314, 15);
    c := Mix(I, c, d, a, b, WordOf(block, 6), 0xa301_4314, 15);
    Line(b, c, d, a, block, 59, 13, 0x4e08_11a1, 21);
    b := Mix(I, b, c, d, a, WordOf(block, 13), 0x4e08_11a1, 21);
    FourSteps(h, block, 60, Hash(a, b, c, d));
    Line(a, b, c, d, block, 60, 4, 0xf753_7e82, 6);
    a := Mix(I, a, b, c, d, WordOf(block, 4), 0xf753_7e82, 6);
    Line(d, a, b, c, block, 61, 11, 0xbd3a_f235, 10);
    d := Mix(I, d, a, b, c, WordOf(block, 11), 0xbd3a_f235, 10);
    Line(c, d, a, b, block, 62, 2, 0x2ad7_d2bb, 15);
    c := Mix(I, c, d, a, b, WordOf(block, 2), 0x2ad7_d2bb, 15);
    Line(b, c, d, a, block, 63, 9, 0xeb86_d391, 21);
    b := Mix(I, b, c, d, a, WordOf(block, 9), 0xeb86_d391, 21);
    after := Hash(a, b, c, d);
  }

  lemma Lines4()
    ensures Listed(48, 0, 0xf429_2244, 6) && Listed(49, 7, 0x432a_ff97, 10)
    ensures Listed(50, 14, 0xab94_23a7, 15) && Listed(51, 5, 0xfc93_a039, 21)
    ensures Listed(52, 12, 0x655b_59c3, 6) && Listed(53, 3, 0x8f0c_cc92, 10)
    ensures Listed(54, 10, 0xffef_f47d, 15) && Listed(55, 1, 0x8584_5dd1, 21)
    ensures Listed(56, 8, 0x6fa8_7e4f, 6) && Listed(57, 15, 0xfe2c_e6e0, 10)
    ensures Listed(58, 6, 0xa301_4314, 15) && Listed(59, 13, 0x4e08_11a1, 21)
    ensures Listed(60, 4, 0xf753_7e82, 6) && Listed(61, 11, 0xbd3a_f235, 10)
    ensures Listed(62, 2, 0x2ad7_d2bb, 15) && Listed(63, 9, 0xeb86_d391, 21)
  {
  }

  method UpdateBlock(pHash: Hash, pBlock: seq<Byte>) returns (hash: Hash)
    requires |pBlock| == 64
    ensures hash == Compressed(pHash, pBlock)
  {
    hide Add, StepWord;
    StepsStart(pHash, pBlock);
    var s := Round1(pHash, pBlock, pHash);
    s := Round2(pHash, pBlock, s);
    s := Round3(pHash, pBlock, s);
    s := Round4(pHash, pBlock, s);
    hide Steps;
    hash := Hash(Add(pHash.a, s.a), Add(pHash.b, s.b), Add(pHash.c, s.c), Add(pHash.d, s.d));
  }

  lemma StepsStart(h: Hash, block: seq<Byte>)
    requires |block| == 64
    ensures Steps(h, block, 0) == h
  {
  }
}
