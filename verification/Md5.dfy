/** MD5 of a message that comes in pieces: block buffering and padding against RFC 1321. */
module Md5 {
  import opened Bits
  import opened Md5Block

  const INITIAL := Hash(Number(0x6745_2301), Number(0xefcd_ab89), Number(0x98ba_dcfe), Number(0x1032_5476))

  // ---------------------------------------------------------------------------------------------
  // RFC 1321, sections 3.1 to 3.5
  // ---------------------------------------------------------------------------------------------

  /** All blocks of s, one after the other. */
  function Folded(s: seq<Byte>): Hash
    requires |s| % 64 == 0
    decreases |s|
  {
    if s == [] then INITIAL else Compressed(Folded(s[..|s| - 64]), s[|s| - 64..])
  }

  function Zeros(n: nat): (z: seq<Byte>)
    ensures |z| == n
  {
    seq(n, _ => 0)
  }

  /** The low 64 bits of n in eight bytes, least significant first. */
  function LengthBytes(n: nat): (s: seq<Byte>)
    ensures |s| == 8
  {
    [n % 0x100, n / 0x100 % 0x100, n / 0x1_0000 % 0x100, n / 0x100_0000 % 0x100, n / 0x1_0000_0000 % 0x100,
     n / 0x100_0000_0000 % 0x100, n / 0x1_0000_0000_0000 % 0x100, n / 0x100_0000_0000_0000 % 0x100]
  }

  /** Zeros between the 0x80 and the length: the fewest that make whole blocks. */
  function PadLength(n: nat): (k: nat)
    ensures k < 64 && (n + 1 + k + 8) % 64 == 0
  {
    if n % 64 < 56 then 55 - n % 64 else 119 - n % 64
  }

  function Padded(m: seq<Byte>): (s: seq<Byte>)
    ensures |s| % 64 == 0
  {
    m + [0x80] + Zeros(PadLength(|m|)) + LengthBytes(8 * |m|)
  }

  /** The four registers as 32 hexadecimal digits, least significant byte first. */
  function Hex(h: Hash): string {
    HexWord(h.a) + HexWord(h.b) + HexWord(h.c) + HexWord(h.d)
  }

  function HexWord(w: Word): string {
    HexByte(Value(w[24..])) + HexByte(Value(w[16..24])) + HexByte(Value(w[8..16])) + HexByte(Value(w[..8]))
  }

  function HexByte(b: nat): string {
    [HexDigit(b / 16), HexDigit(b % 16)]
  }

  function HexDigit(d: nat): char {
    if d < 16 then "0123456789abcdef"[d] else '?'
  }

  function Digest(m: seq<Byte>): string {
    Hex(Folded(Padded(m)))
  }

  // ---------------------------------------------------------------------------------------------
  // Folding block by block
  // ---------------------------------------------------------------------------------------------

  lemma FoldedNext(s: seq<Byte>, block: seq<Byte>)
    requires |s| % 64 == 0 && |block| == 64
    ensures |s + block| % 64 == 0 && Folded(s + block) == Compressed(Folded(s), block)
  {
    assert (s + block)[..|s|] == s && (s + block)[|s|..] == block;
    hide Compressed;
  }

  // ---------------------------------------------------------------------------------------------
  // The object
  // ---------------------------------------------------------------------------------------------

  class CMD5 {
    var m_pHash: Hash
    var m_uNumBytes: nat
    const m_pBound: array<Byte>
    var m_uBound: nat
    ghost var message: seq<Byte>

    /** Registers and buffer stand for the message so far: done in whole blocks, then the first n bytes
        of the buffer. */
    ghost predicate Holds(done: seq<Byte>, n: nat)
      reads this`m_pHash, this`message, m_pBound
    {
      && m_pBound.Length == 64 && n <= 64 && |done| % 64 == 0
      && m_pHash == Folded(done) && message == done + m_pBound[..n]
    }

    /** Between two calls: the buffer is never full. */
    ghost predicate Valid()
      reads this, m_pBound
    {
      && m_uBound < 64 && m_uBound <= |message| && m_uNumBytes == |message|
      && Holds(message[..|message| - m_uBound], m_uBound)
    }

    constructor ()
      ensures Valid() && message == [] && fresh(m_pBound)
    {
      m_pHash, m_uNumBytes, m_uBound, message := INITIAL, 0, 0, [];
      m_pBound := new Byte[64](_ => 0);
    }

    /** A full buffer goes through the block function. */
    method Flush(ghost done: seq<Byte>) returns (ghost done': seq<Byte>)
      requires Holds(done, 64)
      modifies this`m_pHash
      ensures Holds(done', 0) && done' == message
    {
      done' := done + m_pBound[..64];
      FoldedNext(done, m_pBound[..64]);
      m_pHash := UpdateBlock(m_pHash, m_pBound[..64]);
    }

    /** Puts one byte of the message into the buffer. */
    method Put(b: Byte, ghost done: seq<Byte>)
      requires Holds(done, m_uBound) && m_uBound < 64
      modifies this`m_uBound, this`message, m_pBound
      ensures m_uBound == old(m_uBound) + 1 && message == old(message) + [b] && Holds(done, m_uBound)
    {
      hide Folded;
      m_pBound[m_uBound] := b;
      m_uBound := m_uBound + 1;
      message := message + [b];
      assert m_pBound[..m_uBound] == old(m_pBound[..m_uBound]) + [b];
    }

    /** A whole block of the message goes past the empty buffer. */
    method PutBlock(block: seq<Byte>, ghost done: seq<Byte>) returns (ghost done': seq<Byte>)
      requires |block| == 64 && Holds(done, 0)
      modifies this`m_pHash, this`message
      ensures message == old(message) + block && Holds(done', 0)
    {
      hide Folded;
      done' := done + block;
      FoldedNext(done, block);
      m_pHash := UpdateBlock(m_pHash, block);
      message := message + block;
    }

    lemma HoldsMeans(done: seq<Byte>, n: nat)
      requires Holds(done, n)
      ensures |done| + n == |message| && done == message[..|message| - n] && |done| % 64 == 0
    {
      hide Folded;
    }

    /** The next piece of the message; its size is a multiple of four. */
    method Update(pBuffer: seq<Byte>)
      requires Valid() && |pBuffer| % 4 == 0
      modifies this, m_pBound
      ensures Valid() && message == old(message) + pBuffer
    {
      hide *;
      ghost var start := message;
      ghost var done := Done();
      m_uNumBytes := m_uNumBytes + |pBuffer|;
      var i: nat;
      i, done := FillBound(pBuffer, done);
      i, done := TakeBlocks(pBuffer, i, done, start);
      while i < |pBuffer|
        invariant i <= |pBuffer| && Holds(done, m_uBound) && message == start + pBuffer[..i]
        invariant m_uBound < 64 && (i < |pBuffer| ==> m_uBound + (|pBuffer| - i) < 64)
        invariant m_uNumBytes == |start| + |pBuffer|
      {
        Put(pBuffer[i], done);
        i := i + 1;
      }
      assert pBuffer[..i] == pBuffer;
      MadeValid(done);
    }

    /** A buffer that is not empty is filled first. */
    method FillBound(pBuffer: seq<Byte>, ghost done: seq<Byte>) returns (i: nat, ghost done': seq<Byte>)
      requires m_uBound < 64 && Holds(done, m_uBound)
      modifies this`m_pHash, this`m_uBound, this`message, m_pBound
      ensures i <= |pBuffer| && m_uBound < 64 && Holds(done', m_uBound) && message == old(message) + pBuffer[..i]
      ensures i < |pBuffer| ==> m_uBound == 0
    {
      hide Folded, CMD5.Holds;
      done' := done;
      i := 0;
      if m_uBound != 0 {
        while i < |pBuffer| && m_uBound < 64
          invariant i <= |pBuffer| && m_uBound <= 64 && Holds(done, m_uBound) && message == old(message) + pBuffer[..i]
        {
          Put(pBuffer[i], done);
          i := i + 1;
        }
      }
      if m_uBound == 64 {
        done' := Flush(done);
        m_uBound := 0;
      }
    }

    /** Whole blocks go past the empty buffer. */
    method TakeBlocks(pBuffer: seq<Byte>, from: nat, ghost done: seq<Byte>, ghost start: seq<Byte>)
        returns (i: nat, ghost done': seq<Byte>)
      requires from <= |pBuffer| && m_uBound < 64 && Holds(done, m_uBound) && message == start + pBuffer[..from]
      requires from < |pBuffer| ==> m_uBound == 0
      modifies this`m_pHash, this`message
      ensures i <= |pBuffer| < i + 64 && Holds(done', m_uBound) && message == start + pBuffer[..i]
      ensures i < |pBuffer| ==> m_uBound == 0
    {
      hide Folded, CMD5.Holds;
      done' := done;
      i := from;
      while |pBuffer| - i >= 64
        invariant i <= |pBuffer| && Holds(done', m_uBound) && message == start + pBuffer[..i]
        invariant i < |pBuffer| ==> m_uBound == 0
      {
        done' := PutBlock(pBuffer[i..i + 64], done');
        assert pBuffer[..i + 64] == pBuffer[..i] + pBuffer[i..i + 64];
        i := i + 64;
      }
    }

    /** Padding, the last blocks, and the digest as text; the object is used up. */
    method GetMD5() returns (sMD5: string)
      requires Valid()
      modifies this, m_pBound
      ensures sMD5 == Digest(old(message))
    {
      hide *;
      ghost var m := message;
      ghost var done := Done();
      NoZeros();
      Put(0x80, done);
      ghost var zeros: nat := 0;
      if 64 - m_uBound < 8 {
        done, zeros := FillUp(done, m);
      }
      while m_uBound < 64 - 8
        invariant m_uBound <= 56 && Holds(done, m_uBound) && message == m + [0x80] + Zeros(zeros)
        invariant m_uNumBytes == |m| && zeros <= 7 + m_uBound && zeros < 64
      {
        Put(0, done);
        OneZero(zeros);
        zeros := zeros + 1;
      }
      HoldsMeans(done, m_uBound);
      AppendLength(done, m, zeros);
      done := Flush(done);
      HoldsIs(done);
      DigestIs(m);
      sMD5 := Hex(m_pHash);
    }

    /** No room for the length: zeros to the end of the buffer. */
    method FillUp(ghost done: seq<Byte>, ghost m: seq<Byte>) returns (ghost done': seq<Byte>, ghost zeros: nat)
      requires Holds(done, m_uBound) && 56 < m_uBound <= 64 && message == m + [0x80] + Zeros(0)
      modifies this`m_pHash, this`m_uBound, this`message, m_pBound
      ensures m_uBound == 0 && Holds(done', 0) && message == m + [0x80] + Zeros(zeros) && zeros <= 7
    {
      hide Folded, CMD5.Holds;
      zeros := 0;
      while m_uBound < 64
        invariant 56 < m_uBound <= 64 && zeros <= m_uBound - 57 && Holds(done, m_uBound)
        invariant message == m + [0x80] + Zeros(zeros)
      {
        Put(0, done);
        zeros := zeros + 1;
      }
      done' := Flush(done);
      m_uBound := 0;
    }

    /** The length in bits fills the block. */
    method AppendLength(ghost done: seq<Byte>, ghost m: seq<Byte>, ghost zeros: nat)
      requires Holds(done, 56) && m_uBound == 56 && m_uNumBytes == |m| && |done| % 64 == 0 && zeros < 64
      requires message == m + [0x80] + Zeros(zeros) && |message| == |done| + 56
      modifies this`m_uBound, this`message, m_pBound
      ensures Holds(done, 64) && message == Padded(m)
    {
      hide Folded, LengthBytes, CMD5.Holds;
      OnePadding(|m|, zeros);
      var uAppend := LengthBytes(8 * m_uNumBytes);
      ghost var front := message;
      for k := 0 to 8
        invariant m_uBound == 56 + k && Holds(done, m_uBound) && message == front + uAppend[..k]
      {
        Put(uAppend[k], done);
      }
      assert uAppend[..8] == uAppend;
    }

    lemma Done() returns (done: seq<Byte>)
      requires Valid()
      ensures Holds(done, m_uBound) && m_uBound < 64 && m_uNumBytes == |message|
    {
      hide CMD5.Holds;
      done := message[..|message| - m_uBound];
    }

    lemma MadeValid(done: seq<Byte>)
      requires Holds(done, m_uBound) && m_uBound < 64 && m_uNumBytes == |message|
      ensures Valid()
    {
      HoldsMeans(done, m_uBound);
      hide CMD5.Holds;
    }

    lemma HoldsIs(done: seq<Byte>)
      requires Holds(done, 0) && done == message
      ensures |done| % 64 == 0 && m_pHash == Folded(message)
    {
      hide Folded;
    }
  }

  lemma NoZeros()
    ensures Zeros(0) == []
  {
  }

  lemma OneZero(n: nat)
    ensures Zeros(n + 1) == Zeros(n) + [0]
  {
  }

  lemma DigestIs(m: seq<Byte>)
    ensures Digest(m) == Hex(Folded(Padded(m)))
  {
    hide Hex, Folded, Padded;
  }

  /** The number of zeros is determined by the length. */
  lemma OnePadding(n: nat, k: nat)
    requires k < 64 && (n + 1 + k + 8) % 64 == 0
    ensures k == PadLength(n)
  {
  }
}
