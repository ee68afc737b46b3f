/** The NAL splitter: a ring buffer refilled from a file, searched for a cut, and drained up to it. */
module SplitInput {
  import opened Common
  import opened Bits
  import opened NalScan
  import opened SplitPlan

  /** The input file and its read position. */
  class InputFile {
    const bytes: seq<Byte>
    var pos: nat

    constructor (bytes: seq<Byte>)
      ensures this.bytes == bytes && pos == 0
    {
      this.bytes := bytes;
      pos := 0;
    }

    /** istream::read followed by gcount: as many of n bytes as there are. */
    method Read(buf: array<Byte>, start: nat, n: nat) returns (got: nat)
      requires pos <= |bytes| && start + n <= buf.Length
      modifies this`pos, buf
      ensures got == Min(n, |bytes| - old(pos)) && pos == old(pos) + got
      ensures forall i :: start <= i < start + got ==> buf[i] == bytes[old(pos) + i - start]
      ensures forall i :: 0 <= i < buf.Length && !(start <= i < start + got) ==> buf[i] == old(buf[i])
    {
      got := Min(n, |bytes| - pos);
      forall i | start <= i < start + got {
        buf[i] := bytes[pos + i - start];
      }
      pos := pos + got;
    }
  }

  // ---------------------------------------------------------------------------------------------
  // The ring as a window on the stream
  // ---------------------------------------------------------------------------------------------

  /** The ring holds positions lo up to hi of t, each at its position modulo the ring's size. */
  ghost predicate RingHolds(ring: seq<Byte>, t: seq<Byte>, lo: nat, hi: nat) {
    && lo <= hi <= |t| && hi - lo <= |ring| && |ring| > 0
    && forall i :: lo <= i < hi ==> ring[i % |ring|] == t[i]
  }

  lemma ModSame(i: nat, j: nat, n: nat)
    requires n > 0 && i % n == j % n && i - n < j < i + n
    ensures i == j
  {
    var a: int, b: int := i / n, j / n;
    assert i == n * a + i % n && j == n * b + j % n;
    assert i - j == n * (a - b);
    MulAway(n, a - b);
  }

  lemma ModShift(i: nat, base: nat, n: nat)
    requires n > 0 && base % n == 0
    ensures (i + base) % n == i % n
  {
    var k := base / n;
    assert base == n * k;
    assert i + base == n * (i / n + k) + i % n;
    DivUnique(i + base, n, i / n + k, i % n);
  }

  /** Consecutive positions lie side by side until the ring wraps. */
  lemma ModRun(hi: nat, k: nat, n: nat)
    requires n > 0 && hi % n + k < n
    ensures (hi + k) % n == hi % n + k
  {
    DivUnique(hi + k, n, hi / n, hi % n + k);
  }

  /** Writing the next bytes behind the window extends it. */
  lemma RingExtend(ring: seq<Byte>, ring': seq<Byte>, t: seq<Byte>, lo: nat, hi: nat, k: nat)
    requires RingHolds(ring, t, lo, hi) && |ring'| == |ring|
    requires hi + k <= |t| && hi + k - lo <= |ring| && hi % |ring| + k <= |ring|
    requires forall p :: hi <= p < hi + k ==> ring'[hi % |ring| + (p - hi)] == t[p]
    requires forall i :: 0 <= i < |ring| && !(hi % |ring| <= i < hi % |ring| + k) ==> ring'[i] == ring[i]
    ensures RingHolds(ring', t, lo, hi + k)
  {
    var n := |ring|;
    forall i | lo <= i < hi + k
      ensures ring'[i % n] == t[i]
    {
      if i >= hi {
        ModRun(hi, i - hi, n);
      } else if hi % n <= i % n < hi % n + k {
        var j := hi + (i % n - hi % n);
        ModRun(hi, i % n - hi % n, n);
        ModSame(i, j, n);
        assert false;
      }
    }
  }

  lemma RingShrink(ring: seq<Byte>, t: seq<Byte>, lo: nat, lo': nat, hi: nat)
    requires RingHolds(ring, t, lo, hi) && lo <= lo' <= hi
    ensures RingHolds(ring, t, lo', hi)
  {
  }

  // ---------------------------------------------------------------------------------------------
  // The splitter
  // ---------------------------------------------------------------------------------------------

  /** Ring, read position, bytes handed out and units seen belong to the positions p. Conservation: bytes
      handed out, then the window, then the unread input are the input (and at the end the sentinel).
      Resumption: the units seen so far, continued by a scan from the next search position, are those of
      one scan of everything. */
  ghost predicate Belongs(s: Setting, p: Plan, ring: seq<Byte>, offset: int, pos: nat, emitted: seq<Byte>, seen: seq<Nal>) {
    && RingEnough(s) && |ring| == s.ring && p.consumed <= s.Size() && pos <= s.Size()
    && offset == p.consumed % s.ring
    && (if p.eof then pos == s.Size() && p.end == |s.Stream()| else p.end == pos)
    && emitted == s.bytes[..p.consumed]
    && RingHolds(ring, s.Stream(), p.consumed, p.end)
    && seen + Scan(s.codec, s.Stream(), p.consumed + s.A()) == Scan(s.codec, s.Stream(), s.A())
  }

  /** The sentinel has room behind the window, in one piece, whenever the next call appends it
      (WrapsExactly and OverlapsExactly say when). */
  ghost predicate SentinelFits(s: Setting, p: Plan)
    requires s.ring > 0
  {
    !Wraps(s, p) && !Overlaps(s, p)
  }

  class Splitter {
    const pBuf: array<Byte>
    const eCodec: Codec
    const bSliceCut: bool
    var iOffset: int
    var iAvailSize: int
    var bEOF: bool
    /** How many bytes have been handed out, those bytes, and the NAL units inspected so far. */
    ghost var consumed: nat
    ghost var emitted: seq<Byte>
    ghost var seen: seq<Nal>

    ghost function Settings(file: InputFile): Setting {
      Setting(pBuf.Length, eCodec, bSliceCut, file.bytes)
    }

    ghost function Where(): Plan
      requires 0 <= iAvailSize
      reads this
    {
      Plan(consumed, consumed + iAvailSize, bEOF)
    }

    /** What every call keeps. */
    ghost predicate Valid(file: InputFile)
      reads this, pBuf, file
    {
      Filled(file) && (!bEOF ==> iAvailSize < pBuf.Length)
    }

    ghost predicate Filled(file: InputFile)
      reads this, pBuf, file
    {
      0 <= iAvailSize && Belongs(Settings(file), Where(), pBuf[..], iOffset, file.pos, emitted, seen)
    }

    lemma ValidSound(file: InputFile)
      requires Valid(file)
      ensures 0 <= iAvailSize && RingEnough(Settings(file)) && Sound(Settings(file), Where())
    {
      hide RingHolds, Scan;
    }

    /** A ring of twice the buffer size, which must hold five bytes more than a delimiter (TooSmall). */
    constructor (iSize: nat, eCodec: Codec, bSliceCut: bool, ghost file: InputFile)
      requires 2 * iSize >= |Aud(eCodec)| + 5 && file.pos == 0
      ensures Valid(file) && Where() == START && emitted == [] && seen == []
      ensures Settings(file) == Setting(2 * iSize, eCodec, bSliceCut, file.bytes) && fresh(pBuf)
    {
      pBuf := new Byte[2 * iSize](_ => 0);
      this.eCodec := eCodec;
      this.bSliceCut := bSliceCut;
      iOffset, iAvailSize, bEOF := 0, 0, false;
      consumed, emitted, seen := 0, [], [];
      new;
      assert [] + Scan(eCodec, file.bytes + Aud(eCodec), |Aud(eCodec)|) == Scan(eCodec, file.bytes + Aud(eCodec), |Aud(eCodec)|);
      hide Scan;
    }

    /** The start-code search in the ring; base is how far ring offsets lie behind stream positions. */
    method FindNextStartCode(offset: int, avail: int, cur: nat, ghost t: seq<Byte>, ghost base: nat)
        returns (found: bool, next: nat)
      requires pBuf.Length > 0 && base % pBuf.Length == 0 && 0 <= offset + avail && offset + avail + base <= |t|
      requires forall i :: cur + base <= i < offset + avail + base ==> pBuf[i % pBuf.Length] == t[i]
      ensures var r := Find(t, cur + base, offset + avail + base);
              found == r.Found? && next + base == r.at
    {
      hide Find, FindFrom;
      var iNumZeros: nat := 0;
      var uCur, uEnd := cur, offset + avail;
      ghost var whole := Find(t, cur + base, uEnd + base);
      FindStart(t, cur + base, uEnd + base);
      while true
        invariant cur <= uCur && cur + iNumZeros <= uCur
        invariant FindFrom(t, uCur + base, iNumZeros, uEnd + base) == whole
        decreases uEnd - uCur
      {
        FindStep(t, uCur + base, iNumZeros, uEnd + base);
        if uCur >= uEnd {
          next := uCur - Min(iNumZeros, 2);
          return false, next;
        }
        ModShift(uCur, base, pBuf.Length);
        var uRead := pBuf[uCur % pBuf.Length];
        uCur := uCur + 1;
        if uRead == 1 && iNumZeros >= 2 {
          break;
        }
        if uRead == 0 {
          iNumZeros := iNumZeros + 1;
        } else {
          iNumZeros := 0;
        }
      }
      if uCur + 1 >= uEnd {
        next := uCur - Min(iNumZeros, 2) - 1;
        return false, next;
      }
      return true, uCur;
    }

    /** The next cut in a window given by ring offset and available size, as a count of bytes. */
    method SearchStartCodes(offset: nat, avail: int, ghost t: seq<Byte>, ghost base: nat)
        returns (numBytes: int, endOfFrame: bool, ghost units: seq<Nal>)
      requires pBuf.Length > 0 && base % pBuf.Length == 0 && 0 <= offset + avail && offset + avail + base <= |t|
      requires forall i :: offset + base <= i < offset + avail + base ==> pBuf[i % pBuf.Length] == t[i]
      ensures numBytes == Search(eCodec, bSliceCut, t, offset + base, offset + avail + base, false).at - (offset + base)
      ensures endOfFrame == Search(eCodec, bSliceCut, t, offset + base, offset + avail + base, false).endOfFrame
      ensures units == Search(eCodec, bSliceCut, t, offset + base, offset + avail + base, false).seen
    {
      hide Find, Search, Nut, IsAud, IsVcl, IsFillerData;
      ghost var end: nat := offset + avail + base;
      ghost var whole := Search(eCodec, bSliceCut, t, offset + base, end, false);
      var iOff: nat := offset;
      var bCurNonVcl := false;
      endOfFrame := false;
      units := [];
      while true
        invariant offset <= iOff
        invariant whole == Onward(units, endOfFrame, Search(eCodec, bSliceCut, t, iOff + base, end, bCurNonVcl))
        decreases end - (iOff + base)
      {
        var found, next := FindNextStartCode(offset, avail, iOff, t, base);
        SearchStep(eCodec, bSliceCut, t, iOff + base, end, bCurNonVcl);
        if !found {
          iOff := next;
          break;
        }
        ModShift(next, base, pBuf.Length);
        var nut := Nut(eCodec, pBuf[next % pBuf.Length]);
        ghost var nal := Nal(next + base, nut);
        ghost var rest := Search(eCodec, bSliceCut, t, next + base + HeaderLength(eCodec), end, !(bSliceCut && IsVcl(eCodec, nut)));
        OnwardStep(units, endOfFrame, nal, bSliceCut && IsFillerData(eCodec, nut), rest);
        units := units + [nal];
        iOff := next + HeaderLength(eCodec);
        if IsAud(eCodec, nut) {
          endOfFrame := true;
          break;
        }
        if bSliceCut && IsFillerData(eCodec, nut) {
          endOfFrame := true;
        }
        if bSliceCut && IsVcl(eCodec, nut) {
          if !bCurNonVcl {
            break;
          }
          bCurNonVcl := false;
        } else {
          bCurNonVcl := true;
        }
      }
      numBytes := iOff - offset;
    }

    /** Refills the ring, or appends the sentinel when nothing more comes. */
    method Refill(file: InputFile)
      requires Valid(file) && Sound(Settings(file), Where()) && SentinelFits(Settings(file), Where())
      modifies this`iAvailSize, this`bEOF, pBuf, file`pos
      ensures Filled(file) && Where() == old(Refilled(Settings(file), Where()))
    {
      hide Scan, RingHolds, Aud, Belongs;
      ghost var s, p, ring := Settings(file), Where(), pBuf[..];
      ghost var pos := file.pos;
      assert Belongs(s, p, ring, iOffset, pos, emitted, seen);
      if !bEOF {
        BelongsReads(s, p, ring, iOffset, pos, emitted, seen);
        var start := (iOffset + iAvailSize) % pBuf.Length;
        var freeArea := pBuf.Length - iAvailSize;
        var readable := Min(freeArea, pBuf.Length - start);
        var size := file.Read(pBuf, start, readable);
        BelongsMore(s, p, ring, pBuf[..], iOffset, pos, emitted, seen, size);
        iAvailSize := iAvailSize + size;
        if size == 0 {
          assert pBuf[..] == ring;
          AppendSentinel(file, start);
        }
      }
    }

    /** The copy of the delimiter behind the window. */
    method AppendSentinel(file: InputFile, start: nat)
      requires Filled(file) && !bEOF && file.pos == |file.bytes| && start == file.pos % pBuf.Length
      requires SentinelFits(Settings(file), Where())
      modifies this`iAvailSize, this`bEOF, pBuf
      ensures Filled(file) && bEOF && iAvailSize == old(iAvailSize) + |Aud(eCodec)|
    {
      ghost var s, p, ring := Settings(file), Where(), pBuf[..];
      assert Belongs(s, p, ring, iOffset, file.pos, emitted, seen);
      hide Scan, RingHolds, Belongs, Aud;
      var pAUD := Aud(eCodec);
      bEOF := true;
      assert start + |pAUD| <= pBuf.Length;
      forall i | start <= i < start + |pAUD| {
        pBuf[i] := pAUD[i - start];
      }
      BelongsSentinel(s, p, ring, pBuf[..], iOffset, file.pos, emitted, seen);
      iAvailSize := iAvailSize + |pAUD|;
    }

    /** Copies the first n bytes of the window out of the ring, in two pieces when it wraps. */
    method CopyOut(pOut: array<Byte>, n: nat, ghost t: seq<Byte>)
      requires pOut != pBuf && n <= pOut.Length && n <= iAvailSize
      requires RingHolds(pBuf[..], t, consumed, consumed + iAvailSize) && iOffset == consumed % pBuf.Length
      modifies pOut
      ensures consumed + n <= |t| && pOut[..n] == t[consumed..consumed + n]
    {
      if iOffset + n > pBuf.Length {
        var firstPart := pBuf.Length - iOffset;
        forall i | 0 <= i < firstPart {
          pOut[i] := pBuf[iOffset + i];
        }
        forall i | firstPart <= i < n {
          pOut[i] := pBuf[i - firstPart];
        }
      } else {
        forall i | 0 <= i < n {
          pOut[i] := pBuf[iOffset + i];
        }
      }
      CopiedOut(pBuf[..], t, consumed, consumed + iAvailSize, pOut[..n]);
    }

    /** One call: refill, find the cut, hand out the bytes up to it. The loop of the source is left on
        its first pass, as the search stops at least a delimiter before the end of the window. */
    method ReadStream(file: InputFile, pOut: array<Byte>) returns (n: nat, endOfFrame: bool, ghost cut: Cut)
      requires Valid(file) && Sound(Settings(file), Where()) && SentinelFits(Settings(file), Where()) && pOut != pBuf
      requires Next(Settings(file), Where()).consumed - consumed <= pOut.Length
      modifies this`iOffset, this`iAvailSize, this`bEOF, this`consumed, this`emitted, this`seen, pBuf, file`pos, pOut
      ensures Valid(file) && Where() == old(Next(Settings(file), Where())) && consumed == old(consumed) + n
      ensures n <= pOut.Length && pOut[..n] == file.bytes[old(consumed)..consumed]
      ensures emitted == old(emitted) + pOut[..n] && seen == old(seen) + cut.seen
      ensures old(EndAfter(Settings(file), Where()) <= |Settings(file).Stream()|)
      ensures cut == old(CutAfter(Settings(file), Where())) && (endOfFrame <==> cut.endOfFrame)
      ensures bEOF ==> (n == 0 <==> old(consumed) == |file.bytes|)
    {
      ghost var s, p := Settings(file), Where();
      ValidSound(file);
      EndInside(s, p);
      cut := CutAfter(s, p);
      CutProperties(s, p);
      NextIs(s, p);
      hide Splitter.Valid, Splitter.Filled, CutIn, Aud, Refilled, EndAfter, Next, Cuts, Sound, SentinelFits;
      if bEOF && iAvailSize == |Aud(eCodec)| {
        NothingLeft(s, p);
        assert pOut[..0] == [] && emitted + [] == emitted && seen + [] == seen;
        return 0, false, cut;
      }
      Refill(file);
      ghost var units;
      n, endOfFrame, units := FindCut(file);
      Deliver(file, pOut, n, cut);
    }

    /** The decoder's reader: calls until one hands out nothing, which it takes for the end of the input.
        By then all but fewer bytes than a delimiter and five more have been handed out; something is
        lost exactly when the call that read the last byte handed out nothing. */
    method ReadInput(file: InputFile, pOut: array<Byte>) returns (ghost calls: nat)
      requires Valid(file) && Where() == START && emitted == [] && pOut != pBuf
      requires RunFits(Settings(file), pOut.Length) && pBuf.Length >= 2 * (Settings(file).A() + 4)
      modifies this`iOffset, this`iAvailSize, this`bEOF, this`consumed, this`emitted, this`seen, pBuf, file`pos, pOut
      ensures Valid(file) && emitted == file.bytes[..consumed] && consumed <= |file.bytes|
      ensures |file.bytes| - consumed < Settings(file).A() + 5
      ensures consumed < |file.bytes| ==> file.pos == |file.bytes|
      ensures var s := Settings(file);
              && StopsAt(s, calls) && consumed == Run(s, calls).consumed
              && (consumed < |file.bytes| <==> exists k :: LastCallEmpty(s, k))
    {
      hide Splitter.Valid, Run, Next, HalfRing, RunFits, GoesOn, StopsAt, LastCallEmpty, Sound, Aud;
      ghost var s := Settings(file);
      calls := 0;
      FitsFrom(s, pOut.Length);
      while true
        invariant Valid(file) && 0 <= iAvailSize && Where() == Run(s, calls) && GoesOn(s, calls)
        decreases s.Size() - Run(s, calls).consumed
      {
        FitsNow(s, pOut.Length, calls);
        Onwards(s, calls);
        var n, endOfFrame, cut := ReadStream(file, pOut);
        Ended(file);
        if n == 0 {
          StopsNearEnd(s, calls);
          LosesExactly(s, calls);
          break;
        }
        calls := calls + 1;
      }
    }

    lemma Ended(file: InputFile)
      requires Valid(file)
      ensures 0 <= iAvailSize && emitted == file.bytes[..consumed] && consumed <= |file.bytes|
      ensures Where() == Plan(consumed, consumed + iAvailSize, bEOF)
      ensures Where().end >= |file.bytes| ==> file.pos == |file.bytes|
    {
      hide Scan, RingHolds;
    }

    /** Searches the filled ring from behind the delimiter that opens the window. */
    method FindCut(file: InputFile) returns (numBytes: int, endOfFrame: bool, ghost units: seq<Nal>)
      requires Filled(file)
      ensures Where().end <= |Settings(file).Stream()|
      ensures var s, p := Settings(file), Where();
              numBytes == CutIn(s, p).at - (p.consumed + s.A()) && endOfFrame == CutIn(s, p).endOfFrame && units == CutIn(s, p).seen
    {
      hide Scan, Search, RingHolds, Aud;
      ghost var t, base := file.bytes + Aud(eCodec), consumed - iOffset;
      var iNalAudSize := |Aud(eCodec)|;
      WindowBase(consumed, pBuf.Length);
      WindowBytes(pBuf[..], t, consumed, consumed + iAvailSize, iNalAudSize);
      numBytes, endOfFrame, units := SearchStartCodes(iOffset + iNalAudSize, iAvailSize - iNalAudSize, t, base);
    }

    /** Hands out the bytes up to the cut. */
    method Deliver(file: InputFile, pOut: array<Byte>, n: int, ghost cut: Cut)
      requires Filled(file) && pOut != pBuf && 0 <= n <= pOut.Length
      requires Cuts(Settings(file), Where(), cut) && n == cut.at - (consumed + Settings(file).A())
      modifies this`iOffset, this`iAvailSize, this`consumed, this`emitted, this`seen, pOut
      ensures Valid(file) && Where() == old(Plan(consumed + n, consumed + iAvailSize, bEOF))
      ensures seen == old(seen) + cut.seen
      ensures pOut[..n] == file.bytes[old(consumed)..consumed] && emitted == old(emitted) + pOut[..n]
    {
      hide Scan, RingHolds, Belongs, Cuts, Setting.A, Setting.Stream, Splitter.Valid, Splitter.Filled;
      FilledIs(file);
      ghost var s, p, ring := Settings(file), Where(), pBuf[..];
      BelongsWindow(s, p, ring, iOffset, file.pos, emitted, seen);
      CutsWithin(s, p, cut);
      CopyOut(pOut, n, s.Stream());
      assert pBuf[..] == ring;
      BelongsLess(s, p, ring, iOffset, file.pos, emitted, seen, cut, pOut[..n]);
      Advance(file, n, pOut[..n], cut.seen);
    }

    lemma FilledIs(file: InputFile)
      requires Filled(file)
      ensures 0 <= iAvailSize && Belongs(Settings(file), Where(), pBuf[..], iOffset, file.pos, emitted, seen)
    {
      hide Belongs;
    }

    /** The window and the record of what was handed out and seen move on together. */
    method Advance(file: InputFile, n: nat, ghost out: seq<Byte>, ghost units: seq<Nal>)
      requires n <= iAvailSize && pBuf.Length > 0 && (!bEOF ==> iAvailSize - n < pBuf.Length)
      requires Belongs(Settings(file), Plan(consumed + n, consumed + iAvailSize, bEOF), pBuf[..], (iOffset + n) % pBuf.Length,
                       file.pos, emitted + out, seen + units)
      modifies this`iOffset, this`iAvailSize, this`consumed, this`emitted, this`seen
      ensures Valid(file) && Where() == old(Plan(consumed + n, consumed + iAvailSize, bEOF))
      ensures seen == old(seen) + units && emitted == old(emitted) + out
    {
      hide Belongs;
      iAvailSize := iAvailSize - n;
      iOffset := (iOffset + n) % pBuf.Length;
      consumed := consumed + n;
      emitted := emitted + out;
      seen := seen + units;
    }

    /** The end: when only the sentinel is left the whole input has been handed out, the sentinel has
        not, and every NAL unit of one scan of input and sentinel has been inspected exactly once. */
    lemma Complete(file: InputFile)
      requires Valid(file) && bEOF && iAvailSize == |Aud(eCodec)|
      ensures emitted == file.bytes
      ensures seen == Scan(eCodec, file.bytes + Aud(eCodec), |Aud(eCodec)|)
    {
      hide RingHolds;
      var t := file.bytes + Aud(eCodec);
      ScanEnd(eCodec, t);
      assert consumed + |Aud(eCodec)| == |t|;
      assert seen + [] == seen;
      assert file.bytes[..consumed] == file.bytes;
    }

    /** A call hands out nothing exactly when the refilled window ends before the search position, or at
        most four bytes behind it with only the beginning of a start code in between. */
    lemma EmptyBeforeEnd(file: InputFile)
      requires Valid(file) && 0 <= iAvailSize && Sound(Settings(file), Where())
      ensures EndAfter(Settings(file), Where()) <= |Settings(file).Stream()|
      ensures var s := Settings(file);
              var from, end := consumed + s.A(), EndAfter(s, Where());
              Next(s, Where()).consumed == consumed <==>
              end <= from || (end - from <= 4 && BeginsCode(s.Stream(), from, end))
    {
      ValidSound(file);
      hide Splitter.Valid, Search, BeginsCode, Next, EndAfter, Aud;
      EmptyCall(Settings(file), Where());
      assert Where().consumed == consumed by {
        WhereIs();
      }
    }

    lemma WhereIs()
      requires 0 <= iAvailSize
      ensures Where() == Plan(consumed, consumed + iAvailSize, bEOF)
    {
    }
  }

  /** A cut of the window p: inside the stream, before the end of the window, further on when the ring is
      full, and with nothing missed. */
  ghost predicate Cuts(s: Setting, p: Plan, cut: Cut) {
    && p.consumed + s.A() <= cut.at <= |s.Stream()| && cut.at - s.A() < p.end
    && (!p.eof && p.end - p.consumed == s.ring ==> cut.at > p.consumed + s.A())
    && Scan(s.codec, s.Stream(), p.consumed + s.A()) == cut.seen + Scan(s.codec, s.Stream(), cut.at)
  }

  /** The cut of the next call: it lies before the end of the refilled window, further on when the window
      is full or complete, and nothing is missed. */
  lemma CutProperties(s: Setting, p: Plan)
    requires Sound(s, p) && RingEnough(s)
    ensures EndAfter(s, p) <= |s.Stream()|
    ensures Cuts(s, Refilled(s, p), CutAfter(s, p))
    ensures Refilled(s, p).eof ==> (CutAfter(s, p).at == p.consumed + s.A() <==> p.consumed == s.Size())
  {
    EndInside(s, p);
    var from, end := p.consumed + s.A(), EndAfter(s, p);
    SeenUpToCut(s, from, end);
    hide Scan, Search;
    if from < |s.Stream()| && end == |s.Stream()| {
      SentinelProgress(s.codec, s.slices, s.bytes, from);
    }
  }

  lemma SeenUpToCut(s: Setting, from: nat, end: nat)
    requires end <= |s.Stream()|
    ensures var cut := Search(s.codec, s.slices, s.Stream(), from, end, false);
            Scan(s.codec, s.Stream(), from) == cut.seen + Scan(s.codec, s.Stream(), cut.at)
  {
    var t := s.Stream();
    if from <= end {
      SearchScans(s.codec, s.slices, t, from, end, false);
    } else {
      assert Search(s.codec, s.slices, t, from, end, false).seen == [];
      assert [] + Scan(s.codec, t, from) == Scan(s.codec, t, from);
    }
    hide Scan, Search;
  }

  lemma NothingLeft(s: Setting, p: Plan)
    requires Sound(s, p) && RingEnough(s) && p.eof && p.end == p.consumed + s.A()
    ensures p.consumed == s.Size() && EndAfter(s, p) <= |s.Stream()| && Next(s, p) == p
    ensures CutAfter(s, p).seen == [] && !CutAfter(s, p).endOfFrame
  {
    EndInside(s, p);
    hide Search;
    StuckAtEnd(s.codec, s.slices, s.Stream());
  }

  lemma StuckAtEnd(codec: Codec, slices: bool, t: seq<Byte>)
    ensures Search(codec, slices, t, |t|, |t|, false) == Cut(|t|, false, [])
  {
  }

  lemma BelongsWindow(s: Setting, p: Plan, ring: seq<Byte>, offset: int, pos: nat, emitted: seq<Byte>, seen: seq<Nal>)
    requires Belongs(s, p, ring, offset, pos, emitted, seen)
    ensures s.ring > 0 && |ring| == s.ring && RingHolds(ring, s.Stream(), p.consumed, p.end)
    ensures offset == p.consumed % s.ring && p.consumed <= p.end
  {
    hide Scan;
  }

  lemma CutsWithin(s: Setting, p: Plan, cut: Cut)
    requires Cuts(s, p, cut)
    ensures cut.at - s.A() < p.end && p.consumed + s.A() <= cut.at
  {
    hide Scan;
  }

  /** What a refill reads, before the end of the file and at it. */
  lemma BelongsReads(s: Setting, p: Plan, ring: seq<Byte>, offset: int, pos: nat, emitted: seq<Byte>, seen: seq<Nal>)
    requires Belongs(s, p, ring, offset, pos, emitted, seen) && Sound(s, p) && !p.eof
    ensures p.end == pos <= s.Size() && 0 < s.ring && p.end - p.consumed < s.ring
    ensures 0 <= offset && (offset + (p.end - p.consumed)) % s.ring == pos % s.ring < s.ring
    ensures EndAfter(s, p) == if pos == s.Size() then pos + s.A()
                              else pos + Min(Min(s.ring - (p.end - p.consumed), s.ring - pos % s.ring), s.Size() - pos)
  {
    SameOffset(p.consumed, p.end - p.consumed, s.ring);
    hide RingHolds, Scan;
  }

  lemma BelongsMore(s: Setting, p: Plan, ring: seq<Byte>, ring': seq<Byte>, offset: int, pos: nat, emitted: seq<Byte>,
                    seen: seq<Nal>, k: nat)
    requires Belongs(s, p, ring, offset, pos, emitted, seen) && !p.eof && |ring'| == |ring| == s.ring > 0
    requires pos + k <= s.Size() && pos + k - p.consumed <= s.ring && pos % s.ring + k <= s.ring
    requires forall i :: pos % s.ring <= i < pos % s.ring + k ==> ring'[i] == s.bytes[pos + i - pos % s.ring]
    requires forall i :: 0 <= i < s.ring && !(pos % s.ring <= i < pos % s.ring + k) ==> ring'[i] == ring[i]
    ensures Belongs(s, Plan(p.consumed, pos + k, false), ring', offset, pos + k, emitted, seen)
  {
    hide RingHolds, Scan;
    BelongsWindow(s, p, ring, offset, pos, emitted, seen);
    var t, c := s.Stream(), pos % s.ring;
    forall i | pos <= i < pos + k
      ensures ring'[c + (i - pos)] == t[i]
    {
      var j := c + (i - pos);
      assert ring'[j] == s.bytes[pos + j - c];
    }
    RingExtend(ring, ring', t, p.consumed, pos, k);
  }

  lemma BelongsSentinel(s: Setting, p: Plan, ring: seq<Byte>, ring': seq<Byte>, offset: int, pos: nat, emitted: seq<Byte>,
                        seen: seq<Nal>)
    requires Belongs(s, p, ring, offset, pos, emitted, seen) && !p.eof && pos == s.Size() && |ring'| == |ring| == s.ring > 0
    requires SentinelFits(s, p)
    requires forall i :: pos % s.ring <= i < pos % s.ring + s.A() ==> ring'[i] == Aud(s.codec)[i - pos % s.ring]
    requires forall i :: 0 <= i < s.ring && !(pos % s.ring <= i < pos % s.ring + s.A()) ==> ring'[i] == ring[i]
    ensures Belongs(s, Plan(p.consumed, pos + s.A(), true), ring', offset, pos, emitted, seen)
  {
    BelongsWindow(s, p, ring, offset, pos, emitted, seen);
    assert p.end == pos && |s.Stream()| == pos + s.A();
    RingSentinel(s, p.consumed, ring, ring');
    hide RingHolds, Scan, Aud;
  }

  lemma RingSentinel(s: Setting, lo: nat, ring: seq<Byte>, ring': seq<Byte>)
    requires RingHolds(ring, s.Stream(), lo, s.Size()) && |ring'| == |ring| == s.ring > 0
    requires s.Size() % s.ring + s.A() <= s.ring && s.Size() - lo + s.A() <= s.ring
    requires forall i :: s.Size() % s.ring <= i < s.Size() % s.ring + s.A() ==> ring'[i] == Aud(s.codec)[i - s.Size() % s.ring]
    requires forall i :: 0 <= i < s.ring && !(s.Size() % s.ring <= i < s.Size() % s.ring + s.A()) ==> ring'[i] == ring[i]
    ensures RingHolds(ring', s.Stream(), lo, s.Size() + s.A())
  {
    hide Aud;
    var t, c, pos := s.Stream(), s.Size() % s.ring, s.Size();
    forall i | pos <= i < pos + s.A()
      ensures ring'[c + (i - pos)] == t[i]
    {
      var j := c + (i - pos);
      assert ring'[j] == Aud(s.codec)[j - c];
    }
    RingExtend(ring, ring', t, lo, pos, s.A());
  }

  lemma BelongsLess(s: Setting, p: Plan, ring: seq<Byte>, offset: int, pos: nat, emitted: seq<Byte>, seen: seq<Nal>,
                    cut: Cut, bytes: seq<Byte>)
    requires Belongs(s, p, ring, offset, pos, emitted, seen) && Cuts(s, p, cut)
    requires var n := cut.at - (p.consumed + s.A());
             p.consumed + n <= |s.Stream()| && bytes == s.Stream()[p.consumed..p.consumed + n]
    ensures var n := cut.at - (p.consumed + s.A());
            && 0 <= n && s.ring > 0 && p.consumed + n <= s.Size() && bytes == s.bytes[p.consumed..p.consumed + n]
            && Belongs(s, Plan(p.consumed + n, p.end, p.eof), ring, (offset + n) % s.ring, pos, emitted + bytes, seen + cut.seen)
            && (!p.eof ==> p.end - (p.consumed + n) < s.ring)
  {
    hide RingHolds, Scan, Aud;
    var n, t := cut.at - (p.consumed + s.A()), s.Stream();
    BelongsWindow(s, p, ring, offset, pos, emitted, seen);
    RingShrink(ring, t, p.consumed, p.consumed + n, p.end);
    RingSize(ring, t, p.consumed, p.end);
    SameOffset(p.consumed, n, s.ring);
    SeenOnward(s.codec, t, seen, cut.seen, p.consumed + s.A(), cut.at, Scan(s.codec, t, s.A()));
    HandedOut(s.bytes, Aud(s.codec), p.consumed, n);
  }

  /** Bytes taken from the offset on, then from the beginning of the ring, are the stream's. */
  lemma CopiedOut(ring: seq<Byte>, t: seq<Byte>, lo: nat, hi: nat, out: seq<Byte>)
    requires RingHolds(ring, t, lo, hi) && |out| <= hi - lo
    requires forall i :: 0 <= i < |out| ==>
               var j := lo % |ring| + i; out[i] == if j < |ring| then ring[j] else ring[j - |ring|]
    ensures lo + |out| <= |t| && out == t[lo..lo + |out|]
  {
    forall i | 0 <= i < |out|
      ensures out[i] == t[lo + i]
    {
      assert ring[(lo + i) % |ring|] == t[lo + i];
      if lo % |ring| + i < |ring| {
        ModRun(lo, i, |ring|);
      } else {
        ModWrap(lo, i, |ring|);
      }
    }
  }

  lemma RingSize(ring: seq<Byte>, t: seq<Byte>, lo: nat, hi: nat)
    requires RingHolds(ring, t, lo, hi)
    ensures hi - lo <= |ring|
  {
  }

  lemma HandedOut(bytes: seq<Byte>, aud: seq<Byte>, c: nat, n: nat)
    requires c + n <= |bytes|
    ensures (bytes + aud)[c..c + n] == bytes[c..c + n]
    ensures bytes[..c] + bytes[c..c + n] == bytes[..c + n]
  {
  }

  lemma ModWrap(c: nat, i: nat, n: nat)
    requires 0 < n <= c % n + i && i < n
    ensures (c + i) % n == c % n + i - n
  {
    assert c == n * (c / n) + c % n;
    assert c + i == n * (c / n + 1) + (c % n + i - n);
    DivUnique(c + i, n, c / n + 1, c % n + i - n);
  }

  lemma WindowBase(c: nat, n: nat)
    requires n > 0
    ensures c - c % n >= 0 && (c - c % n) % n == 0
  {
    assert c == n * (c / n) + c % n;
    DivUnique(c - c % n, n, c / n, 0);
  }

  lemma WindowBytes(ring: seq<Byte>, t: seq<Byte>, lo: nat, hi: nat, a: nat)
    requires RingHolds(ring, t, lo, hi)
    ensures lo <= hi <= |t| && |ring| > 0
    ensures forall i :: lo + a <= i < hi ==> ring[i % |ring|] == t[i]
  {
  }

  lemma SeenOnward(codec: Codec, t: seq<Byte>, seen: seq<Nal>, more: seq<Nal>, from: nat, at: nat, whole: seq<Nal>)
    requires seen + Scan(codec, t, from) == whole && Scan(codec, t, from) == more + Scan(codec, t, at)
    ensures (seen + more) + Scan(codec, t, at) == whole
  {
    hide Scan;
    assert seen + (more + Scan(codec, t, at)) == (seen + more) + Scan(codec, t, at);
  }

  lemma SameOffset(lo: nat, avail: nat, n: nat)
    requires n > 0
    ensures (lo % n + avail) % n == (lo + avail) % n
  {
    assert lo == n * (lo / n) + lo % n;
    var r := lo % n + avail;
    assert lo + avail == n * (lo / n + r / n) + r % n;
    DivUnique(lo + avail, n, lo / n + r / n, r % n);
  }

  /** A cut found behind units already seen. */
  ghost function Onward(units: seq<Nal>, endOfFrame: bool, c: Cut): Cut {
    Cut(c.at, endOfFrame || c.endOfFrame, units + c.seen)
  }

  lemma OnwardStep(units: seq<Nal>, endOfFrame: bool, nal: Nal, ends: bool, rest: Cut)
    ensures Onward(units, endOfFrame, Cut(rest.at, ends || rest.endOfFrame, [nal] + rest.seen))
         == Onward(units + [nal], endOfFrame || ends, rest)
  {
    assert units + ([nal] + rest.seen) == (units + [nal]) + rest.seen;
  }

  lemma SearchStep(codec: Codec, slices: bool, t: seq<Byte>, from: nat, end: nat, curNonVcl: bool)
    requires end <= |t|
    ensures var r := Find(t, from, end);
            if r.Stopped? then Search(codec, slices, t, from, end, curNonVcl) == Cut(r.at, false, [])
            else
              var nut := Nut(codec, t[r.at]);
              var next := r.at + HeaderLength(codec);
              Search(codec, slices, t, from, end, curNonVcl) ==
              if IsAud(codec, nut) then Cut(next, true, [Nal(r.at, nut)])
              else
                var filler := slices && IsFillerData(codec, nut);
                if slices && IsVcl(codec, nut) && !curNonVcl then Cut(next, filler, [Nal(r.at, nut)])
                else
                  var rest := Search(codec, slices, t, next, end, !(slices && IsVcl(codec, nut)));
                  Cut(rest.at, filler || rest.endOfFrame, [Nal(r.at, nut)] + rest.seen)
  {
    hide Find, Nut, IsAud, IsVcl, IsFillerData;
  }

  lemma FindStep(t: seq<Byte>, cur: nat, zeros: nat, end: nat)
    requires end <= |t| && zeros <= cur
    ensures FindFrom(t, cur, zeros, end) ==
            if cur >= end then Stopped(cur - Min(zeros, 2))
            else if t[cur] == 1 && zeros >= 2 then if cur + 2 >= end then Stopped(cur - 2) else Found(cur + 1)
            else FindFrom(t, cur + 1, if t[cur] == 0 then zeros + 1 else 0, end)
  {
  }

  lemma FindStart(t: seq<Byte>, from: nat, end: nat)
    requires end <= |t|
    ensures Find(t, from, end) == FindFrom(t, from, 0, end)
  {
  }
}
