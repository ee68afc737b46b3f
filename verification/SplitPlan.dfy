/** How far the splitter is after each call: window positions only, without the ring's bytes. What a
    caller can rely on when a call hands out nothing, and what the sentinel needs. */
module SplitPlan {
  import opened Common
  import opened Bits
  import opened NalScan
  import opened NalUnits

  /** What does not change during a run: the ring's size, the mode, the input. */
  datatype Setting = Setting(ring: nat, codec: Codec, slices: bool, bytes: seq<Byte>) {
    function A(): nat { |Aud(codec)| }

    function Size(): nat { |bytes| }

    function Stream(): seq<Byte> { bytes + Aud(codec) }
  }

  /** The window holds the stream from consumed up to end; eof once the sentinel has been appended. */
  datatype Plan = Plan(consumed: nat, end: nat, eof: bool)

  const START := Plan(0, 0, false)

  /** Positions between two calls: the ring is never full before the end of the input. */
  predicate Sound(s: Setting, p: Plan) {
    && p.consumed <= s.Size() && p.consumed <= p.end
    && (if p.eof then p.end == s.Size() + s.A() else p.end <= s.Size() && p.end - p.consumed < s.ring)
  }

  /** Where the window ends after the next refill: up to the end of the ring or of its free area. */
  function EndAfter(s: Setting, p: Plan): nat
    requires p.consumed <= p.end && s.ring > 0
  {
    if p.eof then p.end
    else if p.end >= s.Size() then p.end + s.A()
    else p.end + Least(s.ring - (p.end - p.consumed), s.ring - p.end % s.ring, s.Size() - p.end)
  }

  function Least(a: int, b: int, c: int): nat {
    if a < 0 || b < 0 || c < 0 then 0 else Min(a, Min(b, c))
  }

  function Refilled(s: Setting, p: Plan): Plan
    requires p.consumed <= p.end && s.ring > 0
  {
    Plan(p.consumed, EndAfter(s, p), p.eof || p.end == s.Size())
  }

  /** The cut in a window, searched from behind its opening delimiter. */
  function CutIn(s: Setting, p: Plan): Cut
    requires p.end <= |s.Stream()|
  {
    Search(s.codec, s.slices, s.Stream(), p.consumed + s.A(), p.end, false)
  }

  /** The cut the next call makes. */
  function CutAfter(s: Setting, p: Plan): Cut
    requires p.consumed <= p.end && s.ring > 0 && EndAfter(s, p) <= |s.Stream()|
  {
    CutIn(s, Refilled(s, p))
  }

  /** One call. */
  function Next(s: Setting, p: Plan): Plan
    requires Sound(s, p) && s.ring > 0
  {
    EndInside(s, p);
    var n := CutAfter(s, p).at - (p.consumed + s.A());
    Plan(p.consumed + n, EndAfter(s, p), p.eof || p.end == s.Size())
  }

  lemma EndInside(s: Setting, p: Plan)
    requires Sound(s, p) && s.ring > 0
    ensures p.end <= EndAfter(s, p) <= |s.Stream()|
    ensures !p.eof && p.end < s.Size() ==> p.end < EndAfter(s, p) <= s.Size() && EndAfter(s, p) - p.consumed <= s.ring
  {
    assert p.end % s.ring < s.ring;
  }

  lemma NextIs(s: Setting, p: Plan)
    requires Sound(s, p) && s.ring > 0
    ensures EndAfter(s, p) <= |s.Stream()| && CutAfter(s, p).at >= s.A()
    ensures Next(s, p) == Plan(CutAfter(s, p).at - s.A(), Refilled(s, p).end, Refilled(s, p).eof)
  {
    EndInside(s, p);
    hide Search;
  }

  // ---------------------------------------------------------------------------------------------
  // When a call hands out nothing
  // ---------------------------------------------------------------------------------------------

  /** The bytes of t from from up to end, as far as there are three, begin a start code. */
  predicate BeginsCode(t: seq<Byte>, from: nat, end: nat)
    requires end <= |t|
  {
    && (from < end ==> t[from] == 0)
    && (from + 1 < end ==> t[from + 1] == 0)
    && (from + 2 < end ==> t[from + 2] == 1)
  }

  /** A search stays where it began exactly when all it has is the beginning of one start code and at
      most one byte behind it. */
  lemma SearchStuck(codec: Codec, slices: bool, t: seq<Byte>, from: nat, end: nat)
    requires from <= end <= |t|
    ensures Search(codec, slices, t, from, end, false).at == from <==> end - from <= 4 && BeginsCode(t, from, end)
  {
    SearchMoves(codec, slices, t, from, end);
    FindStuck(t, from, end);
  }

  lemma SearchMoves(codec: Codec, slices: bool, t: seq<Byte>, from: nat, end: nat)
    requires from <= end <= |t|
    ensures Search(codec, slices, t, from, end, false).at == from <==> Find(t, from, end) == Stopped(from)
  {
    hide Find, Nut, IsAud, IsVcl, IsFillerData;
  }

  lemma FindStuck(t: seq<Byte>, from: nat, end: nat)
    requires from <= end <= |t|
    ensures Find(t, from, end) == Stopped(from) <==> end - from <= 4 && BeginsCode(t, from, end)
  {
    if end - from <= 4 {
      FindShort(t, from, end);
    }
  }

  lemma FindShort(t: seq<Byte>, from: nat, end: nat)
    requires from <= end <= |t| && end - from <= 4
    ensures Find(t, from, end) == Stopped(from) <==> BeginsCode(t, from, end)
  {
    assert Find(t, from, end) == FindFrom(t, from, 0, end);
    if from < end && t[from] == 0 {
      assert FindFrom(t, from, 0, end) == FindFrom(t, from + 1, 1, end);
      if from + 1 < end && t[from + 1] == 0 {
        assert FindFrom(t, from + 1, 1, end) == FindFrom(t, from + 2, 2, end);
        if from + 2 < end && t[from + 2] != 1 {
          StopsLater(t, from + 3, if t[from + 2] == 0 then 3 else 0, end);
        }
      } else if from + 1 < end {
        StopsLater(t, from + 2, 0, end);
      }
    } else if from < end {
      StopsLater(t, from + 1, 0, end);
    }
  }

  lemma {:induction false} StopsLater(t: seq<Byte>, cur: nat, zeros: nat, end: nat)
    requires cur <= end <= |t| && zeros <= cur
    ensures FindFrom(t, cur, zeros, end).Stopped? ==> FindFrom(t, cur, zeros, end).at + Min(zeros, 2) >= cur
    decreases end - cur
  {
  }

  /** A call hands out nothing exactly when the refilled window ends before the search position, or at
      most four bytes behind it with the beginning of a start code in between. */
  lemma EmptyCall(s: Setting, p: Plan)
    requires Sound(s, p) && s.ring > 0
    ensures EndAfter(s, p) <= |s.Stream()|
    ensures var from, end := p.consumed + s.A(), EndAfter(s, p);
            Next(s, p).consumed == p.consumed <==>
            end <= from || (end - from <= 4 && BeginsCode(s.Stream(), from, end))
  {
    EndInside(s, p);
    hide BeginsCode, Search;
    var from, end := p.consumed + s.A(), EndAfter(s, p);
    if from <= end {
      SearchStuck(s.codec, s.slices, s.Stream(), from, end);
    } else {
      assert CutAfter(s, p).at == from;
    }
  }

  // ---------------------------------------------------------------------------------------------
  // Runs
  // ---------------------------------------------------------------------------------------------

  predicate RingEnough(s: Setting) {
    s.ring >= s.A() + 5
  }

  lemma NextSound(s: Setting, p: Plan)
    requires Sound(s, p) && RingEnough(s)
    ensures Sound(s, Next(s, p)) && p.consumed <= Next(s, p).consumed && p.end <= Next(s, p).end
    ensures EndAfter(s, p) - p.consumed <= s.ring || EndAfter(s, p) > s.Size()
  {
    EndInside(s, p);
    hide Search;
  }

  /** The positions after n calls. */
  function Run(s: Setting, n: nat): (p: Plan)
    requires RingEnough(s)
    ensures Sound(s, p)
  {
    if n == 0 then START
    else
      NextSound(s, Run(s, n - 1));
      Next(s, Run(s, n - 1))
  }

  /** Before the input is read up the window was full, so at least half of it is left when a call hands
      out no more than half of the ring, or it ends where the ring ends. */
  predicate Steady(s: Setting, p: Plan)
    requires s.ring > 0
  {
    !p.eof && p.end < s.Size() ==> p.end % s.ring == 0 || 2 * (p.end - p.consumed) >= s.ring
  }

  lemma ToRingEnd(x: nat, n: nat)
    requires n > 0
    ensures (x + (n - x % n)) % n == 0
  {
    assert x == n * (x / n) + x % n;
    assert x + (n - x % n) == n * (x / n + 1);
    DivUnique(x + (n - x % n), n, x / n + 1, 0);
  }

  lemma NextSteady(s: Setting, p: Plan)
    requires Sound(s, p) && RingEnough(s) && Steady(s, p)
    requires 2 * (Next(s, p).consumed - p.consumed) <= s.ring
    ensures Steady(s, Next(s, p))
  {
    EndInside(s, p);
    ToRingEnd(p.end, s.ring);
    hide Search;
  }

  /** The first n calls hand out no more than half of the ring each: the output buffer has half its size. */
  predicate HalfRing(s: Setting, n: nat)
    requires RingEnough(s)
    decreases n
  {
    n == 0 || (HalfRing(s, n - 1) && 2 * (Run(s, n).consumed - Run(s, n - 1).consumed) <= s.ring)
  }

  lemma {:induction false} RunSteady(s: Setting, n: nat)
    requires RingEnough(s) && HalfRing(s, n)
    ensures Steady(s, Run(s, n))
    decreases n
  {
    hide Next;
    if n > 0 {
      RunSteady(s, n - 1);
      NextSteady(s, Run(s, n - 1));
    }
  }

  /** A call that hands out nothing has read all the input there is, and fewer bytes than a delimiter and
      five more are left. */
  lemma EmptyMeansRead(s: Setting, p: Plan)
    requires s.ring >= 2 * (s.A() + 4) && Sound(s, p) && Steady(s, p)
    requires Next(s, p).consumed == p.consumed && p.consumed < s.Size()
    ensures !p.eof && EndAfter(s, p) == s.Size() && s.Size() - p.consumed < s.A() + 5
  {
    EndInside(s, p);
    EmptyCall(s, p);
    EmptyHasMore(s, p);
    hide Search, BeginsCode, Next;
  }

  /** Each of the first n calls hands out something, and no more than half of the ring. */
  predicate GoesOn(s: Setting, n: nat)
    requires RingEnough(s)
  {
    HalfRing(s, n) && forall k :: 0 <= k < n ==> Run(s, k + 1).consumed > Run(s, k).consumed
  }

  /** The next one is the first that hands out nothing. */
  predicate StopsAt(s: Setting, n: nat)
    requires RingEnough(s)
  {
    GoesOn(s, n) && Run(s, n + 1).consumed == Run(s, n).consumed
  }

  /** For every run: the first empty call comes when nothing but a few last bytes is left. The decoder's
      reader stops there. */
  lemma StopsNearEnd(s: Setting, n: nat)
    requires s.ring >= 2 * (s.A() + 4) && HalfRing(s, n)
    requires Run(s, n + 1).consumed == Run(s, n).consumed
    ensures s.Size() - Run(s, n).consumed < s.A() + 5
    ensures Run(s, n).consumed < s.Size() ==> Run(s, n + 1).end == s.Size()
  {
    RunSteady(s, n);
    hide Next, Search;
    assert Run(s, n + 1) == Next(s, Run(s, n));
    if Run(s, n).consumed < s.Size() {
      EmptyMeansRead(s, Run(s, n));
      NextEnd(s, Run(s, n));
    }
  }

  /** The call after k reads the last byte and hands out nothing. */
  predicate LastCallEmpty(s: Setting, k: nat)
    requires RingEnough(s)
  {
    Run(s, k).end < s.Size() == Run(s, k + 1).end && Run(s, k + 1).consumed == Run(s, k).consumed
  }

  /** Something is lost exactly when the call that reads the last byte hands out nothing: it is the one
      at which the reader stops. */
  lemma LosesExactly(s: Setting, n: nat)
    requires s.ring >= 2 * (s.A() + 4) && StopsAt(s, n)
    ensures Run(s, n).consumed < s.Size() <==> Run(s, n).end < s.Size()
    ensures Run(s, n).consumed < s.Size() <==> exists k :: LastCallEmpty(s, k)
  {
    assert RingEnough(s);
    hide *;
    if Run(s, n).consumed < s.Size() {
      LosesLast(s, n);
    }
    if Run(s, n).end < s.Size() {
      EndBehind(s, n);
    }
    if k: nat :| LastCallEmpty(s, k) {
      LosesBehind(s, n, k);
    }
  }

  lemma EndBehind(s: Setting, n: nat)
    requires RingEnough(s)
    ensures Run(s, n).consumed <= Run(s, n).end
  {
    hide Run;
  }

  lemma LosesLast(s: Setting, n: nat)
    requires s.ring >= 2 * (s.A() + 4) && StopsAt(s, n) && Run(s, n).consumed < s.Size()
    ensures Run(s, n).end < s.Size() && LastCallEmpty(s, n)
  {
    RunSteady(s, n);
    RunNext(s, n);
    hide Next, HalfRing, Run, Steady, Sound;
    EmptyMeansRead(s, Run(s, n));
    EmptyHasMore(s, Run(s, n));
    NextEnd(s, Run(s, n));
  }

  lemma LosesBehind(s: Setting, n: nat, k: nat)
    requires RingEnough(s) && StopsAt(s, n) && LastCallEmpty(s, k)
    ensures Run(s, n).consumed < s.Size()
  {
    hide HalfRing, Run;
    if k >= n {
      EndsGrow(s, n, k);
    }
  }

  /** With the file read up a call hands out something as long as there is something. */
  lemma EmptyHasMore(s: Setting, p: Plan)
    requires Sound(s, p) && s.ring > 0 && Next(s, p).consumed == p.consumed < s.Size()
    ensures !p.eof && p.end < s.Size()
  {
    EndInside(s, p);
    EmptyCall(s, p);
    if p.eof || p.end == s.Size() {
      SentinelProgress(s.codec, s.slices, s.bytes, p.consumed + s.A());
      assert false;
    }
    hide Search, BeginsCode;
  }

  lemma {:induction false} EndsGrow(s: Setting, n: nat, k: nat)
    requires RingEnough(s) && n <= k
    ensures Run(s, n).end <= Run(s, k).end
    decreases k
  {
    hide Next, Run, Sound;
    if n < k {
      EndsGrow(s, n, k - 1);
      RunNext(s, k - 1);
      NextSound(s, Run(s, k - 1));
    }
  }

  /** A file that fits in the ring: its bytes say whether the reader gets it all. */
  lemma SmallFileKept(s: Setting, n: nat)
    requires s.ring >= 2 * (s.A() + 4) && StopsAt(s, n) && s.Size() <= s.ring
    ensures Run(s, n).consumed == s.Size() <==>
            s.Size() == 0 || (s.Size() > s.A() && !(s.Size() <= s.A() + 4 && BeginsCode(s.bytes, s.A(), s.Size())))
  {
    LosesExactly(s, n);
    FirstCall(s);
    hide HalfRing, Run, BeginsCode;
    if n > 0 {
      EndsGrow(s, 1, n);
    }
  }

  /** The first call reads such a file, and its bytes say whether it hands out nothing. */
  lemma FirstCall(s: Setting)
    requires RingEnough(s) && s.Size() <= s.ring
    ensures Run(s, 0) == START && Run(s, 1).end == (if s.Size() == 0 then s.A() else s.Size())
    ensures s.Size() > 0 ==>
              (Run(s, 1).consumed == 0 <==>
               s.Size() <= s.A() || (s.Size() <= s.A() + 4 && BeginsCode(s.bytes, s.A(), s.Size())))
  {
    RunNone(s);
    RunNext(s, 0);
    EmptyCall(s, START);
    NextEnd(s, START);
    SameBeginning(s);
    hide Next, Search, Run, BeginsCode, Setting.Stream;
  }

  lemma SameBeginning(s: Setting)
    ensures s.Size() <= |s.Stream()|
    ensures BeginsCode(s.bytes, s.A(), s.Size()) <==> BeginsCode(s.Stream(), s.A(), s.Size())
  {
  }

  lemma NextEnd(s: Setting, p: Plan)
    requires Sound(s, p) && s.ring > 0
    ensures Next(s, p).end == EndAfter(s, p) && Next(s, p).eof == (p.eof || p.end == s.Size())
  {
  }

  /** A file no longer than a delimiter is never decoded: its first call hands out nothing. */
  lemma ShortFile(s: Setting)
    requires RingEnough(s) && 0 < s.Size() <= s.A()
    ensures Run(s, 1) == Plan(0, s.Size(), false)
  {
    EmptyCall(s, START);
    hide Search;
    assert Run(s, 1) == Next(s, Run(s, 0));
  }

  /** For instance three bytes. */
  lemma ThreeBytes(s: Setting)
    requires s == Setting(16, AVC, false, [7, 7, 7])
    ensures RingEnough(s) && Run(s, 1) == Plan(0, 3, false)
  {
    ShortFile(s);
  }

  // ---------------------------------------------------------------------------------------------
  // The last frame
  // ---------------------------------------------------------------------------------------------

  /** Frame mode, with the sentinel in the window, and no header cut by the end of the input: a call marks
      the end of a frame exactly when its search begins inside the input. The last frame is so ended too;
      a call behind it, for what the sentinel kept back, marks nothing. */
  lemma MarksAtEnd(s: Setting, p: Plan)
    requires Sound(s, p) && RingEnough(s) && !s.slices && (p.eof || p.end == s.Size()) && !CutsHeader(s.codec, s.bytes)
    ensures EndAfter(s, p) <= |s.Stream()|
    ensures CutAfter(s, p).endOfFrame <==> p.consumed + s.A() <= s.Size()
  {
    EndInside(s, p);
    if p.consumed + s.A() <= s.Size() {
      LastFrameEnds(s.codec, s.bytes, p.consumed + s.A());
    } else {
      NoFrameBehind(s.codec, s.bytes, p.consumed + s.A());
    }
    hide Search, CutsHeader;
  }

  // ---------------------------------------------------------------------------------------------
  // The bound on the ring is tight
  // ---------------------------------------------------------------------------------------------

  /** Three delimiters, then the beginning of a unit. */
  function TightByte(i: nat): Byte {
    if i == 10 || i == 18 || i == 26 || i == 30 then 1
    else if i == 8 || i == 9 || i == 16 || i == 17 || i == 24 || i == 25 || i == 28 || i == 29 then 0
    else if i == 11 || i == 19 || i == 27 then 9
    else 7
  }

  const TIGHT := Setting(16, AVC, false, seq(33, i requires 0 <= i < 33 => TightByte(i)))

  /** The search finds the first start code. */
  lemma FindAt(t: seq<Byte>, from: nat, end: nat, p: nat)
    requires end <= |t| && from + 3 <= p && p + 1 < end && StartCode(t, p)
    requires forall q :: from + 3 <= q < p ==> !StartCode(t, q)
    ensures Find(t, from, end) == Found(p)
  {
    FindsFirst(t, from, from, 0, end);
    assert Find(t, from, end) == FindFrom(t, from, 0, end);
    hide FindFrom, Find;
  }

  /** A delimiter is where the search ends. */
  lemma TightCut(from: nat, end: nat, p: nat)
    requires (p == 11 || p == 19 || p == 27) && from + 3 <= p && p < from + 11 && p + 1 < end <= 33
    ensures end <= |TIGHT.Stream()| && Search(AVC, false, TIGHT.Stream(), from, end, false).at == p + 1
  {
    var t := TIGHT.Stream();
    forall i | 0 <= i < 33
      ensures t[i] == TightByte(i)
    {
      assert t[i] == TIGHT.bytes[i];
    }
    assert StartCode(t, p);
    forall q | from + 3 <= q < p
      ensures !StartCode(t, q)
    {
      assert t[q - 1] == TightByte(q - 1);
    }
    FindAt(t, from, end, p);
    assert t[p] == 9;
    hide Find;
  }

  /** A ring two bytes smaller can leave the reader with input it has not even read: 33 bytes, ring of
      16, at most 8 bytes a call; the fourth call hands out nothing after 32 bytes were read. */
  lemma SmallerRingStops()
    ensures TIGHT.ring == 2 * (TIGHT.A() + 3) && RingEnough(TIGHT) && HalfRing(TIGHT, 3)
    ensures Run(TIGHT, 3) == Plan(23, 31, false) && Run(TIGHT, 4) == Plan(23, 32, false) && TIGHT.Size() == 33
  {
    assert TIGHT.A() == 5;
    hide Search, HalfRing;
    TightRun();
    TightHalf();
  }

  lemma TightRun()
    ensures TIGHT.A() == 5
    ensures Run(TIGHT, 1) == Plan(7, 16, false) && Run(TIGHT, 2) == Plan(15, 23, false)
    ensures Run(TIGHT, 3) == Plan(23, 31, false) && Run(TIGHT, 4) == Plan(23, 32, false)
  {
    assert TIGHT.A() == 5;
    TightStep(START, 16, 11);
    TightStep(Plan(7, 16, false), 23, 19);
    TightStep(Plan(15, 23, false), 31, 27);
    TightEmpty();
    hide Next;
    assert Run(TIGHT, 1) == Next(TIGHT, Run(TIGHT, 0));
    assert Run(TIGHT, 2) == Next(TIGHT, Run(TIGHT, 1));
    assert Run(TIGHT, 3) == Next(TIGHT, Run(TIGHT, 2));
    assert Run(TIGHT, 4) == Next(TIGHT, Run(TIGHT, 3));
  }

  lemma TightStep(p: Plan, end: nat, nut: nat)
    requires p.consumed <= p.end < p.consumed + 16 && p.end < 33 && !p.eof
    requires end == p.end + Least(16 - (p.end - p.consumed), 16 - p.end % 16, 33 - p.end)
    requires (nut == 11 || nut == 19 || nut == 27) && p.consumed + 8 <= nut < p.consumed + 16 && nut + 1 < end <= 33
    ensures Sound(TIGHT, p) && Next(TIGHT, p) == Plan(nut - 4, end, false)
  {
    hide Search, Next, TightByte, Setting.Stream;
    assert TIGHT.A() == 5 && TIGHT.Size() == 33;
    assert EndAfter(TIGHT, p) == end;
    TightCut(p.consumed + 5, end, nut);
    NextIs(TIGHT, p);
  }

  lemma TightEmpty()
    ensures Sound(TIGHT, Plan(23, 31, false)) && Next(TIGHT, Plan(23, 31, false)) == Plan(23, 32, false)
  {
    var p := Plan(23, 31, false);
    assert TIGHT.A() == 5 && TIGHT.Size() == 33;
    EmptyCall(TIGHT, p);
    assert EndAfter(TIGHT, p) == 32;
    var t := TIGHT.Stream();
    assert t[28] == TIGHT.bytes[28] && t[29] == TIGHT.bytes[29] && t[30] == TIGHT.bytes[30];
    hide Search;
  }

  lemma TightHalf()
    ensures RingEnough(TIGHT) && HalfRing(TIGHT, 3)
  {
    TightRun();
    hide Run;
    assert Run(TIGHT, 0).consumed == 0 by {
      RunNone(TIGHT);
    }
    assert HalfRing(TIGHT, 0) && HalfRing(TIGHT, 1) && HalfRing(TIGHT, 2);
  }

  lemma RunNone(s: Setting)
    requires RingEnough(s)
    ensures Run(s, 0) == START
  {
  }

  // ---------------------------------------------------------------------------------------------
  // What the sentinel needs
  // ---------------------------------------------------------------------------------------------

  /** The next call appends the sentinel, and it would run over the end of the ring. */
  predicate Wraps(s: Setting, p: Plan)
    requires s.ring > 0
  {
    !p.eof && p.end == s.Size() && p.end % s.ring + s.A() > s.ring
  }

  /** The next call appends the sentinel, and it would run into the window. */
  predicate Overlaps(s: Setting, p: Plan) {
    !p.eof && p.end == s.Size() && p.end - p.consumed + s.A() > s.ring
  }

  /** Each call before the end of the input reads something, so some call finds nothing more to read. */
  lemma {:induction false} ReadsUp(s: Setting, n: nat) returns (k: nat)
    requires RingEnough(s) && !Run(s, n).eof
    ensures !Run(s, k).eof && Run(s, k).end == s.Size()
    decreases s.Size() - Run(s, n).end
  {
    if Run(s, n).end == s.Size() {
      k := n;
    } else {
      EndInside(s, Run(s, n));
      NextEnd(s, Run(s, n));
      assert Run(s, n + 1) == Next(s, Run(s, n));
      hide Next;
      k := ReadsUp(s, n + 1);
    }
  }

  /** The sentinel runs over the end of the ring at some call exactly when the input's length leaves less
      than its own size before the end of the ring. */
  lemma WrapsExactly(s: Setting)
    requires RingEnough(s)
    ensures (exists n :: Wraps(s, Run(s, n))) <==> s.Size() % s.ring + s.A() > s.ring
  {
    RunNone(s);
    var k := ReadsUp(s, 0);
    hide Run;
    if s.Size() % s.ring + s.A() > s.ring {
      assert Wraps(s, Run(s, k));
    }
  }

  /** At from a start code begins whose unit, with its header before end, ends a search at once. */
  predicate CutAtOnce(s: Setting, from: nat, end: nat)
    requires end <= |s.Stream()|
  {
    && from + 4 < end && StartCode(s.Stream(), from + 3)
    && var nut := Nut(s.codec, s.Stream()[from + 3]);
       IsAud(s.codec, nut) || (s.slices && IsVcl(s.codec, nut))
  }

  /** A search that is not cut ends at most four bytes before its end, and no cut comes before the first
      place a header can be. */
  lemma SearchFar(codec: Codec, slices: bool, t: seq<Byte>, from: nat, end: nat, curNonVcl: bool)
    requires from <= end <= |t|
    ensures var at := Search(codec, slices, t, from, end, curNonVcl).at;
            at + 4 >= end || at >= from + 3 + HeaderLength(codec)
  {
    hide Find, Nut, IsAud, IsVcl, IsFillerData, HeaderLength, Search;
    if Find(t, from, end).Stopped? {
      SearchStopped(codec, slices, t, from, end, curNonVcl);
    } else {
      FoundAhead(codec, t, from, end);
      SearchFound(codec, slices, t, from, end, curNonVcl);
    }
  }

  lemma SearchAtOnce(s: Setting, from: nat, end: nat)
    requires from <= end <= |s.Stream()|
    ensures var at, first := Search(s.codec, s.slices, s.Stream(), from, end, false).at, from + 3 + HeaderLength(s.codec);
            (CutAtOnce(s, from, end) ==> at == first) && (at == first && at + 4 < end ==> CutAtOnce(s, from, end))
  {
    var t := s.Stream();
    FindsFirst(t, from, from, 0, end);
    assert Find(t, from, end) == FindFrom(t, from, 0, end);
    hide Find, FindFrom, Nut, IsAud, IsVcl, IsFillerData, HeaderLength, Search;
    if Find(t, from, end).Stopped? {
      SearchStopped(s.codec, s.slices, t, from, end, false);
    } else {
      FoundAhead(s.codec, t, from, end);
      SearchFound(s.codec, s.slices, t, from, end, false);
    }
  }

  /** In a ring that holds two delimiters and four bytes more, the sentinel runs into the window exactly
      when the window was full as the last byte was read, and at once behind the delimiter that opens it
      came the start code of a unit that ends a search. */
  lemma OverlapsExactly(s: Setting, p: Plan)
    requires s.ring >= 2 * s.A() + 4
    requires Sound(s, p) && !p.eof && p.end < s.Size() && EndAfter(s, p) == s.Size()
    ensures Overlaps(s, Next(s, p)) <==>
              s.Size() - p.consumed == s.ring && CutAtOnce(s, p.consumed + s.A(), s.Size())
  {
    EndInside(s, p);
    NextIs(s, p);
    hide Search, CutAtOnce, Next;
    var from, end := p.consumed + s.A(), s.Size();
    assert CutAfter(s, p) == Search(s.codec, s.slices, s.Stream(), from, end, false);
    if from <= end {
      SearchFar(s.codec, s.slices, s.Stream(), from, end, false);
      SearchAtOnce(s, from, end);
    }
    hide EndAfter, Setting.Stream;
  }

  /** The next call reads the last byte, into a window that is full then. */
  predicate FillsUp(s: Setting, p: Plan)
    requires p.consumed <= p.end && s.ring > 0
  {
    !p.eof && p.end < s.Size() && EndAfter(s, p) == s.Size() && s.Size() - p.consumed == s.ring
  }

  /** A call that finds the window in the sentinel's way comes behind one that filled it. */
  lemma OverlapsBehind(s: Setting, n: nat)
    requires s.ring >= 2 * s.A() + 4 && Overlaps(s, Run(s, n))
    ensures n > 0 && FillsUp(s, Run(s, n - 1)) && CutAtOnce(s, s.Size() - s.ring + s.A(), s.Size())
  {
    hide Next, CutAtOnce;
    if n > 0 {
      assert Run(s, n) == Next(s, Run(s, n - 1));
      NextEnd(s, Run(s, n - 1));
      EndInside(s, Run(s, n - 1));
      OverlapsExactly(s, Run(s, n - 1));
    }
  }

  /** Over a whole run: the sentinel runs into the window at some call exactly when the bytes as far from
      the end of the file as the ring is long, less a delimiter, end a search at once, and some call reads
      the last byte into a window of just those bytes. */
  lemma OverlapsSomewhere(s: Setting)
    requires s.ring >= 2 * s.A() + 4
    ensures (exists n :: Overlaps(s, Run(s, n))) <==>
            && s.Size() >= s.ring && CutAtOnce(s, s.Size() - s.ring + s.A(), s.Size())
            && exists n :: FillsUp(s, Run(s, n))
  {
    hide Next, CutAtOnce, Run;
    if n: nat :| Overlaps(s, Run(s, n)) {
      OverlapsBehind(s, n);
      assert FillsUp(s, Run(s, n - 1));
    }
    if n: nat :| FillsUp(s, Run(s, n)) {
      if s.Size() >= s.ring && CutAtOnce(s, s.Size() - s.ring + s.A(), s.Size()) {
        OverlapsExactly(s, Run(s, n));
        RunNext(s, n);
        assert Overlaps(s, Run(s, n + 1));
      }
    }
  }

  lemma RunNext(s: Setting, n: nat)
    requires RingEnough(s)
    ensures Run(s, n + 1) == Next(s, Run(s, n))
  {
    hide Next;
  }

  /** So the bytes alone can show before the first call that the sentinel always has room. */
  lemma AlwaysRoom(s: Setting)
    requires s.ring >= 2 * s.A() + 4
    requires s.Size() >= s.ring ==> !CutAtOnce(s, s.Size() - s.ring + s.A(), s.Size())
    ensures forall n :: !Overlaps(s, Run(s, n))
  {
    hide Next, CutAtOnce, Run;
    OverlapsSomewhere(s);
  }

  /** For a file that fits in the ring they decide it. */
  lemma SmallFileOverlaps(s: Setting)
    requires s.ring >= 2 * s.A() + 4 && s.Size() <= s.ring
    ensures (exists n :: Overlaps(s, Run(s, n))) <==> s.Size() == s.ring && CutAtOnce(s, s.A(), s.Size())
  {
    hide Next, CutAtOnce, Run;
    OverlapsSomewhere(s);
    RunNone(s);
    if s.Size() == s.ring {
      assert FillsUp(s, Run(s, 0));
    }
  }

  /** Every call of the run has room: in a buffer of size bytes, half the ring at most, and for the sentinel. */
  ghost predicate RunFits(s: Setting, size: nat) {
    && RingEnough(s) && 2 * size <= s.ring && s.Size() % s.ring + s.A() <= s.ring
    && forall n: nat :: Run(s, n + 1).consumed - Run(s, n).consumed <= size && !Overlaps(s, Run(s, n))
  }

  lemma FitsFrom(s: Setting, size: nat)
    requires RunFits(s, size)
    ensures RingEnough(s) && Run(s, 0) == START && GoesOn(s, 0)
  {
  }

  lemma Onwards(s: Setting, n: nat)
    requires RingEnough(s) && GoesOn(s, n) && HalfRing(s, n + 1)
    ensures HalfRing(s, n)
    ensures Run(s, n + 1).consumed > Run(s, n).consumed ==> GoesOn(s, n + 1)
    ensures Run(s, n + 1).consumed == Run(s, n).consumed ==> StopsAt(s, n)
  {
    hide Run, HalfRing;
  }

  lemma FitsNow(s: Setting, size: nat, k: nat)
    requires RunFits(s, size) && RingEnough(s) && GoesOn(s, k)
    ensures s.ring > 0 && Sound(s, Run(s, k)) && Run(s, k + 1) == Next(s, Run(s, k)) && HalfRing(s, k + 1)
    ensures !Wraps(s, Run(s, k)) && !Overlaps(s, Run(s, k))
    ensures Run(s, k).consumed <= Run(s, k + 1).consumed <= Run(s, k).consumed + size
    ensures Run(s, k + 1).consumed <= s.Size()
  {
    hide Next;
    NextSound(s, Run(s, k));
    assert Run(s, k + 1) == Next(s, Run(s, k));
  }

  /** Seven bytes in a ring of ten: the delimiter of five bytes would have to begin at offset seven. */
  lemma WrappingInput(s: Setting)
    requires s == Setting(10, AVC, false, [7, 7, 7, 7, 7, 7, 7])
    ensures RingEnough(s) && exists n :: Wraps(s, Run(s, n))
  {
    assert s.A() == 5;
    WrapsExactly(s);
  }

  /** Twenty bytes fill a ring of twenty, and a delimiter comes at once behind the five that open it. */
  lemma OverlappingInput(s: Setting)
    requires s == Setting(20, AVC, false, [7, 7, 7, 7, 7, 0, 0, 1, 9, 7, 7, 7, 7, 7, 7, 7, 7, 7, 7, 7])
    ensures s.ring >= 2 * (s.A() + 4) && s.Size() == s.ring && CutAtOnce(s, s.A(), s.Size())
    ensures Overlaps(s, Run(s, 1)) && !Wraps(s, Run(s, 1))
  {
    assert s.A() == 5 && s.Size() == 20;
    StreamBegins(s);
    DelimiterAtOnce(s.Stream());
    hide Setting.Stream;
    assert CutAtOnce(s, 5, 20);
    hide CutAtOnce, Next;
    OverlapsExactly(s, START);
    NextEnd(s, START);
    assert Run(s, 1) == Next(s, Run(s, 0));
  }

  lemma StreamBegins(s: Setting)
    ensures s.Size() <= |s.Stream()| && s.Stream()[..s.Size()] == s.bytes
  {
  }

  lemma DelimiterAtOnce(t: seq<Byte>)
    requires |t| >= 20 && t[..20] == [7, 7, 7, 7, 7, 0, 0, 1, 9, 7, 7, 7, 7, 7, 7, 7, 7, 7, 7, 7]
    ensures StartCode(t, 8) && t[8] == 9
  {
    assert t[5] == t[..20][5] && t[6] == t[..20][6] && t[7] == t[..20][7] && t[8] == t[..20][8];
  }

  /** In a ring one byte smaller no unit is needed: a start code in the last four bytes is kept. */
  lemma OverlapsWithoutUnit(s: Setting)
    requires s == Setting(13, AVC, false, [7, 7, 7, 7, 7, 7, 7, 7, 7, 0, 0, 1, 7])
    ensures s.ring == 2 * s.A() + 3 && RingEnough(s) && !CutAtOnce(s, s.A(), s.Size()) && Overlaps(s, Run(s, 1))
  {
    var t := s.Stream();
    assert s.A() == 5 && forall i :: 0 <= i < 13 ==> t[i] == s.bytes[i];
    assert FindFrom(t, 9, 0, 13) == FindFrom(t, 10, 1, 13) == FindFrom(t, 11, 2, 13) == Stopped(9);
    assert Find(t, 5, 13) == FindFrom(t, 5, 0, 13) == FindFrom(t, 6, 0, 13) == FindFrom(t, 7, 0, 13) == FindFrom(t, 8, 0, 13);
    hide Find;
    NextIs(s, START);
    assert CutAfter(s, START).at == 9;
    hide Search;
    assert Run(s, 1) == Next(s, START);
  }

  /** A ring up to four bytes larger than the delimiter gets stuck: it is full, the search stays where it
      is, and the next refill has no room. */
  lemma TooSmall(s: Setting)
    requires 0 < s.ring <= s.A() + 4 && s.Size() > s.ring
    requires s.A() <= s.ring ==> BeginsCode(s.bytes, s.A(), s.ring)
    ensures EndAfter(s, START) == s.ring && s.ring <= |s.Stream()| && CutAfter(s, START).at == s.A()
  {
    EmptyCall(s, START);
    hide Search;
  }
}
