/** The arithmetic decoder of section 9.3.3.2 of ITU-T H.264, and the proof that it reads back
    everything the encoder wrote. */
module CabacDecoder {
  import opened Common
  import opened Bits
  import opened BitStreamLite
  import opened CabacTables
  import opened CabacAdaptation
  import opened CabacModel
  import opened Option

  datatype Decoder = Decoder(range: nat, offset: nat, pos: nat)

  /** What the parsing process asks the decoder for next. */
  datatype Request = ForContext(ctx: nat) | ForTerminate

  /** Initialisation (9.3.1.2): range 510 and nine bits of offset; None when the stream is too short. */
  function DecodeInit(stream: seq<Bit>, pos: nat): Option<Decoder> {
    if pos + 9 > |stream| then None else Some(Decoder(510, Value(stream[pos..pos + 9]), pos + 9))
  }

  /** RenormD: reads one bit for every doubling; None when the stream ends. */
  function DecodeRenorm(stream: seq<Bit>, d: Decoder): (r: Option<Decoder>)
    requires 0 < d.range < 512
    ensures r.Some? && d.range <= 508 ==> 256 <= r.value.range <= 510
    decreases 512 - d.range
  {
    if d.range >= 256 then Some(d)
    else if d.pos >= |stream| then None
    else DecodeRenorm(stream, Decoder(2 * d.range, 2 * d.offset + stream[d.pos], d.pos + 1))
  }

  /** DecodeDecision (9.3.3.2.1). */
  function DecodeDecision(stream: seq<Bit>, d: Decoder, x: Context): Option<(Bit, Decoder)>
    requires 256 <= d.range <= 510
  {
    var lps := LpsRange(x, d.range);
    var rest := d.range - lps;
    var (bin, narrowed) :=
      if d.offset >= rest then (1 - x.mps, d.(range := lps, offset := d.offset - rest))
      else (x.mps, d.(range := rest));
    match DecodeRenorm(stream, narrowed)
    case None => None
    case Some(r) => Some((bin, r))
  }

  /** DecodeTerminate (9.3.3.2.2.3): a 1 ends the parsing without renormalisation. */
  function DecodeTerminate(stream: seq<Bit>, d: Decoder): Option<(Bit, Decoder)>
    requires 256 <= d.range <= 510
  {
    var rest := d.range - 2;
    if d.offset >= rest then Some((1, d.(range := rest)))
    else
      match DecodeRenorm(stream, d.(range := rest))
      case None => None
      case Some(r) => Some((0, r))
  }

  /** The state transition process (9.3.3.2.1.1): a most probable bin moves the state up to 62 and no
      further, any other down the table, and over to the other bin from state 0. */
  function Transition(x: Context, bin: Bit): Context {
    TableSizes();
    if bin == x.mps then Context(if x.state < 62 then x.state + 1 else x.state, x.mps)
    else if x.state == 0 then Context(TRANS_IDX_LPS[0], bin)
    else Context(TRANS_IDX_LPS[x.state], x.mps)
  }

  /** The contexts of the encoder and of the decoder learn alike. */
  lemma LearnAlike(x: Context, bin: Bit)
    ensures Adapt(x, bin) == Transition(x, bin)
  {
    TableSizes();
    MpsSteps();
    hide TRANS_LPS_0, TRANS_LPS_1, TRANS_LPS_2, TRANS_LPS_3, TRANS_MPS_0, TRANS_MPS_1, TRANS_MPS_2, TRANS_MPS_3;
  }

  /** Answers a list of requests; a terminating 1 must be the last answer. */
  function Decode(stream: seq<Bit>, d: Decoder, ctxs: seq<Context>, reqs: seq<Request>)
    : Option<(seq<Bit>, Decoder, seq<Context>)>
    decreases |reqs|
  {
    if reqs == [] then Some(([], d, ctxs))
    else if !(256 <= d.range <= 510) then None
    else
      match reqs[0]
      case ForContext(i) =>
        if i >= |ctxs| then None
        else
          (match DecodeDecision(stream, d, ctxs[i])
           case None => None
           case Some((bin, d')) => Prepend(bin, Decode(stream, d', ctxs[i := Transition(ctxs[i], bin)], reqs[1..])))
      case ForTerminate =>
        (match DecodeTerminate(stream, d)
         case None => None
         case Some((bin, d')) =>
           if bin == 0 then Prepend(bin, Decode(stream, d', ctxs, reqs[1..]))
           else if |reqs| == 1 then Some(([bin], d', ctxs))
           else None)
  }

  function Prepend(bin: Bit, r: Option<(seq<Bit>, Decoder, seq<Context>)>): Option<(seq<Bit>, Decoder, seq<Context>)> {
    match r
    case None => None
    case Some((bins, d, ctxs)) => Some(([bin] + bins, d, ctxs))
  }

  function RequestFor(s: Symbol): Request {
    match s
    case Regular(i, _) => ForContext(i)
    case Terminate(_) => ForTerminate
  }

  function Requests(syms: seq<Symbol>): seq<Request> {
    if syms == [] then [] else [RequestFor(syms[0])] + Requests(syms[1..])
  }

  function Bins(syms: seq<Symbol>): seq<Bit> {
    if syms == [] then [] else [syms[0].bin] + Bins(syms[1..])
  }

  lemma {:induction false} BinsAppend(a: seq<Symbol>, b: seq<Symbol>)
    ensures Bins(a + b) == Bins(a) + Bins(b)
    ensures Requests(a + b) == Requests(a) + Requests(b)
  {
    hide *;
    if a == [] {
      BinsNone();
      assert a + b == b;
    } else {
      BinsAppend(a[1..], b);
      assert (a + b)[1..] == a[1..] + b && (a + b)[0] == a[0];
      BinsFirst(a);
      BinsFirst(a + b);
    }
  }

  lemma BinsNone()
    ensures Bins([]) == [] && Requests([]) == []
  {
  }

  lemma BinsFirst(syms: seq<Symbol>)
    requires syms != []
    ensures Bins(syms) == [syms[0].bin] + Bins(syms[1..])
    ensures Requests(syms) == [RequestFor(syms[0])] + Requests(syms[1..])
  {
  }

  // ---------------------------------------------------------------------------------------------
  // The stream seen as a number inside the encoder's interval
  // ---------------------------------------------------------------------------------------------

  /** The stream from start on, read to the precision of i, is a number in i. */
  ghost predicate Holds(stream: seq<Bit>, start: nat, i: Interval) {
    && start + 9 + i.shifts <= |stream|
    && i.low <= Value(stream[start..start + 9 + i.shifts]) < i.low + i.range
  }

  /** The decoder that has followed the encoder to interval i. */
  ghost function Tracking(stream: seq<Bit>, start: nat, i: Interval): Decoder
    requires Holds(stream, start, i)
  {
    Decoder(i.range, Value(stream[start..start + 9 + i.shifts]) - i.low, start + 9 + i.shifts)
  }

  /** If the final number lies in the renormalised interval it lay in the interval before, and the
      decoder's renormalisation keeps up. */
  lemma {:induction false} GrowHolds(stream: seq<Bit>, start: nat, i: Interval)
    requires 0 < i.range < 512 && Holds(stream, start, Grow(i))
    ensures Holds(stream, start, i)
    ensures DecodeRenorm(stream, Tracking(stream, start, i)) == Some(Tracking(stream, start, Grow(i)))
    decreases 512 - i.range
  {
    hide Holds, Tracking, Grow;
    Grown(i);
    if i.range < 256 {
      var j := Interval(2 * i.low, 2 * i.range, i.shifts + 1);
      GrowHolds(stream, start, j);
      DoubleHolds(stream, start, i);
      var d := Tracking(stream, start, i);
      assert DecodeRenorm(stream, d) == DecodeRenorm(stream, Decoder(2 * d.range, 2 * d.offset + stream[d.pos], d.pos + 1));
    } else {
      TracksRange(stream, start, i);
    }
  }

  lemma TracksRange(stream: seq<Bit>, start: nat, i: Interval)
    requires Holds(stream, start, i)
    ensures Tracking(stream, start, i).range == i.range
  {
    hide Value;
  }

  /** One doubling: one bit more. */
  lemma DoubleHolds(stream: seq<Bit>, start: nat, i: Interval)
    requires Holds(stream, start, Interval(2 * i.low, 2 * i.range, i.shifts + 1))
    ensures Holds(stream, start, i)
    ensures var d := Tracking(stream, start, i);
            && d.range == i.range && d.pos < |stream|
            && Tracking(stream, start, Interval(2 * i.low, 2 * i.range, i.shifts + 1))
               == Decoder(2 * d.range, 2 * d.offset + stream[d.pos], d.pos + 1)
  {
    var end := start + 9 + i.shifts;
    var s := stream[start..end + 1];
    assert s[..|s| - 1] == stream[start..end] && s[|s| - 1] == stream[end];
    assert Value(s) == 2 * Value(s[..|s| - 1]) + s[|s| - 1];
    hide Value;
  }

  lemma DecisionReads(stream: seq<Bit>, start: nat, i: Interval, x: Context, bin: Bit)
    requires 256 <= i.range <= 510 && Holds(stream, start, Grow(SplitBin(i, x, bin)))
    ensures Holds(stream, start, i)
    ensures DecodeDecision(stream, Tracking(stream, start, i), x)
         == Some((bin, Tracking(stream, start, Grow(SplitBin(i, x, bin)))))
  {
    hide Holds, Tracking, Grow, DecodeRenorm, SplitBin, LpsRange;
    GrowHolds(stream, start, SplitBin(i, x, bin));
    SplitReads(stream, start, i, x, bin);
  }

  /** Where the number lies in the divided interval tells the bin. */
  lemma SplitReads(stream: seq<Bit>, start: nat, i: Interval, x: Context, bin: Bit)
    requires 256 <= i.range <= 510 && Holds(stream, start, SplitBin(i, x, bin))
    ensures Holds(stream, start, i)
    ensures var d, rest := Tracking(stream, start, i), i.range - LpsRange(x, i.range);
            && d.range == i.range && (d.offset >= rest <==> bin != x.mps)
            && Tracking(stream, start, SplitBin(i, x, bin))
            == if bin == x.mps then d.(range := rest) else d.(range := LpsRange(x, i.range), offset := d.offset - rest)
  {
    hide Value, LpsRange;
  }

  lemma TerminateReads(stream: seq<Bit>, start: nat, i: Interval)
    requires 256 <= i.range <= 510 && Holds(stream, start, Grow(SplitTerminate(i, 0)))
    ensures Holds(stream, start, i)
    ensures DecodeTerminate(stream, Tracking(stream, start, i))
         == Some((0, Tracking(stream, start, Grow(SplitTerminate(i, 0)))))
  {
    GrowHolds(stream, start, SplitTerminate(i, 0));
  }

  /** Symbols after which the segment goes on. */
  ghost predicate Continuing(syms: seq<Symbol>) {
    forall i :: 0 <= i < |syms| && syms[i].Terminate? ==> syms[i].bin == 0
  }

  lemma {:induction false} NarrowHolds(stream: seq<Bit>, start: nat, i: Interval, ctxs: seq<Context>, syms: seq<Symbol>)
    requires 256 <= i.range <= 510 && AllInModel(ctxs, syms)
    requires Holds(stream, start, Narrow(i, ctxs, syms))
    ensures Holds(stream, start, i)
    decreases |syms|
  {
    hide Holds, Split, AdaptAll;
    NarrowStep(i, ctxs, syms);
    if syms != [] {
      var j := Split(i, ctxs, syms[0]);
      NarrowHolds(stream, start, Grow(j), AdaptAll(ctxs, syms[0]), syms[1..]);
      GrowHolds(stream, start, j);
      SplitHolds(stream, start, i, ctxs, syms[0]);
    }
  }

  lemma SplitHolds(stream: seq<Bit>, start: nat, i: Interval, ctxs: seq<Context>, s: Symbol)
    requires 256 <= i.range <= 510 && InModel(ctxs, s) && Holds(stream, start, Split(i, ctxs, s))
    ensures Holds(stream, start, i)
  {
    hide Value, LpsRange;
  }

  /** A stream in the interval left by syms and a terminating 1 decodes to exactly those bins. */
  lemma {:induction false} DecodeReads(stream: seq<Bit>, start: nat, i: Interval, ctxs: seq<Context>, syms: seq<Symbol>)
    requires 256 <= i.range <= 510 && AllInModel(ctxs, syms) && Continuing(syms)
    requires Holds(stream, start, SplitTerminate(Narrow(i, ctxs, syms), 1))
    ensures Holds(stream, start, i)
    ensures var end := Narrow(i, ctxs, syms);
            var r := Decode(stream, Tracking(stream, start, i), ctxs, Requests(syms + [Terminate(1)]));
            && r.Some? && r.value.0 == Bins(syms) + [1] && r.value.2 == Adapted(ctxs, syms)
            && r.value.1.pos == start + 9 + end.shifts
    decreases |syms|
  {
    hide Decode, DecodeInit, Holds, Tracking, Requests, Bins, Grow, Split, AdaptAll, SplitTerminate;
    NarrowStep(i, ctxs, syms);
    var all := syms + [Terminate(1)];
    BinsFirst(all);
    if syms == [] {
      assert all == [Terminate(1)] && all[1..] == [];
      BinsNone();
      assert Requests(all) == [ForTerminate];
      DecodeLast(stream, start, i, ctxs);
    } else {
      var s := syms[0];
      var j := Grow(Split(i, ctxs, s));
      DecodeReads(stream, start, j, AdaptAll(ctxs, s), syms[1..]);
      assert all[1..] == syms[1..] + [Terminate(1)] && all[0] == s;
      BinsFirst(syms);
      assert [s.bin] + (Bins(syms[1..]) + [1]) == Bins(syms) + [1];
      DecodeOne(stream, start, i, ctxs, s, Requests(all[1..]));
    }
  }

  lemma NarrowStep(i: Interval, ctxs: seq<Context>, syms: seq<Symbol>)
    requires 256 <= i.range <= 510 && AllInModel(ctxs, syms)
    ensures syms == [] ==> Narrow(i, ctxs, syms) == i && Adapted(ctxs, syms) == ctxs
    ensures syms != [] ==>
              && InModel(ctxs, syms[0]) && AllInModel(AdaptAll(ctxs, syms[0]), syms[1..])
              && 256 <= Grow(Split(i, ctxs, syms[0])).range <= 510
              && Narrow(i, ctxs, syms) == Narrow(Grow(Split(i, ctxs, syms[0])), AdaptAll(ctxs, syms[0]), syms[1..])
              && Adapted(ctxs, syms) == Adapted(AdaptAll(ctxs, syms[0]), syms[1..])
  {
    hide Split, AdaptAll;
  }

  /** One symbol that goes on. */
  lemma DecodeOne(stream: seq<Bit>, start: nat, i: Interval, ctxs: seq<Context>, s: Symbol, rest: seq<Request>)
    requires 256 <= i.range <= 510 && InModel(ctxs, s) && (s.Terminate? ==> s.bin == 0)
    requires Holds(stream, start, Grow(Split(i, ctxs, s)))
    ensures Holds(stream, start, i)
    ensures Decode(stream, Tracking(stream, start, i), ctxs, [RequestFor(s)] + rest)
         == Prepend(s.bin, Decode(stream, Tracking(stream, start, Grow(Split(i, ctxs, s))), AdaptAll(ctxs, s), rest))
  {
    hide Holds, Grow, DecodeDecision, DecodeTerminate, SplitBin, SplitTerminate, Prepend, Adapt, Transition;
    assert ([RequestFor(s)] + rest)[1..] == rest;
    match s
    case Regular(k, bin) =>
      DecisionReads(stream, start, i, ctxs[k], bin);
      LearnAlike(ctxs[k], bin);
    case Terminate(_) => TerminateReads(stream, start, i);
  }

  /** The terminating 1. */
  lemma DecodeLast(stream: seq<Bit>, start: nat, i: Interval, ctxs: seq<Context>)
    requires 256 <= i.range <= 510 && Holds(stream, start, SplitTerminate(i, 1))
    ensures Holds(stream, start, i)
    ensures var r := Decode(stream, Tracking(stream, start, i), ctxs, [ForTerminate]);
            r.Some? && r.value.0 == [1] && r.value.2 == ctxs && r.value.1.pos == start + 9 + i.shifts
  {
    hide Value;
  }

  // ---------------------------------------------------------------------------------------------
  // The flush
  // ---------------------------------------------------------------------------------------------

  lemma GrowFlush(i: Interval)
    requires i.range == 2
    ensures Grow(i) == Interval(128 * i.low, 256, i.shifts + 7)
  {
    hide Grow;
    Grown(i);
    Grown(Interval(2 * i.low, 4, i.shifts + 1));
    Grown(Interval(4 * i.low, 8, i.shifts + 2));
    Grown(Interval(8 * i.low, 16, i.shifts + 3));
    Grown(Interval(16 * i.low, 32, i.shifts + 4));
    Grown(Interval(32 * i.low, 64, i.shifts + 5));
    Grown(Interval(64 * i.low, 128, i.shifts + 6));
    Grown(Interval(128 * i.low, 256, i.shifts + 7));
  }

  lemma Grown(i: Interval)
    requires 0 < i.range < 512
    ensures Grow(i) == if i.range < 256 then Grow(Interval(2 * i.low, 2 * i.range, i.shifts + 1)) else i
  {
  }

  /** After a terminating 1 the three flushed bits pick a number inside the last interval. */
  lemma FlushHolds(c: Coder, start: nat, post: seq<Bit>)
    requires Ready(c) && Sound(c, start)
    ensures var t := Renorm(NarrowTerminate(c, 1));
            var end := SplitTerminate(Denotes(c, start), 1);
            && start <= |t.bits| && t.bits <= Flushed(t)
            && |Flushed(t)| == start + 9 + end.shifts
            && Holds(Flushed(t) + post, start, end)
  {
    assert Denotes(c, start).range == c.range;
    hide Renorm, Denotes, Value, Emit;
    TerminalRegisters(c, start);
    var t := Renorm(NarrowTerminate(c, 1));
    var end := SplitTerminate(Denotes(c, start), 1);
    EmitDenotes(t, start);
    var e := Emit(t, t.low / 512);
    var tail: seq<Bit> := [t.low / 256 % 2, 1];
    LowDigit(t, start);
    assert Flushed(t) == e.bits + tail;
    assert Code(e, start) + tail == (Flushed(t) + post)[start..start + 9 + end.shifts];
    FlushValue(Code(e, start), t.low, end.low);
  }

  lemma LowDigit(t: Coder, start: nat)
    requires Sound(t, start)
    ensures t.low / 512 % 2 == t.low / 512
  {
  }

  /** The coder after a terminating 1: seven doublings of the two-wide last interval. */
  lemma TerminalRegisters(c: Coder, start: nat)
    requires Ready(c) && Sound(c, start)
    ensures var t := Renorm(NarrowTerminate(c, 1));
            var end := SplitTerminate(Denotes(c, start), 1);
            && start <= |t.bits| && Sound(t, start)
            && Denotes(t, start) == Interval(128 * end.low, 256, end.shifts + 7)
  {
    var n := NarrowTerminate(c, 1);
    NarrowDenotes(c, start, n.low, n.range);
    RenormDenotes(n, start);
    GrowFlush(SplitTerminate(Denotes(c, start), 1));
  }

  lemma FlushValue(code: seq<Bit>, low: nat, end: nat)
    requires Value(code) * 512 + low % 512 == 128 * end
    ensures end <= Value(code + [low / 256 % 2, 1]) <= end + 1
  {
    TwoBitsMore(code, low / 256 % 2);
    hide Value;
    FlushedDigit(low, end - 4 * Value(code));
  }

  lemma TwoBitsMore(code: seq<Bit>, b: Bit)
    ensures Value(code + [b, 1]) == 2 * (2 * Value(code) + b) + 1
  {
    var bits := code + [b, 1];
    assert bits[..|bits| - 1] == code + [b];
    assert (code + [b])[..|code|] == code;
  }

  lemma FlushedDigit(low: nat, k: int)
    requires low % 512 == 128 * k
    ensures k <= 2 * (low / 256 % 2) + 1 <= k + 1
  {
    var r := low % 512;
    assert low == 512 * (low / 512) + r;
    assert low / 256 == 2 * (low / 512) + r / 256;
  }

  lemma {:induction false} EncodeLast(c: Coder, ctxs: seq<Context>, syms: seq<Symbol>, s: Symbol)
    requires Ready(c) && AllInModel(ctxs, syms + [s])
    ensures AllInModel(ctxs, syms) && InModel(Adapted(ctxs, syms), s)
    ensures Encode(c, ctxs, syms + [s]) == Step(Encode(c, ctxs, syms), Adapted(ctxs, syms), s)
    decreases |syms|
  {
    assert forall i :: 0 <= i < |syms| ==> (syms + [s])[i] == syms[i];
    if syms == [] {
      assert (syms + [s])[0] == s;
      assert (syms + [s])[1..] == [];
    } else {
      assert (syms + [s])[1..] == syms[1..] + [s];
      EncodeLast(Step(c, ctxs, syms[0]), AdaptAll(ctxs, syms[0]), syms[1..], s);
    }
  }

  lemma {:induction false} AdaptedLast(ctxs: seq<Context>, syms: seq<Symbol>, s: Symbol)
    requires AllInModel(ctxs, syms + [s])
    ensures AllInModel(ctxs, syms) && InModel(Adapted(ctxs, syms), s)
    ensures Adapted(ctxs, syms + [s]) == AdaptAll(Adapted(ctxs, syms), s)
    decreases |syms|
  {
    assert forall i :: 0 <= i < |syms| ==> (syms + [s])[i] == syms[i];
    if syms == [] {
      assert (syms + [s])[0] == s;
      assert (syms + [s])[1..] == [];
    } else {
      assert (syms + [s])[1..] == syms[1..] + [s];
      AdaptedLast(AdaptAll(ctxs, syms[0]), syms[1..], s);
    }
  }

  lemma {:induction false} EncodeAppend(c: Coder, ctxs: seq<Context>, a: seq<Symbol>, b: seq<Symbol>)
    requires Ready(c) && AllInModel(ctxs, a + b)
    ensures AllInModel(ctxs, a) && AllInModel(Adapted(ctxs, a), b)
    ensures Encode(c, ctxs, a + b) == Encode(Encode(c, ctxs, a), Adapted(ctxs, a), b)
    ensures Adapted(ctxs, a + b) == Adapted(Adapted(ctxs, a), b)
    decreases |a|
  {
    hide Step, AdaptAll;
    assert forall i :: 0 <= i < |a| ==> (a + b)[i] == a[i];
    assert forall i :: 0 <= i < |b| ==> (a + b)[|a| + i] == b[i];
    if a == [] {
      assert a + b == b;
    } else {
      assert (a + b)[0] == a[0];
      assert (a + b)[1..] == a[1..] + b;
      EncodeAppend(Step(c, ctxs, a[0]), AdaptAll(ctxs, a[0]), a[1..], b);
    }
  }

  /** The coder at the end of a segment: the symbols, then a terminating 1. */
  function Segment(pre: seq<Bit>, ctxs: seq<Context>, syms: seq<Symbol>): (c: Coder)
    requires AllInModel(ctxs, syms)
    ensures Ready(c)
  {
    Encode(Start(pre), ctxs, syms + [Terminate(1)])
  }

  /** What a finished segment leaves in the stream is a number in its last interval. */
  lemma SegmentHolds(pre: seq<Bit>, post: seq<Bit>, ctxs: seq<Context>, syms: seq<Symbol>)
    requires AllInModel(ctxs, syms)
    ensures var f := Flushed(Segment(pre, ctxs, syms));
            var end := SplitTerminate(Narrow(WHOLE, ctxs, syms), 1);
            && pre <= f
            && |f| == |pre| + 9 + end.shifts
            && Holds(f + post, |pre|, end)
  {
    StartSound(pre);
    var m := Encode(Start(pre), ctxs, syms);
    EncodeRefines(Start(pre), |pre|, ctxs, syms);
    EncodeLast(Start(pre), ctxs, syms, Terminate(1));
    assert Segment(pre, ctxs, syms) == Renorm(NarrowTerminate(m, 1));
    FlushHolds(m, |pre|, post);
    StepDenotes(m, |pre|, Adapted(ctxs, syms), Terminate(1));
  }

  /** Any sequence of bins closed by a terminating 1 and the flush decodes, wherever it starts in
      the stream and whatever follows, to the same bins with the same context evolution, and the
      decoder stops exactly behind the flush, whose last bit is the stop bit. */
  lemma RoundTrip(pre: seq<Bit>, post: seq<Bit>, ctxs: seq<Context>, syms: seq<Symbol>)
    requires AllInModel(ctxs, syms) && Continuing(syms)
    ensures var f := Flushed(Segment(pre, ctxs, syms));
            var stream := Finished(Segment(pre, ctxs, syms)) + post;
            var d := DecodeInit(stream, |pre|);
            && pre <= f <= stream && f[|f| - 1] == 1
            && d.Some?
            && var r := Decode(stream, d.value, ctxs, Requests(syms + [Terminate(1)]));
            && r.Some?
            && r.value.0 == Bins(syms) + [1]
            && r.value.1.pos == |f|
            && r.value.2 == Adapted(ctxs, syms)
  {
    var f := Flushed(Segment(pre, ctxs, syms));
    var zeros: seq<Bit> := Repeat(0, ToByteEnd(|f|));
    var stream := Finished(Segment(pre, ctxs, syms)) + post;
    assert stream == f + (zeros + post);
    SegmentHolds(pre, zeros + post, ctxs, syms);
    DecodeReads(stream, |pre|, WHOLE, ctxs, syms);
    InitTracks(stream, |pre|);
    hide *;
  }

  lemma InitTracks(stream: seq<Bit>, start: nat)
    requires Holds(stream, start, WHOLE)
    ensures DecodeInit(stream, start) == Some(Tracking(stream, start, WHOLE))
  {
    hide Value;
  }
}
