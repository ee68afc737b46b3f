/** What the arithmetic encoder computes: the bounded coder as a function on states, the
    unbounded-precision coder it stands for, and the proof that the first refines the second. */
module CabacModel {
  import opened Common
  import opened Bits
  import opened BitStreamLite
  import opened CabacTables

  /** One call on the encoder: a context-coded bin or a terminating bin. */
  datatype Symbol = Regular(ctx: nat, bin: Bit) | Terminate(bin: Bit)

  /** The four registers of the coder and the bits put so far. */
  datatype Coder = Coder(low: nat, range: nat, out: nat, first: bool, bits: seq<Bit>) {
    /** The interval lies in the 10-bit register. */
    ghost predicate Fits() {
      0 < range && low + range <= 1024
    }
  }

  /** A coder at the start of a segment, after bits already in the stream. */
  function Start(bits: seq<Bit>): Coder {
    Coder(0, 510, 0, true, bits)
  }

  /** Puts a resolved bit, unless it is the first, and the pending run of its complements. */
  function Emit(c: Coder, b: Bit): Coder {
    c.(out := 0, first := false, bits := c.bits + (if c.first then [] else [b]) + Repeat<Bit>(1 - b, c.out))
  }

  /** One doubling of the interval. */
  function Double(c: Coder): (r: Coder)
    requires c.Fits() && c.range < 256
    ensures r.Fits() && r.range == 2 * c.range
  {
    if c.low >= 512 || c.low < 256 then
      var e := Emit(c, c.low / 512);
      e.(low := c.low % 512 * 2, range := 2 * c.range)
    else
      c.(out := c.out + 1, low := (c.low - 256) * 2, range := 2 * c.range)
  }

  function Renorm(c: Coder): (r: Coder)
    requires c.Fits() && c.range < 512
    ensures r.Fits() && 256 <= r.range < 512
    ensures c.range < 256 ==> r.range % 2 == 0
    decreases 512 - c.range
  {
    if c.range < 256 then Renorm(Double(c)) else c
  }

  /** The coder between two calls. */
  ghost predicate Ready(c: Coder) {
    c.Fits() && 256 <= c.range <= 510
  }

  function NarrowBin(c: Coder, x: Context, bin: Bit): (r: Coder)
    requires Ready(c)
    ensures r.Fits() && r.range <= 508
  {
    var lps := LpsRange(x, c.range);
    if bin == x.mps then c.(range := c.range - lps)
    else c.(low := c.low + c.range - lps, range := lps)
  }

  function NarrowTerminate(c: Coder, bin: Bit): (r: Coder)
    requires Ready(c)
    ensures r.Fits() && r.range <= 508
  {
    if bin == 1 then c.(low := c.low + c.range - 2, range := 2) else c.(range := c.range - 2)
  }

  /** Every context a symbol names exists. */
  ghost predicate InModel(ctxs: seq<Context>, s: Symbol) {
    s.Regular? ==> s.ctx < |ctxs|
  }

  function Step(c: Coder, ctxs: seq<Context>, s: Symbol): (r: Coder)
    requires Ready(c) && InModel(ctxs, s)
    ensures Ready(r)
  {
    match s
    case Regular(i, bin) => Renorm(NarrowBin(c, ctxs[i], bin))
    case Terminate(bin) => Renorm(NarrowTerminate(c, bin))
  }

  function AdaptAll(ctxs: seq<Context>, s: Symbol): (r: seq<Context>)
    requires InModel(ctxs, s)
    ensures |r| == |ctxs|
  {
    match s
    case Regular(i, bin) => ctxs[i := Adapt(ctxs[i], bin)]
    case Terminate(_) => ctxs
  }

  ghost predicate AllInModel(ctxs: seq<Context>, syms: seq<Symbol>) {
    forall i :: 0 <= i < |syms| ==> InModel(ctxs, syms[i])
  }

  function Encode(c: Coder, ctxs: seq<Context>, syms: seq<Symbol>): (r: Coder)
    requires Ready(c) && AllInModel(ctxs, syms)
    ensures Ready(r)
    decreases |syms|
  {
    if syms == [] then c else Encode(Step(c, ctxs, syms[0]), AdaptAll(ctxs, syms[0]), syms[1..])
  }

  function Adapted(ctxs: seq<Context>, syms: seq<Symbol>): (r: seq<Context>)
    requires AllInModel(ctxs, syms)
    ensures |r| == |ctxs|
    decreases |syms|
  {
    if syms == [] then ctxs else Adapted(AdaptAll(ctxs, syms[0]), syms[1..])
  }

  /** The bits after the flush, up to and including the stop bit. */
  function Flushed(c: Coder): seq<Bit> {
    Emit(c, c.low / 512 % 2).bits + [c.low / 256 % 2, 1]
  }

  /** The bits after finishing: the flush and zeros to the byte boundary. */
  function Finished(c: Coder): seq<Bit> {
    var f := Flushed(c);
    f + Repeat(0, ToByteEnd(|f|))
  }

  /** Behind the stop bit there are zeros up to the byte boundary, and no more than needed. */
  lemma FinishedZeros(c: Coder)
    ensures Flushed(c) <= Finished(c) && Flushed(c)[|Flushed(c)| - 1] == 1
    ensures forall i :: |Flushed(c)| <= i < |Finished(c)| ==> Finished(c)[i] == 0
    ensures |Finished(c)| % 8 == 0 && |Finished(c)| < |Flushed(c)| + 8
  {
    hide Emit;
  }

  lemma FinishedLength(c: Coder)
    ensures |Finished(c)| % 8 == 0 && 0 <= |Finished(c)| - |Flushed(c)| < 8
  {
  }

  // ---------------------------------------------------------------------------------------------
  // The unbounded-precision coder
  // ---------------------------------------------------------------------------------------------

  /** An interval [low, low + range) of numbers with 9 + shifts binary digits. */
  datatype Interval = Interval(low: nat, range: nat, shifts: nat)

  const WHOLE := Interval(0, 510, 0)

  function Grow(i: Interval): (r: Interval)
    requires 0 < i.range < 512
    ensures 256 <= r.range < 512
    ensures i.range < 256 ==> r.range % 2 == 0
    decreases 512 - i.range
  {
    if i.range < 256 then Grow(Interval(2 * i.low, 2 * i.range, i.shifts + 1)) else i
  }

  function SplitBin(i: Interval, x: Context, bin: Bit): (r: Interval)
    requires 256 <= i.range <= 510
    ensures 0 < r.range <= 508
  {
    var lps := LpsRange(x, i.range);
    if bin == x.mps then i.(range := i.range - lps)
    else i.(low := i.low + i.range - lps, range := lps)
  }

  function SplitTerminate(i: Interval, bin: Bit): (r: Interval)
    requires 256 <= i.range <= 510
    ensures 0 < r.range <= 508
  {
    if bin == 1 then i.(low := i.low + i.range - 2, range := 2) else i.(range := i.range - 2)
  }

  function Split(i: Interval, ctxs: seq<Context>, s: Symbol): (r: Interval)
    requires 256 <= i.range <= 510 && InModel(ctxs, s)
    ensures 0 < r.range <= 508
  {
    match s
    case Regular(k, bin) => SplitBin(i, ctxs[k], bin)
    case Terminate(bin) => SplitTerminate(i, bin)
  }

  function Narrow(i: Interval, ctxs: seq<Context>, syms: seq<Symbol>): (r: Interval)
    requires 256 <= i.range <= 510 && AllInModel(ctxs, syms)
    ensures 256 <= r.range <= 510
    decreases |syms|
  {
    if syms == [] then i else Narrow(Grow(Split(i, ctxs, syms[0])), AdaptAll(ctxs, syms[0]), syms[1..])
  }

  // ---------------------------------------------------------------------------------------------
  // Refinement
  // ---------------------------------------------------------------------------------------------

  /** The bits a coder that began at bit position start has put. */
  function Code(c: Coder, start: nat): seq<Bit>
    requires start <= |c.bits|
  {
    c.bits[start..]
  }

  /** The interval a coder stands for: emitted bits, then the pending run read as 0 1 1 .. 1, then low. */
  function Denotes(c: Coder, start: nat): Interval
    requires start <= |c.bits|
  {
    Interval(Value(Code(c, start)) * (1024 * Pow2(c.out)) + 512 * (Pow2(c.out) - 1) + c.low,
             c.range,
             if c.first then c.out else |Code(c, start)| + 1 + c.out)
  }

  /** What every reachable coder satisfies: the elided bit was the first, and the interval never
      leaves the initial one, so no carry can reach past the first bit. */
  ghost predicate Sound(c: Coder, start: nat) {
    && c.Fits() && start <= |c.bits|
    && (c.first ==> |c.bits| == start)
    && Denotes(c, start).low + c.range <= 510 * Pow2(Denotes(c, start).shifts)
  }

  /** The elided bit is 0: no first bit is ever 1. */
  lemma FirstBitZero(c: Coder, start: nat)
    requires Sound(c, start) && c.first
    ensures c.low < 512
  {
  }

  /** Resolving a bit turns the pending run into the bits it stood for. */
  lemma EmitDenotes(c: Coder, start: nat)
    requires Sound(c, start)
    ensures var e := Emit(c, c.low / 512);
            && start <= |e.bits| && !e.first && e.out == 0 && c.bits <= e.bits
            && |Code(e, start)| == Denotes(c, start).shifts
            && Value(Code(e, start)) * 512 + c.low % 512 == Denotes(c, start).low
  {
    hide Pow2, Repeat, Value;
    var b: Bit, code := c.low / 512, Code(c, start);
    if c.first {
      FirstBitZero(c, start);
      ValueRepeat(1, c.out);
      NoValue();
      assert code == [] && Code(Emit(c, b), start) == Repeat<Bit>(1, c.out);
    } else {
      assert Code(Emit(c, b), start) == code + [b] + Repeat<Bit>(1 - b, c.out);
      RunValue(code, b, c.out);
      Resolved(Value(code), Pow2(c.out), b, c.low);
    }
    hide Emit;
  }

  lemma NoValue()
    ensures Value([]) == 0
  {
  }

  lemma RunValue(code: seq<Bit>, b: Bit, n: nat)
    ensures Value(code + [b] + Repeat<Bit>(1 - b, n)) == (2 * Value(code) + b) * Pow2(n) + (1 - b) * (Pow2(n) - 1)
  {
    ValueAppend(code + [b], Repeat<Bit>(1 - b, n));
    assert (code + [b])[..|code|] == code;
    ValueRepeat(1 - b, n);
  }

  lemma Resolved(v: nat, p: nat, b: Bit, low: nat)
    requires low / 512 == b
    ensures ((2 * v + b) * p + (1 - b) * (p - 1)) * 512 + low % 512 == v * (1024 * p) + 512 * (p - 1) + low
  {
    assert v * (1024 * p) == 1024 * (v * p);
    if b == 0 {
      assert (2 * v + b) * p == 2 * (v * p);
    } else {
      assert (2 * v + b) * p == 2 * (v * p) + p;
    }
  }

  lemma DoubleDenotes(c: Coder, start: nat)
    requires Sound(c, start) && c.range < 256
    ensures var r := Double(c);
            && start <= |r.bits| && c.bits <= r.bits
            && Sound(r, start)
            && Denotes(r, start) == Interval(2 * Denotes(c, start).low, 2 * c.range, Denotes(c, start).shifts + 1)
  {
    DoubledInterval(c, start);
    hide Denotes, Double, Value;
  }

  lemma DoubledInterval(c: Coder, start: nat)
    requires Sound(c, start) && c.range < 256
    ensures var r, i := Double(c), Denotes(c, start);
            && start <= |r.bits| && c.bits <= r.bits && r.Fits() && (r.first ==> |r.bits| == start)
            && Denotes(r, start) == Interval(2 * i.low, 2 * c.range, i.shifts + 1)
  {
    hide Value, Repeat;
    if c.low >= 512 || c.low < 256 {
      EmitDenotes(c, start);
      hide Emit;
    } else {
      var v, p := Value(Code(c, start)), Pow2(c.out);
      assert v * (1024 * (2 * p)) == 2 * (v * (1024 * p));
    }
    hide Pow2;
  }

  lemma {:induction false} RenormDenotes(c: Coder, start: nat)
    requires Sound(c, start) && c.range < 512
    ensures var r := Renorm(c);
            && start <= |r.bits| && c.bits <= r.bits
            && Sound(r, start)
            && Denotes(r, start) == Grow(Denotes(c, start))
    decreases 512 - c.range
  {
    if c.range < 256 {
      DoubleDenotes(c, start);
      RenormDenotes(Double(c), start);
    }
  }

  /** Narrowing moves the low end and shrinks the range by the same amounts in both coders. */
  lemma NarrowDenotes(c: Coder, start: nat, low: nat, range: nat)
    requires Sound(c, start)
    requires c.low <= low && 0 < range && low + range <= c.low + c.range
    ensures var r := c.(low := low, range := range);
            && Sound(r, start)
            && Denotes(r, start) == Denotes(c, start).(low := Denotes(c, start).low + low - c.low, range := range)
  {
  }

  lemma StepDenotes(c: Coder, start: nat, ctxs: seq<Context>, s: Symbol)
    requires Ready(c) && Sound(c, start) && InModel(ctxs, s)
    ensures var r := Step(c, ctxs, s);
            && start <= |r.bits| && c.bits <= r.bits
            && Sound(r, start)
            && Denotes(r, start) == Grow(Split(Denotes(c, start), ctxs, s))
  {
    hide Sound, Denotes, Grow, Renorm, NarrowBin, NarrowTerminate, SplitBin, SplitTerminate, Ready;
    match s
    case Regular(i, bin) => RegularDenotes(c, start, ctxs[i], bin);
    case Terminate(bin) => TerminateDenotes(c, start, bin);
  }

  lemma RegularDenotes(c: Coder, start: nat, x: Context, bin: Bit)
    requires Ready(c) && Sound(c, start)
    ensures var r := Renorm(NarrowBin(c, x, bin));
            && start <= |c.bits| <= |r.bits| && c.bits <= r.bits && Sound(r, start)
            && Denotes(c, start).range == c.range
            && Denotes(r, start) == Grow(SplitBin(Denotes(c, start), x, bin))
  {
    var n := NarrowBin(c, x, bin);
    NarrowDenotes(c, start, n.low, n.range);
    RenormDenotes(n, start);
    hide Sound, Renorm, Grow, LpsRange;
  }

  lemma TerminateDenotes(c: Coder, start: nat, bin: Bit)
    requires Ready(c) && Sound(c, start)
    ensures var r := Renorm(NarrowTerminate(c, bin));
            && start <= |c.bits| <= |r.bits| && c.bits <= r.bits && Sound(r, start)
            && Denotes(c, start).range == c.range
            && Denotes(r, start) == Grow(SplitTerminate(Denotes(c, start), bin))
  {
    var n := NarrowTerminate(c, bin);
    NarrowDenotes(c, start, n.low, n.range);
    RenormDenotes(n, start);
    hide Sound, Renorm, Grow;
  }

  /** Every run of the bounded coder denotes the run of the unbounded one; bits already put stay. */
  lemma {:induction false} EncodeRefines(c: Coder, start: nat, ctxs: seq<Context>, syms: seq<Symbol>)
    requires Ready(c) && Sound(c, start) && AllInModel(ctxs, syms)
    ensures var r := Encode(c, ctxs, syms);
            && start <= |r.bits| && c.bits <= r.bits
            && Sound(r, start)
            && Denotes(r, start) == Narrow(Denotes(c, start), ctxs, syms)
    decreases |syms|
  {
    if syms != [] {
      StepDenotes(c, start, ctxs, syms[0]);
      EncodeRefines(Step(c, ctxs, syms[0]), start, AdaptAll(ctxs, syms[0]), syms[1..]);
    }
  }

  lemma StartSound(bits: seq<Bit>)
    ensures Ready(Start(bits)) && Sound(Start(bits), |bits|) && Denotes(Start(bits), |bits|) == WHOLE
  {
  }
}
