/** What the units the splitter sees are, in terms of the header syntax, and which of them end a search. */
module NalUnits {
  import opened Bits
  import opened NalScan

  // ---------------------------------------------------------------------------------------------
  // Unit headers
  // ---------------------------------------------------------------------------------------------

  /** The first header byte of H.264 (section 7.3.1): forbidden_zero_bit, nal_ref_idc, nal_unit_type. */
  lemma AvcType(forbidden: Bit, refIdc: nat, unitType: nat)
    requires refIdc < 4 && unitType < 32
    ensures Nut(AVC, 128 * forbidden + 32 * refIdc + unitType) == unitType
  {
  }

  /** That of H.265 (section 7.3.1.2): forbidden_zero_bit, nal_unit_type, the top bit of nuh_layer_id. */
  lemma HevcType(forbidden: Bit, unitType: nat, layer: Bit)
    requires unitType < 64
    ensures Nut(HEVC, 128 * forbidden + 2 * unitType + layer) == unitType
  {
  }

  /** Slices of H.264 by name (Table 7-1), data partitions left out. */
  datatype AvcSlice = NonIdrPicture | IdrPicture

  function AvcCode(s: AvcSlice): nat {
    match s
    case NonIdrPicture => 1
    case IdrPicture => 5
  }

  /** The coded slices of H.264 are the named types. */
  lemma AvcSlices(n: nat)
    ensures IsVcl(AVC, n) <==> exists s :: AvcCode(s) == n
  {
    if IsVcl(AVC, n) {
      assert AvcCode(if n == 1 then NonIdrPicture else IdrPicture) == n;
    }
  }

  /** Slices of H.265 by name (Table 7-1), reserved types left out. */
  datatype HevcSlice =
    | TrailN | TrailR | TsaN | TsaR | StsaN | StsaR | RadlN | RadlR | RaslN | RaslR
    | BlaWLp | BlaWRadl | BlaNLp | IdrWRadl | IdrNLp | CraNut

  function HevcCode(s: HevcSlice): nat {
    match s
    case TrailN => 0
    case TrailR => 1
    case TsaN => 2
    case TsaR => 3
    case StsaN => 4
    case StsaR => 5
    case RadlN => 6
    case RadlR => 7
    case RaslN => 8
    case RaslR => 9
    case BlaWLp => 16
    case BlaWRadl => 17
    case BlaNLp => 18
    case IdrWRadl => 19
    case IdrNLp => 20
    case CraNut => 21
  }

  /** The coded slices of H.265 are the named types. */
  lemma HevcSlices(n: nat)
    ensures IsVcl(HEVC, n) <==> exists s :: HevcCode(s) == n
  {
    if IsVcl(HEVC, n) {
      var names := [TrailN, TrailR, TsaN, TsaR, StsaN, StsaR, RadlN, RadlR, RaslN, RaslR];
      var irap := [BlaWLp, BlaWRadl, BlaNLp, IdrWRadl, IdrNLp, CraNut];
      assert HevcCode(if n < 10 then names[n] else irap[n - 16]) == n;
    }
  }

  /** No unit is of two kinds; filler data is the third type behind the delimiter. */
  lemma KindsApart(codec: Codec, n: nat)
    ensures !(IsVcl(codec, n) && IsAud(codec, n)) && !(IsVcl(codec, n) && IsFillerData(codec, n))
    ensures !(IsAud(codec, n) && IsFillerData(codec, n))
    ensures IsAud(codec, n) <==> IsFillerData(codec, n + 3)
  {
  }

  /** The sentinel is a start code, the header of a delimiter and one byte of payload. */
  lemma SentinelIsDelimiter(codec: Codec)
    ensures var a := Aud(codec);
            && |a| == 3 + HeaderLength(codec) + 1 && StartCode(a, 3) && a[|a| - 1] == 0x80
            && IsAud(codec, Nut(codec, a[3])) && a[3] < 128
  {
  }

  // ---------------------------------------------------------------------------------------------
  // A scan sees the start codes
  // ---------------------------------------------------------------------------------------------

  /** Every unit of a scan stands behind a start code and has the type of its header. */
  ghost predicate Genuine(codec: Codec, t: seq<Byte>, us: seq<Nal>) {
    forall i :: 0 <= i < |us| ==>
      us[i].at + 1 < |t| && StartCode(t, us[i].at) && us[i].nut == Nut(codec, t[us[i].at])
  }

  /** p lies no further behind a unit's beginning than its header and one start code reach. */
  ghost predicate Near(codec: Codec, us: seq<Nal>, p: nat) {
    exists i :: 0 <= i < |us| && us[i].at <= p < us[i].at + HeaderLength(codec) + 3
  }

  /** The first start code from a position on, whose header is in t before end. */
  lemma FindIs(t: seq<Byte>, from: nat, end: nat)
    requires end <= |t|
    ensures var r := Find(t, from, end);
            && (forall p :: from + 3 <= p < r.at ==> !StartCode(t, p))
            && (r.Found? ==> StartCode(t, r.at))
            && (r.Stopped? ==> forall p :: from + 3 <= p && p + 1 < end ==> !StartCode(t, p))
  {
    FindsFirst(t, from, from, 0, end);
    hide FindFrom;
  }

  /** A scan sees real units only, and passes over no start code but one that begins in the header of
      another unit. */
  lemma {:induction false} ScanComplete(codec: Codec, t: seq<Byte>, from: nat)
    ensures Genuine(codec, t, Scan(codec, t, from))
    ensures forall p :: from + 3 <= p && p + 1 < |t| && StartCode(t, p) ==> Near(codec, Scan(codec, t, from), p)
    decreases |t| - from
  {
    hide Find, Nut, HeaderLength, StartCode, Genuine, Near;
    FindIs(t, from, |t|);
    if Find(t, from, |t|).Found? {
      var at := Find(t, from, |t|).at;
      var next := at + HeaderLength(codec);
      ScanComplete(codec, t, next);
      var rest := Scan(codec, t, next);
      ScanFound(codec, t, from);
      hide Scan;
      GenuineBehind(codec, t, at, rest);
      forall p | from + 3 <= p && p + 1 < |t| && StartCode(t, p)
        ensures Near(codec, [Nal(at, Nut(codec, t[at]))] + rest, p)
      {
        NearBehind(codec, Nal(at, Nut(codec, t[at])), rest, p);
      }
    } else {
      NoneGenuine(codec, t);
    }
  }

  lemma NoneGenuine(codec: Codec, t: seq<Byte>)
    ensures Genuine(codec, t, [])
  {
  }

  lemma GenuineBehind(codec: Codec, t: seq<Byte>, at: nat, rest: seq<Nal>)
    requires at + 1 < |t| && StartCode(t, at) && Genuine(codec, t, rest)
    ensures Genuine(codec, t, [Nal(at, Nut(codec, t[at]))] + rest)
  {
    hide Nut, StartCode;
  }

  lemma NearBehind(codec: Codec, n: Nal, rest: seq<Nal>, p: nat)
    requires n.at <= p && (p >= n.at + HeaderLength(codec) + 3 ==> Near(codec, rest, p))
    ensures Near(codec, [n] + rest, p)
  {
    hide HeaderLength;
    var us := [n] + rest;
    assert us[0] == n;
    if p >= n.at + HeaderLength(codec) + 3 {
      var i :| 0 <= i < |rest| && rest[i].at <= p < rest[i].at + HeaderLength(codec) + 3;
      assert us[i + 1] == rest[i];
    }
  }

  // ---------------------------------------------------------------------------------------------
  // Where a search ends
  // ---------------------------------------------------------------------------------------------

  /** The last unit of the list ends a search: a delimiter, or in slice mode a second slice in a row. */
  ghost predicate Cutting(codec: Codec, slices: bool, seen: seq<Nal>, nonVcl: bool) {
    && seen != []
    && var last := |seen| - 1;
       || IsAud(codec, seen[last].nut)
       || (slices && IsVcl(codec, seen[last].nut) && !BehindNonVcl(codec, seen, last, nonVcl))
  }

  /** A frame ends with a delimiter, in slice mode with filler data too. */
  ghost predicate EndsFrame(codec: Codec, slices: bool, seen: seq<Nal>) {
    exists i :: 0 <= i < |seen| && (IsAud(codec, seen[i].nut) || (slices && IsFillerData(codec, seen[i].nut)))
  }

  /** It ended behind the header of a unit that cuts, and otherwise only where no start code with its
      header is left before end; it marks the end of a frame exactly when it saw a unit that ends one. */
  ghost predicate EndsProperly(codec: Codec, slices: bool, t: seq<Byte>, end: nat, c: Cut, nonVcl: bool) {
    && (if Cutting(codec, slices, c.seen, nonVcl) then c.seen != [] && c.at == c.seen[|c.seen| - 1].at + HeaderLength(codec)
        else forall p :: c.at + 3 <= p && p + 1 < end ==> !StartCode(t, p))
    && (c.endOfFrame <==> EndsFrame(codec, slices, c.seen))
  }

  /** Every search does. */
  lemma {:induction false} CutExactly(codec: Codec, slices: bool, t: seq<Byte>, from: nat, end: nat, curNonVcl: bool)
    requires from <= end <= |t|
    ensures EndsProperly(codec, slices, t, end, Search(codec, slices, t, from, end, curNonVcl), curNonVcl)
    decreases end - from
  {
    hide *;
    if Find(t, from, end).Stopped? {
      FindIs(t, from, end);
      SearchStopped(codec, slices, t, from, end, curNonVcl);
      NothingCuts(codec, slices, t, end, Find(t, from, end).at, curNonVcl);
    } else {
      FoundAhead(codec, t, from, end);
      SearchGoesOn(codec, slices, t, from, end, curNonVcl);
      var at := Find(t, from, end).at;
      var n, next := Nal(at, Nut(codec, t[at])), at + HeaderLength(codec);
      if Cutting(codec, slices, [n], curNonVcl) {
        OneEnds(codec, slices, t, end, n, next, curNonVcl);
      } else {
        var nonVcl := !(slices && IsVcl(codec, n.nut));
        CutExactly(codec, slices, t, next, end, nonVcl);
        EndsBehind(codec, slices, t, end, n, Search(codec, slices, t, next, end, nonVcl), curNonVcl);
      }
    }
  }

  lemma NothingCuts(codec: Codec, slices: bool, t: seq<Byte>, end: nat, at: nat, nonVcl: bool)
    requires forall p :: at + 3 <= p && p + 1 < end ==> !StartCode(t, p)
    ensures EndsProperly(codec, slices, t, end, Cut(at, false, []), nonVcl)
  {
  }

  lemma OneEnds(codec: Codec, slices: bool, t: seq<Byte>, end: nat, n: Nal, at: nat, nonVcl: bool)
    requires Cutting(codec, slices, [n], nonVcl) && at == n.at + HeaderLength(codec)
    ensures EndsProperly(codec, slices, t, end,
                         Cut(at, IsAud(codec, n.nut) || (slices && IsFillerData(codec, n.nut)), [n]), nonVcl)
  {
    hide IsAud, IsFillerData, HeaderLength, Cutting;
    assert [n][0] == n;
  }

  lemma EndsBehind(codec: Codec, slices: bool, t: seq<Byte>, end: nat, n: Nal, rest: Cut, nonVcl: bool)
    requires !Cutting(codec, slices, [n], nonVcl)
    requires EndsProperly(codec, slices, t, end, rest, !(slices && IsVcl(codec, n.nut)))
    ensures EndsProperly(codec, slices, t, end,
                         Cut(rest.at, IsAud(codec, n.nut) || (slices && IsFillerData(codec, n.nut)) || rest.endOfFrame,
                             [n] + rest.seen), nonVcl)
  {
    CuttingBehind(codec, slices, n, rest.seen, nonVcl);
    hide Cutting, EndsFrame, IsAud, IsFillerData, IsVcl, HeaderLength, StartCode;
    assert rest.seen != [] ==> ([n] + rest.seen)[|rest.seen|] == rest.seen[|rest.seen| - 1];
  }

  lemma SearchGoesOn(codec: Codec, slices: bool, t: seq<Byte>, from: nat, end: nat, curNonVcl: bool)
    requires from <= end <= |t| && Find(t, from, end).Found?
    ensures var at := Find(t, from, end).at;
            && at < |t|
            && var n, next := Nal(at, Nut(codec, t[at])), at + HeaderLength(codec);
               var c, ends := Search(codec, slices, t, from, end, curNonVcl), IsAud(codec, n.nut) || (slices && IsFillerData(codec, n.nut));
               var rest := Search(codec, slices, t, next, end, !(slices && IsVcl(codec, n.nut)));
               if Cutting(codec, slices, [n], curNonVcl) then c == Cut(next, ends, [n])
               else c == Cut(rest.at, ends || rest.endOfFrame, [n] + rest.seen)
  {
    hide Find, Nut, IsAud, IsVcl, IsFillerData, HeaderLength;
    var at := Find(t, from, end).at;
    KindsApart(codec, Nut(codec, t[at]));
  }

  lemma CuttingBehind(codec: Codec, slices: bool, n: Nal, rest: seq<Nal>, nonVcl: bool)
    requires !Cutting(codec, slices, [n], nonVcl)
    ensures var behind := !(slices && IsVcl(codec, n.nut));
            && Cutting(codec, slices, [n] + rest, nonVcl) == Cutting(codec, slices, rest, behind)
            && (EndsFrame(codec, slices, [n] + rest) <==>
                (slices && IsFillerData(codec, n.nut)) || IsAud(codec, n.nut) || EndsFrame(codec, slices, rest))
  {
    hide IsAud, IsVcl, IsFillerData;
    var us := [n] + rest;
    assert forall i :: 0 <= i < |rest| ==> us[i + 1] == rest[i];
    assert us[0] == n;
    if rest != [] {
      assert us[|us| - 1] == rest[|rest| - 1];
      if |rest| > 1 {
        assert us[|us| - 2] == rest[|rest| - 2];
      }
    } else {
      assert us == [n];
    }
    if i :| 0 <= i < |us| && (IsAud(codec, us[i].nut) || (slices && IsFillerData(codec, us[i].nut))) {
      if i > 0 {
        assert us[i] == rest[i - 1];
      }
    }
    if i :| 0 <= i < |rest| && (IsAud(codec, rest[i].nut) || (slices && IsFillerData(codec, rest[i].nut))) {
      assert us[i + 1] == rest[i];
    }
  }

  // ---------------------------------------------------------------------------------------------
  // The sentinel is the last unit
  // ---------------------------------------------------------------------------------------------

  /** No unit of the input begins so late that its header reaches beyond the end. */
  ghost predicate HeadersWhole(codec: Codec, size: nat, us: seq<Nal>) {
    forall i :: 0 <= i < |us| ==> us[i].at + HeaderLength(codec) <= size || us[i].at >= size + 3
  }

  /** The units of the input and behind them that of the sentinel. */
  ghost predicate EndsInSentinel(codec: Codec, size: nat, us: seq<Nal>) {
    us != [] && us[|us| - 1].at == size + 3 && IsAud(codec, us[|us| - 1].nut)
  }

  /** A scan that begins inside the input ends with the sentinel, seen as a delimiter, exactly when the
      end of the input cuts no header of a unit it sees. */
  lemma {:induction false} SentinelSeen(codec: Codec, input: seq<Byte>, from: nat)
    requires from <= |input|
    ensures var us := Scan(codec, input + Aud(codec), from);
            EndsInSentinel(codec, |input|, us) <==> HeadersWhole(codec, |input|, us)
    decreases |input| - from
  {
    hide Find, Nut, IsAud, HeaderLength, StartCode;
    var t, size := input + Aud(codec), |input|;
    SentinelPlaced(codec, input);
    FindIs(t, from, |t|);
    assert Find(t, from, |t|).Found? && Find(t, from, |t|).at <= size + 3;
    ScanFound(codec, t, from);
    FoundAhead(codec, t, from, |t|);
    var at := Find(t, from, |t|).at;
    var n, next := Nal(at, Nut(codec, t[at])), at + HeaderLength(codec);
    var rest := Scan(codec, t, next);
    hide Scan;
    if at == size + 3 {
      NothingBehind(codec, input);
      assert [n] + rest == [n];
    } else if next <= size {
      SentinelSeen(codec, input, next);
      ListsBehind(codec, size, n, rest);
    } else {
      LateUnits(codec, input, next);
      ListsCut(codec, size, n, rest);
    }
  }

  lemma SentinelPlaced(codec: Codec, input: seq<Byte>)
    ensures var t, size := input + Aud(codec), |input|;
            && size + 4 < |t| && StartCode(t, size + 3) && IsAud(codec, Nut(codec, t[size + 3]))
            && (forall p :: size < p < size + 3 && StartCode(t, p) ==> p == size + 3)
  {
    SentinelIsDelimiter(codec);
    var t, size := input + Aud(codec), |input|;
    assert t[size] == Aud(codec)[0] && t[size + 1] == Aud(codec)[1] && t[size + 2] == Aud(codec)[2] && t[size + 3] == Aud(codec)[3];
  }

  /** Behind the sentinel's header one byte is left. */
  lemma NothingBehind(codec: Codec, input: seq<Byte>)
    ensures Scan(codec, input + Aud(codec), |input| + 3 + HeaderLength(codec)) == []
  {
    SentinelIsDelimiter(codec);
    var t := input + Aud(codec);
    FindIs(t, |input| + 3 + HeaderLength(codec), |t|);
    hide Find, Nut, StartCode;
  }

  /** A scan that begins in the sentinel sees nothing. */
  lemma LateUnits(codec: Codec, input: seq<Byte>, next: nat)
    requires |input| < next <= |input| + 3 + HeaderLength(codec)
    ensures Scan(codec, input + Aud(codec), next) == []
  {
    SentinelIsDelimiter(codec);
    var t, size := input + Aud(codec), |input|;
    assert forall i :: 0 <= i < |Aud(codec)| ==> t[size + i] == Aud(codec)[i];
    FindIs(t, next, |t|);
    forall p | next + 3 <= p && p + 1 < |t|
      ensures !StartCode(t, p)
    {
      assert t[p - 1] == Aud(codec)[p - 1 - size];
    }
    hide Find, Nut;
  }

  lemma ListsBehind(codec: Codec, size: nat, n: Nal, rest: seq<Nal>)
    requires n.at + HeaderLength(codec) <= size
    ensures HeadersWhole(codec, size, [n] + rest) == HeadersWhole(codec, size, rest)
    ensures EndsInSentinel(codec, size, [n] + rest) == EndsInSentinel(codec, size, rest)
  {
    hide HeaderLength, IsAud;
    var us := [n] + rest;
    assert forall i :: 0 <= i < |rest| ==> us[i + 1] == rest[i];
    assert us[0] == n;
    if HeadersWhole(codec, size, rest) {
      forall i | 0 <= i < |us|
        ensures us[i].at + HeaderLength(codec) <= size || us[i].at >= size + 3
      {
        assert i > 0 ==> us[i] == rest[i - 1];
      }
    }
  }

  lemma ListsCut(codec: Codec, size: nat, n: Nal, rest: seq<Nal>)
    requires rest == [] && size < n.at + HeaderLength(codec) && n.at < size + 3
    ensures !HeadersWhole(codec, size, [n] + rest) && !EndsInSentinel(codec, size, [n] + rest)
  {
    assert ([n] + rest)[0] == n && [n] + rest == [n];
  }

  /** What the last bytes must not be for that: the end of a start code, or in H.265 a start code and
      the first of two header bytes. */
  predicate CutsHeader(codec: Codec, input: seq<Byte>) {
    exists p: nat :: |input| - HeaderLength(codec) < p <= |input| && StartCode(input, p)
  }

  /** So unless the input ends in the middle of a header, every scan that begins inside it ends with the
      sentinel as a delimiter. */
  lemma SentinelEndsScan(codec: Codec, input: seq<Byte>, from: nat)
    requires from <= |input| && !CutsHeader(codec, input)
    ensures EndsInSentinel(codec, |input|, Scan(codec, input + Aud(codec), from))
  {
    SentinelSeen(codec, input, from);
    var t, us := input + Aud(codec), Scan(codec, input + Aud(codec), from);
    ScanComplete(codec, t, from);
    SentinelPlaced(codec, input);
    forall i | 0 <= i < |us|
      ensures us[i].at + HeaderLength(codec) <= |input| || us[i].at >= |input| + 3
    {
      var p := us[i].at;
      assert StartCode(t, p);
      if p <= |input| {
        assert StartCode(input, p);
      }
    }
    hide Scan;
  }

  /** With the whole rest of the stream in the window every call in frame mode ends at the end of a frame:
      the last frame has one too. */
  lemma LastFrameEnds(codec: Codec, input: seq<Byte>, from: nat)
    requires from <= |input| && !CutsHeader(codec, input)
    ensures var t := input + Aud(codec); Search(codec, false, t, from, |t|, false).endOfFrame
  {
    var t := input + Aud(codec);
    var c := Search(codec, false, t, from, |t|, false);
    CutExactly(codec, false, t, from, |t|, false);
    FrameCut(codec, t, from, |t|, false);
    SearchScans(codec, false, t, from, |t|, false);
    SentinelEndsScan(codec, input, from);
    LastSeen(codec, t, c.at);
    hide Search, Scan;
    assert c.seen + [] == c.seen;
    assert c.seen != [] && IsAud(codec, c.seen[|c.seen| - 1].nut);
  }

  /** Where no start code is left a scan sees nothing. */
  lemma LastSeen(codec: Codec, t: seq<Byte>, at: nat)
    ensures (forall p :: at + 3 <= p && p + 1 < |t| ==> !StartCode(t, p)) ==> Scan(codec, t, at) == []
  {
    FindIs(t, at, |t|);
    hide Find, Nut, StartCode;
  }

  /** A search that begins in the sentinel marks none. */
  lemma NoFrameBehind(codec: Codec, input: seq<Byte>, from: nat)
    requires |input| < from <= |input| + |Aud(codec)|
    ensures var t := input + Aud(codec); !Search(codec, false, t, from, |t|, false).endOfFrame
  {
    var t := input + Aud(codec);
    SentinelIsDelimiter(codec);
    if from == |t| {
      assert Search(codec, false, t, from, |t|, false).seen == [];
    } else {
      LateUnits(codec, input, from);
      SearchScans(codec, false, t, from, |t|, false);
    }
    FrameCut(codec, t, from, |t|, false);
    hide Search, Scan, Aud;
  }
}
