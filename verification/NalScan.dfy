/** Start-code search and cutting on a linear byte sequence: what the ring search of the splitter is
    meant to see. */
module NalScan {
  import opened Common
  import opened Bits

  datatype Codec = AVC | HEVC

  /** The access unit delimiter appended behind the input as a sentinel. */
  function Aud(codec: Codec): (a: seq<Byte>)
    ensures 5 <= |a| <= 6
  {
    match codec
    case AVC => [0, 0, 1, 0x09, 0x80]
    case HEVC => [0, 0, 1, 0x46, 0x00, 0x80]
  }

  /** The NAL unit type in the first header byte. */
  function Nut(codec: Codec, b: Byte): nat {
    match codec
    case AVC => b % 32
    case HEVC => b / 2 % 64
  }

  function HeaderLength(codec: Codec): nat {
    if codec == AVC then 1 else 2
  }

  predicate IsAud(codec: Codec, nut: nat) {
    nut == if codec == AVC then 9 else 35
  }

  predicate IsVcl(codec: Codec, nut: nat) {
    if codec == AVC then nut == 5 || nut == 1 else nut <= 9 || 16 <= nut <= 21
  }

  predicate IsFillerData(codec: Codec, nut: nat) {
    nut == if codec == AVC then 12 else 38
  }

  /** Where a search ended: at the header behind a start code, or where the next search must resume. */
  datatype Hit = Found(at: nat) | Stopped(at: nat)

  /** The search loop: bytes before cur are read, the last zeros of them were zero, end is not available. */
  function FindFrom(t: seq<Byte>, cur: nat, zeros: nat, end: nat): (r: Hit)
    requires end <= |t| && zeros <= cur
    ensures r.Found? ==> cur < r.at && r.at + 1 < end
    ensures r.Stopped? && cur >= end ==> r.at == cur - Min(zeros, 2)
    ensures r.Stopped? && cur < end ==> r.at <= end && end <= r.at + 4 && r.at + Min(zeros, 2) >= cur
    decreases end - cur
  {
    if cur >= end then Stopped(cur - Min(zeros, 2))
    else if t[cur] == 1 && zeros >= 2 then
      if cur + 2 >= end then Stopped(cur - 2) else Found(cur + 1)
    else FindFrom(t, cur + 1, if t[cur] == 0 then zeros + 1 else 0, end)
  }

  /** Position p is just behind a start code. */
  predicate StartCode(t: seq<Byte>, p: nat) {
    3 <= p <= |t| && t[p - 3] == 0 && t[p - 2] == 0 && t[p - 1] == 1
  }

  /** The zeros bytes before cur are zero. */
  ghost predicate ZerosBefore(t: seq<Byte>, cur: nat, zeros: nat) {
    zeros <= cur && forall i :: cur - zeros <= i < cur && i < |t| ==> t[i] == 0
  }

  /** The search finds the first start code whose two header bytes are available, and nothing else. */
  lemma {:induction false} FindsFirst(t: seq<Byte>, from: nat, cur: nat, zeros: nat, end: nat)
    requires end <= |t| && from + zeros <= cur && ZerosBefore(t, cur, zeros)
    requires cur > end ==> zeros == 0
    requires from + zeros < cur ==> cur - zeros - 1 < |t| && t[cur - zeros - 1] != 0
    requires forall p :: from + 3 <= p <= cur ==> !StartCode(t, p)
    ensures var r := FindFrom(t, cur, zeros, end);
            && (forall p :: from + 3 <= p < r.at ==> !StartCode(t, p))
            && (r.Found? ==> from + 3 <= r.at && StartCode(t, r.at) && r.at + 1 < end)
            && (r.Stopped? ==> forall p :: from + 3 <= p && p + 1 < end ==> !StartCode(t, p))
    decreases end - cur
  {
    if cur < end {
      if t[cur] == 1 && zeros >= 2 {
        assert t[cur - 1] == 0 && t[cur - 2] == 0;
        assert StartCode(t, cur + 1);
      } else {
        FindsFirst(t, from, cur + 1, if t[cur] == 0 then zeros + 1 else 0, end);
      }
    }
  }

  function Find(t: seq<Byte>, from: nat, end: nat): (r: Hit)
    requires end <= |t|
    ensures r.Found? ==> from + 3 <= r.at && r.at + 1 < end
    ensures r.Stopped? ==> from <= r.at && (from <= end ==> r.at <= end && end <= r.at + 4)
    ensures r.Stopped? && end <= from ==> r.at == from
  {
    FindsFirst(t, from, from, 0, end);
    StopsAhead(t, from, from, 0, end);
    FindFrom(t, from, 0, end)
  }

  lemma {:induction false} StopsAhead(t: seq<Byte>, from: nat, cur: nat, zeros: nat, end: nat)
    requires end <= |t| && from + zeros <= cur
    ensures FindFrom(t, cur, zeros, end).at >= from
    decreases end - cur
  {
    if cur < end && !(t[cur] == 1 && zeros >= 2) {
      StopsAhead(t, from, cur + 1, if t[cur] == 0 then zeros + 1 else 0, end);
    }
  }

  /** More than two zeros count like two. */
  lemma {:induction false} TwoZeros(t: seq<Byte>, cur: nat, a: nat, b: nat, end: nat)
    requires end <= |t| && a <= cur && b <= cur && Min(a, 2) == Min(b, 2)
    ensures FindFrom(t, cur, a, end) == FindFrom(t, cur, b, end)
    decreases end - cur
  {
    if cur < end && !(t[cur] == 1 && a >= 2) {
      TwoZeros(t, cur + 1, if t[cur] == 0 then a + 1 else 0, if t[cur] == 0 then b + 1 else 0, end);
    }
  }

  /** Reading the pending zeros again brings the search back to where it was. */
  lemma Reread(t: seq<Byte>, cur: nat, zeros: nat, end: nat)
    requires end <= |t| && ZerosBefore(t, cur, zeros) && cur <= end
    ensures FindFrom(t, cur - Min(zeros, 2), 0, end) == FindFrom(t, cur, zeros, end)
  {
    var m := Min(zeros, 2);
    if m >= 1 {
      assert FindFrom(t, cur - 1, m - 1, end) == FindFrom(t, cur, m, end);
    }
    if m == 2 {
      assert FindFrom(t, cur - 2, 0, end) == FindFrom(t, cur - 1, 1, end);
    }
    TwoZeros(t, cur, zeros, m, end);
  }

  /** A search that ran into the end of a window is taken up where it stopped without missing anything,
      and one that found something would have found it in any longer window. */
  lemma {:induction false} Resumes(t: seq<Byte>, cur: nat, zeros: nat, end: nat, longer: nat)
    requires cur <= end <= longer <= |t| && ZerosBefore(t, cur, zeros)
    ensures var r := FindFrom(t, cur, zeros, end);
            if r.Found? then FindFrom(t, cur, zeros, longer) == r
            else FindFrom(t, cur, zeros, longer) == FindFrom(t, r.at, 0, longer)
    decreases end - cur
  {
    if cur >= end {
      Reread(t, cur, zeros, longer);
    } else if t[cur] == 1 && zeros >= 2 {
      Reread(t, cur, zeros, longer);
    } else {
      Resumes(t, cur + 1, if t[cur] == 0 then zeros + 1 else 0, end, longer);
    }
  }

  // ---------------------------------------------------------------------------------------------
  // One scan of everything
  // ---------------------------------------------------------------------------------------------

  /** A NAL unit as the search sees it: position behind its start code, and its type. */
  datatype Nal = Nal(at: nat, nut: nat)

  /** All NAL units one uninterrupted scan from position from sees. */
  function Scan(codec: Codec, t: seq<Byte>, from: nat): seq<Nal>
    decreases |t| - from
  {
    match Find(t, from, |t|)
    case Stopped(_) => []
    case Found(p) => [Nal(p, Nut(codec, t[p]))] + Scan(codec, t, p + HeaderLength(codec))
  }

  /** The cut a search decides: where it ended, whether a frame ends there, and what it saw. */
  datatype Cut = Cut(at: nat, endOfFrame: bool, seen: seq<Nal>)

  /** The search for the next cut in a window ending at end. */
  function Search(codec: Codec, slices: bool, t: seq<Byte>, from: nat, end: nat, curNonVcl: bool): (c: Cut)
    requires end <= |t|
    ensures from <= c.at && (from <= end ==> c.at <= end)
    ensures end <= from ==> c.at == from && c.seen == []
    ensures from + 5 <= end ==> from < c.at
    decreases end - from
  {
    match Find(t, from, end)
    case Stopped(p) => Cut(p, false, [])
    case Found(p) =>
      var nut := Nut(codec, t[p]);
      var next := p + HeaderLength(codec);
      var nal := Nal(p, nut);
      if IsAud(codec, nut) then Cut(next, true, [nal])
      else
        var filler := slices && IsFillerData(codec, nut);
        if slices && IsVcl(codec, nut) && !curNonVcl then Cut(next, filler, [nal])
        else
          var rest := Search(codec, slices, t, next, end, !(slices && IsVcl(codec, nut)));
          Cut(rest.at, filler || rest.endOfFrame, [nal] + rest.seen)
  }

  lemma FindResumes(t: seq<Byte>, from: nat, end: nat)
    requires from <= end <= |t|
    ensures var r := Find(t, from, end);
            Find(t, from, |t|) == if r.Found? then r else Find(t, r.at, |t|)
  {
    Resumes(t, from, 0, end, |t|);
  }

  /** The NAL units a cut search saw, continued by a scan from where it ended, are those of a scan
      from where it began: none missed, none split, none seen twice. */
  lemma {:induction false} SearchScans(codec: Codec, slices: bool, t: seq<Byte>, from: nat, end: nat, curNonVcl: bool)
    requires from <= end <= |t|
    ensures var c := Search(codec, slices, t, from, end, curNonVcl);
            Scan(codec, t, from) == c.seen + Scan(codec, t, c.at)
    decreases end - from
  {
    hide *;
    FindResumes(t, from, end);
    match Find(t, from, end)
    case Stopped(p) =>
      SearchStopped(codec, slices, t, from, end, curNonVcl);
      ScanFrom(codec, t, from, p);
    case Found(p) =>
      FoundAhead(codec, t, from, end);
      ScanFound(codec, t, from);
      SearchFound(codec, slices, t, from, end, curNonVcl);
      var nut := Nut(codec, t[p]);
      var next := p + HeaderLength(codec);
      if !IsAud(codec, nut) && !(slices && IsVcl(codec, nut) && !curNonVcl) {
        var nonVcl := !(slices && IsVcl(codec, nut));
        SearchScans(codec, slices, t, next, end, nonVcl);
        var rest := Search(codec, slices, t, next, end, nonVcl);
        Regroup(Nal(p, nut), rest.seen, Scan(codec, t, rest.at));
      }
  }

  lemma FoundAhead(codec: Codec, t: seq<Byte>, from: nat, end: nat)
    requires from <= end <= |t| && Find(t, from, end).Found?
    ensures var p := Find(t, from, end).at; from < p < end && p + HeaderLength(codec) <= end
  {
    hide Find;
  }

  lemma ScanFound(codec: Codec, t: seq<Byte>, from: nat)
    requires Find(t, from, |t|).Found?
    ensures var p := Find(t, from, |t|).at;
            p < |t| && Scan(codec, t, from) == [Nal(p, Nut(codec, t[p]))] + Scan(codec, t, p + HeaderLength(codec))
  {
    hide Find, Nut, HeaderLength;
  }

  lemma SearchStopped(codec: Codec, slices: bool, t: seq<Byte>, from: nat, end: nat, curNonVcl: bool)
    requires from <= end <= |t| && Find(t, from, end).Stopped?
    ensures Search(codec, slices, t, from, end, curNonVcl) == Cut(Find(t, from, end).at, false, [])
  {
    hide Find, Nut;
  }

  lemma SearchFound(codec: Codec, slices: bool, t: seq<Byte>, from: nat, end: nat, curNonVcl: bool)
    requires from <= end <= |t| && Find(t, from, end).Found?
    ensures var p := Find(t, from, end).at;
            p < |t|
            && var nut := Nut(codec, t[p]);
               var next, nal := p + HeaderLength(codec), Nal(p, nut);
               var c, vcl := Search(codec, slices, t, from, end, curNonVcl), slices && IsVcl(codec, nut);
               var rest := Search(codec, slices, t, next, end, !vcl);
            && (IsAud(codec, nut) || (vcl && !curNonVcl) ==> c.at == next && c.seen == [nal])
            && (!IsAud(codec, nut) && !(vcl && !curNonVcl) ==> c.at == rest.at && c.seen == [nal] + rest.seen)
  {
    hide Find, Nut, IsAud, IsVcl, IsFillerData, HeaderLength;
  }

  lemma ScanFrom(codec: Codec, t: seq<Byte>, a: nat, b: nat)
    requires Find(t, a, |t|) == Find(t, b, |t|)
    ensures Scan(codec, t, a) == Scan(codec, t, b)
  {
    hide Find, Nut;
  }

  lemma Regroup(n: Nal, a: seq<Nal>, b: seq<Nal>)
    ensures [n] + (a + b) == ([n] + a) + b
  {
  }

  /** What a frame cut means: every unit seen before the last is no delimiter, and the frame is marked
      ended exactly when the last one is. */
  lemma {:induction false} FrameCut(codec: Codec, t: seq<Byte>, from: nat, end: nat, curNonVcl: bool)
    requires end <= |t|
    ensures var c := Search(codec, false, t, from, end, curNonVcl);
            && (forall i :: 0 <= i < |c.seen| - 1 ==> !IsAud(codec, c.seen[i].nut))
            && (c.endOfFrame <==> c.seen != [] && IsAud(codec, c.seen[|c.seen| - 1].nut))
            && (c.endOfFrame ==> c.at == c.seen[|c.seen| - 1].at + HeaderLength(codec))
    decreases end - from
  {
    hide Find, Nut, IsAud, IsVcl, IsFillerData;
    match Find(t, from, end)
    case Stopped(p) =>
    case Found(p) =>
      var nut := Nut(codec, t[p]);
      if !IsAud(codec, nut) {
        FrameCut(codec, t, p + HeaderLength(codec), end, true);
        var rest := Search(codec, false, t, p + HeaderLength(codec), end, true);
        assert Search(codec, false, t, from, end, curNonVcl) == Cut(rest.at, rest.endOfFrame, [Nal(p, nut)] + rest.seen);
        hide Search, HeaderLength;
      }
  }

  /** Of the units before the last none is a delimiter, and a coded slice among them comes behind a
      unit that is none (or first, when nonVcl says so). */
  ghost predicate SliceOrder(codec: Codec, seen: seq<Nal>, nonVcl: bool) {
    forall i :: 0 <= i < |seen| - 1 ==>
      !IsAud(codec, seen[i].nut) && (IsVcl(codec, seen[i].nut) ==> BehindNonVcl(codec, seen, i, nonVcl))
  }

  /** The unit before number i is no coded slice. */
  predicate BehindNonVcl(codec: Codec, seen: seq<Nal>, i: nat, nonVcl: bool)
    requires i < |seen|
  {
    if i == 0 then nonVcl else !IsVcl(codec, seen[i - 1].nut)
  }

  lemma SliceOrderFront(codec: Codec, n: Nal, rest: seq<Nal>, nonVcl: bool)
    requires !IsAud(codec, n.nut) && (IsVcl(codec, n.nut) ==> nonVcl)
    requires SliceOrder(codec, rest, !IsVcl(codec, n.nut))
    ensures SliceOrder(codec, [n] + rest, nonVcl)
  {
    var seen := [n] + rest;
    forall i | 0 <= i < |seen| - 1
      ensures !IsAud(codec, seen[i].nut) && (IsVcl(codec, seen[i].nut) ==> BehindNonVcl(codec, seen, i, nonVcl))
    {
      if i > 0 {
        assert seen[i] == rest[i - 1];
        assert seen[i - 1] == if i == 1 then n else rest[i - 2];
        assert BehindNonVcl(codec, seen, i, nonVcl) == BehindNonVcl(codec, rest, i - 1, !IsVcl(codec, n.nut));
      }
    }
  }

  /** What a slice cut means: no delimiter and no second of two adjacent coded slices is passed over. */
  lemma {:induction false} SliceCut(codec: Codec, t: seq<Byte>, from: nat, end: nat, curNonVcl: bool)
    requires end <= |t|
    ensures SliceOrder(codec, Search(codec, true, t, from, end, curNonVcl).seen, curNonVcl)
    decreases end - from
  {
    hide Find, Nut, IsAud, IsVcl, IsFillerData;
    match Find(t, from, end)
    case Stopped(p) =>
    case Found(p) =>
      var nut := Nut(codec, t[p]);
      if !IsAud(codec, nut) && !(IsVcl(codec, nut) && !curNonVcl) {
        SliceCut(codec, t, p + HeaderLength(codec), end, !IsVcl(codec, nut));
        SliceOrderFront(codec, Nal(p, nut),
                        Search(codec, true, t, p + HeaderLength(codec), end, !IsVcl(codec, nut)).seen, curNonVcl);
      }
  }

  /** The result depends on the window's bytes only. */
  lemma {:induction false} FindSameWindow(s: seq<Byte>, t: seq<Byte>, cur: nat, zeros: nat, end: nat)
    requires end <= |s| && end <= |t| && zeros <= cur
    requires forall i :: cur <= i < end ==> s[i] == t[i]
    ensures FindFrom(s, cur, zeros, end) == FindFrom(t, cur, zeros, end)
    decreases end - cur
  {
    if cur < end && !(t[cur] == 1 && zeros >= 2) {
      FindSameWindow(s, t, cur + 1, if t[cur] == 0 then zeros + 1 else 0, end);
    }
  }

  /** A stream that ends with neither 0 nor 1, nor with 1 before its last byte, is searched to its end. */
  lemma {:induction false} StopsAtEnd(t: seq<Byte>, cur: nat, zeros: nat)
    requires zeros <= cur < |t| && |t| >= 2 && t[|t| - 1] > 1 && t[|t| - 2] != 1
    ensures var r := FindFrom(t, cur, zeros, |t|);
            r.Stopped? ==> r.at == |t|
    decreases |t| - cur
  {
    if cur + 1 < |t| && !(t[cur] == 1 && zeros >= 2) {
      StopsAtEnd(t, cur + 1, if t[cur] == 0 then zeros + 1 else 0);
    }
  }

  /** With the sentinel behind the input the last cut always gets further. */
  lemma SentinelProgress(codec: Codec, slices: bool, input: seq<Byte>, from: nat)
    requires from < |input| + |Aud(codec)|
    ensures Search(codec, slices, input + Aud(codec), from, |input| + |Aud(codec)|, false).at > from
  {
    var t := input + Aud(codec);
    assert t[|t| - 1] == 0x80 && t[|t| - 2] != 1;
    StopsAtEnd(t, from, 0);
    hide Nut, IsAud, IsVcl, IsFillerData;
  }

  /** Nothing but the sentinel left: nothing more to see. */
  lemma ScanEnd(codec: Codec, t: seq<Byte>)
    ensures Scan(codec, t, |t|) == []
  {
  }
}
