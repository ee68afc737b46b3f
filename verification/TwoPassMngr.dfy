/** The manager of the offline two-pass mode: the loops that compute complexities and target levels. */
module TwoPassManager {
  import opened Common
  import opened Truncation
  import opened TwoPass

  /** Frames given field by field. */
  function Zip(sizes: seq<nat>, changes: seq<bool>, complexities: seq<int>, targets: seq<int>): (fs: seq<Frame>)
    requires |sizes| == |changes| == |complexities| == |targets|
    ensures |fs| == |sizes|
  {
    seq(|sizes|, k requires 0 <= k < |sizes| => Frame(sizes[k], changes[k], complexities[k], targets[k]))
  }

  function Sizes(fs: seq<Frame>): (sizes: seq<nat>)
    ensures |sizes| == |fs|
  {
    seq(|fs|, k requires 0 <= k < |fs| => fs[k].iPictureSize)
  }

  function Changes(fs: seq<Frame>): (changes: seq<bool>)
    ensures |changes| == |fs|
  {
    seq(|fs|, k requires 0 <= k < |fs| => fs[k].sceneChangeNext)
  }

  function Complexities(fs: seq<Frame>): (cs: seq<int>)
    ensures |cs| == |fs|
  {
    seq(|fs|, k requires 0 <= k < |fs| => fs[k].iComplexity)
  }

  function TargetLevels(fs: seq<Frame>): (ts: seq<int>)
    ensures |ts| == |fs|
  {
    seq(|fs|, k requires 0 <= k < |fs| => fs[k].iTargetLevel)
  }

  lemma ZipAt(sizes: seq<nat>, changes: seq<bool>, cs: seq<int>, ts: seq<int>, i: nat)
    requires |sizes| == |changes| == |cs| == |ts| && i < |sizes|
    ensures Zip(sizes, changes, cs, ts)[i] == Frame(sizes[i], changes[i], cs[i], ts[i])
  {
  }

  lemma Unzip(fs: seq<Frame>)
    ensures fs == Zip(Sizes(fs), Changes(fs), Complexities(fs), TargetLevels(fs))
  {
  }

  lemma ZipFields(sizes: seq<nat>, changes: seq<bool>, cs: seq<int>, ts: seq<int>)
    requires |sizes| == |changes| == |cs| == |ts|
    ensures var fs := Zip(sizes, changes, cs, ts);
            Sizes(fs) == sizes && Changes(fs) == changes && Complexities(fs) == cs && TargetLevels(fs) == ts
  {
  }

  lemma SetComplexity(sizes: seq<nat>, changes: seq<bool>, cs: seq<int>, ts: seq<int>, i: nat, v: int)
    requires |sizes| == |changes| == |cs| == |ts| && i < |sizes|
    ensures var fs := Zip(sizes, changes, cs, ts);
            fs[i := fs[i].(iComplexity := v)] == Zip(sizes, changes, cs[i := v], ts)
  {
  }

  lemma SetTarget(sizes: seq<nat>, changes: seq<bool>, cs: seq<int>, ts: seq<int>, i: nat, v: int)
    requires |sizes| == |changes| == |cs| == |ts| && i < |sizes|
    ensures var fs := Zip(sizes, changes, cs, ts);
            fs[i := fs[i].(iTargetLevel := v)] == Zip(sizes, changes, cs, ts[i := v])
  {
  }

  /** vs with len entries from i on replaced by v. */
  function Filled(vs: seq<int>, i: nat, len: nat, v: int): (r: seq<int>)
    requires i + len <= |vs|
    ensures |r| == |vs|
  {
    vs[..i] + Repeat<int>(v, len) + vs[i + len..]
  }

  lemma FilledNone(vs: seq<int>, i: nat, v: int)
    requires i <= |vs|
    ensures Filled(vs, i, 0, v) == vs
  {
  }

  lemma FilledNext(vs: seq<int>, i: nat, len: nat, v: int)
    requires i + len < |vs|
    ensures Filled(vs, i, len, v)[i + len := v] == Filled(vs, i, len + 1, v)
  {
  }

  /** Filling up behind a finished beginning extends the beginning. */
  lemma FilledBehind(done: seq<int>, vs: seq<int>, len: nat, v: int)
    requires |done| + len <= |vs|
    ensures Filled(done + vs[|done|..], |done|, len, v) == done + Repeat<int>(v, len) + vs[|done| + len..]
  {
  }

  class TwoPassMngr {
    const iGopSize: nat
    const iCpbLevel: int
    const iInitialLevel: int
    const iFrameRate: nat
    var tFrames: seq<Frame>

    constructor (iGopSize: nat, iCpbLevel: int, iInitialLevel: int, iFrameRate: nat)
      ensures this.iGopSize == iGopSize && this.iCpbLevel == iCpbLevel && this.iInitialLevel == iInitialLevel
      ensures this.iFrameRate == iFrameRate && tFrames == []
    {
      this.iGopSize, this.iCpbLevel, this.iInitialLevel, this.iFrameRate := iGopSize, iCpbLevel, iInitialLevel, iFrameRate;
      tFrames := [];
    }

    /** Sets complexity and target level of every frame. */
    method ComputeComplexity()
      requires iCpbLevel >= iInitialLevel && iFrameRate > 0 && 0 < |tFrames| <= 1000
      requires iGopSize > 0 ==> Mean(Sizes(tFrames), Changes(tFrames), iGopSize) > 0
      modifies this`tFrames
      ensures iGopSize == 0 ==> tFrames == old(tFrames)
      ensures Sizes(tFrames) == old(Sizes(tFrames)) && Changes(tFrames) == old(Changes(tFrames))
      ensures iGopSize > 0 ==>
                var sizes, changes := Sizes(tFrames), Changes(tFrames);
                var ds := SequenceDeviations(sizes, changes, iGopSize);
                var scaled := AllScaled(ds, Scale(ds, iFrameRate, iCpbLevel, iInitialLevel));
                && (forall k :: 0 <= k < |tFrames| ==> Complexities(tFrames)[k] == scaled[k] + 1000)
                && TargetLevels(tFrames)
                   == Targets(scaled, changes, iGopSize, iFrameRate, iInitialLevel, Segments(changes, iGopSize, 0))
    {
      if iGopSize == 0 {
        return;
      }
      hide *;
      ghost var sizes, changes, ts := Sizes(tFrames), Changes(tFrames), TargetLevels(tFrames);
      ghost var cs := Complexities(tFrames);
      Unzip(tFrames);
      ghost var n := Segments(changes, iGopSize, 0);
      ghost var means := Means(sizes, changes, iGopSize, n);
      var iMeanComp := AverageSegments(sizes, changes, cs, ts);
      ghost var ds := Deviations(means, iMeanComp);
      DeviationsAre(sizes, changes, iGopSize);
      ghost var scaled := AllScaled(ds, Scale(ds, iFrameRate, iCpbLevel, iInitialLevel));
      ScaleComplexities(iMeanComp, sizes, changes, means, ts);
      SetTargets(sizes, changes, scaled, ts);
      ghost var targets := Targets(scaled, changes, iGopSize, iFrameRate, iInitialLevel, n);
      ZipFields(sizes, changes, Shifted(scaled, 1000), targets);
      ShiftedAt(scaled, 1000);
    }

    /** The inner loop that measures a segment; the source has it in both passes over the segments. */
    method MeasureSegment(iIndex: nat, ghost sizes: seq<nat>, ghost changes: seq<bool>)
        returns (iLength: nat, uSumComp: nat)
      requires iIndex <= |tFrames| && sizes == Sizes(tFrames) && changes == Changes(tFrames)
      ensures iLength == SegmentLength(changes, iGopSize, iIndex, 0)
      ensures iIndex + iLength <= |sizes| && uSumComp == Sum(sizes, iIndex, iIndex + iLength)
    {
      iLength, uSumComp := 0, 0;
      while iLength < iGopSize && iIndex + iLength < |tFrames|
        invariant iIndex + iLength <= |sizes| && uSumComp == Sum(sizes, iIndex, iIndex + iLength)
        invariant SegmentLength(changes, iGopSize, iIndex, 0) == SegmentLength(changes, iGopSize, iIndex, iLength)
        decreases |sizes| - iLength
      {
        uSumComp := uSumComp + tFrames[iIndex + iLength].iPictureSize;
        iLength := iLength + 1;
        if tFrames[iIndex + iLength - 1].sceneChangeNext {
          break;
        }
      }
    }

    method FillComplexity(iIndex: nat, iLength: nat, v: int, ghost sizes: seq<nat>, ghost changes: seq<bool>,
                          ghost cs: seq<int>, ghost ts: seq<int>)
      requires |sizes| == |changes| == |cs| == |ts| && iIndex + iLength <= |cs| && tFrames == Zip(sizes, changes, cs, ts)
      modifies this`tFrames
      ensures tFrames == Zip(sizes, changes, Filled(cs, iIndex, iLength, v), ts)
    {
      hide *;
      FilledNone(cs, iIndex, v);
      for k := 0 to iLength
        invariant tFrames == Zip(sizes, changes, Filled(cs, iIndex, k, v), ts)
      {
        SetComplexity(sizes, changes, Filled(cs, iIndex, k, v), ts, iIndex + k, v);
        FilledNext(cs, iIndex, k, v);
        tFrames := tFrames[iIndex + k := tFrames[iIndex + k].(iComplexity := v)];
      }
    }

    method FillTarget(iIndex: nat, iLength: nat, v: int, ghost sizes: seq<nat>, ghost changes: seq<bool>,
                      ghost cs: seq<int>, ghost ts: seq<int>)
      requires |sizes| == |changes| == |cs| == |ts| && iIndex + iLength <= |cs| && tFrames == Zip(sizes, changes, cs, ts)
      modifies this`tFrames
      ensures tFrames == Zip(sizes, changes, cs, Filled(ts, iIndex, iLength, v))
    {
      hide *;
      FilledNone(ts, iIndex, v);
      for k := 0 to iLength
        invariant tFrames == Zip(sizes, changes, cs, Filled(ts, iIndex, k, v))
      {
        SetTarget(sizes, changes, cs, Filled(ts, iIndex, k, v), iIndex + k, v);
        FilledNext(ts, iIndex, k, v);
        tFrames := tFrames[iIndex + k := tFrames[iIndex + k].(iTargetLevel := v)];
      }
    }

    /** The first pass over the segments: every frame gets the mean of its segment. */
    method AverageSegments(ghost sizes: seq<nat>, ghost changes: seq<bool>, ghost cs: seq<int>, ghost ts: seq<int>)
        returns (iMeanComp: nat)
      requires iGopSize > 0 && 0 < |sizes| == |changes| == |cs| == |ts| && tFrames == Zip(sizes, changes, cs, ts)
      modifies this`tFrames
      ensures tFrames == Zip(sizes, changes, Means(sizes, changes, iGopSize, Segments(changes, iGopSize, 0)), ts)
      ensures iMeanComp == Mean(sizes, changes, iGopSize)
    {
      hide *;
      var uSumCompGops, iIndex, iNbGop := 0, 0, 0;
      NoSegment(sizes, changes, iGopSize);
      assert [] + cs == cs;
      while iIndex < |tFrames|
        invariant iIndex == Start(changes, iGopSize, iNbGop) && (iNbGop > 0 ==> Start(changes, iGopSize, iNbGop - 1) < |changes|)
        invariant uSumCompGops == MeanSum(sizes, changes, iGopSize, iNbGop)
        invariant tFrames == Zip(sizes, changes, Means(sizes, changes, iGopSize, iNbGop) + cs[iIndex..], ts)
        invariant Segments(changes, iGopSize, iNbGop) == Segments(changes, iGopSize, 0)
        decreases |changes| - iIndex
      {
        ghost var means := Means(sizes, changes, iGopSize, iNbGop);
        ZipFields(sizes, changes, means + cs[iIndex..], ts);
        var iLength, uSumComp := MeasureSegment(iIndex, sizes, changes);
        NextSegment(sizes, changes, iGopSize, iNbGop);
        var iComp := if iLength != 0 then uSumComp / iLength else uSumComp;
        FillComplexity(iIndex, iLength, iComp, sizes, changes, means + cs[iIndex..], ts);
        FilledBehind(means, cs, iLength, iComp);
        uSumCompGops := uSumCompGops + iComp;
        iNbGop := iNbGop + 1;
        iIndex := iIndex + iLength;
      }
      LastSegment(sizes, changes, iGopSize, iNbGop);
      assert Means(sizes, changes, iGopSize, iNbGop) + cs[iIndex..] == Means(sizes, changes, iGopSize, iNbGop);
      iMeanComp := uSumCompGops / iNbGop;
    }

    /** Complexities become scaled deviations from the mean, around 1000. */
    method ScaleComplexities(iMeanComp: nat, ghost sizes: seq<nat>, ghost changes: seq<bool>, ghost means: seq<int>,
                             ghost ts: seq<int>)
      requires iMeanComp > 0 && iFrameRate > 0
      requires |sizes| == |changes| == |means| == |ts| && tFrames == Zip(sizes, changes, means, ts)
      modifies this`tFrames
      ensures var ds := Deviations(means, iMeanComp);
              var scaled := AllScaled(ds, Scale(ds, iFrameRate, iCpbLevel, iInitialLevel));
              tFrames == Zip(sizes, changes, Shifted(scaled, 1000), ts)
    {
      hide *;
      ghost var ds := Deviations(means, iMeanComp);
      var iLevel, iLevelMax, iLevelMin := 0, 0, 0;
      var iLimitMin, iLimitMax := -iInitialLevel, iCpbLevel - iInitialLevel;
      LevelsStart(ds, iFrameRate);
      assert ds[..0] + means[0..] == means;
      for i := 0 to |tFrames|
        invariant |tFrames| == |means|
        invariant tFrames == Zip(sizes, changes, ds[..i] + means[i..], ts)
        invariant iLevel == Level(ds, iFrameRate, i) && iLevelMax == HighestLevel(ds, iFrameRate, i)
        invariant iLevelMin == LowestLevel(ds, iFrameRate, i)
      {
        ZipAt(sizes, changes, ds[..i] + means[i..], ts, i);
        DeviationAt(means, iMeanComp, i);
        LevelsNext(ds, iFrameRate, i);
        SetComplexity(sizes, changes, ds[..i] + means[i..], ts, i, ds[i]);
        assert (ds[..i] + means[i..])[i := ds[i]] == ds[..i + 1] + means[i + 1..];
        tFrames := tFrames[i := tFrames[i].(iComplexity := Quotient(tFrames[i].iComplexity * 1000, iMeanComp) - 1000)];
        iLevel := iLevel - Quotient(tFrames[i].iComplexity, iFrameRate);
        iLevelMax := Max(iLevelMax, iLevel);
        iLevelMin := Min(iLevelMin, iLevel);
      }
      var iCoeff := 1000;
      if iLevelMax > 0 {
        iCoeff := Min(iCoeff, Quotient(iLimitMax * 1000, iLevelMax));
      }
      if iLevelMin < 0 {
        iCoeff := Min(iCoeff, Quotient(iLimitMin * 900, iLevelMin));
      }
      ScaleIs(ds, iFrameRate, iCpbLevel, iInitialLevel);
      assert ds[..|ds|] + means[|ds|..] == ds;
      ApplyCoefficient(iCoeff, sizes, changes, ds, ts);
    }

    /** Every deviation scaled, and a thousand added again. */
    method ApplyCoefficient(iCoeff: int, ghost sizes: seq<nat>, ghost changes: seq<bool>, ghost ds: seq<int>, ghost ts: seq<int>)
      requires |sizes| == |changes| == |ds| == |ts| && tFrames == Zip(sizes, changes, ds, ts)
      modifies this`tFrames
      ensures tFrames == Zip(sizes, changes, Shifted(AllScaled(ds, iCoeff), 1000), ts)
    {
      hide *;
      ghost var result := Shifted(AllScaled(ds, iCoeff), 1000);
      assert ds == result[..0] + ds[0..];
      ZipFields(sizes, changes, ds, ts);
      for i := 0 to |tFrames|
        invariant |tFrames| == |ds|
        invariant tFrames == Zip(sizes, changes, result[..i] + ds[i..], ts)
      {
        ZipAt(sizes, changes, result[..i] + ds[i..], ts, i);
        ScaledAt(ds, iCoeff, i);
        SetComplexity(sizes, changes, result[..i] + ds[i..], ts, i, result[i]);
        assert (result[..i] + ds[i..])[i := result[i]] == result[..i + 1] + ds[i + 1..];
        tFrames := tFrames[i := tFrames[i].(iComplexity := Quotient(tFrames[i].iComplexity * iCoeff, 1000) + 1000)];
      }
      assert result[..|ds|] + ds[|ds|..] == result;
    }

    /** The second pass over the segments: every frame gets the target level of its segment. */
    method SetTargets(ghost sizes: seq<nat>, ghost changes: seq<bool>, ghost scaled: seq<int>, ghost ts: seq<int>)
      requires iGopSize > 0 && iFrameRate > 0 && |sizes| == |changes| == |scaled| == |ts|
      requires tFrames == Zip(sizes, changes, Shifted(scaled, 1000), ts)
      modifies this`tFrames
      ensures tFrames == Zip(sizes, changes, Shifted(scaled, 1000),
                             Targets(scaled, changes, iGopSize, iFrameRate, iInitialLevel, Segments(changes, iGopSize, 0)))
    {
      hide *;
      ghost var cs, j := Shifted(scaled, 1000), 0;
      var iIndex, iLevel := 0, iInitialLevel;
      ghost var done := [];
      NoTarget(scaled, changes, iGopSize, iFrameRate, iInitialLevel);
      assert [] + ts == ts;
      while iIndex < |tFrames|
        invariant Aimed(scaled, changes, iGopSize, iFrameRate, iInitialLevel, j, iIndex, iLevel, done)
        invariant |done| == iIndex <= |changes| && tFrames == Zip(sizes, changes, cs, done + ts[iIndex..])
        decreases |changes| - iIndex
      {
        NextTarget(scaled, changes, iGopSize, iFrameRate, iInitialLevel, j, iIndex, iLevel, done);
        var iLength, iTarget;
        iLength, iTarget, iLevel := SetSegment(iIndex, iLevel, sizes, changes, scaled, done, ts);
        done := done + Repeat<int>(iTarget, iLength);
        j := j + 1;
        iIndex := iIndex + iLength;
      }
      LastTarget(scaled, changes, iGopSize, iFrameRate, iInitialLevel, j, iIndex, iLevel, done);
      assert done + ts[iIndex..] == done;
    }

    /** One segment: its target level, and the level planned for its end. */
    method SetSegment(iIndex: nat, iLevel: int, ghost sizes: seq<nat>, ghost changes: seq<bool>, ghost scaled: seq<int>,
                      ghost done: seq<int>, ghost ts: seq<int>) returns (iLength: nat, iTarget: int, next: int)
      requires iGopSize > 0 && iFrameRate > 0 && |sizes| == |changes| == |scaled| == |ts| && |done| == iIndex < |changes|
      requires tFrames == Zip(sizes, changes, Shifted(scaled, 1000), done + ts[iIndex..])
      modifies this`tFrames
      ensures iLength == SegmentLength(changes, iGopSize, iIndex, 0) && iIndex + iLength <= |changes|
      ensures iTarget == iLevel - Quotient(iGopSize * scaled[iIndex], iFrameRate)
      ensures next == iLevel - Quotient(iLength * scaled[iIndex], iFrameRate)
      ensures tFrames == Zip(sizes, changes, Shifted(scaled, 1000), done + Repeat<int>(iTarget, iLength) + ts[iIndex + iLength..])
    {
      hide *;
      ghost var cs := Shifted(scaled, 1000);
      ZipFields(sizes, changes, cs, done + ts[iIndex..]);
      ZipAt(sizes, changes, cs, done + ts[iIndex..], iIndex);
      ShiftedAt(scaled, 1000);
      var uSumComp;
      iLength, uSumComp := MeasureSegment(iIndex, sizes, changes);
      var iDeviation := tFrames[iIndex].iComplexity - 1000;
      iTarget := iLevel - Quotient(iGopSize * iDeviation, iFrameRate);
      next := iLevel - Quotient(iLength * iDeviation, iFrameRate);
      FillTarget(iIndex, iLength, iTarget, sizes, changes, cs, done + ts[iIndex..]);
      FilledBehind(done, ts, iLength, iTarget);
    }
  }

  /** Where the second pass is before segment j: at frame i, at the planned level, these targets set. */
  ghost predicate Aimed(scaled: seq<int>, changes: seq<bool>, gop: nat, rate: nat, initial: int, j: nat, i: nat, level: int,
                        done: seq<int>) {
    && |scaled| == |changes| && rate > 0 && gop > 0 && (j > 0 ==> Start(changes, gop, j - 1) < |changes|)
    && i == Start(changes, gop, j) && level == Planned(scaled, changes, gop, rate, initial, j)
    && done == Targets(scaled, changes, gop, rate, initial, j) && Segments(changes, gop, j) == Segments(changes, gop, 0)
  }

  function Shifted(vs: seq<int>, offset: int): (r: seq<int>)
    ensures |r| == |vs|
  {
    seq(|vs|, k requires 0 <= k < |vs| => vs[k] + offset)
  }

  lemma ShiftedAt(vs: seq<int>, offset: int)
    ensures forall k :: 0 <= k < |vs| ==> Shifted(vs, offset)[k] == vs[k] + offset
  {
  }

  lemma DeviationsAre(sizes: seq<nat>, changes: seq<bool>, gop: nat)
    requires |sizes| == |changes| > 0 && gop > 0 && Mean(sizes, changes, gop) > 0
    ensures SequenceDeviations(sizes, changes, gop)
         == Deviations(Means(sizes, changes, gop, Segments(changes, gop, 0)), Mean(sizes, changes, gop))
  {
    hide Deviations, Means, Mean, Segments;
  }

  lemma NoSegment(sizes: seq<nat>, changes: seq<bool>, gop: nat)
    requires |sizes| == |changes| && gop > 0
    ensures Start(changes, gop, 0) == 0 && MeanSum(sizes, changes, gop, 0) == 0 && Means(sizes, changes, gop, 0) == []
  {
  }

  lemma NextSegment(sizes: seq<nat>, changes: seq<bool>, gop: nat, j: nat)
    requires |sizes| == |changes| && gop > 0 && Start(changes, gop, j) < |changes|
    requires j > 0 ==> Start(changes, gop, j - 1) < |changes|
    ensures var i, len := Start(changes, gop, j), SegmentLength(changes, gop, Start(changes, gop, j), 0);
            && len > 0 && i + len <= |changes| && Start(changes, gop, j + 1) == i + len
            && var mean := Sum(sizes, i, i + len) / len;
            && mean >= 0 && MeanSum(sizes, changes, gop, j + 1) == MeanSum(sizes, changes, gop, j) + mean
            && Means(sizes, changes, gop, j + 1) == Means(sizes, changes, gop, j) + Repeat<int>(mean, len)
    ensures Segments(changes, gop, j) == Segments(changes, gop, j + 1)
  {
    hide *;
    StartNext(changes, gop, j);
    MeansNext(sizes, changes, gop, j);
    SegmentsNext(changes, gop, j);
  }

  lemma StartNext(changes: seq<bool>, gop: nat, j: nat)
    requires gop > 0 && Start(changes, gop, j) < |changes|
    ensures var i, len := Start(changes, gop, j), SegmentLength(changes, gop, Start(changes, gop, j), 0);
            len > 0 && i + len <= |changes| && Start(changes, gop, j + 1) == i + len
  {
    hide SegmentLength;
  }

  lemma SegmentsNext(changes: seq<bool>, gop: nat, j: nat)
    requires gop > 0 && Start(changes, gop, j) < |changes|
    requires j > 0 ==> Start(changes, gop, j - 1) < |changes|
    ensures Segments(changes, gop, j) == Segments(changes, gop, j + 1)
  {
    hide SegmentLength, Start;
  }

  lemma MeansNext(sizes: seq<nat>, changes: seq<bool>, gop: nat, j: nat)
    requires |sizes| == |changes| && gop > 0 && Start(changes, gop, j) < |changes|
    requires j > 0 ==> Start(changes, gop, j - 1) < |changes|
    requires Start(changes, gop, j + 1) > Start(changes, gop, j)
    ensures var i, k := Start(changes, gop, j), Start(changes, gop, j + 1);
            var mean := Sum(sizes, i, k) / (k - i);
            && mean >= 0 && MeanSum(sizes, changes, gop, j + 1) == MeanSum(sizes, changes, gop, j) + mean
            && Means(sizes, changes, gop, j + 1) == Means(sizes, changes, gop, j) + Repeat<int>(mean, k - i)
  {
    hide Sum, Start, Repeat;
  }

  lemma LastSegment(sizes: seq<nat>, changes: seq<bool>, gop: nat, j: nat)
    requires 0 < |sizes| == |changes| && gop > 0 && Start(changes, gop, j) >= |changes|
    requires j > 0 ==> Start(changes, gop, j - 1) < |changes|
    requires Segments(changes, gop, j) == Segments(changes, gop, 0)
    ensures j > 0 && Start(changes, gop, j) == |changes| && Segments(changes, gop, 0) == j
    ensures MeanSum(sizes, changes, gop, j) / j == Mean(sizes, changes, gop)
  {
    hide MeanSum, SegmentLength;
  }

  lemma LastTarget(scaled: seq<int>, changes: seq<bool>, gop: nat, rate: nat, initial: int, j: nat, i: nat, level: int,
                   done: seq<int>)
    requires Aimed(scaled, changes, gop, rate, initial, j, i, level, done) && i >= |changes|
    ensures i == |changes| && done == Targets(scaled, changes, gop, rate, initial, Segments(changes, gop, 0))
  {
    hide SegmentLength, Targets, Planned;
  }

  lemma NoTarget(scaled: seq<int>, changes: seq<bool>, gop: nat, rate: nat, initial: int)
    requires |scaled| == |changes| && rate > 0 && gop > 0
    ensures Aimed(scaled, changes, gop, rate, initial, 0, 0, initial, [])
  {
  }

  lemma NextTarget(scaled: seq<int>, changes: seq<bool>, gop: nat, rate: nat, initial: int, j: nat, i: nat, level: int,
                   done: seq<int>)
    requires Aimed(scaled, changes, gop, rate, initial, j, i, level, done) && i < |changes|
    ensures var len := SegmentLength(changes, gop, i, 0);
            && len > 0 && i + len <= |changes|
            && Aimed(scaled, changes, gop, rate, initial, j + 1, i + len, level - Quotient(len * scaled[i], rate),
                     done + Repeat<int>(level - Quotient(gop * scaled[i], rate), len))
  {
    hide SegmentLength, Repeat, Quotient;
  }

  lemma LevelsStart(ds: seq<int>, rate: nat)
    requires rate > 0
    ensures Level(ds, rate, 0) == 0 == HighestLevel(ds, rate, 0) && LowestLevel(ds, rate, 0) == 0
  {
  }

  lemma LevelsNext(ds: seq<int>, rate: nat, i: nat)
    requires rate > 0 && i < |ds|
    ensures var level := Level(ds, rate, i) - Quotient(ds[i], rate);
            && Level(ds, rate, i + 1) == level
            && HighestLevel(ds, rate, i + 1) == Max(HighestLevel(ds, rate, i), level)
            && LowestLevel(ds, rate, i + 1) == Min(LowestLevel(ds, rate, i), level)
  {
    hide Quotient, Max, Min;
  }

  lemma DeviationAt(means: seq<int>, mean: nat, i: nat)
    requires mean > 0 && i < |means|
    ensures Deviations(means, mean)[i] == Quotient(means[i] * 1000, mean) - 1000
  {
    hide Quotient;
  }

  lemma ScaledAt(ds: seq<int>, coeff: int, i: nat)
    requires i < |ds|
    ensures Shifted(AllScaled(ds, coeff), 1000)[i] == Quotient(ds[i] * coeff, 1000) + 1000
  {
    hide Quotient;
  }

  lemma ScaleIs(ds: seq<int>, rate: nat, cpb: int, initial: int)
    requires rate > 0
    ensures var high, low := HighestLevel(ds, rate, |ds|), LowestLevel(ds, rate, |ds|);
            var above := if high > 0 then Min(1000, Quotient((cpb - initial) * 1000, high)) else 1000;
            Scale(ds, rate, cpb, initial) == if low < 0 then Min(above, Quotient(-initial * 900, low)) else above
  {
    hide HighestLevel, LowestLevel, Quotient, Min;
  }
}
