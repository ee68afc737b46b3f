/** The second pass of two-pass encoding: frame complexities are scaled so that the level of the coded
    picture buffer stays between empty and full. */
module TwoPass {
  import opened Common
  import opened Truncation

  /** What the second pass reads and sets of a frame's look-ahead data. */
  datatype Frame = Frame(iPictureSize: nat, sceneChangeNext: bool, iComplexity: int, iTargetLevel: int)

  // ---------------------------------------------------------------------------------------------
  // Segments: a GOP, or less when a scene change follows
  // ---------------------------------------------------------------------------------------------

  /** The length of the segment from frame i on, len frames of which are already taken. */
  function SegmentLength(changes: seq<bool>, gop: nat, i: nat, len: nat): (n: nat)
    requires i + len <= |changes|
    ensures len <= n && i + n <= |changes| && (len < gop && i + len < |changes| ==> len < n)
    ensures n <= gop || n == len
    decreases |changes| - i - len
  {
    if len < gop && i + len < |changes| then
      if changes[i + len] then len + 1 else SegmentLength(changes, gop, i, len + 1)
    else len
  }

  /** The first frame of segment j; the number of frames when there is no such segment. */
  function Start(changes: seq<bool>, gop: nat, j: nat): (i: nat)
    ensures i <= |changes|
  {
    if j == 0 then 0
    else
      var i := Start(changes, gop, j - 1);
      i + SegmentLength(changes, gop, i, 0)
  }

  /** A segment ends where its length says: no scene change follows any frame but its last, and it is a
      whole GOP unless one follows that, or the sequence ends. */
  lemma {:induction false} SegmentEnds(changes: seq<bool>, gop: nat, i: nat, len: nat)
    requires i + len <= |changes|
    ensures var n := SegmentLength(changes, gop, i, len);
            && (forall k :: i + len <= k < i + n - 1 ==> !changes[k])
            && (n < gop ==> i + n == |changes| || (n > len && changes[i + n - 1]))
    decreases |changes| - i - len
  {
    if len < gop && i + len < |changes| && !changes[i + len] {
      SegmentEnds(changes, gop, i, len + 1);
    }
  }

  function Sum(sizes: seq<nat>, from: nat, to: nat): nat
    requires from <= to <= |sizes|
  {
    if from == to then 0 else Sum(sizes, from, to - 1) + sizes[to - 1]
  }

  /** The mean picture size of segment j. */
  function SegmentMean(sizes: seq<nat>, changes: seq<bool>, gop: nat, j: nat): nat
    requires |sizes| == |changes| && gop > 0 && Start(changes, gop, j) < |changes|
  {
    var i := Start(changes, gop, j);
    Sum(sizes, i, Start(changes, gop, j + 1)) / (Start(changes, gop, j + 1) - i)
  }

  /** The sum of the means of the first j segments. */
  function MeanSum(sizes: seq<nat>, changes: seq<bool>, gop: nat, j: nat): nat
    requires |sizes| == |changes| && gop > 0 && (j > 0 ==> Start(changes, gop, j - 1) < |changes|)
    decreases j
  {
    if j == 0 then 0
    else
      EarlierStart(changes, gop, j);
      MeanSum(sizes, changes, gop, j - 1) + SegmentMean(sizes, changes, gop, j - 1)
  }

  lemma EarlierStart(changes: seq<bool>, gop: nat, j: nat)
    requires j > 0 && Start(changes, gop, j - 1) < |changes|
    ensures j > 1 ==> Start(changes, gop, j - 2) < |changes|
  {
  }

  // ---------------------------------------------------------------------------------------------
  // Levels
  // ---------------------------------------------------------------------------------------------

  /** The buffer level after the first n frames, deviations unscaled. */
  function Level(deviations: seq<int>, rate: nat, n: nat): int
    requires rate > 0 && n <= |deviations|
  {
    if n == 0 then 0 else Level(deviations, rate, n - 1) - Quotient(deviations[n - 1], rate)
  }

  function Max(a: int, b: int): int {
    if a < b then b else a
  }

  function HighestLevel(deviations: seq<int>, rate: nat, n: nat): int
    requires rate > 0 && n <= |deviations|
  {
    if n == 0 then 0 else Max(HighestLevel(deviations, rate, n - 1), Level(deviations, rate, n))
  }

  function LowestLevel(deviations: seq<int>, rate: nat, n: nat): int
    requires rate > 0 && n <= |deviations|
  {
    if n == 0 then 0 else Min(LowestLevel(deviations, rate, n - 1), Level(deviations, rate, n))
  }

  /** The scale, in thousandths, for a buffer of size cpb that starts at level initial. */
  function Coefficient(highest: int, lowest: int, cpb: int, initial: int): int {
    var above := if highest > 0 then Min(1000, Quotient((cpb - initial) * 1000, highest)) else 1000;
    if lowest < 0 then Min(above, Quotient(-initial * 900, lowest)) else above
  }

  /** The scale for a whole sequence. */
  function Scale(deviations: seq<int>, rate: nat, cpb: int, initial: int): int
    requires rate > 0
  {
    Coefficient(HighestLevel(deviations, rate, |deviations|), LowestLevel(deviations, rate, |deviations|), cpb, initial)
  }

  /** A deviation scaled. */
  function Scaled(deviation: int, coeff: int): int {
    Quotient(deviation * coeff, 1000)
  }

  /** The planned level at the start of segment j: segments take their first frame's deviation. */
  function Planned(scaled: seq<int>, changes: seq<bool>, gop: nat, rate: nat, initial: int, j: nat): int
    requires |scaled| == |changes| && rate > 0 && (j > 0 ==> Start(changes, gop, j - 1) < |changes|)
    decreases j
  {
    if j == 0 then initial
    else
      EarlierStart(changes, gop, j);
      var i := Start(changes, gop, j - 1);
      Planned(scaled, changes, gop, rate, initial, j - 1)
      - Quotient((Start(changes, gop, j) - i) * scaled[i], rate)
  }

  // ---------------------------------------------------------------------------------------------
  // The scaled levels stay inside
  // ---------------------------------------------------------------------------------------------

  lemma {:induction false} BetweenExtremes(deviations: seq<int>, rate: nat, n: nat, k: nat)
    requires rate > 0 && k <= n <= |deviations|
    ensures LowestLevel(deviations, rate, n) <= Level(deviations, rate, k) <= HighestLevel(deviations, rate, n)
    ensures LowestLevel(deviations, rate, n) <= 0 <= HighestLevel(deviations, rate, n)
  {
    if n > 0 {
      BetweenExtremes(deviations, rate, n - 1, if k < n then k else 0);
    }
  }

  /** The coefficient is a share of the whole, and fits both extremes. */
  lemma CoefficientFits(highest: int, lowest: int, cpb: int, initial: int)
    requires lowest <= 0 <= highest && 0 <= initial <= cpb
    ensures var c := Coefficient(highest, lowest, cpb, initial);
            0 <= c <= 1000 && c * highest <= 1000 * (cpb - initial) && -900 * initial <= c * lowest
  {
    var c := Coefficient(highest, lowest, cpb, initial);
    if highest > 0 {
      Truncates((cpb - initial) * 1000, highest);
      var q := Quotient((cpb - initial) * 1000, highest);
      assert c <= q;
      MulLessOrEqual(highest, c, q);
      Natural(q, highest);
    }
    if lowest < 0 {
      Truncates(900 * initial, -lowest);
      var q := Quotient(900 * initial, -lowest);
      SameSign(900 * initial, -lowest);
      assert c <= q;
      MulLessOrEqual(-lowest, c, q);
      Natural(q, -lowest);
    }
  }

  lemma Natural(q: int, p: int)
    requires p > 0 && q * p >= 0
    ensures q >= 0
  {
    if q < 0 {
      MulLessOrEqual(p, q, -1);
    }
  }

  lemma SameSign(a: int, b: int)
    requires a >= 0 && b > 0
    ensures Quotient(-a, -b) == Quotient(a, b)
  {
    assert Abs(-a) == Abs(a) == a && Abs(-b) == Abs(b) == b;
    if a == 0 {
      Truncates(0, b);
      Zero(0 / b, b);
    }
  }

  lemma Zero(q: int, b: int)
    requires b > 0 && q * b == 0
    ensures q == 0
  {
  }

  /** No larger share fits them. */
  lemma CoefficientLargest(highest: int, lowest: int, cpb: int, initial: int, c: int)
    requires lowest <= 0 <= highest && 0 <= initial <= cpb
    requires 0 <= c <= 1000 && c * highest <= 1000 * (cpb - initial) && -900 * initial <= c * lowest
    ensures c <= Coefficient(highest, lowest, cpb, initial)
  {
    if highest > 0 {
      LargestQuotient((cpb - initial) * 1000, highest, c);
    }
    if lowest < 0 {
      SameSign(900 * initial, -lowest);
      assert c * (-lowest) == -(c * lowest);
      LargestQuotient(900 * initial, -lowest, c);
    }
    hide Quotient;
  }

  lemma LargestQuotient(a: int, b: int, c: int)
    requires a >= 0 && b > 0 && c * b <= a
    ensures c <= Quotient(a, b)
  {
    Truncates(a, b);
    var q := Quotient(a, b);
    hide Quotient;
    if c > q {
      MulLessOrEqual(b, q + 1, c);
    }
  }

  /** Every level of the unscaled pass, scaled, lies between nine tenths of the initial level below
      and the free space above. */
  lemma LevelsFit(deviations: seq<int>, rate: nat, cpb: int, initial: int, k: nat)
    requires rate > 0 && 0 <= initial <= cpb && k <= |deviations|
    ensures var c := Scale(deviations, rate, cpb, initial);
            0 <= c <= 1000 && -900 * initial <= c * Level(deviations, rate, k) <= 1000 * (cpb - initial)
  {
    var n := |deviations|;
    var high, low, level := HighestLevel(deviations, rate, n), LowestLevel(deviations, rate, n), Level(deviations, rate, k);
    var c := Coefficient(high, low, cpb, initial);
    assert c == Scale(deviations, rate, cpb, initial);
    hide *;
    BetweenExtremes(deviations, rate, n, k);
    CoefficientFits(high, low, cpb, initial);
    MulLessOrEqual(c, level, high);
    MulLessOrEqual(c, low, level);
    assert c * high == high * c && c * low == low * c && c * level == level * c;
  }

  // ---------------------------------------------------------------------------------------------
  // Three truncations cost less than a unit for every frame and one for every segment
  // ---------------------------------------------------------------------------------------------

  /** One segment of len frames with the same deviation d: planned against scaled. */
  lemma SegmentError(d: int, c: int, len: nat, rate: nat)
    requires rate > 0 && 0 <= c <= 1000 && len > 0
    ensures Abs(1000 * Quotient(len * Scaled(d, c), rate) - c * (len * Quotient(d, rate))) <= 1000 * (len + 1)
  {
    var q, x := Quotient(d, rate), Scaled(d, c);
    var y := Quotient(len * x, rate);
    Truncates(d, rate);
    Truncates(d * c, 1000);
    Truncates(len * x, rate);
    hide Quotient;
    var r, s, u := d - q * rate, d * c - x * 1000, len * x - y * rate;
    Rearranged(d, c, len, rate, q, x, y);
    var e := 1000 * y - c * (len * q);
    Bounded(c, len, rate, r, s, u);
    assert rate * e == len * (c * r) - len * s - 1000 * u;
    Divided(e, rate, 1000 * (len + 1));
  }

  lemma Rearranged(d: int, c: int, len: int, rate: int, q: int, x: int, y: int)
    ensures var r, s, u := d - q * rate, d * c - x * 1000, len * x - y * rate;
            rate * (1000 * y - c * (len * q)) == len * (c * r) - len * s - 1000 * u
  {
    var r, s, u := d - q * rate, d * c - x * 1000, len * x - y * rate;
    assert 1000 * u == 1000 * (len * x) - 1000 * (y * rate);
    assert len * s == len * (d * c) - len * (x * 1000);
    assert c * r == c * d - c * (q * rate);
    assert len * (c * r) == len * (c * d) - len * (c * (q * rate));
    assert len * (x * 1000) == 1000 * (len * x) && len * (d * c) == len * (c * d);
    assert len * (c * (q * rate)) == rate * (c * (len * q));
    assert rate * (1000 * y - c * (len * q)) == 1000 * (y * rate) - rate * (c * (len * q));
  }

  lemma Bounded(c: int, len: nat, rate: nat, r: int, s: int, u: int)
    requires rate > 0 && 0 <= c <= 1000 && Abs(r) <= rate - 1 && Abs(s) <= 999 && Abs(u) <= rate - 1
    ensures Abs(len * (c * r) - len * s - 1000 * u) <= rate * (1000 * (len + 1))
  {
    AbsProduct(c, r, 1000, rate - 1);
    AbsProduct(len, c * r, len, 1000 * (rate - 1));
    AbsProduct(len, s, len, 999);
    SumBounded(len * (c * r), len * s, u, len, rate);
  }

  lemma SumBounded(a: int, b: int, u: int, len: nat, rate: nat)
    requires rate > 0 && Abs(a) <= len * (1000 * (rate - 1)) && Abs(b) <= len * 999 && Abs(u) <= rate - 1
    ensures Abs(a - b - 1000 * u) <= rate * (1000 * (len + 1))
  {
    assert len * (1000 * (rate - 1)) == 1000 * (len * rate) - 1000 * len;
    assert rate * (1000 * (len + 1)) == 1000 * (len * rate) + 1000 * rate;
  }

  lemma AbsProduct(a: nat, b: int, a': nat, b': nat)
    requires a <= a' && Abs(b) <= b'
    ensures Abs(a * b) <= a' * b'
  {
    MulLessOrEqual(a, b, b');
    MulLessOrEqual(a, 0 - b', b);
    MulLessOrEqual(b', a, a');
    assert (0 - b') * a == 0 - b' * a;
  }

  lemma Divided(e: int, rate: nat, bound: nat)
    requires rate > 0 && Abs(rate * e) <= rate * bound
    ensures Abs(e) <= bound
  {
    if e > bound {
      MulLessOrEqual(rate, bound + 1, e);
    } else if e < 0 - bound {
      MulLessOrEqual(rate, e, 0 - bound - 1);
    }
  }

  /** Within a segment all deviations are equal. */
  ghost predicate Even(deviations: seq<int>, changes: seq<bool>, gop: nat) {
    && |deviations| == |changes|
    && forall j: nat, k: nat :: Start(changes, gop, j) <= k < Start(changes, gop, j + 1) ==>
                                  deviations[k] == deviations[Start(changes, gop, j)]
  }

  lemma {:induction false} LevelOver(deviations: seq<int>, rate: nat, i: nat, k: nat, d: int)
    requires rate > 0 && i <= k <= |deviations| && forall m :: i <= m < k ==> deviations[m] == d
    ensures Level(deviations, rate, k) == Level(deviations, rate, i) - (k - i) * Quotient(d, rate)
    decreases k
  {
    hide Quotient;
    if k > i {
      LevelOver(deviations, rate, i, k - 1, d);
      assert (k - i) * Quotient(d, rate) == (k - 1 - i) * Quotient(d, rate) + Quotient(d, rate);
    }
  }

  /** A sequence scaled. */
  ghost predicate IsScaled(scaled: seq<int>, deviations: seq<int>, coeff: int) {
    |scaled| == |deviations| && forall k :: 0 <= k < |scaled| ==> scaled[k] == Scaled(deviations[k], coeff)
  }

  /** The planned level follows the scaled one: off by at most one for each frame and segment passed. */
  lemma {:induction false} PlanFollows(deviations: seq<int>, scaled: seq<int>, changes: seq<bool>, gop: nat, rate: nat,
                                       coeff: int, initial: int, j: nat)
    requires rate > 0 && gop > 0 && 0 <= coeff <= 1000 && Even(deviations, changes, gop) && IsScaled(scaled, deviations, coeff)
    requires j > 0 ==> Start(changes, gop, j - 1) < |changes|
    ensures var i := Start(changes, gop, j);
            Abs(1000 * (Planned(scaled, changes, gop, rate, initial, j) - initial) - coeff * Level(deviations, rate, i))
            <= 1000 * (i + j)
    decreases j
  {
    hide Quotient, SegmentLength;
    if j == 0 {
      assert coeff * 0 == 0;
    } else {
      EarlierStart(changes, gop, j);
      PlanFollows(deviations, scaled, changes, gop, rate, coeff, initial, j - 1);
      var i, k := Start(changes, gop, j - 1), Start(changes, gop, j);
      var d := deviations[i];
      assert forall m :: i <= m < k ==> deviations[m] == d;
      LevelOver(deviations, rate, i, k, d);
      SegmentError(d, coeff, k - i, rate);
      hide Level, Start, Scaled;
      assert scaled[i] == Scaled(d, coeff);
      Follows(Planned(scaled, changes, gop, rate, initial, j - 1), Quotient((k - i) * scaled[i], rate), initial,
              Level(deviations, rate, i), (k - i) * Quotient(d, rate), coeff, i + j - 1, k - i);
    }
  }

  lemma Follows(plan: int, planStep: int, initial: int, level: int, step: int, coeff: int, before: nat, len: nat)
    requires Abs(1000 * (plan - initial) - coeff * level) <= 1000 * before
    requires Abs(1000 * planStep - coeff * step) <= 1000 * (len + 1)
    ensures Abs(1000 * (plan - planStep - initial) - coeff * (level - step)) <= 1000 * (before + len + 1)
  {
    assert coeff * (level - step) == coeff * level - coeff * step;
  }

  /** At the start of every segment the planned level is inside the buffer, up to one unit for each
      frame and segment before it; a tenth of the initial level is kept in reserve. */
  lemma PlanFits(deviations: seq<int>, scaled: seq<int>, changes: seq<bool>, gop: nat, rate: nat, cpb: int, initial: int, j: nat)
    requires rate > 0 && gop > 0 && 0 <= initial <= cpb && Even(deviations, changes, gop)
    requires IsScaled(scaled, deviations, Scale(deviations, rate, cpb, initial))
    requires j > 0 ==> Start(changes, gop, j - 1) < |changes|
    ensures var i, plan := Start(changes, gop, j), Planned(scaled, changes, gop, rate, initial, j);
            100 * initial - 1000 * (i + j) <= 1000 * plan <= 1000 * cpb + 1000 * (i + j)
  {
    assert |deviations| == |changes|;
    hide Even, IsScaled, Start, Planned, Scale, Level;
    LevelsFit(deviations, rate, cpb, initial, Start(changes, gop, j));
    PlanFollows(deviations, scaled, changes, gop, rate, Scale(deviations, rate, cpb, initial), initial, j);
  }

  // ---------------------------------------------------------------------------------------------
  // The whole sequence
  // ---------------------------------------------------------------------------------------------

  /** The number of segments, j of which are passed. */
  function Segments(changes: seq<bool>, gop: nat, j: nat): (n: nat)
    requires gop > 0 && (j > 0 ==> Start(changes, gop, j - 1) < |changes|)
    ensures Start(changes, gop, n) == |changes| && (n > 0 ==> Start(changes, gop, n - 1) < |changes|) && j <= n
    decreases |changes| - Start(changes, gop, j)
  {
    if Start(changes, gop, j) == |changes| then j else Segments(changes, gop, j + 1)
  }

  /** Every frame's complexity after the first loop: its segment's mean, for the first j segments. */
  function Means(sizes: seq<nat>, changes: seq<bool>, gop: nat, j: nat): (means: seq<int>)
    requires |sizes| == |changes| && gop > 0 && (j > 0 ==> Start(changes, gop, j - 1) < |changes|)
    ensures |means| == Start(changes, gop, j)
    decreases j
  {
    if j == 0 then []
    else
      EarlierStart(changes, gop, j);
      Means(sizes, changes, gop, j - 1)
      + Repeat<int>(SegmentMean(sizes, changes, gop, j - 1), Start(changes, gop, j) - Start(changes, gop, j - 1))
  }

  /** The mean over all segments. */
  function Mean(sizes: seq<nat>, changes: seq<bool>, gop: nat): nat
    requires |sizes| == |changes| > 0 && gop > 0
  {
    var n := Segments(changes, gop, 0);
    MeanSum(sizes, changes, gop, n) / n
  }

  function Total(vs: seq<int>): int {
    if vs == [] then 0 else vs[0] + Total(vs[1..])
  }

  lemma {:induction false} TotalConcat(a: seq<int>, b: seq<int>)
    ensures Total(a + b) == Total(a) + Total(b)
  {
    if a == [] {
      assert a + b == b;
    } else {
      assert (a + b)[1..] == a[1..] + b;
      TotalConcat(a[1..], b);
    }
  }

  lemma {:induction false} TotalRepeated(v: int, n: nat)
    ensures Total(Repeat<int>(v, n)) == n * v
  {
    if n > 0 {
      assert Repeat<int>(v, n)[1..] == Repeat<int>(v, n - 1);
      TotalRepeated(v, n - 1);
      assert n * v == (n - 1) * v + v;
    } else {
      assert Repeat<int>(v, n) == [];
    }
  }

  lemma {:induction false} SumIsTotal(sizes: seq<nat>, i: nat, k: nat)
    requires i <= k <= |sizes|
    ensures Sum(sizes, i, k) == Total(sizes[i..k])
    decreases k
  {
    if i == k {
      assert sizes[i..k] == [];
    } else {
      SumIsTotal(sizes, i, k - 1);
      assert sizes[i..k] == sizes[i..k - 1] + [sizes[k - 1]];
      TotalConcat(sizes[i..k - 1], [sizes[k - 1]]);
      assert [sizes[k - 1]][1..] == [];
    }
  }

  /** Whatever the segments, the means keep the total of the picture sizes, less than a unit for each
      frame lost. */
  lemma {:induction false} MeansKeepTotal(sizes: seq<nat>, changes: seq<bool>, gop: nat, j: nat)
    requires |sizes| == |changes| && gop > 0 && (j > 0 ==> Start(changes, gop, j - 1) < |changes|)
    ensures var i, kept := Start(changes, gop, j), Total(Means(sizes, changes, gop, j));
            kept <= Total(sizes[..i]) <= kept + i && (i > 0 ==> Total(sizes[..i]) < kept + i)
    decreases j
  {
    if j == 0 {
      assert sizes[..0] == [];
    } else {
      EarlierStart(changes, gop, j);
      MeansKeepTotal(sizes, changes, gop, j - 1);
      var i, k := Start(changes, gop, j - 1), Start(changes, gop, j);
      var mean := SegmentMean(sizes, changes, gop, j - 1);
      MeanOfSegment(sizes, changes, gop, j - 1);
      hide SegmentMean, Start;
      TotalConcat(Means(sizes, changes, gop, j - 1), Repeat<int>(mean, k - i));
      TotalRepeated(mean, k - i);
      assert sizes[..k] == sizes[..i] + sizes[i..k];
      TotalConcat(sizes[..i], sizes[i..k]);
    }
  }

  lemma MeanOfSegment(sizes: seq<nat>, changes: seq<bool>, gop: nat, j: nat)
    requires |sizes| == |changes| && gop > 0 && Start(changes, gop, j) < |changes|
    ensures var i, k := Start(changes, gop, j), Start(changes, gop, j + 1);
            && i < k <= |sizes|
            && var mean := SegmentMean(sizes, changes, gop, j);
               (k - i) * mean <= Total(sizes[i..k]) < (k - i) * mean + (k - i)
  {
    var i, k := Start(changes, gop, j), Start(changes, gop, j + 1);
    SumIsTotal(sizes, i, k);
    hide Sum, Total;
    var n, sum := k - i, Sum(sizes, i, k);
    assert sum == n * (sum / n) + sum % n;
  }

  /** A deviation is what the segment's mean is off the mean, in thousandths of that, exact to one. */
  lemma DeviationMeans(means: seq<int>, mean: nat, k: nat)
    requires mean > 0 && k < |means| && means[k] >= 0
    ensures var d := Deviations(means, mean)[k];
            d >= -1000 && mean * (d + 1000) <= 1000 * means[k] < mean * (d + 1000) + mean
  {
    Truncates(means[k] * 1000, mean);
    var q := Quotient(means[k] * 1000, mean);
    hide Quotient;
    Natural(q, mean);
    assert q * mean == mean * q;
  }

  /** Deviations from the mean in thousandths. */
  function Deviations(means: seq<int>, mean: nat): (ds: seq<int>)
    requires mean > 0
    ensures |ds| == |means|
  {
    seq(|means|, k requires 0 <= k < |means| => Quotient(means[k] * 1000, mean) - 1000)
  }

  function AllScaled(deviations: seq<int>, coeff: int): (ss: seq<int>)
    ensures |ss| == |deviations|
  {
    seq(|deviations|, k requires 0 <= k < |deviations| => Scaled(deviations[k], coeff))
  }

  /** The deviations of a sequence of frames. */
  function SequenceDeviations(sizes: seq<nat>, changes: seq<bool>, gop: nat): (ds: seq<int>)
    requires |sizes| == |changes| > 0 && gop > 0 && Mean(sizes, changes, gop) > 0
    ensures |ds| == |changes|
  {
    Deviations(Means(sizes, changes, gop, Segments(changes, gop, 0)), Mean(sizes, changes, gop))
  }

  /** The target level of the frames of segment j: the level a whole GOP would end at. */
  function Target(scaled: seq<int>, changes: seq<bool>, gop: nat, rate: nat, initial: int, j: nat): int
    requires |scaled| == |changes| && rate > 0 && Start(changes, gop, j) < |changes|
  {
    EarlierStart(changes, gop, j + 1);
    Planned(scaled, changes, gop, rate, initial, j) - Quotient(gop * scaled[Start(changes, gop, j)], rate)
  }

  /** Target levels of the frames of the first j segments. */
  function Targets(scaled: seq<int>, changes: seq<bool>, gop: nat, rate: nat, initial: int, j: nat): (ts: seq<int>)
    requires |scaled| == |changes| && rate > 0 && (j > 0 ==> Start(changes, gop, j - 1) < |changes|)
    ensures |ts| == Start(changes, gop, j)
    decreases j
  {
    if j == 0 then []
    else
      EarlierStart(changes, gop, j);
      var i := Start(changes, gop, j - 1);
      Targets(scaled, changes, gop, rate, initial, j - 1)
      + Repeat<int>(Target(scaled, changes, gop, rate, initial, j - 1), Start(changes, gop, j) - i)
  }

  lemma {:induction false} StartGrows(changes: seq<bool>, gop: nat, i: nat, j: nat)
    requires i <= j
    ensures Start(changes, gop, i) <= Start(changes, gop, j)
    decreases j
  {
    if i < j {
      StartGrows(changes, gop, i, j - 1);
    }
  }

  /** Frame k of segment m has the segment's mean. */
  lemma {:induction false} MeansAt(sizes: seq<nat>, changes: seq<bool>, gop: nat, j: nat, m: nat, k: nat)
    requires |sizes| == |changes| && gop > 0 && (j > 0 ==> Start(changes, gop, j - 1) < |changes|)
    requires m < j && Start(changes, gop, m) <= k < Start(changes, gop, m + 1)
    ensures k < Start(changes, gop, j) && Start(changes, gop, m) < |changes|
    ensures Means(sizes, changes, gop, j)[k] == SegmentMean(sizes, changes, gop, m)
    decreases j
  {
    StartGrows(changes, gop, m + 1, j);
    EarlierStart(changes, gop, j);
    hide Start, SegmentMean;
    if m + 1 < j {
      MeansAt(sizes, changes, gop, j - 1, m, k);
    }
  }

  /** Past the last segment there are no frames. */
  lemma NoFrames(changes: seq<bool>, gop: nat, n: nat, j: nat)
    requires n <= j && Start(changes, gop, n) == |changes|
    ensures Start(changes, gop, j) == |changes|
  {
    StartGrows(changes, gop, n, j);
  }

  lemma DeviationsEven(sizes: seq<nat>, changes: seq<bool>, gop: nat)
    requires |sizes| == |changes| > 0 && gop > 0 && Mean(sizes, changes, gop) > 0
    ensures Even(SequenceDeviations(sizes, changes, gop), changes, gop)
  {
    var n, mean := Segments(changes, gop, 0), Mean(sizes, changes, gop);
    var means, ds := Means(sizes, changes, gop, n), SequenceDeviations(sizes, changes, gop);
    assert ds == Deviations(means, mean);
    assert forall k :: 0 <= k < |means| ==> ds[k] == Quotient(means[k] * 1000, mean) - 1000;
    hide SequenceDeviations, Deviations, Means, Mean, Segments, Quotient, SegmentMean, Start;
    forall j: nat, k: nat | Start(changes, gop, j) <= k < Start(changes, gop, j + 1)
      ensures ds[k] == ds[Start(changes, gop, j)]
    {
      if n <= j {
        NoFrames(changes, gop, n, j);
      } else {
        MeansAt(sizes, changes, gop, n, j, k);
        MeansAt(sizes, changes, gop, n, j, Start(changes, gop, j));
      }
    }
  }

  /** For every sequence of frames the second pass plans levels that stay inside the buffer. */
  lemma SequenceFits(sizes: seq<nat>, changes: seq<bool>, gop: nat, rate: nat, cpb: int, initial: int, j: nat)
    requires |sizes| == |changes| > 0 && gop > 0 && Mean(sizes, changes, gop) > 0
    requires rate > 0 && 0 <= initial <= cpb && j <= Segments(changes, gop, 0)
    ensures j > 0 ==> Start(changes, gop, j - 1) < |changes|
    ensures var ds := SequenceDeviations(sizes, changes, gop);
            var plan := Planned(AllScaled(ds, Scale(ds, rate, cpb, initial)), changes, gop, rate, initial, j);
            100 * initial - 1000 * (Start(changes, gop, j) + j) <= 1000 * plan
            <= 1000 * cpb + 1000 * (Start(changes, gop, j) + j)
  {
    if j > 0 {
      StartGrows(changes, gop, j - 1, Segments(changes, gop, 0) - 1);
    }
    DeviationsEven(sizes, changes, gop);
    var ds := SequenceDeviations(sizes, changes, gop);
    var coeff := Scale(ds, rate, cpb, initial);
    assert IsScaled(AllScaled(ds, coeff), ds, coeff);
    hide *;
    PlanFits(ds, AllScaled(ds, coeff), changes, gop, rate, cpb, initial, j);
  }

  // ---------------------------------------------------------------------------------------------
  // Target levels
  // ---------------------------------------------------------------------------------------------

  /** Frame k of segment m has the segment's target. */
  lemma {:induction false} TargetsAt(scaled: seq<int>, changes: seq<bool>, gop: nat, rate: nat, initial: int, j: nat, m: nat, k: nat)
    requires |scaled| == |changes| && rate > 0 && (j > 0 ==> Start(changes, gop, j - 1) < |changes|)
    requires m < j && Start(changes, gop, m) <= k < Start(changes, gop, m + 1)
    ensures k < Start(changes, gop, j) && Start(changes, gop, m) < |changes|
    ensures Targets(scaled, changes, gop, rate, initial, j)[k] == Target(scaled, changes, gop, rate, initial, m)
    decreases j
  {
    StartGrows(changes, gop, m + 1, j);
    EarlierStart(changes, gop, j);
    hide Start, Target;
    if m + 1 < j {
      TargetsAt(scaled, changes, gop, rate, initial, j - 1, m, k);
    }
  }

  /** A segment of a whole GOP aims at the level planned for its end. */
  lemma WholeSegment(scaled: seq<int>, changes: seq<bool>, gop: nat, rate: nat, initial: int, j: nat)
    requires |scaled| == |changes| && rate > 0 && Start(changes, gop, j) < |changes|
    requires Start(changes, gop, j + 1) - Start(changes, gop, j) == gop
    ensures Target(scaled, changes, gop, rate, initial, j) == Planned(scaled, changes, gop, rate, initial, j + 1)
  {
    EarlierStart(changes, gop, j + 1);
    hide Start, Quotient;
  }

  /** For every sequence of frames: the target level stored in each frame of a whole segment is inside the
      buffer, up to one unit for each frame and segment up to the end of that one. */
  lemma TargetsFit(sizes: seq<nat>, changes: seq<bool>, gop: nat, rate: nat, cpb: int, initial: int, j: nat, k: nat)
    requires |sizes| == |changes| > 0 && gop > 0 && Mean(sizes, changes, gop) > 0
    requires rate > 0 && 0 <= initial <= cpb && j < Segments(changes, gop, 0)
    requires Start(changes, gop, j) <= k < Start(changes, gop, j + 1) == Start(changes, gop, j) + gop
    ensures var ds, n := SequenceDeviations(sizes, changes, gop), Segments(changes, gop, 0);
            var targets := Targets(AllScaled(ds, Scale(ds, rate, cpb, initial)), changes, gop, rate, initial, n);
            var error := 1000 * (Start(changes, gop, j + 1) + j + 1);
            k < |targets| && 100 * initial - error <= 1000 * targets[k] <= 1000 * cpb + error
  {
    var ds, n := SequenceDeviations(sizes, changes, gop), Segments(changes, gop, 0);
    var scaled := AllScaled(ds, Scale(ds, rate, cpb, initial));
    SequenceFits(sizes, changes, gop, rate, cpb, initial, j + 1);
    hide Start, SequenceDeviations, AllScaled, Scale, Segments, Planned, Targets;
    TargetsAt(scaled, changes, gop, rate, initial, n, j, k);
    WholeSegment(scaled, changes, gop, rate, initial, j);
  }

  /** x, divided by rate and truncated, is at most p. */
  predicate AtMost(x: int, p: int, rate: nat) {
    if p >= 0 then x < (p + 1) * rate else x <= p * rate
  }

  lemma AtMostIs(x: int, p: int, rate: nat)
    requires rate > 0
    ensures Quotient(x, rate) <= p <==> AtMost(x, p, rate)
  {
    Truncates(x, rate);
    var q := Quotient(x, rate);
    hide Quotient;
    if q <= p {
      MulLessOrEqual(rate, q, p);
      assert (p + 1) * rate == p * rate + rate;
    } else {
      MulLessOrEqual(rate, p + 1, q);
    }
  }

  lemma Opposite(x: int, rate: nat)
    requires rate > 0
    ensures Quotient(-x, rate) == -Quotient(x, rate)
  {
    assert Abs(-x) == Abs(x);
  }

  /** For every segment, also one that a scene change or the end cuts: its target is inside the buffer
      exactly when the level planned for its beginning, and the room above that level, can take a whole
      GOP of its deviation. */
  lemma TargetInside(scaled: seq<int>, changes: seq<bool>, gop: nat, rate: nat, cpb: int, initial: int, j: nat)
    requires |scaled| == |changes| && rate > 0 && Start(changes, gop, j) < |changes|
    requires j > 0 ==> Start(changes, gop, j - 1) < |changes|
    ensures var plan := Planned(scaled, changes, gop, rate, initial, j);
            var whole := gop * scaled[Start(changes, gop, j)];
            0 <= Target(scaled, changes, gop, rate, initial, j) <= cpb <==>
            AtMost(whole, plan, rate) && AtMost(-whole, cpb - plan, rate)
  {
    hide Start, Planned, Quotient, AtMost;
    var plan := Planned(scaled, changes, gop, rate, initial, j);
    var whole := gop * scaled[Start(changes, gop, j)];
    AtMostIs(whole, plan, rate);
    AtMostIs(-whole, cpb - plan, rate);
    Opposite(whole, rate);
  }

  /** A cut segment's target is off the level planned for its end by what the frames it lacks would
      have added, and by nothing else but one truncation. */
  lemma CutSegment(scaled: seq<int>, changes: seq<bool>, gop: nat, rate: nat, initial: int, j: nat)
    requires |scaled| == |changes| && rate > 0 && gop > 0 && Start(changes, gop, j) < |changes|
    ensures var i, k := Start(changes, gop, j), Start(changes, gop, j + 1);
            var off := Target(scaled, changes, gop, rate, initial, j) - Planned(scaled, changes, gop, rate, initial, j + 1);
            k - i <= gop && Abs(rate * off + (gop - (k - i)) * scaled[i]) <= 2 * (rate - 1)
  {
    EarlierStart(changes, gop, j + 1);
    var i, k := Start(changes, gop, j), Start(changes, gop, j + 1);
    var d, len := scaled[i], k - i;
    Truncates(gop * d, rate);
    Truncates(len * d, rate);
    Offset(gop * d, len * d, Quotient(gop * d, rate), Quotient(len * d, rate), rate);
    hide Quotient, Planned;
    assert (gop - len) * d == gop * d - len * d;
  }

  lemma Offset(whole: int, part: int, q: int, p: int, rate: int)
    requires Abs(whole - q * rate) <= rate - 1 && Abs(part - p * rate) <= rate - 1
    ensures Abs(rate * (p - q) + (whole - part)) <= 2 * (rate - 1)
  {
    assert rate * (p - q) == p * rate - q * rate;
  }

  /** What a cut segment's target can be off by: the deviation of the frames it lacks, and two units. */
  function Excess(missing: nat, deviation: int, rate: nat): nat
    requires rate > 0
  {
    ProductOfNats(missing, Abs(deviation));
    QuotientOfNats(missing * Abs(deviation), rate);
    missing * Abs(deviation) / rate + 2
  }

  lemma ExcessBounds(missing: nat, deviation: int, rate: nat, off: int)
    requires rate > 0 && Abs(rate * off + missing * deviation) <= 2 * (rate - 1)
    ensures Abs(off) <= Excess(missing, deviation, rate)
  {
    AbsTimes(missing, deviation);
    ShareBounds(rate * off, missing * Abs(deviation), rate);
    Multiple(off, rate, missing * Abs(deviation) / rate + 3);
  }

  lemma ShareBounds(y: int, x: nat, rate: nat)
    requires rate > 0 && Abs(y) <= x + 2 * (rate - 1)
    ensures Abs(y) < rate * (x / rate + 3)
  {
    assert x == rate * (x / rate) + x % rate;
    assert rate * (x / rate + 3) == rate * (x / rate) + 3 * rate;
  }

  lemma Multiple(off: int, rate: nat, bound: int)
    requires rate > 0 && Abs(rate * off) < rate * bound
    ensures Abs(off) < bound
  {
    if off >= bound {
      MulLessOrEqual(rate, bound, off);
    } else if off <= 0 - bound {
      MulLessOrEqual(rate, off, 0 - bound);
    }
  }

  /** For every sequence of frames and every frame of it: the stored target level is inside the buffer, up
      to one unit for each frame and segment and what the frames lacking to a whole GOP would have added. */
  lemma TargetEnvelope(sizes: seq<nat>, changes: seq<bool>, gop: nat, rate: nat, cpb: int, initial: int, j: nat, k: nat)
    requires |sizes| == |changes| > 0 && gop > 0 && Mean(sizes, changes, gop) > 0
    requires rate > 0 && 0 <= initial <= cpb && j < Segments(changes, gop, 0)
    requires Start(changes, gop, j) <= k < Start(changes, gop, j + 1)
    ensures var ds, n := SequenceDeviations(sizes, changes, gop), Segments(changes, gop, 0);
            var scaled := AllScaled(ds, Scale(ds, rate, cpb, initial));
            var targets, i, next := Targets(scaled, changes, gop, rate, initial, n), Start(changes, gop, j), Start(changes, gop, j + 1);
            && k < |targets| && i < |scaled| && next - i <= gop
            && var error := 1000 * (next + j + 1 + Excess(gop - (next - i), scaled[i], rate));
               100 * initial - error <= 1000 * targets[k] <= 1000 * cpb + error
  {
    var ds, n := SequenceDeviations(sizes, changes, gop), Segments(changes, gop, 0);
    var scaled := AllScaled(ds, Scale(ds, rate, cpb, initial));
    SequenceFits(sizes, changes, gop, rate, cpb, initial, j + 1);
    hide *;
    TargetsAt(scaled, changes, gop, rate, initial, n, j, k);
    TargetNear(scaled, changes, gop, rate, initial, j);
  }

  lemma TargetNear(scaled: seq<int>, changes: seq<bool>, gop: nat, rate: nat, initial: int, j: nat)
    requires |scaled| == |changes| && rate > 0 && gop > 0 && Start(changes, gop, j) < |changes|
    ensures var i, next := Start(changes, gop, j), Start(changes, gop, j + 1);
            var end := Planned(scaled, changes, gop, rate, initial, j + 1);
            next - i <= gop
            && var excess := Excess(gop - (next - i), scaled[i], rate);
               end - excess <= Target(scaled, changes, gop, rate, initial, j) <= end + excess
  {
    CutSegment(scaled, changes, gop, rate, initial, j);
    hide Start, Planned, Target, Excess;
    var i, next := Start(changes, gop, j), Start(changes, gop, j + 1);
    ExcessBounds(gop - (next - i), scaled[i], rate,
                 Target(scaled, changes, gop, rate, initial, j) - Planned(scaled, changes, gop, rate, initial, j + 1));
  }

  /** Two frames, a scene change between them, a GOP of ten: the first frame aims at 550 in a buffer
      of 100. */
  lemma TargetTooHigh(sizes: seq<nat>, changes: seq<bool>)
    requires sizes == [1, 3] && changes == [true, false]
    ensures Segments(changes, 10, 0) == 2 && Mean(sizes, changes, 10) > 0
    ensures var ds := SequenceDeviations(sizes, changes, 10);
            ds == [-500, 500] && Scale(ds, 1, 100, 50) == 100
            && Targets(AllScaled(ds, 100), changes, 10, 1, 50, 2)[0] == 550
  {
    TwoStarts(changes);
    assert Segments(changes, 10, 2) == 2 && Segments(changes, 10, 1) == 2;
    TwoMeans(sizes, changes);
    hide Means, Mean, Start, Segments, SegmentLength;
    var ds := SequenceDeviations(sizes, changes, 10);
    assert ds == [-500, 500];
    TwoLevels(ds);
    var scaled := AllScaled(ds, 100);
    assert scaled == [-50, 50];
    TargetsAt(scaled, changes, 10, 1, 50, 2, 0, 0);
    assert Planned(scaled, changes, 10, 1, 50, 0) == 50;
  }

  lemma TwoStarts(changes: seq<bool>)
    requires changes == [true, false]
    ensures Start(changes, 10, 0) == 0 && Start(changes, 10, 1) == 1 && Start(changes, 10, 2) == 2
  {
    assert SegmentLength(changes, 10, 0, 0) == 1;
    assert SegmentLength(changes, 10, 1, 1) == 1;
    assert SegmentLength(changes, 10, 1, 0) == 1;
  }

  lemma TwoMeans(sizes: seq<nat>, changes: seq<bool>)
    requires sizes == [1, 3] && changes == [true, false] && Segments(changes, 10, 0) == 2
    requires Start(changes, 10, 0) == 0 && Start(changes, 10, 1) == 1 && Start(changes, 10, 2) == 2
    ensures Means(sizes, changes, 10, 2) == [1, 3] && Mean(sizes, changes, 10) == 2
  {
    hide SegmentLength, Start;
    assert Sum(sizes, 0, 0) == 0 && Sum(sizes, 0, 1) == 1;
    assert SegmentMean(sizes, changes, 10, 0) == 1;
    assert Sum(sizes, 1, 1) == 0 && Sum(sizes, 1, 2) == 3;
    assert SegmentMean(sizes, changes, 10, 1) == 3;
    assert MeanSum(sizes, changes, 10, 1) == 1;
    assert Means(sizes, changes, 10, 1) == [1];
  }

  lemma TwoLevels(ds: seq<int>)
    requires ds == [-500, 500]
    ensures Scale(ds, 1, 100, 50) == 100
  {
    assert Level(ds, 1, 1) == 500 && Level(ds, 1, 2) == 0;
    assert HighestLevel(ds, 1, 1) == 500 && LowestLevel(ds, 1, 1) == 0;
  }
}
