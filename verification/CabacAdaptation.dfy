/** What a context is for: it starts where the standards put it, and it learns. Neither says how the
    tables of the coder are stored. */
module CabacAdaptation {
  import opened Bits
  import opened CabacTables

  // ---------------------------------------------------------------------------------------------
  // Starting
  // ---------------------------------------------------------------------------------------------

  function Clip3(low: int, high: int, v: int): int {
    if v < low then low else if v > high then high else v
  }

  /** The initialisation of sections 9.3.1.1 of H.264 and 9.3.2.2 of H.265 with slope m and offset n. */
  function Initialised(m: int, n: int, qp: nat): Context {
    var pre := Clip3(1, 126, m * Clip3(0, 51, qp) / 16 + n);
    if pre <= 63 then Context(63 - pre, 0) else Context(pre - 64, 1)
  }

  /** H.265 packs slope and offset in one byte. */
  function FromInitValue(v: nat, qp: nat): Context {
    Initialised(v / 16 * 5 - 45, v % 16 * 8 - 16, qp)
  }

  // ---------------------------------------------------------------------------------------------
  // Learning
  // ---------------------------------------------------------------------------------------------

  /** How firmly a context expects bin b: the higher, the more probable. */
  function Rank(x: Context, b: Bit): int {
    if x.mps == b then x.state else -1 - x.state
  }

  /** A bin makes itself more expected: never less, and always more when the other was expected. The
      state that is kept for terminating bins is not entered. */
  lemma AdaptTowards(x: Context, b: Bit)
    requires x.state < 63
    ensures Adapt(x, b).state < 63
    ensures Rank(Adapt(x, b), b) >= Rank(x, b)
    ensures b != x.mps || x.state < 62 ==> Rank(Adapt(x, b), b) > Rank(x, b)
  {
    TransitionsOrdered(x.state);
  }

  lemma TransitionsOrdered(s: StateIdx)
    requires s < 63
    ensures |TRANS_IDX_MPS| == |TRANS_IDX_LPS| == 64
    ensures s <= TRANS_IDX_MPS[s] < 63 && (s < 62 ==> TRANS_IDX_MPS[s] == s + 1)
    ensures TRANS_IDX_LPS[s] <= s && (s > 0 ==> TRANS_IDX_LPS[s] < s)
  {
    MpsSteps();
    LpsSteps();
  }

  lemma MpsSteps()
    ensures |TRANS_MPS_0| == |TRANS_MPS_1| == |TRANS_MPS_2| == |TRANS_MPS_3| == 16
    ensures forall i :: 0 <= i < 16 ==> TRANS_MPS_0[i] == i + 1
    ensures forall i :: 0 <= i < 16 ==> TRANS_MPS_1[i] == 17 + i
    ensures forall i :: 0 <= i < 16 ==> TRANS_MPS_2[i] == 33 + i
    ensures forall i :: 0 <= i < 14 ==> TRANS_MPS_3[i] == 49 + i
    ensures TRANS_MPS_3[14] == 62 && TRANS_MPS_3[15] == 63
  {
  }

  lemma LpsSteps()
    ensures |TRANS_LPS_0| == |TRANS_LPS_1| == |TRANS_LPS_2| == |TRANS_LPS_3| == 16
    ensures TRANS_LPS_0[0] == 0 && forall i :: 0 < i < 16 ==> TRANS_LPS_0[i] < i
    ensures forall i :: 0 <= i < 16 ==> TRANS_LPS_1[i] < 16 + i
    ensures forall i :: 0 <= i < 16 ==> TRANS_LPS_2[i] < 32 + i
    ensures forall i :: 0 <= i < 15 ==> TRANS_LPS_3[i] < 48 + i
  {
  }

  /** The part of a range that is bin b's. */
  function Width(x: Context, b: Bit, range: nat): int {
    if x.mps == b then range - LpsRange(x, range) else LpsRange(x, range)
  }

  /** Of two contexts with the same most probable bin the one that expects b more gives it no narrower
      part, whatever the range. */
  lemma RankWidens(x: Context, y: Context, b: Bit, range: nat)
    requires x.mps == y.mps && Rank(x, b) <= Rank(y, b)
    ensures Width(x, b, range) <= Width(y, b, range)
  {
    if x.mps == b {
      NarrowsTo(x.state, y.state, range / 64 % 4);
    } else {
      NarrowsTo(y.state, x.state, range / 64 % 4);
    }
  }

  lemma {:induction false} NarrowsTo(s: StateIdx, u: StateIdx, q: nat)
    requires s <= u && q < 4
    ensures |TAB_RANGE_LPS| == 64 && TAB_RANGE_LPS[u].At(q) <= TAB_RANGE_LPS[s].At(q)
    decreases u
  {
    hide *;
    TableSizes();
    if s < u {
      NarrowsTo(s, u - 1, q);
      RowsOrdered(u - 1, q);
    }
  }

  lemma RowsOrdered(s: StateIdx, q: nat)
    requires s < 63 && q < 4
    ensures |TAB_RANGE_LPS| == 64 && TAB_RANGE_LPS[s + 1].At(q) <= TAB_RANGE_LPS[s].At(q)
  {
    RowsDescend();
    hide RANGE_LPS_0, RANGE_LPS_1, RANGE_LPS_2, RANGE_LPS_3;
  }

  /** Each width is no larger than the one above it. */
  predicate NoWider(a: RangeRow, b: RangeRow) {
    a.q0 <= b.q0 && a.q1 <= b.q1 && a.q2 <= b.q2 && a.q3 <= b.q3
  }

  lemma RowsDescend()
    ensures |RANGE_LPS_0| == |RANGE_LPS_1| == |RANGE_LPS_2| == |RANGE_LPS_3| == 16
    ensures forall i :: 0 <= i < 15 ==> NoWider(RANGE_LPS_0[i + 1], RANGE_LPS_0[i])
    ensures forall i :: 0 <= i < 15 ==> NoWider(RANGE_LPS_1[i + 1], RANGE_LPS_1[i])
    ensures forall i :: 0 <= i < 15 ==> NoWider(RANGE_LPS_2[i + 1], RANGE_LPS_2[i])
    ensures forall i :: 0 <= i < 15 ==> NoWider(RANGE_LPS_3[i + 1], RANGE_LPS_3[i])
    ensures NoWider(RANGE_LPS_1[0], RANGE_LPS_0[15]) && NoWider(RANGE_LPS_2[0], RANGE_LPS_1[15])
    ensures NoWider(RANGE_LPS_3[0], RANGE_LPS_2[15])
  {
  }

  /** A wider range has no narrower parts. */
  lemma WidthGrows(x: Context, range: nat, range': nat)
    requires 256 <= range <= range' <= 510
    ensures LpsRange(x, range) <= LpsRange(x, range')
  {
    QuartersOrdered(x.state);
  }

  lemma QuartersOrdered(s: StateIdx)
    ensures |TAB_RANGE_LPS| == 64
    ensures var row := TAB_RANGE_LPS[s]; row.q0 <= row.q1 <= row.q2 <= row.q3
  {
    RowsAscend();
    hide RANGE_LPS_0, RANGE_LPS_1, RANGE_LPS_2, RANGE_LPS_3;
  }

  predicate Ascending(row: RangeRow) {
    row.q0 <= row.q1 <= row.q2 <= row.q3
  }

  lemma RowsAscend()
    ensures |RANGE_LPS_0| == |RANGE_LPS_1| == |RANGE_LPS_2| == |RANGE_LPS_3| == 16
    ensures forall i :: 0 <= i < 16 ==> Ascending(RANGE_LPS_0[i]) && Ascending(RANGE_LPS_1[i])
    ensures forall i :: 0 <= i < 16 ==> Ascending(RANGE_LPS_2[i]) && Ascending(RANGE_LPS_3[i])
  {
  }
}
