/** The probability tables of the arithmetic coder, shared by encoder and decoder. */
module CabacTables {
  import opened Bits

  type StateIdx = s: int | 0 <= s < 64
  type RangeLps = r: int | 2 <= r <= 240 witness 2

  /** The four widths of one state, by quarter of the range. */
  datatype RangeRow = Row(q0: RangeLps, q1: RangeLps, q2: RangeLps, q3: RangeLps) {
    function At(q: nat): RangeLps {
      if q == 0 then q0 else if q == 1 then q1 else if q == 2 then q2 else q3
    }
  }

  const RANGE_LPS_0: seq<RangeRow> := [
    Row(128, 176, 208, 240), Row(128, 167, 197, 227), Row(128, 158, 187, 216), Row(123, 150, 178, 205),
    Row(116, 142, 169, 195), Row(111, 135, 160, 185), Row(105, 128, 152, 175), Row(100, 122, 144, 166),
    Row(95, 116, 137, 158), Row(90, 110, 130, 150), Row(85, 104, 123, 142), Row(81, 99, 117, 135),
    Row(77, 94, 111, 128), Row(73, 89, 105, 122), Row(69, 85, 100, 116), Row(66, 80, 95, 110)
  ]

  const RANGE_LPS_1: seq<RangeRow> := [
    Row(62, 76, 90, 104), Row(59, 72, 86, 99), Row(56, 69, 81, 94), Row(53, 65, 77, 89),
    Row(51, 62, 73, 85), Row(48, 59, 69, 80), Row(46, 56, 66, 76), Row(43, 53, 63, 72),
    Row(41, 50, 59, 69), Row(39, 48, 56, 65), Row(37, 45, 54, 62), Row(35, 43, 51, 59),
    Row(33, 41, 48, 56), Row(32, 39, 46, 53), Row(30, 37, 43, 50), Row(29, 35, 41, 48)
  ]

  const RANGE_LPS_2: seq<RangeRow> := [
    Row(27, 33, 39, 45), Row(26, 31, 37, 43), Row(24, 30, 35, 41), Row(23, 28, 33, 39),
    Row(22, 27, 32, 37), Row(21, 26, 30, 35), Row(20, 24, 29, 33), Row(19, 23, 27, 31),
    Row(18, 22, 26, 30), Row(17, 21, 25, 28), Row(16, 20, 23, 27), Row(15, 19, 22, 25),
    Row(14, 18, 21, 24), Row(14, 17, 20, 23), Row(13, 16, 19, 22), Row(12, 15, 18, 21)
  ]

  const RANGE_LPS_3: seq<RangeRow> := [
    Row(12, 14, 17, 20), Row(11, 14, 16, 19), Row(11, 13, 15, 18), Row(10, 12, 15, 17),
    Row(10, 12, 14, 16), Row(9, 11, 13, 15), Row(9, 11, 12, 14), Row(8, 10, 12, 14),
    Row(8, 9, 11, 13), Row(7, 9, 11, 12), Row(7, 9, 10, 12), Row(7, 8, 10, 11),
    Row(6, 8, 9, 11), Row(6, 7, 9, 10), Row(6, 7, 8, 9), Row(2, 2, 2, 2)
  ]

  /** By quarters, of sixteen states each. */
  const TAB_RANGE_LPS: seq<RangeRow> := RANGE_LPS_0 + RANGE_LPS_1 + RANGE_LPS_2 + RANGE_LPS_3

  const TRANS_MPS_0: seq<StateIdx> :=
    [1, 2, 3, 4, 5, 6, 7, 8, 9, 10, 11, 12, 13, 14, 15, 16]

  const TRANS_MPS_1: seq<StateIdx> :=
    [17, 18, 19, 20, 21, 22, 23, 24, 25, 26, 27, 28, 29, 30, 31, 32]

  const TRANS_MPS_2: seq<StateIdx> :=
    [33, 34, 35, 36, 37, 38, 39, 40, 41, 42, 43, 44, 45, 46, 47, 48]

  const TRANS_MPS_3: seq<StateIdx> :=
    [49, 50, 51, 52, 53, 54, 55, 56, 57, 58, 59, 60, 61, 62, 62, 63]

  const TRANS_IDX_MPS: seq<StateIdx> := TRANS_MPS_0 + TRANS_MPS_1 + TRANS_MPS_2 + TRANS_MPS_3

  const TRANS_LPS_0: seq<StateIdx> :=
    [0, 0, 1, 2, 2, 4, 4, 5, 6, 7, 8, 9, 9, 11, 11, 12]

  const TRANS_LPS_1: seq<StateIdx> :=
    [13, 13, 15, 15, 16, 16, 18, 18, 19, 19, 21, 21, 22, 22, 23, 24]

  const TRANS_LPS_2: seq<StateIdx> :=
    [24, 25, 26, 26, 27, 27, 28, 29, 29, 30, 30, 30, 31, 32, 32, 33]

  const TRANS_LPS_3: seq<StateIdx> :=
    [33, 33, 34, 34, 35, 35, 35, 36, 36, 36, 37, 37, 37, 38, 38, 63]

  const TRANS_IDX_LPS: seq<StateIdx> := TRANS_LPS_0 + TRANS_LPS_1 + TRANS_LPS_2 + TRANS_LPS_3

  lemma TableSizes()
    ensures |TAB_RANGE_LPS| == |TRANS_IDX_MPS| == |TRANS_IDX_LPS| == 64
  {
  }

  /** The adaptive state of one context: probability index and most probable bin. */
  datatype Context = Context(state: StateIdx, mps: Bit)

  /** The width of the less probable part of a 9-bit range. */
  function LpsRange(x: Context, range: nat): RangeLps
  {
    TableSizes();
    TAB_RANGE_LPS[x.state].At(range / 64 % 4)
  }

  /** How a context adapts to a bin (section 9.3.3.2.1.1 of H.264). */
  function Adapt(x: Context, bin: Bit): Context
  {
    TableSizes();
    if bin == x.mps then x.(state := TRANS_IDX_MPS[x.state])
    else Context(TRANS_IDX_LPS[x.state], if x.state == 0 then 1 - x.mps else x.mps)
  }
}
