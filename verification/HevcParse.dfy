/** Reading a tile back: the parsing process of section 7.3.8 of ITU-T H.265, which chooses every context
    from the units it has read so far. */
module HevcParse {
  import opened Common
  import opened Bits
  import opened CabacModel
  import opened HevcQuadtree
  import opened HevcLeaves
  import opened HevcDepth
  import opened HevcTile
  import opened HevcCoverage
  import opened Option

  // ---------------------------------------------------------------------------------------------
  // The parser
  // ---------------------------------------------------------------------------------------------

  /** The next bin, when it was coded with the context asked for. */
  function ReadBin(syms: seq<Symbol>, ctx: nat): Option<(Bit, seq<Symbol>)> {
    if syms != [] && syms[0].Regular? && syms[0].ctx == ctx then Some((syms[0].bin, syms[1..])) else None
  }

  /** The next bin, when it was coded as a terminating one. */
  function ReadEnd(syms: seq<Symbol>): Option<(Bit, seq<Symbol>)> {
    if syms != [] && syms[0].Terminate? then Some((syms[0].bin, syms[1..])) else None
  }

  /** The unit over a cell, None when none has been read there. */
  function UnitOver(done: seq<Unit>, a: int, b: int): Option<Unit> {
    if done == [] || a < 0 || b < 0 then None
    else if done[|done| - 1].Contains(a, b) then Some(done[|done| - 1])
    else UnitOver(done[..|done| - 1], a, b)
  }

  /** ctxInc of split_cu_flag: neighbours that are available and split more deeply. */
  function SplitInc(done: seq<Unit>, x: nat, y: nat, k: nat): nat {
    var left, above := UnitOver(done, x - 1, y), UnitOver(done, x, y - 1);
    (if left.Some? && left.value.k < k then 1 else 0) + (if above.Some? && above.value.k < k then 1 else 0)
  }

  /** ctxInc of cu_skip_flag: neighbours that are available and, as all that are read, skipped. */
  function SkipInc(done: seq<Unit>, x: nat, y: nat): nat {
    (if UnitOver(done, x - 1, y).Some? then 1 else 0) + (if UnitOver(done, x, y - 1).Some? then 1 else 0)
  }

  /** coding_unit as far as it is skipped, with merge index 0: what follows it. */
  function ParseUnit(done: seq<Unit>, x: nat, y: nat, syms: seq<Symbol>): Option<seq<Symbol>> {
    match ReadBin(syms, 1 + SkipInc(done, x, y))
    case None => None
    case Some((skipped, rest)) =>
      if skipped == 0 then None
      else
        match ReadBin(rest, 4)
        case None => None
        case Some((mergeIdx, behind)) => if mergeIdx == 0 then Some(behind) else None
  }

  function Leaf(done: seq<Unit>, x: nat, y: nat, k: nat, syms: seq<Symbol>): Option<(seq<Unit>, seq<Symbol>)> {
    match ParseUnit(done, x, y, syms)
    case None => None
    case Some(rest) => Some((done + [Unit(x, y, k)], rest))
  }

  /** coding_quadtree: all units read by then, and what follows. The split flag is read where the block
      lies in the picture and can be split; it is 1 where it does not, and 0 for the smallest. */
  function ParseQuad(done: seq<Unit>, x: nat, y: nat, k: nat, w: nat, h: nat, syms: seq<Symbol>)
    : Option<(seq<Unit>, seq<Symbol>)>
    decreases k, 0
  {
    if k == 0 then Leaf(done, x, y, k, syms)
    else if x + Pow2(k) <= w && y + Pow2(k) <= h then
      match ReadBin(syms, SplitIndex(SplitInc(done, x, y, k)))
      case None => None
      case Some((split, rest)) =>
        if split == 0 then Leaf(done, x, y, k, rest) else ParseFour(done, x, y, k - 1, w, h, rest)
    else ParseFour(done, x, y, k - 1, w, h, syms)
  }

  /** The four quarters of a block, those outside the picture left out. */
  function ParseFour(done: seq<Unit>, x: nat, y: nat, k: nat, w: nat, h: nat, syms: seq<Symbol>)
    : Option<(seq<Unit>, seq<Symbol>)>
    decreases k, 2
  {
    var x1, y1 := x + Pow2(k), y + Pow2(k);
    match ParseQuarter(done, x, y, k, w, h, syms)
    case None => None
    case Some((done1, syms1)) =>
      match ParseQuarter(done1, x1, y, k, w, h, syms1)
      case None => None
      case Some((done2, syms2)) =>
        match ParseQuarter(done2, x, y1, k, w, h, syms2)
        case None => None
        case Some((done3, syms3)) => ParseQuarter(done3, x1, y1, k, w, h, syms3)
  }

  function ParseQuarter(done: seq<Unit>, x: nat, y: nat, k: nat, w: nat, h: nat, syms: seq<Symbol>)
    : Option<(seq<Unit>, seq<Symbol>)>
    decreases k, 1
  {
    if x < w && y < h then ParseQuad(done, x, y, k, w, h, syms) else Some((done, syms))
  }

  /** The end of largest unit n of total: end_of_slice_segment_flag, set behind the last unit of the last
      tile only, and behind the last of another one end_of_subset_one_bit. */
  function ParseEnd(last: bool, lastTile: bool, syms: seq<Symbol>): Option<seq<Symbol>> {
    match ReadEnd(syms)
    case None => None
    case Some((end, rest)) =>
      if (end == 1) != (last && lastTile) then None
      else if !last || lastTile then Some(rest)
      else
        match ReadEnd(rest)
        case None => None
        case Some((one, behind)) => if one == 1 then Some(behind) else None
  }

  /** Largest units n to total - 1 in raster order, up to the end of the tile. */
  function ParseLcus(done: seq<Unit>, n: nat, total: nat, lastTile: bool, w: nat, h: nat, K: nat, syms: seq<Symbol>)
    : Option<seq<Unit>>
    requires Lcus(w, K) > 0
    decreases total - n
  {
    if n >= total then if syms == [] then Some(done) else None
    else
      var cols := Lcus(w, K);
      QuotientOfNats(n, cols);
      ProductOfNats(n % cols, Pow2(K));
      ProductOfNats(n / cols, Pow2(K));
      match ParseQuad(done, n % cols * Pow2(K), n / cols * Pow2(K), K, w, h, syms)
      case None => None
      case Some((units, rest)) =>
        match ParseEnd(n + 1 == total, lastTile, rest)
        case None => None
        case Some(behind) => ParseLcus(units, n + 1, total, lastTile, w, h, K, behind)
  }

  /** A whole tile: its units, all skipped. */
  function ParseTile(lastTile: bool, w: nat, h: nat, K: nat, syms: seq<Symbol>): Option<seq<Unit>>
    requires Lcus(w, K) > 0
  {
    ProductOfNats(Lcus(w, K), Lcus(h, K));
    ParseLcus([], 0, Lcus(w, K) * Lcus(h, K), lastTile, w, h, K, syms)
  }

  // ---------------------------------------------------------------------------------------------
  // Neighbours
  // ---------------------------------------------------------------------------------------------

  lemma {:induction false} UnitOverIs(done: seq<Unit>, a: nat, b: nat)
    ensures UnitOver(done, a, b).Some? <==> Cover(done, a, b) >= 1
    ensures UnitOver(done, a, b).Some? ==> var u := UnitOver(done, a, b).value; u in done && u.Contains(a, b)
  {
    if done != [] {
      UnitOverIs(done[..|done| - 1], a, b);
    }
  }

  /** The cell left of column x in row b has been read, and the one above row y in column a. */
  predicate LeftRead(done: seq<Unit>, x: nat, b: nat)
    requires x > 0
  {
    Cover(done, x - 1, b) >= 1
  }

  predicate AboveRead(done: seq<Unit>, a: nat, y: nat)
    requires y > 0
  {
    Cover(done, a, y - 1) >= 1
  }

  /** What has been read next to a block: the column of cells on its left and the row above it. */
  ghost predicate Known(done: seq<Unit>, x: nat, y: nat, k: nat, w: nat, h: nat) {
    KnownLeft(done, x, y, k, h) && KnownAbove(done, x, y, k, w)
  }

  ghost predicate KnownLeft(done: seq<Unit>, x: nat, y: nat, k: nat, h: nat) {
    x > 0 ==> forall b: nat :: y <= b < y + Pow2(k) && b < h ==> LeftRead(done, x, b)
  }

  ghost predicate KnownAbove(done: seq<Unit>, x: nat, y: nat, k: nat, w: nat) {
    y > 0 ==> forall a: nat :: x <= a < x + Pow2(k) && a < w ==> AboveRead(done, a, y)
  }

  /** All units read have the level the quadtree of largest units gives their cells. */
  ghost predicate Faithful(done: seq<Unit>, K: nat, w: nat, h: nat) {
    forall u, a, b :: u in done && u.Contains(a, b) ==> LevelAt(a, b, K, w, h) == u.k
  }

  lemma SkipCounts(done: seq<Unit>, x: nat, y: nat, k: nat, w: nat, h: nat)
    requires x < w && y < h && Known(done, x, y, k, w, h)
    ensures SkipInc(done, x, y) == Bool(x > 0) + Bool(y > 0)
  {
    Halves(k);
    hide Cover, UnitOver, Pow2;
    if x > 0 {
      assert LeftRead(done, x, y);
      UnitOverIs(done, x - 1, y);
    } else {
      NoneOver(done, -1, y);
    }
    if y > 0 {
      assert AboveRead(done, x, y);
      UnitOverIs(done, x, y - 1);
    } else {
      NoneOver(done, x, -1);
    }
  }

  lemma NoneOver(done: seq<Unit>, a: int, b: int)
    requires a < 0 || b < 0
    ensures UnitOver(done, a, b) == None
  {
  }

  lemma SplitCounts(done: seq<Unit>, x: nat, y: nat, k: nat, K: nat, w: nat, h: nat)
    requires k <= K && x % Pow2(k) == 0 && y % Pow2(k) == 0 && x + Pow2(k) <= w && y + Pow2(k) <= h
    requires Faithful(done, K, w, h)
    ensures SplitInc(done, x, y, k) == 0
  {
    SplitContextZero(x, y, k, K, w, h);
    hide Cover, UnitOver, Pow2, LevelAt;
    if x > 0 {
      UnitOverIs(done, x - 1, y);
    } else {
      NoneOver(done, -1, y);
    }
    if y > 0 {
      UnitOverIs(done, x, y - 1);
    } else {
      NoneOver(done, x, -1);
    }
  }

  // ---------------------------------------------------------------------------------------------
  // Blocks
  // ---------------------------------------------------------------------------------------------

  /** The enclosing blocks, up to the largest unit, are all split. */
  ghost predicate Deep(x: nat, y: nat, k: nat, K: nat, w: nat, h: nat) {
    forall a: nat, b: nat :: x <= a < x + Pow2(k) && y <= b < y + Pow2(k) ==> LevelAt(a, b, K, w, h) == LevelAt(a, b, k, w, h)
  }

  lemma DeepQuarter(x: nat, y: nat, k: nat, K: nat, w: nat, h: nat, bitX: Bit, bitY: Bit)
    requires k > 0 && x % Pow2(k) == 0 && y % Pow2(k) == 0 && !Whole(x, y, k, w, h) && Deep(x, y, k, K, w, h)
    ensures var cx: nat, cy: nat := if bitX == 1 then x + Pow2(k - 1) else x, if bitY == 1 then y + Pow2(k - 1) else y;
            Deep(cx, cy, k - 1, K, w, h) && cx % Pow2(k - 1) == 0 && cy % Pow2(k - 1) == 0
  {
    Halves(k);
    HalfAligned(x, k - 1);
    HalfAligned(y, k - 1);
    hide LevelAt, Pow2, Whole;
    var cx: nat, cy: nat := if bitX == 1 then x + Pow2(k - 1) else x, if bitY == 1 then y + Pow2(k - 1) else y;
    forall a: nat, b: nat | cx <= a < cx + Pow2(k - 1) && cy <= b < cy + Pow2(k - 1)
      ensures LevelAt(a, b, K, w, h) == LevelAt(a, b, k - 1, w, h)
    {
      LevelStep(x, y, k, w, h, a, b);
    }
  }

  lemma FaithfulUnits(done: seq<Unit>, x: nat, y: nat, k: nat, K: nat, w: nat, h: nat)
    requires x % Pow2(k) == 0 && y % Pow2(k) == 0 && Deep(x, y, k, K, w, h) && Faithful(done, K, w, h)
    ensures Faithful(done + Units(x, y, k, w, h), K, w, h)
  {
    hide LevelAt, Units, Unit.Contains;
    var us := Units(x, y, k, w, h);
    forall u, a, b | u in done + us && u.Contains(a, b)
      ensures LevelAt(a, b, K, w, h) == u.k
    {
      if u !in done {
        UnitLevel(u, x, y, k, w, h, a, b);
        UnitExtent(u, x, y, k, w, h);
        UnitInBlock(u, x, y, k, a, b);
      }
    }
  }

  /** A block that is one unit. */
  lemma LeafParses(done: seq<Unit>, x: nat, y: nat, k: nat, w: nat, h: nat, rest: seq<Symbol>)
    requires x < w && y < h && Known(done, x, y, k, w, h)
    ensures Leaf(done, x, y, k, Cu(x > 0, y > 0, true) + rest) == Some((done + [Unit(x, y, k)], rest))
  {
    SkipCounts(done, x, y, k, w, h);
    hide SkipInc, Known;
    var syms := Cu(x > 0, y > 0, true) + rest;
    assert syms[1..][1..] == rest;
    assert syms[0] == Regular(1 + Bool(x > 0) + Bool(y > 0), 1) && syms[1] == Regular(4, 0);
  }

  lemma FlagParses(x: nat, y: nat, ctx: nat, rest: seq<Symbol>)
    requires ctx == 0
    ensures ReadBin(Cu(x > 0, y > 0, false) + rest, ctx) == Some((0, Cu(x > 0, y > 0, true) + rest))
  {
    var syms := Cu(x > 0, y > 0, false) + rest;
    assert syms[1..] == Cu(x > 0, y > 0, true) + rest;
  }

  /** What has been read by the end of a block covers it. */
  lemma CoversMore(done: seq<Unit>, x: nat, y: nat, k: nat, w: nat, h: nat, a: nat, b: nat)
    ensures Cover(done + Kid(x, y, k, w, h), a, b) >= Cover(done, a, b)
    ensures x <= a < x + Pow2(k) && y <= b < y + Pow2(k) && a < w && b < h ==> Cover(done + Kid(x, y, k, w, h), a, b) >= 1
  {
    hide *;
    CoverAppend(done, Kid(x, y, k, w, h), a, b);
    KidPartition(x, y, k, w, h, a, b);
    Contained(x, y, k, a, b);
  }

  lemma KnownLater(done: seq<Unit>, x': nat, y': nat, k': nat, x: nat, y: nat, k: nat, w: nat, h: nat)
    ensures KnownLeft(done, x, y, k, h) ==> KnownLeft(done + Kid(x', y', k', w, h), x, y, k, h)
    ensures KnownAbove(done, x, y, k, w) ==> KnownAbove(done + Kid(x', y', k', w, h), x, y, k, w)
  {
    hide Cover, Kid, Pow2;
    var later := done + Kid(x', y', k', w, h);
    if x > 0 && KnownLeft(done, x, y, k, h) {
      forall b: nat | y <= b < y + Pow2(k) && b < h
        ensures LeftRead(later, x, b)
      {
        assert LeftRead(done, x, b);
        CoversMore(done, x', y', k', w, h, x - 1, b);
      }
    }
    if y > 0 && KnownAbove(done, x, y, k, w) {
      forall a: nat | x <= a < x + Pow2(k) && a < w
        ensures AboveRead(later, a, y)
      {
        assert AboveRead(done, a, y);
        CoversMore(done, x', y', k', w, h, a, y - 1);
      }
    }
  }

  /** Parts of what is known about a block are known about its quarters. */
  lemma KnownParts(done: seq<Unit>, x: nat, y: nat, k: nat, w: nat, h: nat)
    requires Known(done, x, y, k + 1, w, h)
    ensures Known(done, x, y, k, w, h)
    ensures KnownAbove(done, x + Pow2(k), y, k, w) && KnownLeft(done, x, y + Pow2(k), k, h)
  {
    Halves(k + 1);
    hide LeftRead, AboveRead, Pow2;
  }

  /** A block that has been read is on the left of the next one, and above the one below it. */
  lemma KnownBeside(done: seq<Unit>, x: nat, y: nat, k: nat, w: nat, h: nat)
    ensures x + Pow2(k) < w ==> KnownLeft(done + Kid(x, y, k, w, h), x + Pow2(k), y, k, h)
    ensures y + Pow2(k) < h ==> KnownAbove(done + Kid(x, y, k, w, h), x, y + Pow2(k), k, w)
  {
    Halves(k);
    hide Cover, Kid, Pow2;
    var later, x1, y1 := done + Kid(x, y, k, w, h), x + Pow2(k), y + Pow2(k);
    if x1 < w {
      forall b: nat | y <= b < y + Pow2(k) && b < h
        ensures LeftRead(later, x1, b)
      {
        CoversMore(done, x, y, k, w, h, x1 - 1, b);
      }
    }
    if y1 < h {
      forall a: nat | x <= a < x + Pow2(k) && a < w
        ensures AboveRead(later, a, y1)
      {
        CoversMore(done, x, y, k, w, h, a, y1 - 1);
      }
    }
  }

  /** The symbols of the standard's walk are read as its units, with every context as coded. */
  lemma {:induction false} QuadParses(done: seq<Unit>, x: nat, y: nat, k: nat, K: nat, w: nat, h: nat, rest: seq<Symbol>)
    requires k <= K && x < w && y < h && x % Pow2(k) == 0 && y % Pow2(k) == 0
    requires Known(done, x, y, k, w, h) && Faithful(done, K, w, h) && Deep(x, y, k, K, w, h)
    ensures ParseQuad(done, x, y, k, w, h, Quad(x, y, k, w, h) + rest) == Some((done + Units(x, y, k, w, h), rest))
    ensures Faithful(done + Units(x, y, k, w, h), K, w, h)
    decreases k, 0
  {
    hide *;
    FaithfulUnits(done, x, y, k, K, w, h);
    if Whole(x, y, k, w, h) {
      OneUnit(x, y, k, w, h);
      LeafParses(done, x, y, k, w, h, rest);
      WholeIs(x, y, k, w, h);
      if k > 0 {
        SplitCounts(done, x, y, k, K, w, h);
        FlagParses(x, y, 0, rest);
      }
      WholeParses(done, x, y, k, w, h, Quad(x, y, k, w, h) + rest);
    } else {
      UnitsCut(x, y, k, w, h);
      WholeIs(x, y, k, w, h);
      QuadCut(x, y, k, w, h);
      FourParse(done, x, y, k - 1, K, w, h, rest);
      CutParses(done, x, y, k, w, h, Quad(x, y, k, w, h) + rest);
    }
  }

  lemma WholeIs(x: nat, y: nat, k: nat, w: nat, h: nat)
    ensures Whole(x, y, k, w, h) <==> k == 0 || (x + Pow2(k) <= w && y + Pow2(k) <= h)
  {
  }

  lemma WholeParses(done: seq<Unit>, x: nat, y: nat, k: nat, w: nat, h: nat, syms: seq<Symbol>)
    requires Whole(x, y, k, w, h) && (k > 0 ==> SplitInc(done, x, y, k) == 0)
    requires k > 0 ==> ReadBin(syms, 0).Some? && ReadBin(syms, 0).value.0 == 0
    ensures ParseQuad(done, x, y, k, w, h, syms) == Leaf(done, x, y, k, if k == 0 then syms else ReadBin(syms, 0).value.1)
  {
    hide ReadBin, SplitInc, Leaf;
  }

  lemma CutParses(done: seq<Unit>, x: nat, y: nat, k: nat, w: nat, h: nat, syms: seq<Symbol>)
    requires !Whole(x, y, k, w, h)
    ensures k > 0 && ParseQuad(done, x, y, k, w, h, syms) == ParseFour(done, x, y, k - 1, w, h, syms)
  {
    hide ParseFour;
  }

  lemma {:induction false} FourParse(done: seq<Unit>, x: nat, y: nat, k: nat, K: nat, w: nat, h: nat, rest: seq<Symbol>)
    requires k + 1 <= K && x < w && y < h && x % Pow2(k + 1) == 0 && y % Pow2(k + 1) == 0 && !Whole(x, y, k + 1, w, h)
    requires Known(done, x, y, k + 1, w, h) && Faithful(done, K, w, h) && Deep(x, y, k + 1, K, w, h)
    ensures var x1, y1 := x + Pow2(k), y + Pow2(k);
            var syms := Child(x, y, k, w, h) + Child(x1, y, k, w, h) + Child(x, y1, k, w, h) + Child(x1, y1, k, w, h);
            var us := Kid(x, y, k, w, h) + Kid(x1, y, k, w, h) + Kid(x, y1, k, w, h) + Kid(x1, y1, k, w, h);
            ParseFour(done, x, y, k, w, h, syms + rest) == Some((done + us, rest))
    decreases k, 2
  {
    hide *;
    var x1, y1 := x + Pow2(k), y + Pow2(k);
    DeepQuarter(x, y, k + 1, K, w, h, 0, 0);
    DeepQuarter(x, y, k + 1, K, w, h, 1, 0);
    DeepQuarter(x, y, k + 1, K, w, h, 0, 1);
    DeepQuarter(x, y, k + 1, K, w, h, 1, 1);
    var c1, c2, c3, c4 := Child(x, y, k, w, h), Child(x1, y, k, w, h), Child(x, y1, k, w, h), Child(x1, y1, k, w, h);
    var k1, k2, k3, k4 := Kid(x, y, k, w, h), Kid(x1, y, k, w, h), Kid(x, y1, k, w, h), Kid(x1, y1, k, w, h);
    KnownQuarters(done, x, y, k, w, h);
    QuarterParses(done, x, y, k, K, w, h, c2 + (c3 + (c4 + rest)));
    QuarterParses(done + k1, x1, y, k, K, w, h, c3 + (c4 + rest));
    QuarterParses(done + k1 + k2, x, y1, k, K, w, h, c4 + rest);
    QuarterParses(done + k1 + k2 + k3, x1, y1, k, K, w, h, rest);
    FourSteps(done, x, y, k, w, h, c1, c2, c3, c4, k1, k2, k3, k4, rest);
  }

  /** Each quarter knows its neighbours when its turn comes. */
  lemma KnownQuarters(done: seq<Unit>, x: nat, y: nat, k: nat, w: nat, h: nat)
    requires Known(done, x, y, k + 1, w, h)
    ensures var x1, y1 := x + Pow2(k), y + Pow2(k);
            var k1, k2, k3 := Kid(x, y, k, w, h), Kid(x1, y, k, w, h), Kid(x, y1, k, w, h);
            && Known(done, x, y, k, w, h)
            && (x1 < w ==> Known(done + k1, x1, y, k, w, h))
            && (y1 < h ==> Known(done + k1 + k2, x, y1, k, w, h))
            && (x1 < w && y1 < h ==> Known(done + k1 + k2 + k3, x1, y1, k, w, h))
  {
    hide *;
    var x1, y1 := x + Pow2(k), y + Pow2(k);
    var k1, k2 := Kid(x, y, k, w, h), Kid(x1, y, k, w, h);
    KnownParts(done, x, y, k, w, h);
    KnownBeside(done, x, y, k, w, h);
    KnownLater(done, x, y, k, x1, y, k, w, h);
    KnownLater(done, x, y, k, x, y1, k, w, h);
    KnownLater(done + k1, x1, y, k, x, y1, k, w, h);
    KnownBeside(done + k1, x1, y, k, w, h);
    KnownLater(done + k1 + k2, x, y1, k, x1, y1, k, w, h);
    KnownBeside(done + k1 + k2, x, y1, k, w, h);
    KnownIs(done + k1, x1, y, k, w, h);
    KnownIs(done + k1 + k2, x, y1, k, w, h);
    KnownIs(done + k1 + k2 + Kid(x, y1, k, w, h), x1, y1, k, w, h);
  }

  lemma KnownIs(done: seq<Unit>, x: nat, y: nat, k: nat, w: nat, h: nat)
    ensures Known(done, x, y, k, w, h) <==> KnownLeft(done, x, y, k, h) && KnownAbove(done, x, y, k, w)
  {
  }

  lemma FourSteps(done: seq<Unit>, x: nat, y: nat, k: nat, w: nat, h: nat, c1: seq<Symbol>, c2: seq<Symbol>, c3: seq<Symbol>,
                  c4: seq<Symbol>, k1: seq<Unit>, k2: seq<Unit>, k3: seq<Unit>, k4: seq<Unit>, rest: seq<Symbol>)
    requires ParseQuarter(done, x, y, k, w, h, c1 + (c2 + (c3 + (c4 + rest)))) == Some((done + k1, c2 + (c3 + (c4 + rest))))
    requires ParseQuarter(done + k1, x + Pow2(k), y, k, w, h, c2 + (c3 + (c4 + rest))) == Some((done + k1 + k2, c3 + (c4 + rest)))
    requires ParseQuarter(done + k1 + k2, x, y + Pow2(k), k, w, h, c3 + (c4 + rest)) == Some((done + k1 + k2 + k3, c4 + rest))
    requires ParseQuarter(done + k1 + k2 + k3, x + Pow2(k), y + Pow2(k), k, w, h, c4 + rest)
          == Some((done + k1 + k2 + k3 + k4, rest))
    ensures ParseFour(done, x, y, k, w, h, c1 + c2 + c3 + c4 + rest) == Some((done + (k1 + k2 + k3 + k4), rest))
  {
    hide ParseQuarter;
    assert c1 + c2 + c3 + c4 + rest == c1 + (c2 + (c3 + (c4 + rest)));
    assert done + (k1 + k2 + k3 + k4) == done + k1 + k2 + k3 + k4;
  }

  lemma {:induction false} QuarterParses(done: seq<Unit>, x: nat, y: nat, k: nat, K: nat, w: nat, h: nat, rest: seq<Symbol>)
    requires k <= K && x % Pow2(k) == 0 && y % Pow2(k) == 0 && Faithful(done, K, w, h) && Deep(x, y, k, K, w, h)
    requires x < w && y < h ==> Known(done, x, y, k, w, h)
    ensures ParseQuarter(done, x, y, k, w, h, Child(x, y, k, w, h) + rest) == Some((done + Kid(x, y, k, w, h), rest))
    ensures Faithful(done + Kid(x, y, k, w, h), K, w, h)
    decreases k, 1
  {
    hide ParseQuad, Quad, Units, Known, Faithful, Deep, Pow2;
    if x < w && y < h {
      QuadParses(done, x, y, k, K, w, h, rest);
    } else {
      assert [] + rest == rest && done + [] == done;
    }
  }

  // ---------------------------------------------------------------------------------------------
  // Tiles
  // ---------------------------------------------------------------------------------------------

  lemma EndParses(last: bool, lastTile: bool, rest: seq<Symbol>)
    ensures ParseEnd(last, lastTile, Tail(last, lastTile) + rest) == Some(rest)
  {
    var syms := Tail(last, lastTile) + rest;
    if last && !lastTile {
      assert syms[1..][1..] == rest;
    } else {
      assert syms[1..] == rest;
    }
  }

  /** The standard's symbols from largest unit n on. */
  function From(n: nat, total: nat, lastTile: bool, w: nat, h: nat, K: nat): seq<Symbol>
    requires Lcus(w, K) > 0
    decreases total - n
  {
    if n >= total then []
    else LcuSpec(n, w, h, K) + (Tail(n + 1 == total, lastTile) + From(n + 1, total, lastTile, w, h, K))
  }

  lemma {:induction false} TileFrom(n: nat, total: nat, lastTile: bool, w: nat, h: nat, K: nat)
    requires Lcus(w, K) > 0 && n <= total
    ensures Tile(false, n, total, lastTile, w, h, K) + From(n, total, lastTile, w, h, K)
         == Tile(false, total, total, lastTile, w, h, K)
    decreases total - n
  {
    hide *;
    var a := Tile(false, n, total, lastTile, w, h, K);
    if n < total {
      TileFrom(n + 1, total, lastTile, w, h, K);
      TileStep(n + 1, total, lastTile, w, h, K);
      FromIs(n, total, lastTile, w, h, K);
      var b, c, d := LcuSpec(n, w, h, K), Tail(n + 1 == total, lastTile), From(n + 1, total, lastTile, w, h, K);
      assert a + (b + (c + d)) == (a + b + c) + d;
    } else {
      NothingFrom(total, lastTile, w, h, K);
      assert a + [] == a;
    }
  }

  lemma NothingFrom(total: nat, lastTile: bool, w: nat, h: nat, K: nat)
    requires Lcus(w, K) > 0
    ensures From(total, total, lastTile, w, h, K) == []
  {
  }

  /** Before largest unit n the ones on its left and above have been read. */
  lemma LcuKnown(n: nat, w: nat, h: nat, K: nat)
    requires Lcus(w, K) > 0 && n < Lcus(w, K) * Lcus(h, K)
    ensures n / Lcus(w, K) >= 0 && n % Lcus(w, K) * Pow2(K) >= 0 && n / Lcus(w, K) * Pow2(K) >= 0
    ensures Known(TileUnits(n, w, h, K), n % Lcus(w, K) * Pow2(K), n / Lcus(w, K) * Pow2(K), K, w, h)
  {
    hide *;
    var cols, p := Lcus(w, K), Pow2(K);
    var c, r := n % cols, n / cols;
    Raster(n, cols, Lcus(h, K));
    ProductOfNats(c, p);
    ProductOfNats(r, p);
    var done, x: nat, y: nat := TileUnits(n, w, h, K), c * p, r * p;
    KnownIs(done, x, y, K, w, h);
    Inside(c, w, K);
    Inside(r, h, K);
    LcuKnownLeft(n, c, r, w, h, K);
    LcuKnownAbove(n, c, r, w, h, K);
  }

  /** The largest unit on the left has the number before, the one above the number a row before. */
  lemma NumberBefore(n: nat, cols: nat, K: nat, a: nat, b: nat)
    requires cols > 0
    ensures n % cols > 0 && a / Pow2(K) == n % cols - 1 && b / Pow2(K) == n / cols ==> LcuOf(a, b, cols, K) == n - 1
    ensures n / cols > 0 && a / Pow2(K) == n % cols && b / Pow2(K) == n / cols - 1 ==> LcuOf(a, b, cols, K) == n - cols
  {
    hide *;
    var c, r := n % cols, n / cols;
    LcuOfIs(a, b, cols, K);
    DivMod(n, cols);
    RowsApart(r, cols);
  }

  lemma RowsApart(r: int, cols: nat)
    ensures (r - 1) * cols == cols * r - cols && r * cols == cols * r
  {
  }

  /** The cell before the beginning of unit c of size p belongs to the unit before. */
  lemma CellBefore(c: nat, p: nat)
    requires p > 0 && c > 0
    ensures c * p > 0 && (c * p - 1) / p == c - 1
  {
    assert c * p == p * (c - 1) + p;
    ProductOfNats(p, c - 1);
    DivUnique(c * p - 1, p, c - 1, p - 1);
  }

  lemma LcuKnownLeft(n: nat, c: nat, r: nat, w: nat, h: nat, K: nat)
    requires Lcus(w, K) > 0 && n < Lcus(w, K) * Lcus(h, K) && c == n % Lcus(w, K) && r == n / Lcus(w, K)
    requires 0 <= c * Pow2(K) < w && 0 <= r * Pow2(K)
    ensures KnownLeft(TileUnits(n, w, h, K), c * Pow2(K), r * Pow2(K), K, h)
  {
    var x: nat, y: nat := c * Pow2(K), r * Pow2(K);
    hide TileUnits, Cover, Pow2, Lcus, LcuOf;
    if x > 0 {
      Scaled(c, Pow2(K));
      forall b: nat | y <= b < y + Pow2(K) && b < h
        ensures LeftRead(TileUnits(n, w, h, K), x, b)
      {
        CellBefore(c, Pow2(K));
        InCell(b, r, Pow2(K));
        NumberBefore(n, Lcus(w, K), K, x - 1, b);
        TileCover(n, w, h, K, x - 1, b);
      }
    }
  }

  lemma LcuKnownAbove(n: nat, c: nat, r: nat, w: nat, h: nat, K: nat)
    requires Lcus(w, K) > 0 && n < Lcus(w, K) * Lcus(h, K) && c == n % Lcus(w, K) && r == n / Lcus(w, K)
    requires 0 <= c * Pow2(K) && 0 <= r * Pow2(K) < h
    ensures KnownAbove(TileUnits(n, w, h, K), c * Pow2(K), r * Pow2(K), K, w)
  {
    var x: nat, y: nat := c * Pow2(K), r * Pow2(K);
    hide TileUnits, Cover, Pow2, Lcus, LcuOf;
    if y > 0 {
      Scaled(r, Pow2(K));
      forall a: nat | x <= a < x + Pow2(K) && a < w
        ensures AboveRead(TileUnits(n, w, h, K), a, y)
      {
        CellBefore(r, Pow2(K));
        InCell(a, c, Pow2(K));
        NumberBefore(n, Lcus(w, K), K, a, y - 1);
        TileCover(n, w, h, K, a, y - 1);
      }
    }
  }

  lemma NothingDeep(x: nat, y: nat, K: nat, w: nat, h: nat)
    ensures Deep(x, y, K, K, w, h) && Faithful([], K, w, h)
  {
  }

  /** Largest unit n is read as its units. */
  lemma LcuParses(n: nat, w: nat, h: nat, K: nat, rest: seq<Symbol>)
    requires Lcus(w, K) > 0 && n < Lcus(w, K) * Lcus(h, K) && Faithful(TileUnits(n, w, h, K), K, w, h)
    ensures var cols := Lcus(w, K);
            && n / cols >= 0 && n % cols * Pow2(K) >= 0 && n / cols * Pow2(K) >= 0
            && ParseQuad(TileUnits(n, w, h, K), n % cols * Pow2(K), n / cols * Pow2(K), K, w, h, LcuSpec(n, w, h, K) + rest)
               == Some((TileUnits(n + 1, w, h, K), rest))
            && Faithful(TileUnits(n + 1, w, h, K), K, w, h)
  {
    hide *;
    var cols, p := Lcus(w, K), Pow2(K);
    LcuKnown(n, w, h, K);
    Raster(n, cols, Lcus(h, K));
    Inside(n % cols, w, K);
    Inside(n / cols, h, K);
    MultipleAligned(n % cols, p);
    MultipleAligned(n / cols, p);
    NothingDeep(n % cols * p, n / cols * p, K, w, h);
    QuadParses(TileUnits(n, w, h, K), n % cols * p, n / cols * p, K, K, w, h, rest);
    TileUnitsStep(n + 1, w, h, K);
    LcuUnitsIs(n, w, h, K);
    BlockUnitsIs(n % cols, n / cols, w, h, K);
    LcuSpecIs(n, w, h, K);
    PlaceIs(n, cols, p);
  }

  lemma {:induction false} LcusParse(n: nat, total: nat, lastTile: bool, w: nat, h: nat, K: nat)
    requires Lcus(w, K) > 0 && n <= total == Lcus(w, K) * Lcus(h, K) && Faithful(TileUnits(n, w, h, K), K, w, h)
    ensures ParseLcus(TileUnits(n, w, h, K), n, total, lastTile, w, h, K, From(n, total, lastTile, w, h, K))
         == Some(TileUnits(total, w, h, K))
    decreases total - n
  {
    if n < total {
      var rest := From(n + 1, total, lastTile, w, h, K);
      LcuParses(n, w, h, K, Tail(n + 1 == total, lastTile) + rest);
      EndParses(n + 1 == total, lastTile, rest);
      LcusParse(n + 1, total, lastTile, w, h, K);
      FromIs(n, total, lastTile, w, h, K);
      hide *;
      LcuStep(TileUnits(n, w, h, K), n, total, lastTile, w, h, K, From(n, total, lastTile, w, h, K),
              TileUnits(n + 1, w, h, K), Tail(n + 1 == total, lastTile) + rest, rest);
    }
  }

  lemma FromIs(n: nat, total: nat, lastTile: bool, w: nat, h: nat, K: nat)
    requires Lcus(w, K) > 0 && n < total
    ensures From(n, total, lastTile, w, h, K)
         == LcuSpec(n, w, h, K) + (Tail(n + 1 == total, lastTile) + From(n + 1, total, lastTile, w, h, K))
  {
    hide LcuSpec, Tail, Lcus;
  }

  lemma LcuStep(done: seq<Unit>, n: nat, total: nat, lastTile: bool, w: nat, h: nat, K: nat, syms: seq<Symbol>,
                units: seq<Unit>, behind: seq<Symbol>, rest: seq<Symbol>)
    requires Lcus(w, K) > 0 && n < total
    requires n / Lcus(w, K) >= 0 && n % Lcus(w, K) * Pow2(K) >= 0 && n / Lcus(w, K) * Pow2(K) >= 0
    requires ParseQuad(done, n % Lcus(w, K) * Pow2(K), n / Lcus(w, K) * Pow2(K), K, w, h, syms) == Some((units, behind))
    requires ParseEnd(n + 1 == total, lastTile, behind) == Some(rest)
    ensures ParseLcus(done, n, total, lastTile, w, h, K, syms) == ParseLcus(units, n + 1, total, lastTile, w, h, K, rest)
  {
    hide ParseQuad, ParseEnd, Lcus, Pow2;
  }

  /** The standard's tile is read as the units of the tile, every one of them skipped. */
  lemma StandardParses(lastTile: bool, w: nat, h: nat, K: nat)
    requires Lcus(w, K) > 0
    ensures var total := Lcus(w, K) * Lcus(h, K);
            ParseTile(lastTile, w, h, K, Tile(false, total, total, lastTile, w, h, K)) == Some(TileUnits(total, w, h, K))
  {
    ProductOfNats(Lcus(w, K), Lcus(h, K));
    var total := Lcus(w, K) * Lcus(h, K);
    TileIs(lastTile, w, h, K, Tile(false, total, total, lastTile, w, h, K));
    hide *;
    NoTile(total, lastTile, w, h, K);
    TileFrom(0, total, lastTile, w, h, K);
    NoCover(w, h, K, 0, 0);
    NothingDeep(0, 0, K, w, h);
    LcusParse(0, total, lastTile, w, h, K);
    assert [] + From(0, total, lastTile, w, h, K) == From(0, total, lastTile, w, h, K);
  }

  lemma TileIs(lastTile: bool, w: nat, h: nat, K: nat, syms: seq<Symbol>)
    requires Lcus(w, K) > 0
    ensures Lcus(w, K) * Lcus(h, K) >= 0
    ensures ParseTile(lastTile, w, h, K, syms) == ParseLcus([], 0, Lcus(w, K) * Lcus(h, K), lastTile, w, h, K, syms)
  {
    ProductOfNats(Lcus(w, K), Lcus(h, K));
    hide ParseLcus, Lcus;
  }

  // ---------------------------------------------------------------------------------------------
  // The generator's tile
  // ---------------------------------------------------------------------------------------------

  /** A list that does not begin with a split flag or with a unit without neighbours. */
  ghost predicate Foreign(s: seq<Symbol>) {
    s != [] && s[0].Regular? && s[0].ctx >= 2
  }

  lemma NoNeighbours(k: nat)
    ensures SplitInc([], 0, 0, k) == 0 && SkipInc([], 0, 0) == 0
  {
  }

  lemma {:induction false} ForeignFails(k: nat, w: nat, h: nat, s: seq<Symbol>)
    requires w > 0 && h > 0 && Foreign(s)
    ensures ParseQuad([], 0, 0, k, w, h, s) == None
    decreases k
  {
    NoNeighbours(k);
    hide SplitInc, SkipInc;
    if k > 0 {
      ForeignFails(k - 1, w, h, s);
      FirstQuarterFails(k - 1, w, h, s);
      hide ParseFour;
    }
  }

  lemma FirstQuarterFails(k: nat, w: nat, h: nat, s: seq<Symbol>)
    requires w > 0 && h > 0 && ParseQuad([], 0, 0, k, w, h, s) == None
    ensures ParseFour([], 0, 0, k, w, h, s) == None
  {
    hide ParseQuad;
    assert ParseQuarter([], 0, 0, k, w, h, s) == None;
  }

  /** Nor is a first unit read that claims a neighbour. */
  lemma NeighbouredFails(k: nat, w: nat, h: nat, s: seq<Symbol>)
    requires w > 0 && h > 0 && Neighboured(s)
    ensures ParseQuad([], 0, 0, k, w, h, s) == None
  {
    if s[0].ctx > 0 {
      ForeignFails(k, w, h, s);
    } else {
      BehindFlag(k, w, h, s);
    }
  }

  lemma {:induction false} BehindFlag(k: nat, w: nat, h: nat, s: seq<Symbol>)
    requires w > 0 && h > 0 && |s| >= 2 && s[0].Regular? && s[0].ctx == 0 && Foreign(s[1..])
    ensures ParseQuad([], 0, 0, k, w, h, s) == None
    decreases k
  {
    NoNeighbours(k);
    hide SplitInc, SkipInc;
    if k > 0 {
      ForeignFails(k - 1, w, h, s[1..]);
      FirstQuarterFails(k - 1, w, h, s[1..]);
      BehindFlag(k - 1, w, h, s);
      FirstQuarterFails(k - 1, w, h, s);
      hide ParseFour;
    }
  }

  /** What the generator writes for a tile is read back, as the units of the tile, all skipped, by the
      standard's parsing process, exactly when units can be split and no cut column is the first and no
      cut row the first. Otherwise the tile is refused. */
  lemma TileParses(lastTile: bool, w: nat, h: nat, K: nat)
    requires w > 0 && h > 0 && Lcus(w, K) > 0 && Lcus(h, K) > 0
    ensures var total := Lcus(w, K) * Lcus(h, K);
            ParseTile(lastTile, w, h, K, Tile(true, total, total, lastTile, w, h, K)) ==
            if K > 0 && BordersInside(w, h, K) then Some(TileUnits(total, w, h, K)) else None
  {
    hide *;
    ProductOfNats(Lcus(w, K), Lcus(h, K));
    Scaled(Lcus(w, K), Lcus(h, K));
    var total := Lcus(w, K) * Lcus(h, K);
    var syms := Tile(true, total, total, lastTile, w, h, K);
    TileExact(lastTile, w, h, K);
    if K > 0 && BordersInside(w, h, K) {
      StandardParses(lastTile, w, h, K);
    } else {
      TileFront(true, total, total, lastTile, w, h, K);
      if K == 0 {
        FirstFlag(w, h);
        BeginsWith(LcuCode(0, w, h, K), syms);
        SmallestFails(w, h, syms);
      } else {
        BadCorner(w, h, K);
        NeighbouredPrefix(LcuCode(0, w, h, K), syms);
        NeighbouredFails(K, w, h, syms);
      }
      FirstFails(total, lastTile, w, h, K, syms);
      TileIs(lastTile, w, h, K, syms);
    }
  }

  lemma FirstFails(total: nat, lastTile: bool, w: nat, h: nat, K: nat, syms: seq<Symbol>)
    requires Lcus(w, K) > 0 && total > 0 && ParseQuad([], 0, 0, K, w, h, syms) == None
    ensures ParseLcus([], 0, total, lastTile, w, h, K, syms) == None
  {
    hide ParseQuad, Lcus, Pow2;
    assert 0 % Lcus(w, K) * Pow2(K) == 0 && 0 / Lcus(w, K) * Pow2(K) == 0;
  }

  lemma FirstFlag(w: nat, h: nat)
    requires Lcus(w, 0) > 0
    ensures |LcuCode(0, w, h, 0)| > 0 && LcuCode(0, w, h, 0)[0] == Regular(0, 0)
  {
    assert Pow2(0) == 1;
  }

  lemma BeginsWith(f: seq<Symbol>, syms: seq<Symbol>)
    requires |f| > 0 && f <= syms
    ensures |syms| > 0 && syms[0] == f[0]
  {
  }

  lemma SmallestFails(w: nat, h: nat, syms: seq<Symbol>)
    requires |syms| > 0 && syms[0] == Regular(0, 0)
    ensures ParseQuad([], 0, 0, 0, w, h, syms) == None
  {
  }

  lemma NeighbouredPrefix(f: seq<Symbol>, syms: seq<Symbol>)
    requires Neighboured(f) && f <= syms
    ensures Neighboured(syms)
  {
    assert syms == f + syms[|f|..];
    NeighbouredFront(f, syms[|f|..]);
  }
}
