/** The contexts of split_cu_flag: section 9.3.4.2.2 of ITU-T H.265 counts the left and the upper neighbour
    that are split more deeply. In a tile whose units are only split where they must be, none ever is. */
module HevcDepth {
  import opened Common
  import opened Bits
  import opened CabacModel
  import opened HevcQuadtree
  import opened HevcLeaves

  /** Where the aligned block of level k that contains a begins. */
  function BlockStart(a: nat, k: nat): nat {
    RemainderBelow(a, Pow2(k));
    a - a % Pow2(k)
  }

  lemma RemainderBelow(a: nat, p: nat)
    requires p > 0
    ensures 0 <= a % p <= a
  {
    assert a == p * (a / p) + a % p;
    ProductOfNats(p, a / p);
  }

  /** The level of the coding unit over cell (a, b) in the quadtree of the aligned block of level k. */
  function LevelAt(a: nat, b: nat, k: nat, w: nat, h: nat): (n: nat)
    ensures n <= k
  {
    if Whole(BlockStart(a, k), BlockStart(b, k), k, w, h) then k else LevelAt(a, b, k - 1, w, h)
  }

  /** CtDepth: how often the largest unit, of level K, is split down to the unit over (a, b). */
  function CtDepth(a: nat, b: nat, K: nat, w: nat, h: nat): nat {
    K - LevelAt(a, b, K, w, h)
  }

  /** The context increment of split_cu_flag for a block of level k. */
  function SplitContext(x: nat, y: nat, k: nat, K: nat, w: nat, h: nat): nat
    requires k <= K
  {
    (if x > 0 && CtDepth(x - 1, y, K, w, h) > K - k then 1 else 0)
    + (if y > 0 && CtDepth(x, y - 1, K, w, h) > K - k then 1 else 0)
  }

  /** The context of split_cu_flag with that increment; the generator has the first one only. */
  function SplitIndex(inc: nat): nat {
    if inc == 0 then 0 else 4 + inc
  }

  /** coding_quadtree for a tile area of w by h in which every coding unit is skipped and no split is made
      that is not inferred, with the contexts the standard derives from the neighbours. */
  function Walk(x: nat, y: nat, k: nat, K: nat, w: nat, h: nat): (syms: seq<Symbol>)
    requires k <= K
    decreases k
  {
    if k == 0 then Cu(x > 0, y > 0, true)
    else if x + Pow2(k) <= w && y + Pow2(k) <= h then
      [Regular(SplitIndex(SplitContext(x, y, k, K, w, h)), 0)] + Cu(x > 0, y > 0, true)
    else
      var x1, y1 := x + Pow2(k - 1), y + Pow2(k - 1);
      Walk(x, y, k - 1, K, w, h)
      + (if x1 < w then Walk(x1, y, k - 1, K, w, h) else [])
      + (if y1 < h then Walk(x, y1, k - 1, K, w, h) else [])
      + (if x1 < w && y1 < h then Walk(x1, y1, k - 1, K, w, h) else [])
  }

  // ---------------------------------------------------------------------------------------------
  // The depth is that of the units of the walk
  // ---------------------------------------------------------------------------------------------

  lemma StartIs(x: nat, a: nat, k: nat)
    requires x % Pow2(k) == 0 && x <= a < x + Pow2(k)
    ensures BlockStart(a, k) == x
  {
    var p := Pow2(k);
    var q := x / p;
    assert x == p * q;
    DivUnique(a, p, q, a - x);
    hide Pow2;
  }

  lemma {:induction false} UnitExtent(u: Unit, x: nat, y: nat, k: nat, w: nat, h: nat)
    requires u in Units(x, y, k, w, h)
    ensures x <= u.x && u.x + Pow2(u.k) <= x + Pow2(k) && y <= u.y && u.y + Pow2(u.k) <= y + Pow2(k)
    decreases k
  {
    hide *;
    Halves(k);
    if Whole(x, y, k, w, h) {
      OneUnit(x, y, k, w, h);
    } else {
      UnitsFrom(x, y, k, w, h);
      var x1, y1 := x + Pow2(k - 1), y + Pow2(k - 1);
      if u in Units(x, y, k - 1, w, h) {
        UnitExtent(u, x, y, k - 1, w, h);
      } else if u in Units(x1, y, k - 1, w, h) {
        UnitExtent(u, x1, y, k - 1, w, h);
      } else if u in Units(x, y1, k - 1, w, h) {
        UnitExtent(u, x, y1, k - 1, w, h);
      } else {
        UnitExtent(u, x1, y1, k - 1, w, h);
      }
    }
  }

  lemma UnitInBlock(u: Unit, x: nat, y: nat, k: nat, a: nat, b: nat)
    requires x <= u.x && u.x + Pow2(u.k) <= x + Pow2(k) && y <= u.y && u.y + Pow2(u.k) <= y + Pow2(k) && u.Contains(a, b)
    ensures x <= a < x + Pow2(k) && y <= b < y + Pow2(k)
  {
  }

  lemma LevelStep(x: nat, y: nat, k: nat, w: nat, h: nat, a: nat, b: nat)
    requires x % Pow2(k) == 0 && y % Pow2(k) == 0 && x <= a < x + Pow2(k) && y <= b < y + Pow2(k)
    ensures !Whole(x, y, k, w, h) ==> k > 0
    ensures LevelAt(a, b, k, w, h) == if Whole(x, y, k, w, h) then k else LevelAt(a, b, k - 1, w, h)
  {
    StartIs(x, a, k);
    StartIs(y, b, k);
    hide BlockStart, Pow2;
  }

  /** The unit of the walk that contains a cell has the level the depth is computed from. */
  lemma {:induction false} UnitLevel(u: Unit, x: nat, y: nat, k: nat, w: nat, h: nat, a: nat, b: nat)
    requires x % Pow2(k) == 0 && y % Pow2(k) == 0 && u in Units(x, y, k, w, h) && u.Contains(a, b)
    ensures LevelAt(a, b, k, w, h) == u.k
    decreases k
  {
    hide *;
    UnitExtent(u, x, y, k, w, h);
    UnitInBlock(u, x, y, k, a, b);
    LevelStep(x, y, k, w, h, a, b);
    if Whole(x, y, k, w, h) {
      OneUnit(x, y, k, w, h);
    } else {
      UnitsFrom(x, y, k, w, h);
      HalfAligned(x, k - 1);
      HalfAligned(y, k - 1);
      var x1, y1 := x + Pow2(k - 1), y + Pow2(k - 1);
      if u in Units(x, y, k - 1, w, h) {
        UnitLevel(u, x, y, k - 1, w, h, a, b);
      } else if u in Units(x1, y, k - 1, w, h) {
        UnitLevel(u, x1, y, k - 1, w, h, a, b);
      } else if u in Units(x, y1, k - 1, w, h) {
        UnitLevel(u, x, y1, k - 1, w, h, a, b);
      } else {
        UnitLevel(u, x1, y1, k - 1, w, h, a, b);
      }
    }
  }

  // ---------------------------------------------------------------------------------------------
  // No neighbour is deeper
  // ---------------------------------------------------------------------------------------------

  /** A cell of a block that fits is in a unit at least as large. */
  lemma {:induction false} LevelAtLeast(a: nat, b: nat, k: nat, m: nat, w: nat, h: nat)
    requires k <= m && Whole(BlockStart(a, k), BlockStart(b, k), k, w, h)
    ensures LevelAt(a, b, m, w, h) >= k
    decreases m
  {
    hide BlockStart;
    if m > k && !Whole(BlockStart(a, m), BlockStart(b, m), m, w, h) {
      LevelAtLeast(a, b, k, m - 1, w, h);
    }
  }

  lemma Before(x: nat, k: nat)
    requires x % Pow2(k) == 0 && x > 0
    ensures x >= Pow2(k) && (x - Pow2(k)) % Pow2(k) == 0 && BlockStart(x - 1, k) == x - Pow2(k)
  {
    hide *;
    Halves(k);
    MultipleBefore(x, Pow2(k));
    StartIs(x - Pow2(k), x - 1, k);
  }

  lemma MultipleBefore(x: nat, p: nat)
    requires p > 0 && x % p == 0 && x > 0
    ensures x >= p && (x - p) % p == 0
  {
    var q := x / p;
    assert x == p * q;
    ProductOfNats(p, q - 1);
    assert p * q == p * (q - 1) + p;
    DivUnique(x - p, p, q - 1, 0);
  }

  /** A block that fits has neighbours that are at least as large: the increment is 0. */
  lemma SplitContextZero(x: nat, y: nat, k: nat, K: nat, w: nat, h: nat)
    requires k <= K && x % Pow2(k) == 0 && y % Pow2(k) == 0 && x + Pow2(k) <= w && y + Pow2(k) <= h
    ensures SplitContext(x, y, k, K, w, h) == 0
  {
    StartIs(x, x, k);
    StartIs(y, y, k);
    hide BlockStart, Pow2;
    if x > 0 {
      Before(x, k);
      LevelAtLeast(x - 1, y, k, K, w, h);
    }
    if y > 0 {
      Before(y, k);
      LevelAtLeast(x, y - 1, k, K, w, h);
    }
    hide LevelAt;
  }

  /** So the walk with the standard's contexts is the one that uses the first context throughout. */
  lemma {:induction false} WalkIsQuad(x: nat, y: nat, k: nat, K: nat, w: nat, h: nat)
    requires k <= K && x % Pow2(k) == 0 && y % Pow2(k) == 0
    ensures Walk(x, y, k, K, w, h) == Quad(x, y, k, w, h)
    decreases k
  {
    hide *;
    if k > 0 {
      if x + Pow2(k) <= w && y + Pow2(k) <= h {
        WalkFits(x, y, k, K, w, h);
        QuadFits(x, y, k, w, h);
      } else {
        var x1, y1 := x + Pow2(k - 1), y + Pow2(k - 1);
        HalfAligned(x, k - 1);
        HalfAligned(y, k - 1);
        WalkIsQuad(x, y, k - 1, K, w, h);
        WalkIsQuad(x1, y, k - 1, K, w, h);
        WalkIsQuad(x, y1, k - 1, K, w, h);
        WalkIsQuad(x1, y1, k - 1, K, w, h);
        QuadSplits(x, y, k, w, h);
        WalkSplits(x, y, k, K, w, h);
      }
    } else {
      SmallestUnit(x, y, K, w, h);
    }
  }

  lemma WalkFits(x: nat, y: nat, k: nat, K: nat, w: nat, h: nat)
    requires 0 < k <= K && x % Pow2(k) == 0 && y % Pow2(k) == 0 && x + Pow2(k) <= w && y + Pow2(k) <= h
    ensures Walk(x, y, k, K, w, h) == Cu(x > 0, y > 0, false)
  {
    SplitContextZero(x, y, k, K, w, h);
    hide SplitContext, FiveContexts, RegularOnly, Pow2;
  }

  lemma SmallestUnit(x: nat, y: nat, K: nat, w: nat, h: nat)
    ensures Walk(x, y, 0, K, w, h) == Quad(x, y, 0, w, h)
  {
    hide Cu;
  }

  lemma WalkSplits(x: nat, y: nat, k: nat, K: nat, w: nat, h: nat)
    requires 0 < k <= K && (x + Pow2(k) > w || y + Pow2(k) > h)
    ensures var x1, y1 := x + Pow2(k - 1), y + Pow2(k - 1);
            Walk(x, y, k, K, w, h) ==
            Walk(x, y, k - 1, K, w, h)
            + (if x1 < w then Walk(x1, y, k - 1, K, w, h) else [])
            + (if y1 < h then Walk(x, y1, k - 1, K, w, h) else [])
            + (if x1 < w && y1 < h then Walk(x1, y1, k - 1, K, w, h) else [])
  {
    hide Cu, Pow2;
  }

  lemma QuadSplits(x: nat, y: nat, k: nat, w: nat, h: nat)
    requires k > 0 && (x + Pow2(k) > w || y + Pow2(k) > h)
    ensures var x1, y1 := x + Pow2(k - 1), y + Pow2(k - 1);
            Quad(x, y, k, w, h) ==
            Quad(x, y, k - 1, w, h)
            + (if x1 < w then Quad(x1, y, k - 1, w, h) else [])
            + (if y1 < h then Quad(x, y1, k - 1, w, h) else [])
            + (if x1 < w && y1 < h then Quad(x1, y1, k - 1, w, h) else [])
  {
    hide FiveContexts, RegularOnly, Cu;
  }
}
