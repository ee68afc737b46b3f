/** The coding units of a whole tile: every cell once, and the number of bins they cost. */
module HevcCoverage {
  import opened Common
  import opened Bits
  import opened CabacModel
  import opened HevcQuadtree
  import opened HevcLeaves
  import opened HevcTile

  /** The units of the largest coding unit in column c and row r. */
  function BlockUnits(c: nat, r: nat, w: nat, h: nat, K: nat): seq<Unit> {
    Units(c * Pow2(K), r * Pow2(K), K, w, h)
  }

  /** The units of largest coding unit n. */
  function LcuUnits(n: nat, w: nat, h: nat, K: nat): seq<Unit>
    requires Lcus(w, K) > 0
  {
    BlockUnits(n % Lcus(w, K), n / Lcus(w, K), w, h, K)
  }

  /** The units of the first n largest coding units. */
  function TileUnits(n: nat, w: nat, h: nat, K: nat): seq<Unit>
    requires Lcus(w, K) > 0
  {
    if n == 0 then []
    else TileUnits(n - 1, w, h, K) + LcuUnits(n - 1, w, h, K)
  }

  /** Cell (a, b) lies in the largest coding unit of this number. */
  function LcuOf(a: nat, b: nat, cols: nat, K: nat): int {
    b / Pow2(K) * cols + a / Pow2(K)
  }

  lemma InsideColumn(a: nat, w: nat, K: nat)
    requires a < w
    ensures a / Pow2(K) < Lcus(w, K)
  {
    hide *;
    var p := Pow2(K);
    LcusIs(w, K);
    DivMod(a, p);
    DivMod(w, p);
    Below(a / p, a % p, w / p, w % p, p);
  }

  lemma Below(q: nat, r: nat, s: nat, t: nat, p: nat)
    requires p * q + r < p * s + t && t < p
    ensures q <= s && (q == s ==> t > 0)
  {
    assert p * (s + 1) == p * s + p;
    if q > s {
      MulLessOrEqual(p, s + 1, q);
    }
  }

  /** A position names its quotient and remainder. */
  lemma Digits(c: nat, r: nat, cols: nat, n: nat)
    requires c < cols
    ensures r * cols + c == n <==> n % cols == c && n / cols == r
  {
    DivMod(n, cols);
    assert r * cols == cols * r;
    if r * cols + c == n {
      DivUnique(n, cols, r, c);
    }
  }

  lemma InCell(a: nat, c: nat, p: nat)
    requires p > 0
    ensures c * p <= a < c * p + p <==> a / p == c
  {
    DivMod(a, p);
    assert c * p == p * c;
    if c * p <= a < c * p + p {
      DivUnique(a, p, c, a - c * p);
    }
  }

  /** Largest coding unit n covers exactly the cells of that number. */
  lemma LcuCover(n: nat, w: nat, h: nat, K: nat, a: nat, b: nat)
    requires Lcus(w, K) > 0 && n < Lcus(w, K) * Lcus(h, K)
    ensures Cover(LcuUnits(n, w, h, K), a, b) == if a < w && b < h && LcuOf(a, b, Lcus(w, K), K) == n then 1 else 0
  {
    hide *;
    var c, r := n % Lcus(w, K), n / Lcus(w, K);
    LcuUnitsIs(n, w, h, K);
    Raster(n, Lcus(w, K), Lcus(h, K));
    BlockCover(c, r, w, h, K, a, b);
    if a < w && b < h {
      InsideColumn(a, w, K);
      Digits(a / Pow2(K), b / Pow2(K), Lcus(w, K), n);
      LcuOfIs(a, b, Lcus(w, K), K);
    }
  }

  lemma LcuUnitsIs(n: nat, w: nat, h: nat, K: nat)
    requires Lcus(w, K) > 0
    ensures LcuUnits(n, w, h, K) == BlockUnits(n % Lcus(w, K), n / Lcus(w, K), w, h, K)
  {
    hide BlockUnits, Lcus;
  }

  lemma BlockUnitsIs(c: nat, r: nat, w: nat, h: nat, K: nat)
    ensures BlockUnits(c, r, w, h, K) == Units(c * Pow2(K), r * Pow2(K), K, w, h)
  {
    hide Units;
  }

  lemma BlockCover(c: nat, r: nat, w: nat, h: nat, K: nat, a: nat, b: nat)
    requires c < Lcus(w, K) && r < Lcus(h, K)
    ensures Cover(BlockUnits(c, r, w, h, K), a, b) ==
            if a < w && b < h && a / Pow2(K) == c && b / Pow2(K) == r then 1 else 0
  {
    hide *;
    var p := Pow2(K);
    BlockUnitsIs(c, r, w, h, K);
    Inside(c, w, K);
    Inside(r, h, K);
    Partition(c * p, r * p, K, w, h, a, b);
    InCell(a, c, p);
    InCell(b, r, p);
    Contained(c * p, r * p, K, a, b);
  }

  lemma Contained(x: nat, y: nat, k: nat, a: nat, b: nat)
    ensures Unit(x, y, k).Contains(a, b) <==> x <= a < x + Pow2(k) && y <= b < y + Pow2(k)
  {
  }

  lemma LcuOfIs(a: nat, b: nat, cols: nat, K: nat)
    ensures LcuOf(a, b, cols, K) == b / Pow2(K) * cols + a / Pow2(K)
  {
  }

  lemma Inside(c: nat, n: nat, K: nat)
    requires c < Lcus(n, K)
    ensures c * Pow2(K) < n
  {
    hide *;
    Column(c, n, K);
  }

  /** After n largest coding units exactly the cells of those are covered, each once. */
  lemma {:induction false} TileCover(n: nat, w: nat, h: nat, K: nat, a: nat, b: nat)
    requires Lcus(w, K) > 0 && n <= Lcus(w, K) * Lcus(h, K)
    ensures Cover(TileUnits(n, w, h, K), a, b) ==
            if a < w && b < h && LcuOf(a, b, Lcus(w, K), K) < n then 1 else 0
  {
    hide *;
    if n > 0 {
      TileUnitsStep(n, w, h, K);
      TileCover(n - 1, w, h, K, a, b);
      LcuCover(n - 1, w, h, K, a, b);
      CoverAppend(TileUnits(n - 1, w, h, K), LcuUnits(n - 1, w, h, K), a, b);
    } else {
      NoCover(w, h, K, a, b);
      LcuOfNatural(a, b, Lcus(w, K), K);
    }
  }

  lemma LcuOfNatural(a: nat, b: nat, cols: nat, K: nat)
    ensures LcuOf(a, b, cols, K) >= 0
  {
    hide Pow2;
    ProductOfNats(b / Pow2(K), cols);
  }

  lemma TileUnitsStep(n: nat, w: nat, h: nat, K: nat)
    requires Lcus(w, K) > 0 && n > 0
    ensures TileUnits(n, w, h, K) == TileUnits(n - 1, w, h, K) + LcuUnits(n - 1, w, h, K)
  {
    hide LcuUnits;
  }

  lemma NoCover(w: nat, h: nat, K: nat, a: nat, b: nat)
    requires Lcus(w, K) > 0
    ensures TileUnits(0, w, h, K) == [] && Cover([], a, b) == 0 && UnitBins([]) == []
  {
  }

  /** The units of a tile partition it: every cell of it is in exactly one, no cell outside is in any. */
  lemma TilePartition(w: nat, h: nat, K: nat, a: nat, b: nat)
    requires w > 0 && h > 0 && Lcus(w, K) > 0
    ensures Cover(TileUnits(Lcus(w, K) * Lcus(h, K), w, h, K), a, b) == if a < w && b < h then 1 else 0
  {
    hide *;
    var cols, rows, p := Lcus(w, K), Lcus(h, K), Pow2(K);
    TileCover(cols * rows, w, h, K, a, b);
    if a < w && b < h {
      InsideColumn(a, w, K);
      InsideColumn(b, h, K);
      LcuOfIs(a, b, cols, K);
      InsideGrid(a / p, b / p, cols, rows);
    }
  }

  lemma {:induction false} SpecBins(n: nat, total: nat, lastTile: bool, w: nat, h: nat, K: nat)
    requires Lcus(w, K) > 0 && n <= total && total <= Lcus(w, K) * Lcus(h, K)
    ensures |Tile(false, n, total, lastTile, w, h, K)|
         == |UnitBins(TileUnits(n, w, h, K))| + n + if n == total && n > 0 && !lastTile then 1 else 0
  {
    hide *;
    if n == 0 {
      NoTile(total, lastTile, w, h, K);
      NoCover(w, h, K, 0, 0);
    } else {
      var c, r := (n - 1) % Lcus(w, K), (n - 1) / Lcus(w, K);
      SpecBins(n - 1, total, lastTile, w, h, K);
      TileStep(n, total, lastTile, w, h, K);
      TailLength(n == total, lastTile);
      PlaceIs(n - 1, Lcus(w, K), Pow2(K));
      LcuIs(n - 1, w, h, K);
      Raster(n - 1, Lcus(w, K), Lcus(h, K));
      Inside(c, w, K);
      Inside(r, h, K);
      QuadIsUnits(c * Pow2(K), r * Pow2(K), K, w, h);
      TileUnitsStep(n, w, h, K);
      LcuUnitsIs(n - 1, w, h, K);
      BlockUnitsIs(c, r, w, h, K);
      UnitBinsAppend(TileUnits(n - 1, w, h, K), LcuUnits(n - 1, w, h, K));
    }
  }

  lemma TailLength(lastLcu: bool, lastTile: bool)
    ensures |Tail(lastLcu, lastTile)| == 1 + if lastLcu && !lastTile then 1 else 0
  {
  }

  /** The generator's bin count: three for a larger coding unit, two for one of the minimum size, one
      for every largest coding unit, and one more to close an inner tile. */
  lemma GeneratorBins(lastTile: bool, w: nat, h: nat, K: nat)
    requires K > 0 && w > 0 && h > 0 && Lcus(w, K) > 0 && Lcus(h, K) > 0
    ensures var total := Lcus(w, K) * Lcus(h, K);
            var us := TileUnits(total, w, h, K);
            && Smallest(us) <= |us|
            && |Tile(true, total, total, lastTile, w, h, K)|
               == 3 * (|us| - Smallest(us)) + 2 * Smallest(us) + total + if lastTile then 0 else 1
  {
    hide *;
    var total := Lcus(w, K) * Lcus(h, K);
    Scaled(Lcus(w, K), Lcus(h, K));
    SpecBins(total, total, lastTile, w, h, K);
    BinCount(TileUnits(total, w, h, K));
    TileSyntax(lastTile, w, h, K);
    SameLength(Tile(true, total, total, lastTile, w, h, K), Tile(false, total, total, lastTile, w, h, K));
  }

  lemma SameLength(a: seq<Symbol>, b: seq<Symbol>)
    requires SameSyntax(a, b)
    ensures |a| == |b|
  {
  }

  /** The units of every largest coding unit come in z-scan order. */
  lemma LcuZOrder(n: nat, w: nat, h: nat, K: nat)
    requires Lcus(w, K) > 0 && n < Lcus(w, K) * Lcus(h, K)
    ensures Band(LcuUnits(n, w, h, K), K, 0, Pow2(2 * K))
  {
    hide *;
    var c, r := n % Lcus(w, K), n / Lcus(w, K);
    Raster(n, Lcus(w, K), Lcus(h, K));
    Inside(c, w, K);
    Inside(r, h, K);
    LcuUnitsIs(n, w, h, K);
    BlockUnitsIs(c, r, w, h, K);
    MultipleAligned(c, Pow2(K));
    MultipleAligned(r, Pow2(K));
    ZOrder(c * Pow2(K), r * Pow2(K), K, w, h);
  }

}
