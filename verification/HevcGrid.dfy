/** A grid whose columns and rows make up the picture: its tiles partition the picture, each is coded with
    as many largest units as it has, and so the theorems about whole tiles hold for every tile. */
module HevcGrid {
  import opened Common
  import opened Bits
  import opened HevcTile
  import opened HevcPicture

  /** The picture in smallest units, and the level of a largest unit. */
  function Across(g: Grid): nat {
    QuotientOfNats(g.width, Pow2(g.min));
    g.width / Pow2(g.min)
  }

  function Down(g: Grid): nat {
    QuotientOfNats(g.height, Pow2(g.min));
    g.height / Pow2(g.min)
  }

  function Level(g: Grid): nat
    requires g.min <= g.max
  {
    g.max - g.min
  }

  /** The columns and the rows make up the picture, in largest units. */
  ghost predicate Covers(g: Grid)
    requires g.Valid()
  {
    Sum(g.widths) == Lcus(Across(g), Level(g)) && Sum(g.heights) == Lcus(Down(g), Level(g))
  }

  /** Where entry c of a column or row list begins, in smallest units. */
  function Begin(ns: seq<nat>, c: nat, K: nat): nat
    requires c <= |ns|
  {
    ProductOfNats(Sum(ns[..c]), Pow2(K));
    Sum(ns[..c]) * Pow2(K)
  }

  // ---------------------------------------------------------------------------------------------
  // One dimension
  // ---------------------------------------------------------------------------------------------

  lemma {:induction false} SumUpTo(ns: seq<nat>, c: nat)
    requires c <= |ns|
    ensures Sum(ns[..c]) <= Sum(ns) && (c < |ns| ==> Sum(ns[..c + 1]) == Sum(ns[..c]) + ns[c] <= Sum(ns))
    decreases |ns| - c
  {
    if c < |ns| {
      assert ns[..c + 1][..c] == ns[..c];
      SumUpTo(ns, c + 1);
    } else {
      assert ns[..c] == ns;
    }
  }

  /** n units of size p are needed for more than n - 1 and at most n times p. */
  lemma UnitsNeeded(w: nat, n: nat, K: nat)
    requires n > 0 && (n - 1) * Pow2(K) < w <= n * Pow2(K)
    ensures Lcus(w, K) == n
  {
    var p := Pow2(K);
    assert n * p == (n - 1) * p + p;
    assert (n - 1) * p == p * (n - 1);
    if w == n * p {
      DivUnique(w + p - 1, p, n, p - 1);
    } else {
      DivUnique(w + p - 1, p, n, w - 1 - (n - 1) * p);
    }
    hide Pow2;
  }

  lemma LastUnit(w: nat, K: nat)
    requires w > 0
    ensures Lcus(w, K) > 0 && (Lcus(w, K) - 1) * Pow2(K) < w <= Lcus(w, K) * Pow2(K)
  {
    var p := Pow2(K);
    var q := (w + p - 1) / p;
    DivMod(w + p - 1, p);
    assert (q - 1) * p == p * q - p && q * p == p * q;
    if q <= 0 {
      ProductOfNats(p, 0 - q);
    }
    hide Pow2;
  }

  /** An entry of a list that makes up a dimension of size units: its extent, and its largest units. */
  lemma EntryExtent(ns: seq<nat>, c: nat, size: nat, K: nat)
    requires c < |ns| && ns[c] > 0 && size > 0 && Sum(ns) == Lcus(size, K)
    ensures var e := Min(ns[c] * Pow2(K), size - Begin(ns, c, K)); e > 0 && Lcus(e, K) == ns[c]
  {
    assert Begin(ns, c, K) == Sum(ns[..c]) * Pow2(K);
    hide *;
    SumUpTo(ns, c);
    LastUnit(size, K);
    Remaining(Sum(ns[..c]), ns[c], Sum(ns), Pow2(K), size);
    UnitsNeeded(Min(ns[c] * Pow2(K), size - Begin(ns, c, K)), ns[c], K);
  }

  /** n units of size p from number s on, of total units that only just hold size. */
  lemma Remaining(s: nat, n: nat, total: nat, p: nat, size: nat)
    requires n > 0 && p > 0 && s + n <= total && (total - 1) * p < size
    ensures 0 <= (n - 1) * p < Min(n * p, size - s * p) <= n * p
  {
    assert n * p == (n - 1) * p + p;
    assert (total - 1) * p == s * p + (n - 1) * p + (total - s - n) * p;
    ProductOfNats(n - 1, p);
    ProductOfNats(total - s - n, p);
  }

  /** Every position is in exactly one entry. */
  lemma {:induction false} EntryOf(ns: seq<nat>, size: nat, K: nat, a: nat, n: nat) returns (c: nat)
    requires n <= |ns| && (forall i :: 0 <= i < |ns| ==> ns[i] > 0)
    requires a < size && Sum(ns) == Lcus(size, K) && a < Begin(ns, n, K)
    ensures c < n && Begin(ns, c, K) <= a < Begin(ns, c, K) + Min(ns[c] * Pow2(K), size - Begin(ns, c, K))
    decreases n
  {
    hide Lcus;
    assert n > 0 by {
      if n == 0 {
        NoBegin(ns, K);
      }
    }
    if Begin(ns, n - 1, K) <= a {
      c := n - 1;
      BeginNext(ns, c, K);
    } else {
      c := EntryOf(ns, size, K, a, n - 1);
    }
  }

  lemma NoBegin(ns: seq<nat>, K: nat)
    ensures Begin(ns, 0, K) == 0
  {
  }

  lemma BeginNext(ns: seq<nat>, c: nat, K: nat)
    requires c < |ns|
    ensures Begin(ns, c + 1, K) == Begin(ns, c, K) + ns[c] * Pow2(K)
  {
    SumUpTo(ns, c);
    hide Sum, Pow2;
    assert (Sum(ns[..c]) + ns[c]) * Pow2(K) == Sum(ns[..c]) * Pow2(K) + ns[c] * Pow2(K);
  }

  lemma {:induction false} BeginGrows(ns: seq<nat>, c: nat, d: nat, K: nat)
    requires c <= d <= |ns|
    ensures Begin(ns, c, K) <= Begin(ns, d, K)
    decreases d
  {
    if c < d {
      BeginGrows(ns, c, d - 1, K);
      BeginNext(ns, d - 1, K);
      ProductOfNats(ns[d - 1], Pow2(K));
    }
    hide *;
  }

  lemma OneEntry(ns: seq<nat>, size: nat, K: nat, a: nat, c: nat, d: nat)
    requires c < |ns| && d < |ns|
    requires Begin(ns, c, K) <= a < Begin(ns, c, K) + Min(ns[c] * Pow2(K), size - Begin(ns, c, K))
    requires Begin(ns, d, K) <= a < Begin(ns, d, K) + Min(ns[d] * Pow2(K), size - Begin(ns, d, K))
    ensures c == d
  {
    BeginNext(ns, c, K);
    BeginNext(ns, d, K);
    hide Begin, Pow2;
    if c < d {
      BeginGrows(ns, c + 1, d, K);
    } else if d < c {
      BeginGrows(ns, d + 1, c, K);
    }
  }

  // ---------------------------------------------------------------------------------------------
  // Tiles
  // ---------------------------------------------------------------------------------------------

  /** An extent in samples against the one in smallest units. */
  lemma ExtentInUnits(ns: seq<nat>, c: nat, size: nat, max: nat, min: nat)
    requires c < |ns| && min <= max && size % Pow2(min) == 0 && Sum(ns[..c]) * Pow2(max) < size
    ensures Extent(ns, c, size, max) >= 0
    ensures Extent(ns, c, size, max) / Pow2(min)
         == Min(ns[c] * Pow2(max - min), size / Pow2(min) - Begin(ns, c, max - min))
  {
    ExtentFits(ns, c, size, max, min);
    Pow2Add(max - min, min);
    var p, m, s := Pow2(max - min), Pow2(min), Sum(ns[..c]);
    DivMod(size, m);
    hide Pow2, Sum;
    InUnits(ns[c], s, p, m, size / m);
  }

  lemma InUnits(n: nat, s: nat, p: nat, m: nat, q: int)
    requires m > 0
    ensures Min(n * (p * m), m * q - s * (p * m)) / m == Min(n * p, q - s * p)
  {
    var e := Min(n * p, q - s * p);
    assert n * (p * m) == m * (n * p) && s * (p * m) == m * (s * p);
    assert m * q - m * (s * p) == m * (q - s * p);
    ScaledMin(n * p, q - s * p, m);
    DivUnique(m * e, m, e, 0);
  }

  lemma ScaledMin(a: int, b: int, m: nat)
    requires m > 0
    ensures Min(m * a, m * b) == m * Min(a, b)
  {
    if a <= b {
      ProductOfNats(m, b - a);
      assert m * (b - a) == m * b - m * a;
    } else {
      ProductOfNats(m, a - b);
      assert m * (a - b) == m * a - m * b;
    }
  }

  /** A picture with a column and a row is not empty. */
  lemma NotEmpty(g: Grid)
    requires g.Valid() && g.widths != [] && g.heights != []
    ensures Across(g) > 0 && Down(g) > 0
  {
    assert g.widths[..0] == [] && g.heights[..0] == [];
    assert Sum(g.widths[..0]) * Pow2(g.max) < g.width && Sum(g.heights[..0]) * Pow2(g.max) < g.height;
    DivMod(g.width, Pow2(g.min));
    DivMod(g.height, Pow2(g.min));
    hide Sum, Pow2;
  }

  /** Every tile of a covering grid is coded with as many largest units as it has. */
  lemma TileCountFits(g: Grid, r: nat, c: nat)
    requires g.Valid() && Covers(g) && r < |g.heights| && c < |g.widths|
    ensures var t, K := TileOf(g, r, c), Level(g);
            && t.w == Min(g.widths[c] * Pow2(K), Across(g) - Begin(g.widths, c, K)) > 0
            && t.h == Min(g.heights[r] * Pow2(K), Down(g) - Begin(g.heights, r, K)) > 0
            && Lcus(t.w, K) == g.widths[c] > 0 && Lcus(t.h, K) == g.heights[r] > 0
            && t.n == Lcus(t.w, K) * Lcus(t.h, K)
  {
    CoversIs(g);
    NotEmpty(g);
    hide *;
    ValidAt(g, r, c);
    TileOfIs(g, r, c);
    ExtentInUnits(g.widths, c, g.width, g.max, g.min);
    ExtentInUnits(g.heights, r, g.height, g.max, g.min);
    EntryExtent(g.widths, c, Across(g), Level(g));
    EntryExtent(g.heights, r, Down(g), Level(g));
    SameTile(g, r, c);
  }

  lemma CoversIs(g: Grid)
    requires g.Valid() && Covers(g)
    ensures Sum(g.widths) == Lcus(Across(g), Level(g)) && Sum(g.heights) == Lcus(Down(g), Level(g))
    ensures Across(g) == g.width / Pow2(g.min) && Down(g) == g.height / Pow2(g.min) && Level(g) == g.max - g.min
  {
  }

  lemma SameTile(g: Grid, r: nat, c: nat)
    requires g.Valid() && r < |g.heights| && c < |g.widths|
    ensures TileOf(g, r, c).w == Extent(g.widths, c, g.width, g.max) / Pow2(g.min)
    ensures TileOf(g, r, c).h == Extent(g.heights, r, g.height, g.max) / Pow2(g.min)
  {
    TileOfFits(g, r, c);
    hide Extent, Lcus, Pow2, Grid.Valid;
  }

  /** The tiles come row by row, and the last one of them is marked. */
  lemma TilesInRaster(g: Grid, r: nat, c: nat)
    requires g.Valid() && r < |g.heights| && c < |g.widths|
    ensures |Picture(g)| == |g.heights| * |g.widths|
    ensures 0 <= r * |g.widths| + c < |Picture(g)| && Picture(g)[r * |g.widths| + c] == TileOf(g, r, c)
    ensures TileOf(g, r, c).last <==> r * |g.widths| + c == |Picture(g)| - 1
  {
    hide *;
    var cols, rows := |g.widths|, |g.heights|;
    PictureIs(g);
    TileCount(g, rows, 0);
    TileCount(g, r, c);
    InsideGrid(c, r, cols, rows);
    ProductOfNats(r, cols);
    TilesNext(g, r, c);
    TilesGrow(g, r, c + 1, rows, 0);
    TileOfIs(g, r, c);
    LastInGrid(r, c, rows, cols);
  }

  lemma LastInGrid(r: nat, c: nat, rows: nat, cols: nat)
    requires r < rows && c < cols
    ensures r * cols + c == rows * cols - 1 <==> r == rows - 1 && c == cols - 1
  {
    assert rows * cols == r * cols + (rows - r) * cols;
    if r < rows - 1 {
      ProductOfNats(rows - r - 2, cols);
      assert (rows - r) * cols == (rows - r - 2) * cols + 2 * cols;
    } else {
      assert rows - r == 1;
    }
  }

  /** Later tiles leave the list before them as it is. */
  lemma {:induction false} TilesGrow(g: Grid, r: nat, c: nat, r': nat, c': nat)
    requires g.Valid() && r < |g.heights| && 0 < c <= |g.widths| && r' <= |g.heights| && c' <= |g.widths|
    requires (c' > 0 ==> r' < |g.heights|) && (r' > r || (r' == r && c' >= c))
    ensures Tiles(g, r, c) <= Tiles(g, r', c')
    decreases r', c'
  {
    hide *;
    if r' > r && c' == 0 {
      TilesRow(g, r' - 1);
      TilesGrow(g, r, c, r' - 1, |g.widths|);
    } else if r' > r || c' > c {
      TilesNextIs(g, r', c' - 1);
      TilesGrow(g, r, c, r', c' - 1);
    }
  }

  /** Cell (a, b) of the picture, in smallest units, lies in the tile in row r and column c. */
  ghost predicate InTile(g: Grid, r: nat, c: nat, a: nat, b: nat)
    requires g.Valid() && r < |g.heights| && c < |g.widths|
  {
    var x, y := Begin(g.widths, c, Level(g)), Begin(g.heights, r, Level(g));
    x <= a < x + TileOf(g, r, c).w && y <= b < y + TileOf(g, r, c).h
  }

  /** The tiles partition the picture: every cell is in exactly one. */
  lemma TilesPartition(g: Grid, a: nat, b: nat) returns (r: nat, c: nat)
    requires g.Valid() && Covers(g) && g.widths != [] && g.heights != [] && a < Across(g) && b < Down(g)
    ensures r < |g.heights| && c < |g.widths| && InTile(g, r, c, a, b)
    ensures forall r', c' :: 0 <= r' < |g.heights| && 0 <= c' < |g.widths| && InTile(g, r', c', a, b) ==> r' == r && c' == c
  {
    CoversIs(g);
    AllPositive(g);
    WholeLength(g.widths, Across(g), Level(g));
    WholeLength(g.heights, Down(g), Level(g));
    hide *;
    c := EntryOf(g.widths, Across(g), Level(g), a, |g.widths|);
    r := EntryOf(g.heights, Down(g), Level(g), b, |g.heights|);
    InTileIs(g, r, c, a, b);
    forall r', c' | 0 <= r' < |g.heights| && 0 <= c' < |g.widths| && InTile(g, r', c', a, b)
      ensures r' == r && c' == c
    {
      InTileIs(g, r', c', a, b);
      OneEntry(g.widths, Across(g), Level(g), a, c, c');
      OneEntry(g.heights, Down(g), Level(g), b, r, r');
    }
  }

  lemma AllPositive(g: Grid)
    requires g.Valid()
    ensures forall i :: 0 <= i < |g.widths| ==> g.widths[i] > 0
    ensures forall i :: 0 <= i < |g.heights| ==> g.heights[i] > 0
  {
  }

  lemma WholeLength(ns: seq<nat>, size: nat, K: nat)
    requires ns != [] && Sum(ns) == Lcus(size, K)
    ensures size <= Begin(ns, |ns|, K)
  {
    assert ns[..|ns|] == ns;
    if size > 0 {
      LastUnit(size, K);
    }
    hide Sum, Lcus, Pow2;
  }

  lemma InTileIs(g: Grid, r: nat, c: nat, a: nat, b: nat)
    requires g.Valid() && Covers(g) && r < |g.heights| && c < |g.widths|
    ensures InTile(g, r, c, a, b) <==>
            var x, y, K := Begin(g.widths, c, Level(g)), Begin(g.heights, r, Level(g)), Level(g);
            && x <= a < x + Min(g.widths[c] * Pow2(K), Across(g) - x)
            && y <= b < y + Min(g.heights[r] * Pow2(K), Down(g) - y)
  {
    TileCountFits(g, r, c);
    hide Begin, TileOf, Lcus, Pow2, Across, Down, Grid.Valid, Covers;
  }

  /** Every tile of a covering grid holds the standard's bins for its area, contexts included, exactly when
      units can be split and no cut border is the tile's first column or row. */
  lemma TileIsStandard(g: Grid, r: nat, c: nat)
    requires g.Valid() && Covers(g) && r < |g.heights| && c < |g.widths|
    ensures var t, K := TileOf(g, r, c), Level(g);
            TileSymbols(t, K) == Tile(false, t.n, t.n, t.last, t.w, t.h, K) <==> K > 0 && BordersInside(t.w, t.h, K)
  {
    TileCountFits(g, r, c);
    assert g.min <= g.max;
    hide *;
    var t, K := TileOf(g, r, c), Level(g);
    TileExact(t.last, t.w, t.h, K);
    SymbolsAre(t, K);
  }

  lemma SymbolsAre(t: TileDim, K: nat)
    requires Lcus(t.w, K) > 0
    ensures TileSymbols(t, K) == Tile(true, t.n, t.n, t.last, t.w, t.h, K)
  {
    hide Tile;
  }
}
