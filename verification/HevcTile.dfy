/** A whole skipped tile: what the generator emits for each largest coding unit against the walk of
    section 7.3.8 of ITU-T H.265. Sizes are in minimum coding units; K is the level of a largest one. */
module HevcTile {
  import opened Common
  import opened Bits
  import opened CabacModel
  import opened HevcQuadtree
  import opened HevcDepth

  /** Largest coding units needed to cover n minimum ones. */
  function Lcus(n: nat, K: nat): nat {
    (n + Pow2(K) - 1) / Pow2(K)
  }

  /** Column and row of unit n in raster order. */
  function ColumnOf(n: nat, cols: nat): nat
    requires cols > 0
  {
    n % cols
  }

  function RowOf(n: nat, cols: nat): nat
    requires cols > 0
  {
    n / cols
  }

  /** Where a column or row of units of size p begins. */
  function Origin(c: nat, p: nat): nat {
    c * p
  }

  /** coding_tree_unit number n of a tile of w by h, in raster order: the standard's walk. */
  function LcuSpec(n: nat, w: nat, h: nat, K: nat): (syms: seq<Symbol>)
    requires Lcus(w, K) > 0
    ensures FiveContexts(syms) && RegularOnly(syms)
  {
    var x, y := Origin(ColumnOf(n, Lcus(w, K)), Pow2(K)), Origin(RowOf(n, Lcus(w, K)), Pow2(K));
    MultipleAligned(ColumnOf(n, Lcus(w, K)), Pow2(K));
    MultipleAligned(RowOf(n, Lcus(w, K)), Pow2(K));
    WalkIsQuad(x, y, K, K, w, h);
    Walk(x, y, K, K, w, h)
  }

  /** It is the walk with the first context of split_cu_flag throughout. */
  lemma LcuSpecIs(n: nat, w: nat, h: nat, K: nat)
    requires Lcus(w, K) > 0
    ensures var cols := Lcus(w, K);
            LcuSpec(n, w, h, K) == Quad(Origin(ColumnOf(n, cols), Pow2(K)), Origin(RowOf(n, cols), Pow2(K)), K, w, h)
  {
    hide Walk, Quad, FiveContexts, RegularOnly, Lcus, Pow2, ColumnOf, RowOf;
    var c, r := ColumnOf(n, Lcus(w, K)), RowOf(n, Lcus(w, K));
    MultipleAligned(c, Pow2(K));
    MultipleAligned(r, Pow2(K));
    WalkIsQuad(Origin(c, Pow2(K)), Origin(r, Pow2(K)), K, K, w, h);
  }

  /** The generator's choice for largest coding unit n. */
  function LcuCode(n: nat, w: nat, h: nat, K: nat): (syms: seq<Symbol>)
    requires Lcus(w, K) > 0
    ensures FiveContexts(syms) && RegularOnly(syms)
  {
    var cols := Lcus(w, K);
    Choice(ColumnOf(n, cols) == cols - 1, RowOf(n, cols) == h / Pow2(K), w % Pow2(K), h % Pow2(K),
           n >= cols, ColumnOf(n, cols) != 0, K)
  }

  /** Its four cases: the corner, a cut column, a cut row, a whole unit. Remainders exist for K > 0 only. */
  function Choice(rightColumn: bool, bottomRow: bool, iW: nat, iH: nat, below: bool, behind: bool, K: nat): (syms: seq<Symbol>)
    ensures FiveContexts(syms) && RegularOnly(syms)
  {
    var j := if K > 0 then K - 1 else 0;
    if rightColumn && iW != 0 && bottomRow && iH != 0 then BotRight(iW, iH, j)
    else if rightColumn && iW != 0 then Right(below, iW, j)
    else if bottomRow && iH != 0 then Bottom(behind, iH, j)
    else Cu(below, behind, false)
  }

  /** end_of_slice_segment_flag, and behind the last unit of an inner tile end_of_subset_one_bit. */
  function Tail(lastLcu: bool, lastTile: bool): (syms: seq<Symbol>)
    ensures FiveContexts(syms)
  {
    [Terminate(Bool(lastTile && lastLcu))] + if !lastTile && lastLcu then [Terminate(1)] else []
  }

  /** The bins of the first n of total largest coding units, taken from the generator or from the standard. */
  function Tile(generator: bool, n: nat, total: nat, lastTile: bool, w: nat, h: nat, K: nat): (syms: seq<Symbol>)
    requires Lcus(w, K) > 0
    ensures FiveContexts(syms)
  {
    if n == 0 then []
    else
      Tile(generator, n - 1, total, lastTile, w, h, K)
      + (if generator then LcuCode(n - 1, w, h, K) else LcuSpec(n - 1, w, h, K))
      + Tail(n == total, lastTile)
  }

  /** The neighbours the generator takes for granted at a cut border exist: a cut column is not the
      first column and a cut row is not the first row. */
  predicate BordersInside(w: nat, h: nat, K: nat) {
    && (w % Pow2(K) != 0 ==> Lcus(w, K) >= 2)
    && (h % Pow2(K) != 0 ==> Lcus(h, K) >= 2)
  }

  // ---------------------------------------------------------------------------------------------
  // Where a unit lies
  // ---------------------------------------------------------------------------------------------

  lemma LcusIs(n: nat, K: nat)
    ensures Lcus(n, K) == n / Pow2(K) + if n % Pow2(K) != 0 then 1 else 0
  {
    var p := Pow2(K);
    var q, r := n / p, n % p;
    assert n == p * q + r;
    if r == 0 {
      DivUnique(n + p - 1, p, q, p - 1);
    } else {
      assert p * (q + 1) == p * q + p;
      DivUnique(n + p - 1, p, q + 1, r - 1);
    }
  }

  /** Column c of a row of n minimum units: the cut one at the end, a whole one before. */
  lemma Column(c: nat, n: nat, K: nat)
    requires c < Lcus(n, K)
    ensures if c == Lcus(n, K) - 1 && n % Pow2(K) != 0 then n == c * Pow2(K) + n % Pow2(K) && c == n / Pow2(K)
            else c * Pow2(K) + Pow2(K) <= n && c < n / Pow2(K)
  {
    hide *;
    LcusIs(n, K);
    Multiples(c, n / Pow2(K), n % Pow2(K), Pow2(K));
    DivMod(n, Pow2(K));
  }

  lemma Multiples(c: nat, q: nat, r: nat, p: nat)
    ensures c < q ==> c * p + p <= p * q + r
    ensures c == q ==> c * p + r == p * q + r
  {
    if c < q {
      MulLessOrEqual(p, c + 1, q);
      assert p * (c + 1) == c * p + p;
    }
  }

  lemma DivMod(n: nat, p: nat)
    requires p > 0
    ensures n == p * (n / p) + n % p
  {
  }

  lemma Raster(n: nat, cols: nat, rows: nat)
    requires cols > 0 && n < cols * rows
    ensures n % cols < cols && n / cols < rows
    ensures n >= cols <==> n / cols > 0
  {
    if n / cols >= rows {
      MulLessOrEqual(cols, rows, n / cols);
    }
  }

  lemma Scaled(a: nat, p: nat)
    requires p > 0
    ensures a * p > 0 <==> a > 0
  {
  }

  lemma OwnRemainder(n: nat, p: nat)
    requires p > 0
    ensures n % p % p == n % p
  {
  }

  /** Where splitting is possible the generator emits the standard's syntax for every unit, with the
      standard's contexts too when the borders lie inside. */
  lemma LcuAgrees(n: nat, w: nat, h: nat, K: nat, exact: bool)
    requires K > 0 && Lcus(w, K) > 0 && n < Lcus(w, K) * Lcus(h, K)
    requires exact ==> BordersInside(w, h, K)
    ensures Agree(LcuCode(n, w, h, K), LcuSpec(n, w, h, K), exact)
  {
    hide *;
    var cols := Lcus(w, K);
    var c, r := ColumnOf(n, cols), RowOf(n, cols);
    LcuPlace(n, w, h, K, exact);
    LcuIs(n, w, h, K);
    ChoiceAgrees(Origin(c, Pow2(K)), Origin(r, Pow2(K)), w, h, K, c == cols - 1, r == h / Pow2(K), n >= cols, c != 0, exact);
  }

  /** What the column and the row of unit n say about the borders that cut it. */
  lemma LcuPlace(n: nat, w: nat, h: nat, K: nat, exact: bool)
    requires K > 0 && Lcus(w, K) > 0 && n < Lcus(w, K) * Lcus(h, K)
    requires exact ==> BordersInside(w, h, K)
    ensures var p, cols := Pow2(K), Lcus(w, K);
            var c, r := ColumnOf(n, cols), RowOf(n, cols);
            && (c > 0 <==> Origin(c, p) > 0) && (n >= cols <==> Origin(r, p) > 0)
            && CutOrWhole(c == cols - 1, Origin(c, p), w, K, exact) && CutOrWhole(r == h / p, Origin(r, p), h, K, exact)
  {
    hide *;
    var cols := Lcus(w, K);
    PlaceIs(n, cols, Pow2(K));
    Scaled(ColumnOf(n, cols), Pow2(K));
    Scaled(RowOf(n, cols), Pow2(K));
    Raster(n, cols, Lcus(h, K));
    Column(ColumnOf(n, cols), w, K);
    Column(RowOf(n, cols), h, K);
    LcusIs(h, K);
    if exact {
      InsideMeans(w, h, K);
    }
    CutIs(ColumnOf(n, cols) == cols - 1, Origin(ColumnOf(n, cols), Pow2(K)), w, K, exact);
    CutIs(RowOf(n, cols) == h / Pow2(K), Origin(RowOf(n, cols), Pow2(K)), h, K, exact);
  }

  /** A unit at x is cut by the border at n, and then perhaps not the first, or lies inside. */
  ghost predicate CutOrWhole(last: bool, x: nat, n: nat, K: nat, exact: bool) {
    if last && n % Pow2(K) != 0 then n == x + n % Pow2(K) && (exact ==> x > 0) else x + Pow2(K) <= n
  }

  lemma CutIs(last: bool, x: nat, n: nat, K: nat, exact: bool)
    ensures CutOrWhole(last, x, n, K, exact) <==>
            if last && n % Pow2(K) != 0 then n == x + n % Pow2(K) && (exact ==> x > 0) else x + Pow2(K) <= n
  {
  }

  lemma LcuIs(n: nat, w: nat, h: nat, K: nat)
    requires Lcus(w, K) > 0
    ensures var p, cols := Pow2(K), Lcus(w, K);
            var c, r := ColumnOf(n, cols), RowOf(n, cols);
            && LcuCode(n, w, h, K) == Choice(c == cols - 1, r == h / p, w % p, h % p, n >= cols, c != 0, K)
            && LcuSpec(n, w, h, K) == Quad(Origin(c, p), Origin(r, p), K, w, h)
  {
    LcuSpecIs(n, w, h, K);
    hide Quad, LcuSpec, Choice, FiveContexts, RegularOnly, Lcus, Pow2, ColumnOf, RowOf, Origin;
  }

  /** Unit n in numbers. */
  lemma PlaceIs(n: nat, cols: nat, p: nat)
    requires cols > 0
    ensures ColumnOf(n, cols) == n % cols && RowOf(n, cols) == n / cols
    ensures Origin(n % cols, p) == n % cols * p && Origin(n / cols, p) == n / cols * p
  {
  }

  /** The unit at x and y, given which borders cut it. */
  lemma ChoiceAgrees(x: nat, y: nat, w: nat, h: nat, K: nat, right: bool, bottom: bool, below: bool, behind: bool, exact: bool)
    requires K > 0 && below == (y > 0) && behind == (x > 0)
    requires CutOrWhole(right, x, w, K, exact) && CutOrWhole(bottom, y, h, K, exact)
    ensures Agree(Choice(right, bottom, w % Pow2(K), h % Pow2(K), below, behind, K), Quad(x, y, K, w, h), exact)
  {
    hide *;
    var iW, iH := w % Pow2(K), h % Pow2(K);
    OwnRemainder(w, Pow2(K));
    OwnRemainder(h, Pow2(K));
    ChoiceIs(right, bottom, iW, iH, below, behind, K);
    CutIs(right, x, w, K, exact);
    CutIs(bottom, y, h, K, exact);
    if right && iW != 0 && bottom && iH != 0 {
      BotRightAgrees(iW, iH, K - 1, x, y, w, h, exact);
    } else if right && iW != 0 {
      RightAgrees(below, iW, K - 1, x, y, w, h, exact);
    } else if bottom && iH != 0 {
      BottomAgrees(behind, iH, K - 1, x, y, w, h, exact);
    } else {
      QuadFits(x, y, K, w, h);
      CuSwap(below, behind);
      CuAgrees(behind, below, false, x, y, exact);
    }
  }

  lemma ChoiceIs(rightColumn: bool, bottomRow: bool, iW: nat, iH: nat, below: bool, behind: bool, K: nat)
    requires K > 0
    ensures Choice(rightColumn, bottomRow, iW, iH, below, behind, K) ==
            (if rightColumn && iW != 0 && bottomRow && iH != 0 then BotRight(iW, iH, K - 1)
             else if rightColumn && iW != 0 then Right(below, iW, K - 1)
             else if bottomRow && iH != 0 then Bottom(behind, iH, K - 1)
             else Cu(below, behind, false))
  {
    hide Cu, Right, Bottom, BotRight, FiveContexts, RegularOnly;
  }

  lemma InsideMeans(w: nat, h: nat, K: nat)
    requires BordersInside(w, h, K)
    ensures w % Pow2(K) != 0 ==> Lcus(w, K) >= 2
    ensures h % Pow2(K) != 0 ==> Lcus(h, K) >= 2
  {
  }

  /** The context only counts the neighbours. */
  lemma CuSwap(a: bool, b: bool)
    ensures Cu(a, b, false) == Cu(b, a, false)
  {
  }

  // ---------------------------------------------------------------------------------------------
  // Whole tiles
  // ---------------------------------------------------------------------------------------------

  lemma {:induction false} TileAgrees(n: nat, total: nat, lastTile: bool, w: nat, h: nat, K: nat, exact: bool)
    requires K > 0 && Lcus(w, K) > 0 && n <= Lcus(w, K) * Lcus(h, K)
    requires exact ==> BordersInside(w, h, K)
    ensures Agree(Tile(true, n, total, lastTile, w, h, K), Tile(false, n, total, lastTile, w, h, K), exact)
  {
    hide *;
    if n > 0 {
      var a, b := Tile(true, n - 1, total, lastTile, w, h, K), Tile(false, n - 1, total, lastTile, w, h, K);
      var c, d, tail := LcuCode(n - 1, w, h, K), LcuSpec(n - 1, w, h, K), Tail(n == total, lastTile);
      TileStep(n, total, lastTile, w, h, K);
      TileAgrees(n - 1, total, lastTile, w, h, K, exact);
      LcuAgrees(n - 1, w, h, K, exact);
      AgreeSelf(tail, exact);
      AgreeAppend(a, b, c, d, exact);
      AgreeAppend(a + c, b + d, tail, tail, exact);
    } else {
      NoTile(total, lastTile, w, h, K);
      AgreeNone(exact);
    }
  }

  lemma TileStep(n: nat, total: nat, lastTile: bool, w: nat, h: nat, K: nat)
    requires Lcus(w, K) > 0 && n > 0
    ensures var tail := Tail(n == total, lastTile);
            && Tile(true, n, total, lastTile, w, h, K) == Tile(true, n - 1, total, lastTile, w, h, K) + LcuCode(n - 1, w, h, K) + tail
            && Tile(false, n, total, lastTile, w, h, K) == Tile(false, n - 1, total, lastTile, w, h, K) + LcuSpec(n - 1, w, h, K) + tail
  {
  }

  lemma NoTile(total: nat, lastTile: bool, w: nat, h: nat, K: nat)
    requires Lcus(w, K) > 0
    ensures Tile(true, 0, total, lastTile, w, h, K) == Tile(false, 0, total, lastTile, w, h, K) == []
  {
  }

  lemma AgreeSelf(a: seq<Symbol>, exact: bool)
    ensures Agree(a, a, exact)
  {
  }

  /** When largest and smallest units coincide the generator writes a split_cu_flag that is not coded. */
  lemma {:induction false} ExtraSplitFlags(n: nat, total: nat, lastTile: bool, w: nat, h: nat)
    requires Lcus(w, 0) > 0
    ensures |Tile(true, n, total, lastTile, w, h, 0)| == |Tile(false, n, total, lastTile, w, h, 0)| + n
  {
    if n > 0 {
      ExtraSplitFlags(n - 1, total, lastTile, w, h);
      assert Pow2(0) == 1;
      LcusIs(w, 0);
      assert |LcuCode(n - 1, w, h, 0)| == 3 && |LcuSpec(n - 1, w, h, 0)| == 2;
    }
  }

  /** The generator's tile has the standard's syntax exactly when coding units can be split at all. */
  lemma TileSyntax(lastTile: bool, w: nat, h: nat, K: nat)
    requires Lcus(w, K) > 0 && Lcus(h, K) > 0
    ensures var total := Lcus(w, K) * Lcus(h, K);
            SameSyntax(Tile(true, total, total, lastTile, w, h, K), Tile(false, total, total, lastTile, w, h, K))
            <==> K > 0
  {
    var total := Lcus(w, K) * Lcus(h, K);
    hide Tile, Lcus;
    if K > 0 {
      TileAgrees(total, total, lastTile, w, h, K, false);
    } else {
      ExtraSplitFlags(total, total, lastTile, w, h);
      Scaled(Lcus(w, K), Lcus(h, K));
    }
  }

  /** The context of the first cu_skip_flag in a list that starts with a coding unit. */
  function SkipContext(s: seq<Symbol>): nat
    requires |s| >= 2
  {
    if s[0].Terminate? then 0
    else if s[0].ctx > 0 then s[0].ctx
    else if s[1].Terminate? then 0
    else s[1].ctx
  }

  lemma SkipContextFront(a: seq<Symbol>, b: seq<Symbol>)
    requires |a| >= 2
    ensures SkipContext(a + b) == SkipContext(a)
  {
  }

  /** A list whose first coding unit has some neighbour taken for available. */
  ghost predicate Neighboured(s: seq<Symbol>) {
    |s| >= 2 && SkipContext(s) >= 2
  }

  lemma NeighbouredFront(a: seq<Symbol>, b: seq<Symbol>)
    requires Neighboured(a)
    ensures Neighboured(a + b)
  {
  }

  lemma NeighbouredCu(availA: bool, availB: bool, split: bool)
    requires availA || availB
    ensures Neighboured(Cu(availA, availB, split))
  {
  }

  /** The first unit of a tile has no neighbours. */
  lemma {:induction false} QuadCorner(k: nat, w: nat, h: nat)
    requires w > 0 && h > 0
    ensures |Quad(0, 0, k, w, h)| >= 2 && SkipContext(Quad(0, 0, k, w, h)) == 1
    decreases k
  {
    hide *;
    if k > 0 && (Pow2(k) > w || Pow2(k) > h) {
      QuadCorner(k - 1, w, h);
      QuadCut(0, 0, k, w, h);
      ChildInside(0, 0, k - 1, w, h);
      var p := Pow2(k - 1);
      var a, b, c, d := Quad(0, 0, k - 1, w, h), Child(p, 0, k - 1, w, h), Child(0, p, k - 1, w, h), Child(p, p, k - 1, w, h);
      assert a + b + c + d == a + (b + c + d);
      SkipContextFront(a, b + c + d);
    } else {
      CornerCu(k, w, h);
    }
  }

  lemma CornerCu(k: nat, w: nat, h: nat)
    requires w > 0 && h > 0 && (k == 0 || (Pow2(k) <= w && Pow2(k) <= h))
    ensures |Quad(0, 0, k, w, h)| >= 2 && SkipContext(Quad(0, 0, k, w, h)) == 1
  {
    assert Quad(0, 0, k, w, h) == Cu(false, false, k == 0);
  }

  lemma {:induction false} RightCorner(availB: bool, mod: nat, j: nat)
    requires mod % Pow2(j + 1) != 0
    ensures Neighboured(Right(availB, mod, j))
    decreases j
  {
    hide *;
    RemainderBit(mod, j);
    NeighbouredCu(true, availB, j == 0);
    if j == 0 {
      RightBase(availB, mod);
      NeighbouredFront(Cu(true, availB, true), []);
      NeighbouredFront(Cu(true, availB, true) + [], Cu(true, true, true));
      NeighbouredFront(Cu(true, availB, true) + [] + Cu(true, true, true), []);
    } else {
      RightParts(availB, mod, j);
      LowerPositive(mod, j);
      var r1 := if HasLower(mod, j) then Right(availB, mod, j - 1) else [];
      var r2 := if HasLower(mod, j) then Right(true, mod, j - 1) else [];
      if HasBit(mod, j) {
        FrontOfFour(Cu(true, availB, false), r1, Cu(true, true, false), r2);
      } else {
        RightCorner(availB, mod, j - 1);
        FrontOfFour(r1, [], r2, []);
      }
    }
  }

  lemma FrontOfFour(a: seq<Symbol>, b: seq<Symbol>, c: seq<Symbol>, d: seq<Symbol>)
    requires Neighboured(a) || (a == [] && Neighboured(b)) || (a == b == [] && Neighboured(c)) || (a == b == c == [] && Neighboured(d))
    ensures Neighboured(a + b + c + d)
  {
    hide *;
    if Neighboured(a) {
      NeighbouredFront(a, b);
      NeighbouredFront(a + b, c);
      NeighbouredFront(a + b + c, d);
    } else if a == [] && Neighboured(b) {
      assert a + b == b;
      NeighbouredFront(b, c);
      NeighbouredFront(b + c, d);
    } else if a == b == [] && Neighboured(c) {
      assert a + b + c == c;
      NeighbouredFront(c, d);
    } else {
      assert a + b + c + d == d;
    }
  }

  lemma {:induction false} BottomCorner(availA: bool, mod: nat, j: nat)
    requires mod % Pow2(j + 1) != 0
    ensures Neighboured(Bottom(availA, mod, j))
    decreases j
  {
    hide *;
    RemainderBit(mod, j);
    NeighbouredCu(availA, true, j == 0);
    if j == 0 {
      BottomBase(availA, mod);
      FrontOfFour(Cu(availA, true, true), Cu(true, true, true), [], []);
    } else {
      BottomParts(availA, mod, j);
      LowerPositive(mod, j);
      var b1 := if HasLower(mod, j) then Bottom(availA, mod, j - 1) else [];
      var b2 := if HasLower(mod, j) then Bottom(true, mod, j - 1) else [];
      if HasBit(mod, j) {
        FrontOfFour(Cu(availA, true, false), Cu(true, true, false), b1, b2);
      } else {
        BottomCorner(availA, mod, j - 1);
        FrontOfFour(b1, b2, [], []);
      }
    }
  }

  lemma {:induction false} BotRightCorner(modW: nat, modH: nat, j: nat)
    requires modW % Pow2(j + 1) != 0 && modH % Pow2(j + 1) != 0
    ensures Neighboured(BotRight(modW, modH, j))
    decreases j
  {
    hide *;
    RemainderBit(modW, j);
    RemainderBit(modH, j);
    LowerPositive(modW, j);
    LowerPositive(modH, j);
    NeighbouredCu(true, true, j == 0);
    if j == 0 {
      BotRightBase(modW, modH);
      FrontOfFour(Cu(true, true, true), [], [], []);
    } else {
      BotRightParts(modW, modH, j);
      var bw, lw, bh, lh := HasBit(modW, j), HasLower(modW, j), HasBit(modH, j), HasLower(modH, j);
      var c := if bh && bw then Cu(true, true, false) else [];
      var r := if bh && lw then Right(true, modW, j - 1) else [];
      var b := if lh && bw then Bottom(true, modH, j - 1) else [];
      var d := if lh && lw then BotRight(modW, modH, j - 1) else [];
      if bh && !bw {
        RightCorner(true, modW, j - 1);
      } else if !bh && bw {
        BottomCorner(true, modH, j - 1);
      } else if !bh && !bw {
        BotRightCorner(modW, modH, j - 1);
      }
      FrontOfFour(c, r, b, d);
    }
  }

  /** A cut first column or first row gives the first unit a neighbour it does not have. */
  lemma BadCorner(w: nat, h: nat, K: nat)
    requires K > 0 && w > 0 && h > 0 && Lcus(w, K) > 0 && !BordersInside(w, h, K)
    ensures Neighboured(LcuCode(0, w, h, K))
  {
    LcusIs(w, K);
    LcusIs(h, K);
    OwnRemainder(w, Pow2(K));
    OwnRemainder(h, Pow2(K));
    FirstChoice(w, h, K);
    var iW, iH := w % Pow2(K), h % Pow2(K);
    var right, bottom := Lcus(w, K) == 1 && iW != 0, h / Pow2(K) == 0 && iH != 0;
    assert right || bottom;
    hide *;
    if right && bottom {
      BotRightCorner(iW, iH, K - 1);
    } else if right {
      RightCorner(false, iW, K - 1);
    } else {
      BottomCorner(false, iH, K - 1);
    }
  }

  lemma FirstChoice(w: nat, h: nat, K: nat)
    requires K > 0 && Lcus(w, K) > 0
    ensures var iW, iH := w % Pow2(K), h % Pow2(K);
            var right, bottom := Lcus(w, K) == 1 && iW != 0, h / Pow2(K) == 0 && iH != 0;
            && (right && bottom ==> LcuCode(0, w, h, K) == BotRight(iW, iH, K - 1))
            && (right && !bottom ==> LcuCode(0, w, h, K) == Right(false, iW, K - 1))
            && (!right && bottom ==> LcuCode(0, w, h, K) == Bottom(false, iH, K - 1))
  {
    hide Cu, Right, Bottom, BotRight, FiveContexts, RegularOnly, Lcus;
  }

  lemma {:induction false} TileFront(generator: bool, n: nat, total: nat, lastTile: bool, w: nat, h: nat, K: nat)
    requires Lcus(w, K) > 0 && n >= 1
    ensures var first := if generator then LcuCode(0, w, h, K) else LcuSpec(0, w, h, K);
            first <= Tile(generator, n, total, lastTile, w, h, K)
  {
    hide LcuCode, LcuSpec, FiveContexts, RegularOnly, Lcus, Tail;
    if n > 1 {
      TileFront(generator, n - 1, total, lastTile, w, h, K);
    } else {
      assert Tile(generator, 0, total, lastTile, w, h, K) == [];
    }
  }

  /** The generator's tile is the standard's, contexts included, exactly when coding units can be split
      and no cut column is the first and no cut row is the first. */
  lemma TileExact(lastTile: bool, w: nat, h: nat, K: nat)
    requires w > 0 && h > 0 && Lcus(w, K) > 0 && Lcus(h, K) > 0
    ensures var total := Lcus(w, K) * Lcus(h, K);
            Tile(true, total, total, lastTile, w, h, K) == Tile(false, total, total, lastTile, w, h, K)
            <==> K > 0 && BordersInside(w, h, K)
  {
    var total := Lcus(w, K) * Lcus(h, K);
    var a, b := Tile(true, total, total, lastTile, w, h, K), Tile(false, total, total, lastTile, w, h, K);
    Scaled(Lcus(w, K), Lcus(h, K));
    hide Tile, Lcus, LcuCode, Quad;
    if K == 0 {
      ExtraSplitFlags(total, total, lastTile, w, h);
    } else if BordersInside(w, h, K) {
      TileAgrees(total, total, lastTile, w, h, K, true);
    } else {
      BadCorner(w, h, K);
      TileFront(true, total, total, lastTile, w, h, K);
      TileFront(false, total, total, lastTile, w, h, K);
      QuadCorner(K, w, h);
      FirstLcu(w, h, K);
      DifferentFronts(LcuCode(0, w, h, K), a, LcuSpec(0, w, h, K), b);
    }
  }

  lemma FirstLcu(w: nat, h: nat, K: nat)
    requires Lcus(w, K) > 0
    ensures LcuSpec(0, w, h, K) == Quad(0, 0, K, w, h)
  {
    hide *;
    LcuSpecIs(0, w, h, K);
    PlaceIs(0, Lcus(w, K), Pow2(K));
  }

  lemma DifferentFronts(f: seq<Symbol>, a: seq<Symbol>, g: seq<Symbol>, b: seq<Symbol>)
    requires |f| >= 2 && |g| >= 2 && f <= a && g <= b && SkipContext(f) != SkipContext(g)
    ensures a != b
  {
    assert SkipContext(a) == SkipContext(f);
    assert SkipContext(b) == SkipContext(g);
  }
}
