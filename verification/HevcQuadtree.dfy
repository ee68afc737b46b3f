/** The bins of a skipped HEVC tile: the coding_quadtree walk of section 7.3.8.4 of ITU-T H.265, what
    the border recursions of the generator emit instead, and the proof that they agree.

    Coordinates and sizes are in units of the minimum coding unit; a block of level k is 2^k of them
    wide and high. */
module HevcQuadtree {
  import opened Bits
  import opened CabacModel

  // Contexts, in the order of the generator's arrays: 0 is split_cu_flag, 1 to 3 cu_skip_flag, 4 merge_idx.

  /** Symbols that use the generator's five contexts. */
  predicate FiveContexts(syms: seq<Symbol>) {
    forall i :: 0 <= i < |syms| && syms[i].Regular? ==> syms[i].ctx < 5
  }

  /** Coding units write context-coded bins only. */
  predicate RegularOnly(syms: seq<Symbol>) {
    forall i :: 0 <= i < |syms| ==> syms[i].Regular?
  }

  function Bool(b: bool): Bit {
    if b then 1 else 0
  }

  /** A skipped coding unit: split_cu_flag 0 when it is coded, cu_skip_flag, merge_idx. */
  function Cu(availA: bool, availB: bool, split: bool): (syms: seq<Symbol>)
    ensures FiveContexts(syms) && RegularOnly(syms)
  {
    (if split then [] else [Regular(0, 0)])
    + [Regular(1 + Bool(availA) + Bool(availB), 1), Regular(4, 0)]
  }

  // ---------------------------------------------------------------------------------------------
  // The standard's walk
  // ---------------------------------------------------------------------------------------------

  /** coding_quadtree for a picture area of w by h in which every coding unit is skipped and no split
      is made that is not inferred. A split_cu_flag is coded where the block fits and can be split; the
      context of cu_skip_flag counts the available neighbours, all of them skipped. */
  function Quad(x: nat, y: nat, k: nat, w: nat, h: nat): (syms: seq<Symbol>)
    ensures FiveContexts(syms) && RegularOnly(syms)
    decreases k
  {
    if k == 0 then Cu(x > 0, y > 0, true)
    else if x + Pow2(k) <= w && y + Pow2(k) <= h then Cu(x > 0, y > 0, false)
    else
      var x1, y1 := x + Pow2(k - 1), y + Pow2(k - 1);
      Joined(Quad(x, y, k - 1, w, h),
             if x1 < w then Quad(x1, y, k - 1, w, h) else [],
             if y1 < h then Quad(x, y1, k - 1, w, h) else [],
             if x1 < w && y1 < h then Quad(x1, y1, k - 1, w, h) else [])
  }

  /** Four quarters in coding order. */
  function Joined(a: seq<Symbol>, b: seq<Symbol>, c: seq<Symbol>, d: seq<Symbol>): (syms: seq<Symbol>)
    requires FiveContexts(a) && FiveContexts(b) && FiveContexts(c) && FiveContexts(d)
    requires RegularOnly(a) && RegularOnly(b) && RegularOnly(c) && RegularOnly(d)
    ensures FiveContexts(syms) && RegularOnly(syms)
  {
    a + b + c + d
  }

  // ---------------------------------------------------------------------------------------------
  // The generator's border recursions
  // ---------------------------------------------------------------------------------------------

  /** Bit j of a remainder: what the source tests with a one-bit mask. */
  predicate HasBit(n: nat, j: nat) {
    n / Pow2(j) % 2 == 1
  }

  /** The bits of a remainder below j: what the source tests with the mask minus one. */
  predicate HasLower(n: nat, j: nat) {
    n % Pow2(j) != 0
  }

  function Right(availB: bool, mod: nat, j: nat): (syms: seq<Symbol>)
    ensures FiveContexts(syms) && RegularOnly(syms)
    decreases j
  {
    if j == 0 then Cu(true, availB, true) + Cu(true, true, true)
    else
      (if HasBit(mod, j) then Cu(true, availB, false) else [])
      + (if HasLower(mod, j) then Right(availB, mod, j - 1) else [])
      + (if HasBit(mod, j) then Cu(true, true, false) else [])
      + (if HasLower(mod, j) then Right(true, mod, j - 1) else [])
  }

  function Bottom(availA: bool, mod: nat, j: nat): (syms: seq<Symbol>)
    ensures FiveContexts(syms) && RegularOnly(syms)
    decreases j
  {
    if j == 0 then Cu(availA, true, true) + Cu(true, true, true)
    else
      (if HasBit(mod, j) then Cu(availA, true, false) + Cu(true, true, false) else [])
      + (if HasLower(mod, j) then Bottom(availA, mod, j - 1) + Bottom(true, mod, j - 1) else [])
  }

  function BotRight(modW: nat, modH: nat, j: nat): (syms: seq<Symbol>)
    ensures FiveContexts(syms) && RegularOnly(syms)
    decreases j
  {
    if j == 0 then Cu(true, true, true)
    else
      (if HasBit(modH, j) then
         (if HasBit(modW, j) then Cu(true, true, false) else [])
         + (if HasLower(modW, j) then Right(true, modW, j - 1) else [])
       else [])
      + (if HasLower(modH, j) then
           (if HasBit(modW, j) then Bottom(true, modH, j - 1) else [])
           + (if HasLower(modW, j) then BotRight(modW, modH, j - 1) else [])
         else [])
  }

  // ---------------------------------------------------------------------------------------------
  // Agreement
  // ---------------------------------------------------------------------------------------------

  /** A symbol without the choice among the three cu_skip_flag contexts: its syntax element and value. */
  function Syntax(s: Symbol): Symbol {
    if s.Regular? && 1 <= s.ctx <= 3 then Regular(1, s.bin) else s
  }

  /** Two symbol lists write the same syntax. */
  ghost predicate SameSyntax(a: seq<Symbol>, b: seq<Symbol>) {
    |a| == |b| && forall i :: 0 <= i < |a| ==> Syntax(a[i]) == Syntax(b[i])
  }

  /** The generator's list against the standard's: same syntax, and equal when exact is demanded. */
  ghost predicate Agree(a: seq<Symbol>, b: seq<Symbol>, exact: bool) {
    SameSyntax(a, b) && (exact ==> a == b)
  }

  lemma AgreeAppend(a: seq<Symbol>, b: seq<Symbol>, c: seq<Symbol>, d: seq<Symbol>, exact: bool)
    requires Agree(a, b, exact) && Agree(c, d, exact)
    ensures Agree(a + c, b + d, exact)
  {
  }

  lemma AgreeFour(a: seq<Symbol>, b: seq<Symbol>, c: seq<Symbol>, d: seq<Symbol>,
                  e: seq<Symbol>, f: seq<Symbol>, g: seq<Symbol>, h: seq<Symbol>, exact: bool)
    requires Agree(a, e, exact) && Agree(b, f, exact) && Agree(c, g, exact) && Agree(d, h, exact)
    ensures Agree(a + b + c + d, e + f + g + h, exact)
  {
    AgreeAppend(a, e, b, f, exact);
    AgreeAppend(a + b, e + f, c, g, exact);
    AgreeAppend(a + b + c, e + f + g, d, h, exact);
  }

  lemma CuAgrees(availA: bool, availB: bool, split: bool, x: nat, y: nat, exact: bool)
    requires exact ==> availA == (x > 0) && availB == (y > 0)
    ensures Agree(Cu(availA, availB, split), Cu(x > 0, y > 0, split), exact)
  {
  }

  /** A remainder splits at bit j. */
  lemma RemainderBit(mod: nat, j: nat)
    ensures mod % Pow2(j + 1) == (if HasBit(mod, j) then Pow2(j) else 0) + mod % Pow2(j)
  {
    var p := Pow2(j);
    var q := mod / p;
    assert mod == p * q + mod % p;
    assert q == 2 * (q / 2) + q % 2;
    assert p * q == (2 * p) * (q / 2) + p * (q % 2);
    if q % 2 == 1 {
      DivUnique(mod, 2 * p, q / 2, p + mod % p);
    } else {
      DivUnique(mod, 2 * p, q / 2, mod % p);
    }
  }

  lemma QuadFits(x: nat, y: nat, k: nat, w: nat, h: nat)
    requires k > 0 && x + Pow2(k) <= w && y + Pow2(k) <= h
    ensures Quad(x, y, k, w, h) == Cu(x > 0, y > 0, false)
  {
    hide FiveContexts, RegularOnly, Cu;
  }

  /** A child of a block cut by the border: nothing outside the picture. */
  function Child(x: nat, y: nat, k: nat, w: nat, h: nat): seq<Symbol> {
    if x < w && y < h then Quad(x, y, k, w, h) else []
  }

  lemma QuadCut(x: nat, y: nat, k: nat, w: nat, h: nat)
    requires k > 0 && x < w && y < h && (x + Pow2(k) > w || y + Pow2(k) > h)
    ensures var x1, y1 := x + Pow2(k - 1), y + Pow2(k - 1);
            Quad(x, y, k, w, h) ==
            Child(x, y, k - 1, w, h) + Child(x1, y, k - 1, w, h) + Child(x, y1, k - 1, w, h) + Child(x1, y1, k - 1, w, h)
  {
    hide FiveContexts, RegularOnly, Cu;
  }

  lemma AgreeNone(exact: bool)
    ensures Agree([], [], exact)
  {
  }

  lemma RightBase(availB: bool, mod: nat)
    ensures Right(availB, mod, 0) == Cu(true, availB, true) + [] + Cu(true, true, true) + []
  {
  }

  lemma RightParts(availB: bool, mod: nat, j: nat)
    requires j > 0
    ensures var r1 := if HasLower(mod, j) then Right(availB, mod, j - 1) else [];
            var r2 := if HasLower(mod, j) then Right(true, mod, j - 1) else [];
            Right(availB, mod, j) ==
            if HasBit(mod, j) then Cu(true, availB, false) + r1 + Cu(true, true, false) + r2 else r1 + [] + r2 + []
  {
  }

  /** The children of a block cut by the right border only. */
  lemma CutRight(mod: nat, j: nat, x: nat, y: nat, w: nat, h: nat)
    requires w == x + mod % Pow2(j + 1) > x && y + Pow2(j + 1) <= h
    ensures var bit, low, x1, y1 := HasBit(mod, j), HasLower(mod, j), x + Pow2(j), y + Pow2(j);
            var x' := if bit then x1 else x;
            && Quad(x, y, j + 1, w, h)
               == Child(x, y, j, w, h) + Child(x1, y, j, w, h) + Child(x, y1, j, w, h) + Child(x1, y1, j, w, h)
            && (bit ==> Child(x, y, j, w, h) == Cu(x > 0, y > 0, j == 0) && Child(x, y1, j, w, h) == Cu(x > 0, true, j == 0))
            && (low ==> w == x' + mod % Pow2(j) > x' && y + Pow2(j) <= h && y1 + Pow2(j) <= h)
            && (low ==> Child(x', y, j, w, h) == Quad(x', y, j, w, h) && Child(x', y1, j, w, h) == Quad(x', y1, j, w, h))
            && (!low ==> bit && Child(x1, y, j, w, h) == Child(x1, y1, j, w, h) == [])
            && (!bit ==> low && Child(x1, y, j, w, h) == Child(x1, y1, j, w, h) == [])
            && (j == 0 ==> bit && !low)
  {
    hide FiveContexts, RegularOnly, Cu;
    RemainderBit(mod, j);
    QuadCut(x, y, j + 1, w, h);
    assert Pow2(0) == 1;
    if HasBit(mod, j) && j > 0 {
      QuadFits(x, y, j, w, h);
      QuadFits(x, y + Pow2(j), j, w, h);
    }
  }

  lemma RightGlue(availB: bool, mod: nat, j: nat, x: nat, y: nat, w: nat, h: nat, exact: bool)
    requires w == x + mod % Pow2(j + 1) > x && y + Pow2(j + 1) <= h
    requires exact ==> x > 0 && availB == (y > 0)
    requires j > 0 && HasLower(mod, j) ==>
               var x' := if HasBit(mod, j) then x + Pow2(j) else x;
               && Agree(Right(availB, mod, j - 1), Quad(x', y, j, w, h), exact)
               && Agree(Right(true, mod, j - 1), Quad(x', y + Pow2(j), j, w, h), exact)
    ensures Agree(Right(availB, mod, j), Quad(x, y, j + 1, w, h), exact)
  {
    hide *;
    var bit, low, x1, y1 := HasBit(mod, j), HasLower(mod, j), x + Pow2(j), y + Pow2(j);
    var tl, tr, bl, br := Child(x, y, j, w, h), Child(x1, y, j, w, h), Child(x, y1, j, w, h), Child(x1, y1, j, w, h);
    CutRight(mod, j, x, y, w, h);
    if j == 0 {
      RightBase(availB, mod);
    } else {
      RightParts(availB, mod, j);
    }
    CuAgrees(true, availB, j == 0, x, y, exact);
    CuAgrees(true, true, j == 0, x, y1, exact);
    AgreeNone(exact);
    if j == 0 {
      AgreeFour(Cu(true, availB, true), [], Cu(true, true, true), [], tl, tr, bl, br, exact);
    } else {
      var r1 := if low then Right(availB, mod, j - 1) else [];
      var r2 := if low then Right(true, mod, j - 1) else [];
      if bit {
        AgreeFour(Cu(true, availB, false), r1, Cu(true, true, false), r2, tl, tr, bl, br, exact);
      } else {
        AgreeFour(r1, [], r2, [], tl, tr, bl, br, exact);
      }
    }
  }

  /** A block cut by the right border only. */
  lemma {:induction false} RightAgrees(availB: bool, mod: nat, j: nat, x: nat, y: nat, w: nat, h: nat, exact: bool)
    requires w == x + mod % Pow2(j + 1) > x && y + Pow2(j + 1) <= h
    requires exact ==> x > 0 && availB == (y > 0)
    ensures Agree(Right(availB, mod, j), Quad(x, y, j + 1, w, h), exact)
    decreases j
  {
    hide *;
    CutRight(mod, j, x, y, w, h);
    if j > 0 && HasLower(mod, j) {
      var x' := if HasBit(mod, j) then x + Pow2(j) else x;
      RightAgrees(availB, mod, j - 1, x', y, w, h, exact);
      RightAgrees(true, mod, j - 1, x', y + Pow2(j), w, h, exact);
    }
    RightGlue(availB, mod, j, x, y, w, h, exact);
  }

  // The bottom border.

  lemma BottomBase(availA: bool, mod: nat)
    ensures Bottom(availA, mod, 0) == Cu(availA, true, true) + Cu(true, true, true) + [] + []
  {
  }

  lemma BottomParts(availA: bool, mod: nat, j: nat)
    requires j > 0
    ensures var b1 := if HasLower(mod, j) then Bottom(availA, mod, j - 1) else [];
            var b2 := if HasLower(mod, j) then Bottom(true, mod, j - 1) else [];
            Bottom(availA, mod, j) ==
            if HasBit(mod, j) then Cu(availA, true, false) + Cu(true, true, false) + b1 + b2 else b1 + b2 + [] + []
  {
  }

  /** The children of a block cut by the bottom border only. */
  lemma CutBottom(mod: nat, j: nat, x: nat, y: nat, w: nat, h: nat)
    requires h == y + mod % Pow2(j + 1) > y && x + Pow2(j + 1) <= w
    ensures var bit, low, x1, y1 := HasBit(mod, j), HasLower(mod, j), x + Pow2(j), y + Pow2(j);
            var y' := if bit then y1 else y;
            && Quad(x, y, j + 1, w, h)
               == Child(x, y, j, w, h) + Child(x1, y, j, w, h) + Child(x, y1, j, w, h) + Child(x1, y1, j, w, h)
            && (bit ==> Child(x, y, j, w, h) == Cu(x > 0, y > 0, j == 0) && Child(x1, y, j, w, h) == Cu(true, y > 0, j == 0))
            && (low ==> h == y' + mod % Pow2(j) > y' && x + Pow2(j) <= w && x1 + Pow2(j) <= w)
            && (low ==> Child(x, y', j, w, h) == Quad(x, y', j, w, h) && Child(x1, y', j, w, h) == Quad(x1, y', j, w, h))
            && (!low ==> bit && Child(x, y1, j, w, h) == Child(x1, y1, j, w, h) == [])
            && (!bit ==> low && Child(x, y1, j, w, h) == Child(x1, y1, j, w, h) == [])
            && (j == 0 ==> bit && !low)
  {
    hide FiveContexts, RegularOnly, Cu;
    RemainderBit(mod, j);
    QuadCut(x, y, j + 1, w, h);
    assert Pow2(0) == 1;
    if HasBit(mod, j) && j > 0 {
      QuadFits(x, y, j, w, h);
      QuadFits(x + Pow2(j), y, j, w, h);
    }
  }

  lemma BottomGlue(availA: bool, mod: nat, j: nat, x: nat, y: nat, w: nat, h: nat, exact: bool)
    requires h == y + mod % Pow2(j + 1) > y && x + Pow2(j + 1) <= w
    requires exact ==> y > 0 && availA == (x > 0)
    requires j > 0 && HasLower(mod, j) ==>
               var y' := if HasBit(mod, j) then y + Pow2(j) else y;
               && Agree(Bottom(availA, mod, j - 1), Quad(x, y', j, w, h), exact)
               && Agree(Bottom(true, mod, j - 1), Quad(x + Pow2(j), y', j, w, h), exact)
    ensures Agree(Bottom(availA, mod, j), Quad(x, y, j + 1, w, h), exact)
  {
    hide *;
    var bit, low, x1, y1 := HasBit(mod, j), HasLower(mod, j), x + Pow2(j), y + Pow2(j);
    var tl, tr, bl, br := Child(x, y, j, w, h), Child(x1, y, j, w, h), Child(x, y1, j, w, h), Child(x1, y1, j, w, h);
    CutBottom(mod, j, x, y, w, h);
    CuAgrees(availA, true, j == 0, x, y, exact);
    CuAgrees(true, true, j == 0, x1, y, exact);
    AgreeNone(exact);
    if j == 0 {
      BottomBase(availA, mod);
      AgreeFour(Cu(availA, true, true), Cu(true, true, true), [], [], tl, tr, bl, br, exact);
    } else {
      BottomParts(availA, mod, j);
      var b1 := if low then Bottom(availA, mod, j - 1) else [];
      var b2 := if low then Bottom(true, mod, j - 1) else [];
      if bit {
        AgreeFour(Cu(availA, true, false), Cu(true, true, false), b1, b2, tl, tr, bl, br, exact);
      } else {
        AgreeFour(b1, b2, [], [], tl, tr, bl, br, exact);
      }
    }
  }

  /** A block cut by the bottom border only. */
  lemma {:induction false} BottomAgrees(availA: bool, mod: nat, j: nat, x: nat, y: nat, w: nat, h: nat, exact: bool)
    requires h == y + mod % Pow2(j + 1) > y && x + Pow2(j + 1) <= w
    requires exact ==> y > 0 && availA == (x > 0)
    ensures Agree(Bottom(availA, mod, j), Quad(x, y, j + 1, w, h), exact)
    decreases j
  {
    hide *;
    CutBottom(mod, j, x, y, w, h);
    if j > 0 && HasLower(mod, j) {
      var y' := if HasBit(mod, j) then y + Pow2(j) else y;
      BottomAgrees(availA, mod, j - 1, x, y', w, h, exact);
      BottomAgrees(true, mod, j - 1, x + Pow2(j), y', w, h, exact);
    }
    BottomGlue(availA, mod, j, x, y, w, h, exact);
  }

  // The corner.

  lemma BotRightBase(modW: nat, modH: nat)
    ensures BotRight(modW, modH, 0) == Cu(true, true, true) + [] + [] + []
  {
  }

  lemma BotRightParts(modW: nat, modH: nat, j: nat)
    requires j > 0
    ensures var bw, lw, bh, lh := HasBit(modW, j), HasLower(modW, j), HasBit(modH, j), HasLower(modH, j);
            var c := if bh && bw then Cu(true, true, false) else [];
            var r := if bh && lw then Right(true, modW, j - 1) else [];
            var b := if lh && bw then Bottom(true, modH, j - 1) else [];
            var d := if lh && lw then BotRight(modW, modH, j - 1) else [];
            BotRight(modW, modH, j) == c + r + b + d
  {
  }

  /** The children of a block cut by both borders. */
  lemma CutBoth(modW: nat, modH: nat, j: nat, x: nat, y: nat, w: nat, h: nat)
    requires w == x + modW % Pow2(j + 1) > x && h == y + modH % Pow2(j + 1) > y
    ensures var bw, lw, bh, lh := HasBit(modW, j), HasLower(modW, j), HasBit(modH, j), HasLower(modH, j);
            var x1, y1 := x + Pow2(j), y + Pow2(j);
            && Quad(x, y, j + 1, w, h)
               == Child(x, y, j, w, h) + Child(x1, y, j, w, h) + Child(x, y1, j, w, h) + Child(x1, y1, j, w, h)
            && (bw && bh ==> Child(x, y, j, w, h) == Cu(x > 0, y > 0, j == 0))
            && (bw || lw) && (bh || lh)
            && (bw <==> x1 <= w) && (bh <==> y1 <= h) && (bw && lw <==> x1 < w) && (bh && lh <==> y1 < h)
            && (lw ==> w == (if bw then x1 else x) + modW % Pow2(j))
            && (lh ==> h == (if bh then y1 else y) + modH % Pow2(j))
            && (j == 0 ==> bw && bh && !lw && !lh)
  {
    hide FiveContexts, RegularOnly, Cu;
    RemainderBit(modW, j);
    RemainderBit(modH, j);
    QuadCut(x, y, j + 1, w, h);
    assert Pow2(0) == 1;
    if HasBit(modW, j) && HasBit(modH, j) && j > 0 {
      QuadFits(x, y, j, w, h);
    }
  }

  lemma ChildInside(x: nat, y: nat, k: nat, w: nat, h: nat)
    ensures x < w && y < h ==> Child(x, y, k, w, h) == Quad(x, y, k, w, h)
    ensures x >= w || y >= h ==> Child(x, y, k, w, h) == []
  {
  }

  lemma BotRightGlue(modW: nat, modH: nat, j: nat, x: nat, y: nat, w: nat, h: nat, exact: bool)
    requires w == x + modW % Pow2(j + 1) > x && h == y + modH % Pow2(j + 1) > y
    requires exact ==> x > 0 && y > 0
    requires j > 0 ==>
               var x' := if HasBit(modW, j) then x + Pow2(j) else x;
               var y' := if HasBit(modH, j) then y + Pow2(j) else y;
               && (HasBit(modH, j) && HasLower(modW, j) ==> Agree(Right(true, modW, j - 1), Quad(x', y, j, w, h), exact))
               && (HasLower(modH, j) && HasBit(modW, j) ==> Agree(Bottom(true, modH, j - 1), Quad(x, y', j, w, h), exact))
               && (HasLower(modH, j) && HasLower(modW, j) ==> Agree(BotRight(modW, modH, j - 1), Quad(x', y', j, w, h), exact))
    ensures Agree(BotRight(modW, modH, j), Quad(x, y, j + 1, w, h), exact)
  {
    hide *;
    var bw, lw, bh, lh := HasBit(modW, j), HasLower(modW, j), HasBit(modH, j), HasLower(modH, j);
    var x1, y1 := x + Pow2(j), y + Pow2(j);
    var tl, tr, bl, br := Child(x, y, j, w, h), Child(x1, y, j, w, h), Child(x, y1, j, w, h), Child(x1, y1, j, w, h);
    CutBoth(modW, modH, j, x, y, w, h);
    ChildInside(x, y, j, w, h);
    ChildInside(x1, y, j, w, h);
    ChildInside(x, y1, j, w, h);
    ChildInside(x1, y1, j, w, h);
    CuAgrees(true, true, j == 0, x, y, exact);
    AgreeNone(exact);
    if j == 0 {
      BotRightBase(modW, modH);
      AgreeFour(Cu(true, true, true), [], [], [], tl, tr, bl, br, exact);
    } else {
      BotRightParts(modW, modH, j);
      var c := if bh && bw then Cu(true, true, false) else [];
      var r := if bh && lw then Right(true, modW, j - 1) else [];
      var b := if lh && bw then Bottom(true, modH, j - 1) else [];
      var d := if lh && lw then BotRight(modW, modH, j - 1) else [];
      if bw && bh {
        AgreeFour(c, r, b, d, tl, tr, bl, br, exact);
      } else if bh {
        AgreeFour(r, [], d, [], tl, tr, bl, br, exact);
        assert c + r + b + d == r + [] + d + [];
      } else if bw {
        AgreeFour(b, d, [], [], tl, tr, bl, br, exact);
        assert c + r + b + d == b + d + [] + [];
      } else {
        AgreeFour(d, [], [], [], tl, tr, bl, br, exact);
        assert c + r + b + d == d + [] + [] + [];
      }
    }
  }

  /** A block cut by both borders. */
  lemma {:induction false} BotRightAgrees(modW: nat, modH: nat, j: nat, x: nat, y: nat, w: nat, h: nat, exact: bool)
    requires w == x + modW % Pow2(j + 1) > x && h == y + modH % Pow2(j + 1) > y
    requires exact ==> x > 0 && y > 0
    ensures Agree(BotRight(modW, modH, j), Quad(x, y, j + 1, w, h), exact)
    decreases j
  {
    hide *;
    CutBoth(modW, modH, j, x, y, w, h);
    if j > 0 {
      var x' := if HasBit(modW, j) then x + Pow2(j) else x;
      var y' := if HasBit(modH, j) then y + Pow2(j) else y;
      LowerPositive(modW, j);
      LowerPositive(modH, j);
      if HasBit(modH, j) && HasLower(modW, j) {
        RightAgrees(true, modW, j - 1, x', y, w, h, exact);
      }
      if HasLower(modH, j) && HasBit(modW, j) {
        BottomAgrees(true, modH, j - 1, x, y', w, h, exact);
      }
      if HasLower(modH, j) && HasLower(modW, j) {
        BotRightAgrees(modW, modH, j - 1, x', y', w, h, exact);
      }
    }
    BotRightGlue(modW, modH, j, x, y, w, h, exact);
  }

  lemma LowerPositive(n: nat, j: nat)
    ensures HasLower(n, j) <==> n % Pow2(j) > 0
  {
  }
}
