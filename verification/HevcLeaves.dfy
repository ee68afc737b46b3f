/** The coding units of the quadtree walk: they cover the picture area exactly once, in z-order. */
module HevcLeaves {
  import opened Common
  import opened Bits
  import opened CabacModel
  import opened HevcQuadtree

  /** A coding unit of level k at (x, y). */
  datatype Unit = Unit(x: nat, y: nat, k: nat) {
    predicate Contains(a: nat, b: nat) {
      x <= a < x + Pow2(k) && y <= b < y + Pow2(k)
    }
  }

  /** The coding units of a block, in coding order. */
  function Units(x: nat, y: nat, k: nat, w: nat, h: nat): seq<Unit>
    decreases k
  {
    if k == 0 || (x + Pow2(k) <= w && y + Pow2(k) <= h) then [Unit(x, y, k)]
    else
      var x1, y1 := x + Pow2(k - 1), y + Pow2(k - 1);
      Units(x, y, k - 1, w, h)
      + (if x1 < w then Units(x1, y, k - 1, w, h) else [])
      + (if y1 < h then Units(x, y1, k - 1, w, h) else [])
      + (if x1 < w && y1 < h then Units(x1, y1, k - 1, w, h) else [])
  }

  /** The bins of a list of skipped units. */
  function UnitBins(us: seq<Unit>): seq<Symbol> {
    if us == [] then []
    else UnitBins(us[..|us| - 1]) + Cu(us[|us| - 1].x > 0, us[|us| - 1].y > 0, us[|us| - 1].k == 0)
  }

  lemma {:induction false} UnitBinsAppend(us: seq<Unit>, vs: seq<Unit>)
    ensures UnitBins(us + vs) == UnitBins(us) + UnitBins(vs)
  {
    hide *;
    if vs == [] {
      NoBins();
      assert us + vs == us;
    } else {
      var init, v := vs[..|vs| - 1], vs[|vs| - 1];
      UnitBinsAppend(us, init);
      assert us + vs == us + init + [v] && vs == init + [v];
      UnitBinsLast(us + init, v);
      UnitBinsLast(init, v);
    }
  }

  lemma NoBins()
    ensures UnitBins([]) == []
  {
  }

  lemma UnitBinsLast(us: seq<Unit>, u: Unit)
    ensures UnitBins(us + [u]) == UnitBins(us) + Cu(u.x > 0, u.y > 0, u.k == 0)
  {
    hide Cu;
    assert (us + [u])[..|us|] == us;
  }

  lemma UnitBinsFour(a: seq<Unit>, b: seq<Unit>, c: seq<Unit>, d: seq<Unit>)
    ensures UnitBins(a + b + c + d) == UnitBins(a) + UnitBins(b) + UnitBins(c) + UnitBins(d)
  {
    hide *;
    UnitBinsAppend(a, b);
    UnitBinsAppend(a + b, c);
    UnitBinsAppend(a + b + c, d);
  }

  predicate Whole(x: nat, y: nat, k: nat, w: nat, h: nat) {
    k == 0 || (x + Pow2(k) <= w && y + Pow2(k) <= h)
  }

  /** The units of a child, none when it lies outside the picture. */
  function Kid(x: nat, y: nat, k: nat, w: nat, h: nat): seq<Unit> {
    if x < w && y < h then Units(x, y, k, w, h) else []
  }

  lemma UnitsCut(x: nat, y: nat, k: nat, w: nat, h: nat)
    requires x < w && y < h && !Whole(x, y, k, w, h)
    ensures k > 0
    ensures var x1, y1 := x + Pow2(k - 1), y + Pow2(k - 1);
            Units(x, y, k, w, h) ==
            Kid(x, y, k - 1, w, h) + Kid(x1, y, k - 1, w, h) + Kid(x, y1, k - 1, w, h) + Kid(x1, y1, k - 1, w, h)
  {
  }

  lemma OneUnit(x: nat, y: nat, k: nat, w: nat, h: nat)
    requires Whole(x, y, k, w, h)
    ensures Units(x, y, k, w, h) == [Unit(x, y, k)]
    ensures Quad(x, y, k, w, h) == Cu(x > 0, y > 0, k == 0)
    ensures UnitBins([Unit(x, y, k)]) == Cu(x > 0, y > 0, k == 0)
  {
    hide Cu;
    var u := Unit(x, y, k);
    assert [u][..0] == [];
    assert UnitBins([u]) == [] + Cu(x > 0, y > 0, k == 0);
  }

  /** The walk emits exactly the bins of its units, nothing for inner nodes. */
  lemma {:induction false} QuadIsUnits(x: nat, y: nat, k: nat, w: nat, h: nat)
    requires x < w && y < h
    ensures Quad(x, y, k, w, h) == UnitBins(Units(x, y, k, w, h))
    decreases k, 1
  {
    hide Quad, Units, UnitBins;
    if Whole(x, y, k, w, h) {
      OneUnit(x, y, k, w, h);
    } else {
      var x1, y1 := x + Pow2(k - 1), y + Pow2(k - 1);
      UnitsCut(x, y, k, w, h);
      QuadCut(x, y, k, w, h);
      hide *;
      ChildIsKid(x, y, k - 1, w, h);
      ChildIsKid(x1, y, k - 1, w, h);
      ChildIsKid(x, y1, k - 1, w, h);
      ChildIsKid(x1, y1, k - 1, w, h);
      UnitBinsFour(Kid(x, y, k - 1, w, h), Kid(x1, y, k - 1, w, h), Kid(x, y1, k - 1, w, h), Kid(x1, y1, k - 1, w, h));
    }
  }

  lemma {:induction false} ChildIsKid(x: nat, y: nat, k: nat, w: nat, h: nat)
    ensures Child(x, y, k, w, h) == UnitBins(Kid(x, y, k, w, h))
    decreases k, 2
  {
    if x < w && y < h {
      QuadIsUnits(x, y, k, w, h);
    }
  }

  /** How many units are of the minimum size. */
  function Smallest(us: seq<Unit>): nat {
    if us == [] then 0 else Smallest(us[..|us| - 1]) + if us[|us| - 1].k == 0 then 1 else 0
  }

  /** Three bins for a larger unit, two for one of the minimum size. */
  lemma {:induction false} BinCount(us: seq<Unit>)
    ensures Smallest(us) <= |us|
    ensures |UnitBins(us)| == 3 * (|us| - Smallest(us)) + 2 * Smallest(us)
  {
    if us != [] {
      BinCount(us[..|us| - 1]);
    }
  }

  // ---------------------------------------------------------------------------------------------
  // Partition
  // ---------------------------------------------------------------------------------------------

  /** How many units contain the cell (a, b). */
  function Cover(us: seq<Unit>, a: nat, b: nat): nat {
    if us == [] then 0 else Cover(us[..|us| - 1], a, b) + if us[|us| - 1].Contains(a, b) then 1 else 0
  }

  lemma {:induction false} CoverAppend(us: seq<Unit>, vs: seq<Unit>, a: nat, b: nat)
    ensures Cover(us + vs, a, b) == Cover(us, a, b) + Cover(vs, a, b)
  {
    if vs == [] {
      assert us + vs == us;
    } else {
      CoverAppend(us, vs[..|vs| - 1], a, b);
      assert (us + vs)[..|us + vs| - 1] == us + vs[..|vs| - 1];
    }
  }

  lemma CoverFour(a: seq<Unit>, b: seq<Unit>, c: seq<Unit>, d: seq<Unit>, p: nat, q: nat)
    ensures Cover(a + b + c + d, p, q) == Cover(a, p, q) + Cover(b, p, q) + Cover(c, p, q) + Cover(d, p, q)
  {
    hide *;
    CoverAppend(a, b, p, q);
    CoverAppend(a + b, c, p, q);
    CoverAppend(a + b + c, d, p, q);
  }

  /** Every cell of the block that lies in the picture is in exactly one unit, no other cell is. */
  lemma {:induction false} Partition(x: nat, y: nat, k: nat, w: nat, h: nat, a: nat, b: nat)
    requires x < w && y < h
    ensures Cover(Units(x, y, k, w, h), a, b) == if Unit(x, y, k).Contains(a, b) && a < w && b < h then 1 else 0
    decreases k, 1
  {
    hide *;
    if Whole(x, y, k, w, h) {
      WholeCover(x, y, k, w, h, a, b);
    } else {
      UnitsCut(x, y, k, w, h);
      var x1, y1 := x + Pow2(k - 1), y + Pow2(k - 1);
      KidPartition(x, y, k - 1, w, h, a, b);
      KidPartition(x1, y, k - 1, w, h, a, b);
      KidPartition(x, y1, k - 1, w, h, a, b);
      KidPartition(x1, y1, k - 1, w, h, a, b);
      CoverFour(Kid(x, y, k - 1, w, h), Kid(x1, y, k - 1, w, h), Kid(x, y1, k - 1, w, h), Kid(x1, y1, k - 1, w, h), a, b);
      Quarters(x, y, k, a, b);
    }
  }

  lemma WholeCover(x: nat, y: nat, k: nat, w: nat, h: nat, a: nat, b: nat)
    requires x < w && y < h && Whole(x, y, k, w, h)
    ensures Cover(Units(x, y, k, w, h), a, b) == if Unit(x, y, k).Contains(a, b) && a < w && b < h then 1 else 0
  {
    var u := Unit(x, y, k);
    assert [u][..0] == [] && Cover([], a, b) == 0;
    assert Cover([u], a, b) == Cover([], a, b) + if u.Contains(a, b) then 1 else 0;
    assert Pow2(0) == 1;
  }

  /** A cell of a block is in exactly one quarter of it. */
  lemma Quarters(x: nat, y: nat, k: nat, a: nat, b: nat)
    requires k > 0
    ensures var x1, y1 := x + Pow2(k - 1), y + Pow2(k - 1);
            (if Unit(x, y, k).Contains(a, b) then 1 else 0) ==
            (if Unit(x, y, k - 1).Contains(a, b) then 1 else 0) + (if Unit(x1, y, k - 1).Contains(a, b) then 1 else 0)
            + (if Unit(x, y1, k - 1).Contains(a, b) then 1 else 0) + (if Unit(x1, y1, k - 1).Contains(a, b) then 1 else 0)
  {
  }

  lemma {:induction false} KidPartition(x: nat, y: nat, k: nat, w: nat, h: nat, a: nat, b: nat)
    ensures Cover(Kid(x, y, k, w, h), a, b) == if Unit(x, y, k).Contains(a, b) && a < w && b < h then 1 else 0
    decreases k, 2
  {
    if x < w && y < h {
      Partition(x, y, k, w, h, a, b);
    }
  }

  // ---------------------------------------------------------------------------------------------
  // Z-order
  // ---------------------------------------------------------------------------------------------

  /** The quarter of an aligned block of level k + 1 that (x, y) lies in: 0 to 3 in z-order. */
  function Quarter(x: nat, y: nat, k: nat): nat {
    2 * (y / Pow2(k) % 2) + x / Pow2(k) % 2
  }

  /** The z-scan address of (x, y) inside its aligned block of level k (section 6.5.2 of H.265): the
      bits of y and x interleaved. */
  function ZAddress(x: nat, y: nat, k: nat): nat {
    if k == 0 then 0 else Quarter(x, y, k - 1) * Pow2(2 * k - 2) + ZAddress(x, y, k - 1)
  }

  lemma {:induction false} ZBound(x: nat, y: nat, k: nat)
    ensures ZAddress(x, y, k) < Pow2(2 * k)
  {
    if k > 0 {
      ZBound(x, y, k - 1);
      Four(k);
      var q, p := Quarter(x, y, k - 1), Pow2(2 * k - 2);
      assert q <= 3;
      MulLessOrEqual(p, q, 3);
    }
  }

  lemma Four(k: nat)
    requires k > 0
    ensures Pow2(2 * k) == 4 * Pow2(2 * k - 2)
  {
    assert Pow2(2 * k) == 2 * Pow2(2 * k - 1);
  }

  /** Units in strictly increasing z-order with addresses from lo up to hi. */
  ghost predicate Band(us: seq<Unit>, k: nat, lo: nat, hi: nat) {
    && (forall i :: 0 <= i < |us| ==> lo <= ZAddress(us[i].x, us[i].y, k) < hi)
    && (forall i, j :: 0 <= i < j < |us| ==> ZAddress(us[i].x, us[i].y, k) < ZAddress(us[j].x, us[j].y, k))
  }

  lemma BandAppend(us: seq<Unit>, vs: seq<Unit>, k: nat, lo: nat, mid: nat, hi: nat)
    requires lo <= mid <= hi && Band(us, k, lo, mid) && Band(vs, k, mid, hi)
    ensures Band(us + vs, k, lo, hi)
  {
    hide ZAddress;
    forall i, j | 0 <= i < j < |us + vs|
      ensures ZAddress((us + vs)[i].x, (us + vs)[i].y, k) < ZAddress((us + vs)[j].x, (us + vs)[j].y, k)
    {
      if j < |us| {
        assert (us + vs)[i] == us[i] && (us + vs)[j] == us[j];
      } else if i < |us| {
        assert (us + vs)[i] == us[i] && (us + vs)[j] == vs[j - |us|];
      } else {
        assert (us + vs)[i] == vs[i - |us|] && (us + vs)[j] == vs[j - |us|];
      }
    }
  }

  lemma UnitsInside(x: nat, y: nat, k: nat, w: nat, h: nat)
    ensures forall u :: u in Units(x, y, k, w, h) ==> x <= u.x < x + Pow2(k) && y <= u.y < y + Pow2(k)
  {
    hide *;
    forall u | u in Units(x, y, k, w, h)
      ensures x <= u.x < x + Pow2(k) && y <= u.y < y + Pow2(k)
    {
      UnitInside(u, x, y, k, w, h);
    }
  }

  lemma {:induction false} UnitInside(u: Unit, x: nat, y: nat, k: nat, w: nat, h: nat)
    requires u in Units(x, y, k, w, h)
    ensures x <= u.x < x + Pow2(k) && y <= u.y < y + Pow2(k)
    decreases k
  {
    hide *;
    Halves(k);
    if Whole(x, y, k, w, h) {
      OneUnit(x, y, k, w, h);
    } else {
      UnitsFrom(x, y, k, w, h);
      var x1, y1 := x + Pow2(k - 1), y + Pow2(k - 1);
      if u in Units(x, y, k - 1, w, h) {
        UnitInside(u, x, y, k - 1, w, h);
      } else if u in Units(x1, y, k - 1, w, h) {
        UnitInside(u, x1, y, k - 1, w, h);
      } else if u in Units(x, y1, k - 1, w, h) {
        UnitInside(u, x, y1, k - 1, w, h);
      } else {
        UnitInside(u, x1, y1, k - 1, w, h);
      }
    }
  }

  lemma Halves(k: nat)
    ensures Pow2(k) > 0 && (k > 0 ==> Pow2(k) == 2 * Pow2(k - 1))
  {
  }

  lemma UnitsFrom(x: nat, y: nat, k: nat, w: nat, h: nat)
    requires !Whole(x, y, k, w, h)
    ensures k > 0
    ensures var x1, y1 := x + Pow2(k - 1), y + Pow2(k - 1);
            forall u :: u in Units(x, y, k, w, h) ==>
              u in Units(x, y, k - 1, w, h) || u in Units(x1, y, k - 1, w, h)
              || u in Units(x, y1, k - 1, w, h) || u in Units(x1, y1, k - 1, w, h)
  {
    UnitsSplit(x, y, k, w, h);
    hide Units, Pow2;
  }

  lemma UnitsSplit(x: nat, y: nat, k: nat, w: nat, h: nat)
    requires !Whole(x, y, k, w, h)
    ensures k > 0
    ensures var x1, y1 := x + Pow2(k - 1), y + Pow2(k - 1);
            Units(x, y, k, w, h) ==
            Units(x, y, k - 1, w, h)
            + (if x1 < w then Units(x1, y, k - 1, w, h) else [])
            + (if y1 < h then Units(x, y1, k - 1, w, h) else [])
            + (if x1 < w && y1 < h then Units(x1, y1, k - 1, w, h) else [])
  {
    hide Pow2;
  }

  /** Inside a quarter the upper address digit is constant. */
  lemma SameQuarter(x: nat, p: nat, bit: Bit, a: nat)
    requires p > 0 && x % (2 * p) == 0 && x + bit * p <= a < x + bit * p + p
    ensures a / p % 2 == bit
  {
    var q := x / (2 * p);
    assert x == 2 * p * q;
    assert 2 * p * q == p * (2 * q);
    DivUnique(a, p, 2 * q + bit, a - x - bit * p);
  }

  lemma KidBand(x: nat, y: nat, k: nat, w: nat, h: nat, bitX: Bit, bitY: Bit)
    requires x % Pow2(k + 1) == 0 && y % Pow2(k + 1) == 0
    requires var cx, cy := x + bitX * Pow2(k), y + bitY * Pow2(k);
             cx < w && cy < h ==> Band(Units(cx, cy, k, w, h), k, 0, Pow2(2 * k))
    ensures var p := Pow2(2 * k);
            Band(Kid(x + bitX * Pow2(k), y + bitY * Pow2(k), k, w, h), k + 1, (2 * bitY + bitX) * p, (2 * bitY + bitX) * p + p)
  {
    var cx, cy := x + bitX * Pow2(k), y + bitY * Pow2(k);
    var us, p := Kid(cx, cy, k, w, h), Pow2(2 * k);
    if cx < w && cy < h {
      UnitsInside(cx, cy, k, w, h);
      forall i | 0 <= i < |us|
        ensures ZAddress(us[i].x, us[i].y, k + 1) == (2 * bitY + bitX) * p + ZAddress(us[i].x, us[i].y, k)
      {
        assert us[i] in us;
        InQuarter(x, y, k, bitX, bitY, us[i]);
      }
      hide ZAddress, Units, Pow2;
      QuarterBand(us, k, (2 * bitY + bitX) * p, p);
    } else {
      hide *;
      NoBand(k + 1, (2 * bitY + bitX) * p, (2 * bitY + bitX) * p + p);
      NoKid(cx, cy, k, w, h);
    }
  }

  /** The units of a quarter, seen from the block, keep their order behind the quarter's first address. */
  lemma QuarterBand(us: seq<Unit>, k: nat, lo: nat, p: nat)
    requires Band(us, k, 0, p)
    requires forall i :: 0 <= i < |us| ==> ZAddress(us[i].x, us[i].y, k + 1) == lo + ZAddress(us[i].x, us[i].y, k)
    ensures Band(us, k + 1, lo, lo + p)
  {
    hide ZAddress;
  }

  lemma NoBand(k: nat, lo: nat, hi: nat)
    ensures Band([], k, lo, hi)
  {
    hide ZAddress;
  }

  lemma NoKid(x: nat, y: nat, k: nat, w: nat, h: nat)
    requires x >= w || y >= h
    ensures Kid(x, y, k, w, h) == []
  {
  }

  lemma InQuarter(x: nat, y: nat, k: nat, bitX: Bit, bitY: Bit, u: Unit)
    requires x % Pow2(k + 1) == 0 && y % Pow2(k + 1) == 0
    requires x + bitX * Pow2(k) <= u.x < x + bitX * Pow2(k) + Pow2(k)
    requires y + bitY * Pow2(k) <= u.y < y + bitY * Pow2(k) + Pow2(k)
    ensures ZAddress(u.x, u.y, k + 1) == (2 * bitY + bitX) * Pow2(2 * k) + ZAddress(u.x, u.y, k)
  {
    SameQuarter(x, Pow2(k), bitX, u.x);
    SameQuarter(y, Pow2(k), bitY, u.y);
  }

  /** Four quarters in order make an ordered block. */
  lemma FourBands(a: seq<Unit>, b: seq<Unit>, c: seq<Unit>, d: seq<Unit>, k: nat, p: nat)
    requires Band(a, k, 0, p) && Band(b, k, p, 2 * p) && Band(c, k, 2 * p, 3 * p) && Band(d, k, 3 * p, 4 * p)
    ensures Band(a + b + c + d, k, 0, 4 * p)
  {
    hide *;
    BandAppend(a, b, k, 0, p, 2 * p);
    BandAppend(a + b, c, k, 0, 2 * p, 3 * p);
    BandAppend(a + b + c, d, k, 0, 3 * p, 4 * p);
  }

  lemma OneBand(x: nat, y: nat, k: nat, w: nat, h: nat)
    requires Whole(x, y, k, w, h)
    ensures Band(Units(x, y, k, w, h), k, 0, Pow2(2 * k))
  {
    hide ZAddress;
    ZBound(x, y, k);
  }

  /** The units of an aligned block come in strictly increasing z-scan order. */
  lemma {:induction false} ZOrder(x: nat, y: nat, k: nat, w: nat, h: nat)
    requires x % Pow2(k) == 0 && y % Pow2(k) == 0 && x < w && y < h
    ensures Band(Units(x, y, k, w, h), k, 0, Pow2(2 * k))
    decreases k
  {
    hide *;
    if Whole(x, y, k, w, h) {
      OneBand(x, y, k, w, h);
    } else {
      UnitsCut(x, y, k, w, h);
      HalfAligned(x, k - 1);
      HalfAligned(y, k - 1);
      var x1, y1 := x + Pow2(k - 1), y + Pow2(k - 1);
      ZOrder(x, y, k - 1, w, h);
      if x1 < w {
        ZOrder(x1, y, k - 1, w, h);
      }
      if y1 < h {
        ZOrder(x, y1, k - 1, w, h);
      }
      if x1 < w && y1 < h {
        ZOrder(x1, y1, k - 1, w, h);
      }
      var p := Pow2(2 * (k - 1));
      Four(k);
      KidBand(x, y, k - 1, w, h, 0, 0);
      KidBand(x, y, k - 1, w, h, 1, 0);
      KidBand(x, y, k - 1, w, h, 0, 1);
      KidBand(x, y, k - 1, w, h, 1, 1);
      FourBands(Kid(x, y, k - 1, w, h), Kid(x1, y, k - 1, w, h), Kid(x, y1, k - 1, w, h), Kid(x1, y1, k - 1, w, h), k, p);
    }
  }

  lemma HalfAligned(x: nat, k: nat)
    requires x % Pow2(k + 1) == 0
    ensures x % Pow2(k) == 0 && (x + Pow2(k)) % Pow2(k) == 0
  {
    var p := Pow2(k);
    var q := x / (2 * p);
    assert x == 2 * p * q;
    assert 2 * p * q == p * (2 * q);
    DivUnique(x, p, 2 * q, 0);
    assert x + p == p * (2 * q + 1);
    DivUnique(x + p, p, 2 * q + 1, 0);
  }
}
