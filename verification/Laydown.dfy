/**
 Cutting identical panels from a sheet.  Lengths are whole millimetres.  The plain
 per-sheet strategy packs panels directly; the laydown calculator first grows every
 panel by its bleed and shrinks the sheet by its grip margins.
 */
module Laydown {
  import opened DivMod

  function Max(a: int, b: int): int {
    if a >= b then a else b
  }

  /** Better of the two grid orientations; 0 for non-positive sizes or a panel that does not fit. */
  function UnitsPerSheet(panelW: int, panelH: int, sheetW: int, sheetH: int): int {
    if panelW <= 0 || panelH <= 0 || sheetW <= 0 || sheetH <= 0 then 0
    else
      Max((sheetW / panelW) * (sheetH / panelH), (sheetW / panelH) * (sheetH / panelW))
  }

  datatype Margins = Margins(bleed: int, front: int, back: int, side: int)

  function LaydownUnits(w: int, h: int, sheetW: int, sheetH: int, m: Margins): int {
    UnitsPerSheet(w + 2 * m.bleed, h + 2 * m.bleed, sheetW - 2 * m.side, sheetH - m.front - m.back)
  }

  function SheetsNeeded(quantity: nat, units: nat): nat
    requires units > 0
  {
    CeilDiv(quantity, units)
  }

  // --------------------------------------------------------- the placement

  /** A placed panel: lower-left corner and extent. */
  datatype Rect = Rect(x: int, y: int, w: int, h: int)

  ghost predicate Inside(r: Rect, x0: int, y0: int, x1: int, y1: int) {
    x0 <= r.x && r.x + r.w <= x1 && y0 <= r.y && r.y + r.h <= y1
  }

  /** At least `gap` apart in one of the two directions; gap 0 means no overlap. */
  ghost predicate Apart(a: Rect, b: Rect, gap: int) {
    || a.x + a.w + gap <= b.x || b.x + b.w + gap <= a.x
    || a.y + a.h + gap <= b.y || b.y + b.h + gap <= a.y
  }

  ghost predicate AllApart(rects: seq<Rect>, gap: int) {
    forall i, j | 0 <= i < j < |rects| :: Apart(rects[i], rects[j], gap)
  }

  /** Cell k of a grid with `cols` columns of w-by-h cells. */
  function Cell(k: nat, cols: nat, w: nat, h: nat): Rect
    requires cols > 0
  {
    Rect((k % cols) * w, (k / cols) * h, w, h)
  }

  lemma CellInside(k: nat, cols: nat, rows: nat, w: nat, h: nat, W: nat, H: nat)
    requires cols > 0 && k < cols * rows && cols * w <= W && rows * h <= H
    ensures Inside(Cell(k, cols, w, h), 0, 0, W, H)
  {
    DivModLaw(k, cols);
    var c, r := k % cols, k / cols;
    if r >= rows {
      MulMonotone(rows, r, cols);
    }
    MulMonotone(c + 1, cols, w);
    MulMonotone(r + 1, rows, h);
    MulDistributes(c, 1, w);
    MulDistributes(r, 1, h);
    MulSign(c, w);
    MulSign(r, h);
  }

  lemma CellsApart(i: nat, j: nat, cols: nat, w: nat, h: nat)
    requires cols > 0 && i < j
    ensures Apart(Cell(i, cols, w, h), Cell(j, cols, w, h), 0)
  {
    DivModLaw(i, cols);
    DivModLaw(j, cols);
    DivMonotone(i, j, cols);
    if i / cols < j / cols {
      MulMonotone(i / cols + 1, j / cols, h);
      MulDistributes(i / cols, 1, h);
    } else {
      MulMonotone(i % cols + 1, j % cols, w);
      MulDistributes(i % cols, 1, w);
    }
  }

  function Grid(n: nat, cols: nat, w: nat, h: nat): seq<Rect>
    requires cols > 0
  {
    seq(n, k requires k >= 0 => Cell(k, cols, w, h))
  }

  function GridOf(w: nat, h: nat, W: nat, H: nat): seq<Rect>
    requires w > 0 && h > 0
  {
    if W / w == 0 then [] else Grid((W / w) * (H / h), W / w, w, h)
  }

  lemma GridFillsSheet(w: nat, h: nat, W: nat, H: nat)
    requires w > 0 && h > 0
    ensures |GridOf(w, h, W, H)| == (W / w) * (H / h)
    ensures forall r | r in GridOf(w, h, W, H) :: Inside(r, 0, 0, W, H) && r.w == w && r.h == h
    ensures AllApart(GridOf(w, h, W, H), 0)
  {
    var cols, rows := W / w, H / h;
    DivModLaw(W, w);
    DivModLaw(H, h);
    var g := GridOf(w, h, W, H);
    if cols > 0 {
      forall k | 0 <= k < |g|
        ensures Inside(g[k], 0, 0, W, H)
      {
        CellInside(k, cols, rows, w, h, W, H);
      }
      forall i, j | 0 <= i < j < |g|
        ensures Apart(g[i], g[j], 0)
      {
        CellsApart(i, j, cols, w, h);
      }
    }
  }

  /** The grid UnitsPerSheet counts, in the orientation it chose; cells are bleed included. */
  function CellGrid(w: nat, h: nat, W: nat, H: nat): seq<Rect> {
    if w <= 0 || h <= 0 || W <= 0 || H <= 0 then []
    else if (W / w) * (H / h) >= (W / h) * (H / w) then GridOf(w, h, W, H)
    else GridOf(h, w, W, H)
  }

  ghost predicate ShapeOf(r: Rect, w: int, h: int) {
    (r.w == w && r.h == h) || (r.w == h && r.h == w)
  }

  lemma CellGridRealises(w: nat, h: nat, W: nat, H: nat)
    ensures |CellGrid(w, h, W, H)| == UnitsPerSheet(w, h, W, H)
    ensures forall r | r in CellGrid(w, h, W, H) :: Inside(r, 0, 0, W, H) && ShapeOf(r, w, h)
    ensures AllApart(CellGrid(w, h, W, H), 0)
  {
    if w > 0 && h > 0 {
      GridFillsSheet(w, h, W, H);
      GridFillsSheet(h, w, W, H);
    }
  }

  function Shift(r: Rect, dx: int, dy: int, trim: int): Rect {
    Rect(r.x + dx + trim, r.y + dy + trim, r.w - 2 * trim, r.h - 2 * trim)
  }

  /** Where every panel of a custom-size job goes on the sheet. */
  function Placement(w: int, h: int, sheetW: int, sheetH: int, m: Margins): seq<Rect> {
    var W, H := sheetW - 2 * m.side, sheetH - m.front - m.back;
    var ew, eh := w + 2 * m.bleed, h + 2 * m.bleed;
    if W <= 0 || H <= 0 || ew <= 0 || eh <= 0 then []
    else
      var cells := CellGrid(ew, eh, W, H);
      seq(|cells|, i requires 0 <= i < |cells| => Shift(cells[i], m.side, m.front, m.bleed))
  }

  function WithBleed(r: Rect, bleed: int): Rect {
    Rect(r.x - bleed, r.y - bleed, r.w + 2 * bleed, r.h + 2 * bleed)
  }

  /** The yield the price is based on can really be cut: bleed and all inside the grip margins, 2 x bleed apart. */
  lemma PlacementRealisesYield(w: int, h: int, sheetW: int, sheetH: int, m: Margins)
    ensures var rects := Placement(w, h, sheetW, sheetH, m);
            && |rects| == LaydownUnits(w, h, sheetW, sheetH, m)
            && (forall r | r in rects :: ShapeOf(r, w, h))
            && (forall r | r in rects :: Inside(WithBleed(r, m.bleed), m.side, m.front, sheetW - m.side, sheetH - m.back))
            && AllApart(rects, 2 * m.bleed)
  {
    var W, H := sheetW - 2 * m.side, sheetH - m.front - m.back;
    var ew, eh := w + 2 * m.bleed, h + 2 * m.bleed;
    if W > 0 && H > 0 && ew > 0 && eh > 0 {
      CellGridRealises(ew, eh, W, H);
      var cells, rects := CellGrid(ew, eh, W, H), Placement(w, h, sheetW, sheetH, m);
      forall i, j | 0 <= i < j < |rects|
        ensures Apart(rects[i], rects[j], 2 * m.bleed)
      {
        assert Apart(cells[i], cells[j], 0);
      }
      forall i | 0 <= i < |rects|
        ensures ShapeOf(rects[i], w, h)
        ensures Inside(WithBleed(rects[i], m.bleed), m.side, m.front, sheetW - m.side, sheetH - m.back)
      {
        assert cells[i] in cells;
      }
    }
  }

  // ----------------------------------------- no better one-orientation packing

  /** A set of numbers below n has at most n elements. */
  lemma {:induction false} BoundedDistinct(s: set<int>, n: nat)
    requires forall v | v in s :: 0 <= v < n
    ensures |s| <= n
  {
    if n == 0 {
      forall v | v in s
        ensures 0 <= v < 0
      {
      }
      assert s == {};
    } else {
      var rest := s - {n - 1};
      BoundedDistinct(rest, n - 1);
      if n - 1 in s {
        assert s == rest + {n - 1};
      } else {
        assert s == rest;
      }
    }
  }

  lemma {:induction false} DistinctCount(values: seq<int>, n: nat)
    requires forall i | 0 <= i < |values| :: 0 <= values[i] < n
    requires forall i, j | 0 <= i < j < |values| :: values[i] != values[j]
    ensures |values| <= n
  {
    var s := Values(values, |values|);
    BoundedDistinct(s, n);
  }

  lemma {:induction false} Values(values: seq<int>, k: nat) returns (s: set<int>)
    requires k <= |values| && forall i, j | 0 <= i < j < |values| :: values[i] != values[j]
    ensures |s| == k && forall v :: v in s <==> exists i :: 0 <= i < k && values[i] == v
  {
    if k == 0 {
      s := {};
    } else {
      var rest := Values(values, k - 1);
      if values[k - 1] in rest {
        var i :| 0 <= i < k - 1 && values[i] == values[k - 1];
        assert false;
      }
      s := rest + {values[k - 1]};
    }
  }

  /** The grid cell that contains a panel's lower-left corner. */
  function Home(r: Rect, w: nat, h: nat, cols: nat): int
    requires w > 0 && h > 0
  {
    (r.y / h) * cols + r.x / w
  }

  lemma HomeInRange(r: Rect, w: nat, h: nat, W: nat, H: nat)
    requires 0 < w && 0 < h && r.w == w && r.h == h && Inside(r, 0, 0, W, H)
    ensures 0 <= r.x / w < W / w && 0 <= r.y / h < H / h
    ensures 0 <= Home(r, w, h, W / w) < (W / w) * (H / h)
  {
    DivMonotone(0, r.x, w);
    DivMonotone(0, r.y, h);
    DivModStep(r.x + w, w);
    DivModStep(r.y + h, h);
    DivMonotone(r.x + w, W, w);
    DivMonotone(r.y + h, H, h);
    var cols, rows := W / w, H / h;
    MulMonotone(r.y / h + 1, rows, cols);
    MulDistributes(r.y / h, 1, cols);
    MulSign(r.y / h, cols);
  }

  lemma HomesDiffer(a: Rect, b: Rect, w: nat, h: nat, W: nat, H: nat)
    requires 0 < w && 0 < h && a.w == b.w == w && a.h == b.h == h
    requires Inside(a, 0, 0, W, H) && Inside(b, 0, 0, W, H) && Apart(a, b, 0)
    ensures Home(a, w, h, W / w) != Home(b, w, h, W / w)
  {
    HomeInRange(a, w, h, W, H);
    HomeInRange(b, w, h, W, H);
    if Home(a, w, h, W / w) == Home(b, w, h, W / w) {
      DivModUnique(Home(a, w, h, W / w), W / w, a.y / h, a.x / w);
      DivModUnique(Home(b, w, h, W / w), W / w, b.y / h, b.x / w);
      DivModLaw(a.x, w);
      DivModLaw(b.x, w);
      DivModLaw(a.y, h);
      DivModLaw(b.y, h);
      assert false;
    }
  }

  /** Non-overlapping w-by-h panels, wherever they are put, never beat the grid of the same orientation. */
  lemma GridIsOptimal(rects: seq<Rect>, w: nat, h: nat, W: nat, H: nat)
    requires 0 < w && 0 < h && AllApart(rects, 0)
    requires forall r | r in rects :: r.w == w && r.h == h && Inside(r, 0, 0, W, H)
    ensures |rects| <= (W / w) * (H / h)
  {
    var homes := seq(|rects|, i requires 0 <= i < |rects| => Home(rects[i], w, h, W / w));
    forall i | 0 <= i < |rects|
      ensures 0 <= homes[i] < (W / w) * (H / h)
    {
      assert rects[i] in rects;
      HomeInRange(rects[i], w, h, W, H);
    }
    forall i, j | 0 <= i < j < |rects|
      ensures homes[i] != homes[j]
    {
      assert rects[i] in rects && rects[j] in rects;
      HomesDiffer(rects[i], rects[j], w, h, W, H);
    }
    MulSign(W / w, H / h);
    DistinctCount(homes, (W / w) * (H / h));
  }

  ghost predicate SameShape(rects: seq<Rect>, w: int, h: int) {
    (forall r | r in rects :: r.w == w && r.h == h) || (forall r | r in rects :: r.w == h && r.h == w)
  }

  /** The cells panels occupy, bleed included, seen from the corner of the printable area. */
  function CellsOf(rects: seq<Rect>, m: Margins): (cells: seq<Rect>)
    ensures |cells| == |rects|
    ensures forall i | 0 <= i < |rects| :: cells[i] == Shift(rects[i], -m.side, -m.front, -m.bleed)
  {
    seq(|rects|, i requires 0 <= i < |rects| => Shift(rects[i], -m.side, -m.front, -m.bleed))
  }

  /** Equally shaped panels with room for bleed and grip never outnumber the grid of their bleed cells. */
  lemma PanelsFitGrid(rects: seq<Rect>, w: nat, h: nat, sheetW: int, sheetH: int, m: Margins)
    requires w > 0 && h > 0 && m.bleed >= 0 && sheetW > 2 * m.side && sheetH > m.front + m.back
    requires forall r | r in rects :: r.w == w && r.h == h
    requires AllApart(rects, 2 * m.bleed)
    requires forall r | r in rects :: Inside(WithBleed(r, m.bleed), m.side, m.front, sheetW - m.side, sheetH - m.back)
    ensures |rects| <= ((sheetW - 2 * m.side) / (w + 2 * m.bleed)) * ((sheetH - m.front - m.back) / (h + 2 * m.bleed))
  {
    var W, H := sheetW - 2 * m.side, sheetH - m.front - m.back;
    var cells := CellsOf(rects, m);
    forall i | 0 <= i < |rects|
      ensures Inside(cells[i], 0, 0, W, H) && cells[i].w == w + 2 * m.bleed && cells[i].h == h + 2 * m.bleed
    {
      assert rects[i] in rects;
    }
    forall i, j | 0 <= i < j < |cells|
      ensures Apart(cells[i], cells[j], 0)
    {
      assert Apart(rects[i], rects[j], 2 * m.bleed);
    }
    GridIsOptimal(cells, w + 2 * m.bleed, h + 2 * m.bleed, W, H);
  }

  /** No way of cutting panels that all lie the same way round yields more than the priced yield. */
  lemma YieldIsOptimal(rects: seq<Rect>, w: int, h: int, sheetW: int, sheetH: int, m: Margins)
    requires w > 0 && h > 0 && m.bleed >= 0 && sheetW > 2 * m.side && sheetH > m.front + m.back
    requires SameShape(rects, w, h) && AllApart(rects, 2 * m.bleed)
    requires forall r | r in rects :: Inside(WithBleed(r, m.bleed), m.side, m.front, sheetW - m.side, sheetH - m.back)
    ensures |rects| <= LaydownUnits(w, h, sheetW, sheetH, m)
  {
    if forall r | r in rects :: r.w == w && r.h == h {
      PanelsFitGrid(rects, w, h, sheetW, sheetH, m);
    } else {
      PanelsFitGrid(rects, h, w, sheetW, sheetH, m);
    }
  }

  /** All panels of a placement lie the same way round. */
  lemma PlacementIsUniform(w: int, h: int, sheetW: int, sheetH: int, m: Margins)
    ensures SameShape(Placement(w, h, sheetW, sheetH, m), w, h)
  {
    var W, H := sheetW - 2 * m.side, sheetH - m.front - m.back;
    var ew, eh := w + 2 * m.bleed, h + 2 * m.bleed;
    if W > 0 && H > 0 && ew > 0 && eh > 0 {
      GridFillsSheet(ew, eh, W, H);
      GridFillsSheet(eh, ew, W, H);
      var cells, rects := CellGrid(ew, eh, W, H), Placement(w, h, sheetW, sheetH, m);
      assert forall i | 0 <= i < |rects| :: cells[i] in cells;
    }
  }

  /** The documented limit: four 2-by-3 panels fit a 5-by-5 sheet in a pinwheel, the grid yields two. */
  lemma MixedOrientationCanBeatTheGrid()
    ensures UnitsPerSheet(2, 3, 5, 5) == 2
    ensures var pinwheel := [Rect(0, 0, 2, 3), Rect(2, 0, 3, 2), Rect(3, 2, 2, 3), Rect(0, 3, 3, 2)];
            && AllApart(pinwheel, 0)
            && forall r | r in pinwheel :: ShapeOf(r, 2, 3) && Inside(r, 0, 0, 5, 5)
  {
  }

  // --------------------------------------------------------- laws of the yield

  lemma YieldIgnoresRotation(w: int, h: int, sheetW: int, sheetH: int)
    ensures UnitsPerSheet(w, h, sheetW, sheetH) == UnitsPerSheet(h, w, sheetW, sheetH)
    ensures UnitsPerSheet(w, h, sheetW, sheetH) == UnitsPerSheet(w, h, sheetH, sheetW)
  {
    if w > 0 && h > 0 && sheetW > 0 && sheetH > 0 {
      assert (sheetW / w) * (sheetH / h) == (sheetH / h) * (sheetW / w);
      assert (sheetW / h) * (sheetH / w) == (sheetH / w) * (sheetW / h);
    }
  }

  lemma GridShrinks(w: nat, h: nat, W: nat, H: nat, w': nat, h': nat, W': nat, H': nat)
    requires 0 < w <= w' && 0 < h <= h' && W' <= W && H' <= H
    ensures (W' / w') * (H' / h') <= (W / w) * (H / h)
  {
    DivAntitone(W', w, w');
    DivMonotone(W', W, w);
    DivAntitone(H', h, h');
    DivMonotone(H', H, h);
    MulSign(W / w, H / h);
    MulMonotone(W' / w', W / w, H' / h');
    MulMonotone(H' / h', H / h, W / w);
  }

  lemma MaxIsMonotone(a: int, b: int, a': int, b': int)
    requires 0 <= a' <= a && b' <= b
    ensures 0 <= Max(a', b') <= Max(a, b)
  {
  }

  lemma UnitsNotNegative(w: nat, h: nat, W: nat, H: nat)
    ensures UnitsPerSheet(w, h, W, H) >= 0
  {
    if w > 0 && h > 0 {
      MulSign(W / w, H / h);
    }
  }

  lemma UnitsShrink(w: nat, h: nat, W: nat, H: nat, w': nat, h': nat, W': nat, H': nat)
    requires 0 < w <= w' && 0 < h <= h' && 0 < W' <= W && 0 < H' <= H
    ensures 0 <= UnitsPerSheet(w', h', W', H') <= UnitsPerSheet(w, h, W, H)
  {
    var a, b := (W / w) * (H / h), (W / h) * (H / w);
    var a', b' := (W' / w') * (H' / h'), (W' / h') * (H' / w');
    MulSign(W' / w', H' / h');
    GridShrinks(w, h, W, H, w', h', W', H');
    GridShrinks(h, w, W, H, h', w', W', H');
    MaxIsMonotone(a, b, a', b');
  }

  /** Growing the bleed or any grip margin never raises the yield. */
  lemma YieldShrinksWithMargins(w: int, h: int, sheetW: int, sheetH: int, m: Margins, m': Margins)
    requires w > 0 && h > 0 && 0 <= m.bleed <= m'.bleed
    requires m.front <= m'.front && m.back <= m'.back && m.side <= m'.side
    ensures 0 <= LaydownUnits(w, h, sheetW, sheetH, m') <= LaydownUnits(w, h, sheetW, sheetH, m)
  {
    var W, H, ew, eh := sheetW - 2 * m.side, sheetH - m.front - m.back, w + 2 * m.bleed, h + 2 * m.bleed;
    var W', H', ew', eh' := sheetW - 2 * m'.side, sheetH - m'.front - m'.back, w + 2 * m'.bleed, h + 2 * m'.bleed;
    if W' > 0 && H' > 0 {
      UnitsShrink(ew, eh, W, H, ew', eh', W', H');
    } else if W > 0 && H > 0 {
      UnitsNotNegative(ew, eh, W, H);
    }
  }

  lemma ZeroMarginsIsPerSheet(w: int, h: int, sheetW: int, sheetH: int)
    ensures LaydownUnits(w, h, sheetW, sheetH, Margins(0, 0, 0, 0)) == UnitsPerSheet(w, h, sheetW, sheetH)
  {
  }

  /** The billed sheets hold the order, and no smaller number of sheets does. */
  lemma SheetsNeededIsLeast(quantity: nat, units: nat, sheets: nat)
    requires units > 0
    ensures sheets * units >= quantity <==> sheets >= SheetsNeeded(quantity, units)
  {
    CeilDivIsLeastCover(quantity, units, sheets);
  }
}
