/** Which pixels a path fills: one that no piece of its lines goes through is filled if
    and only if the lines go round it. */
module FillRule {
  import opened CArith
  import opened Cells
  import opened CellRasterizers
  import opened Coverage
  import opened Lines
  import Rasterizers
  import opened Sweep

  // ----- pixels no piece goes through

  /** A piece lies wholly above, below, left or right of a pixel. */
  predicate Outside(p: Segment, x: int, r: int) {
    || Max(p.a.y, p.b.y) <= ROW_UNIT * r || Min(p.a.y, p.b.y) >= ROW_UNIT * r + ROW_UNIT
    || Max(p.a.x, p.b.x) <= SCALE * x || Min(p.a.x, p.b.x) >= SCALE * x + SCALE
  }

  predicate AllOutside(ps: seq<Segment>, x: int, r: int) {
    forall i :: 0 <= i < |ps| ==> Outside(ps[i], x, r)
  }

  /** The height of the pieces left of a pixel, in its row. */
  function LeftHeight(ps: seq<Segment>, x: int, r: int): int {
    if ps == [] then 0
    else
      var p := ps[|ps| - 1];
      LeftHeight(ps[..|ps| - 1], x, r) + if Max(p.a.x, p.b.x) <= SCALE * x then Height(p, r) else 0
  }

  lemma {:induction false} LeftHeightAppend(ps: seq<Segment>, qs: seq<Segment>, x: int, r: int)
    ensures LeftHeight(ps + qs, x, r) == LeftHeight(ps, x, r) + LeftHeight(qs, x, r)
    decreases |qs|
  {
    if qs == [] {
      assert ps + qs == ps;
    } else {
      assert (ps + qs)[..|ps + qs| - 1] == ps + qs[..|qs| - 1];
      LeftHeightAppend(ps, qs[..|qs| - 1], x, r);
    }
  }

  /** Such a pixel is covered as often as the pieces left of it go by. */
  lemma {:induction false} OutsideCovered(ps: seq<Segment>, x: int, r: int)
    requires AllOutside(ps, x, r)
    ensures Covered(ps, x, r) == 2 * SCALE * LeftHeight(ps, x, r)
    decreases |ps|
  {
    if ps != [] {
      OutsideCovered(ps[..|ps| - 1], x, r);
      OutsideBeside(ps[|ps| - 1], x, r);
    }
  }

  lemma OutsideBeside(p: Segment, x: int, r: int)
    requires Outside(p, x, r)
    ensures Beside(p, x, r) == if Max(p.a.x, p.b.x) <= SCALE * x then 2 * SCALE * Height(p, r) else 0
  {
    var w := WidthRight(p.a.x, x) + WidthRight(p.b.x, x);
    if Max(p.a.x, p.b.x) <= SCALE * x {
      assert w == 2 * SCALE;
    } else if Min(p.a.x, p.b.x) >= SCALE * x + SCALE {
      assert w == 0;
    } else {
      assert Height(p, r) == 0;
    }
  }

  /** What a point left of the pixel has of the row below it; a point elsewhere has
      nothing. */
  function LeftPart(p: Point, x: int, r: int): int {
    if p.x <= SCALE * x then InRow(p.y, r) else 0
  }

  /** A piece outside the pixel changes that by its own height, or by whole rows. */
  lemma OutsideStep(p: Segment, x: int, r: int)
    requires Outside(p, x, r)
    ensures var h := if Max(p.a.x, p.b.x) <= SCALE * x then Height(p, r) else 0;
            (h - LeftPart(p.b, x, r) + LeftPart(p.a, x, r)) % SCALE == 0
  {
    RowEdges(p.a.y, r);
    RowEdges(p.b.y, r);
    hide InRow;
  }

  lemma RowEdges(v: int, r: int)
    ensures v <= ROW_UNIT * r ==> InRow(v, r) == SCALE * r
    ensures v >= ROW_UNIT * r + ROW_UNIT ==> InRow(v, r) == SCALE * (r + 1)
  {
  }

  lemma {:induction false} ChainLeft(ps: seq<Segment>, a: Point, b: Point, x: int, r: int)
    requires Chain(ps, a, b) && AllOutside(ps, x, r)
    ensures (LeftHeight(ps, x, r) - LeftPart(b, x, r) + LeftPart(a, x, r)) % SCALE == 0
    decreases |ps|
  {
    hide *;
    ChainLast(ps, a, b, x, r);
    NoAreaNone(x, r);
    if ps != [] {
      var front, p := ps[..|ps| - 1], ps[|ps| - 1];
      ChainLeft(front, a, p.a, x, r);
      OutsideStep(p, x, r);
      WholeSum(LeftHeight(front, x, r) - LeftPart(p.a, x, r) + LeftPart(a, x, r),
               LeftHeight(ps, x, r) - LeftHeight(front, x, r) - LeftPart(b, x, r) + LeftPart(p.a, x, r));
    }
  }

  lemma ChainLast(ps: seq<Segment>, a: Point, b: Point, x: int, r: int)
    requires Chain(ps, a, b) && AllOutside(ps, x, r)
    ensures ps == [] ==> a == b
    ensures ps != [] ==>
              var front, p := ps[..|ps| - 1], ps[|ps| - 1];
              && p.b == b && Chain(front, a, p.a) && AllOutside(front, x, r) && Outside(p, x, r)
              && LeftHeight(ps, x, r) == LeftHeight(front, x, r) + if Max(p.a.x, p.b.x) <= SCALE * x then Height(p, r) else 0
  {
    hide Outside, Height;
  }

  /** A closed chain goes by a pixel it leaves alone a whole number of times. */
  lemma ClosedLeft(ps: seq<Segment>, a: Point, x: int, r: int)
    requires Chain(ps, a, a) && AllOutside(ps, x, r)
    ensures LeftHeight(ps, x, r) % SCALE == 0
  {
    hide *;
    ChainLeft(ps, a, a, x, r);
  }

  lemma AllOutsideParts(ps: seq<Segment>, qs: seq<Segment>, x: int, r: int)
    requires AllOutside(ps + qs, x, r)
    ensures AllOutside(ps, x, r) && AllOutside(qs, x, r)
  {
    hide Outside;
    assert forall i :: 0 <= i < |ps| ==> ps[i] == (ps + qs)[i];
    assert forall i :: 0 <= i < |qs| ==> qs[i] == (ps + qs)[|ps| + i];
  }

  /** A walk never enters and leaves a cell by its far edge. */
  lemma NotAlongFarEdge(a: int, b: int, k: int)
    requires 0 <= k <= Steps(a, b)
    ensures Stop(a, b, k) < SCALE * Visit(a, b, k) + SCALE || Stop(a, b, k + 1) < SCALE * Visit(a, b, k) + SCALE
  {
    StopsInCell(a, b, k);
  }

  /** A cell has area in its pixel only if its piece goes through it. */
  lemma RunCellNoArea(ey: int, x1: int, y1: int, x2: int, y2: int, k: int, x: int, r: int)
    requires 0 <= k <= Steps(x1, x2) && 0 <= y1 <= SCALE && 0 <= y2 <= SCALE
    requires var s := Raised(ey, x1, y1, x2, y2); Outside(Segment(Bend(s, k), Bend(s, k + 1)), x, r)
    ensures AreaAt([RunCell(ey, x1, y1, x2, y2, k)], x, r) == 0
  {
    var c, s := RunCell(ey, x1, y1, x2, y2, k), Raised(ey, x1, y1, x2, y2);
    HeightsAdvance(x1, y1, x2, y2, k);
    NotAlongFarEdge(x1, x2, k);
    RunCellArea(ey, x1, y1, x2, y2, k);
    BendIs(ey, x1, y1, x2, y2, k);
    BendIs(ey, x1, y1, x2, y2, k + 1);
    hide Bend, Raised, Stop, StopHeight, Entry, Exit, Visit, Steps, Outside, AreaAt;
    if c.x == x && c.y == r {
      NoAreaOutside(c, Segment(Bend(s, k), Bend(s, k + 1)));
    }
    AreaOne(c, x, r);
  }

  lemma NoAreaOutside(c: Cell, p: Segment)
    requires Outside(p, c.x, c.y) && (p.a.x < SCALE * c.x + SCALE || p.b.x < SCALE * c.x + SCALE)
    requires SCALE * c.x <= p.a.x <= SCALE * c.x + SCALE && SCALE * c.x <= p.b.x <= SCALE * c.x + SCALE
    requires SCALE * c.y <= p.a.y <= SCALE * c.y + SCALE && SCALE * c.y <= p.b.y <= SCALE * c.y + SCALE
    requires c.cover == p.b.y - p.a.y && c.area == (p.a.x - SCALE * c.x + (p.b.x - SCALE * c.x)) * c.cover
    ensures c.area == 0
  {
    assert c.cover == 0 || p.a.x - SCALE * c.x + (p.b.x - SCALE * c.x) == 0;
  }

  lemma AreaOne(c: Cell, x: int, r: int)
    ensures AreaAt([c], x, r) == if c.x == x && c.y == r then c.area else 0
  {
    SumsPush([], c, x, r);
    assert [] + [c] == [c];
  }

  lemma NoAreaNone(x: int, r: int)
    ensures AreaAt([], x, r) == 0 && LeftHeight([], x, r) == 0 == LeftHeight([], x, r) % SCALE
  {
  }

  lemma {:induction false} RunPrefixNoArea(ey: int, x1: int, y1: int, x2: int, y2: int, k: nat, x: int, r: int)
    requires k <= Steps(x1, x2) + 1 && 0 <= y1 <= SCALE && 0 <= y2 <= SCALE
    requires AllOutside(ChordPieces(Raised(ey, x1, y1, x2, y2), k), x, r)
    ensures AreaAt(RunPrefix(ey, x1, y1, x2, y2, k), x, r) == 0
  {
    hide AreaAt, Left, AllOutside, Bend, RunCell, Steps;
    if k == 0 {
      NoAreaNone(x, r);
    } else {
      var s := Raised(ey, x1, y1, x2, y2);
      var p := Segment(Bend(s, k - 1), Bend(s, k));
      AllOutsideParts(ChordPieces(s, k - 1), [p], x, r);
      LastOutside(p, x, r);
      RunPrefixNoArea(ey, x1, y1, x2, y2, k - 1, x, r);
      RunCellNoArea(ey, x1, y1, x2, y2, k - 1, x, r);
      SumsConcat(RunPrefix(ey, x1, y1, x2, y2, k - 1), [RunCell(ey, x1, y1, x2, y2, k - 1)], x, r);
    }
  }

  lemma LastOutside(p: Segment, x: int, r: int)
    requires AllOutside([p], x, r)
    ensures Outside(p, x, r)
  {
    hide Outside;
    assert [p][0] == p;
  }

  lemma RowNoArea(s: Segment, k: int, x: int, r: int)
    requires 0 <= k <= Steps(s.a.y, s.b.y) && AllOutside(RowPieces(s, k), x, r)
    ensures AreaAt(RowRun(s.a.x, s.a.y, s.b.x, s.b.y, k), x, r) == 0
  {
    hide AreaAt, AllOutside, ChordPieces, RunPrefix, RowX, Steps, Stop, Entry, Exit, Visit;
    var a, b := RowX(s.a.x, s.a.y, s.b.x, s.b.y, k), RowX(s.a.x, s.a.y, s.b.x, s.b.y, k + 1);
    StopsInCell(s.a.y, s.b.y, k);
    NoAreaNone(x, r);
    RunPrefixNoArea(Visit(s.a.y, s.b.y, k), a, Entry(s.a.y, s.b.y, k), b, Exit(s.a.y, s.b.y, k), Steps(a, b) + 1, x, r);
  }

  lemma {:induction false} RowsNoArea(s: Segment, k: nat, x: int, r: int)
    requires k <= Steps(s.a.y, s.b.y) + 1 && AllOutside(RowsPieces(s, k), x, r)
    ensures AreaAt(RowsPrefix(s.a.x, s.a.y, s.b.x, s.b.y, k), x, r) == 0
  {
    hide AreaAt, Left, AllOutside, RowRun, RowPieces, Steps;
    if k == 0 {
      NoAreaNone(x, r);
    } else {
      AllOutsideParts(RowsPieces(s, k - 1), RowPieces(s, k - 1), x, r);
      RowsNoArea(s, k - 1, x, r);
      RowNoArea(s, k - 1, x, r);
      SumsConcat(RowsPrefix(s.a.x, s.a.y, s.b.x, s.b.y, k - 1), RowRun(s.a.x, s.a.y, s.b.x, s.b.y, k - 1), x, r);
    }
  }

  lemma {:induction false} LineNoArea(s: Segment, x: int, r: int)
    requires AllOutside(LinePieces(s), x, r)
    ensures AreaAt(LineOf(s), x, r) == 0
    decreases Abs(s.b.x - s.a.x)
  {
    hide AreaAt, Left, AllOutside, RowsPrefix, RowsPieces, Steps;
    if Wide(s.a.x, s.b.x) {
      var mid := Point((s.a.x + s.b.x) / 2, (s.a.y + s.b.y) / 2);
      var front, back := Segment(s.a, mid), Segment(mid, s.b);
      AllOutsideParts(LinePieces(front) + LinePieces(back), PassPieces(s), x, r);
      AllOutsideParts(LinePieces(front), LinePieces(back), x, r);
      LineNoArea(front, x, r);
      LineNoArea(back, x, r);
      SumsConcat(LineOf(front), LineOf(back), x, r);
      SumsConcat(LineOf(front) + LineOf(back), Rows(s.a.x, s.a.y, s.b.x, s.b.y), x, r);
    }
    RowsNoArea(s, Steps(s.a.y, s.b.y) + 1, x, r);
  }

  lemma {:induction false} LinesNoArea(ss: seq<Segment>, x: int, r: int)
    requires AllOutside(PiecesOf(ss), x, r)
    ensures AreaAt(CellsOf(ss), x, r) == 0
    decreases |ss|
  {
    hide AreaAt, Left, AllOutside, LineOf, LinePieces;
    if ss == [] {
      NoAreaNone(x, r);
    } else {
      var front, s := ss[..|ss| - 1], ss[|ss| - 1];
      AllOutsideParts(PiecesOf(front), LinePieces(s), x, r);
      LinesNoArea(front, x, r);
      LineNoArea(s, x, r);
      SumsConcat(CellsOf(front), LineOf(s), x, r);
    }
  }

  /** A pixel no piece goes through has the cover of the pieces left of it and no area. */
  lemma OutsideSums(ss: seq<Segment>, x: int, r: int)
    requires AllOutside(PiecesOf(ss), x, r)
    ensures AreaAt(CellsOf(ss), x, r) == 0 && Left(CellsOf(ss), x, r) == LeftHeight(PiecesOf(ss), x, r)
  {
    hide AreaAt, Left, AllOutside, PiecesOf, CellsOf, Covered, LeftHeight;
    LinesNoArea(ss, x, r);
    LinesSwept(ss, x, r);
    OutsideCovered(PiecesOf(ss), x, r);
  }

  // ----- the fill rule

  predicate AllNarrow(ss: seq<Segment>) {
    forall i :: 0 <= i < |ss| ==> !Wide(ss[i].a.x, ss[i].b.x)
  }

  /** Lines that lead from a to b are drawn as pieces that do. */
  lemma {:induction false} PiecesChain(ss: seq<Segment>, a: Point, b: Point)
    requires Chain(ss, a, b) && AllNarrow(ss)
    ensures Chain(PiecesOf(ss), a, b)
    decreases |ss|
  {
    if ss != [] {
      hide LinePieces, Wide;
      var front, s := ss[..|ss| - 1], ss[|ss| - 1];
      PiecesChain(front, a, s.a);
      LineFollowed(s);
      ChainAppend(PiecesOf(front), LinePieces(s), a, s.a, s.b);
    }
  }

  lemma {:induction false} PiecesAppend(ss: seq<Segment>, tt: seq<Segment>)
    ensures PiecesOf(ss + tt) == PiecesOf(ss) + PiecesOf(tt)
    decreases |tt|
  {
    hide *;
    PiecesStep(tt);
    PiecesStep(ss + tt);
    if tt == [] {
      assert ss + tt == ss && PiecesOf(ss) + [] == PiecesOf(ss);
    } else {
      var front, s := tt[..|tt| - 1], tt[|tt| - 1];
      assert (ss + tt)[..|ss + tt| - 1] == ss + front && (ss + tt)[|ss + tt| - 1] == s;
      PiecesAppend(ss, front);
      assert (PiecesOf(ss) + PiecesOf(front)) + LinePieces(s) == PiecesOf(ss) + (PiecesOf(front) + LinePieces(s));
    }
  }

  lemma PiecesStep(ss: seq<Segment>)
    ensures PiecesOf(ss) == if ss == [] then [] else PiecesOf(ss[..|ss| - 1]) + LinePieces(ss[|ss| - 1])
  {
    hide LinePieces;
  }

  /** A chain's heights add up to what lies between its ends. */
  lemma {:induction false} ChainHeight(ss: seq<Segment>, a: Point, b: Point, r: int)
    requires Chain(ss, a, b)
    ensures NetHeight(ss, r) == InRow(b.y, r) - InRow(a.y, r)
    decreases |ss|
  {
    if ss != [] {
      ChainHeight(ss[..|ss| - 1], a, ss[|ss| - 1].a, r);
    }
  }

  lemma {:induction false} SidesChain(ps: seq<Point>)
    requires |ps| >= 1
    ensures Chain(Rasterizers.Sides(ps), ps[0], ps[|ps| - 1])
    decreases |ps|
  {
    if |ps| > 1 {
      var qs := ps[..|ps| - 1];
      SidesChain(qs);
      ChainPush(Rasterizers.Sides(qs), ps[0], Segment(ps[|ps| - 2], ps[|ps| - 1]));
    }
  }

  lemma OutlineChain(ps: seq<Point>)
    requires |ps| >= 1
    ensures Chain(Rasterizers.Outline(ps), ps[0], ps[0])
  {
    SidesChain(ps);
    if |ps| == 1 {
      assert Rasterizers.Outline(ps) == [];
    } else {
      ChainPush(Rasterizers.Sides(ps), ps[0], Segment(ps[|ps| - 1], ps[0]));
    }
  }

  /** How often the polygons go round a pixel, in 256ths. */
  function Winding(polys: seq<seq<Point>>, x: int, r: int): int
    requires Rasterizers.ArePolygons(polys)
  {
    LeftHeight(PiecesOf(Rasterizers.Outlines(polys)), x, r) / SCALE
  }

  lemma AllNarrowParts(ss: seq<Segment>, tt: seq<Segment>)
    requires AllNarrow(ss + tt)
    ensures AllNarrow(ss) && AllNarrow(tt)
  {
    hide Wide;
    assert forall i :: 0 <= i < |ss| ==> ss[i] == (ss + tt)[i];
    assert forall i :: 0 <= i < |tt| ==> tt[i] == (ss + tt)[|ss| + i];
  }

  /** Polygons go round a pixel they leave alone a whole number of times, and close
      every row. */
  lemma {:induction false} WholeWinding(polys: seq<seq<Point>>, x: int, r: int)
    requires Rasterizers.ArePolygons(polys) && AllNarrow(Rasterizers.Outlines(polys))
    requires AllOutside(PiecesOf(Rasterizers.Outlines(polys)), x, r)
    ensures LeftHeight(PiecesOf(Rasterizers.Outlines(polys)), x, r) % SCALE == 0
    decreases |polys|
  {
    hide *;
    OutlinesStep(polys);
    if polys == [] {
      NoAreaNone(x, r);
    } else {
      var last, ss := polys[|polys| - 1], Rasterizers.Outlines(polys[..|polys| - 1]);
      var tt := Rasterizers.Outline(last);
      PiecesAppend(ss, tt);
      AllNarrowParts(ss, tt);
      AllOutsideParts(PiecesOf(ss), PiecesOf(tt), x, r);
      WholeWinding(polys[..|polys| - 1], x, r);
      OutlineChain(last);
      PiecesChain(tt, last[0], last[0]);
      ClosedLeft(PiecesOf(tt), last[0], x, r);
      LeftHeightAppend(PiecesOf(ss), PiecesOf(tt), x, r);
      WholeSum(LeftHeight(PiecesOf(ss), x, r), LeftHeight(PiecesOf(tt), x, r));
    }
  }

  lemma WholeSum(a: int, b: int)
    requires a % SCALE == 0 && b % SCALE == 0
    ensures (a + b) % SCALE == 0
  {
  }

  lemma OutlinesStep(polys: seq<seq<Point>>)
    requires Rasterizers.ArePolygons(polys)
    ensures polys == [] ==> PiecesOf(Rasterizers.Outlines(polys)) == []
    ensures polys != [] ==>
              && Rasterizers.ArePolygons(polys[..|polys| - 1]) && |polys[|polys| - 1]| >= 1
              && Rasterizers.Outlines(polys) ==
                 Rasterizers.Outlines(polys[..|polys| - 1]) + Rasterizers.Outline(polys[|polys| - 1])
  {
    hide Rasterizers.Outline, LinePieces;
  }

  lemma TurnsAlpha(g: seq<nat>, w: int)
    requires IsGamma(g)
    ensures Alpha(g, Shifted(SCALE * w)) == if w % 0x8000 == 0 then g[0] else g[255]
  {
    var n := Shifted(SCALE * w);
    assert n == 0x2_0000 * ((w + 0x4000) % 0x8000 - 0x4000) by {
      WrapTurns(w);
    }
  }

  lemma WrapTurns(w: int)
    ensures Wrap32(0x2_0000 * w) == 0x2_0000 * ((w + 0x4000) % 0x8000 - 0x4000)
  {
    var m := w + 0x4000;
    assert 0x2_0000 * w + 0x8000_0000 == 0x2_0000 * m;
    DivModUnique(0x2_0000 * m, 0x1_0000_0000, m / 0x8000, 0x2_0000 * (m % 0x8000));
  }

  /** The nonzero rule: of a pixel no piece goes through, polygons that do not go round
      it show nothing, and any others, in either direction, show it whole. Turns are
      counted modulo 2^15. */
  lemma NonzeroRule(g: seq<nat>, polys: seq<seq<Point>>, x: int, r: int)
    requires IsGamma(g) && Rasterizers.ArePolygons(polys) && AllNarrow(Rasterizers.Outlines(polys))
    requires AllOutside(PiecesOf(Rasterizers.Outlines(polys)), x, r)
    ensures PixelAlpha(g, CellsOf(Rasterizers.Outlines(polys)), r, x) ==
            if Winding(polys, x, r) % 0x8000 == 0 then g[0] else g[255]
  {
    hide Left, AreaAt, AllOutside, AllNarrow, LeftHeight, PiecesOf, CellsOf, Rasterizers.Outlines, Alpha, Shifted;
    OutsideSums(Rasterizers.Outlines(polys), x, r);
    WholeWinding(polys, x, r);
    TurnsAlpha(g, Winding(polys, x, r));
  }

  /** Polygons close every row. */
  lemma {:induction false} PolygonsHeight(polys: seq<seq<Point>>, r: int)
    requires Rasterizers.ArePolygons(polys)
    ensures NetHeight(Rasterizers.Outlines(polys), r) == 0
    decreases |polys|
  {
    if polys != [] {
      hide Rasterizers.Outline, NetHeight, NetRise;
      var front, last := polys[..|polys| - 1], polys[|polys| - 1];
      PolygonsHeight(front, r);
      OutlineChain(last);
      ChainHeight(Rasterizers.Outline(last), last[0], last[0], r);
      NetAppend(Rasterizers.Outlines(front), Rasterizers.Outline(last), r);
    }
  }

  lemma PolygonsCover(polys: seq<seq<Point>>, r: int)
    requires Rasterizers.ArePolygons(polys) && AllNarrow(Rasterizers.Outlines(polys))
    ensures RowCover(CellsOf(Rasterizers.Outlines(polys)), r) == 0
  {
    hide RowCover, NetHeight, CellsOf, Rasterizers.Outlines, Wide;
    PolygonsHeight(polys, r);
    TameCover(Rasterizers.Outlines(polys), r);
  }

  /** So the sweep shows it, unless cells were dropped that add up to something. */
  lemma FilledShows(g: seq<nat>, polys: seq<seq<Point>>, x: int, r: int)
    requires IsGamma(g) && g[0] == 0 && Rasterizers.ArePolygons(polys) && AllNarrow(Rasterizers.Outlines(polys))
    requires AllOutside(PiecesOf(Rasterizers.Outlines(polys)), x, r)
    requires SamePicture(LostCells(Rasterizers.Outlines(polys)), [])
    ensures PlainAt(g, StoredCells(Rasterizers.Outlines(polys)), r, x) ==
            if Winding(polys, x, r) % 0x8000 == 0 then 0 else g[255]
  {
    hide *;
    NonzeroRule(g, polys, x, r);
    PolygonsCover(polys, r);
    Rasterizers.PlainPicture(g, Rasterizers.Outlines(polys), r, x);
    ShownIs(g, Rasterizers.Outlines(polys), r, x);
  }

  lemma ShownIs(g: seq<nat>, lines: seq<Segment>, y: int, x: int)
    requires IsGamma(g) && Rasterizers.ShowsAlpha(g, lines, y, x)
    ensures PlainAt(g, StoredCells(lines), y, x) == PixelAlpha(g, CellsOf(lines), y, x)
  {
  }
}
