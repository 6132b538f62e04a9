/** What the cells of a line mean: the line is drawn as a chain of short pieces, each
    inside one cell, that keeps within a unit of it, and the cells say of every pixel
    how much of it lies right of those pieces. */
module Coverage {
  import opened CArith
  import opened Cells
  import opened CellRasterizers
  import opened Lines
  import opened Sweep

  // ----- the pieces a line is drawn as

  /** The k-th point of a segment's walk along its columns. */
  function Bend(s: Segment, k: int): Point
    requires 0 <= k <= Steps(s.a.x, s.b.x) + 1
  {
    Point(Stop(s.a.x, s.b.x, k), StopHeight(s.a.x, s.a.y, s.b.x, s.b.y, k))
  }

  /** The first k pieces of that walk. */
  function ChordPieces(s: Segment, k: nat): seq<Segment>
    requires k <= Steps(s.a.x, s.b.x) + 1
  {
    if k == 0 then [] else ChordPieces(s, k - 1) + [Segment(Bend(s, k - 1), Bend(s, k))]
  }

  /** The part of a line in the k-th row it crosses. */
  function Chord(s: Segment, k: int): Segment
    requires 0 <= k <= Steps(s.a.y, s.b.y)
  {
    Segment(Point(RowX(s.a.x, s.a.y, s.b.x, s.b.y, k), Stop(s.a.y, s.b.y, k)),
            Point(RowX(s.a.x, s.a.y, s.b.x, s.b.y, k + 1), Stop(s.a.y, s.b.y, k + 1)))
  }

  function RowPieces(s: Segment, k: int): seq<Segment>
    requires 0 <= k <= Steps(s.a.y, s.b.y)
  {
    var c := Chord(s, k);
    ChordPieces(c, Steps(c.a.x, c.b.x) + 1)
  }

  /** The pieces in a line's first k rows. */
  function RowsPieces(s: Segment, k: nat): seq<Segment>
    requires k <= Steps(s.a.y, s.b.y) + 1
  {
    if k == 0 then [] else RowsPieces(s, k - 1) + RowPieces(s, k - 1)
  }

  /** One pass over a line. */
  function PassPieces(s: Segment): seq<Segment> {
    RowsPieces(s, Steps(s.a.y, s.b.y) + 1)
  }

  /** A wide line is drawn by halves and once more as a whole. */
  function LinePieces(s: Segment): seq<Segment>
    decreases Abs(s.b.x - s.a.x)
  {
    if Wide(s.a.x, s.b.x) then
      var mid := Point((s.a.x + s.b.x) / 2, (s.a.y + s.b.y) / 2);
      LinePieces(Segment(s.a, mid)) + LinePieces(Segment(mid, s.b)) + PassPieces(s)
    else PassPieces(s)
  }

  function PiecesOf(ss: seq<Segment>): seq<Segment> {
    if ss == [] then [] else PiecesOf(ss[..|ss| - 1]) + LinePieces(ss[|ss| - 1])
  }

  // ----- what lies right of them

  /** How much of pixel column x lies right of abscissa v. */
  function WidthRight(v: int, x: int): int {
    Clamp(SCALE * (x + 1) - v, 0, SCALE)
  }

  /** Twice the area of pixel (x, r) right of a piece, negative if the piece falls: the
      height it has in the row times the widths it leaves at its two ends. */
  function Beside(p: Segment, x: int, r: int): int {
    (WidthRight(p.a.x, x) + WidthRight(p.b.x, x)) * Height(p, r)
  }

  /** The same of all the pieces. */
  function Covered(ps: seq<Segment>, x: int, r: int): int {
    if ps == [] then 0 else Covered(ps[..|ps| - 1], x, r) + Beside(ps[|ps| - 1], x, r)
  }

  lemma CoveredPush(ps: seq<Segment>, p: Segment, x: int, r: int)
    ensures Covered(ps + [p], x, r) == Covered(ps, x, r) + Beside(p, x, r)
  {
    assert (ps + [p])[..|ps|] == ps;
  }

  lemma {:induction false} CoveredAppend(ps: seq<Segment>, qs: seq<Segment>, x: int, r: int)
    ensures Covered(ps + qs, x, r) == Covered(ps, x, r) + Covered(qs, x, r)
    decreases |qs|
  {
    if qs == [] {
      assert ps + qs == ps;
    } else {
      assert (ps + qs)[..|ps + qs| - 1] == ps + qs[..|qs| - 1];
      CoveredAppend(ps, qs[..|qs| - 1], x, r);
    }
  }

  /** What the sweep makes an alpha of, for pixel (x, r). */
  ghost function Swept(s: seq<Cell>, x: int, r: int): int {
    2 * SCALE * Left(s, x, r) - AreaAt(s, x, r)
  }

  lemma SweptNone(x: int, r: int)
    ensures Swept([], x, r) == 0 && Covered([], x, r) == 0
  {
  }

  lemma SweptConcat(s: seq<Cell>, t: seq<Cell>, x: int, r: int)
    ensures Swept(s + t, x, r) == Swept(s, x, r) + Swept(t, x, r)
  {
    hide Left, AreaAt;
    SumsConcat(s, t, x, r);
  }

  lemma SweptOne(c: Cell, x: int, r: int)
    ensures Swept([c], x, r) ==
            if c.y != r || c.x > x then 0 else if c.x < x then 2 * SCALE * c.cover else 2 * SCALE * c.cover - c.area
  {
    SumsPush([], c, x, r);
    assert [] + [c] == [c];
  }

  // ----- one run

  /** The k-th cell of a run has twice the area between its left edge and the line. */
  lemma RunCellArea(ey: int, x1: int, y1: int, x2: int, y2: int, k: int)
    requires 0 <= k <= Steps(x1, x2)
    ensures var c := RunCell(ey, x1, y1, x2, y2, k);
            && c.area == (Stop(x1, x2, k) - SCALE * c.x + (Stop(x1, x2, k + 1) - SCALE * c.x)) * c.cover
            && SCALE * c.x <= Stop(x1, x2, k) <= SCALE * c.x + SCALE && SCALE * c.x <= Stop(x1, x2, k + 1) <= SCALE * c.x + SCALE
  {
    hide Entry, Exit, Stop, StopHeight, Visit;
    StopsInCell(x1, x2, k);
  }

  /** A piece inside one cell, against the cell it fills. */
  lemma CellIsPiece(c: Cell, p: Segment, x: int, r: int)
    requires SCALE * c.x <= p.a.x <= SCALE * c.x + SCALE && SCALE * c.x <= p.b.x <= SCALE * c.x + SCALE
    requires SCALE * c.y <= p.a.y <= SCALE * c.y + SCALE && SCALE * c.y <= p.b.y <= SCALE * c.y + SCALE
    requires c.cover == p.b.y - p.a.y && c.area == (p.a.x - SCALE * c.x + (p.b.x - SCALE * c.x)) * c.cover
    ensures Swept([c], x, r) == Beside(p, x, r)
  {
    SweptOne(c, x, r);
    InRowStep(c.y, p.a.y - SCALE * c.y, p.b.y - SCALE * c.y, r);
    assert Height(p, r) == if r == c.y then c.cover else 0;
    hide Height, InRow, Swept;
    var w := WidthRight(p.a.x, x) + WidthRight(p.b.x, x);
    assert c.x > x ==> w == 0;
    assert c.x < x ==> w == 2 * SCALE;
    assert c.x == x ==> w == 2 * SCALE - (p.a.x - SCALE * c.x + (p.b.x - SCALE * c.x));
    Spread(2 * SCALE, p.a.x - SCALE * c.x + (p.b.x - SCALE * c.x), c.cover);
  }

  lemma Spread(a: int, b: int, c: int)
    ensures (a - b) * c == a * c - b * c
  {
  }

  /** A run at its own height is a chord of the row it lies in. */
  function Raised(ey: int, x1: int, y1: int, x2: int, y2: int): Segment {
    Segment(Point(x1, SCALE * ey + y1), Point(x2, SCALE * ey + y2))
  }

  lemma BendIs(ey: int, x1: int, y1: int, x2: int, y2: int, k: int)
    requires 0 <= k <= Steps(x1, x2) + 1
    ensures Bend(Raised(ey, x1, y1, x2, y2), k) == Point(Stop(x1, x2, k), SCALE * ey + StopHeight(x1, y1, x2, y2, k))
  {
    hide Stop, Steps;
  }

  lemma RunCellSwept(ey: int, x1: int, y1: int, x2: int, y2: int, k: int, x: int, r: int)
    requires 0 <= k <= Steps(x1, x2) && 0 <= y1 <= SCALE && 0 <= y2 <= SCALE
    ensures var s := Raised(ey, x1, y1, x2, y2);
            Swept([RunCell(ey, x1, y1, x2, y2, k)], x, r) == Beside(Segment(Bend(s, k), Bend(s, k + 1)), x, r)
  {
    var s, c := Raised(ey, x1, y1, x2, y2), RunCell(ey, x1, y1, x2, y2, k);
    hide Bend, Swept, Beside, Raised, Stop, StopHeight, Entry, Exit, Visit, Steps;
    RunCellArea(ey, x1, y1, x2, y2, k);
    HeightsAdvance(x1, y1, x2, y2, k);
    BendIs(ey, x1, y1, x2, y2, k);
    BendIs(ey, x1, y1, x2, y2, k + 1);
    CellIsPiece(c, Segment(Bend(s, k), Bend(s, k + 1)), x, r);
  }

  lemma {:induction false} RunPrefixSwept(ey: int, x1: int, y1: int, x2: int, y2: int, k: nat, x: int, r: int)
    requires k <= Steps(x1, x2) + 1 && 0 <= y1 <= SCALE && 0 <= y2 <= SCALE
    ensures Swept(RunPrefix(ey, x1, y1, x2, y2, k), x, r) == Covered(ChordPieces(Raised(ey, x1, y1, x2, y2), k), x, r)
  {
    hide Swept, Covered, Bend, Beside, RunCell, Steps;
    if k == 0 {
      SweptNone(x, r);
    } else {
      var s := Raised(ey, x1, y1, x2, y2);
      RunPrefixSwept(ey, x1, y1, x2, y2, k - 1, x, r);
      SweptConcat(RunPrefix(ey, x1, y1, x2, y2, k - 1), [RunCell(ey, x1, y1, x2, y2, k - 1)], x, r);
      RunCellSwept(ey, x1, y1, x2, y2, k - 1, x, r);
      CoveredPush(ChordPieces(s, k - 1), Segment(Bend(s, k - 1), Bend(s, k)), x, r);
    }
  }

  /** The pieces of a level chord have nothing beside them. */
  lemma {:induction false} LevelPieces(s: Segment, k: nat, x: int, r: int)
    requires s.a.y == s.b.y && k <= Steps(s.a.x, s.b.x) + 1
    ensures Covered(ChordPieces(s, k), x, r) == 0
  {
    hide Covered, Beside, Bend, Steps;
    if k == 0 {
      SweptNone(x, r);
    } else {
      LevelPieces(s, k - 1, x, r);
      LevelPiece(s, k - 1, x, r);
      CoveredPush(ChordPieces(s, k - 1), Segment(Bend(s, k - 1), Bend(s, k)), x, r);
    }
  }

  lemma LevelPiece(s: Segment, k: nat, x: int, r: int)
    requires s.a.y == s.b.y && k <= Steps(s.a.x, s.b.x)
    ensures Beside(Segment(Bend(s, k), Bend(s, k + 1)), x, r) == 0
  {
    HeightsAdvance(s.a.x, s.a.y, s.b.x, s.b.y, k);
    hide Stop, StopHeight, Steps, WidthRight, InRow;
  }

  lemma RunSwept(ey: int, x1: int, y1: int, x2: int, y2: int, x: int, r: int)
    requires 0 <= y1 <= SCALE && 0 <= y2 <= SCALE
    ensures Swept(Run(ey, x1, y1, x2, y2), x, r) ==
            Covered(ChordPieces(Raised(ey, x1, y1, x2, y2), Steps(x1, x2) + 1), x, r)
  {
    hide Swept, Covered, ChordPieces, RunPrefix, Steps;
    if y1 == y2 {
      SweptNone(x, r);
      LevelPieces(Raised(ey, x1, y1, x2, y2), Steps(x1, x2) + 1, x, r);
    } else {
      RunPrefixSwept(ey, x1, y1, x2, y2, Steps(x1, x2) + 1, x, r);
    }
  }

  // ----- lines

  lemma RowSwept(s: Segment, k: int, x: int, r: int)
    requires 0 <= k <= Steps(s.a.y, s.b.y)
    ensures Swept(RowRun(s.a.x, s.a.y, s.b.x, s.b.y, k), x, r) == Covered(RowPieces(s, k), x, r)
  {
    hide Swept, Covered, ChordPieces, Run, RowX, Steps, Stop, Entry, Exit, Visit;
    StopsInCell(s.a.y, s.b.y, k);
    RunSwept(Visit(s.a.y, s.b.y, k), RowX(s.a.x, s.a.y, s.b.x, s.b.y, k), Entry(s.a.y, s.b.y, k),
             RowX(s.a.x, s.a.y, s.b.x, s.b.y, k + 1), Exit(s.a.y, s.b.y, k), x, r);
  }

  lemma {:induction false} RowsSwept(s: Segment, k: nat, x: int, r: int)
    requires k <= Steps(s.a.y, s.b.y) + 1
    ensures Swept(RowsPrefix(s.a.x, s.a.y, s.b.x, s.b.y, k), x, r) == Covered(RowsPieces(s, k), x, r)
  {
    hide Swept, Covered, RowRun, RowPieces, Steps;
    if k == 0 {
      SweptNone(x, r);
    } else {
      RowsSwept(s, k - 1, x, r);
      RowSwept(s, k - 1, x, r);
      SweptConcat(RowsPrefix(s.a.x, s.a.y, s.b.x, s.b.y, k - 1), RowRun(s.a.x, s.a.y, s.b.x, s.b.y, k - 1), x, r);
      CoveredAppend(RowsPieces(s, k - 1), RowPieces(s, k - 1), x, r);
    }
  }

  /** The cells of a line say of each pixel exactly what lies right of its pieces there. */
  lemma {:induction false} LineSwept(s: Segment, x: int, r: int)
    ensures Swept(LineOf(s), x, r) == Covered(LinePieces(s), x, r)
    decreases Abs(s.b.x - s.a.x)
  {
    hide Swept, Covered, RowsPrefix, RowsPieces, Steps;
    RowsSwept(s, Steps(s.a.y, s.b.y) + 1, x, r);
    if Wide(s.a.x, s.b.x) {
      var mid := Point((s.a.x + s.b.x) / 2, (s.a.y + s.b.y) / 2);
      var front, back := Segment(s.a, mid), Segment(mid, s.b);
      LineSwept(front, x, r);
      LineSwept(back, x, r);
      SweptConcat(LineOf(front), LineOf(back), x, r);
      SweptConcat(LineOf(front) + LineOf(back), Rows(s.a.x, s.a.y, s.b.x, s.b.y), x, r);
      CoveredAppend(LinePieces(front), LinePieces(back), x, r);
      CoveredAppend(LinePieces(front) + LinePieces(back), PassPieces(s), x, r);
    }
  }

  /** So do those of a list of lines. */
  lemma {:induction false} LinesSwept(ss: seq<Segment>, x: int, r: int)
    ensures Swept(CellsOf(ss), x, r) == Covered(PiecesOf(ss), x, r)
    decreases |ss|
  {
    hide Swept, Covered, LineOf, LinePieces;
    if ss == [] {
      SweptNone(x, r);
    } else {
      var front, s := ss[..|ss| - 1], ss[|ss| - 1];
      LinesSwept(front, x, r);
      LineSwept(s, x, r);
      SweptConcat(CellsOf(front), LineOf(s), x, r);
      CoveredAppend(PiecesOf(front), LinePieces(s), x, r);
    }
  }

  /** And the stored cells, together with those past the limit. */
  lemma StoredSwept(ss: seq<Segment>, x: int, r: int)
    ensures Swept(StoredCells(ss), x, r) + Swept(LostCells(ss), x, r) == Covered(PiecesOf(ss), x, r)
  {
    hide *;
    LinesSwept(ss, x, r);
    FinishedAt(ss, x, r);
    SweptConcat(StoredCells(ss), LostCells(ss), x, r);
  }

  lemma FinishedAt(ss: seq<Segment>, x: int, r: int)
    ensures FinishedCells(ss) == StoredCells(ss) + LostCells(ss)
    ensures Swept(FinishedCells(ss), x, r) == Swept(CellsOf(ss), x, r)
  {
    hide Left, AreaAt, FinishedCells, CellsOf;
    FinishedPicture(ss);
  }

  /** A pixel's alpha is that of what lies right of the pieces in it, while the covers
      fit the sweep's 32 bits. */
  lemma PixelIsCovered(g: seq<nat>, ss: seq<Segment>, x: int, r: int)
    requires IsGamma(g) && -0x40_0000 <= Left(CellsOf(ss), x, r) < 0x40_0000
    ensures PixelAlpha(g, CellsOf(ss), r, x) == Alpha(g, Covered(PiecesOf(ss), x, r))
  {
    hide Left, AreaAt, Covered, CellsOf, Alpha;
    ShiftedExact(Left(CellsOf(ss), x, r));
    LinesSwept(ss, x, r);
  }

  // ----- the pieces follow the line

  /** The pieces lead from a to b without a gap. */
  predicate Chain(ps: seq<Segment>, a: Point, b: Point)
    decreases |ps|
  {
    if ps == [] then a == b else ps[|ps| - 1].b == b && Chain(ps[..|ps| - 1], a, ps[|ps| - 1].a)
  }

  lemma ChainPush(ps: seq<Segment>, a: Point, p: Segment)
    requires Chain(ps, a, p.a)
    ensures Chain(ps + [p], a, p.b)
  {
    assert (ps + [p])[..|ps|] == ps;
  }

  lemma {:induction false} ChainAppend(ps: seq<Segment>, qs: seq<Segment>, a: Point, m: Point, b: Point)
    requires Chain(ps, a, m) && Chain(qs, m, b)
    ensures Chain(ps + qs, a, b)
    decreases |qs|
  {
    if qs == [] {
      assert ps + qs == ps;
    } else {
      assert (ps + qs)[..|ps + qs| - 1] == ps + qs[..|qs| - 1];
      ChainAppend(ps, qs[..|qs| - 1], a, m, qs[|qs| - 1].a);
    }
  }

  lemma ChordEnds(s: Segment)
    ensures Bend(s, 0) == s.a && Bend(s, Steps(s.a.x, s.b.x) + 1) == s.b
  {
  }

  lemma {:induction false} ChordChain(s: Segment, k: nat)
    requires k <= Steps(s.a.x, s.b.x) + 1
    ensures Chain(ChordPieces(s, k), s.a, Bend(s, k))
  {
    hide Bend, Steps;
    ChordEnds(s);
    if k > 0 {
      ChordChain(s, k - 1);
      ChainPush(ChordPieces(s, k - 1), s.a, Segment(Bend(s, k - 1), Bend(s, k)));
    }
  }

  /** Where the line is at its k-th row boundary. */
  function RowStop(s: Segment, k: int): Point
    requires 0 <= k <= Steps(s.a.y, s.b.y) + 1
  {
    Point(RowX(s.a.x, s.a.y, s.b.x, s.b.y, k), Stop(s.a.y, s.b.y, k))
  }

  lemma RowStopEnds(s: Segment)
    ensures RowStop(s, 0) == s.a && RowStop(s, Steps(s.a.y, s.b.y) + 1) == s.b
  {
  }

  lemma RowChain(s: Segment, k: int)
    requires 0 <= k <= Steps(s.a.y, s.b.y)
    ensures Chain(RowPieces(s, k), RowStop(s, k), RowStop(s, k + 1))
  {
    hide Bend, Steps, RowX, Stop, Chain, ChordPieces;
    var c := Chord(s, k);
    ChordChain(c, Steps(c.a.x, c.b.x) + 1);
    ChordEnds(c);
  }

  lemma {:induction false} RowsChain(s: Segment, k: nat)
    requires k <= Steps(s.a.y, s.b.y) + 1
    ensures Chain(RowsPieces(s, k), s.a, RowStop(s, k))
  {
    hide RowStop, Steps, RowPieces;
    RowStopEnds(s);
    if k > 0 {
      RowsChain(s, k - 1);
      RowChain(s, k - 1);
      ChainAppend(RowsPieces(s, k - 1), RowPieces(s, k - 1), s.a, RowStop(s, k - 1), RowStop(s, k));
    }
  }

  /** Within one unit of the grid. */
  predicate InOne(a: int, b: int) {
    Max(a, b) <= SCALE * CellOf(Min(a, b)) + SCALE
  }

  /** No further than the line's own box would let a step of one unit each way go. */
  predicate Near(s: Segment, p: Point) {
    Abs(Off(s, p)) <= Abs(s.b.x - s.a.x) + Abs(s.b.y - s.a.y)
  }

  /** A piece inside one cell that keeps within a unit of the line. */
  predicate Follows(s: Segment, p: Segment) {
    InOne(p.a.x, p.b.x) && InOne(p.a.y, p.b.y) && Near(s, p.a) && Near(s, p.b)
  }

  predicate AllFollow(s: Segment, ps: seq<Segment>) {
    forall i :: 0 <= i < |ps| ==> Follows(s, ps[i])
  }

  /** A bend lies on the chord but for the rounding of its height. */
  lemma BendOnChord(c: Segment, k: int, w: int, t: int, g: int)
    requires 0 <= k <= Steps(c.a.x, c.b.x) + 1 && c.a.x != c.b.x
    requires w == Abs(c.b.x - c.a.x) && t == Abs(Bend(c, k).x - c.a.x) && g == if c.b.x >= c.a.x then 1 else -1
    ensures 0 <= t <= w && w > 0 && c.b.x - c.a.x == g * w
    ensures Bend(c, k) == Point(c.a.x + g * t, c.a.y + t * (c.b.y - c.a.y) / w)
  {
    StopOnWay(c.a.x, c.b.x, k);
    StopHeightIsCrossing(c.a.x, c.a.y, c.b.x, c.b.y, k);
    hide Stop, StopHeight, Steps;
  }

  /** A chord between points near the line bends near it too. */
  lemma ChordNear(s: Segment, c: Segment, k: int, b: int)
    requires 0 <= k <= Steps(c.a.x, c.b.x) + 1 && Abs(Off(s, c.a)) <= b && Abs(Off(s, c.b)) <= b
    ensures Abs(Off(s, Bend(c, k))) <= b + Abs(s.b.x - s.a.x)
  {
    if c.a.x == c.b.x {
      ChordEnds(c);
    } else {
      hide *;
      var q := Bend(c, k);
      var w, t, g := Abs(c.b.x - c.a.x), Abs(q.x - c.a.x), if c.b.x >= c.a.x then 1 else -1;
      BendOnChord(c, k, w, t, g);
      OnChordNear(s, c, q, w, t, g, t * (c.b.y - c.a.y) / w, b);
    }
  }

  lemma OnChordNear(s: Segment, c: Segment, q: Point, w: int, t: int, g: int, up: int, b: int)
    requires 0 <= t <= w && w > 0 && c.b.x - c.a.x == g * w && q == Point(c.a.x + g * t, c.a.y + up)
    requires up == t * (c.b.y - c.a.y) / w && Abs(Off(s, c.a)) <= b && Abs(Off(s, c.b)) <= b
    ensures Abs(Off(s, q)) <= b + Abs(s.b.x - s.a.x)
  {
    hide *;
    var dx, dy, h := s.b.x - s.a.x, s.b.y - s.a.y, c.b.y - c.a.y;
    OffMoves(s, c.a, c.b);
    OffMoves(s, c.a, q);
    Weighted(w, t, h, up, dx, dy, g, Off(s, c.a), Off(s, c.b), Off(s, q));
    RemainderWeight(t * h, w, dx);
    Convex(w, t, Off(s, c.a), Off(s, c.b), Off(s, q), (t * h - w * up) * dx, b, Abs(dx));
  }

  /** Every stop of a walk lies between its ends. */
  lemma StopOnWay(a: int, b: int, k: int)
    requires 0 <= k <= Steps(a, b) + 1
    ensures Min(a, b) <= Stop(a, b, k) <= Max(a, b)
  {
  }

  /** The line is at most a unit off where it crosses a row boundary. */
  lemma RowStopNear(s: Segment, k: int)
    requires !Wide(s.a.x, s.b.x) && 0 <= k <= Steps(s.a.y, s.b.y) + 1
    ensures Abs(Off(s, RowStop(s, k))) <= Abs(s.b.y - s.a.y)
  {
    hide Off, RowStop, Steps, Wide;
    RowStopEnds(s);
    OffEnds(s);
    if 0 < k <= Steps(s.a.y, s.b.y) {
      var w, t, g := Abs(s.b.y - s.a.y), Abs(RowStop(s, k).y - s.a.y), if s.b.y >= s.a.y then 1 else -1;
      RowStopIs(s, k, w, t, g);
      RowStopOff(s, RowStop(s, k), w, t, g);
    }
  }

  lemma OffEnds(s: Segment)
    ensures Off(s, s.a) == 0 == Off(s, s.b)
  {
    OffMoves(s, s.a, s.b);
  }

  lemma RowStopIs(s: Segment, k: int, w: int, t: int, g: int)
    requires !Wide(s.a.x, s.b.x) && 0 < k <= Steps(s.a.y, s.b.y)
    requires w == Abs(s.b.y - s.a.y) && t == Abs(RowStop(s, k).y - s.a.y) && g == if s.b.y >= s.a.y then 1 else -1
    ensures w > 0 && s.b.y - s.a.y == g * w && RowStop(s, k) == Point(s.a.x + t * (s.b.x - s.a.x) / w, s.a.y + g * t)
  {
    hide *;
    StopOnWay(s.a.y, s.b.y, k);
    RowXExact(s.a.x, s.a.y, s.b.x, s.b.y, k);
    RowStopParts(s, k);
    WayFrom(s.a.y, s.b.y, RowStop(s, k).y);
  }

  lemma RowStopParts(s: Segment, k: int)
    requires 0 <= k <= Steps(s.a.y, s.b.y) + 1
    ensures RowStop(s, k) == Point(RowX(s.a.x, s.a.y, s.b.x, s.b.y, k), Stop(s.a.y, s.b.y, k))
    ensures s.a.y != s.b.y ==> Crossing(s.a.y, s.a.x, s.b.y, s.b.x, Stop(s.a.y, s.b.y, k)) ==
                               s.a.x + Abs(Stop(s.a.y, s.b.y, k) - s.a.y) * (s.b.x - s.a.x) / Abs(s.b.y - s.a.y)
  {
    hide RowX, Stop, Steps;
  }

  lemma RowStopOff(s: Segment, p: Point, w: int, t: int, g: int)
    requires w > 0 && (g == 1 || g == -1) && s.b.y - s.a.y == g * w
    requires p == Point(s.a.x + t * (s.b.x - s.a.x) / w, s.a.y + g * t)
    ensures Abs(Off(s, p)) <= w
  {
    var dx, q := s.b.x - s.a.x, t * (s.b.x - s.a.x) / w;
    assert Off(s, p) == q * (g * w) - (g * t) * dx;
    hide Off;
    Turned(q, g, w, t, dx);
    RemainderWeight(t * dx, w, 1);
  }

  lemma Turned(q: int, g: int, w: int, t: int, dx: int)
    ensures q * (g * w) - (g * t) * dx == -g * (t * dx - w * q)
  {
  }

  lemma AllFollowAppend(s: Segment, ps: seq<Segment>, qs: seq<Segment>)
    requires AllFollow(s, ps) && AllFollow(s, qs)
    ensures AllFollow(s, ps + qs)
  {
    hide Follows;
  }

  lemma InOneCell(e: int, a: int, b: int)
    requires SCALE * e <= a <= SCALE * e + SCALE && SCALE * e <= b <= SCALE * e + SCALE
    ensures InOne(a, b)
  {
  }

  /** A piece of a row's chord. */
  lemma PieceFollows(s: Segment, c: Segment, e: int, k: int)
    requires 0 <= k <= Steps(c.a.x, c.b.x) && Abs(Off(s, c.a)) <= Abs(s.b.y - s.a.y) && Abs(Off(s, c.b)) <= Abs(s.b.y - s.a.y)
    requires SCALE * e <= c.a.y <= SCALE * e + SCALE && SCALE * e <= c.b.y <= SCALE * e + SCALE
    ensures Follows(s, Segment(Bend(c, k), Bend(c, k + 1)))
  {
    ChordNear(s, c, k, Abs(s.b.y - s.a.y));
    ChordNear(s, c, k + 1, Abs(s.b.y - s.a.y));
    StopsInCell(c.a.x, c.b.x, k);
    HeightsAdvance(c.a.x, c.a.y, c.b.x, c.b.y, k);
    hide Off, Stop, StopHeight, Steps, Visit, Entry, Exit, InOne;
    InOneCell(Visit(c.a.x, c.b.x, k), Stop(c.a.x, c.b.x, k), Stop(c.a.x, c.b.x, k + 1));
    InOneCell(e, Bend(c, k).y, Bend(c, k + 1).y);
  }

  lemma {:induction false} ChordFollows(s: Segment, c: Segment, e: int, k: nat)
    requires k <= Steps(c.a.x, c.b.x) + 1 && Abs(Off(s, c.a)) <= Abs(s.b.y - s.a.y) && Abs(Off(s, c.b)) <= Abs(s.b.y - s.a.y)
    requires SCALE * e <= c.a.y <= SCALE * e + SCALE && SCALE * e <= c.b.y <= SCALE * e + SCALE
    ensures AllFollow(s, ChordPieces(c, k))
  {
    hide Off, Bend, Follows, Steps;
    if k > 0 {
      ChordFollows(s, c, e, k - 1);
      PieceFollows(s, c, e, k - 1);
    }
  }

  lemma RowFollows(s: Segment, k: int)
    requires !Wide(s.a.x, s.b.x) && 0 <= k <= Steps(s.a.y, s.b.y)
    ensures AllFollow(s, RowPieces(s, k))
  {
    hide Off, Bend, AllFollow, Steps, RowX, Stop, ChordPieces, Wide;
    var c := Chord(s, k);
    RowStopNear(s, k);
    RowStopNear(s, k + 1);
    StopsInCell(s.a.y, s.b.y, k);
    hide Entry, Exit, Visit;
    ChordFollows(s, c, Visit(s.a.y, s.b.y, k), Steps(c.a.x, c.b.x) + 1);
  }

  lemma {:induction false} RowsFollow(s: Segment, k: nat)
    requires !Wide(s.a.x, s.b.x) && k <= Steps(s.a.y, s.b.y) + 1
    ensures AllFollow(s, RowsPieces(s, k))
  {
    hide Follows, Steps, RowPieces, Wide;
    if k > 0 {
      RowsFollow(s, k - 1);
      RowFollows(s, k - 1);
      AllFollowAppend(s, RowsPieces(s, k - 1), RowPieces(s, k - 1));
    }
  }

  /** A line under dx_limit is drawn as a chain from its one end to its other, every
      piece in one cell and within a unit of the line. */
  lemma LineFollowed(s: Segment)
    requires !Wide(s.a.x, s.b.x)
    ensures Chain(LinePieces(s), s.a, s.b) && AllFollow(s, LinePieces(s))
  {
    hide Chain, AllFollow, RowsPieces, RowStop, Steps;
    RowsChain(s, Steps(s.a.y, s.b.y) + 1);
    RowStopEnds(s);
    RowsFollow(s, Steps(s.a.y, s.b.y) + 1);
  }
}
