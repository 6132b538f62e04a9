/** The cell rasteriser: two nested error-term walks over a line that gather
    signed cover and area into cells, and the counting sort that orders them. */
module CellRasterizers {
  import opened CArith
  import opened Cells
  import opened CellSort
  import opened Lines

  const CELL_LIMIT := 1024 * 4096
  const INITIAL_CELL := Cell(INT_MAX, INT_MAX, 0, 0)

  /** Numerator of the interpolation at the k-th stop of a walk from a to b
      along which the other coordinate rises by h. */
  ghost function Numerator(a: int, b: int, h: int, k: int): int
    requires 0 <= k <= Steps(a, b) + 1
  {
    Abs(Stop(a, b, k) - a) * h
  }

  lemma NumeratorAt(a: int, b: int, h: int, k: int)
    requires 1 <= k <= Steps(a, b)
    ensures Numerator(a, b, h, k) == (if b >= a then SCALE - Frac(a) else Frac(a)) * h + (k - 1) * (SCALE * h)
  {
    var f := if b >= a then SCALE - Frac(a) else Frac(a);
    StopDistance(a, b, k);
    assert (f + (k - 1) * SCALE) * h == f * h + (k - 1) * (SCALE * h);
  }

  lemma NextNumerator(a: int, b: int, h: int, k: int)
    requires 1 <= k < Steps(a, b)
    ensures Numerator(a, b, h, k + 1) == Numerator(a, b, h, k) + SCALE * h
  {
    NumeratorAt(a, b, h, k);
    NumeratorAt(a, b, h, k + 1);
    assert k * (SCALE * h) == (k - 1) * (SCALE * h) + SCALE * h;
  }

  /** The first step of a run's error-term walk. */
  lemma FirstHeight(x1: int, y1: int, x2: int, y2: int, p: int)
    requires x1 != x2 && 1 <= Steps(x1, x2)
    requires p == (if x2 >= x1 then SCALE - Frac(x1) else Frac(x1)) * (y2 - y1)
    ensures StopHeight(x1, y1, x2, y2, 1) == y1 + p / Abs(x2 - x1)
    ensures p == Numerator(x1, x2, y2 - y1, 1)
  {
    NumeratorAt(x1, x2, y2 - y1, 1);
  }

  lemma RunStart(ey: int, x1: int, y1: int, x2: int, y2: int)
    ensures RunPrefix(ey, x1, y1, x2, y2, 1) == [RunCell(ey, x1, y1, x2, y2, 0)]
  {
    assert RunPrefix(ey, x1, y1, x2, y2, 0) == [];
  }

  /** A run inside a single cell. */
  lemma RunSingle(ey: int, x1: int, y1: int, x2: int, y2: int)
    requires y1 != y2 && CellOf(x1) == CellOf(x2)
    ensures Run(ey, x1, y1, x2, y2) == [Cell(CellOf(x2), ey, y2 - y1, (Frac(x1) + Frac(x2)) * (y2 - y1))]
  {
    RunStart(ey, x1, y1, x2, y2);
  }

  /** The first cell of a longer run, whose far side is at first. */
  lemma RunFirst(ey: int, x1: int, y1: int, x2: int, y2: int, first: int)
    requires CellOf(x1) != CellOf(x2) && first == if x2 >= x1 then SCALE else 0
    ensures var d := StopHeight(x1, y1, x2, y2, 1) - y1;
            RunPrefix(ey, x1, y1, x2, y2, 1) == [Cell(CellOf(x1), ey, d, (Frac(x1) + first) * d)]
  {
    RunStart(ey, x1, y1, x2, y2);
  }

  /** The last cell of a longer run. */
  lemma RunLast(ey: int, x1: int, y1: int, x2: int, y2: int, first: int)
    requires y1 != y2 && CellOf(x1) != CellOf(x2) && first == if x2 >= x1 then SCALE else 0
    ensures var n := Steps(x1, x2);
            var d := y2 - StopHeight(x1, y1, x2, y2, n);
            Run(ey, x1, y1, x2, y2) ==
            RunPrefix(ey, x1, y1, x2, y2, n) + [Cell(CellOf(x2), ey, d, (Frac(x2) + SCALE - first) * d)]
  {
    hide Crossing;
  }

  lemma HeightAt(x1: int, y1: int, x2: int, y2: int, k: int)
    requires 1 <= k <= Steps(x1, x2) && Abs(x2 - x1) > 0
    ensures StopHeight(x1, y1, x2, y2, k) == y1 + Numerator(x1, x2, y2 - y1, k) / Abs(x2 - x1)
  {
  }

  /** Each further step: the carry of the error term gives the next height. */
  lemma NextHeight(x1: int, y1: int, x2: int, y2: int, k: int, q: int, dx: int)
    requires 1 <= k < Steps(x1, x2) && dx == Abs(x2 - x1) > 0 && q == SCALE * (y2 - y1)
    ensures var m := Numerator(x1, x2, y2 - y1, k) % dx + q % dx;
            var m' := Numerator(x1, x2, y2 - y1, k + 1) % dx;
            var d := StopHeight(x1, y1, x2, y2, k + 1) - StopHeight(x1, y1, x2, y2, k);
            if m >= dx then d == q / dx + 1 && m' == m - dx else d == q / dx && m' == m
  {
    hide *;
    HeightAt(x1, y1, x2, y2, k);
    HeightAt(x1, y1, x2, y2, k + 1);
    NextNumerator(x1, x2, y2 - y1, k);
    DdaHeight(Numerator(x1, x2, y2 - y1, k), q, dx, Numerator(x1, x2, y2 - y1, k + 1),
              StopHeight(x1, y1, x2, y2, k) - y1, StopHeight(x1, y1, x2, y2, k + 1) - y1);
  }

  /** The carry of the error term, as a difference of heights. */
  lemma DdaHeight(n: int, q: int, d: int, n': int, h: int, h': int)
    requires d > 0 && n' == n + q && h == n / d && h' == n' / d
    ensures if n % d + q % d >= d then h' - h == q / d + 1 && n' % d == n % d + q % d - d
            else h' - h == q / d && n' % d == n % d + q % d
  {
    DdaStep(n, q, d);
  }

  /** One step of the walk from row to row. */
  lemma NextRowX(x1: int, y1: int, x2: int, y2: int, k: int, q: int, dy: int)
    requires 1 <= k < Steps(y1, y2) && dy == Abs(y2 - y1) > 0 && q == Mul32(SCALE, x2 - x1)
    ensures var m := RowNumerator(x1, y1, x2, y2, k) % dy + q % dy;
            var m' := RowNumerator(x1, y1, x2, y2, k + 1) % dy;
            var d := RowX(x1, y1, x2, y2, k + 1) - RowX(x1, y1, x2, y2, k);
            if m >= dy then d == q / dy + 1 && m' == m - dy else d == q / dy && m' == m
  {
    assert (k - 1) * q + q == k * q;
    DdaStep(RowNumerator(x1, y1, x2, y2, k), q, dy);
  }

  lemma FirstRowX(x1: int, y1: int, x2: int, y2: int)
    ensures RowNumerator(x1, y1, x2, y2, 1) == Mul32(if y2 >= y1 then SCALE - Frac(y1) else Frac(y1), x2 - x1)
  {
  }

  lemma RowsStart(x1: int, y1: int, x2: int, y2: int)
    ensures RowsPrefix(x1, y1, x2, y2, 1) == RowRun(x1, y1, x2, y2, 0)
  {
    assert RowsPrefix(x1, y1, x2, y2, 0) == [];
  }

  /** On a vertical line every row is entered and left at the same abscissa. */
  lemma VerticalRow(x: int, y1: int, y2: int, k: int)
    requires 0 <= k <= Steps(y1, y2)
    ensures RowX(x, y1, x, y2, k) == x == RowX(x, y1, x, y2, k + 1)
    ensures var from, to := Entry(y1, y2, k), Exit(y1, y2, k);
            RowRun(x, y1, x, y2, k) == Run(Visit(y1, y2, k), x, from, x, to)
  {
    StraightX(x, y1, y2, k);
    StraightX(x, y1, y2, k + 1);
    hide Run, RowX, Visit, Entry, Exit;
  }

  lemma StraightX(x: int, y1: int, y2: int, k: int)
    requires 0 <= k <= Steps(y1, y2) + 1
    ensures RowX(x, y1, x, y2, k) == x
  {
    if 0 < k <= Steps(y1, y2) {
      var f := if y2 >= y1 then SCALE - Frac(y1) else Frac(y1);
      assert Mul32(f, 0) == 0 && Mul32(SCALE, 0) == 0;
      DivModUnique(0, Abs(y2 - y1), 0, 0);
    }
  }

  lemma ColumnRun(ey: int, x: int, from: int, to: int)
    ensures Run(ey, x, from, x, to) == if from == to then [] else [Cell(CellOf(x), ey, to - from, 2 * Frac(x) * (to - from))]
  {
    RunStart(ey, x, from, x, to);
  }

  /** Storing the pending cell and starting an empty one changes no picture. */
  lemma Flushed(s: seq<Cell>, c: Cell, s': seq<Cell>, m: Cell, drawn: seq<Cell>)
    requires SamePicture(s + [c], drawn) && IsZero(m) && s' == if IsZero(c) then s else s + [c]
    ensures SamePicture(s' + [m], drawn)
  {
    forall x, y ensures Left(s' + [m], x, y) == Left(drawn, x, y) && AreaAt(s' + [m], x, y) == AreaAt(drawn, x, y) {
      SumsPush(s', m, x, y);
      SumsPush(s, c, x, y);
      assert Left(s + [c], x, y) == Left(drawn, x, y);
    }
  }

  /** The pending cell of a rasteriser that has drawn nothing shows nothing. */
  lemma NothingDrawn()
    ensures SamePicture([INITIAL_CELL], []) && [] + [INITIAL_CELL] == [INITIAL_CELL]
    ensures CellsOf([]) == []
  {
    forall x, y ensures Left([INITIAL_CELL], x, y) == Left([], x, y) && AreaAt([INITIAL_CELL], x, y) == AreaAt([], x, y) {
      SumsPush([], INITIAL_CELL, x, y);
      assert [] + [INITIAL_CELL] == [INITIAL_CELL];
    }
  }

  // ----- the cells a list of lines leaves

  /** The cells gathered from a list of lines, starting from none. */
  function Gathered(lines: seq<Segment>): Gathering {
    GatherAll(Gathering([], INITIAL_CELL), TraceOf(lines))
  }

  /** All of them, once the last is finished. */
  function FinishedCells(lines: seq<Segment>): seq<Cell> {
    Finished(Gathered(lines))
  }

  lemma GatheredPush(g: Gathering, lines: seq<Segment>, s: Segment)
    ensures Alike(g, Gathered(lines)) ==> Alike(GatherAll(g, LineTrace(s.a.x, s.a.y, s.b.x, s.b.y)), Gathered(lines + [s]))
  {
    hide GatherAll, TraceOf, LineTrace;
    TraceOfPush(lines, s);
    GatherAppend(Gathering([], INITIAL_CELL), TraceOf(lines), LineTrace(s.a.x, s.a.y, s.b.x, s.b.y));
    if Alike(g, Gathered(lines)) {
      GatherAlike(g, Gathered(lines), LineTrace(s.a.x, s.a.y, s.b.x, s.b.y));
    }
  }

  /** Those that are stored. */
  function StoredCells(lines: seq<Segment>): seq<Cell> {
    var all := FinishedCells(lines);
    all[..Min(|all|, CELL_LIMIT)]
  }

  /** Those past the limit. */
  function LostCells(lines: seq<Segment>): seq<Cell> {
    var all := FinishedCells(lines);
    all[Min(|all|, CELL_LIMIT)..]
  }

  /** The finished cells draw the picture of the lines. */
  lemma FinishedPicture(lines: seq<Segment>)
    ensures SamePicture(FinishedCells(lines), CellsOf(lines))
  {
    hide Left, AreaAt, GatherAll, TraceOf, CellsOf;
    var g := Gathering([], INITIAL_CELL);
    forall x, y
      ensures Left(FinishedCells(lines), x, y) == Left(CellsOf(lines), x, y)
              && AreaAt(FinishedCells(lines), x, y) == AreaAt(CellsOf(lines), x, y)
    {
      GatherSums(g, TraceOf(lines), x, y);
      assert Finished(g) + TraceOf(lines) == TraceOf(lines);
      TraceSums(lines, x, y);
    }
  }

  lemma MissingPart(all: seq<Cell>, a: seq<Cell>, b: seq<Cell>)
    requires forall x, y :: Left(all, x, y) == Left(a, x, y) + Left(b, x, y) && AreaAt(all, x, y) == AreaAt(a, x, y) + AreaAt(b, x, y)
    ensures SamePicture(a, all) <==> SamePicture(b, [])
  {
    if SamePicture(a, all) {
      forall x, y ensures Left(b, x, y) == Left([], x, y) && AreaAt(b, x, y) == AreaAt([], x, y) {
        assert Left(a, x, y) == Left(all, x, y);
      }
    }
    if SamePicture(b, []) {
      forall x, y ensures Left(a, x, y) == Left(all, x, y) && AreaAt(a, x, y) == AreaAt(all, x, y) {
        assert Left(b, x, y) == Left([], x, y);
      }
    }
  }

  /** Cells are lost exactly when more than CELL_LIMIT are finished, which are no more
      than the lines' contributions. What the stored cells lack of the lines' picture is
      what the lost ones hold, and so it is complete exactly when those add up to
      nothing. */
  lemma WhatIsLost(lines: seq<Segment>)
    ensures LostCells(lines) == [] <==> |FinishedCells(lines)| <= CELL_LIMIT
    ensures |FinishedCells(lines)| <= |CellsOf(lines)|
    ensures forall x, y ::
              && Left(CellsOf(lines), x, y) == Left(StoredCells(lines), x, y) + Left(LostCells(lines), x, y)
              && AreaAt(CellsOf(lines), x, y) == AreaAt(StoredCells(lines), x, y) + AreaAt(LostCells(lines), x, y)
    ensures SamePicture(StoredCells(lines), CellsOf(lines)) <==> SamePicture(LostCells(lines), [])
  {
    hide Left, AreaAt, GatherAll, TraceOf, CellsOf, Gathered, Filled;
    FinishedPicture(lines);
    assert FinishedCells(lines) == StoredCells(lines) + LostCells(lines);
    var all, stored, lost := CellsOf(lines), StoredCells(lines), LostCells(lines);
    forall x, y
      ensures Left(all, x, y) == Left(stored, x, y) + Left(lost, x, y) && AreaAt(all, x, y) == AreaAt(stored, x, y) + AreaAt(lost, x, y)
    {
      SumsConcat(stored, lost, x, y);
      assert Left(FinishedCells(lines), x, y) == Left(all, x, y);
    }
    MissingPart(all, stored, lost);
    FewFinished(lines);
  }

  lemma NothingGathered()
    ensures Gathered([]) == Gathering([], INITIAL_CELL)
  {
  }

  lemma NothingFinished()
    ensures FinishedCells([]) == []
  {
    NothingGathered();
  }

  /** Of lines drawn once, every cell lies in the box around their ends. */
  lemma FinishedInFrame(lines: seq<Segment>, c: Cell)
    requires AllTame(lines) && c in FinishedCells(lines)
    ensures var f := FrameOf(lines); f.minX <= c.x <= f.maxX && f.minY <= c.y <= f.maxY
  {
    hide GatherAll, TraceOf, CellsOf, AllTame, FrameOf;
    var g := Gathering([], INITIAL_CELL);
    TraceContributed(lines);
    GatherTouched(g, TraceOf(lines), CellsOf(lines));
    TameInFrame(lines);
    assert Touched(c, CellsOf(lines));
  }

  lemma FewFinished(lines: seq<Segment>)
    ensures |FinishedCells(lines)| <= |CellsOf(lines)|
  {
    GatherFew(Gathering([], INITIAL_CELL), TraceOf(lines));
    TraceFilled(lines);
  }

  /** Adding to a cell just entered. */
  lemma AddGathered(g: Gathering, trace: seq<Cell>, d: Cell)
    ensures Gather(Gather(GatherAll(g, trace), Mark(d.x, d.y)), d) == GatherAll(g, trace + [d])
  {
    GatherPush(g, trace, d);
    MarkThenAdd(GatherAll(g, trace), d);
  }

  /** A row of a pass, entered at its first cell. */
  lemma RowGathered(g: Gathering, x1: int, y1: int, x2: int, y2: int, k: nat)
    requires k <= Steps(y1, y2)
    ensures var ey, a, b := Visit(y1, y2, k), RowX(x1, y1, x2, y2, k), RowX(x1, y1, x2, y2, k + 1);
            GatherAll(Gather(GatherAll(g, RowsTrace(x1, y1, x2, y2, k)), Mark(CellOf(a), ey)),
                      RunTrace(ey, a, Entry(y1, y2, k), b, Exit(y1, y2, k)))
            == GatherAll(g, RowsTrace(x1, y1, x2, y2, k + 1))
  {
    hide GatherAll, Gather, RunTrace, RowX, Visit, Entry, Exit, CellOf;
    var ey, a, b := Visit(y1, y2, k), RowX(x1, y1, x2, y2, k), RowX(x1, y1, x2, y2, k + 1);
    var run := RunTrace(ey, a, Entry(y1, y2, k), b, Exit(y1, y2, k));
    var h := GatherAll(g, RowsTrace(x1, y1, x2, y2, k));
    GatherOne(h, Mark(CellOf(a), ey));
    GatherAppend(h, [Mark(CellOf(a), ey)], run);
    GatherAppend(g, RowsTrace(x1, y1, x2, y2, k), RowTrace(x1, y1, x2, y2, k));
  }

  /** The first row is entered already. */
  lemma FirstRowGathered(g: Gathering, x1: int, y1: int, x2: int, y2: int)
    requires g.curr.x == CellOf(x1) && g.curr.y == CellOf(y1)
    ensures GatherAll(g, RunTrace(CellOf(y1), x1, Frac(y1), RowX(x1, y1, x2, y2, 1), Exit(y1, y2, 0)))
            == GatherAll(g, RowsTrace(x1, y1, x2, y2, 1))
  {
    hide RunTrace, Exit, CellOf, Gather, Frac;
    RowGathered(g, x1, y1, x2, y2, 0);
    MarkThenAdd(g, Mark(CellOf(x1), CellOf(y1)));
    assert Visit(y1, y2, 0) == CellOf(y1) && Entry(y1, y2, 0) == Frac(y1) && RowX(x1, y1, x2, y2, 0) == x1;
    assert GatherAll(g, RowsTrace(x1, y1, x2, y2, 0)) == g;
  }

  /** A pass begins by entering its first cell. */
  lemma EnterTwice(g: Gathering, x1: int, y1: int, x2: int, y2: int)
    ensures GatherAll(Gather(g, Mark(CellOf(x1), CellOf(y1))), PassTrace(x1, y1, x2, y2)) == GatherAll(g, PassTrace(x1, y1, x2, y2))
  {
    hide GatherAll, Gather, RunTrace, CellOf;
    var m, trace := Mark(CellOf(x1), CellOf(y1)), PassTrace(x1, y1, x2, y2);
    PassBegins(x1, y1, x2, y2, Steps(y1, y2) + 1);
    assert trace == [m] + trace[1..];
    GatherAppend(g, [m], trace[1..]);
    GatherAppend(Gather(g, m), [m], trace[1..]);
    GatherOne(g, m);
    GatherOne(Gather(g, m), m);
    MarkThenAdd(g, m);
  }

  lemma {:induction false} PassBegins(x1: int, y1: int, x2: int, y2: int, k: nat)
    requires 1 <= k <= Steps(y1, y2) + 1
    ensures var trace := RowsTrace(x1, y1, x2, y2, k); trace != [] && trace[0] == Mark(CellOf(x1), CellOf(y1))
  {
    if k > 1 {
      PassBegins(x1, y1, x2, y2, k - 1);
    } else {
      assert RowsTrace(x1, y1, x2, y2, 0) == [];
    }
  }

  class CellRasterizer {
    var cells: seq<Cell>
    var curr: Cell
    var rows: seq<Row>
    var sortedCells: seq<Cell>
    var minX: int
    var minY: int
    var maxX: int
    var maxY: int
    var sorted: bool
    /** Every contribution since the last reset, in drawing order. */
    ghost var drawn: seq<Cell>
    /** Every cell finished so far; `cells` keeps the first CELL_LIMIT of them. */
    ghost var emitted: seq<Cell>
    /** The lines those contributions come from. */
    ghost var lines: seq<Segment>

    ghost predicate Valid()
      reads this
    {
      && cells == emitted[..Min(|emitted|, CELL_LIMIT)]
      && SamePicture(emitted + [curr], drawn)
      && (forall i :: 0 <= i < |emitted| ==> minY <= emitted[i].y <= maxY)
      && (IsZero(curr) || minY <= curr.y <= maxY)
    }

    ghost function Bounds(): Frame
      reads this
    {
      Frame(minX, minY, maxX, maxY)
    }

    ghost function State(): Gathering
      reads this
    {
      Gathering(emitted, curr)
    }

    /** The contributions are those of the lines drawn so far, the bounding box is the
        box around them, and the cells are gathered from them. */
    ghost predicate Traced()
      reads this
    {
      && drawn == CellsOf(lines) && Bounds() == FrameOf(lines)
      && if sorted then emitted == FinishedCells(lines) else Alike(State(), Gathered(lines))
    }

    constructor ()
      ensures Valid() && Traced() && !sorted && lines == [] && emitted == []
    {
      cells, curr, rows, sortedCells := [], INITIAL_CELL, [], [];
      minX, minY, maxX, maxY := INT_MAX, INT_MAX, -INT_MAX, -INT_MAX;
      sorted := false;
      drawn, emitted, lines := [], [], [];
      new;
      NothingDrawn();
    }

    method Reset()
      modifies this
      ensures Valid() && Traced() && !sorted && lines == [] && emitted == []
    {
      cells, curr, sorted := [], INITIAL_CELL, false;
      minX, minY, maxX, maxY := INT_MAX, INT_MAX, -INT_MAX, -INT_MAX;
      drawn, emitted, lines := [], [], [];
      NothingDrawn();
    }

    /** Stores the current cell unless it is empty; past CELL_LIMIT it is lost. */
    method AddCurrCell()
      requires cells == emitted[..Min(|emitted|, CELL_LIMIT)]
      modifies `cells, `emitted
      ensures cells == emitted[..Min(|emitted|, CELL_LIMIT)]
      ensures emitted == if IsZero(curr) then old(emitted) else old(emitted) + [curr]
    {
      if curr.area != 0 || curr.cover != 0 {
        emitted := emitted + [curr];
        if |cells| >= CELL_LIMIT {
          return;
        }
        cells := cells + [curr];
      }
    }

    method SetCurrCell(x: int, y: int)
      requires Valid()
      modifies `cells, `emitted, `curr
      ensures Valid()
      ensures old(emitted) <= emitted
      ensures curr == if x == old(curr).x && y == old(curr).y then old(curr) else Cell(x, y, 0, 0)
      ensures State() == Gather(old(State()), Mark(x, y))
    {
      if x != curr.x || y != curr.y {
        hide SamePicture;
        AddCurrCell();
        curr := Cell(x, y, 0, 0);
        Flushed(old(emitted), old(curr), emitted, curr, drawn);
      }
    }

    /** `curr_.cover += cover; curr_.area += area`. */
    method Accumulate(cover: int, area: int)
      requires Valid() && minY <= curr.y <= maxY
      modifies `curr, `drawn
      ensures Valid()
      ensures curr == Cell(old(curr).x, old(curr).y, old(curr).cover + cover, old(curr).area + area)
      ensures drawn == old(drawn) + [Cell(curr.x, curr.y, cover, area)]
      ensures State() == Gather(old(State()), Cell(curr.x, curr.y, cover, area))
    {
      ghost var d := Cell(curr.x, curr.y, cover, area);
      curr := curr.(cover := curr.cover + cover, area := curr.area + area);
      SamePicturePush(emitted, emitted + [curr], drawn, old(curr), d);
      drawn := drawn + [d];
    }

    /** Draws the part of a line inside row ey. */
    method RenderHline(ey: int, x1: int, y1: int, x2: int, y2: int)
      requires Valid() && minY <= ey <= maxY
      requires curr.x == CellOf(x1) && curr.y == ey
      modifies `cells, `emitted, `curr, `drawn
      ensures Valid()
      ensures old(emitted) <= emitted
      ensures curr.x == CellOf(x2) && curr.y == ey
      ensures drawn == old(drawn) + Run(ey, x1, y1, x2, y2)
      ensures State() == GatherAll(old(State()), RunTrace(ey, x1, y1, x2, y2))
    {
      var ex1, ex2 := CellOf(x1), CellOf(x2);
      var fx1, fx2 := Frac(x1), Frac(x2);

      hide Valid, Gather, GatherAll;
      // a level run fills nothing
      if y1 == y2 {
        GatherOne(State(), Mark(ex2, ey));
        SetCurrCell(ex2, ey);
        return;
      }

      // a run that does not leave its cell
      hide Run, RunPrefix, StopHeight;
      if ex1 == ex2 {
        RunSingle(ey, x1, y1, x2, y2);
        var delta := y2 - y1;
        GatherOne(State(), Cell(ex2, ey, delta, (fx1 + fx2) * delta));
        Accumulate(delta, (fx1 + fx2) * delta);
        return;
      }

      // a run through neighbouring cells of the row
      var p := (SCALE - fx1) * (y2 - y1);
      var first, incr := SCALE, 1;
      var dx := x2 - x1;
      if dx < 0 {
        p := fx1 * (y2 - y1);
        first, incr, dx := 0, -1, -dx;
      }
      var delta, mod := FloorDivMod(p, dx);
      FirstHeight(x1, y1, x2, y2, p);
      RunFirst(ey, x1, y1, x2, y2, first);
      RunLast(ey, x1, y1, x2, y2, first);
      GatherOne(State(), Cell(ex1, ey, delta, (fx1 + first) * delta));
      Accumulate(delta, (fx1 + first) * delta);
      ex1 := ex1 + incr;
      SetCurrCell(ex1, ey);
      var y := y1 + delta;
      if ex1 != ex2 {
        y := RenderMiddle(ey, x1, y1, x2, y2, y, SCALE * (y2 - y + delta), dx, mod - dx, incr, old(drawn), old(State()));
      }
      delta := y2 - y;
      AddGathered(old(State()), RunPrefix(ey, x1, y1, x2, y2, Steps(x1, x2)), Cell(ex2, ey, delta, (fx2 + SCALE - first) * delta));
      Accumulate(delta, (fx2 + SCALE - first) * delta);
    }

    /** The inner cells of a run, from its second cell to its last but one. */
    method RenderMiddle(ey: int, x1: int, y1: int, x2: int, y2: int, yIn: int, p: int, dx: int, modIn: int, incr: int,
                        ghost before: seq<Cell>, ghost start: Gathering)
      returns (y: int)
      requires Valid() && minY <= ey <= maxY
      requires Steps(x1, x2) >= 1 && dx == Abs(x2 - x1) > 0 && p == SCALE * (y2 - y1)
      requires incr == if x2 >= x1 then 1 else -1
      requires yIn == StopHeight(x1, y1, x2, y2, 1) && modIn == Numerator(x1, x2, y2 - y1, 1) % dx - dx
      requires curr.x == Visit(x1, x2, 1) && curr.y == ey
      requires drawn == before + RunPrefix(ey, x1, y1, x2, y2, 1)
      requires State() == Gather(GatherAll(start, RunPrefix(ey, x1, y1, x2, y2, 1)), Mark(curr.x, ey))
      modifies `cells, `emitted, `curr, `drawn
      ensures Valid()
      ensures old(emitted) <= emitted
      ensures curr.x == CellOf(x2) && curr.y == ey
      ensures y == StopHeight(x1, y1, x2, y2, Steps(x1, x2))
      ensures drawn == before + RunPrefix(ey, x1, y1, x2, y2, Steps(x1, x2))
      ensures State() == Gather(GatherAll(start, RunPrefix(ey, x1, y1, x2, y2, Steps(x1, x2))), Mark(CellOf(x2), ey))
    {
      hide Valid, Gather, GatherAll;
      ghost var n, k := Steps(x1, x2), 1;
      var ex1, ex2, mod := CellOf(x1) + incr, CellOf(x2), modIn;
      var lift, rem := FloorDivMod(p, dx);
      y := yIn;
      while ex1 != ex2
        invariant Valid()
        invariant old(emitted) <= emitted
        invariant 1 <= k <= n && ex1 == Visit(x1, x2, k)
        invariant curr.x == ex1 && curr.y == ey
        invariant y == StopHeight(x1, y1, x2, y2, k)
        invariant mod == Numerator(x1, x2, y2 - y1, k) % dx - dx
        invariant drawn == before + RunPrefix(ey, x1, y1, x2, y2, k)
        invariant State() == Gather(GatherAll(start, RunPrefix(ey, x1, y1, x2, y2, k)), Mark(ex1, ey))
        decreases n - k
      {
        var delta := lift;
        mod := mod + rem;
        if mod >= 0 {
          mod := mod - dx;
          delta := delta + 1;
        }
        NextHeight(x1, y1, x2, y2, k, p, dx);
        AddGathered(start, RunPrefix(ey, x1, y1, x2, y2, k), Cell(ex1, ey, delta, SCALE * delta));
        Accumulate(delta, SCALE * delta);
        y := y + delta;
        ex1 := ex1 + incr;
        SetCurrCell(ex1, ey);
        k := k + 1;
      }
    }

    /** A vertical line: one cell per row, with the same area throughout, and the
        inner rows assigned rather than accumulated. */
    method RenderVertical(x: int, y1: int, y2: int)
      requires Valid() && CellOf(y1) != CellOf(y2)
      requires minY <= CellOf(y1) <= maxY && minY <= CellOf(y2) <= maxY
      requires curr.x == CellOf(x) && curr.y == CellOf(y1)
      modifies `cells, `emitted, `curr, `drawn
      ensures Valid()
      ensures old(emitted) <= emitted
      ensures drawn == old(drawn) + Rows(x, y1, x, y2)
      ensures State() == GatherAll(old(State()), PassTrace(x, y1, x, y2))
    {
      hide Run, RunTrace, RowsTrace, Gather, GatherAll;
      ghost var before, m := drawn, Steps(y1, y2);
      var ey1 := CellOf(y1);
      var twoFx := Frac(x) * 2;
      var first, incr := SCALE, 1;
      if y2 < y1 {
        first, incr := 0, -1;
      }
      VerticalRow(x, y1, y2, 0);
      FirstRowGathered(State(), x, y1, x, y2);
      AccumulateColumn(x, Frac(y1), first, twoFx);
      ey1 := ey1 + incr;
      SetCurrCell(CellOf(x), ey1);
      RowsStart(x, y1, x, y2);

      RenderInnerColumn(x, y1, y2, first, incr, twoFx, before, old(State()));
      VerticalRow(x, y1, y2, m);
      RowGathered(old(State()), x, y1, x, y2, m);
      AccumulateColumn(x, SCALE - first, Frac(y2), twoFx);
    }

    /** The inner cells of a vertical line. */
    method RenderInnerColumn(x: int, y1: int, y2: int, first: int, incr: int, twoFx: int, ghost before: seq<Cell>,
                             ghost start: Gathering)
      requires Valid() && minY <= CellOf(y1) <= maxY && minY <= CellOf(y2) <= maxY
      requires Steps(y1, y2) >= 1 && twoFx == 2 * Frac(x)
      requires if y2 >= y1 then incr == 1 && first == SCALE else incr == -1 && first == 0
      requires curr == Cell(CellOf(x), Visit(y1, y2, 1), 0, 0)
      requires drawn == before + RowsPrefix(x, y1, x, y2, 1)
      requires State() == Gather(GatherAll(start, RowsTrace(x, y1, x, y2, 1)), Mark(CellOf(x), Visit(y1, y2, 1)))
      modifies `cells, `emitted, `curr, `drawn
      ensures Valid()
      ensures old(emitted) <= emitted
      ensures curr == Cell(CellOf(x), CellOf(y2), 0, 0)
      ensures drawn == before + RowsPrefix(x, y1, x, y2, Steps(y1, y2))
      ensures State() == Gather(GatherAll(start, RowsTrace(x, y1, x, y2, Steps(y1, y2))), Mark(CellOf(x), CellOf(y2)))
    {
      hide Run, SamePicture, RunTrace, RowsTrace, Gather, GatherAll;
      ghost var m, k := Steps(y1, y2), 1;
      var ex, ey1, ey2 := CellOf(x), CellOf(y1) + incr, CellOf(y2);
      var delta := first + first - SCALE;
      var area := twoFx * delta;
      while ey1 != ey2
        invariant Valid()
        invariant old(emitted) <= emitted
        invariant 1 <= k <= m && ey1 == Visit(y1, y2, k)
        invariant curr == Cell(ex, ey1, 0, 0)
        invariant drawn == before + RowsPrefix(x, y1, x, y2, k)
        invariant State() == Gather(GatherAll(start, RowsTrace(x, y1, x, y2, k)), Mark(ex, ey1))
        decreases m - k
      {
        VerticalRow(x, y1, y2, k);
        RowGathered(start, x, y1, x, y2, k);
        AssignColumn(x, SCALE - first, first, area);
        ey1 := ey1 + incr;
        SetCurrCell(ex, ey1);
        k := k + 1;
      }
    }

    /** `curr_.cover += delta; curr_.area += two_fx * delta` for delta == to - from. */
    method AccumulateColumn(x: int, from: int, to: int, twoFx: int)
      requires Valid() && minY <= curr.y <= maxY && curr.x == CellOf(x) && twoFx == 2 * Frac(x)
      modifies `curr, `drawn
      ensures Valid()
      ensures curr == Cell(old(curr).x, old(curr).y, old(curr).cover + (to - from), old(curr).area + twoFx * (to - from))
      ensures drawn == old(drawn) + Run(curr.y, x, from, x, to)
      ensures State() == GatherAll(old(State()), RunTrace(curr.y, x, from, x, to))
    {
      ColumnRun(curr.y, x, from, to);
      var delta := to - from;
      ghost var was := drawn;
      GatherOne(State(), Cell(curr.x, curr.y, delta, twoFx * delta));
      Accumulate(delta, twoFx * delta);
      if from == to {
        drawn := was;
      }
    }

    /** `curr_.cover = delta; curr_.area = area` on a cell just entered. */
    method AssignColumn(x: int, from: int, to: int, area: int)
      requires Valid() && minY <= curr.y <= maxY && curr == Cell(CellOf(x), curr.y, 0, 0)
      requires from != to && area == 2 * Frac(x) * (to - from)
      modifies `curr, `drawn
      ensures Valid()
      ensures curr == Cell(old(curr).x, old(curr).y, to - from, area)
      ensures drawn == old(drawn) + Run(curr.y, x, from, x, to)
      ensures State() == GatherAll(old(State()), RunTrace(curr.y, x, from, x, to))
    {
      ColumnRun(curr.y, x, from, to);
      ghost var d := Cell(curr.x, curr.y, to - from, area);
      GatherOne(State(), d);
      curr := curr.(cover := to - from, area := area);
      SamePicturePush(emitted, emitted + [curr], drawn, old(curr), d);
      drawn := drawn + [d];
    }

    /** A line over several rows that is not vertical. */
    method RenderRows(x1: int, y1: int, x2: int, y2: int)
      requires Valid() && CellOf(y1) != CellOf(y2)
      requires minY <= CellOf(y1) <= maxY && minY <= CellOf(y2) <= maxY
      requires curr.x == CellOf(x1) && curr.y == CellOf(y1)
      modifies `cells, `emitted, `curr, `drawn
      ensures Valid()
      ensures old(emitted) <= emitted
      ensures drawn == old(drawn) + Rows(x1, y1, x2, y2)
      ensures State() == GatherAll(old(State()), PassTrace(x1, y1, x2, y2))
    {
      hide Run, SamePicture, Mul32, RunTrace, RowsTrace, Gather, GatherAll;
      ghost var before := drawn;
      var dx, dy := x2 - x1, y2 - y1;
      var ey1, ey2 := CellOf(y1), CellOf(y2);
      var p := Mul32(SCALE - Frac(y1), dx);
      var first, incr := SCALE, 1;
      if dy < 0 {
        p := Mul32(Frac(y1), dx);
        first, incr, dy := 0, -1, -dy;
      }
      var delta, mod := FloorDivMod(p, dy);
      FirstRowX(x1, y1, x2, y2);
      var xFrom := x1 + delta;
      FirstRowGathered(State(), x1, y1, x2, y2);
      RenderHline(ey1, x1, Frac(y1), xFrom, first);
      RowsStart(x1, y1, x2, y2);
      ey1 := ey1 + incr;
      SetCurrCell(CellOf(xFrom), ey1);

      if ey1 != ey2 {
        xFrom := RenderInnerRows(x1, y1, x2, y2, xFrom, Mul32(SCALE, dx), dy, mod - dy, first, incr, before, old(State()));
      }
      RowGathered(old(State()), x1, y1, x2, y2, Steps(y1, y2));
      RenderHline(ey2, xFrom, SCALE - first, x2, Frac(y2));
    }

    /** The inner rows of a line, from its second row to its last but one. */
    method RenderInnerRows(x1: int, y1: int, x2: int, y2: int, xIn: int, p: int, dy: int, modIn: int, first: int, incr: int,
                           ghost before: seq<Cell>, ghost start: Gathering)
      returns (xFrom: int)
      requires Valid() && minY <= CellOf(y1) <= maxY && minY <= CellOf(y2) <= maxY
      requires Steps(y1, y2) >= 1 && dy == Abs(y2 - y1) > 0 && p == Mul32(SCALE, x2 - x1)
      requires if y2 >= y1 then incr == 1 && first == SCALE else incr == -1 && first == 0
      requires xIn == RowX(x1, y1, x2, y2, 1) && modIn == RowNumerator(x1, y1, x2, y2, 1) % dy - dy
      requires curr.x == CellOf(xIn) && curr.y == Visit(y1, y2, 1)
      requires drawn == before + RowsPrefix(x1, y1, x2, y2, 1)
      requires State() == Gather(GatherAll(start, RowsTrace(x1, y1, x2, y2, 1)), Mark(curr.x, curr.y))
      modifies `cells, `emitted, `curr, `drawn
      ensures Valid()
      ensures old(emitted) <= emitted
      ensures curr.x == CellOf(xFrom) && curr.y == CellOf(y2)
      ensures xFrom == RowX(x1, y1, x2, y2, Steps(y1, y2))
      ensures drawn == before + RowsPrefix(x1, y1, x2, y2, Steps(y1, y2))
      ensures State() == Gather(GatherAll(start, RowsTrace(x1, y1, x2, y2, Steps(y1, y2))), Mark(curr.x, curr.y))
    {
      hide Run, SamePicture, RowNumerator, Mul32, RunTrace, RowsTrace, Gather, GatherAll;
      ghost var m, k := Steps(y1, y2), 1;
      var ey1, ey2, mod := CellOf(y1) + incr, CellOf(y2), modIn;
      var lift, rem := FloorDivMod(p, dy);
      xFrom := xIn;
      while ey1 != ey2
        invariant Valid()
        invariant old(emitted) <= emitted
        invariant 1 <= k <= m && ey1 == Visit(y1, y2, k)
        invariant xFrom == RowX(x1, y1, x2, y2, k)
        invariant mod == RowNumerator(x1, y1, x2, y2, k) % dy - dy
        invariant curr.x == CellOf(xFrom) && curr.y == ey1
        invariant drawn == before + RowsPrefix(x1, y1, x2, y2, k)
        invariant State() == Gather(GatherAll(start, RowsTrace(x1, y1, x2, y2, k)), Mark(curr.x, curr.y))
        decreases m - k
      {
        var delta := lift;
        mod := mod + rem;
        if mod >= 0 {
          mod := mod - dy;
          delta := delta + 1;
        }
        NextRowX(x1, y1, x2, y2, k, p, dy);
        var xTo := xFrom + delta;
        RowGathered(start, x1, y1, x2, y2, k);
        RenderHline(ey1, xFrom, SCALE - first, xTo, first);
        xFrom := xTo;
        ey1 := ey1 + incr;
        SetCurrCell(CellOf(xFrom), ey1);
        k := k + 1;
      }
    }

    /** Widens the bounding box to the cell (ex, ey). */
    method Include(ex: int, ey: int)
      requires Valid()
      modifies `minX, `minY, `maxX, `maxY
      ensures Valid()
      ensures minX == Min(old(minX), ex) && maxX == Max(old(maxX), ex)
      ensures minY == Min(old(minY), ey) && maxY == Max(old(maxY), ey)
    {
      if ex < minX { minX := ex; }
      if ex > maxX { maxX := ex; }
      if ey < minY { minY := ey; }
      if ey > maxY { maxY := ey; }
    }

    /** One pass over the line (x1, y1)-(x2, y2). */
    method DrawPass(x1: int, y1: int, x2: int, y2: int)
      requires Valid()
      modifies `cells, `emitted, `curr, `drawn, `minX, `minY, `maxX, `maxY
      ensures Valid()
      ensures old(emitted) <= emitted
      ensures drawn == old(drawn) + Rows(x1, y1, x2, y2)
      ensures State() == GatherAll(old(State()), PassTrace(x1, y1, x2, y2))
      ensures Bounds() == Widen(old(Bounds()), Segment(Point(x1, y1), Point(x2, y2)))
    {
      hide Valid, Gather, GatherAll, RunTrace, RowsTrace;
      EnterTwice(old(State()), x1, y1, x2, y2);
      var ey1, ey2 := CellOf(y1), CellOf(y2);
      Include(CellOf(x1), ey1);
      Include(CellOf(x2), ey2);
      SetCurrCell(CellOf(x1), ey1);
      if ey1 == ey2 {
        FirstRowGathered(State(), x1, y1, x2, y2);
        RenderHline(ey1, x1, Frac(y1), x2, Frac(y2));
        RowsStart(x1, y1, x2, y2);
      } else if x2 - x1 == 0 {
        RenderVertical(x1, y1, y2);
      } else {
        RenderRows(x1, y1, x2, y2);
      }
    }

    /** Draws the line (x1, y1)-(x2, y2). The recursion on a wide line does not
        return, so the line is drawn once more as a whole. */
    method Line(x1: int, y1: int, x2: int, y2: int)
      requires Valid()
      modifies `cells, `emitted, `curr, `drawn, `minX, `minY, `maxX, `maxY, `lines
      ensures Valid()
      ensures old(emitted) <= emitted
      ensures lines == old(lines) + [Segment(Point(x1, y1), Point(x2, y2))]
      ensures drawn == old(drawn) + LineCells(x1, y1, x2, y2)
      ensures Bounds() == Widen(old(Bounds()), Segment(Point(x1, y1), Point(x2, y2)))
      ensures State() == GatherAll(old(State()), LineTrace(x1, y1, x2, y2))
      ensures old(Traced()) && !sorted ==> Traced()
      decreases Abs(x2 - x1)
    {
      hide Rows, Valid, CellsOf, FrameOf, Widen, PassTrace, GatherAll, Gathered, FinishedCells, Alike;
      ghost var before, s := lines, Segment(Point(x1, y1), Point(x2, y2));
      WidenWhole(Bounds(), s, Point((x1 + x2) / 2, (y1 + y2) / 2));
      var dx := x2 - x1;
      if dx >= DX_LIMIT || dx <= -DX_LIMIT {
        var cx, cy := (x1 + x2) / 2, (y1 + y2) / 2;
        Line(x1, y1, cx, cy);
        Line(cx, cy, x2, y2);
        GatherAppend(old(State()), LineTrace(x1, y1, cx, cy), LineTrace(cx, cy, x2, y2));
        GatherAppend(old(State()), LineTrace(x1, y1, cx, cy) + LineTrace(cx, cy, x2, y2), PassTrace(x1, y1, x2, y2));
      }
      DrawPass(x1, y1, x2, y2);
      SetLines(before + [s]);
      CellsOfPush(before, s);
      FramePush(before, s);
      GatheredPush(old(State()), before, s);
    }

    ghost method SetLines(ss: seq<Segment>)
      requires Valid()
      modifies `lines
      ensures Valid() && lines == ss
    {
      lines := ss;
    }

    /** The sorted cells are the stored ones, row by row. */
    ghost predicate SortedValid()
      reads this
    {
      sorted ==> |rows| == maxY - minY + 1 && InRows(cells, minY, |rows|) && Sorted(cells, minY, rows, sortedCells)
    }

    /** Stores the pending cell and leaves none. */
    method FinishCell()
      requires Valid()
      modifies `cells, `emitted, `curr
      ensures Valid() && curr == INITIAL_CELL && old(emitted) <= emitted
      ensures old(Traced()) && !sorted ==> emitted == FinishedCells(lines) && cells == StoredCells(lines) && (cells == [] ==> Traced())
    {
      hide SamePicture, Gathered, CellsOf, FrameOf;
      AddCurrCell();
      curr := INITIAL_CELL;
      Flushed(old(emitted), old(curr), emitted, curr, drawn);
    }

    method SortCells()
      requires Valid() && SortedValid()
      modifies `cells, `emitted, `curr, `rows, `sortedCells, `sorted
      ensures Valid() && SortedValid()
      ensures old(sorted) ==> unchanged(this)
      ensures !old(sorted) ==> curr == INITIAL_CELL && sorted == (cells != [])
      ensures old(emitted) <= emitted
      ensures old(Traced()) ==> Traced() && cells == StoredCells(lines)
    {
      hide FinishedCells, CellsOf, FrameOf, Gathered, Alike, Sorted, InRows, SamePicture, Finished;
      if sorted {
        return; // already in order
      }
      FinishCell();
      if |cells| == 0 {
        return;
      }
      OrderCells();
    }

    /** The counting sort by rows, then each row by x. */
    method OrderCells()
      requires Valid() && cells != []
      modifies `rows, `sortedCells, `sorted
      ensures Valid() && SortedValid() && sorted
    {
      hide SamePicture, Sorted, RowOf;
      assert minY <= emitted[0].y <= maxY;
      rows := CountRows(cells, minY, maxY - minY + 1);
      rows := StartRows(rows, cells, minY);
      rows, sortedCells := Distribute(cells, minY, rows);
      sortedCells := SortRows(cells, minY, rows, sortedCells);
      sorted := true;
    }

    /** `scanline_cells(y)`, `scanline_num_cells(y)` of them. */
    function ScanlineCells(y: int): (s: seq<Cell>)
      requires sorted && SortedValid() && minY <= y <= maxY
      reads this
      ensures multiset(s) == multiset(RowOf(cells, y)) && SortedByX(s)
    {
      hide Below, InRows, SortedByX, RowOf;
      assert RowSorted(cells, minY, y - minY, rows[y - minY], sortedCells);
      sortedCells[rows[y - minY].start..rows[y - minY].start + rows[y - minY].num]
    }
  }
}
