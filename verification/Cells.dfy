/** What a line contributes to the cell grid, stated from geometry: which cells
    it touches and the exact cover and area it adds to each. The rasteriser's
    loops (module CellRasterizers) are proved to draw exactly this list. */
module Cells {
  import opened CArith

  const SCALE := 256
  const DX_LIMIT := 16384 * 256
  const ROW_UNIT := 256

  datatype Cell = Cell(x: int, y: int, cover: int, area: int)

  /** The cell a coordinate lies in (`v >> poly_subpixel_shift`). */
  function CellOf(v: int): int {
    v / SCALE
  }

  /** The position inside that cell (`v & poly_subpixel_mask`). */
  function Frac(v: int): (f: int)
    ensures 0 <= f < SCALE && v == SCALE * CellOf(v) + f
  {
    v % SCALE
  }

  // ----- sums over a list of cells

  /** Total cover of row y at or left of x. */
  ghost function Left(s: seq<Cell>, x: int, y: int): int {
    if s == [] then 0
    else
      var c := s[|s| - 1];
      Left(s[..|s| - 1], x, y) + (if c.y == y && c.x <= x then c.cover else 0)
  }

  /** Total area of cell (x, y). */
  ghost function AreaAt(s: seq<Cell>, x: int, y: int): int {
    if s == [] then 0
    else
      var c := s[|s| - 1];
      AreaAt(s[..|s| - 1], x, y) + (if c.y == y && c.x == x then c.area else 0)
  }

  /** Total cover of row y. */
  ghost function RowCover(s: seq<Cell>, y: int): int {
    if s == [] then 0
    else
      var c := s[|s| - 1];
      RowCover(s[..|s| - 1], y) + (if c.y == y then c.cover else 0)
  }

  lemma SumsPush(s: seq<Cell>, c: Cell, x: int, y: int)
    ensures Left(s + [c], x, y) == Left(s, x, y) + (if c.y == y && c.x <= x then c.cover else 0)
    ensures AreaAt(s + [c], x, y) == AreaAt(s, x, y) + (if c.y == y && c.x == x then c.area else 0)
    ensures RowCover(s + [c], y) == RowCover(s, y) + (if c.y == y then c.cover else 0)
  {
    assert (s + [c])[..|s|] == s;
  }

  lemma {:induction false} SumsConcat(s: seq<Cell>, t: seq<Cell>, x: int, y: int)
    ensures Left(s + t, x, y) == Left(s, x, y) + Left(t, x, y)
    ensures AreaAt(s + t, x, y) == AreaAt(s, x, y) + AreaAt(t, x, y)
    ensures RowCover(s + t, y) == RowCover(s, y) + RowCover(t, y)
    decreases |t|
  {
    if t == [] {
      assert s + t == s;
    } else {
      var t', c := t[..|t| - 1], t[|t| - 1];
      assert t == t' + [c] && s + t == (s + t') + [c];
      SumsConcat(s, t', x, y);
      SumsPush(s + t', c, x, y);
      SumsPush(t', c, x, y);
    }
  }

  /** Two lists of cells draw the same picture. */
  ghost predicate SamePicture(s: seq<Cell>, t: seq<Cell>) {
    forall x, y :: Left(s, x, y) == Left(t, x, y) && AreaAt(s, x, y) == AreaAt(t, x, y)
  }

  lemma SamePicturePush(s: seq<Cell>, s': seq<Cell>, t: seq<Cell>, c: Cell, d: Cell)
    requires SamePicture(s + [c], t)
    requires c.x == d.x && c.y == d.y && s' == s + [Cell(c.x, c.y, c.cover + d.cover, c.area + d.area)]
    ensures SamePicture(s', t + [d])
  {
    forall x, y
      ensures Left(s', x, y) == Left(t + [d], x, y) && AreaAt(s', x, y) == AreaAt(t + [d], x, y)
    {
      SumsPush(s, c, x, y);
      SumsPush(s, s'[|s|], x, y);
      SumsPush(t, d, x, y);
      assert Left(s + [c], x, y) == Left(t, x, y);
    }
  }

  lemma {:induction false} LeftIsRowCover(s: seq<Cell>, x: int, y: int)
    requires forall i :: 0 <= i < |s| ==> s[i].x <= x
    ensures Left(s, x, y) == RowCover(s, y)
    decreases |s|
  {
    if s != [] {
      LeftIsRowCover(s[..|s| - 1], x, y);
    }
  }

  lemma {:induction false} UpperBoundX(s: seq<Cell>) returns (hi: int)
    ensures forall i :: 0 <= i < |s| ==> s[i].x <= hi
    decreases |s|
  {
    if s == [] {
      hi := 0;
    } else {
      hi := UpperBoundX(s[..|s| - 1]);
      hi := Max(hi, s[|s| - 1].x);
    }
  }

  lemma SamePictureRowCover(s: seq<Cell>, t: seq<Cell>, y: int)
    requires SamePicture(s, t)
    ensures RowCover(s, y) == RowCover(t, y)
  {
    var a := UpperBoundX(s);
    var b := UpperBoundX(t);
    LeftIsRowCover(s, Max(a, b), y);
    LeftIsRowCover(t, Max(a, b), y);
  }

  // ----- one horizontal run, inside one row

  /** Height of the segment (x1, y1)-(x2, y2) above y1's level at abscissa x,
      rounded down: y1 + floor(|x - x1| (y2 - y1) / |x2 - x1|). */
  function Crossing(x1: int, y1: int, x2: int, y2: int, x: int): int
    requires x1 != x2
  {
    y1 + Abs(x - x1) * (y2 - y1) / Abs(x2 - x1)
  }

  /** How many cell boundaries lie between a and b. */
  function Steps(a: int, b: int): nat {
    Abs(CellOf(b) - CellOf(a))
  }

  /** The k-th cell of the walk from a to b. */
  function Visit(a: int, b: int, k: int): int {
    if b >= a then CellOf(a) + k else CellOf(a) - k
  }

  /** The k-th point at which the walk from a to b changes cell; a and b
      themselves at the two ends. */
  function Stop(a: int, b: int, k: int): int
    requires 0 <= k <= Steps(a, b) + 1
  {
    if k == 0 then a
    else if k == Steps(a, b) + 1 then b
    else if b >= a then SCALE * (CellOf(a) + k)
    else SCALE * (CellOf(a) - k + 1)
  }

  /** Height of the segment at the k-th stop. */
  function StopHeight(x1: int, y1: int, x2: int, y2: int, k: int): int
    requires 0 <= k <= Steps(x1, x2) + 1
  {
    if k == 0 then y1
    else if k == Steps(x1, x2) + 1 then y2
    else Crossing(x1, y1, x2, y2, Stop(x1, x2, k))
  }

  /** Where in its cell the walk enters, on its k-th cell. */
  function Entry(a: int, b: int, k: int): int {
    if k == 0 then Frac(a) else if b >= a then 0 else SCALE
  }

  /** Where in its cell the walk leaves, on its k-th cell. */
  function Exit(a: int, b: int, k: int): int {
    if k == Steps(a, b) then Frac(b) else if b >= a then SCALE else 0
  }

  /** The contribution of the k-th cell of a run in row ey. */
  function RunCell(ey: int, x1: int, y1: int, x2: int, y2: int, k: int): Cell
    requires 0 <= k <= Steps(x1, x2)
  {
    var cover := StopHeight(x1, y1, x2, y2, k + 1) - StopHeight(x1, y1, x2, y2, k);
    Cell(Visit(x1, x2, k), ey, cover, (Entry(x1, x2, k) + Exit(x1, x2, k)) * cover)
  }

  function RunPrefix(ey: int, x1: int, y1: int, x2: int, y2: int, k: nat): seq<Cell>
    requires k <= Steps(x1, x2) + 1
  {
    if k == 0 then [] else RunPrefix(ey, x1, y1, x2, y2, k - 1) + [RunCell(ey, x1, y1, x2, y2, k - 1)]
  }

  /** The cells of a run from (x1, y1) to (x2, y2) inside row ey. A run that
      does not rise covers nothing. */
  function Run(ey: int, x1: int, y1: int, x2: int, y2: int): seq<Cell> {
    if y1 == y2 then [] else RunPrefix(ey, x1, y1, x2, y2, Steps(x1, x2) + 1)
  }

  // ----- a whole line, row by row

  predicate Wide(x1: int, x2: int) {
    x2 - x1 >= DX_LIMIT || x2 - x1 <= -DX_LIMIT
  }

  /** Numerator of the k-th row crossing, from the wrapped 32-bit products the
      code forms. */
  function RowNumerator(x1: int, y1: int, x2: int, y2: int, k: int): int {
    Mul32(if y2 >= y1 then SCALE - Frac(y1) else Frac(y1), x2 - x1) + (k - 1) * Mul32(SCALE, x2 - x1)
  }

  /** Abscissa of the line at the k-th stop of its walk down the rows. */
  function RowX(x1: int, y1: int, x2: int, y2: int, k: int): int
    requires 0 <= k <= Steps(y1, y2) + 1
  {
    if k == 0 then x1
    else if k == Steps(y1, y2) + 1 then x2
    else x1 + RowNumerator(x1, y1, x2, y2, k) / Abs(y2 - y1)
  }

  function RowRun(x1: int, y1: int, x2: int, y2: int, k: int): seq<Cell>
    requires 0 <= k <= Steps(y1, y2)
  {
    Run(Visit(y1, y2, k),
        RowX(x1, y1, x2, y2, k), Entry(y1, y2, k),
        RowX(x1, y1, x2, y2, k + 1), Exit(y1, y2, k))
  }

  function RowsPrefix(x1: int, y1: int, x2: int, y2: int, k: nat): seq<Cell>
    requires k <= Steps(y1, y2) + 1
  {
    if k == 0 then [] else RowsPrefix(x1, y1, x2, y2, k - 1) + RowRun(x1, y1, x2, y2, k - 1)
  }

  /** One pass over the line, whatever its width. */
  function Rows(x1: int, y1: int, x2: int, y2: int): seq<Cell> {
    RowsPrefix(x1, y1, x2, y2, Steps(y1, y2) + 1)
  }

  /** Everything `line` draws: a wide line is drawn by halves and then, because
      the recursion does not return, once more as a whole. */
  function LineCells(x1: int, y1: int, x2: int, y2: int): seq<Cell>
    decreases Abs(x2 - x1)
  {
    if Wide(x1, x2) then
      var cx, cy := (x1 + x2) / 2, (y1 + y2) / 2;
      LineCells(x1, y1, cx, cy) + LineCells(cx, cy, x2, y2) + Rows(x1, y1, x2, y2)
    else Rows(x1, y1, x2, y2)
  }

  // ----- the cells a line visits, in order

  /** A visit that adds nothing. */
  function Mark(x: int, y: int): Cell {
    Cell(x, y, 0, 0)
  }

  /** What a run does to the cells it visits: one that does not rise only moves on to
      its last. */
  function RunTrace(ey: int, x1: int, y1: int, x2: int, y2: int): seq<Cell> {
    if y1 == y2 then [Mark(CellOf(x2), ey)] else Run(ey, x1, y1, x2, y2)
  }

  /** Each row is entered at its first cell. */
  function RowTrace(x1: int, y1: int, x2: int, y2: int, k: int): seq<Cell>
    requires 0 <= k <= Steps(y1, y2)
  {
    var ey := Visit(y1, y2, k);
    [Mark(CellOf(RowX(x1, y1, x2, y2, k)), ey)]
    + RunTrace(ey, RowX(x1, y1, x2, y2, k), Entry(y1, y2, k), RowX(x1, y1, x2, y2, k + 1), Exit(y1, y2, k))
  }

  function RowsTrace(x1: int, y1: int, x2: int, y2: int, k: nat): seq<Cell>
    requires k <= Steps(y1, y2) + 1
  {
    if k == 0 then [] else RowsTrace(x1, y1, x2, y2, k - 1) + RowTrace(x1, y1, x2, y2, k - 1)
  }

  /** One pass over the line. */
  function PassTrace(x1: int, y1: int, x2: int, y2: int): seq<Cell> {
    RowsTrace(x1, y1, x2, y2, Steps(y1, y2) + 1)
  }

  function LineTrace(x1: int, y1: int, x2: int, y2: int): seq<Cell>
    decreases Abs(x2 - x1)
  {
    if Wide(x1, x2) then
      var cx, cy := (x1 + x2) / 2, (y1 + y2) / 2;
      LineTrace(x1, y1, cx, cy) + LineTrace(cx, cy, x2, y2) + PassTrace(x1, y1, x2, y2)
    else PassTrace(x1, y1, x2, y2)
  }

  /** The visits add up to the cells. */
  ghost predicate SameSums(s: seq<Cell>, t: seq<Cell>, x: int, y: int) {
    Left(s, x, y) == Left(t, x, y) && AreaAt(s, x, y) == AreaAt(t, x, y)
  }

  lemma SameSumsAppend(s: seq<Cell>, s': seq<Cell>, t: seq<Cell>, t': seq<Cell>, x: int, y: int)
    requires SameSums(s, t, x, y) && SameSums(s', t', x, y)
    ensures SameSums(s + s', t + t', x, y)
  {
    SumsConcat(s, s', x, y);
    SumsConcat(t, t', x, y);
  }

  lemma MarkSums(s: seq<Cell>, m: Cell, x: int, y: int)
    requires m.cover == 0 && m.area == 0
    ensures SameSums(s + [m], s, x, y) && SameSums([m], [], x, y) && SameSums([m] + s, s, x, y)
  {
    SumsPush(s, m, x, y);
    SumsPush([], m, x, y);
    assert [] + [m] == [m];
    SumsConcat([m], s, x, y);
  }

  lemma RowTraceSums(x1: int, y1: int, x2: int, y2: int, k: nat, x: int, y: int)
    requires k <= Steps(y1, y2)
    ensures SameSums(RowTrace(x1, y1, x2, y2, k), RowRun(x1, y1, x2, y2, k), x, y)
  {
    var ey := Visit(y1, y2, k);
    var a, b := RowX(x1, y1, x2, y2, k), RowX(x1, y1, x2, y2, k + 1);
    var run := RunTrace(ey, a, Entry(y1, y2, k), b, Exit(y1, y2, k));
    hide Run, RowX, Left, AreaAt;
    MarkSums(run, Mark(CellOf(a), ey), x, y);
    MarkSums([], Mark(CellOf(b), ey), x, y);
  }

  lemma {:induction false} RowsTraceSums(x1: int, y1: int, x2: int, y2: int, k: nat, x: int, y: int)
    requires k <= Steps(y1, y2) + 1
    ensures SameSums(RowsTrace(x1, y1, x2, y2, k), RowsPrefix(x1, y1, x2, y2, k), x, y)
  {
    hide *;
    RowsUnfold(x1, y1, x2, y2, k, x, y);
    if k > 0 {
      RowsTraceSums(x1, y1, x2, y2, k - 1, x, y);
      RowTraceSums(x1, y1, x2, y2, k - 1, x, y);
      SameSumsAppend(RowsTrace(x1, y1, x2, y2, k - 1), RowTrace(x1, y1, x2, y2, k - 1),
                     RowsPrefix(x1, y1, x2, y2, k - 1), RowRun(x1, y1, x2, y2, k - 1), x, y);
    }
  }

  lemma RowsUnfold(x1: int, y1: int, x2: int, y2: int, k: nat, x: int, y: int)
    requires k <= Steps(y1, y2) + 1
    ensures k > 0 ==> RowsTrace(x1, y1, x2, y2, k) == RowsTrace(x1, y1, x2, y2, k - 1) + RowTrace(x1, y1, x2, y2, k - 1)
    ensures k > 0 ==> RowsPrefix(x1, y1, x2, y2, k) == RowsPrefix(x1, y1, x2, y2, k - 1) + RowRun(x1, y1, x2, y2, k - 1)
    ensures k == 0 ==> SameSums(RowsTrace(x1, y1, x2, y2, k), RowsPrefix(x1, y1, x2, y2, k), x, y)
  {
    hide RowTrace, RowRun;
  }

  lemma {:induction false} LineTraceSums(x1: int, y1: int, x2: int, y2: int, x: int, y: int)
    ensures SameSums(LineTrace(x1, y1, x2, y2), LineCells(x1, y1, x2, y2), x, y)
    decreases Abs(x2 - x1)
  {
    hide SameSums, RowsTrace, RowsPrefix;
    RowsTraceSums(x1, y1, x2, y2, Steps(y1, y2) + 1, x, y);
    if Wide(x1, x2) {
      var cx, cy := (x1 + x2) / 2, (y1 + y2) / 2;
      LineTraceSums(x1, y1, cx, cy, x, y);
      LineTraceSums(cx, cy, x2, y2, x, y);
      SameSumsAppend(LineTrace(x1, y1, cx, cy), LineTrace(cx, cy, x2, y2), LineCells(x1, y1, cx, cy), LineCells(cx, cy, x2, y2), x, y);
      SameSumsAppend(LineTrace(x1, y1, cx, cy) + LineTrace(cx, cy, x2, y2), PassTrace(x1, y1, x2, y2),
                     LineCells(x1, y1, cx, cy) + LineCells(cx, cy, x2, y2), Rows(x1, y1, x2, y2), x, y);
    }
  }

  // ----- gathering visits into cells

  predicate IsZero(c: Cell) {
    c.cover == 0 && c.area == 0
  }

  /** The cells finished so far, and the one being filled. */
  datatype Gathering = Gathering(done: seq<Cell>, curr: Cell)

  /** One visit: what stays in the current cell is added to it; another cell finishes
      the current one, which is kept unless it is empty. */
  function Gather(g: Gathering, d: Cell): Gathering {
    if d.x == g.curr.x && d.y == g.curr.y then
      g.(curr := Cell(d.x, d.y, g.curr.cover + d.cover, g.curr.area + d.area))
    else Gathering(Finished(g), d)
  }

  /** All the cells, the current one too unless it is empty. */
  function Finished(g: Gathering): seq<Cell> {
    if IsZero(g.curr) then g.done else g.done + [g.curr]
  }

  function GatherAll(g: Gathering, trace: seq<Cell>): Gathering {
    if trace == [] then g else Gather(GatherAll(g, trace[..|trace| - 1]), trace[|trace| - 1])
  }

  lemma GatherPush(g: Gathering, trace: seq<Cell>, d: Cell)
    ensures GatherAll(g, trace + [d]) == Gather(GatherAll(g, trace), d)
  {
    assert (trace + [d])[..|trace|] == trace;
  }

  lemma GatherOne(g: Gathering, d: Cell)
    ensures GatherAll(g, [d]) == Gather(g, d)
  {
    GatherPush(g, [], d);
    assert [] + [d] == [d];
  }

  lemma {:induction false} GatherAppend(g: Gathering, a: seq<Cell>, b: seq<Cell>)
    ensures GatherAll(g, a + b) == GatherAll(GatherAll(g, a), b)
    decreases |b|
  {
    if b == [] {
      assert a + b == a;
    } else {
      assert a + b == (a + b[..|b| - 1]) + [b[|b| - 1]];
      GatherPush(g, a + b[..|b| - 1], b[|b| - 1]);
      GatherAppend(g, a, b[..|b| - 1]);
    }
  }

  /** Entering a cell before adding to it changes nothing. */
  lemma MarkThenAdd(g: Gathering, d: Cell)
    ensures Gather(Gather(g, Mark(d.x, d.y)), d) == Gather(g, d)
    ensures d.x == g.curr.x && d.y == g.curr.y ==> Gather(g, Mark(d.x, d.y)) == g
  {
  }

  /** Where the current cell is empty, it does not matter where it lies. */
  predicate Alike(g: Gathering, h: Gathering) {
    g.done == h.done && (g.curr == h.curr || (IsZero(g.curr) && IsZero(h.curr)))
  }

  lemma {:induction false} GatherAlike(g: Gathering, h: Gathering, trace: seq<Cell>)
    requires Alike(g, h)
    ensures Alike(GatherAll(g, trace), GatherAll(h, trace)) && Finished(g) == Finished(h)
    decreases |trace|
  {
    if trace != [] {
      GatherAlike(g, h, trace[..|trace| - 1]);
    }
  }

  lemma FinishedSums(g: Gathering, x: int, y: int)
    ensures SameSums(Finished(g), g.done + [g.curr], x, y)
  {
    if IsZero(g.curr) {
      MarkSums(g.done, g.curr, x, y);
    }
  }

  /** Gathering neither loses nor adds anything. */
  lemma {:induction false} GatherSums(g: Gathering, trace: seq<Cell>, x: int, y: int)
    ensures SameSums(Finished(GatherAll(g, trace)), Finished(g) + trace, x, y)
    decreases |trace|
  {
    if trace == [] {
      assert Finished(g) + trace == Finished(g);
    } else {
      hide Left, AreaAt, GatherAll, Gather, Finished;
      var t, d := trace[..|trace| - 1], trace[|trace| - 1];
      GatherSums(g, t, x, y);
      GatherPush(g, t, d);
      GatherStep(GatherAll(g, t), d, x, y);
      SameSumsAppend(Finished(GatherAll(g, t)), [d], Finished(g) + t, [d], x, y);
      assert trace == t + [d] && Finished(g) + trace == (Finished(g) + t) + [d];
    }
  }

  lemma GatherStep(h: Gathering, d: Cell, x: int, y: int)
    ensures SameSums(Finished(Gather(h, d)), Finished(h) + [d], x, y)
  {
    hide Left, AreaAt, Finished;
    var k := Gather(h, d);
    FinishedSums(k, x, y);
    if d.x == h.curr.x && d.y == h.curr.y {
      FinishedSums(h, x, y);
      SumsPush(Finished(h), d, x, y);
      SumsPush(h.done, h.curr, x, y);
      SumsPush(h.done, k.curr, x, y);
    }
  }

  // ----- how many cells there are

  /** How many of the visits add something. */
  function Filled(s: seq<Cell>): nat {
    if s == [] then 0 else Filled(s[..|s| - 1]) + if IsZero(s[|s| - 1]) then 0 else 1
  }

  lemma {:induction false} FilledAppend(s: seq<Cell>, t: seq<Cell>)
    ensures Filled(s + t) == Filled(s) + Filled(t)
    decreases |t|
  {
    if t == [] {
      assert s + t == s;
    } else {
      assert (s + t)[..|s + t| - 1] == s + t[..|t| - 1];
      FilledAppend(s, t[..|t| - 1]);
    }
  }

  lemma {:induction false} FilledMost(s: seq<Cell>)
    ensures Filled(s) <= |s|
    decreases |s|
  {
    if s != [] {
      FilledMost(s[..|s| - 1]);
    }
  }

  /** A visit finishes at most one cell, and none if it adds nothing. */
  lemma {:induction false} GatherFew(g: Gathering, trace: seq<Cell>)
    ensures |Finished(GatherAll(g, trace))| <= |Finished(g)| + Filled(trace)
    decreases |trace|
  {
    if trace != [] {
      GatherFew(g, trace[..|trace| - 1]);
    }
  }

  lemma {:induction false} RowsFilled(x1: int, y1: int, x2: int, y2: int, k: nat)
    requires k <= Steps(y1, y2) + 1
    ensures Filled(RowsTrace(x1, y1, x2, y2, k)) <= |RowsPrefix(x1, y1, x2, y2, k)|
  {
    hide Run, RowX, Visit, Entry, Exit, CellOf, Steps, Filled;
    if k == 0 {
      FilledMost([]);
    } else {
      RowsFilled(x1, y1, x2, y2, k - 1);
      var ey, a, b := Visit(y1, y2, k - 1), RowX(x1, y1, x2, y2, k - 1), RowX(x1, y1, x2, y2, k);
      var run := RunTrace(ey, a, Entry(y1, y2, k - 1), b, Exit(y1, y2, k - 1));
      FilledAppend(RowsTrace(x1, y1, x2, y2, k - 1), RowTrace(x1, y1, x2, y2, k - 1));
      FilledAppend([Mark(CellOf(a), ey)], run);
      FilledMark(CellOf(a), ey);
      FilledMark(CellOf(b), ey);
      FilledMost(run);
    }
  }

  lemma FilledMark(x: int, y: int)
    ensures Filled([Mark(x, y)]) == 0
  {
    assert [Mark(x, y)][..0] == [];
  }

  /** No line visits more cells to any effect than it contributes to. */
  lemma {:induction false} LineFilled(x1: int, y1: int, x2: int, y2: int)
    ensures Filled(LineTrace(x1, y1, x2, y2)) <= |LineCells(x1, y1, x2, y2)|
    decreases Abs(x2 - x1)
  {
    hide Filled, RowsTrace, RowsPrefix;
    RowsFilled(x1, y1, x2, y2, Steps(y1, y2) + 1);
    if Wide(x1, x2) {
      var cx, cy := (x1 + x2) / 2, (y1 + y2) / 2;
      LineFilled(x1, y1, cx, cy);
      LineFilled(cx, cy, x2, y2);
      FilledAppend(LineTrace(x1, y1, cx, cy), LineTrace(cx, cy, x2, y2));
      FilledAppend(LineTrace(x1, y1, cx, cy) + LineTrace(cx, cy, x2, y2), PassTrace(x1, y1, x2, y2));
    }
  }

  // ----- where they are

  /** Every visit that adds something is one of the contributions. */
  ghost predicate Contributed(trace: seq<Cell>, cells: seq<Cell>) {
    forall d <- trace :: IsZero(d) || d in cells
  }

  lemma ContributedAppend(s: seq<Cell>, s': seq<Cell>, t: seq<Cell>, t': seq<Cell>)
    requires Contributed(s, t) && Contributed(s', t')
    ensures Contributed(s + s', t + t')
  {
  }

  lemma {:induction false} RowsContributed(x1: int, y1: int, x2: int, y2: int, k: nat)
    requires k <= Steps(y1, y2) + 1
    ensures Contributed(RowsTrace(x1, y1, x2, y2, k), RowsPrefix(x1, y1, x2, y2, k))
  {
    hide Run, RowX, Visit, Entry, Exit, CellOf, Steps;
    if k > 0 {
      RowsContributed(x1, y1, x2, y2, k - 1);
      RowContributed(x1, y1, x2, y2, k - 1);
      ContributedAppend(RowsTrace(x1, y1, x2, y2, k - 1), RowTrace(x1, y1, x2, y2, k - 1),
                        RowsPrefix(x1, y1, x2, y2, k - 1), RowRun(x1, y1, x2, y2, k - 1));
    }
  }

  lemma RowContributed(x1: int, y1: int, x2: int, y2: int, k: nat)
    requires k <= Steps(y1, y2)
    ensures Contributed(RowTrace(x1, y1, x2, y2, k), RowRun(x1, y1, x2, y2, k))
  {
    hide RunPrefix, RowX, Visit, Entry, Exit, CellOf, Steps;
  }

  lemma {:induction false} LineContributed(x1: int, y1: int, x2: int, y2: int)
    ensures Contributed(LineTrace(x1, y1, x2, y2), LineCells(x1, y1, x2, y2))
    decreases Abs(x2 - x1)
  {
    hide Contributed, RowsTrace, RowsPrefix;
    RowsContributed(x1, y1, x2, y2, Steps(y1, y2) + 1);
    if Wide(x1, x2) {
      var cx, cy := (x1 + x2) / 2, (y1 + y2) / 2;
      LineContributed(x1, y1, cx, cy);
      LineContributed(cx, cy, x2, y2);
      ContributedAppend(LineTrace(x1, y1, cx, cy), LineTrace(cx, cy, x2, y2), LineCells(x1, y1, cx, cy), LineCells(cx, cy, x2, y2));
      ContributedAppend(LineTrace(x1, y1, cx, cy) + LineTrace(cx, cy, x2, y2), PassTrace(x1, y1, x2, y2),
                        LineCells(x1, y1, cx, cy) + LineCells(cx, cy, x2, y2), Rows(x1, y1, x2, y2));
    }
  }

  /** A cell some contribution was drawn in. */
  ghost predicate Touched(c: Cell, drawn: seq<Cell>) {
    exists d <- drawn :: d.x == c.x && d.y == c.y
  }

  /** Cells are gathered where something was contributed. */
  ghost predicate AllTouched(g: Gathering, drawn: seq<Cell>) {
    (forall c <- g.done :: Touched(c, drawn)) && (IsZero(g.curr) || Touched(g.curr, drawn))
  }

  lemma {:induction false} GatherTouched(g: Gathering, trace: seq<Cell>, drawn: seq<Cell>)
    requires Contributed(trace, drawn) && AllTouched(g, drawn)
    ensures AllTouched(GatherAll(g, trace), drawn)
    decreases |trace|
  {
    if trace != [] {
      GatherTouched(g, trace[..|trace| - 1], drawn);
      var h, d := GatherAll(g, trace[..|trace| - 1]), trace[|trace| - 1];
      assert d in trace;
      TouchedStep(h, d, drawn);
    }
  }

  lemma TouchedStep(h: Gathering, d: Cell, drawn: seq<Cell>)
    requires AllTouched(h, drawn) && (IsZero(d) || d in drawn)
    ensures AllTouched(Gather(h, d), drawn)
  {
  }

  // ----- the cover a line adds to a row

  /** The part of v's height that falls in row r. */
  function InRow(v: int, r: int): int {
    Clamp(v, ROW_UNIT * r, ROW_UNIT * r + ROW_UNIT)
  }

  lemma NoCover(r: int)
    ensures RowCover([], r) == 0
  {
  }

  lemma FirstStop(x1: int, y1: int, x2: int, y2: int)
    ensures StopHeight(x1, y1, x2, y2, 0) == y1 && Stop(x1, x2, 0) == x1
  {
  }

  lemma {:induction false} RunPrefixCover(ey: int, x1: int, y1: int, x2: int, y2: int, k: nat, r: int)
    requires k <= Steps(x1, x2) + 1
    ensures RowCover(RunPrefix(ey, x1, y1, x2, y2, k), r) ==
            if r == ey then StopHeight(x1, y1, x2, y2, k) - y1 else 0
  {
    hide StopHeight, Steps, Visit, Entry, Exit;
    if k == 0 {
      FirstStop(x1, y1, x2, y2);
    } else {
      RunPrefixCover(ey, x1, y1, x2, y2, k - 1, r);
      SumsPush(RunPrefix(ey, x1, y1, x2, y2, k - 1), RunCell(ey, x1, y1, x2, y2, k - 1), 0, r);
    }
  }

  /** A run adds exactly its rise to its own row, however its cells round. */
  lemma RunCover(ey: int, x1: int, y1: int, x2: int, y2: int, r: int)
    ensures RowCover(Run(ey, x1, y1, x2, y2), r) == if r == ey then y2 - y1 else 0
  {
    RunPrefixCover(ey, x1, y1, x2, y2, Steps(x1, x2) + 1, r);
  }

  /** The k-th cell of a walk, and where its two ends lie. */
  lemma StopsInCell(a: int, b: int, k: int)
    requires 0 <= k <= Steps(a, b)
    ensures var e := Visit(a, b, k);
            && Stop(a, b, k) == SCALE * e + Entry(a, b, k)
            && Stop(a, b, k + 1) == SCALE * e + Exit(a, b, k)
    ensures 0 <= Entry(a, b, k) <= SCALE && 0 <= Exit(a, b, k) <= SCALE
  {
  }

  /** Moving inside one row changes only that row's share. */
  lemma InRowStep(e: int, from: int, to: int, r: int)
    requires 0 <= from <= SCALE && 0 <= to <= SCALE
    ensures InRow(SCALE * e + to, r) - InRow(SCALE * e + from, r) == if r == e then to - from else 0
  {
  }

  lemma RowRunCover(x1: int, y1: int, x2: int, y2: int, k: nat, r: int)
    requires k <= Steps(y1, y2)
    ensures RowCover(RowRun(x1, y1, x2, y2, k), r) == InRow(Stop(y1, y2, k + 1), r) - InRow(Stop(y1, y2, k), r)
  {
    var ey := Visit(y1, y2, k);
    RunCover(ey, RowX(x1, y1, x2, y2, k), Entry(y1, y2, k),
             RowX(x1, y1, x2, y2, k + 1), Exit(y1, y2, k), r);
    StopsInCell(y1, y2, k);
    InRowStep(ey, Entry(y1, y2, k), Exit(y1, y2, k), r);
  }

  lemma {:induction false} RowsPrefixCover(x1: int, y1: int, x2: int, y2: int, k: nat, r: int)
    requires k <= Steps(y1, y2) + 1
    ensures RowCover(RowsPrefix(x1, y1, x2, y2, k), r) == InRow(Stop(y1, y2, k), r) - InRow(y1, r)
  {
    hide RowCover, RowRun, Stop, InRow, Steps;
    if k == 0 {
      FirstStop(y1, 0, y2, 0);
      NoCover(r);
    } else {
      RowsPrefixCover(x1, y1, x2, y2, k - 1, r);
      SumsConcat(RowsPrefix(x1, y1, x2, y2, k - 1), RowRun(x1, y1, x2, y2, k - 1), 0, r);
      RowRunCover(x1, y1, x2, y2, k - 1, r);
    }
  }

  /** One pass adds to each row exactly the part of the line's height in it. */
  lemma RowsCover(x1: int, y1: int, x2: int, y2: int, r: int)
    ensures RowCover(Rows(x1, y1, x2, y2), r) == InRow(y2, r) - InRow(y1, r)
  {
    RowsPrefixCover(x1, y1, x2, y2, Steps(y1, y2) + 1, r);
  }

  /** A line under dx_limit adds clamp(y2) - clamp(y1) to each row. */
  lemma NarrowLineCover(x1: int, y1: int, x2: int, y2: int, r: int)
    requires !Wide(x1, x2)
    ensures RowCover(LineCells(x1, y1, x2, y2), r) == InRow(y2, r) - InRow(y1, r)
  {
    RowsCover(x1, y1, x2, y2, r);
  }

  lemma InRowMonotone(a: int, b: int, r: int)
    requires a <= b
    ensures InRow(a, r) <= InRow(b, r)
  {
  }

  lemma WideSplit(x1: int, y1: int, x2: int, y2: int, r: int)
    requires Wide(x1, x2)
    ensures var cx, cy := (x1 + x2) / 2, (y1 + y2) / 2;
            RowCover(LineCells(x1, y1, x2, y2), r) ==
            RowCover(LineCells(x1, y1, cx, cy), r) + RowCover(LineCells(cx, cy, x2, y2), r)
            + RowCover(Rows(x1, y1, x2, y2), r)
  {
    var cx, cy := (x1 + x2) / 2, (y1 + y2) / 2;
    var a, b := LineCells(x1, y1, cx, cy), LineCells(cx, cy, x2, y2);
    SumsConcat(a, b, 0, r);
    SumsConcat(a + b, Rows(x1, y1, x2, y2), 0, r);
  }

  /** What any line adds to a row has the direction of the line and is at least
      its height there; a wide line that rises in the row adds strictly more. */
  lemma {:induction false} WideLineCover(x1: int, y1: int, x2: int, y2: int, r: int)
    ensures var h := InRow(y2, r) - InRow(y1, r);
            var c := RowCover(LineCells(x1, y1, x2, y2), r);
            && (y2 >= y1 ==> c >= h >= 0)
            && (y2 <= y1 ==> c <= h <= 0)
            && (Wide(x1, x2) && h != 0 ==> c != h)
    decreases Abs(x2 - x1)
  {
    RowsCover(x1, y1, x2, y2, r);
    InRowMonotone(Min(y1, y2), Max(y1, y2), r);
    if Wide(x1, x2) {
      WideSplit(x1, y1, x2, y2, r);
      var cx, cy := (x1 + x2) / 2, (y1 + y2) / 2;
      InRowMonotone(Min(y1, cy), Max(y1, cy), r);
      InRowMonotone(Min(cy, y2), Max(cy, y2), r);
      WideLineCover(x1, y1, cx, cy, r);
      WideLineCover(cx, cy, x2, y2, r);
    }
  }

  /** Exactly when a line's covers are right in every row: it is under dx_limit,
      or it stays on one level. */
  lemma LineCoverExact(x1: int, y1: int, x2: int, y2: int)
    ensures (forall r :: RowCover(LineCells(x1, y1, x2, y2), r) == InRow(y2, r) - InRow(y1, r))
            <==> (!Wide(x1, x2) || y1 == y2)
  {
    if !Wide(x1, x2) || y1 == y2 {
      forall r ensures RowCover(LineCells(x1, y1, x2, y2), r) == InRow(y2, r) - InRow(y1, r) {
        WideLineCover(x1, y1, x2, y2, r);
        if !Wide(x1, x2) {
          NarrowLineCover(x1, y1, x2, y2, r);
        }
      }
    } else {
      var r := CellOf(Min(y1, y2));
      assert InRow(y2, r) != InRow(y1, r);
      WideLineCover(x1, y1, x2, y2, r);
    }
  }

  // ----- the shape of the contributions of a line under dx_limit

  /** The wrapped products are the true ones below dx_limit. */
  lemma NarrowProducts(x1: int, x2: int, f: int)
    requires !Wide(x1, x2) && 0 <= f <= SCALE
    ensures FitsInt32(f * (x2 - x1)) && Mul32(f, x2 - x1) == f * (x2 - x1)
  {
    var dx := x2 - x1;
    MulMonotone(f, SCALE, Abs(dx));
    MulMonotone(0, f, Abs(dx));
    assert Abs(f * dx) == f * Abs(dx);
    WrapExact(f * dx);
  }

  /** The distance from a to the k-th stop, as the loops count it. */
  lemma StopDistance(a: int, b: int, k: int)
    requires 1 <= k <= Steps(a, b)
    ensures a != b
    ensures Abs(Stop(a, b, k) - a) == (if b >= a then SCALE - Frac(a) else Frac(a)) + (k - 1) * SCALE
    ensures 0 <= Abs(Stop(a, b, k) - a) <= Abs(b - a)
    ensures 0 <= (if b >= a then SCALE - Frac(a) else Frac(a)) <= SCALE
  {
    assert SCALE * (k - 1) + SCALE == SCALE * k;
  }

  lemma RowNumeratorExact(x1: int, y1: int, x2: int, y2: int, k: int)
    requires !Wide(x1, x2) && 1 <= k <= Steps(y1, y2)
    ensures RowNumerator(x1, y1, x2, y2, k) == Abs(Stop(y1, y2, k) - y1) * (x2 - x1)
  {
    hide Mul32, FitsInt32, Wide, Stop, Frac, Steps, Abs;
    var dx := x2 - x1;
    var f := if y2 >= y1 then SCALE - Frac(y1) else Frac(y1);
    StopDistance(y1, y2, k);
    NarrowProducts(x1, x2, f);
    NarrowProducts(x1, x2, SCALE);
    ScaledSum(f, k, dx);
  }

  /** Below dx_limit the line leaves each row at the floor of the true crossing. */
  lemma RowXExact(x1: int, y1: int, x2: int, y2: int, k: int)
    requires !Wide(x1, x2) && 1 <= k <= Steps(y1, y2)
    ensures y1 != y2 && RowX(x1, y1, x2, y2, k) == Crossing(y1, x1, y2, x2, Stop(y1, y2, k))
  {
    hide RowNumerator, Stop, Wide, Steps;
    StopDistance(y1, y2, k);
    RowNumeratorExact(x1, y1, x2, y2, k);
  }

  lemma ScaledSum(f: int, k: int, dx: int)
    ensures f * dx + (k - 1) * (SCALE * dx) == (f + (k - 1) * SCALE) * dx
  {
  }

  /** The stops of a walk advance from a to b and never pass b. */
  lemma StopsAdvance(a: int, b: int, k: int)
    requires 0 <= k <= Steps(a, b)
    ensures Abs(Stop(a, b, k) - a) <= Abs(Stop(a, b, k + 1) - a) <= Abs(b - a)
  {
  }

  lemma StopHeightIsCrossing(x1: int, y1: int, x2: int, y2: int, k: int)
    requires x1 != x2 && 0 <= k <= Steps(x1, x2) + 1
    ensures StopHeight(x1, y1, x2, y2, k) == Crossing(x1, y1, x2, y2, Stop(x1, x2, k))
  {
    if k == Steps(x1, x2) + 1 {
      DivModUnique(Abs(x2 - x1) * (y2 - y1), Abs(x2 - x1), y2 - y1, 0);
    } else if k == 0 {
      DivModUnique(0 * (y2 - y1), Abs(x2 - x1), 0, 0);
    }
  }

  /** Heights advance from y1 towards y2 and never pass it. */
  lemma HeightsAdvance(x1: int, y1: int, x2: int, y2: int, k: int)
    requires 0 <= k <= Steps(x1, x2)
    ensures var h, h' := StopHeight(x1, y1, x2, y2, k), StopHeight(x1, y1, x2, y2, k + 1);
            && (y1 <= y2 ==> y1 <= h <= h' <= y2)
            && (y1 >= y2 ==> y1 >= h >= h' >= y2)
  {
    if x1 != x2 {
      var w := Abs(x2 - x1);
      var u, v := Abs(Stop(x1, x2, k) - x1), Abs(Stop(x1, x2, k + 1) - x1);
      StopsAdvance(x1, x2, k);
      StopHeightIsCrossing(x1, y1, x2, y2, k);
      StopHeightIsCrossing(x1, y1, x2, y2, k + 1);
      InterpolationMonotone(u, v, y2 - y1, w);
      InterpolationBounds(u, y2 - y1, w);
      InterpolationBounds(v, y2 - y1, w);
    }
  }

  /** A contribution of a segment that crosses columns xlo..xhi and rows
      ylo..yhi in the direction of h: inside that box, cover of h's sign and at
      most one full cell, area between none and all of the cell's width. */
  predicate Fits(c: Cell, xlo: int, xhi: int, ylo: int, yhi: int, h: int) {
    && xlo <= c.x <= xhi && ylo <= c.y <= yhi
    && (h >= 0 ==> 0 <= c.cover <= SCALE && 0 <= c.area <= 2 * SCALE * c.cover)
    && (h <= 0 ==> 0 <= -c.cover <= SCALE && 0 <= -c.area <= -2 * SCALE * c.cover)
  }

  predicate AllFit(s: seq<Cell>, xlo: int, xhi: int, ylo: int, yhi: int, h: int) {
    forall i :: 0 <= i < |s| ==> Fits(s[i], xlo, xhi, ylo, yhi, h)
  }

  lemma AreaFits(w: int, cover: int)
    requires 0 <= w <= 2 * SCALE
    ensures cover >= 0 ==> 0 <= w * cover <= 2 * SCALE * cover
    ensures cover <= 0 ==> 0 <= -(w * cover) <= -2 * SCALE * cover
  {
  }

  lemma RunCellFits(ey: int, x1: int, y1: int, x2: int, y2: int, k: int)
    requires 0 <= k <= Steps(x1, x2) && 0 <= y1 <= SCALE && 0 <= y2 <= SCALE
    ensures Fits(RunCell(ey, x1, y1, x2, y2, k), CellOf(Min(x1, x2)), CellOf(Max(x1, x2)), ey, ey, y2 - y1)
  {
    HeightsAdvance(x1, y1, x2, y2, k);
    StopsInCell(x1, x2, k);
    AreaFits(Entry(x1, x2, k) + Exit(x1, x2, k), RunCell(ey, x1, y1, x2, y2, k).cover);
  }

  lemma {:induction false} RunPrefixFits(ey: int, x1: int, y1: int, x2: int, y2: int, k: nat)
    requires k <= Steps(x1, x2) + 1 && 0 <= y1 <= SCALE && 0 <= y2 <= SCALE
    ensures AllFit(RunPrefix(ey, x1, y1, x2, y2, k), CellOf(Min(x1, x2)), CellOf(Max(x1, x2)), ey, ey, y2 - y1)
  {
    if k > 0 {
      RunPrefixFits(ey, x1, y1, x2, y2, k - 1);
      RunCellFits(ey, x1, y1, x2, y2, k - 1);
    }
  }

  lemma RowXBetween(x1: int, y1: int, x2: int, y2: int, k: int)
    requires !Wide(x1, x2) && 0 <= k <= Steps(y1, y2) + 1
    ensures Min(x1, x2) <= RowX(x1, y1, x2, y2, k) <= Max(x1, x2)
  {
    if 0 < k <= Steps(y1, y2) {
      RowXExact(x1, y1, x2, y2, k);
      StopDistance(y1, y2, k);
      InterpolationBounds(Abs(Stop(y1, y2, k) - y1), x2 - x1, Abs(y2 - y1));
    }
  }

  lemma RowRunFits(x1: int, y1: int, x2: int, y2: int, k: int)
    requires !Wide(x1, x2) && 0 <= k <= Steps(y1, y2)
    ensures AllFit(RowRun(x1, y1, x2, y2, k), CellOf(Min(x1, x2)), CellOf(Max(x1, x2)),
                   CellOf(Min(y1, y2)), CellOf(Max(y1, y2)), y2 - y1)
  {
    var ey := Visit(y1, y2, k);
    var a, b := RowX(x1, y1, x2, y2, k), RowX(x1, y1, x2, y2, k + 1);
    RowXBetween(x1, y1, x2, y2, k);
    RowXBetween(x1, y1, x2, y2, k + 1);
    StopsInCell(y1, y2, k);
    RunPrefixFits(ey, a, Entry(y1, y2, k), b, Exit(y1, y2, k), Steps(a, b) + 1);
  }

  lemma {:induction false} RowsPrefixFits(x1: int, y1: int, x2: int, y2: int, k: nat)
    requires !Wide(x1, x2) && k <= Steps(y1, y2) + 1
    ensures AllFit(RowsPrefix(x1, y1, x2, y2, k), CellOf(Min(x1, x2)), CellOf(Max(x1, x2)),
                   CellOf(Min(y1, y2)), CellOf(Max(y1, y2)), y2 - y1)
  {
    if k > 0 {
      RowsPrefixFits(x1, y1, x2, y2, k - 1);
      RowRunFits(x1, y1, x2, y2, k - 1);
    }
  }

  /** Every contribution of a line under dx_limit stays in the line's own box,
      has the line's direction, and is at most one full cell. */
  lemma LineCellsFit(x1: int, y1: int, x2: int, y2: int)
    requires !Wide(x1, x2)
    ensures AllFit(LineCells(x1, y1, x2, y2), CellOf(Min(x1, x2)), CellOf(Max(x1, x2)),
                   CellOf(Min(y1, y2)), CellOf(Max(y1, y2)), y2 - y1)
  {
    RowsPrefixFits(x1, y1, x2, y2, Steps(y1, y2) + 1);
  }
}
