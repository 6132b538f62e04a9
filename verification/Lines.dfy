/** Lists of drawn lines: the cells they fill, the heights they cover row by
    row, and the box around them. */
module Lines {
  import opened CArith
  import opened Cells

  const INT_MAX := 0x7FFF_FFFF

  datatype Point = Point(x: int, y: int)

  datatype Segment = Segment(a: Point, b: Point)

  /** The cells of one line. */
  function LineOf(s: Segment): seq<Cell> {
    LineCells(s.a.x, s.a.y, s.b.x, s.b.y)
  }

  /** The cells of a list of lines, in drawing order. */
  function CellsOf(ss: seq<Segment>): seq<Cell> {
    if ss == [] then [] else CellsOf(ss[..|ss| - 1]) + LineOf(ss[|ss| - 1])
  }

  lemma CellsOfPush(ss: seq<Segment>, s: Segment)
    ensures CellsOf(ss + [s]) == CellsOf(ss) + LineOf(s)
  {
    assert (ss + [s])[..|ss|] == ss;
  }

  /** The cells a list of lines visits, in drawing order. */
  function TraceOf(ss: seq<Segment>): seq<Cell> {
    if ss == [] then []
    else
      var s := ss[|ss| - 1];
      TraceOf(ss[..|ss| - 1]) + LineTrace(s.a.x, s.a.y, s.b.x, s.b.y)
  }

  lemma TraceOfPush(ss: seq<Segment>, s: Segment)
    ensures TraceOf(ss + [s]) == TraceOf(ss) + LineTrace(s.a.x, s.a.y, s.b.x, s.b.y)
  {
    assert (ss + [s])[..|ss|] == ss;
  }

  /** The visits add up to the cells. */
  lemma {:induction false} TraceSums(ss: seq<Segment>, x: int, y: int)
    ensures SameSums(TraceOf(ss), CellsOf(ss), x, y)
    decreases |ss|
  {
    if ss != [] {
      hide LineTrace, LineCells, SameSums;
      var front, s := ss[..|ss| - 1], ss[|ss| - 1];
      TraceSums(front, x, y);
      LineTraceSums(s.a.x, s.a.y, s.b.x, s.b.y, x, y);
      SameSumsAppend(TraceOf(front), LineTrace(s.a.x, s.a.y, s.b.x, s.b.y), CellsOf(front), LineOf(s), x, y);
    }
  }

  lemma {:induction false} TraceFilled(ss: seq<Segment>)
    ensures Filled(TraceOf(ss)) <= |CellsOf(ss)|
    decreases |ss|
  {
    if ss != [] {
      hide LineTrace, LineCells;
      var front, s := ss[..|ss| - 1], ss[|ss| - 1];
      TraceFilled(front);
      LineFilled(s.a.x, s.a.y, s.b.x, s.b.y);
      FilledAppend(TraceOf(front), LineTrace(s.a.x, s.a.y, s.b.x, s.b.y));
    }
  }

  lemma {:induction false} TraceContributed(ss: seq<Segment>)
    ensures Contributed(TraceOf(ss), CellsOf(ss))
    decreases |ss|
  {
    if ss != [] {
      hide LineTrace, LineCells;
      var front, s := ss[..|ss| - 1], ss[|ss| - 1];
      TraceContributed(front);
      LineContributed(s.a.x, s.a.y, s.b.x, s.b.y);
      ContributedAppend(TraceOf(front), LineTrace(s.a.x, s.a.y, s.b.x, s.b.y), CellsOf(front), LineOf(s));
    }
  }

  // ----- heights

  /** What one line's height adds to row r. */
  function Height(s: Segment, r: int): int {
    InRow(s.b.y, r) - InRow(s.a.y, r)
  }

  /** The heights of all the lines in row r. */
  function NetHeight(ss: seq<Segment>, r: int): int {
    if ss == [] then 0 else NetHeight(ss[..|ss| - 1], r) + Height(ss[|ss| - 1], r)
  }

  /** How far all the lines rise, together. */
  function NetRise(ss: seq<Segment>): int {
    if ss == [] then 0 else NetRise(ss[..|ss| - 1]) + (ss[|ss| - 1].b.y - ss[|ss| - 1].a.y)
  }

  lemma {:induction false} NetAppend(ss: seq<Segment>, ts: seq<Segment>, r: int)
    ensures NetHeight(ss + ts, r) == NetHeight(ss, r) + NetHeight(ts, r)
    ensures NetRise(ss + ts) == NetRise(ss) + NetRise(ts)
    decreases |ts|
  {
    if ts == [] {
      assert ss + ts == ss;
    } else {
      assert (ss + ts)[..|ss + ts| - 1] == ss + ts[..|ts| - 1];
      NetAppend(ss, ts[..|ts| - 1], r);
    }
  }

  lemma NetOne(s: Segment, r: int)
    ensures NetHeight([s], r) == Height(s, r) && NetRise([s]) == s.b.y - s.a.y
  {
    assert [s][..0] == [];
  }

  // ----- which lines are drawn right

  /** A line that is drawn once, or whose second drawing adds nothing. */
  predicate Tame(s: Segment) {
    !Wide(s.a.x, s.b.x) || s.a.y == s.b.y
  }

  predicate AllTame(ss: seq<Segment>) {
    forall i :: 0 <= i < |ss| ==> Tame(ss[i])
  }

  lemma CoverStep(ss: seq<Segment>, r: int)
    requires ss != []
    ensures RowCover(CellsOf(ss), r) == RowCover(CellsOf(ss[..|ss| - 1]), r) + RowCover(LineOf(ss[|ss| - 1]), r)
  {
    hide LineOf, RowCover;
    SumsConcat(CellsOf(ss[..|ss| - 1]), LineOf(ss[|ss| - 1]), 0, r);
  }

  /** Tame lines cover each row by exactly their heights there. */
  lemma {:induction false} TameCover(ss: seq<Segment>, r: int)
    requires AllTame(ss)
    ensures RowCover(CellsOf(ss), r) == NetHeight(ss, r)
    decreases |ss|
  {
    if ss != [] {
      hide LineCells, RowCover;
      var s := ss[|ss| - 1];
      assert Tame(s);
      CoverStep(ss, r);
      TameCover(ss[..|ss| - 1], r);
      LineCoverExact(s.a.x, s.a.y, s.b.x, s.b.y);
    }
  }

  /** Every line rises, or every line falls. */
  predicate OneWay(ss: seq<Segment>, up: bool) {
    forall i :: 0 <= i < |ss| ==> if up then ss[i].a.y <= ss[i].b.y else ss[i].a.y >= ss[i].b.y
  }

  /** Lines that all go one way cover at least their heights, and strictly more
      in a row where one of them is drawn twice. */
  lemma {:induction false} OneWayCover(ss: seq<Segment>, up: bool, r: int)
    requires OneWay(ss, up)
    ensures var h, c := NetHeight(ss, r), RowCover(CellsOf(ss), r);
            && (if up then c >= h else c <= h)
            && ((exists i :: 0 <= i < |ss| && !Tame(ss[i]) && Height(ss[i], r) != 0) ==> c != h)
    decreases |ss|
  {
    if ss != [] {
      hide LineCells, RowCover, InRow;
      var s := ss[|ss| - 1];
      CoverStep(ss, r);
      OneWayCover(ss[..|ss| - 1], up, r);
      WideLineCover(s.a.x, s.a.y, s.b.x, s.b.y, r);
      if i :| 0 <= i < |ss| && !Tame(ss[i]) && Height(ss[i], r) != 0 {
        assert i < |ss| - 1 ==> ss[..|ss| - 1][i] == ss[i];
      }
    }
  }

  /** Exactly when lines that all go one way cover every row right. */
  lemma OneWayExact(ss: seq<Segment>, up: bool)
    requires OneWay(ss, up)
    ensures (forall r :: RowCover(CellsOf(ss), r) == NetHeight(ss, r)) <==> AllTame(ss)
  {
    if AllTame(ss) {
      forall r ensures RowCover(CellsOf(ss), r) == NetHeight(ss, r) {
        TameCover(ss, r);
      }
    } else {
      hide CellsOf, RowCover, NetHeight;
      var i :| 0 <= i < |ss| && !Tame(ss[i]);
      var r := CellOf(Min(ss[i].a.y, ss[i].b.y));
      assert Height(ss[i], r) != 0;
      OneWayCover(ss, up, r);
    }
  }

  // ----- the box around them

  datatype Frame = Frame(minX: int, minY: int, maxX: int, maxY: int)

  function Widen(f: Frame, s: Segment): Frame {
    Frame(Min(f.minX, Min(CellOf(s.a.x), CellOf(s.b.x))), Min(f.minY, Min(CellOf(s.a.y), CellOf(s.b.y))),
          Max(f.maxX, Max(CellOf(s.a.x), CellOf(s.b.x))), Max(f.maxY, Max(CellOf(s.a.y), CellOf(s.b.y))))
  }

  /** The cells the lines' ends lie in; turned inside out when there is none. */
  function FrameOf(ss: seq<Segment>): Frame {
    if ss == [] then Frame(INT_MAX, INT_MAX, -INT_MAX, -INT_MAX) else Widen(FrameOf(ss[..|ss| - 1]), ss[|ss| - 1])
  }

  /** A line's two parts widen the box no further than the whole line. */
  lemma WidenWhole(f: Frame, s: Segment, mid: Point)
    requires Min(s.a.x, s.b.x) <= mid.x <= Max(s.a.x, s.b.x) && Min(s.a.y, s.b.y) <= mid.y <= Max(s.a.y, s.b.y)
    ensures Widen(Widen(Widen(f, Segment(s.a, mid)), Segment(mid, s.b)), s) == Widen(f, s)
  {
  }

  lemma FramePush(ss: seq<Segment>, s: Segment)
    ensures FrameOf(ss + [s]) == Widen(FrameOf(ss), s)
  {
    assert (ss + [s])[..|ss|] == ss;
  }

  ghost predicate AllIn(s: seq<Cell>, f: Frame) {
    forall i :: 0 <= i < |s| ==> f.minX <= s[i].x <= f.maxX && f.minY <= s[i].y <= f.maxY
  }

  lemma LevelRow(x1: int, y: int, x2: int)
    ensures Rows(x1, y, x2, y) == []
  {
    assert RowsPrefix(x1, y, x2, y, 1) == RowsPrefix(x1, y, x2, y, 0) + RowRun(x1, y, x2, y, 0);
  }

  /** A level line fills no cell, however wide. */
  lemma {:induction false} LevelLine(x1: int, y: int, x2: int)
    ensures LineCells(x1, y, x2, y) == []
    decreases Abs(x2 - x1)
  {
    LevelRow(x1, y, x2);
    if Wide(x1, x2) {
      LevelLine(x1, y, (x1 + x2) / 2);
      LevelLine((x1 + x2) / 2, y, x2);
    }
  }

  /** A tame line stays inside the box widened to its ends. */
  lemma TameLineIn(s: seq<Cell>, f: Frame, t: Segment)
    requires AllIn(s, f) && Tame(t)
    ensures AllIn(s + LineOf(t), Widen(f, t))
  {
    if Wide(t.a.x, t.b.x) {
      LevelLine(t.a.x, t.a.y, t.b.x);
    } else {
      hide LineCells;
      LineCellsFit(t.a.x, t.a.y, t.b.x, t.b.y);
    }
  }

  /** Tame lines fill cells of the box around their ends only. */
  lemma {:induction false} TameInFrame(ss: seq<Segment>)
    requires AllTame(ss)
    ensures AllIn(CellsOf(ss), FrameOf(ss))
    decreases |ss|
  {
    if ss != [] {
      hide LineOf, AllIn, Widen;
      assert Tame(ss[|ss| - 1]);
      TameInFrame(ss[..|ss| - 1]);
      TameLineIn(CellsOf(ss[..|ss| - 1]), FrameOf(ss[..|ss| - 1]), ss[|ss| - 1]);
    } else {
      assert CellsOf(ss) == [];
    }
  }

  // ----- near a line

  /** How far a point is off a line: twice the area of their triangle. */
  function Off(s: Segment, p: Point): int {
    (p.x - s.a.x) * (s.b.y - s.a.y) - (p.y - s.a.y) * (s.b.x - s.a.x)
  }

  lemma OffMoves(s: Segment, p: Point, q: Point)
    ensures Off(s, q) == Off(s, p) + (q.x - p.x) * (s.b.y - s.a.y) - (q.y - p.y) * (s.b.x - s.a.x)
  {
  }

  /** The weight of a point on a chord, between those of its ends. */
  lemma Weighted(w: int, t: int, h: int, q: int, dx: int, dy: int, g: int, o: int, o1: int, oq: int)
    requires o1 == o + g * w * dy - h * dx && oq == o + g * t * dy - q * dx
    ensures w * oq == (w - t) * o + t * o1 + (t * h - w * q) * dx
  {
    assert w * oq == w * o + w * (g * t * dy) - w * (q * dx);
    assert t * o1 == t * o + t * (g * w * dy) - t * (h * dx);
    assert w * (g * t * dy) == t * (g * w * dy);
    assert (t * h - w * q) * dx == t * (h * dx) - w * (q * dx);
  }
}
