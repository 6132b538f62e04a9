/** Cutting an edge against the clip box: where the parts lie, and the heights
    and covers they keep. */
module LineClippers {
  import opened CArith
  import opened Cells
  import opened CellRasterizers
  import opened Lines

  datatype ClipRect = ClipRect(x1: int, y1: int, x2: int, y2: int)

  /** n / d rounded to the nearest integer, halves away from zero. */
  function RoundDiv(n: int, d: int): int
    requires d > 0
  {
    if n >= 0 then (2 * n + d) / (2 * d) else -((2 * -n + d) / (2 * d))
  }

  /** round(a * b / c). */
  function MulDiv(a: int, b: int, c: int): int
    requires c != 0
  {
    RoundDiv(if c > 0 then a * b else -(a * b), Abs(c))
  }

  /** Half of d added to a multiple of d does not reach the next multiple. */
  lemma HalfUp(h: int, d: int)
    requires d > 0
    ensures (2 * (d * h) + d) / (2 * d) == h
  {
    var m := d * h;
    assert 2 * m + d == h * (2 * d) + d;
    DivModUnique(2 * m + d, 2 * d, h, d);
  }

  lemma RoundDivBounds(n: int, h: int, d: int)
    requires d > 0 && 0 <= n <= d * h
    ensures 0 <= RoundDiv(n, d) <= h && RoundDiv(-n, d) == -RoundDiv(n, d)
  {
    HalfUp(h, d);
    HalfUp(0, d);
    var m := d * h;
    DivMonotone(2 * n + d, 2 * m + d, 2 * d);
    DivMonotone(d, 2 * n + d, 2 * d);
  }

  /** A share of b no larger than the whole keeps b's sign and stays within b. */
  lemma MulDivBounds(a: int, b: int, c: int)
    requires c != 0 && (if c > 0 then 0 <= a <= c else c <= a <= 0)
    ensures Min(0, b) <= MulDiv(a, b, c) <= Max(0, b)
  {
    var u, h, d := Abs(a), Abs(b), Abs(c);
    MulMonotone(u, d, h);
    MulMonotone(0, u, h);
    RoundDivBounds(u * h, h, d);
    var n: int := u * h;
    assert a * b == if (c > 0) == (b >= 0) then n else -n;
  }

  // ----- the cut, stated point by point

  function ClipX(x: int, box: ClipRect): int {
    Clamp(x, box.x1, box.x2)
  }

  function ClipY(y: int, box: ClipRect): int {
    Clamp(y, box.y1, box.y2)
  }

  predicate IsBox(box: ClipRect) {
    box.x1 <= box.x2 && box.y1 <= box.y2
  }

  predicate InBox(p: Point, box: ClipRect) {
    box.x1 <= p.x <= box.x2 && box.y1 <= p.y <= box.y2
  }

  /** Both ends beyond the same side of lo..hi. */
  predicate SameSide(a: int, b: int, lo: int, hi: int) {
    (a < lo && b < lo) || (a > hi && b > hi)
  }

  /** Where a segment that leaves the box's columns meets the nearer edge. */
  function EdgeCrossing(s: Segment, x: int): Point
    requires s.a.x != s.b.x
  {
    Point(x, s.a.y + MulDiv(x - s.a.x, s.b.y - s.a.y, s.b.x - s.a.x))
  }

  /** The segment with the parts beyond the left and right edges flattened onto
      those edges: a polyline from one end to the other. */
  function Flatten(s: Segment, box: ClipRect): seq<Point> {
    var ax, bx := ClipX(s.a.x, box), ClipX(s.b.x, box);
    var cross := !SameSide(s.a.x, s.b.x, box.x1, box.x2);
    [Point(ax, s.a.y)]
    + (if cross && ax != s.a.x && s.a.x != s.b.x then [EdgeCrossing(s, ax)] else [])
    + (if cross && bx != s.b.x && s.a.x != s.b.x then [EdgeCrossing(s, bx)] else [])
    + [Point(bx, s.b.y)]
  }

  /** An end of a segment, brought to the top or bottom edge if it is beyond it. */
  function CutEnd(s: Segment, p: Point, box: ClipRect): Point
    requires ClipY(p.y, box) != p.y ==> s.a.y != s.b.y
  {
    var y := ClipY(p.y, box);
    if y == p.y then p
    else Point(s.a.x + MulDiv(y - s.a.y, s.b.x - s.a.x, s.b.y - s.a.y), y)
  }

  /** The part of a segment between the top and the bottom edge. */
  function CutY(s: Segment, box: ClipRect): seq<Segment>
    requires IsBox(box)
  {
    if SameSide(s.a.y, s.b.y, box.y1, box.y2) then []
    else [Segment(CutEnd(s, s.a, box), CutEnd(s, s.b, box))]
  }

  /** A polyline's segments, each cut. */
  function CutAll(ps: seq<Point>, box: ClipRect): seq<Segment>
    requires IsBox(box)
  {
    if |ps| < 2 then [] else CutAll(ps[..|ps| - 1], box) + CutY(Segment(ps[|ps| - 2], ps[|ps| - 1]), box)
  }

  /** What is drawn of an edge. */
  function ClipLine(s: Segment, box: ClipRect): seq<Segment>
    requires IsBox(box)
  {
    if SameSide(s.a.y, s.b.y, box.y1, box.y2) then [] else CutAll(Flatten(s, box), box)
  }

  // ----- properties of the cut

  predicate AllInBox(ss: seq<Segment>, box: ClipRect) {
    forall i :: 0 <= i < |ss| ==> InBox(ss[i].a, box) && InBox(ss[i].b, box)
  }

  /** Cutting keeps a point's column between the segment's ends. */
  lemma CutEndInBox(s: Segment, p: Point, box: ClipRect)
    requires IsBox(box) && (p == s.a || p == s.b)
    requires box.x1 <= s.a.x <= box.x2 && box.x1 <= s.b.x <= box.x2
    requires !SameSide(s.a.y, s.b.y, box.y1, box.y2)
    ensures ClipY(p.y, box) != p.y ==> s.a.y != s.b.y
    ensures InBox(CutEnd(s, p, box), box) && CutEnd(s, p, box).y == ClipY(p.y, box)
  {
    var y := ClipY(p.y, box);
    if y != p.y {
      MulDivBounds(y - s.a.y, s.b.x - s.a.x, s.b.y - s.a.y);
    }
  }

  predicate InColumns(ps: seq<Point>, box: ClipRect) {
    forall i :: 0 <= i < |ps| ==> box.x1 <= ps[i].x <= box.x2
  }

  lemma {:induction false} CutAllInBox(ps: seq<Point>, box: ClipRect)
    requires IsBox(box) && InColumns(ps, box)
    ensures AllInBox(CutAll(ps, box), box)
    decreases |ps|
  {
    if |ps| >= 2 {
      var s := Segment(ps[|ps| - 2], ps[|ps| - 1]);
      CutAllInBox(ps[..|ps| - 1], box);
      if !SameSide(s.a.y, s.b.y, box.y1, box.y2) {
        CutEndInBox(s, s.a, box);
        CutEndInBox(s, s.b, box);
      }
    }
  }

  /** Everything drawn of an edge lies inside the box. */
  lemma ClipLineInBox(s: Segment, box: ClipRect)
    requires IsBox(box)
    ensures AllInBox(ClipLine(s, box), box)
  {
    CutAllInBox(Flatten(s, box), box);
  }

  // ----- the heights a cut keeps, whatever its points round to

  /** The part of height y that row r sees through the box. */
  function Share(y: int, box: ClipRect, r: int): int {
    InRow(ClipY(y, box), r)
  }

  /** Lines drawn for a polyline, at most one for each of its segments: any line
      with the segment's clamped heights, at whatever abscissas, and none when
      both ends are beyond the same edge. */
  predicate Pieces(ps: seq<Point>, box: ClipRect, drawn: seq<Segment>) {
    if |ps| < 2 then drawn == []
    else
      var a, b := ps[|ps| - 2], ps[|ps| - 1];
      if SameSide(a.y, b.y, box.y1, box.y2) then Pieces(ps[..|ps| - 1], box, drawn)
      else
        && drawn != []
        && drawn[|drawn| - 1].a.y == ClipY(a.y, box) && drawn[|drawn| - 1].b.y == ClipY(b.y, box)
        && Pieces(ps[..|ps| - 1], box, drawn[..|drawn| - 1])
  }

  /** However a polyline is cut and whichever ordinates it bends at, its pieces
      cover what its two ends leave after clamping: row by row, and overall. */
  lemma {:induction false} PiecesHeights(ps: seq<Point>, box: ClipRect, drawn: seq<Segment>, r: int)
    requires IsBox(box) && |ps| >= 1 && Pieces(ps, box, drawn)
    ensures NetHeight(drawn, r) == Share(ps[|ps| - 1].y, box, r) - Share(ps[0].y, box, r)
    ensures NetRise(drawn) == ClipY(ps[|ps| - 1].y, box) - ClipY(ps[0].y, box)
    decreases |ps|
  {
    if |ps| >= 2 {
      hide InRow;
      var a, b := ps[|ps| - 2], ps[|ps| - 1];
      if SameSide(a.y, b.y, box.y1, box.y2) {
        PiecesHeights(ps[..|ps| - 1], box, drawn, r);
      } else {
        PiecesHeights(ps[..|ps| - 1], box, drawn[..|drawn| - 1], r);
      }
    }
  }

  lemma {:induction false} CutAllPieces(ps: seq<Point>, box: ClipRect)
    requires IsBox(box)
    ensures Pieces(ps, box, CutAll(ps, box))
    decreases |ps|
  {
    if |ps| >= 2 {
      hide MulDiv;
      var qs, s := ps[..|ps| - 1], Segment(ps[|ps| - 2], ps[|ps| - 1]);
      CutAllPieces(qs, box);
      var cut, piece := CutAll(qs, box), CutY(s, box);
      assert piece == [] ==> cut + piece == cut;
      assert piece != [] ==> (cut + piece)[..|cut + piece| - 1] == cut;
    }
  }

  /** Clipping keeps an edge's height, in every row and overall. */
  lemma ClipLineHeights(s: Segment, box: ClipRect, r: int)
    requires IsBox(box)
    ensures NetHeight(ClipLine(s, box), r) == Share(s.b.y, box, r) - Share(s.a.y, box, r)
    ensures NetRise(ClipLine(s, box)) == ClipY(s.b.y, box) - ClipY(s.a.y, box)
  {
    if !SameSide(s.a.y, s.b.y, box.y1, box.y2) {
      hide NetHeight, NetRise, EdgeCrossing, CutAll;
      CutAllPieces(Flatten(s, box), box);
      PiecesHeights(Flatten(s, box), box, CutAll(Flatten(s, box), box), r);
    }
  }

  // ----- the direction a cut keeps

  lemma RoundDivMonotone(n: int, m: int, d: int)
    requires d > 0 && n <= m
    ensures RoundDiv(n, d) <= RoundDiv(m, d)
  {
    if n >= 0 {
      DivMonotone(2 * n + d, 2 * m + d, 2 * d);
    } else if m < 0 {
      DivMonotone(2 * -m + d, 2 * -n + d, 2 * d);
    } else {
      DivMonotone(0, 2 * m + d, 2 * d);
      DivMonotone(0, 2 * -n + d, 2 * d);
      DivModUnique(0, 2 * d, 0, 0);
    }
  }

  lemma NegateProduct(a: int, b: int)
    ensures a * b == -(a * -b)
  {
  }

  /** A larger share of b lies further towards b. */
  lemma MulDivMonotone(a: int, a': int, b: int, c: int)
    requires c != 0 && if c > 0 then a <= a' else a' <= a
    ensures if b >= 0 then MulDiv(a, b, c) <= MulDiv(a', b, c) else MulDiv(a', b, c) <= MulDiv(a, b, c)
  {
    hide RoundDiv;
    var n, n' := if c > 0 then a * b else -(a * b), if c > 0 then a' * b else -(a' * b);
    if b >= 0 {
      MulMonotone(Min(a, a'), Max(a, a'), b);
      RoundDivMonotone(n, n', Abs(c));
    } else {
      MulMonotone(Min(a, a'), Max(a, a'), -b);
      NegateProduct(a, b);
      NegateProduct(a', b);
      RoundDivMonotone(n', n, Abs(c));
    }
  }

  /** The ordinates of a polyline all go one way. */
  predicate Graded(ps: seq<Point>, up: bool) {
    forall i :: 0 < i < |ps| ==> if up then ps[i - 1].y <= ps[i].y else ps[i - 1].y >= ps[i].y
  }

  /** The points at which an edge bends lie on its way from end to end. */
  lemma FlattenGraded(s: Segment, box: ClipRect, up: bool)
    requires IsBox(box) && if up then s.a.y <= s.b.y else s.a.y >= s.b.y
    ensures Graded(Flatten(s, box), up)
  {
    hide MulDiv;
    var ax, bx, dx, dy := ClipX(s.a.x, box), ClipX(s.b.x, box), s.b.x - s.a.x, s.b.y - s.a.y;
    if !SameSide(s.a.x, s.b.x, box.x1, box.x2) && dx != 0 {
      MulDivBounds(ax - s.a.x, dy, dx);
      MulDivBounds(bx - s.a.x, dy, dx);
      MulDivMonotone(ax - s.a.x, bx - s.a.x, dy, dx);
    }
  }

  lemma {:induction false} PiecesOneWay(ps: seq<Point>, box: ClipRect, drawn: seq<Segment>, up: bool)
    requires IsBox(box) && Pieces(ps, box, drawn) && Graded(ps, up)
    ensures OneWay(drawn, up)
    decreases |ps|
  {
    if |ps| >= 2 {
      var a, b, qs := ps[|ps| - 2], ps[|ps| - 1], ps[..|ps| - 1];
      if SameSide(a.y, b.y, box.y1, box.y2) {
        PiecesOneWay(qs, box, drawn, up);
      } else {
        var front := drawn[..|drawn| - 1];
        PiecesOneWay(qs, box, front, up);
        assert drawn == front + [drawn[|drawn| - 1]];
      }
    }
  }

  /** Every part drawn of an edge goes the edge's own way. */
  lemma ClipLineOneWay(s: Segment, box: ClipRect, up: bool)
    requires IsBox(box) && if up then s.a.y <= s.b.y else s.a.y >= s.b.y
    ensures OneWay(ClipLine(s, box), up)
  {
    hide Flatten, CutAll;
    FlattenGraded(s, box, up);
    CutAllPieces(Flatten(s, box), box);
    PiecesOneWay(Flatten(s, box), box, CutAll(Flatten(s, box), box), up);
  }

  // ----- the covers a cut keeps

  /** Exactly when clipping conserves winding: an edge adds to each row the part
      of its clamped height that lies there iff no part of it is drawn twice. */
  lemma ClipLineCover(s: Segment, box: ClipRect)
    requires IsBox(box)
    ensures (forall r :: RowCover(CellsOf(ClipLine(s, box)), r) == Share(s.b.y, box, r) - Share(s.a.y, box, r))
            <==> AllTame(ClipLine(s, box))
  {
    hide *;
    var drawn := ClipLine(s, box);
    ClipLineOneWay(s, box, s.a.y <= s.b.y);
    OneWayExact(drawn, s.a.y <= s.b.y);
    forall r ensures NetHeight(drawn, r) == Share(s.b.y, box, r) - Share(s.a.y, box, r) {
      ClipLineHeights(s, box, r);
    }
  }

  predicate NarrowBox(box: ClipRect) {
    IsBox(box) && box.x2 - box.x1 < DX_LIMIT
  }

  /** In a box under dx_limit no part is drawn twice. */
  lemma NarrowBoxTame(s: Segment, box: ClipRect)
    requires NarrowBox(box)
    ensures AllTame(ClipLine(s, box))
  {
    hide ClipLine;
    ClipLineInBox(s, box);
  }

  /** In a box of dx_limit or more one can be: this edge crosses it from corner to
      corner and covers more than its height. */
  lemma WideBoxDoubles()
    ensures var box := ClipRect(0, 0, DX_LIMIT, 256);
            var s := Segment(Point(0, 0), Point(DX_LIMIT, 256));
            RowCover(CellsOf(ClipLine(s, box)), 0) > Share(256, box, 0) - Share(0, box, 0)
  {
    var box, s := ClipRect(0, 0, DX_LIMIT, 256), Segment(Point(0, 0), Point(DX_LIMIT, 256));
    assert Flatten(s, box) == [s.a, s.b];
    assert CutAll([s.a, s.b][..1], box) == [];
    assert ClipLine(s, box) == [s];
    hide LineCells, RowCover;
    OneLine(s);
    WideLineCover(0, 0, DX_LIMIT, 256, 0);
  }

  lemma OneLine(s: Segment)
    ensures CellsOf([s]) == LineOf(s)
  {
    assert [s][..0] == [];
    assert [] + LineOf(s) == LineOf(s);
  }

  // ----- with or without a box

  datatype Clip = Open | To(box: ClipRect)

  predicate IsClip(clip: Clip) {
    clip.To? ==> IsBox(clip.box)
  }

  /** What is drawn of an edge. */
  function DrawnOf(e: Segment, clip: Clip): seq<Segment>
    requires IsClip(clip)
  {
    if clip.To? then ClipLine(e, clip.box) else [e]
  }

  /** What is drawn of a list of edges. */
  function ClipAll(edges: seq<Segment>, clip: Clip): seq<Segment>
    requires IsClip(clip)
  {
    if edges == [] then [] else ClipAll(edges[..|edges| - 1], clip) + DrawnOf(edges[|edges| - 1], clip)
  }

  lemma ClipAllPush(edges: seq<Segment>, e: Segment, clip: Clip)
    requires IsClip(clip)
    ensures ClipAll(edges + [e], clip) == ClipAll(edges, clip) + DrawnOf(e, clip)
  {
    assert (edges + [e])[..|edges|] == edges;
  }

  /** An edge inside the box is drawn as it is. */
  lemma InsideKept(e: Segment, box: ClipRect)
    requires IsBox(box) && InBox(e.a, box) && InBox(e.b, box)
    ensures ClipLine(e, box) == [e]
  {
    hide MulDiv;
    var ps := Flatten(e, box);
    assert ps == [e.a, e.b] && ps[..1] == [e.a];
    assert CutAll(ps[..1], box) == [] && CutY(e, box) == [e];
  }

  lemma {:induction false} AllInsideKept(edges: seq<Segment>, box: ClipRect)
    requires IsBox(box) && AllInBox(edges, box)
    ensures ClipAll(edges, To(box)) == edges
    decreases |edges|
  {
    hide ClipLine, InBox, IsBox;
    if edges != [] {
      var front, e := edges[..|edges| - 1], edges[|edges| - 1];
      AllInsideKept(front, box);
      InsideKept(e, box);
      assert edges == front + [e];
    }
  }

  /** Without a box every edge is drawn as it is. */
  lemma {:induction false} ClipAllOpen(edges: seq<Segment>)
    ensures ClipAll(edges, Open) == edges
    decreases |edges|
  {
    if edges != [] {
      ClipAllOpen(edges[..|edges| - 1]);
    }
  }

  function ShareOf(y: int, clip: Clip, r: int): int {
    if clip.To? then Share(y, clip.box, r) else InRow(y, r)
  }

  lemma DrawnHeights(e: Segment, clip: Clip, r: int)
    requires IsClip(clip)
    ensures NetHeight(DrawnOf(e, clip), r) == ShareOf(e.b.y, clip, r) - ShareOf(e.a.y, clip, r)
  {
    hide NetHeight, NetRise, ClipLine;
    match clip
    case Open => NetOne(e, r);
    case To(box) => ClipLineHeights(e, box, r);
  }

  /** Through a box, everything drawn lies in the box. */
  lemma {:induction false} ClipAllInBox(edges: seq<Segment>, box: ClipRect)
    requires IsBox(box)
    ensures AllInBox(ClipAll(edges, To(box)), box)
    decreases |edges|
  {
    if edges != [] {
      hide ClipLine;
      ClipAllInBox(edges[..|edges| - 1], box);
      ClipLineInBox(edges[|edges| - 1], box);
    }
  }

  /** Lines in a box have their cells in the box's columns, and in one narrower
      than dx_limit none of them is drawn twice. */
  lemma {:induction false} FrameInBox(ss: seq<Segment>, box: ClipRect)
    requires IsBox(box) && AllInBox(ss, box) && FitsInt32(box.x1) && FitsInt32(box.x2)
    ensures NarrowBox(box) ==> AllTame(ss)
    ensures CellOf(box.x1) <= FrameOf(ss).minX && FrameOf(ss).maxX <= CellOf(box.x2)
    ensures ss != [] ==> FrameOf(ss).minX <= FrameOf(ss).maxX
    decreases |ss|
  {
    if ss != [] {
      FrameInBox(ss[..|ss| - 1], box);
    }
  }

  // ----- the clipper

  function XBits(x: int, box: ClipRect): bv8 {
    if x > box.x2 then 1 else if x < box.x1 then 4 else 0
  }

  function YBits(y: int, box: ClipRect): bv8 {
    if y > box.y2 then 2 else if y < box.y1 then 8 else 0
  }

  /** `clipping_flags`; on a normalised box at most one bit per axis is set. */
  function ClippingFlags(x: int, y: int, box: ClipRect): bv8 {
    XBits(x, box) | YBits(y, box)
  }

  lemma FlagMasks(x: int, y: int, box: ClipRect)
    ensures ClippingFlags(x, y, box) & 5 == XBits(x, box)
    ensures ClippingFlags(x, y, box) & 10 == YBits(y, box)
    ensures YBits(y, box) & 10 == YBits(y, box)
  {
  }

  /** The switch value for each pair of column positions. */
  lemma SwitchValue(f1: bv8, f2: bv8)
    requires f1 in {0, 1, 4} && f2 in {0, 1, 4}
    ensures (f1 << 1) | f2 == match (f1, f2)
                              case (0, 0) => 0 case (0, 1) => 1 case (0, _) => 4
                              case (1, 0) => 2 case (1, 1) => 3 case (1, _) => 6
                              case (_, 0) => 8 case (_, 1) => 9 case (_, _) => 12
  {
  }

  /** The lines of a polyline of two, three or four points. */
  lemma PolylineLines(ps: seq<Point>, box: ClipRect)
    requires IsBox(box) && 2 <= |ps| <= 4
    ensures CutAll(ps, box) ==
            CutY(Segment(ps[0], ps[1]), box)
            + (if |ps| > 2 then CutY(Segment(ps[1], ps[2]), box) else [])
            + (if |ps| > 3 then CutY(Segment(ps[2], ps[3]), box) else [])
  {
    hide CutY;
    assert CutAll(ps[..1], box) == [];
    assert ps[..2][..1] == ps[..1];
    assert CutAll(ps[..2], box) == [] + CutY(Segment(ps[0], ps[1]), box);
    if |ps| > 2 {
      assert ps[..3][..2] == ps[..2];
      assert CutAll(ps[..3], box) == CutAll(ps[..2], box) + CutY(Segment(ps[1], ps[2]), box);
    }
    if |ps| > 3 {
      assert ps[..4][..3] == ps[..3];
      assert CutAll(ps[..4], box) == CutAll(ps[..3], box) + CutY(Segment(ps[2], ps[3]), box);
    }
    assert ps[..|ps|] == ps;
  }

  class LineClipper {
    var box: ClipRect
    var x1: int
    var y1: int
    var f1: bv8
    var clipping: bool

    /** The box is normalised and the flags are those of the current point. */
    ghost predicate Ready()
      reads this
    {
      clipping ==> IsBox(box) && f1 == ClippingFlags(x1, y1, box)
    }

    constructor ()
      ensures !clipping && x1 == 0 && y1 == 0
    {
      box, x1, y1, f1, clipping := ClipRect(0, 0, 0, 0), 0, 0, 0, false;
    }

    /** Sets the box, with its corners put in order. The current point's flags
        are not recomputed. */
    method SetBox(bx1: int, by1: int, bx2: int, by2: int)
      modifies `box, `clipping
      ensures clipping && IsBox(box)
      ensures box == ClipRect(Min(bx1, bx2), Min(by1, by2), Max(bx1, bx2), Max(by1, by2))
    {
      box := ClipRect(bx1, by1, bx2, by2);
      if box.x1 > box.x2 {
        box := box.(x1 := box.x2, x2 := box.x1);
      }
      if box.y1 > box.y2 {
        box := box.(y1 := box.y2, y2 := box.y1);
      }
      clipping := true;
    }

    method MoveTo(x: int, y: int)
      requires clipping ==> IsBox(box)
      modifies `x1, `y1, `f1
      ensures Ready() && x1 == x && y1 == y
    {
      x1 := x;
      y1 := y;
      if clipping {
        f1 := ClippingFlags(x, y, box);
      }
    }

    ghost function Mode(): Clip
      reads this
    {
      if clipping then To(box) else Open
    }

    method LineClipY(ras: CellRasterizer, a: Point, b: Point, g1: bv8, g2: bv8)
      requires ras.Valid() && ras.Traced() && !ras.sorted && IsBox(box)
      requires box.x1 <= a.x <= box.x2 && box.x1 <= b.x <= box.x2
      requires g1 & 10 == YBits(a.y, box) && g2 & 10 == YBits(b.y, box)
      modifies ras`cells, ras`emitted, ras`curr, ras`drawn, ras`minX, ras`minY, ras`maxX, ras`maxY, ras`lines
      ensures ras.Valid() && ras.Traced() && !ras.sorted
      ensures ras.lines == old(ras.lines) + CutY(Segment(a, b), box)
    {
      hide MulDiv, CellRasterizer.Valid, CellRasterizer.Traced;
      ghost var s := Segment(a, b);
      var m1, m2 := g1 & 10, g2 & 10;
      if m1 | m2 == 0 {
        // between the edges
        ras.Line(a.x, a.y, b.x, b.y);
      } else {
        if m1 == m2 {
          return; // beyond one edge
        }
        var t := CutEnds(a, b, m1, m2);
        CutEndInBox(s, a, box);
        CutEndInBox(s, b, box);
        ras.Line(t.a.x, t.a.y, t.b.x, t.b.y);
      }
    }

    /** Draws the edge from the current point to (x2, y2), which becomes the
        current point. */
    method LineTo(ras: CellRasterizer, x2: int, y2: int)
      requires Ready() && ras.Valid() && ras.Traced() && !ras.sorted
      modifies `x1, `y1, `f1, ras`cells, ras`emitted, ras`curr, ras`drawn, ras`minX, ras`minY, ras`maxX, ras`maxY, ras`lines
      ensures Ready() && ras.Valid() && ras.Traced() && !ras.sorted && x1 == x2 && y1 == y2
      ensures ras.lines == old(ras.lines) + DrawnOf(Segment(old(Point(x1, y1)), Point(x2, y2)), Mode())
    {
      hide MulDiv, CellRasterizer.Valid, CellRasterizer.Traced;
      if clipping {
        var f2 := ClippingFlags(x2, y2, box);
        FlagMasks(x1, y1, box);
        FlagMasks(x2, y2, box);
        // drawn unless both ends are beyond the top, or both beyond the bottom
        if f1 & 10 != f2 & 10 || f1 & 10 == 0 {
          DrawVisible(ras, Point(x1, y1), Point(x2, y2), f1, f2);
        }
        f1 := f2;
      } else {
        ras.Line(x1, y1, x2, y2);
      }
      x1 := x2;
      y1 := y2;
    }

    /** The nine cases of an edge that is not wholly above or below the box. */
    method DrawVisible(ras: CellRasterizer, a: Point, b: Point, g1: bv8, g2: bv8)
      requires ras.Valid() && ras.Traced() && !ras.sorted && IsBox(box) && g1 == ClippingFlags(a.x, a.y, box) && g2 == ClippingFlags(b.x, b.y, box)
      requires !SameSide(a.y, b.y, box.y1, box.y2)
      modifies ras`cells, ras`emitted, ras`curr, ras`drawn, ras`minX, ras`minY, ras`maxX, ras`maxY, ras`lines
      ensures ras.Valid() && ras.Traced() && !ras.sorted
      ensures ras.lines == old(ras.lines) + ClipLine(Segment(a, b), box)
    {
      hide MulDiv, CellRasterizer.Valid, CellRasterizer.Traced, CutY, CutAll, ClippingFlags, YBits;
      FlagMasks(a.x, a.y, box);
      FlagMasks(b.x, b.y, box);
      SwitchValue(g1 & 5, g2 & 5);
      ghost var s := Segment(a, b);
      PolylineLines(Flatten(s, box), box);
      match ((g1 & 5) << 1) | (g2 & 5)
      case 0 => // between left and right
        LineClipY(ras, a, b, g1, g2);
      case 1 => // b beyond the right edge
        var c := EdgeAt(a, b, box.x2);
        TwoParts(ras, a, c, Point(box.x2, b.y), g1, g2);
      case 2 => // a beyond the right edge
        var c := EdgeAt(a, b, box.x2);
        TwoParts(ras, Point(box.x2, a.y), c, b, g1, g2);
      case 3 => // both beyond the right edge
        LineClipY(ras, Point(box.x2, a.y), Point(box.x2, b.y), g1, g2);
      case 4 => // b beyond the left edge
        var c := EdgeAt(a, b, box.x1);
        TwoParts(ras, a, c, Point(box.x1, b.y), g1, g2);
      case 6 => // from right to left
        var c := EdgeAt(a, b, box.x2);
        var d := EdgeAt(a, b, box.x1);
        ThreeParts(ras, Point(box.x2, a.y), c, d, Point(box.x1, b.y), g1, g2);
      case 8 => // a beyond the left edge
        var c := EdgeAt(a, b, box.x1);
        TwoParts(ras, Point(box.x1, a.y), c, b, g1, g2);
      case 9 => // from left to right
        var c := EdgeAt(a, b, box.x1);
        var d := EdgeAt(a, b, box.x2);
        ThreeParts(ras, Point(box.x1, a.y), c, d, Point(box.x2, b.y), g1, g2);
      case 12 => // both beyond the left edge
        LineClipY(ras, Point(box.x1, a.y), Point(box.x1, b.y), g1, g2);
      case _ =>
        assert false;
    }

    /** `y1 + mul_div(x - x1, y2 - y1, x2 - x1)` at an edge of the box. */
    method EdgeAt(a: Point, b: Point, x: int) returns (c: Point)
      requires a.x != b.x
      ensures c == EdgeCrossing(Segment(a, b), x)
    {
      c := Point(x, a.y + MulDiv(x - a.x, b.y - a.y, b.x - a.x));
    }

    method TwoParts(ras: CellRasterizer, a: Point, b: Point, c: Point, g1: bv8, g2: bv8)
      requires ras.Valid() && ras.Traced() && !ras.sorted && IsBox(box) && InColumns([a, b, c], box)
      requires g1 & 10 == YBits(a.y, box) && g2 & 10 == YBits(c.y, box)
      modifies ras`cells, ras`emitted, ras`curr, ras`drawn, ras`minX, ras`minY, ras`maxX, ras`maxY, ras`lines
      ensures ras.Valid() && ras.Traced() && !ras.sorted
      ensures ras.lines == old(ras.lines) + (CutY(Segment(a, b), box) + CutY(Segment(b, c), box))
    {
      hide MulDiv, CellRasterizer.Valid, CellRasterizer.Traced, CutY;
      assert [a, b, c][0] == a && [a, b, c][1] == b && [a, b, c][2] == c;
      var f3 := YBits(b.y, box);
      FlagMasks(0, b.y, box);
      LineClipY(ras, a, b, g1, f3);
      LineClipY(ras, b, c, f3, g2);
    }

    method ThreeParts(ras: CellRasterizer, a: Point, b: Point, c: Point, d: Point, g1: bv8, g2: bv8)
      requires ras.Valid() && ras.Traced() && !ras.sorted && IsBox(box) && InColumns([a, b, c, d], box)
      requires g1 & 10 == YBits(a.y, box) && g2 & 10 == YBits(d.y, box)
      modifies ras`cells, ras`emitted, ras`curr, ras`drawn, ras`minX, ras`minY, ras`maxX, ras`maxY, ras`lines
      ensures ras.Valid() && ras.Traced() && !ras.sorted
      ensures ras.lines == old(ras.lines) + (CutY(Segment(a, b), box) + CutY(Segment(b, c), box)
                                             + CutY(Segment(c, d), box))
    {
      hide MulDiv, CellRasterizer.Valid, CellRasterizer.Traced, CutY;
      assert [a, b, c, d][0] == a && [a, b, c, d][1] == b && [a, b, c, d][2] == c && [a, b, c, d][3] == d;
      var f3, f4 := YBits(b.y, box), YBits(c.y, box);
      FlagMasks(0, b.y, box);
      FlagMasks(0, c.y, box);
      LineClipY(ras, a, b, g1, f3);
      LineClipY(ras, b, c, f3, f4);
      LineClipY(ras, c, d, f4, g2);
    }

    /** Moves the ends that lie beyond the top or bottom edge onto it. */
    method CutEnds(a: Point, b: Point, m1: bv8, m2: bv8) returns (t: Segment)
      requires IsBox(box) && m1 == YBits(a.y, box) && m2 == YBits(b.y, box) && m1 != m2
      ensures !SameSide(a.y, b.y, box.y1, box.y2)
      ensures t == Segment(CutEnd(Segment(a, b), a, box), CutEnd(Segment(a, b), b, box))
    {
      hide MulDiv;
      var tx1, ty1, tx2, ty2 := a.x, a.y, b.x, b.y;
      if m1 & 8 != 0 {
        tx1 := a.x + MulDiv(box.y1 - a.y, b.x - a.x, b.y - a.y);
        ty1 := box.y1;
      }
      if m1 & 2 != 0 {
        tx1 := a.x + MulDiv(box.y2 - a.y, b.x - a.x, b.y - a.y);
        ty1 := box.y2;
      }
      if m2 & 8 != 0 {
        tx2 := a.x + MulDiv(box.y1 - a.y, b.x - a.x, b.y - a.y);
        ty2 := box.y1;
      }
      if m2 & 2 != 0 {
        tx2 := a.x + MulDiv(box.y2 - a.y, b.x - a.x, b.y - a.y);
        ty2 := box.y2;
      }
      t := Segment(Point(tx1, ty1), Point(tx2, ty2));
    }
  }
}
