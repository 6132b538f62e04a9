/** The stroke generator: a path's vertices are thinned until neighbours are apart,
    and each subpath is turned into the contours of its outline. */
module Strokers {
  import opened CArith

  datatype Point = Point(x: real, y: real)

  type Points = s: seq<Point> | s != [] witness [Point(0.0, 0.0)]

  /** What the geometry supplies: the distance, and the vertices of a cap or of a
      join given the points and the lengths of the segments that meet there. */
  datatype Style = Style(dist: (Point, Point) -> real,
                         cap: (Point, Point, real) -> Points,
                         join: (Point, Point, Point, real, real) -> Points)

  const EPSILON: real := 0.00000000000001

  predicate Far(st: Style, a: Point, b: Point) {
    st.dist(a, b) > EPSILON
  }

  // ----- thinning, on points

  /** The first k pairs of neighbours are apart. */
  predicate ApartTo(st: Style, ps: seq<Point>, k: int) {
    forall i :: 0 <= i < k && i + 1 < |ps| ==> Far(st, ps[i], ps[i + 1])
  }

  /** Adding a point drops the last one if it is too close to its neighbour. */
  function Added(st: Style, ps: seq<Point>, p: Point): seq<Point> {
    var n := |ps|;
    if n > 1 && !Far(st, ps[n - 2], ps[n - 1]) then ps[..n - 1] + [p] else ps + [p]
  }

  function AddAll(st: Style, points: seq<Point>): (r: seq<Point>)
    ensures ApartTo(st, r, |r| - 2)
    ensures points != [] ==> r != [] && r[|r| - 1] == points[|points| - 1] && (|r| > 1 ==> r[0] == points[0])
    ensures forall p :: p in r ==> p in points
  {
    if points == [] then []
    else
      var r := AddAll(st, points[..|points| - 1]);
      assert forall p :: p in points[..|points| - 1] ==> p in points;
      Added(st, r, points[|points| - 1])
  }

  /** Too near: every vertex from m up to the last is within epsilon of p. */
  predicate NearFrom(st: Style, ps: seq<Point>, m: int, p: Point) {
    forall j :: 0 <= m <= j < |ps| ==> !Far(st, ps[j], p)
  }

  /** Ending a path. */
  function TailClosed(st: Style, ps: seq<Point>): seq<Point>
    decreases |ps|
  {
    var n := |ps|;
    if n > 1 && !Far(st, ps[n - 2], ps[n - 1]) then TailClosed(st, Added(st, ps[..n - 2], ps[n - 1])) else ps
  }

  /** It keeps the last vertex and drops those just before that are too near to it:
      what stays is the longest beginning that ends apart from it. */
  lemma {:induction false} TailClosedIs(st: Style, ps: seq<Point>)
    requires ps != [] && ApartTo(st, ps, |ps| - 2)
    ensures var r, t := TailClosed(st, ps), ps[|ps| - 1];
            && ApartTo(st, r, |r|) && r != [] && |r| <= |ps|
            && r == ps[..|r| - 1] + [t] && NearFrom(st, ps[..|ps| - 1], |r| - 1, t)
    decreases |ps|
  {
    var n := |ps|;
    if n > 1 && !Far(st, ps[n - 2], ps[n - 1]) {
      var kept, t := ps[..n - 2], ps[n - 1];
      WithoutNeighbour(st, ps);
      TailClosedIs(st, kept + [t]);
      hide *;
      KeptTail(st, ps, TailClosed(st, kept + [t]));
    } else {
      assert ps == ps[..n - 1] + [ps[n - 1]];
    }
  }

  lemma KeptTail(st: Style, ps: seq<Point>, r: seq<Point>)
    requires |ps| > 1 && 0 < |r| < |ps| && !Far(st, ps[|ps| - 2], ps[|ps| - 1])
    requires var qs, m := ps[..|ps| - 2] + [ps[|ps| - 1]], |r| - 1;
             r == qs[..m] + [ps[|ps| - 1]] && NearFrom(st, qs[..|ps| - 2], m, ps[|ps| - 1])
    ensures r == ps[..|r| - 1] + [ps[|ps| - 1]] && NearFrom(st, ps[..|ps| - 1], |r| - 1, ps[|ps| - 1])
  {
    hide *;
    var kept, t := ps[..|ps| - 2], ps[|ps| - 1];
    assert (kept + [t])[..|ps| - 2] == kept && (kept + [t])[..|r| - 1] == ps[..|r| - 1];
    NearFromMore(st, ps, |r| - 1);
  }

  lemma WithoutNeighbour(st: Style, ps: seq<Point>)
    requires |ps| > 1 && ApartTo(st, ps, |ps| - 2)
    ensures var n := |ps|; Added(st, ps[..n - 2], ps[n - 1]) == ps[..n - 2] + [ps[n - 1]]
    ensures var n := |ps|; ApartTo(st, ps[..n - 2] + [ps[n - 1]], n - 3)
  {
    hide Far;
    var n := |ps|;
    if n > 3 {
      assert Far(st, ps[n - 4], ps[n - 3]);
    }
  }

  lemma NearFromMore(st: Style, ps: seq<Point>, m: int)
    requires |ps| > 1 && NearFrom(st, ps[..|ps| - 2], m, ps[|ps| - 1]) && !Far(st, ps[|ps| - 2], ps[|ps| - 1])
    ensures NearFrom(st, ps[..|ps| - 1], m, ps[|ps| - 1])
  {
    hide Far;
    var n, qs := |ps|, ps[..|ps| - 1];
    forall j | 0 <= m <= j < |qs| ensures !Far(st, qs[j], ps[n - 1]) {
      assert j < n - 2 ==> ps[..n - 2][j] == ps[j];
    }
  }

  /** Closing a ring drops the vertices at its end that are too near to its first. */
  function LoopClosed(st: Style, ps: seq<Point>): (r: seq<Point>)
    ensures r <= ps && (ps != [] ==> r != [] && NearFrom(st, ps, |r|, ps[0]))
    ensures |r| > 1 ==> Far(st, r[|r| - 1], r[0])
    decreases |ps|
  {
    var n := |ps|;
    if n > 1 && !Far(st, ps[n - 1], ps[0]) then LoopClosed(st, ps[..n - 1]) else ps
  }

  /** Neighbours are apart, around the end as well on a ring. */
  predicate Thinned(st: Style, ps: seq<Point>, closed: bool) {
    ApartTo(st, ps, |ps|) && (closed && |ps| > 1 ==> Far(st, ps[|ps| - 1], ps[0]))
  }

  function Finished(st: Style, ps: seq<Point>, closed: bool): seq<Point> {
    if closed then LoopClosed(st, TailClosed(st, ps)) else TailClosed(st, ps)
  }

  /** The vertices a subpath is stroked with. */
  function Thin(st: Style, points: seq<Point>, closed: bool): seq<Point> {
    Finished(st, AddAll(st, points), closed)
  }

  lemma ThinIsThin(st: Style, points: seq<Point>, closed: bool)
    ensures var r := Thin(st, points, closed); Thinned(st, r, closed) && forall p :: p in r ==> p in points
    ensures !closed && points != [] ==> var r := Thin(st, points, closed); r != [] && r[|r| - 1] == points[|points| - 1]
  {
    hide Far, Added;
    if points != [] {
      TailClosedIs(st, AddAll(st, points));
    }
  }

  /** A path that is already thin loses nothing. */
  lemma {:induction false} ThinKeeps(st: Style, points: seq<Point>, closed: bool)
    requires Thinned(st, points, closed)
    ensures Thin(st, points, closed) == points
  {
    AddAllKeeps(st, points);
  }

  lemma {:induction false} AddAllKeeps(st: Style, points: seq<Point>)
    requires ApartTo(st, points, |points|)
    ensures AddAll(st, points) == points
    decreases |points|
  {
    if points != [] {
      var ps := points[..|points| - 1];
      assert forall i :: 0 <= i < |ps| ==> ps[i] == points[i];
      AddAllKeeps(st, ps);
    }
  }

  // ----- thinning, in place

  datatype VertexDist = VertexDist(p: Point, dist: real)

  function PointsOf(v: seq<VertexDist>): (ps: seq<Point>)
    ensures |ps| == |v|
  {
    seq(|v|, i requires 0 <= i < |v| => v[i].p)
  }

  /** The first k vertices hold the true distance to the next, which is apart. */
  predicate Linked(st: Style, v: seq<VertexDist>, k: int) {
    forall i :: 0 <= i < k && i + 1 < |v| ==> Far(st, v[i].p, v[i + 1].p) && v[i].dist == st.dist(v[i].p, v[i + 1].p)
  }

  lemma PointAt(v: seq<VertexDist>, i: nat)
    requires i < |v|
    ensures PointsOf(v)[i] == v[i].p
  {
  }

  lemma SamePoints(v: seq<VertexDist>, w: seq<VertexDist>)
    requires |v| == |w| && forall i :: 0 <= i < |v| ==> v[i].p == w[i].p
    ensures PointsOf(v) == PointsOf(w)
  {
  }

  lemma FrontPoints(v: seq<VertexDist>, w: seq<VertexDist>)
    requires |w| <= |v| && forall i :: 0 <= i < |w| ==> v[i].p == w[i].p
    ensures PointsOf(w) == PointsOf(v)[..|w|]
  {
  }

  lemma AddedLength(st: Style, ps: seq<Point>, p: Point)
    ensures 0 < |Added(st, ps, p)| <= |ps| + 1
  {
  }

  /** One step of ending a path. */
  lemma TailStep(st: Style, ps: seq<Point>)
    ensures var n := |ps|;
            TailClosed(st, ps) ==
            if n > 1 && !Far(st, ps[n - 2], ps[n - 1]) then TailClosed(st, Added(st, ps[..n - 2], ps[n - 1])) else ps
  {
    hide Far, Added;
  }

  /** One step of closing a ring. */
  lemma LoopStep(st: Style, ps: seq<Point>)
    ensures var n := |ps|;
            LoopClosed(st, ps) == if n > 1 && !Far(st, ps[n - 1], ps[0]) then LoopClosed(st, ps[..n - 1]) else ps
  {
    hide Far;
  }

  class VertexSequence {
    const style: Style
    var v: seq<VertexDist>

    constructor (style: Style)
      ensures this.style == style && v == []
    {
      this.style := style;
      v := [];
    }

    method RemoveAll()
      modifies this
      ensures v == []
    {
      v := [];
    }

    method RemoveLast()
      modifies this
      ensures v == if old(v) == [] then [] else old(v)[..|old(v)| - 1]
    {
      if |v| > 0 {
        v := v[..|v| - 1];
      }
    }

    /** v[i](v[j]): measures, and says whether the two are apart. */
    method Measure(i: nat, j: nat) returns (apart: bool)
      requires i < |v| && j < |v|
      modifies this
      ensures |v| == |old(v)| && apart == Far(style, v[i].p, v[j].p)
      ensures v == old(v)[i := old(v)[i].(dist := v[i].dist)]
      ensures v[i].dist == if apart then style.dist(v[i].p, v[j].p) else 1.0 / EPSILON
    {
      var d := style.dist(v[i].p, v[j].p);
      apart := d > EPSILON;
      v := v[i := v[i].(dist := if apart then d else 1.0 / EPSILON)];
    }

    method Add(p: Point)
      requires Linked(style, v, |v| - 2)
      modifies this
      ensures Linked(style, v, |v| - 2) && PointsOf(v) == Added(style, PointsOf(old(v)), p)
    {
      if |v| > 1 {
        var apart := Measure(|v| - 2, |v| - 1);
        if !apart {
          RemoveLast();
        }
      }
      v := v + [VertexDist(p, 0.0)];
    }

    method ModifyLast(p: Point)
      requires Linked(style, v, |v| - 2)
      modifies this
      ensures Linked(style, v, |v| - 2)
      ensures PointsOf(v) == Added(style, PointsOf(if old(v) == [] then [] else old(v)[..|old(v)| - 1]), p)
    {
      RemoveLast();
      Add(p);
    }

    method CloseTail()
      requires Linked(style, v, |v| - 2)
      modifies this
      ensures Linked(style, v, |v|)
      ensures PointsOf(v) == TailClosed(style, PointsOf(old(v)))
    {
      hide Far, TailClosed, Added;
      while |v| > 1
        invariant Linked(style, v, |v| - 2)
        invariant TailClosed(style, PointsOf(v)) == TailClosed(style, PointsOf(old(v)))
        decreases |v|
      {
        ghost var was := v;
        TailStep(style, PointsOf(v));
        var apart := Measure(|v| - 2, |v| - 1);
        SamePoints(was, v);
        if apart {
          break;
        }
        var t := v[|v| - 1];
        RemoveLast();
        FrontPoints(was, v[..|v| - 1]);
        AddedLength(style, PointsOf(v[..|v| - 1]), t.p);
        ModifyLast(t.p);
      }
      TailStep(style, PointsOf(v));
    }

    method CloseRing()
      requires Linked(style, v, |v|)
      modifies this
      ensures Linked(style, v, |v|)
      ensures PointsOf(v) == LoopClosed(style, PointsOf(old(v)))
      ensures |v| > 1 ==> v[|v| - 1].dist == style.dist(v[|v| - 1].p, v[0].p)
    {
      hide Far, LoopClosed, PointsOf;
      LoopStep(style, PointsOf(v));
      while |v| > 1
        invariant Linked(style, v, |v|)
        invariant LoopClosed(style, PointsOf(v)) == LoopClosed(style, PointsOf(old(v)))
        decreases |v|
      {
        ghost var was := v;
        LoopStep(style, PointsOf(v));
        PointAt(v, 0);
        PointAt(v, |v| - 1);
        var apart := Measure(|v| - 1, 0);
        SamePoints(was, v);
        if apart {
          break;
        }
        RemoveLast();
        FrontPoints(was, v);
      }
      LoopStep(style, PointsOf(v));
    }

    /** `VertexSequence::close`. */
    method Close(closed: bool)
      requires Linked(style, v, |v| - 2)
      modifies this
      ensures PointsOf(v) == Finished(style, PointsOf(old(v)), closed)
      ensures Linked(style, v, |v|)
      ensures closed && |v| > 1 ==> v[|v| - 1].dist == style.dist(v[|v| - 1].p, v[0].p)
    {
      CloseTail();
      if closed {
        CloseRing();
      }
    }
  }

  // ----- the outline of a subpath

  function Next(ps: seq<Point>, i: nat): Point
    requires i < |ps|
  {
    if i + 1 < |ps| then ps[i + 1] else ps[0]
  }

  function Prev(ps: seq<Point>, i: nat): Point
    requires i < |ps|
  {
    if i == 0 then ps[|ps| - 1] else ps[i - 1]
  }

  /** The join at vertex i of the left side, and of the way back. */
  function JoinUp(st: Style, ps: seq<Point>, i: nat): Points
    requires i < |ps|
  {
    var a, b, c := Prev(ps, i), ps[i], Next(ps, i);
    st.join(a, b, c, st.dist(a, b), st.dist(b, c))
  }

  function JoinDown(st: Style, ps: seq<Point>, i: nat): Points
    requires i < |ps|
  {
    var a, b, c := Next(ps, i), ps[i], Prev(ps, i);
    st.join(a, b, c, st.dist(b, a), st.dist(c, b))
  }

  /** The joins of the vertices from i up to but not including hi. */
  function JoinsUp(st: Style, ps: seq<Point>, i: nat, hi: nat): seq<Point>
    requires hi <= |ps|
    decreases hi - i
  {
    if i >= hi then [] else JoinUp(st, ps, i) + JoinsUp(st, ps, i + 1, hi)
  }

  /** The joins of the vertices below k, down to lo. */
  function JoinsDown(st: Style, ps: seq<Point>, k: nat, lo: nat): seq<Point>
    requires k <= |ps|
  {
    if k <= lo then [] else JoinDown(st, ps, k - 1) + JoinsDown(st, ps, k - 1, lo)
  }

  function CapStart(st: Style, ps: seq<Point>): Points
    requires |ps| >= 2
  {
    st.cap(ps[0], ps[1], st.dist(ps[0], ps[1]))
  }

  function CapEnd(st: Style, ps: seq<Point>): Points
    requires |ps| >= 2
  {
    var n := |ps|;
    st.cap(ps[n - 1], ps[n - 2], st.dist(ps[n - 2], ps[n - 1]))
  }

  // ----- path commands

  const STOP := 0
  const MOVE_TO := 1
  const LINE_TO := 2
  const END_POLY := 0x0F
  const FLAG_CCW := 0x10
  const FLAG_CW := 0x20
  const FLAG_CLOSE := 0x40

  predicate IsVertex(cmd: nat) {
    MOVE_TO <= cmd < END_POLY
  }

  predicate IsEndPoly(cmd: nat) {
    cmd % 16 == END_POLY
  }

  predicate CloseFlag(cmd: nat) {
    cmd / FLAG_CLOSE % 2 == 1
  }

  datatype Vertex = Vertex(p: Point, cmd: nat)

  /** A run of vertices, the first with its own command. */
  function Draw(first: nat, pts: seq<Point>): seq<Vertex>
    decreases |pts|
  {
    if pts == [] then [] else [Vertex(pts[0], first)] + Draw(LINE_TO, pts[1..])
  }

  /** A run of vertices and the end of its contour, which carries the coordinates
      of the vertex before it. */
  function Contour(first: nat, pts: seq<Point>, at: Point, turn: nat): seq<Vertex> {
    Draw(first, pts) + [Vertex(if pts == [] then at else pts[|pts| - 1], END_POLY + FLAG_CLOSE + turn)]
  }

  lemma ContourStep(first: nat, pts: seq<Point>, at: Point, turn: nat)
    requires pts != []
    ensures Contour(first, pts, at, turn) == [Vertex(pts[0], first)] + Contour(LINE_TO, pts[1..], pts[0], turn)
  {
  }

  lemma ContourAnywhere(first: nat, pts: seq<Point>, a: Point, b: Point, turn: nat)
    requires pts != []
    ensures Contour(first, pts, a, turn) == Contour(first, pts, b, turn)
  {
  }

  /** The way around an open path, from its first cap. */
  function AroundOpen(st: Style, ps: seq<Point>): seq<Point>
    requires |ps| >= 2
  {
    CapStart(st, ps) + (JoinsUp(st, ps, 1, |ps| - 1) + WayBack(st, ps))
  }

  function WayBack(st: Style, ps: seq<Point>): seq<Point>
    requires |ps| >= 2
  {
    CapEnd(st, ps) + JoinsDown(st, ps, |ps| - 1, 1)
  }

  /** The second contour of a ring. */
  function InnerRing(st: Style, ps: seq<Point>): seq<Vertex>
    requires ps != []
  {
    Contour(MOVE_TO, JoinsDown(st, ps, |ps|, 0), ps[0], FLAG_CW)
  }

  /** The outline: an open path is gone around once, a ring on both of its sides,
      and fewer than two vertices leave nothing. */
  function Outline(st: Style, ps: seq<Point>, closed: bool): seq<Vertex> {
    if |ps| < 2 then []
    else if closed && |ps| >= 3 then
      Contour(MOVE_TO, JoinsUp(st, ps, 0, |ps|), ps[0], FLAG_CCW) + InnerRing(st, ps)
    else Contour(MOVE_TO, AroundOpen(st, ps), ps[0], FLAG_CW)
  }

  // ----- the generator

  datatype Status = Initial | Ready | Cap1 | Cap2 | Outline1 | CloseFirst | Outline2 | OutVertices | EndPoly1 | EndPoly2
                  | Stopped

  /** Where the generator is, apart from the vertices computed already: the stage it
      is in or goes to next, and its place among the source's vertices. */
  predicate SoundStage(n: nat, closed: bool, stage: Status, src: nat) {
    && (closed ==> n >= 3)
    && match stage
       case Cap1 => !closed && n >= 2
       case Outline1 => n >= 2 && (if closed then src <= n else 1 <= src <= n - 1)
       case Cap2 => !closed && n >= 2 && src == n - 1
       case CloseFirst => closed && src == n
       case Outline2 => n >= 2 && src <= if closed then n else n - 1
       case EndPoly1 => closed && src == n
       case OutVertices => false
       case _ => true
  }

  /** The vertices still to compute for the contour a stage is in. */
  function StagePoints(st: Style, ps: seq<Point>, closed: bool, stage: Status, src: nat): seq<Point>
    requires SoundStage(|ps|, closed, stage, src)
  {
    match stage
    case Cap1 => AroundOpen(st, ps)
    case Outline1 =>
      if closed then JoinsUp(st, ps, src, |ps|) else JoinsUp(st, ps, src, |ps| - 1) + WayBack(st, ps)
    case Cap2 => WayBack(st, ps)
    case Outline2 => JoinsDown(st, ps, src, if closed then 0 else 1)
    case _ => []
  }

  /** All that is still to come, when outs has been computed but not handed out,
      the next vertex gets the command first and the last one was at. */
  function Pending(st: Style, ps: seq<Point>, closed: bool, stage: Status, src: nat,
                   outs: seq<Point>, first: nat, at: Point): seq<Vertex>
    requires SoundStage(|ps|, closed, stage, src)
  {
    match stage
    case Initial | Ready => Outline(st, ps, closed)
    case Stopped => []
    case EndPoly1 => Contour(first, [], at, FLAG_CCW) + InnerRing(st, ps)
    case CloseFirst => InnerRing(st, ps)
    case _ =>
      var pts := outs + StagePoints(st, ps, closed, stage, src);
      if stage.Outline1? && closed then Contour(first, pts, at, FLAG_CCW) + InnerRing(st, ps)
      else Contour(first, pts, at, FLAG_CW)
  }

  /** Handing out a computed vertex. */
  lemma PendingStep(st: Style, ps: seq<Point>, closed: bool, stage: Status, src: nat,
                    outs: seq<Point>, first: nat, at: Point)
    requires SoundStage(|ps|, closed, stage, src) && outs != [] && (stage.Outline1? || stage.Outline2?)
    ensures Pending(st, ps, closed, stage, src, outs, first, at) ==
            [Vertex(outs[0], first)] + Pending(st, ps, closed, stage, src, outs[1..], LINE_TO, outs[0])
  {
    var left := StagePoints(st, ps, closed, stage, src);
    hide StagePoints, Contour, InnerRing;
    assert (outs + left)[0] == outs[0] && (outs + left)[1..] == outs[1..] + left;
    if stage.Outline1? && closed {
      ContourStep(first, outs + left, at, FLAG_CCW);
    } else {
      ContourStep(first, outs + left, at, FLAG_CW);
    }
  }

  // ----- one stage leads to the next

  lemma FromReady(st: Style, ps: seq<Point>, closed: bool, at: Point)
    requires SoundStage(|ps|, closed, Ready, 0) && |ps| >= 2
    ensures Outline(st, ps, closed) ==
            Pending(st, ps, closed, if closed then Outline1 else Cap1, 0, [], MOVE_TO, at)
  {
    hide Contour, AroundOpen, InnerRing;
    var pts := if closed then JoinsUp(st, ps, 0, |ps|) else AroundOpen(st, ps);
    assert [] + pts == pts;
    AroundSome(st, ps);
    ContourAnywhere(MOVE_TO, pts, ps[0], at, if closed then FLAG_CCW else FLAG_CW);
  }

  lemma AroundSome(st: Style, ps: seq<Point>)
    requires |ps| >= 2
    ensures AroundOpen(st, ps) != [] && JoinsUp(st, ps, 0, |ps|) != [] && JoinsDown(st, ps, |ps|, 0) != []
  {
  }

  lemma FromCap1(st: Style, ps: seq<Point>, src: nat, first: nat, at: Point)
    requires |ps| >= 2
    ensures Pending(st, ps, false, Cap1, src, [], first, at) ==
            Pending(st, ps, false, Outline1, 1, CapStart(st, ps), first, at)
  {
    hide Contour, JoinsUp, WayBack, CapStart, InnerRing;
    assert [] + AroundOpen(st, ps) == AroundOpen(st, ps);
  }

  lemma FromCap2(st: Style, ps: seq<Point>, first: nat, at: Point)
    requires |ps| >= 2
    ensures Pending(st, ps, false, Cap2, |ps| - 1, [], first, at) ==
            Pending(st, ps, false, Outline2, |ps| - 1, CapEnd(st, ps), first, at)
  {
    hide Contour, JoinsDown, CapEnd, InnerRing;
    assert [] + WayBack(st, ps) == WayBack(st, ps);
  }

  /** At the end of the left side: the way back, or the first ring's end. */
  lemma FromOutline1Done(st: Style, ps: seq<Point>, closed: bool, src: nat, first: nat, at: Point)
    requires SoundStage(|ps|, closed, Outline1, src) && src == if closed then |ps| else |ps| - 1
    ensures Pending(st, ps, closed, Outline1, src, [], first, at) ==
            Pending(st, ps, closed, if closed then EndPoly1 else Cap2, src, [], first, at)
  {
    hide Contour, WayBack, InnerRing;
    var none: seq<Point> := [];
    assert JoinsUp(st, ps, src, src) == none && none + none == none;
    assert none + (none + WayBack(st, ps)) == none + WayBack(st, ps);
  }

  lemma FromOutline1(st: Style, ps: seq<Point>, closed: bool, src: nat, first: nat, at: Point)
    requires SoundStage(|ps|, closed, Outline1, src) && src < if closed then |ps| else |ps| - 1
    ensures Pending(st, ps, closed, Outline1, src, [], first, at) ==
            Pending(st, ps, closed, Outline1, src + 1, JoinUp(st, ps, src), first, at)
  {
    hide Contour, WayBack, InnerRing, JoinUp;
    var hi := if closed then |ps| else |ps| - 1;
    var join, rest := JoinUp(st, ps, src), JoinsUp(st, ps, src + 1, hi);
    assert JoinsUp(st, ps, src, hi) == join + rest;
    hide JoinsUp;
    assert closed ==> [] + (join + rest) == join + rest;
    assert [] + ((join + rest) + WayBack(st, ps)) == join + (rest + WayBack(st, ps));
  }

  lemma FromCloseFirst(st: Style, ps: seq<Point>, first: nat, at: Point)
    requires SoundStage(|ps|, true, CloseFirst, |ps|)
    ensures Pending(st, ps, true, CloseFirst, |ps|, [], first, at) ==
            Pending(st, ps, true, Outline2, |ps|, [], MOVE_TO, at)
  {
    AroundSome(st, ps);
    hide Contour, JoinsDown;
    assert [] + JoinsDown(st, ps, |ps|, 0) == JoinsDown(st, ps, |ps|, 0);
    ContourAnywhere(MOVE_TO, JoinsDown(st, ps, |ps|, 0), ps[0], at, FLAG_CW);
  }

  lemma FromOutline2Done(st: Style, ps: seq<Point>, closed: bool, src: nat, first: nat, at: Point)
    requires SoundStage(|ps|, closed, Outline2, src) && src <= if closed then 0 else 1
    ensures Pending(st, ps, closed, Outline2, src, [], first, at) ==
            Pending(st, ps, closed, EndPoly2, src, [], first, at)
  {
  }

  lemma FromOutline2(st: Style, ps: seq<Point>, closed: bool, src: nat, first: nat, at: Point)
    requires SoundStage(|ps|, closed, Outline2, src) && src > if closed then 0 else 1
    ensures Pending(st, ps, closed, Outline2, src, [], first, at) ==
            Pending(st, ps, closed, Outline2, src - 1, JoinDown(st, ps, src - 1), first, at)
  {
    hide Contour, InnerRing, JoinDown;
    var lo := if closed then 0 else 1;
    var join, rest := JoinDown(st, ps, src - 1), JoinsDown(st, ps, src - 1, lo);
    assert JoinsDown(st, ps, src, lo) == join + rest;
    hide JoinsDown;
    assert [] + (join + rest) == join + rest;
  }

  /** The stages with nothing computed: the outline is still ahead, a contour ends,
      or all is done. */
  lemma PlainStages(st: Style, ps: seq<Point>, closed: bool, src: nat, first: nat, at: Point)
    requires SoundStage(|ps|, closed, Ready, src)
    ensures Pending(st, ps, closed, Ready, src, [], first, at) == Outline(st, ps, closed)
    ensures closed && src == |ps| ==>
              Pending(st, ps, closed, EndPoly1, src, [], first, at) ==
              [Vertex(at, END_POLY + FLAG_CLOSE + FLAG_CCW)] + Pending(st, ps, closed, CloseFirst, src, [], LINE_TO, at)
    ensures Pending(st, ps, closed, EndPoly2, src, [], first, at) ==
            [Vertex(at, END_POLY + FLAG_CLOSE + FLAG_CW)] + Pending(st, ps, closed, Stopped, src, [], LINE_TO, at)
    ensures Pending(st, ps, closed, Stopped, src, [], first, at) == []
  {
  }

  // ----- the code

  /** The distances the code reads beside vertex i are those of the points. */
  predicate RingLinked(st: Style, v: seq<VertexDist>, closed: bool) {
    Linked(st, v, |v|) && (closed && |v| > 1 ==> v[|v| - 1].dist == st.dist(v[|v| - 1].p, v[0].p))
  }

  /** The index the code computes for the vertex before i. */
  lemma PrevIndex(i: nat, n: nat)
    requires i < n
    ensures (i + n - 1) % n == if i == 0 then n - 1 else i - 1
  {
    if i == 0 {
      DivModUnique(n - 1, n, 0, n - 1);
    } else {
      DivModUnique(i + n - 1, n, 1, i - 1);
    }
  }

  lemma NextIndex(i: nat, n: nat)
    requires i < n
    ensures (i + 1) % n == if i + 1 < n then i + 1 else 0
  {
    if i + 1 < n {
      DivModUnique(i + 1, n, 0, i + 1);
    } else {
      DivModUnique(n, n, 1, 0);
    }
  }

  /** The stored lengths at an inner vertex, or at any vertex of a ring. */
  lemma LengthsAt(st: Style, v: seq<VertexDist>, closed: bool, i: nat)
    requires RingLinked(st, v, closed) && i < |v| && (closed || 1 <= i < |v| - 1)
    ensures var ps, k := PointsOf(v), if i == 0 then |v| - 1 else i - 1;
            v[k].p == Prev(ps, i) && (|v| > 1 ==> v[k].dist == st.dist(Prev(ps, i), ps[i]))
    ensures var ps, k := PointsOf(v), if i + 1 < |v| then i + 1 else 0;
            v[k].p == Next(ps, i) && (|v| > 1 ==> v[i].dist == st.dist(ps[i], Next(ps, i)))
  {
    if i > 0 {
      assert Far(st, v[i - 1].p, v[i].p);
    }
  }

  class VcgenStroke {
    const style: Style
    const source: VertexSequence
    var closed: bool
    var status: Status
    var prevStatus: Status
    var srcVertex: nat
    var outVertex: nat
    var outVertices: seq<Point>

    constructor (style: Style)
      ensures this.style == style && fresh(source) && Valid() && status == Initial && source.v == [] && !closed
    {
      this.style := style;
      source := new VertexSequence(style);
      closed, status, prevStatus, srcVertex, outVertex, outVertices := false, Initial, Initial, 0, 0, [];
    }

    ghost function Stage(): Status
      reads this
    {
      if status == OutVertices then prevStatus else status
    }

    ghost function Outs(): seq<Point>
      requires status == OutVertices ==> outVertex <= |outVertices|
      reads this
    {
      if status == OutVertices then outVertices[outVertex..] else []
    }

    ghost predicate Valid()
      reads this, source
    {
      && source.style == style
      && if status == Initial then Linked(style, source.v, |source.v| - 2)
         else
           && RingLinked(style, source.v, closed) && SoundStage(|source.v|, closed, Stage(), srcVertex)
           && (status == OutVertices ==> outVertex <= |outVertices| && (prevStatus == Outline1 || prevStatus == Outline2))
           && (status == EndPoly1 ==> prevStatus == CloseFirst)
           && (status == EndPoly2 ==> prevStatus == Stopped)
    }

    /** What is still to come when the next vertex gets the command first and the
        last vertex handed out was at. */
    ghost function Rest(first: nat, at: Point): seq<Vertex>
      requires Valid()
      reads this, source
    {
      if status == Initial then Whole()
      else Pending(style, PointsOf(source.v), closed, Stage(), srcVertex, Outs(), first, at)
    }

    /** The outline of the vertices collected. */
    ghost function Whole(): seq<Vertex>
      reads this, source
    {
      var ps := PointsOf(source.v);
      if status == Initial then Outline(style, Finished(style, ps, closed), closed) else Outline(style, ps, closed)
    }

    method RemoveAll()
      requires Valid()
      modifies this, source
      ensures Valid() && status == Initial && source.v == [] && !closed
    {
      source.RemoveAll();
      closed, status := false, Initial;
    }

    method AddVertex(p: Point, cmd: nat)
      requires Valid() && status == Initial
      modifies this, source
      ensures Valid() && status == Initial
      ensures var was := PointsOf(old(source.v));
              PointsOf(source.v) ==
              if cmd == MOVE_TO then Added(style, if was == [] then [] else was[..|was| - 1], p)
              else if IsVertex(cmd) then Added(style, was, p) else was
      ensures closed == if IsVertex(cmd) then old(closed) else CloseFlag(cmd)
    {
      hide Linked, Added;
      status := Initial;
      if cmd == MOVE_TO {
        assert source.v != [] ==> PointsOf(source.v[..|source.v| - 1]) == PointsOf(source.v)[..|source.v| - 1];
        source.ModifyLast(p);
      } else if IsVertex(cmd) {
        source.Add(p);
      } else {
        closed := CloseFlag(cmd);
      }
    }

    method Rewind()
      requires Valid()
      modifies this, source
      ensures Valid() && status == Ready && Whole() == old(Whole())
    {
      hide Linked, TailClosed, LoopClosed, AroundOpen, Contour, InnerRing, JoinsUp;
      if status == Initial {
        source.Close(closed);
        if |source.v| < 3 {
          closed := false;
        }
      }
      status, srcVertex, outVertex := Ready, 0, 0;
    }

    /** How far the stage is from handing something out. */
    ghost function Rank(): nat
      reads this
    {
      match status
      case Initial => 9
      case Ready => 8
      case OutVertices => if outVertex < |outVertices| then 1 else 7
      case Cap1 => 6
      case Outline1 => 5
      case Cap2 | CloseFirst => 4
      case Outline2 => 3
      case _ => 1
    }

    /** The vertices before, at and after idx, and the lengths between them. */
    method JoinAt(idx: nat, back: bool) returns (out: Points)
      requires RingLinked(style, source.v, closed) && source.style == style
      requires idx < |source.v| && 2 <= |source.v| && (closed || 1 <= idx < |source.v| - 1)
      ensures var ps := PointsOf(source.v); out == if back then JoinDown(style, ps, idx) else JoinUp(style, ps, idx)
    {
      var n := |source.v|;
      PrevIndex(idx, n);
      NextIndex(idx, n);
      LengthsAt(style, source.v, closed, idx);
      hide RingLinked;
      var prev, curr, next := source.v[(idx + n - 1) % n], source.v[idx], source.v[(idx + 1) % n];
      if back {
        out := style.join(next.p, curr.p, prev.p, curr.dist, prev.dist);
      } else {
        out := style.join(prev.p, curr.p, next.p, prev.dist, curr.dist);
      }
    }

    method TakeCap1(ghost first: nat, ghost at: Point)
      requires Valid() && status == Cap1
      modifies this
      ensures Valid() && Rest(first, at) == old(Rest(first, at)) && Rank() < old(Rank())
    {
      hide JoinsUp, WayBack, Contour, InnerRing, StagePoints;
      FromCap1(style, PointsOf(source.v), srcVertex, first, at);
      assert Far(style, source.v[0].p, source.v[1].p);
      outVertices := style.cap(source.v[0].p, source.v[1].p, source.v[0].dist);
      srcVertex, prevStatus, status, outVertex := 1, Outline1, OutVertices, 0;
      assert outVertices[0..] == outVertices;
      hide Pending;
    }

    method TakeCap2(ghost first: nat, ghost at: Point)
      requires Valid() && status == Cap2
      modifies this
      ensures Valid() && Rest(first, at) == old(Rest(first, at)) && Rank() < old(Rank())
    {
      hide JoinsDown, Contour, InnerRing, StagePoints;
      FromCap2(style, PointsOf(source.v), first, at);
      var n := |source.v|;
      assert Far(style, source.v[n - 2].p, source.v[n - 1].p);
      outVertices := style.cap(source.v[n - 1].p, source.v[n - 2].p, source.v[n - 2].dist);
      prevStatus, status, outVertex := Outline2, OutVertices, 0;
      assert outVertices[0..] == outVertices;
      hide Pending;
    }

    method TakeOutline1(ghost first: nat, ghost at: Point)
      requires Valid() && status == Outline1
      modifies this
      ensures Valid() && Rest(first, at) == old(Rest(first, at)) && Rank() < old(Rank())
    {
      hide RingLinked, Pending, JoinUp, JoinsUp, WayBack, Contour, InnerRing;
      if srcVertex >= (if closed then |source.v| else |source.v| - 1) {
        FromOutline1Done(style, PointsOf(source.v), closed, srcVertex, first, at);
        if closed {
          prevStatus, status := CloseFirst, EndPoly1;
        } else {
          status := Cap2;
        }
      } else {
        FromOutline1(style, PointsOf(source.v), closed, srcVertex, first, at);
        outVertices := JoinAt(srcVertex, false);
        srcVertex, prevStatus, status, outVertex := srcVertex + 1, Outline1, OutVertices, 0;
        assert outVertices[0..] == outVertices;
      }
    }

    method TakeOutline2(ghost first: nat, ghost at: Point)
      requires Valid() && status == Outline2
      modifies this
      ensures Valid() && Rest(first, at) == old(Rest(first, at)) && Rank() < old(Rank())
    {
      hide RingLinked, Pending, JoinDown, JoinsDown, Contour;
      if srcVertex <= (if closed then 0 else 1) {
        FromOutline2Done(style, PointsOf(source.v), closed, srcVertex, first, at);
        status, prevStatus := EndPoly2, Stopped;
      } else {
        FromOutline2(style, PointsOf(source.v), closed, srcVertex, first, at);
        srcVertex := srcVertex - 1;
        outVertices := JoinAt(srcVertex, true);
        prevStatus, status, outVertex := Outline2, OutVertices, 0;
        assert outVertices[0..] == outVertices;
      }
    }

    /** The start of the first contour; false if there is nothing to stroke. */
    method TakeReady(ghost at: Point) returns (any: bool)
      requires Valid() && status == Ready
      modifies this
      ensures Valid() && Rank() < old(Rank()) + (if any then 0 else 1)
      ensures if any then Rest(MOVE_TO, at) == old(Whole()) else old(Whole()) == [] && Rest(LINE_TO, at) == []
    {
      hide RingLinked, Pending;
      if |source.v| < 2 + (if closed then 1 else 0) {
        PlainStages(style, PointsOf(source.v), closed, srcVertex, LINE_TO, at);
        return false;
      }
      FromReady(style, PointsOf(source.v), closed, at);
      status := if closed then Outline1 else Cap1;
      srcVertex, outVertex := 0, 0;
      return true;
    }

    /** The next vertex of a cap or join, or where to go on when it is spent. */
    method TakeVertex(ghost first: nat, at: Point) returns (any: bool, p: Point)
      requires Valid() && status == OutVertices
      modifies this
      ensures Valid() && status != Initial && (any ==> old(Rest(first, at)) == [Vertex(p, first)] + Rest(LINE_TO, p))
      ensures !any ==> p == at && Rest(first, at) == old(Rest(first, at)) && Rank() < old(Rank())
    {
      hide RingLinked, Pending;
      if outVertex >= |outVertices| {
        assert outVertices[outVertex..] == [];
        status := prevStatus;
        return false, at;
      }
      PendingStep(style, PointsOf(source.v), closed, prevStatus, srcVertex, Outs(), first, at);
      p := outVertices[outVertex];
      outVertex := outVertex + 1;
      return true, p;
    }

    /** The end of a contour. */
    method TakeEnd(ghost first: nat, at: Point) returns (cmd: nat)
      requires Valid() && (status == EndPoly1 || status == EndPoly2)
      modifies this
      ensures Valid() && status != Initial && cmd != STOP
      ensures old(Rest(first, at)) == [Vertex(at, cmd)] + Rest(LINE_TO, at)
    {
      hide RingLinked, Pending, Outline, PointsOf;
      PlainStages(style, PointsOf(source.v), closed, srcVertex, first, at);
      cmd := END_POLY + FLAG_CLOSE + if status == EndPoly1 then FLAG_CCW else FLAG_CW;
      status := prevStatus;
    }

    /** `VcgenStroke::vertex`: one command of what is still to come. */
    method NextVertex(at: Point) returns (cmd: nat, p: Point)
      requires Valid()
      modifies this, source
      ensures Valid() && status != Initial
      ensures cmd == STOP ==> p == at && old(Rest(LINE_TO, at)) == []
      ensures cmd != STOP ==> old(Rest(LINE_TO, at)) == [Vertex(p, cmd)] + Rest(LINE_TO, p)
    {
      hide RingLinked, Pending, Outline, Linked;
      cmd, p := LINE_TO, at;
      while cmd != STOP
        invariant Valid() && p == at && (cmd == STOP || cmd == LINE_TO || cmd == MOVE_TO)
        invariant cmd != STOP ==> Rest(cmd, at) == old(Rest(LINE_TO, at))
        invariant cmd == STOP ==> status != Initial && old(Rest(LINE_TO, at)) == []
        decreases if cmd == STOP then 0 else 1, Rank()
      {
        if status == Initial {
          Rewind();
        }
        PlainStages(style, PointsOf(source.v), closed, srcVertex, cmd, at);
        match status
        case Ready =>
          var any := TakeReady(at);
          cmd := if any then MOVE_TO else STOP;
        case Cap1 => TakeCap1(cmd, at);
        case Cap2 => TakeCap2(cmd, at);
        case Outline1 => TakeOutline1(cmd, at);
        case CloseFirst =>
          FromCloseFirst(style, PointsOf(source.v), cmd, at);
          status, cmd := Outline2, MOVE_TO;
          TakeOutline2(cmd, at);
        case Outline2 => TakeOutline2(cmd, at);
        case OutVertices =>
          var any;
          any, p := TakeVertex(cmd, at);
          if any {
            return;
          }
        case EndPoly1 | EndPoly2 =>
          cmd := TakeEnd(cmd, at);
          return;
        case Stopped => cmd := STOP;
      }
    }
  }

  // ----- the whole path

  /** One subpath read from a path: its points, whether it is closed, where reading
      goes on, the point the next subpath starts at, and whether there is one. */
  datatype Round = Round(points: seq<Point>, closed: bool, next: nat, start: Point, more: bool)

  function ReadRound(list: seq<Vertex>, i: nat, points: seq<Point>, start: Point): (r: Round)
    requires i <= |list|
    ensures r.next <= |list| && (r.more ==> i < r.next)
    decreases |list| - i
  {
    if i == |list| then Round(points, false, i, start, false)
    else
      var v := list[i];
      if v.cmd == STOP then Round(points, false, i + 1, start, false)
      else if v.cmd == MOVE_TO then Round(points, false, i + 1, v.p, true)
      else if IsVertex(v.cmd) then ReadRound(list, i + 1, points + [v.p], start)
      else if IsEndPoly(v.cmd) then Round(points, CloseFlag(v.cmd), i + 1, start, true)
      else ReadRound(list, i + 1, points, start)
  }

  function StrokeSubpath(st: Style, points: seq<Point>, closed: bool): seq<Vertex> {
    Outline(st, Thin(st, points, closed), closed)
  }

  /** The strokes of the subpaths from position i on, the first starting at start. */
  function StrokesFrom(st: Style, list: seq<Vertex>, i: nat, start: Point, more: bool): seq<Vertex>
    requires i <= |list|
    decreases more, |list| - i
  {
    if !more then []
    else
      var r := ReadRound(list, i, [start], start);
      StrokeSubpath(st, r.points, r.closed) + StrokesFrom(st, list, r.next, r.start, r.more)
  }

  /** The path's first vertex starts its first subpath, whatever its command. */
  function Strokes(st: Style, list: seq<Vertex>): seq<Vertex> {
    if list == [] || list[0].cmd == STOP then [] else StrokesFrom(st, list, 1, list[0].p, true)
  }

  lemma NextStrokes(st: Style, list: seq<Vertex>, i: nat, start: Point)
    requires i <= |list|
    ensures var r := ReadRound(list, i, [start], start);
            StrokesFrom(st, list, i, start, true) ==
            StrokeSubpath(st, r.points, r.closed) + StrokesFrom(st, list, r.next, r.start, r.more)
  {
    hide StrokeSubpath, ReadRound;
  }

  lemma NoStrokes(st: Style, list: seq<Vertex>, i: nat, start: Point)
    requires i <= |list|
    ensures StrokesFrom(st, list, i, start, false) == []
  {
  }

  /** Reads one subpath into an empty generator. */
  method Accumulate(generator: VcgenStroke, list: seq<Vertex>, i: nat, startIn: Point, atIn: Point)
    returns (next: nat, start: Point, more: bool, at: Point)
    requires generator.Valid() && i <= |list|
    modifies generator, generator.source
    ensures generator.Valid() && generator.status == Ready
    ensures var r := ReadRound(list, i, [startIn], startIn);
            && next == r.next && start == r.start && more == r.more
            && generator.Whole() == StrokeSubpath(generator.style, r.points, r.closed)
  {
    hide Linked, Added, Finished, Outline, RingLinked, IsEndPoly, CloseFlag;
    generator.RemoveAll();
    generator.AddVertex(startIn, MOVE_TO);
    FirstAdded(generator.style, startIn);
    ghost var points := [startIn];
    next, start, more, at := i, startIn, true, atIn;
    while true
      invariant generator.Valid() && generator.status == Initial && !generator.closed
      invariant next <= |list| && more && start == startIn
      invariant PointsOf(generator.source.v) == AddAll(generator.style, points)
      invariant ReadRound(list, next, points, startIn) == ReadRound(list, i, [startIn], startIn)
      decreases |list| - next
    {
      if next == |list| {
        more := false;
        break;
      }
      var v := list[next];
      next := next + 1;
      if IsVertex(v.cmd) {
        at := v.p;
        if v.cmd == MOVE_TO {
          start := v.p;
          break;
        }
        generator.AddVertex(v.p, v.cmd);
        NextAdded(generator.style, points, v.p);
        points := points + [v.p];
      } else if v.cmd == STOP {
        more := false;
        break;
      } else {
        at := v.p;
        if IsEndPoly(v.cmd) {
          generator.AddVertex(v.p, v.cmd);
          break;
        }
      }
    }
    generator.Rewind();
  }

  lemma FirstAdded(st: Style, p: Point)
    ensures AddAll(st, [p]) == Added(st, [], p)
  {
    assert [p][..0] == [];
  }

  lemma NextAdded(st: Style, points: seq<Point>, p: Point)
    ensures AddAll(st, points + [p]) == Added(st, AddAll(st, points), p)
  {
    assert (points + [p])[..|points|] == points;
  }

  /** The generate state: hands out all that is to come. */
  method Generate(generator: VcgenStroke, out: seq<Vertex>, atIn: Point) returns (out': seq<Vertex>, at: Point)
    requires generator.Valid() && generator.status == Ready
    modifies generator, generator.source
    ensures generator.Valid() && out' == out + old(generator.Whole())
  {
    hide RingLinked, Linked, Pending, Outline, Finished;
    out', at := out, atIn;
    PlainStages(generator.style, PointsOf(generator.source.v), generator.closed, generator.srcVertex, LINE_TO, at);
    while true
      invariant generator.Valid()
      invariant out' + generator.Rest(LINE_TO, at) == out + old(generator.Whole())
      decreases |generator.Rest(LINE_TO, at)|
    {
      ghost var left := generator.Rest(LINE_TO, at);
      var cmd, p := generator.NextVertex(at);
      at := p;
      if cmd == STOP {
        return;
      }
      assert out' + left == (out' + [Vertex(p, cmd)]) + generator.Rest(LINE_TO, p);
      out' := out' + [Vertex(p, cmd)];
    }
  }

  /** `conv_stroke`. */
  method ConvStroke(style: Style, list: seq<Vertex>) returns (out: seq<Vertex>)
    ensures out == Strokes(style, list)
  {
    out := [];
    if list == [] || list[0].cmd == STOP {
      return;
    }
    hide *;
    var generator := new VcgenStroke(style);
    var at := Point(0.0, 0.0);
    var next, start, more := 1, list[0].p, true;
    StrokesStart(style, list);
    while more
      invariant generator.Valid() && fresh(generator) && fresh(generator.source) && generator.style == style
      invariant 0 <= next <= |list|
      invariant Strokes(style, list) == out + StrokesFrom(style, list, next, start, more)
      decreases more, |list| - next
    {
      ghost var was, i, from := out, next, start;
      NextStrokes(style, list, next, start);
      next, start, more, at := Accumulate(generator, list, next, start, at);
      ghost var stroke := generator.Whole();
      out, at := Generate(generator, out, at);
      Reassociate(was, stroke, StrokesFrom(style, list, next, start, more));
    }
    NoStrokes(style, list, next, start);
  }

  lemma StrokesStart(st: Style, list: seq<Vertex>)
    requires list != [] && list[0].cmd != STOP
    ensures Strokes(st, list) == [] + StrokesFrom(st, list, 1, list[0].p, true)
  {
    hide StrokesFrom;
  }

  lemma Reassociate(a: seq<Vertex>, b: seq<Vertex>, c: seq<Vertex>)
    ensures a + (b + c) == (a + b) + c
  {
  }

  // ----- the shape of the output

  const END_CCW := END_POLY + FLAG_CLOSE + FLAG_CCW
  const END_CW := END_POLY + FLAG_CLOSE + FLAG_CW

  /** Follows (move_to line_to* end_poly|close)*; open inside a contour. */
  predicate Legal(vs: seq<Vertex>, open: bool)
    decreases |vs|
  {
    if vs == [] then !open
    else if !open then vs[0].cmd == MOVE_TO && Legal(vs[1..], true)
    else if vs[0].cmd == LINE_TO then Legal(vs[1..], true)
    else (vs[0].cmd == END_CCW || vs[0].cmd == END_CW) && Legal(vs[1..], false)
  }

  /** The ends of its contours, in order. */
  function Ends(vs: seq<Vertex>): seq<nat>
    decreases |vs|
  {
    if vs == [] then [] else (if IsEndPoly(vs[0].cmd) then [vs[0].cmd] else []) + Ends(vs[1..])
  }

  lemma {:induction false} LegalAppend(a: seq<Vertex>, b: seq<Vertex>, open: bool)
    requires Legal(a, open) && Legal(b, false)
    ensures Legal(a + b, open) && Ends(a + b) == Ends(a) + Ends(b)
    decreases |a|
  {
    if a == [] {
      assert a + b == b;
    } else {
      hide IsEndPoly;
      assert (a + b)[1..] == a[1..] + b && (a + b)[0] == a[0];
      LegalAppend(a[1..], b, if !open then true else a[0].cmd == LINE_TO);
      LegalHead(a, b, open);
    }
  }

  /** What comes before does not depend on what follows. */
  lemma LegalHead(a: seq<Vertex>, b: seq<Vertex>, open: bool)
    requires a != [] && Legal(a, open) && Legal(a[1..] + b, if !open then true else a[0].cmd == LINE_TO)
    requires Ends(a[1..] + b) == Ends(a[1..]) + Ends(b)
    ensures Legal(a + b, open) && Ends(a + b) == Ends(a) + Ends(b)
  {
    assert (a + b)[1..] == a[1..] + b && (a + b)[0] == a[0];
    var head := if IsEndPoly(a[0].cmd) then [a[0].cmd] else [];
    assert head + (Ends(a[1..]) + Ends(b)) == (head + Ends(a[1..])) + Ends(b);
  }

  lemma {:induction false} ContourLegal(first: nat, pts: seq<Point>, at: Point, turn: nat)
    requires turn == FLAG_CCW || turn == FLAG_CW
    requires first == LINE_TO || (first == MOVE_TO && pts != [])
    ensures Legal(Contour(first, pts, at, turn), first == LINE_TO)
    ensures Ends(Contour(first, pts, at, turn)) == [END_POLY + FLAG_CLOSE + turn]
    decreases |pts|
  {
    if pts == [] {
      assert Contour(first, pts, at, turn) == [Vertex(at, END_POLY + FLAG_CLOSE + turn)];
    } else {
      ContourStep(first, pts, at, turn);
      hide Contour;
      ContourLegal(LINE_TO, pts[1..], pts[0], turn);
      var rest := Contour(LINE_TO, pts[1..], pts[0], turn);
      assert ([Vertex(pts[0], first)] + rest)[1..] == rest;
    }
  }

  lemma NothingLegal()
    ensures Legal([], false) && Ends([]) == []
  {
  }

  lemma OpenLegal(st: Style, ps: seq<Point>)
    requires |ps| >= 2
    ensures var r := Contour(MOVE_TO, AroundOpen(st, ps), ps[0], FLAG_CW); Legal(r, false) && Ends(r) == [END_CW]
  {
    AroundSome(st, ps);
    hide *;
    ContourLegal(MOVE_TO, AroundOpen(st, ps), ps[0], FLAG_CW);
  }

  lemma RingLegal(st: Style, ps: seq<Point>)
    requires |ps| >= 3
    ensures var r := Contour(MOVE_TO, JoinsUp(st, ps, 0, |ps|), ps[0], FLAG_CCW) + InnerRing(st, ps);
            Legal(r, false) && Ends(r) == [END_CCW, END_CW]
  {
    AroundSome(st, ps);
    hide AroundOpen, Contour, JoinsUp, JoinsDown, Legal, Ends;
    ContourLegal(MOVE_TO, JoinsUp(st, ps, 0, |ps|), ps[0], FLAG_CCW);
    ContourLegal(MOVE_TO, JoinsDown(st, ps, |ps|, 0), ps[0], FLAG_CW);
    LegalAppend(Contour(MOVE_TO, JoinsUp(st, ps, 0, |ps|), ps[0], FLAG_CCW), InnerRing(st, ps), false);
  }

  /** Three or more distinct vertices of a ring give two contours, counterclockwise
      then clockwise; other paths of at least two vertices give one; less gives none. */
  lemma SubpathContours(st: Style, points: seq<Point>, closed: bool)
    ensures var n, r := |Thin(st, points, closed)|, StrokeSubpath(st, points, closed);
            && Legal(r, false)
            && Ends(r) == if n < 2 then [] else if closed && n >= 3 then [END_CCW, END_CW] else [END_CW]
  {
    var ps := Thin(st, points, closed);
    NothingLegal();
    hide Contour, AroundOpen, JoinsUp, InnerRing, Thin, Legal, Ends;
    if |ps| >= 3 {
      RingLegal(st, ps);
    }
    if |ps| >= 2 {
      OpenLegal(st, ps);
    }
  }

  lemma {:induction false} StrokesFromLegal(st: Style, list: seq<Vertex>, i: nat, start: Point, more: bool)
    requires i <= |list|
    ensures Legal(StrokesFrom(st, list, i, start, more), false)
    decreases more, |list| - i
  {
    if more {
      var r := ReadRound(list, i, [start], start);
      SubpathContours(st, r.points, r.closed);
      StrokesFromLegal(st, list, r.next, r.start, r.more);
      NextStrokes(st, list, i, start);
      hide StrokesFrom, StrokeSubpath, Legal;
      LegalAppend(StrokeSubpath(st, r.points, r.closed), StrokesFrom(st, list, r.next, r.start, r.more), false);
    }
  }

  /** Whatever the path's commands, the stroke is a list of whole closed contours. */
  lemma StrokesLegal(st: Style, list: seq<Vertex>)
    ensures Legal(Strokes(st, list), false)
  {
    hide StrokesFrom, Legal;
    if list == [] || list[0].cmd == STOP {
      NothingLegal();
    } else {
      StrokesFromLegal(st, list, 1, list[0].p, true);
    }
  }

  // ----- paths made of subpaths

  datatype Subpath = Subpath(points: Points, closed: bool)

  function Closing(sub: Subpath): seq<Vertex> {
    if sub.closed then [Vertex(sub.points[|sub.points| - 1], END_POLY + FLAG_CLOSE)] else []
  }

  /** The path a shape with these subpaths is stored as. */
  function PathOf(subs: seq<Subpath>): seq<Vertex> {
    if subs == [] then [] else Draw(MOVE_TO, subs[0].points) + (Closing(subs[0]) + PathOf(subs[1..]))
  }

  function StrokeEach(st: Style, subs: seq<Subpath>): seq<Vertex> {
    if subs == [] then [] else StrokeSubpath(st, subs[0].points, subs[0].closed) + StrokeEach(st, subs[1..])
  }

  lemma {:induction false} ReadsLines(list: seq<Vertex>, i: nat, acc: seq<Point>, start: Point, pts: seq<Point>)
    requires i <= |list| && Draw(LINE_TO, pts) <= list[i..]
    ensures i + |pts| <= |list|
    ensures ReadRound(list, i, acc, start) == ReadRound(list, i + |pts|, acc + pts, start)
    decreases |pts|
  {
    if pts == [] {
      assert acc + pts == acc;
    } else {
      assert list[i] == list[i..][0] == Vertex(pts[0], LINE_TO);
      assert Draw(LINE_TO, pts)[1..] == Draw(LINE_TO, pts[1..]);
      assert list[i + 1..] == list[i..][1..];
      ReadsLines(list, i + 1, acc + [pts[0]], start, pts[1..]);
      assert acc + [pts[0]] + pts[1..] == acc + pts;
    }
  }

  lemma {:induction false} DrawLength(first: nat, pts: seq<Point>)
    ensures |Draw(first, pts)| == |pts|
    decreases |pts|
  {
    if pts != [] {
      DrawLength(LINE_TO, pts[1..]);
    }
  }

  /** A single vertex is stroked to nothing. */
  lemma DotVanishes(st: Style, p: Point)
    ensures StrokeSubpath(st, [p], false) == []
  {
    FirstAdded(st, p);
  }

  lemma PastLines(list: seq<Vertex>, i: nat, pts: seq<Point>, tail: seq<Vertex>)
    requires i <= |list| && list[i..] == Draw(LINE_TO, pts) + tail
    ensures i + |pts| <= |list| && list[i + |pts|..] == tail && Draw(LINE_TO, pts) <= list[i..]
  {
    hide Draw;
    DrawLength(LINE_TO, pts);
    PastPart(list, i, Draw(LINE_TO, pts), tail);
  }

  lemma PastPart(list: seq<Vertex>, i: nat, part: seq<Vertex>, tail: seq<Vertex>)
    requires i <= |list| && list[i..] == part + tail
    ensures i + |part| <= |list| && list[i + |part|..] == tail && part <= list[i..]
  {
    assert |list[i..]| == |list| - i;
    assert list[i + |part|..] == list[i..][|part|..];
  }

  /** One command read, and what is left. */
  lemma ReadsCommand(list: seq<Vertex>, k: nat, v: Vertex, tail: seq<Vertex>, points: seq<Point>, start: Point)
    requires k <= |list| && list[k..] == [v] + tail
    ensures k < |list| && list[k + 1..] == tail
    ensures v.cmd == END_POLY + FLAG_CLOSE ==> ReadRound(list, k, points, start) == Round(points, true, k + 1, start, true)
    ensures v.cmd == MOVE_TO ==> ReadRound(list, k, points, start) == Round(points, false, k + 1, v.p, true)
  {
    assert list[k] == list[k..][0] && list[k + 1..] == list[k..][1..];
  }

  lemma PathStarts(subs: seq<Subpath>)
    requires subs != []
    ensures PathOf(subs) == [Vertex(subs[0].points[0], MOVE_TO)] +
                            (Draw(LINE_TO, subs[0].points[1..]) + (Closing(subs[0]) + PathOf(subs[1..])))
  {
    var p, lines, rest := Vertex(subs[0].points[0], MOVE_TO), Draw(LINE_TO, subs[0].points[1..]),
                          Closing(subs[0]) + PathOf(subs[1..]);
    assert PathOf(subs) == ([p] + lines) + rest;
    hide *;
    Reassociate([p], lines, rest);
  }

  /** Reading on from a subpath's last vertex. */
  lemma RoundEnds(list: seq<Vertex>, k: nat, sub: Subpath, subs: seq<Subpath>)
    requires k <= |list| && list[k..] == Closing(sub) + PathOf(subs)
    ensures var r := ReadRound(list, k, sub.points, sub.points[0]);
            && r.points == sub.points && r.closed == sub.closed && r.more == (sub.closed || subs != [])
            && (sub.closed ==> r.start == sub.points[0] && list[r.next..] == PathOf(subs))
            && (!sub.closed && subs != [] ==>
                  && r.start == subs[0].points[0]
                  && list[r.next..] == Draw(LINE_TO, subs[0].points[1..]) + (Closing(subs[0]) + PathOf(subs[1..])))
  {
    if sub.closed {
      ReadsCommand(list, k, Closing(sub)[0], PathOf(subs), sub.points, sub.points[0]);
    } else if subs == [] {
      assert list[k..] == [];
    } else {
      PathStarts(subs);
      hide PathOf, ReadRound, Draw;
      var tail := Draw(LINE_TO, subs[0].points[1..]) + (Closing(subs[0]) + PathOf(subs[1..]));
      ReadsCommand(list, k, Vertex(subs[0].points[0], MOVE_TO), tail, sub.points, sub.points[0]);
    }
  }

  lemma ReadsSubpath(list: seq<Vertex>, i: nat, sub: Subpath, subs: seq<Subpath>)
    requires i <= |list| && list[i..] == Draw(LINE_TO, sub.points[1..]) + (Closing(sub) + PathOf(subs))
    ensures var p, k := sub.points[0], i + |sub.points| - 1;
            && k <= |list| && list[k..] == Closing(sub) + PathOf(subs)
            && ReadRound(list, i, [p], p) == ReadRound(list, k, sub.points, p)
  {
    hide *;
    var p, pts := sub.points[0], sub.points[1..];
    assert [p] + pts == sub.points;
    ReadsPoints(list, i, p, pts, Closing(sub) + PathOf(subs));
  }

  lemma ReadsPoints(list: seq<Vertex>, i: nat, p: Point, pts: seq<Point>, tail: seq<Vertex>)
    requires i <= |list| && list[i..] == Draw(LINE_TO, pts) + tail
    ensures var k := i + |pts|; k <= |list| && list[k..] == tail && ReadRound(list, i, [p], p) == ReadRound(list, k, [p] + pts, p)
  {
    hide *;
    PastLines(list, i, pts, tail);
    ReadsLines(list, i, [p], p, pts);
  }

  lemma StrokeEachStep(st: Style, subs: seq<Subpath>)
    ensures StrokeEach(st, subs) == if subs == [] then [] else
              StrokeSubpath(st, subs[0].points, subs[0].closed) + StrokeEach(st, subs[1..])
  {
  }

  /** The rounds that read the subpath whose move_to was just read, and the rest. */
  lemma {:induction false} StrokesAfterMove(st: Style, list: seq<Vertex>, i: nat, sub: Subpath, subs: seq<Subpath>)
    requires i <= |list| && list[i..] == Draw(LINE_TO, sub.points[1..]) + (Closing(sub) + PathOf(subs))
    ensures StrokesFrom(st, list, i, sub.points[0], true) ==
            StrokeSubpath(st, sub.points, sub.closed) + StrokeEach(st, subs)
    decreases |subs|, 1
  {
    hide *;
    var p, k := sub.points[0], i + |sub.points| - 1;
    ReadsSubpath(list, i, sub, subs);
    RoundEnds(list, k, sub, subs);
    NextStrokes(st, list, i, p);
    StrokeEachStep(st, subs);
    var r := ReadRound(list, k, sub.points, p);
    if sub.closed {
      StrokesBefore(st, list, r.next, p, subs);
    } else if subs == [] {
      NoStrokes(st, list, r.next, r.start);
    } else {
      StrokesAfterMove(st, list, r.next, subs[0], subs[1..]);
    }
  }

  /** Where a subpath was closed, the next start is stroked to nothing. */
  lemma {:induction false} StrokesBefore(st: Style, list: seq<Vertex>, i: nat, p: Point, subs: seq<Subpath>)
    requires i <= |list| && list[i..] == PathOf(subs)
    ensures StrokesFrom(st, list, i, p, true) == StrokeEach(st, subs)
    decreases |subs|, 0
  {
    DotVanishes(st, p);
    NextStrokes(st, list, i, p);
    assert list[i..] == Closing(Subpath([p], false)) + PathOf(subs);
    hide *;
    RoundEnds(list, i, Subpath([p], false), subs);
    StrokeEachStep(st, subs);
    var r := ReadRound(list, i, [p], p);
    if subs == [] {
      NoStrokes(st, list, r.next, r.start);
    } else {
      StrokesAfterMove(st, list, r.next, subs[0], subs[1..]);
    }
  }

  /** Stroking a path strokes its subpaths, each on its own and in order. */
  lemma StrokesOfPath(st: Style, subs: seq<Subpath>)
    ensures Strokes(st, PathOf(subs)) == StrokeEach(st, subs)
  {
    if subs != [] {
      PathStarts(subs);
      var list := PathOf(subs);
      hide PathOf, Draw, StrokesFrom, StrokeSubpath;
      assert list[1..] == Draw(LINE_TO, subs[0].points[1..]) + (Closing(subs[0]) + PathOf(subs[1..]));
      StrokesAfterMove(st, list, 1, subs[0], subs[1..]);
    }
  }
}
