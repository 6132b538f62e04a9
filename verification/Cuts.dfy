/** Where the parts drawn of a clipped edge lie: along the edge, but for the rounding of
    the points it is cut at, and along the sides of the box where the edge is beyond. */
module Cuts {
  import opened CArith
  import opened LineClippers
  import opened Lines

  // ----- the points an edge is cut at

  lemma RoundDivNear(n: int, d: int)
    requires d > 0
    ensures 2 * Abs(RoundDiv(n, d) * d - n) <= d
  {
    var m := if n >= 0 then n else -n;
    var q := (2 * m + d) / (2 * d);
    assert 2 * m + d == q * (2 * d) + (2 * m + d) % (2 * d);
    assert RoundDiv(n, d) * d == if n >= 0 then q * d else -(q * d);
  }

  lemma MulDivNear(a: int, b: int, c: int)
    requires c != 0
    ensures 2 * Abs(MulDiv(a, b, c) * c - a * b) <= Abs(c)
  {
    hide RoundDiv;
    RoundDivNear(if c > 0 then a * b else -(a * b), Abs(c));
    assert c < 0 ==> MulDiv(a, b, c) * c == -(MulDiv(a, b, c) * -c);
  }

  /** A point at a side of the box is within half a unit of the edge, up or down. */
  lemma EdgeCrossingNear(s: Segment, x: int)
    requires s.a.x != s.b.x
    ensures 2 * Abs(Off(s, EdgeCrossing(s, x))) <= Abs(s.b.x - s.a.x)
  {
    hide MulDiv;
    MulDivNear(x - s.a.x, s.b.y - s.a.y, s.b.x - s.a.x);
  }

  /** A point at the top or bottom is within half a unit of the segment, left or right. */
  lemma CutEndNear(t: Segment, p: Point, box: ClipRect)
    requires ClipY(p.y, box) != p.y && t.a.y != t.b.y
    ensures 2 * Abs(Off(t, CutEnd(t, p, box))) <= Abs(t.b.y - t.a.y)
  {
    hide MulDiv;
    MulDivNear(ClipY(p.y, box) - t.a.y, t.b.x - t.a.x, t.b.y - t.a.y);
  }

  // ----- the edge, moved into the box's columns

  /** How far the edge rises or falls. */
  function Rise(s: Segment): nat {
    Abs(s.b.y - s.a.y)
  }

  /** The abscissa of the edge at height y / n, times n and its rise. */
  function Across(s: Segment, y: int, n: int): int {
    n * (s.a.x * Rise(s)) + (y - n * s.a.y) * (if s.b.y >= s.a.y then s.b.x - s.a.x else s.a.x - s.b.x)
  }

  /** The point (x / n, y / n) lies where the edge is at its height once it is moved into
      the box's columns, but for half a unit each way. */
  predicate Follows(s: Segment, box: ClipRect, x: int, y: int, n: nat) {
    2 * Abs(x * Rise(s) - Clamp(Across(s, y, n), n * (box.x1 * Rise(s)), n * (box.x2 * Rise(s))))
    <= n * (Abs(s.b.x - s.a.x) + Rise(s))
  }

  predicate LeftSide(s: Segment, d: Segment, box: ClipRect) {
    && d.a.x == d.b.x == box.x1
    && 2 * (Across(s, d.a.y, 1) - box.x1 * Rise(s)) <= Abs(s.b.x - s.a.x)
    && 2 * (Across(s, d.b.y, 1) - box.x1 * Rise(s)) <= Abs(s.b.x - s.a.x)
  }

  predicate RightSide(s: Segment, d: Segment, box: ClipRect) {
    && d.a.x == d.b.x == box.x2
    && 2 * (box.x2 * Rise(s) - Across(s, d.a.y, 1)) <= Abs(s.b.x - s.a.x)
    && 2 * (box.x2 * Rise(s) - Across(s, d.b.y, 1)) <= Abs(s.b.x - s.a.x)
  }

  predicate OnEdge(s: Segment, d: Segment, box: ClipRect, m: int) {
    && box.x1 <= d.a.x <= box.x2 && 2 * Abs(Off(s, d.a)) <= m
    && box.x1 <= d.b.x <= box.x2 && 2 * Abs(Off(s, d.b)) <= m
  }

  /** A part runs along a side the edge is beyond, or along the edge. */
  predicate Along(s: Segment, d: Segment, box: ClipRect, m: int) {
    LeftSide(s, d, box) || RightSide(s, d, box) || OnEdge(s, d, box, m)
  }

  lemma AcrossIsOff(s: Segment, p: Point)
    ensures p.x * Rise(s) - Across(s, p.y, 1) == if s.b.y >= s.a.y then Off(s, p) else -Off(s, p)
  {
  }

  lemma AcrossEnds(s: Segment)
    ensures Across(s, s.a.y, 1) == s.a.x * Rise(s) && Across(s, s.b.y, 1) == s.b.x * Rise(s)
    ensures Off(s, s.a) == 0 == Off(s, s.b)
  {
    var b: Point := s.b;
    assert Off(s, b) == (b.x - s.a.x) * (b.y - s.a.y) - (b.y - s.a.y) * (b.x - s.a.x);
    AcrossIsOff(s, s.a);
    AcrossIsOff(s, b);
  }

  // ----- every point of such a part

  lemma AcrossBetween(s: Segment, d: Segment, i: int, n: int)
    ensures Across(s, (n - i) * d.a.y + i * d.b.y, n) == (n - i) * Across(s, d.a.y, 1) + i * Across(s, d.b.y, 1)
  {
    var e := if s.b.y >= s.a.y then s.b.x - s.a.x else s.a.x - s.b.x;
    var o, u, v := s.a.x * Rise(s), d.a.y - s.a.y, d.b.y - s.a.y;
    AcrossIs(s, d.a.y, 1, e, o);
    AcrossIs(s, d.b.y, 1, e, o);
    AcrossIs(s, (n - i) * d.a.y + i * d.b.y, n, e, o);
    MeanFrom(n, i, d.a.y, d.b.y, s.a.y);
    hide *;
    Scaled(n, i, u, v, e);
    MeanPlus(n, i, o, u * e, v * e);
  }

  lemma AcrossIs(s: Segment, y: int, n: int, e: int, o: int)
    requires e == (if s.b.y >= s.a.y then s.b.x - s.a.x else s.a.x - s.b.x) && o == s.a.x * Rise(s)
    ensures Across(s, y, n) == n * o + (y - n * s.a.y) * e
  {
  }

  lemma MeanFrom(n: int, i: int, a: int, b: int, c: int)
    ensures (n - i) * a + i * b - n * c == (n - i) * (a - c) + i * (b - c)
  {
  }

  lemma MeanPlus(n: int, i: int, o: int, a: int, b: int)
    ensures (n - i) * (o + a) + i * (o + b) == n * o + ((n - i) * a + i * b)
  {
  }

  lemma ClampNear(v: int, a: int, lo: int, hi: int)
    requires lo <= v <= hi
    ensures Abs(v - Clamp(a, lo, hi)) <= Abs(v - a)
    ensures v == lo ==> Abs(v - Clamp(a, lo, hi)) <= Max(0, a - v)
    ensures v == hi ==> Abs(v - Clamp(a, lo, hi)) <= Max(0, v - a)
  {
  }

  /** A mean of two numbers is at most the larger. */
  lemma MeanAtMost(n: int, i: int, a: int, b: int, m: int)
    requires 0 <= i <= n && a <= m && b <= m
    ensures (n - i) * a + i * b <= n * m
  {
    MulMonotone(a, m, n - i);
    MulMonotone(b, m, i);
    assert m * (n - i) + m * i == n * m;
  }

  lemma MeanBetween(n: int, i: int, a: int, b: int, lo: int, hi: int)
    requires 0 <= i <= n && lo <= a <= hi && lo <= b <= hi
    ensures n * lo <= (n - i) * a + i * b <= n * hi
  {
    MeanAtMost(n, i, a, b, hi);
    MeanAtMost(n, i, -a, -b, -lo);
    assert (n - i) * -a + i * -b == -((n - i) * a + i * b);
  }

  lemma Scaled(n: int, i: int, a: int, b: int, c: int)
    ensures ((n - i) * a + i * b) * c == (n - i) * (a * c) + i * (b * c)
  {
  }

  lemma MeanGap(n: int, i: int, a: int, b: int, c: int, d: int)
    ensures ((n - i) * a + i * b) - ((n - i) * c + i * d) == (n - i) * (a - c) + i * (b - d)
    ensures (n - i) * a + i * a == n * a
    ensures 2 * ((n - i) * a + i * b) == (n - i) * (2 * a) + i * (2 * b)
  {
  }

  /** A point of a part along the edge. */
  lemma OnEdgeFollows(s: Segment, d: Segment, box: ClipRect, i: int, n: nat)
    requires IsBox(box) && 0 <= i <= n && OnEdge(s, d, box, Abs(s.b.x - s.a.x) + Rise(s))
    ensures Follows(s, box, (n - i) * d.a.x + i * d.b.x, (n - i) * d.a.y + i * d.b.y, n)
  {
    hide Across, Off, Rise;
    var m, h, x, y := Abs(s.b.x - s.a.x) + Rise(s), Rise(s), (n - i) * d.a.x + i * d.b.x, (n - i) * d.a.y + i * d.b.y;
    var (f, g) := (d.a.x * h - Across(s, d.a.y, 1), d.b.x * h - Across(s, d.b.y, 1));
    AcrossIsOff(s, d.a);
    AcrossIsOff(s, d.b);
    AcrossBetween(s, d, i, n);
    Scaled(n, i, d.a.x, d.b.x, h);
    MeanGap(n, i, d.a.x * h, d.b.x * h, Across(s, d.a.y, 1), Across(s, d.b.y, 1));
    MeanGap(n, i, f, g, 0, 0);
    MeanBetween(n, i, 2 * f, 2 * g, -m, m);
    InColumnsScaled(box, d, i, n, h);
    assert n * -m == -(n * m);
    ClampNear(x * h, Across(s, y, n), n * (box.x1 * h), n * (box.x2 * h));
  }

  lemma InColumnsScaled(box: ClipRect, d: Segment, i: int, n: nat, h: nat)
    requires 0 <= i <= n && box.x1 <= d.a.x <= box.x2 && box.x1 <= d.b.x <= box.x2
    ensures n * (box.x1 * h) <= ((n - i) * d.a.x + i * d.b.x) * h <= n * (box.x2 * h)
  {
    MeanBetween(n, i, d.a.x, d.b.x, box.x1, box.x2);
    var x := (n - i) * d.a.x + i * d.b.x;
    MulMonotone(n * box.x1, x, h);
    MulMonotone(x, n * box.x2, h);
    Regrouped(n, box.x1, h);
    Regrouped(n, box.x2, h);
  }

  lemma Regrouped(a: int, b: int, c: int)
    ensures a * (b * c) == (a * b) * c
  {
  }

  /** What is at most half of m beyond v at both ends is so in between. */
  lemma MeanBeyond(n: int, i: int, p: int, q: int, v: int, m: int)
    requires 0 <= i <= n && 2 * (p - v) <= m && 2 * (q - v) <= m
    ensures 2 * ((n - i) * p + i * q - n * v) <= n * m
  {
    MeanAtMost(n, i, 2 * (p - v), 2 * (q - v), m);
    MeanGap(n, i, p, q, v, v);
    MeanGap(n, i, v, v, 0, 0);
    MeanGap(n, i, p - v, q - v, 0, 0);
  }

  /** A point of a part along a side. */
  lemma SideFollows(s: Segment, d: Segment, box: ClipRect, i: int, n: nat)
    requires IsBox(box) && 0 <= i <= n && (LeftSide(s, d, box) || RightSide(s, d, box))
    ensures Follows(s, box, (n - i) * d.a.x + i * d.b.x, (n - i) * d.a.y + i * d.b.y, n)
  {
    hide Across, Rise;
    var m, h, c := Abs(s.b.x - s.a.x), Rise(s), d.a.x;
    var (p, q, a) := (Across(s, d.a.y, 1), Across(s, d.b.y, 1), Across(s, (n - i) * d.a.y + i * d.b.y, n));
    AcrossBetween(s, d, i, n);
    SideAbscissa(d, i, n, h);
    InColumnsScaled(box, d, i, n, h);
    hide Clamp, Abs;
    ClampNear(n * (c * h), a, n * (box.x1 * h), n * (box.x2 * h));
    Wider(n, m, h);
    if LeftSide(s, d, box) {
      MeanBeyond(n, i, p, q, c * h, m);
    } else {
      MeanBeyond(n, i, -p, -q, -(c * h), m);
      Negated(n, i, p, q, c * h);
    }
  }

  lemma SideAbscissa(d: Segment, i: int, n: int, h: int)
    requires d.a.x == d.b.x
    ensures ((n - i) * d.a.x + i * d.b.x) * h == n * (d.a.x * h)
  {
    MeanGap(n, i, d.a.x, d.a.x, 0, 0);
  }

  lemma Wider(n: nat, m: int, h: nat)
    requires m >= 0
    ensures 0 <= n * m <= n * (m + h)
  {
    MulMonotone(m, m + h, n);
    MulMonotone(0, m, n);
  }

  lemma Negated(n: int, i: int, p: int, q: int, v: int)
    ensures (n - i) * -p + i * -q - n * -v == n * v - ((n - i) * p + i * q)
  {
  }

  lemma AlongFollows(s: Segment, d: Segment, box: ClipRect, i: int, n: nat)
    requires IsBox(box) && 0 <= i <= n && Along(s, d, box, Abs(s.b.x - s.a.x) + Rise(s))
    ensures Follows(s, box, (n - i) * d.a.x + i * d.b.x, (n - i) * d.a.y + i * d.b.y, n)
  {
    hide LeftSide, RightSide, OnEdge, Follows, Rise;
    if LeftSide(s, d, box) || RightSide(s, d, box) {
      SideFollows(s, d, box, i, n);
    } else {
      OnEdgeFollows(s, d, box, i, n);
    }
  }

  // ----- the parts of a flattened edge

  /** Every part of a polyline runs along the edge or a side. */
  predicate AllAlong(s: Segment, ps: seq<Point>, box: ClipRect) {
    forall i :: 0 < i < |ps| ==> Along(s, Segment(ps[i - 1], ps[i]), box, Abs(s.b.x - s.a.x))
  }

  lemma CrossingIsNear(s: Segment, x: int)
    requires s.a.x != s.b.x
    ensures var c := EdgeCrossing(s, x);
            c.x == x && 2 * Abs(Off(s, c)) <= Abs(s.b.x - s.a.x) && 2 * Abs(x * Rise(s) - Across(s, c.y, 1)) <= Abs(s.b.x - s.a.x)
  {
    EdgeCrossingNear(s, x);
    AcrossIsOff(s, EdgeCrossing(s, x));
  }

  /** An end beyond a side, and the point at which the edge meets that side. */
  lemma BeyondAlong(s: Segment, p: Point, box: ClipRect, x: int)
    requires IsBox(box) && s.a.x != s.b.x && (p == s.a || p == s.b) && x == ClipX(p.x, box) && x != p.x
    ensures var c := EdgeCrossing(s, x);
            Along(s, Segment(Point(x, p.y), c), box, Abs(s.b.x - s.a.x)) && Along(s, Segment(c, Point(x, p.y)), box, Abs(s.b.x - s.a.x))
  {
    CrossingIsNear(s, x);
    AcrossEnds(s);
    hide Across, Off, Rise, EdgeCrossing, OnEdge;
    MulMonotone(Min(p.x, x), Max(p.x, x), Rise(s));
  }

  lemma EndsAlong(s: Segment, box: ClipRect)
    requires IsBox(box) && (SameSide(s.a.x, s.b.x, box.x1, box.x2) || (ClipX(s.a.x, box) == s.a.x && ClipX(s.b.x, box) == s.b.x))
    ensures Along(s, Segment(Point(ClipX(s.a.x, box), s.a.y), Point(ClipX(s.b.x, box), s.b.y)), box, Abs(s.b.x - s.a.x))
  {
    AcrossEnds(s);
    hide Across, Off, Rise;
    if SameSide(s.a.x, s.b.x, box.x1, box.x2) {
      var x := ClipX(s.a.x, box);
      MulMonotone(Min(s.a.x, x), Max(s.a.x, x), Rise(s));
      MulMonotone(Min(s.b.x, x), Max(s.b.x, x), Rise(s));
    }
  }

  /** A point of the edge inside the columns: an end, or where the edge enters. */
  predicate Inner(s: Segment, p: Point, box: ClipRect) {
    box.x1 <= p.x <= box.x2 && 2 * Abs(Off(s, p)) <= Abs(s.b.x - s.a.x)
  }

  lemma InnerAlong(s: Segment, p: Point, q: Point, box: ClipRect)
    requires Inner(s, p, box) && Inner(s, q, box)
    ensures Along(s, Segment(p, q), box, Abs(s.b.x - s.a.x))
  {
    hide Off, LeftSide, RightSide;
  }

  lemma FlattenAlong(s: Segment, box: ClipRect)
    requires IsBox(box)
    ensures AllAlong(s, Flatten(s, box), box)
  {
    var ax, bx := ClipX(s.a.x, box), ClipX(s.b.x, box);
    if SameSide(s.a.x, s.b.x, box.x1, box.x2) || (ax == s.a.x && bx == s.b.x) {
      EndsAlong(s, box);
      hide Along, EdgeCrossing;
    } else {
      CrossingIsNear(s, ax);
      CrossingIsNear(s, bx);
      AcrossEnds(s);
      var c := if ax == s.a.x then s.a else EdgeCrossing(s, ax);
      var d := if bx == s.b.x then s.b else EdgeCrossing(s, bx);
      assert Inner(s, c, box) && Inner(s, d, box);
      InnerAlong(s, c, d, box);
      hide Along, EdgeCrossing, Off, Inner, Across;
      if ax != s.a.x {
        BeyondAlong(s, s.a, box, ax);
      }
      if bx != s.b.x {
        BeyondAlong(s, s.b, box, bx);
      }
    }
  }

  // ----- cut at the top and the bottom

  /** A cut end is on its segment, but for half a unit left or right. */
  lemma CutOnChord(s: Segment, t: Segment, q: Point, m: int)
    requires t.a.y != t.b.y && Min(t.a.y, t.b.y) <= q.y <= Max(t.a.y, t.b.y)
    requires 2 * Abs(Off(t, q)) <= Abs(t.b.y - t.a.y)
    requires 2 * Abs(Off(s, t.a)) <= m && 2 * Abs(Off(s, t.b)) <= m
    ensures 2 * Abs(Off(s, q)) <= m + Rise(s)
  {
    hide *;
    var w, i, g := Abs(t.b.y - t.a.y), Abs(q.y - t.a.y), if t.b.y >= t.a.y then 1 else -1;
    WayFrom(t.a.y, t.b.y, q.y);
    RiseIs(s);
    OffOnChord(s, t, q, w, i, g);
    CutBound(w, i, g, Off(s, t.a), Off(s, t.b), Off(s, q), Off(t, q), s.b.y - s.a.y, m);
  }

  lemma OffOnChord(s: Segment, t: Segment, q: Point, w: int, i: int, g: int)
    requires (g == 1 || g == -1) && t.b.y - t.a.y == g * w && q.y - t.a.y == g * i
    ensures w * Off(s, q) == (w - i) * Off(s, t.a) + i * Off(s, t.b) + g * Off(t, q) * (s.b.y - s.a.y)
  {
    var u, ex, dx, dy := q.x - t.a.x, t.b.x - t.a.x, s.b.x - s.a.x, s.b.y - s.a.y;
    assert Off(t, q) == u * (g * w) - (g * i) * ex;
    OffMoves(s, t.a, t.b);
    OffMoves(s, t.a, q);
    hide *;
    CutWeight(w, i, g, u, ex, dx, dy, Off(s, t.a), Off(s, t.b), Off(s, q), Off(t, q));
  }

  lemma CutBound(w: int, i: int, g: int, o: int, o1: int, oq: int, e: int, dy: int, m: int)
    requires (g == 1 || g == -1) && 0 <= i <= w && w > 0 && w * oq == (w - i) * o + i * o1 + g * e * dy
    requires 2 * Abs(e) <= w && 2 * Abs(o) <= m && 2 * Abs(o1) <= m
    ensures 2 * Abs(oq) <= m + Abs(dy)
  {
    HalfOff(w, g, e, dy);
    Doubled(w, i, o, o1, oq, g * e * dy);
    hide *;
    Convex(w, i, 2 * o, 2 * o1, 2 * oq, 2 * (g * e * dy), m, Abs(dy));
  }

  lemma Doubled(w: int, i: int, o: int, o1: int, oq: int, k: int)
    requires w * oq == (w - i) * o + i * o1 + k
    ensures w * (2 * oq) == (w - i) * (2 * o) + i * (2 * o1) + 2 * k
  {
    MeanGap(w, i, o, o1, 0, 0);
    assert w * (2 * oq) == 2 * (w * oq);
  }

  lemma RiseIs(s: Segment)
    ensures Rise(s) == Abs(s.b.y - s.a.y)
  {
  }

  lemma HalfOff(w: int, g: int, e: int, dy: int)
    requires 2 * Abs(e) <= w && (g == 1 || g == -1)
    ensures Abs(2 * (g * e * dy)) <= w * Abs(dy)
  {
    MulMonotone(2 * Abs(e), w, Abs(dy));
    assert Abs(e * dy) == Abs(e) * Abs(dy);
    assert Abs(2 * (g * e * dy)) == 2 * Abs(e * dy);
    assert 2 * (Abs(e) * Abs(dy)) == (2 * Abs(e)) * Abs(dy);
  }

  lemma CutWeight(w: int, i: int, g: int, u: int, ex: int, dx: int, dy: int, o: int, o1: int, oq: int, e: int)
    requires (g == 1 || g == -1) && e == u * (g * w) - (g * i) * ex
    requires o1 == o + ex * dy - g * w * dx && oq == o + u * dy - g * i * dx
    ensures w * oq == (w - i) * o + i * o1 + g * e * dy
  {
    var z := u * w - i * ex;
    assert g * e == z by {
      assert g == 1 ==> e == z;
      assert g == -1 ==> e == -z;
    }
    assert z * dy == u * w * dy - i * ex * dy;
    assert w * oq == w * o + w * (u * dy) - w * (g * i * dx);
    assert i * o1 == i * o + i * (ex * dy) - i * (g * w * dx);
  }

  /** A point of a segment that stands on a side stays there and beyond. */
  lemma AcrossWithin(s: Segment, a: int, b: int, y: int)
    requires Min(a, b) <= y <= Max(a, b)
    ensures Min(Across(s, a, 1), Across(s, b, 1)) <= Across(s, y, 1) <= Max(Across(s, a, 1), Across(s, b, 1))
  {
    TimesWithin(a - s.a.y, b - s.a.y, y - s.a.y, if s.b.y >= s.a.y then s.b.x - s.a.x else s.a.x - s.b.x);
    hide Rise;
  }

  lemma TimesWithin(a: int, b: int, v: int, e: int)
    requires Min(a, b) <= v <= Max(a, b)
    ensures Min(a * e, b * e) <= v * e <= Max(a * e, b * e)
  {
    MulMonotone(Min(a, b), v, Abs(e));
    MulMonotone(v, Max(a, b), Abs(e));
    assert e < 0 ==> a * e == -(a * Abs(e)) && b * e == -(b * Abs(e)) && v * e == -(v * Abs(e));
  }

  lemma MulDivNothing(a: int, c: int)
    requires c != 0
    ensures MulDiv(a, 0, c) == 0
  {
    assert a * 0 == 0;
    DivModUnique(Abs(c), 2 * Abs(c), 0, Abs(c));
  }

  /** Cutting leaves a part on its side, or by the edge. */
  lemma CutEndAlong(s: Segment, t: Segment, p: Point, box: ClipRect, m: int)
    requires IsBox(box) && (p == t.a || p == t.b) && !SameSide(t.a.y, t.b.y, box.y1, box.y2)
    requires Along(s, t, box, m) && m >= 0
    ensures ClipY(p.y, box) != p.y ==> t.a.y != t.b.y
    ensures var q := CutEnd(t, p, box);
            && Min(t.a.y, t.b.y) <= q.y <= Max(t.a.y, t.b.y)
            && (t.a.x == t.b.x ==> q.x == t.a.x)
            && (OnEdge(s, t, box, m) ==> box.x1 <= q.x <= box.x2 && 2 * Abs(Off(s, q)) <= m + Rise(s))
  {
    var q := CutEnd(t, p, box);
    hide MulDiv, Off, Across;
    if q != p {
      CutEndInBox(t, p, box);
      CutEndNear(t, p, box);
      MulDivNothing(q.y - t.a.y, t.b.y - t.a.y);
      if OnEdge(s, t, box, m) {
        CutOnChord(s, t, q, m);
      }
    }
  }

  /** Each part is cut into one that runs along the same. */
  lemma CutAlong(s: Segment, t: Segment, box: ClipRect)
    requires IsBox(box) && Along(s, t, box, Abs(s.b.x - s.a.x))
    ensures forall d <- CutY(t, box) :: Along(s, d, box, Abs(s.b.x - s.a.x) + Rise(s))
  {
    if !SameSide(t.a.y, t.b.y, box.y1, box.y2) {
      hide CutEnd, Off, Across, SameSide;
      var m := Abs(s.b.x - s.a.x);
      CutEndAlong(s, t, t.a, box, m);
      CutEndAlong(s, t, t.b, box, m);
      AcrossWithin(s, t.a.y, t.b.y, CutEnd(t, t.a, box).y);
      AcrossWithin(s, t.a.y, t.b.y, CutEnd(t, t.b, box).y);
    }
  }

  lemma {:induction false} CutAllAlong(s: Segment, ps: seq<Point>, box: ClipRect)
    requires IsBox(box) && AllAlong(s, ps, box)
    ensures forall d <- CutAll(ps, box) :: Along(s, d, box, Abs(s.b.x - s.a.x) + Rise(s))
    decreases |ps|
  {
    if |ps| >= 2 {
      hide Along, CutY, Rise;
      CutAllAlong(s, ps[..|ps| - 1], box);
      CutAlong(s, Segment(ps[|ps| - 2], ps[|ps| - 1]), box);
    }
  }

  /** Every point of every part drawn of an edge lies where the edge is at its height, moved
      into the box's columns, but for half a unit each way. */
  lemma ClipLineFollows(s: Segment, box: ClipRect, k: nat, i: nat, n: nat)
    requires IsBox(box) && k < |ClipLine(s, box)| && i <= n
    ensures var d := ClipLine(s, box)[k];
            Follows(s, box, (n - i) * d.a.x + i * d.b.x, (n - i) * d.a.y + i * d.b.y, n)
  {
    hide Flatten, CutAll, Along, Follows, Rise, AllAlong;
    FlattenAlong(s, box);
    CutAllAlong(s, Flatten(s, box), box);
    assert ClipLine(s, box)[k] in CutAll(Flatten(s, box), box);
    AlongFollows(s, ClipLine(s, box)[k], box, i, n);
  }
}
