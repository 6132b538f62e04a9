/** The scanline rasteriser: a path becomes closed contours, contours become
    cells, and sorted cells become rows of alpha. */
module Rasterizers {
  import opened CArith
  import opened Cells
  import opened CellSort
  import opened CellRasterizers
  import opened LineClippers
  import opened Lines
  import opened ScanlineOps
  import opened Scanlines
  import opened SubpixSweep
  import opened Sweep

  // ----- path commands

  type Command = bv8

  const CMD_MOVE_TO: Command := 0x01
  const CMD_LINE_TO: Command := 0x02
  const CMD_END_POLY: Command := 0x0F
  const FLAG_CCW: Command := 0x10
  const FLAG_CW: Command := 0x20
  const FLAG_CLOSE: Command := 0x40

  predicate IsMoveTo(c: Command) {
    c == CMD_MOVE_TO
  }

  predicate IsVertex(c: Command) {
    CMD_MOVE_TO <= c < CMD_END_POLY
  }

  predicate IsClose(c: Command) {
    c & !(FLAG_CW | FLAG_CCW) == CMD_END_POLY | FLAG_CLOSE
  }

  /** The commands that close a contour: the end of a polygon with the close flag, whatever
      way round it says it goes. */
  lemma CloseCommands(c: Command)
    ensures IsClose(c) <==> c in {0x4F, 0x5F, 0x6F, 0x7F}
    ensures IsVertex(c) <==> 1 <= c as int <= 14
    ensures IsMoveTo(c) ==> IsVertex(c) && !IsClose(c)
  {
  }

  /** A vertex of a path, its coordinates already scaled to 1/256 pixel. */
  datatype Vertex = Vertex(x: int, y: int, cmd: Command)

  datatype Status = StatusInitial | StatusMoveTo | StatusLineTo | StatusClosed

  // ----- what a path draws, as a walk of a pen

  /** The pen: where the contour began, where it is, the edges so far, and whether
      one of them left, before any move, from somewhere else than the start. */
  datatype Pen = Pen(status: Status, start: Point, at: Point, edges: seq<Segment>, loose: bool)

  /** Closing an open contour draws the edge back to its start. */
  function CloseContour(pen: Pen): Pen {
    if pen.status == StatusLineTo then
      pen.(status := StatusClosed, at := pen.start, edges := pen.edges + [Segment(pen.at, pen.start)])
    else pen
  }

  /** An edge from the pen to p. */
  function DrawEdge(pen: Pen, p: Point): Pen {
    Pen(StatusLineTo, pen.start, p, pen.edges + [Segment(pen.at, p)],
        pen.loose || (pen.status == StatusInitial && pen.at != pen.start))
  }

  /** One vertex: a move closes the contour and starts the next, any other vertex
      draws an edge, a closing command closes. */
  function Step(pen: Pen, v: Vertex): Pen {
    var p := Point(v.x, v.y);
    if IsMoveTo(v.cmd) then Pen(StatusMoveTo, p, p, CloseContour(pen).edges, pen.loose)
    else if IsVertex(v.cmd) then DrawEdge(pen, p)
    else if IsClose(v.cmd) then CloseContour(pen)
    else pen
  }

  function Walk(pen: Pen, path: seq<Vertex>): Pen {
    if path == [] then pen else Step(Walk(pen, path[..|path| - 1]), path[|path| - 1])
  }

  /** No edge is drawn before the first move. */
  predicate Anchored(path: seq<Vertex>) {
    path == [] || IsMoveTo(path[0].cmd) || (!IsVertex(path[0].cmd) && Anchored(path[1..]))
  }

  lemma WalkPush(pen: Pen, path: seq<Vertex>, v: Vertex)
    ensures Walk(pen, path + [v]) == Step(Walk(pen, path), v)
  {
    assert (path + [v])[..|path|] == path;
  }

  lemma {:induction false} WalkAppend(pen: Pen, a: seq<Vertex>, b: seq<Vertex>)
    ensures Walk(pen, a + b) == Walk(Walk(pen, a), b)
    decreases |b|
  {
    if b == [] {
      assert a + b == a;
    } else {
      assert a + b == (a + b[..|b| - 1]) + [b[|b| - 1]];
      WalkPush(pen, a + b[..|b| - 1], b[|b| - 1]);
      WalkAppend(pen, a, b[..|b| - 1]);
    }
  }

  /** A path draws no loose edge when it starts with a move, or the pen stands
      where a contour starts. */
  lemma {:induction false} WalkTight(pen: Pen, path: seq<Vertex>)
    requires !pen.loose && (pen.status != StatusInitial || pen.at == pen.start || Anchored(path))
    ensures !Walk(pen, path).loose
    decreases |path|
  {
    if path != [] {
      assert path == [path[0]] + path[1..];
      WalkAppend(pen, [path[0]], path[1..]);
      assert [path[0]][..0] == [];
      WalkTight(Step(pen, path[0]), path[1..]);
    }
  }

  // ----- winding

  /** What has been drawn so far, row by row: the clipped height between the
      contour's start and the pen, and so nothing once the contour is closed. */
  ghost predicate Wound(pen: Pen, clip: Clip)
    requires IsClip(clip)
  {
    && (pen.status == StatusInitial ==> pen.edges == [] && !pen.loose)
    && (pen.status == StatusMoveTo || pen.status == StatusClosed ==> pen.at == pen.start)
    && (pen.status == StatusLineTo ==> pen.edges != [])
    && (!pen.loose ==> RowsOpen(pen.edges, clip, if pen.edges == [] then pen.at else pen.start, pen.at))
  }

  /** Each row holds the clipped height from one point to another. */
  ghost predicate RowsOpen(edges: seq<Segment>, clip: Clip, from: Point, to: Point)
    requires IsClip(clip)
  {
    forall r :: NetHeight(ClipAll(edges, clip), r) == ShareOf(to.y, clip, r) - ShareOf(from.y, clip, r)
  }

  lemma RowsOpenNone(clip: Clip, p: Point)
    requires IsClip(clip)
    ensures RowsOpen([], clip, p, p)
  {
  }

  /** Drawing an edge moves the open end to where the edge ends. */
  lemma RowsOpenPush(edges: seq<Segment>, clip: Clip, from: Point, e: Segment)
    requires IsClip(clip) && RowsOpen(edges, clip, from, e.a)
    ensures RowsOpen(edges + [e], clip, from, e.b)
  {
    hide NetHeight, ClipAll, DrawnOf, ShareOf;
    forall r ensures NetHeight(ClipAll(edges + [e], clip), r) == ShareOf(e.b.y, clip, r) - ShareOf(from.y, clip, r) {
      ClipAllPush(edges, e, clip);
      NetAppend(ClipAll(edges, clip), DrawnOf(e, clip), r);
      DrawnHeights(e, clip, r);
    }
  }

  lemma DrawEdgeWound(pen: Pen, p: Point, clip: Clip)
    requires IsClip(clip) && Wound(pen, clip)
    ensures Wound(DrawEdge(pen, p), clip)
  {
    hide RowsOpen;
    if !pen.loose {
      RowsOpenPush(pen.edges, clip, if pen.edges == [] then pen.at else pen.start, Segment(pen.at, p));
    }
  }

  lemma CloseWound(pen: Pen, clip: Clip)
    requires IsClip(clip) && Wound(pen, clip)
    ensures Wound(CloseContour(pen), clip)
  {
    DrawEdgeWound(pen, pen.start, clip);
  }

  lemma MoveWound(pen: Pen, p: Point, clip: Clip)
    requires IsClip(clip) && Wound(pen, clip) && pen.status != StatusLineTo
    ensures Wound(Pen(StatusMoveTo, p, p, pen.edges, pen.loose), clip)
  {
  }

  /** Closed contours leave no height in any row. */
  lemma ClosedRows(pen: Pen, clip: Clip)
    requires IsClip(clip) && Wound(pen, clip) && pen.status != StatusLineTo && !pen.loose
    ensures forall r :: NetHeight(ClipAll(pen.edges, clip), r) == 0
  {
  }

  // ----- polygons

  /** The sides of a polygon drawn as move, line, line, ... */
  function Sides(ps: seq<Point>): seq<Segment>
    requires |ps| >= 1
  {
    if |ps| == 1 then [] else Sides(ps[..|ps| - 1]) + [Segment(ps[|ps| - 2], ps[|ps| - 1])]
  }

  function PolygonPath(ps: seq<Point>): seq<Vertex>
    requires |ps| >= 1
  {
    if |ps| == 1 then [Vertex(ps[0].x, ps[0].y, CMD_MOVE_TO)]
    else PolygonPath(ps[..|ps| - 1]) + [Vertex(ps[|ps| - 1].x, ps[|ps| - 1].y, CMD_LINE_TO)]
  }

  /** A polygon's sides, and the one from its last corner back to its first. */
  function Outline(ps: seq<Point>): seq<Segment>
    requires |ps| >= 1
  {
    Sides(ps) + if |ps| == 1 then [] else [Segment(ps[|ps| - 1], ps[0])]
  }

  predicate ArePolygons(polys: seq<seq<Point>>) {
    forall i :: 0 <= i < |polys| ==> |polys[i]| >= 1
  }

  function PolygonsPath(polys: seq<seq<Point>>): seq<Vertex>
    requires ArePolygons(polys)
  {
    if polys == [] then [] else PolygonsPath(polys[..|polys| - 1]) + PolygonPath(polys[|polys| - 1])
  }

  function Outlines(polys: seq<seq<Point>>): seq<Segment>
    requires ArePolygons(polys)
  {
    if polys == [] then [] else Outlines(polys[..|polys| - 1]) + Outline(polys[|polys| - 1])
  }

  lemma WalkNowhere(pen: Pen)
    ensures Walk(pen, []) == pen
  {
  }

  /** A polygon's path leaves the pen on its last corner with every side drawn
      but the closing one. */
  lemma {:induction false} PolygonWalk(pen: Pen, ps: seq<Point>)
    requires |ps| >= 1
    ensures Walk(pen, PolygonPath(ps)) ==
            Pen(if |ps| == 1 then StatusMoveTo else StatusLineTo, ps[0], ps[|ps| - 1],
                CloseContour(pen).edges + Sides(ps), pen.loose)
    decreases |ps|
  {
    hide Walk, CloseContour;
    if |ps| == 1 {
      WalkPush(pen, [], Vertex(ps[0].x, ps[0].y, CMD_MOVE_TO));
      assert [] + PolygonPath(ps) == PolygonPath(ps);
      WalkNowhere(pen);
    } else {
      var qs := ps[..|ps| - 1];
      PolygonWalk(pen, qs);
      WalkPush(pen, PolygonPath(qs), Vertex(ps[|ps| - 1].x, ps[|ps| - 1].y, CMD_LINE_TO));
    }
  }

  /** Every polygon of a path is closed, whether or not the path says so: by the
      next move or at the end, the side from its last corner to its first. */
  lemma {:induction false} PolygonsClose(pen: Pen, polys: seq<seq<Point>>)
    requires ArePolygons(polys)
    ensures CloseContour(Walk(pen, PolygonsPath(polys))).edges == CloseContour(pen).edges + Outlines(polys)
    decreases |polys|
  {
    if polys != [] {
      hide Sides, PolygonPath, Step;
      var front, ps := polys[..|polys| - 1], polys[|polys| - 1];
      PolygonsClose(pen, front);
      WalkAppend(pen, PolygonsPath(front), PolygonPath(ps));
      PolygonWalk(Walk(pen, PolygonsPath(front)), ps);
    }
  }

  /** One row as a sink receives it: the spans in use and the covers behind them. */
  datatype EmittedRow = EmittedRow(y: int, spans: seq<Stored>, covers: seq<nat>)

  /** The spans are disjoint, read covers the row has, and keep runs whole. */
  predicate SoundRow(stride: nat, row: EmittedRow) {
    Placed(stride, row.spans, |row.covers|) && InTurn(stride, row.spans) && Merged(stride, row.covers, row.spans)
  }

  /** No span stands for a run of one cover. */
  predicate OwnCovers(row: EmittedRow) {
    forall st <- row.spans :: st.len > 0
  }

  /** The covers emitted for a pixel; zero where no emitted span touches it. */
  function EmittedAt(stride: nat, rows: seq<EmittedRow>, y: int, x: int): seq<nat> {
    if rows == [] then Clear(stride)
    else
      var row := rows[|rows| - 1];
      if row.y == y then Decode(stride, row.covers, row.spans, x) else EmittedAt(stride, rows[..|rows| - 1], y, x)
  }

  /** How an emitted pixel is reached. */
  function EmittedTouch(stride: nat, rows: seq<EmittedRow>, y: int, x: int): Touch {
    if rows == [] then Skipped
    else
      var row := rows[|rows| - 1];
      if row.y == y then TouchIn(stride, row.spans, x) else EmittedTouch(stride, rows[..|rows| - 1], y, x)
  }

  /** Each row at most once, in order, below hi. */
  predicate RowsAscend(stride: nat, rows: seq<EmittedRow>, lo: int, hi: int) {
    && (forall i :: 0 <= i < |rows| ==> lo <= rows[i].y < hi && SoundRow(stride, rows[i]))
    && (forall i, j :: 0 <= i < j < |rows| ==> rows[i].y < rows[j].y)
  }

  lemma EmittedPush(stride: nat, rows: seq<EmittedRow>, row: EmittedRow, y: int, x: int)
    ensures EmittedAt(stride, rows + [row], y, x) ==
            if row.y == y then Decode(stride, row.covers, row.spans, x) else EmittedAt(stride, rows, y, x)
    ensures EmittedTouch(stride, rows + [row], y, x) ==
            if row.y == y then TouchIn(stride, row.spans, x) else EmittedTouch(stride, rows, y, x)
  {
    assert (rows + [row])[..|rows|] == rows;
  }

  lemma {:induction false} EmittedOutside(stride: nat, rows: seq<EmittedRow>, lo: int, hi: int, y: int, x: int)
    requires RowsAscend(stride, rows, lo, hi) && (y < lo || hi <= y)
    ensures EmittedAt(stride, rows, y, x) == Clear(stride) && EmittedTouch(stride, rows, y, x) == Skipped
    decreases |rows|
  {
    if rows != [] {
      EmittedOutside(stride, rows[..|rows| - 1], lo, hi, y, x);
    }
  }

  /** What a packed container holds, taken as a row. */
  lemma PackedRow(sl: PackedScanline, row: EmittedRow)
    requires sl.Valid() && row.spans == sl.spans[1..sl.cur + 1] && row.covers == sl.covers
    ensures SoundRow(sl.stride, row) && Reaches(true, sl.stride, row.spans, sl.ops)
    ensures forall x :: Decode(sl.stride, row.covers, row.spans, x) == OpsAt(sl.stride, sl.ops, x)
  {
    sl.SpansSound();
    hide PackedScanline.Valid, Decode, OpsAt;
    forall x ensures Decode(sl.stride, row.covers, row.spans, x) == OpsAt(sl.stride, sl.ops, x) {
      assert sl.At(x) == OpsAt(sl.stride, sl.ops, x);
    }
  }

  /** What an unpacked container holds, taken as a row. */
  lemma UnpackedRow(sl: UnpackedScanline, row: EmittedRow)
    requires sl.Valid() && row.spans == sl.spans[1..sl.cur + 1] && row.covers == sl.covers
    ensures SoundRow(sl.stride, row) && Reaches(false, sl.stride, row.spans, sl.ops) && OwnCovers(row)
    ensures forall x :: Decode(sl.stride, row.covers, row.spans, x) == OpsAt(sl.stride, sl.ops, x)
  {
    sl.SpansSound();
    hide UnpackedScanline.Valid, Decode, OpsAt;
    forall x ensures Decode(sl.stride, row.covers, row.spans, x) == OpsAt(sl.stride, sl.ops, x) {
      assert sl.At(x) == OpsAt(sl.stride, sl.ops, x);
    }
  }

  /** The row a rasteriser hands to the sweep. */
  lemma SortedRow(s: seq<Cell>, cells: seq<Cell>, y: int)
    requires multiset(s) == multiset(RowOf(cells, y))
    ensures SameRow(s, cells, y) && AllInRow(s, y) && forall i :: 0 <= i < |s| ==> s[i] in cells
  {
    hide SameRow;
    PermutedRow(s, cells, y);
    RowOfMembers(cells, y);
    forall i | 0 <= i < |s| ensures s[i] in cells {
      assert s[i] in multiset(s);
      assert s[i] in RowOf(cells, y);
    }
  }

  // ----- corners of the clip box

  /** The integer a double is converted to, saturating: toward zero. */
  function SaturatingInt(v: real): int {
    if v >= 2147483647.0 then 0x7FFF_FFFF
    else if v <= -2147483648.0 then -0x8000_0000
    else if v >= 0.0 then v.Floor else -(-v).Floor
  }

  function IRound(v: real): int {
    SaturatingInt(if v < 0.0 then v - 0.5 else v + 0.5)
  }

  function Upscale(v: real): int {
    IRound(v * 256.0)
  }

  /** A coordinate becomes the nearest 256th, halves away from zero, or the nearest int. */
  lemma UpscaleNear(v: real)
    ensures var (n, w) := (Upscale(v), v * 256.0);
            if w >= 2147483646.5 then n == 0x7FFF_FFFF
            else if w <= -2147483647.5 then n == -0x8000_0000
            else if w >= 0.0 then -0.5 < n as real - w <= 0.5
            else -0.5 <= n as real - w < 0.5
  {
  }

  /** The corners handed to the clipper. On the subpixel arm the right edge is
      tripled and scaled; the left one is tripled and not scaled. */
  function Corners(subpixel: bool, x1: real, y1: real, x2: real, y2: real): ClipRect {
    if subpixel then ClipRect(3 * SaturatingInt(x1), Upscale(y1), Upscale(3.0 * x2), Upscale(y2))
    else ClipRect(Upscale(x1), Upscale(y1), Upscale(x2), Upscale(y2))
  }

  function Normalised(box: ClipRect): ClipRect {
    ClipRect(Min(box.x1, box.x2), Min(box.y1, box.y2), Max(box.x1, box.x2), Max(box.y1, box.y2))
  }

  /** The subpixel box begins where it was asked to exactly when that is column 0;
      further right it begins 256 times nearer to column 0. */
  lemma SubpixelLeftEdge(x1: nat, y1: real, x2: real, y2: real)
    requires x1 < 0x20_0000
    ensures Corners(true, x1 as real, y1, x2, y2).x1 == 3 * x1 && Upscale(3.0 * x1 as real) == 256 * (3 * x1)
    ensures Corners(true, x1 as real, y1, x2, y2).x1 == Upscale(3.0 * x1 as real) <==> x1 == 0
  {
    assert (3.0 * x1 as real) * 256.0 == (768 * x1) as real;
    assert ((768 * x1) as real + 0.5).Floor == 768 * x1;
  }

  // ----- pictures a container can take

  function StrideOf(subpixel: bool): nat {
    if subpixel then 3 else 1
  }

  /** The pixel a column of cells belongs to. */
  function PixelOf(subpixel: bool, column: int): int {
    if subpixel then TruncDiv(column, 3) else column
  }

  /** Columns that fit a scanline's 16-bit coordinates and lengths. */
  predicate FrameFits(subpixel: bool, f: Frame) {
    Room(StrideOf(subpixel), PixelOf(subpixel, f.minX), PixelOf(subpixel, f.maxX) + 1) && (subpixel ==> f.minX >= 0)
  }

  /** None of the lines is drawn twice, and their columns fit. */
  predicate Renders(subpixel: bool, drawn: seq<Segment>) {
    AllTame(drawn) && (drawn != [] ==> FrameFits(subpixel, FrameOf(drawn)))
  }

  lemma PixelRoom(subpixel: bool, a: int, b: int)
    requires Room(StrideOf(subpixel), PixelOf(subpixel, a), PixelOf(subpixel, b) + 1)
    ensures -0x2_0000 <= a <= 0x2_0000 && -0x2_0000 <= b <= 0x2_0000
  {
  }

  lemma PixelsNest(subpixel: bool, a: int, b: int)
    ensures a <= b ==> PixelOf(subpixel, a) <= PixelOf(subpixel, b)
  {
  }

  lemma RoomNests(stride: nat, lo: int, hi: int, lo': int, hi': int)
    requires Room(stride, lo, hi) && lo <= lo' <= hi' <= hi
    ensures Room(stride, lo', hi')
  {
  }

  /** Through a box under dx_limit whose columns fit, so does every picture. */
  lemma BoxRenders(subpixel: bool, edges: seq<Segment>, box: ClipRect)
    requires NarrowBox(box) && (subpixel ==> box.x1 >= 0)
    requires Room(StrideOf(subpixel), PixelOf(subpixel, CellOf(box.x1)), PixelOf(subpixel, CellOf(box.x2)) + 1)
    ensures Renders(subpixel, ClipAll(edges, To(box)))
  {
    hide ClipAll, FrameOf, AllTame, AllInBox, StrideOf, PixelOf, Room;
    var drawn := ClipAll(edges, To(box));
    PixelRoom(subpixel, CellOf(box.x1), CellOf(box.x2));
    ClipAllInBox(edges, box);
    FrameInBox(drawn, box);
    PixelsNest(subpixel, CellOf(box.x1), FrameOf(drawn).minX);
    PixelsNest(subpixel, FrameOf(drawn).minX, FrameOf(drawn).maxX);
    PixelsNest(subpixel, FrameOf(drawn).maxX, CellOf(box.x2));
    if drawn != [] {
      RoomNests(StrideOf(subpixel), PixelOf(subpixel, CellOf(box.x1)), PixelOf(subpixel, CellOf(box.x2)) + 1,
                PixelOf(subpixel, FrameOf(drawn).minX), PixelOf(subpixel, FrameOf(drawn).maxX) + 1);
    }
  }

  /** The pen of a new rasteriser. */
  const START := Pen(StatusInitial, Point(0, 0), Point(0, 0), [], false)

  /** What a new rasteriser draws of a path, closed at the end. */
  function PathLines(clip: Clip, path: seq<Vertex>): seq<Segment>
    requires IsClip(clip)
  {
    ClipAll(CloseContour(Walk(START, path)).edges, clip)
  }

  // ----- what a picture shows

  /** The covers the stored cells give pixel x of row y. */
  ghost function PictureAt(subpixel: bool, g: seq<nat>, cells: seq<Cell>, y: int, x: int): (cs: seq<nat>)
    requires IsGamma(g)
    ensures |cs| == StrideOf(subpixel) && forall i :: 0 <= i < |cs| ==> cs[i] < 256
  {
    if subpixel then SubpixAt(g, cells, y, x) else [PlainAt(g, cells, y, x)]
  }

  /** The operations give every pixel of row y its covers, and on the subpixel arm reach
      it the way they should. */
  ghost predicate Exact(subpixel: bool, g: seq<nat>, cells: seq<Cell>, y: int, ops: seq<Op>) {
    && IsGamma(g)
    && forall x :: OpsAt(StrideOf(subpixel), ops, x) == PictureAt(subpixel, g, cells, y, x)
                   && (subpixel ==> TouchAt(ops, x) == SubpixTouch(g, cells, y, x))
  }

  /** The emitted rows give a pixel its covers, and on the subpixel arm reach it the way
      the container keeps. */
  ghost predicate ShowsPixel(subpixel: bool, g: seq<nat>, cells: seq<Cell>, packed: bool, rows: seq<EmittedRow>, y: int, x: int)
    requires IsGamma(g)
  {
    && EmittedAt(StrideOf(subpixel), rows, y, x) == PictureAt(subpixel, g, cells, y, x)
    && (subpixel ==> EmittedTouch(3, rows, y, x) == Kept(packed, SubpixTouch(g, cells, y, x)))
  }

  /** The emitted rows show every pixel of the rows from lo below hi. */
  ghost predicate ShownUpTo(subpixel: bool, g: seq<nat>, cells: seq<Cell>, packed: bool, rows: seq<EmittedRow>, lo: int, hi: int) {
    && IsGamma(g) && RowsAscend(StrideOf(subpixel), rows, lo, hi)
    && forall y, x :: lo <= y < hi ==> ShowsPixel(subpixel, g, cells, packed, rows, y, x)
  }

  /** They show every pixel there is. */
  ghost predicate ShowsPicture(subpixel: bool, g: seq<nat>, cells: seq<Cell>, packed: bool, rows: seq<EmittedRow>) {
    IsGamma(g) && forall y, x :: ShowsPixel(subpixel, g, cells, packed, rows, y, x)
  }

  lemma ShowNone(subpixel: bool, g: seq<nat>, cells: seq<Cell>, packed: bool, lo: int)
    requires IsGamma(g)
    ensures ShownUpTo(subpixel, g, cells, packed, [], lo, lo)
  {
  }

  /** Emitting the next row extends what is shown. */
  lemma ShowRow(subpixel: bool, g: seq<nat>, cells: seq<Cell>, packed: bool, rows: seq<EmittedRow>, lo: int, from: int,
                y: int, row: EmittedRow, ops: seq<Op>)
    requires ShownUpTo(subpixel, g, cells, packed, rows, lo, from) && lo <= from <= y
    requires row.y == y && SoundRow(StrideOf(subpixel), row)
    requires Exact(subpixel, g, cells, y, ops) && forall y' :: from <= y' < y ==> Exact(subpixel, g, cells, y', [])
    requires forall x :: Decode(StrideOf(subpixel), row.covers, row.spans, x) == OpsAt(StrideOf(subpixel), ops, x)
    requires Reaches(packed, StrideOf(subpixel), row.spans, ops)
    ensures ShownUpTo(subpixel, g, cells, packed, rows + [row], lo, y + 1)
  {
    hide PictureAt, SubpixTouch, Decode, TouchIn, Kept, SoundRow;
    forall y', x | lo <= y' < y + 1 ensures ShowsPixel(subpixel, g, cells, packed, rows + [row], y', x) {
      EmittedPush(StrideOf(subpixel), rows, row, y', x);
      if y' < y && from <= y' {
        SilentShown(subpixel, g, cells, packed, rows, lo, from, y', x);
      } else if y' == y {
        assert OpsAt(StrideOf(subpixel), ops, x) == PictureAt(subpixel, g, cells, y, x);
        assert TouchIn(StrideOf(subpixel), row.spans, x) == Kept(packed, TouchAt(ops, x));
      } else {
        assert ShowsPixel(subpixel, g, cells, packed, rows, y', x);
      }
    }
  }

  /** A row without operations is shown by emitting nothing. */
  lemma SilentShown(subpixel: bool, g: seq<nat>, cells: seq<Cell>, packed: bool, rows: seq<EmittedRow>, lo: int, hi: int, y: int, x: int)
    requires RowsAscend(StrideOf(subpixel), rows, lo, hi) && (y < lo || hi <= y) && Exact(subpixel, g, cells, y, [])
    ensures ShowsPixel(subpixel, g, cells, packed, rows, y, x)
  {
    hide PictureAt, SubpixTouch, RowsAscend;
    EmittedOutside(StrideOf(subpixel), rows, lo, hi, y, x);
    assert OpsAt(StrideOf(subpixel), [], x) == PictureAt(subpixel, g, cells, y, x);
  }

  /** The rows after the last emitted one show nothing. */
  lemma ShowRest(subpixel: bool, g: seq<nat>, cells: seq<Cell>, packed: bool, rows: seq<EmittedRow>, lo: int, from: int, hi: int)
    requires ShownUpTo(subpixel, g, cells, packed, rows, lo, from) && lo <= from <= hi
    requires forall y :: from <= y < hi ==> Exact(subpixel, g, cells, y, [])
    ensures ShownUpTo(subpixel, g, cells, packed, rows, lo, hi)
  {
    hide ShowsPixel, Exact, SoundRow;
    forall y, x | lo <= y < hi ensures ShowsPixel(subpixel, g, cells, packed, rows, y, x) {
      if from <= y {
        SilentShown(subpixel, g, cells, packed, rows, lo, from, y, x);
      }
    }
  }

  /** A row without cells has no operations. */
  lemma EmptyRow(subpixel: bool, g: seq<nat>, cells: seq<Cell>, y: int)
    requires IsGamma(g) && forall c <- cells :: c.y != y
    ensures Exact(subpixel, g, cells, y, [])
  {
    hide Left, AreaAt, Shifted, Alpha, PixelCovers;
    forall x
      ensures OpsAt(StrideOf(subpixel), [], x) == PictureAt(subpixel, g, cells, y, x)
              && (subpixel ==> TouchAt([], x) == SubpixTouch(g, cells, y, x))
    {
      EmptyThirds(cells, y, x);
    }
  }

  /** A picture shown in its own rows is shown everywhere. */
  lemma ShownEverywhere(subpixel: bool, g: seq<nat>, cells: seq<Cell>, packed: bool, rows: seq<EmittedRow>, lo: int, hi: int)
    requires ShownUpTo(subpixel, g, cells, packed, rows, lo, hi) && forall c <- cells :: lo <= c.y < hi
    ensures ShowsPicture(subpixel, g, cells, packed, rows)
  {
    hide ShowsPixel, Exact, SoundRow;
    forall y, x ensures ShowsPixel(subpixel, g, cells, packed, rows, y, x) {
      if !(lo <= y < hi) {
        EmptyRow(subpixel, g, cells, y);
        SilentShown(subpixel, g, cells, packed, rows, lo, hi, y, x);
      }
    }
  }

  lemma ShownAscends(subpixel: bool, g: seq<nat>, cells: seq<Cell>, packed: bool, rows: seq<EmittedRow>, lo: int, hi: int)
    requires ShownUpTo(subpixel, g, cells, packed, rows, lo, hi)
    ensures RowsAscend(StrideOf(subpixel), rows, lo, hi)
  {
  }

  /** Row y of a plain picture shows nothing. */
  ghost predicate Blank(g: seq<nat>, cells: seq<Cell>, y: int)
    requires IsGamma(g)
  {
    forall x :: PlainAt(g, cells, y, x) == 0
  }

  /** A plain picture one column wide with a row that shows something: a new unpacked
      container has no place for it. */
  ghost predicate Overruns(subpixel: bool, g: seq<nat>, lines: seq<Segment>)
    requires IsGamma(g)
  {
    && !subpixel && FrameOf(lines).minX == FrameOf(lines).maxX
    && exists y :: !Blank(g, StoredCells(lines), y)
  }

  /** On the plain arm a row is swept without operations exactly when it is blank. */
  lemma SilentIsBlank(g: seq<nat>, cells: seq<Cell>, y: int, ops: seq<Op>, lo: int, hi: int)
    requires Exact(false, g, cells, y, ops) && Ordered(1, ops, lo, hi) && Visible(ops)
    ensures ops == [] <==> Blank(g, cells, y)
  {
    hide PlainAt, Value;
    if ops == [] {
      forall x ensures PlainAt(g, cells, y, x) == 0 {
        assert OpsAt(1, ops, x) == PictureAt(false, g, cells, y, x);
      }
    } else {
      var op := ops[|ops| - 1];
      assert WellFormed(1, op) && Touches(op, op.x) && Value(1, op) != [0];
      assert OpsAt(1, ops, op.x) == PictureAt(false, g, cells, y, op.x);
    }
  }

  lemma NoOps(g: seq<nat>, cells: seq<Cell>, y: int)
    requires IsGamma(g)
    ensures Exact(false, g, cells, y, []) <==> Blank(g, cells, y)
  {
    hide PlainAt;
    if Exact(false, g, cells, y, []) {
      SilentIsBlank(g, cells, y, [], 0, 0);
    }
  }

  // ----- against what was drawn

  lemma StepWound(pen: Pen, v: Vertex, clip: Clip)
    requires IsClip(clip) && Wound(pen, clip)
    ensures Wound(Step(pen, v), clip)
  {
    hide Wound;
    var p := Point(v.x, v.y);
    CloseWound(pen, clip);
    DrawEdgeWound(pen, p, clip);
    MoveWound(CloseContour(pen), p, clip);
  }

  lemma {:induction false} WalkWound(pen: Pen, path: seq<Vertex>, clip: Clip)
    requires IsClip(clip) && Wound(pen, clip)
    ensures Wound(Walk(pen, path), clip)
    decreases |path|
  {
    if path != [] {
      hide Wound, Step;
      WalkWound(pen, path[..|path| - 1], clip);
      StepWound(Walk(pen, path[..|path| - 1]), path[|path| - 1], clip);
    }
  }

  /** Whatever a path does and however it is clipped, its lines' heights close in every
      row, and so do the covers of its cells if no line is drawn twice. */
  lemma PathCloses(clip: Clip, path: seq<Vertex>)
    requires IsClip(clip)
    ensures forall r :: NetHeight(PathLines(clip, path), r) == 0
    ensures AllTame(PathLines(clip, path)) ==> forall r :: RowCover(CellsOf(PathLines(clip, path)), r) == 0
  {
    hide Walk, CloseContour, NetHeight, RowCover, CellsOf, ClipAll, AllTame;
    WalkTight(START, path);
    StartWound(clip);
    WalkWound(START, path, clip);
    CloseWound(Walk(START, path), clip);
    ClosedPen(Walk(START, path));
    ClosedRows(CloseContour(Walk(START, path)), clip);
    if AllTame(PathLines(clip, path)) {
      forall r ensures RowCover(CellsOf(PathLines(clip, path)), r) == 0 {
        TameCover(PathLines(clip, path), r);
        assert NetHeight(PathLines(clip, path), r) == 0;
      }
    }
  }

  lemma StartWound(clip: Clip)
    requires IsClip(clip)
    ensures Wound(START, clip)
  {
    RowsOpenNone(clip, Point(0, 0));
  }

  lemma ClosedPen(pen: Pen)
    ensures CloseContour(pen).status != StatusLineTo && CloseContour(pen).loose == pen.loose
  {
  }

  lemma SameAlpha(g: seq<nat>, s: seq<Cell>, t: seq<Cell>, y: int, x: int)
    requires IsGamma(g) && SamePicture(s, t)
    ensures PixelAlpha(g, s, y, x) == PixelAlpha(g, t, y, x)
  {
    hide Left, AreaAt, Alpha, Shifted;
    assert Left(s, x, y) == Left(t, x, y);
  }

  lemma SameThree(g: seq<nat>, s: seq<Cell>, t: seq<Cell>, y: int, q: int)
    requires IsGamma(g) && SamePicture(s, t)
    ensures ThreeAlphas(g, s, y, q) == ThreeAlphas(g, t, y, q)
  {
    hide PixelAlpha, SamePicture;
    SameAlpha(g, s, t, y, 3 * q);
    SameAlpha(g, s, t, y, 3 * q + 1);
    SameAlpha(g, s, t, y, 3 * q + 2);
  }

  /** The plain sweep shows in pixel x of row y the alpha of what the lines contribute
      there. */
  ghost predicate ShowsAlpha(g: seq<nat>, lines: seq<Segment>, y: int, x: int)
    requires IsGamma(g)
  {
    PlainAt(g, StoredCells(lines), y, x) == PixelAlpha(g, CellsOf(lines), y, x)
  }

  /** What the lines contribute is one column wide, with area in some row whose alpha
      there shows. */
  ghost predicate OneColumnShows(g: seq<nat>, lines: seq<Segment>)
    requires IsGamma(g)
  {
    var x := FrameOf(lines).minX;
    x == FrameOf(lines).maxX && exists y :: AreaAt(CellsOf(lines), x, y) != 0 && PixelAlpha(g, CellsOf(lines), y, x) != 0
  }

  /** A row of a picture one column wide is blank unless that column has area and an
      alpha that shows. */
  lemma OneColumnBlank(g: seq<nat>, cells: seq<Cell>, y: int, x: int)
    requires IsGamma(g) && forall c <- cells :: c.x == x
    ensures Blank(g, cells, y) <==> AreaAt(cells, x, y) == 0 || PixelAlpha(g, cells, y, x) == 0
  {
    hide AreaAt, PixelAlpha;
    if AreaAt(cells, x, y) != 0 {
      if !Has(cells, y, x) {
        SameColumn(cells, y, x);
      }
      assert HasUpTo(cells, y, x);
    }
    forall x' | x' != x ensures PlainAt(g, cells, y, x') == 0 {
      SameColumn(cells, y, x');
    }
    assert !HasFrom(cells, y, x + 1);
    assert Blank(g, cells, y) <==> PlainAt(g, cells, y, x) == 0;
  }

  /** So an overrun can be told from what the lines contribute, unless lost cells add up
      to something. */
  lemma OverrunsIff(g: seq<nat>, lines: seq<Segment>)
    requires IsGamma(g) && AllTame(lines) && SamePicture(LostCells(lines), [])
    ensures Overruns(false, g, lines) <==> OneColumnShows(g, lines)
  {
    hide AreaAt, PixelAlpha, StoredCells, LostCells, CellsOf, FrameOf, AllTame, Blank, SamePicture;
    WhatIsLost(lines);
    var x := FrameOf(lines).minX;
    if x == FrameOf(lines).maxX {
      StoredInColumn(lines);
      forall y ensures Blank(g, StoredCells(lines), y) <==>
                       AreaAt(CellsOf(lines), x, y) == 0 || PixelAlpha(g, CellsOf(lines), y, x) == 0 {
        OneColumnBlank(g, StoredCells(lines), y, x);
        SameAlpha(g, StoredCells(lines), CellsOf(lines), y, x);
        SameArea(StoredCells(lines), CellsOf(lines), y, x);
      }
    }
  }

  lemma SameArea(s: seq<Cell>, t: seq<Cell>, y: int, x: int)
    requires SamePicture(s, t)
    ensures AreaAt(s, x, y) == AreaAt(t, x, y)
  {
    hide Left, AreaAt;
    assert Left(s, x, y) == Left(t, x, y);
  }

  lemma StoredInColumn(lines: seq<Segment>)
    requires AllTame(lines) && FrameOf(lines).minX == FrameOf(lines).maxX
    ensures forall c <- StoredCells(lines) :: c.x == FrameOf(lines).minX
  {
    hide FrameOf, AllTame, FinishedCells;
    forall c | c in StoredCells(lines) ensures c.x == FrameOf(lines).minX {
      FinishedInFrame(lines, c);
    }
  }

  /** The subpixel sweep gives pixel q of row y the alphas of what the lines contribute
      to its three columns exactly when the thirds agree. */
  ghost predicate ThreeAlphasIff(g: seq<nat>, lines: seq<Segment>, y: int, q: int)
    requires IsGamma(g)
  {
    SubpixAt(g, StoredCells(lines), y, q) == ThreeAlphas(g, CellsOf(lines), y, q) <==> ThirdsAgreeAt(g, StoredCells(lines), y, q)
  }

  /** Unless the lost cells add up to something, a row that closes shows on the plain
      arm, at every pixel, the alpha of what the lines contribute. */
  lemma PlainPicture(g: seq<nat>, lines: seq<Segment>, y: int, x: int)
    requires IsGamma(g) && g[0] == 0 && SamePicture(LostCells(lines), []) && RowCover(CellsOf(lines), y) == 0
    ensures ShowsAlpha(g, lines, y, x)
  {
    hide PlainAt, PixelAlpha, RowCover, StoredCells, LostCells, CellsOf, SamePicture;
    WhatIsLost(lines);
    SamePictureRowCover(StoredCells(lines), CellsOf(lines), y);
    SilentAlpha(g);
    PointwiseIff(g, StoredCells(lines), y);
    SameAlpha(g, StoredCells(lines), CellsOf(lines), y, x);
  }

  /** On the subpixel arm, exactly when a pixel's covers are the alphas of what the lines
      contribute to its three columns. */
  lemma ThirdsPicture(g: seq<nat>, lines: seq<Segment>, y: int, q: int)
    requires IsGamma(g) && g[0] == 0 && SamePicture(LostCells(lines), []) && RowCover(CellsOf(lines), y) == 0
    ensures ThreeAlphasIff(g, lines, y, q)
  {
    hide SubpixAt, PixelAlpha, RowCover, StoredCells, LostCells, CellsOf, SamePicture, ThirdsAgreeAt;
    WhatIsLost(lines);
    SamePictureRowCover(StoredCells(lines), CellsOf(lines), y);
    ThirdsIff(g, StoredCells(lines), y, q);
    SameThree(g, StoredCells(lines), CellsOf(lines), y, q);
  }

  /** That of `gamma_threshold(0.5)`: a pixel is painted whole or not at all. */
  function ThresholdGamma(): (g: seq<nat>)
    ensures IsGamma(g) && forall i :: 0 <= i < 256 ==> g[i] == if i < 128 then 0 else 255
  {
    seq(256, i => if 2 * i < 255 then 0 else 255)
  }

  class Rasterizer {
    const outline: CellRasterizer
    const clipper: LineClipper
    /** Whether cells are thirds of a pixel wide. */
    const subpixel: bool
    var startX: int
    var startY: int
    var status: Status
    var scanY: int
    var gamma: seq<nat>
    /** The edges drawn since the last reset, before clipping. */
    ghost var edges: seq<Segment>
    /** One of them was drawn before any move, from elsewhere than the start. */
    ghost var loose: bool

    ghost function PenState(): Pen
      reads `startX, `startY, `status, `edges, `loose, clipper
    {
      Pen(status, Point(startX, startY), Point(clipper.x1, clipper.y1), edges, loose)
    }

    ghost predicate Valid()
      reads `startX, `startY, `status, `edges, `loose, `gamma, outline, clipper
    {
      && outline.Valid() && outline.Traced() && outline.SortedValid()
      && IsClip(clipper.Mode()) && (status != StatusInitial ==> clipper.Ready())
      && (outline.sorted ==> outline.curr == INITIAL_CELL && status != StatusLineTo)
      && IsGamma(gamma)
      && outline.lines == ClipAll(edges, clipper.Mode())
      && Wound(PenState(), clipper.Mode())
    }

    constructor (subpixel: bool)
      ensures fresh(outline) && fresh(clipper) && this.subpixel == subpixel
      ensures Valid() && !outline.sorted && clipper.Ready() && clipper.Mode() == Open
      ensures PenState() == START
      ensures gamma == LinearGamma()
    {
      outline := new CellRasterizer();
      clipper := new LineClipper();
      this.subpixel := subpixel;
      startX, startY, status, scanY := 0, 0, StatusInitial, 0;
      gamma := LinearGamma();
      edges, loose := [], false;
      new;
      RowsOpenNone(Open, Point(0, 0));
    }

    /** `gamma_threshold(0.5)`. */
    method GammaThreshold()
      requires Valid()
      modifies `gamma
      ensures Valid() && gamma == ThresholdGamma()
    {
      gamma := ThresholdGamma();
    }

    method Reset()
      requires IsClip(clipper.Mode()) && IsGamma(gamma)
      modifies outline, `status, `edges, `loose
      ensures Valid() && !outline.sorted
      ensures PenState() == old(PenState()).(status := StatusInitial, edges := [], loose := false)
    {
      outline.Reset();
      status := StatusInitial;
      edges, loose := [], false;
      RowsOpenNone(clipper.Mode(), Point(clipper.x1, clipper.y1));
    }

    /** `Rasterizer::clip_box`. The current point's flags are not recomputed. */
    method SetClipBox(x1: real, y1: real, x2: real, y2: real)
      requires IsClip(clipper.Mode()) && IsGamma(gamma)
      modifies this, outline, clipper
      ensures Valid() && !outline.sorted && gamma == old(gamma)
      ensures clipper.Mode() == To(Normalised(Corners(subpixel, x1, y1, x2, y2)))
      ensures PenState() == old(PenState()).(status := StatusInitial, edges := [], loose := false)
    {
      Reset();
      var box := Corners(subpixel, x1, y1, x2, y2);
      clipper.SetBox(box.x1, box.y1, box.x2, box.y2);
      RowsOpenNone(clipper.Mode(), Point(clipper.x1, clipper.y1));
    }

    /** Draws an edge from the pen to (x, y). */
    method EdgeTo(x: int, y: int)
      requires Valid() && !outline.sorted && clipper.Ready()
      modifies outline, clipper, `status, `edges, `loose
      ensures Valid() && !outline.sorted && clipper.Ready() && clipper.Mode() == old(clipper.Mode())
      ensures PenState() == DrawEdge(old(PenState()), Point(x, y))
    {
      hide CellRasterizer.Valid, CellRasterizer.Traced, Wound, ClipAll, DrawnOf;
      ghost var s := Segment(Point(clipper.x1, clipper.y1), Point(x, y));
      DrawEdgeWound(PenState(), Point(x, y), clipper.Mode());
      ClipAllPush(edges, s, clipper.Mode());
      clipper.LineTo(outline, x, y);
      loose := loose || (status == StatusInitial && s.a != Point(startX, startY));
      edges := edges + [s];
      status := StatusLineTo;
    }

    method ClosePolygon()
      requires Valid()
      modifies outline, clipper, `status, `edges, `loose
      ensures Valid() && status != StatusLineTo && clipper.Mode() == old(clipper.Mode())
      ensures old(clipper.Ready()) ==> clipper.Ready()
      ensures PenState() == CloseContour(old(PenState())) && outline.sorted == old(outline.sorted)
    {
      hide CellRasterizer.Valid, CellRasterizer.Traced, Wound, ClipAll;
      if status == StatusLineTo {
        CloseWound(PenState(), clipper.Mode());
        EdgeTo(startX, startY);
        status := StatusClosed;
      }
    }

    method MoveTo(x: int, y: int)
      requires Valid()
      modifies outline, clipper, `status, `startX, `startY, `edges, `loose
      ensures Valid() && !outline.sorted && clipper.Ready() && clipper.Mode() == old(clipper.Mode())
      ensures PenState() == if old(outline.sorted) then Pen(StatusMoveTo, Point(x, y), Point(x, y), [], false)
                            else Pen(StatusMoveTo, Point(x, y), Point(x, y), CloseContour(old(PenState())).edges, old(loose))
    {
      hide CellRasterizer.Valid, CellRasterizer.Traced, Wound, ClipAll;
      if outline.sorted {
        Reset();
      }
      ClosePolygon();
      MoveWound(PenState(), Point(x, y), clipper.Mode());
      startX, startY := x, y;
      clipper.MoveTo(x, y);
      status := StatusMoveTo;
    }

    method AddVertex(v: Vertex)
      requires Valid() && !outline.sorted && (clipper.Ready() || IsMoveTo(v.cmd) || !IsVertex(v.cmd))
      modifies outline, clipper, `status, `startX, `startY, `edges, `loose
      ensures Valid() && !outline.sorted && clipper.Mode() == old(clipper.Mode())
      ensures old(clipper.Ready()) || IsMoveTo(v.cmd) ==> clipper.Ready()
      ensures PenState() == Step(old(PenState()), v)
    {
      hide Valid, CloseContour, DrawEdge;
      if IsMoveTo(v.cmd) {
        MoveTo(v.x, v.y);
      } else if IsVertex(v.cmd) {
        EdgeTo(v.x, v.y);
      } else if IsClose(v.cmd) {
        ClosePolygon();
      }
    }

    /** Adds a whole path; the first path after a rendering starts afresh. */
    method AddPath(path: seq<Vertex>)
      requires Valid() && (clipper.Ready() || Anchored(path))
      modifies outline, clipper, `status, `startX, `startY, `edges, `loose
      ensures Valid() && !outline.sorted && clipper.Mode() == old(clipper.Mode())
      ensures old(clipper.Ready()) ==> clipper.Ready()
      ensures PenState() == Walk(if old(outline.sorted) then old(PenState()).(status := StatusInitial, edges := [], loose := false)
                                 else old(PenState()), path)
    {
      hide CellRasterizer.Valid, CellRasterizer.Traced, Wound, ClipAll, Step;
      if outline.sorted {
        Reset();
      }
      ghost var from := PenState();
      for i := 0 to |path|
        invariant Valid() && !outline.sorted && clipper.Mode() == old(clipper.Mode())
        invariant clipper.Ready() || (!old(clipper.Ready()) && Anchored(path[i..]))
        invariant PenState() == Walk(from, path[..i])
      {
        assert path[i..][0] == path[i] && path[i..][1..] == path[i + 1..];
        assert path[..i + 1] == path[..i] + [path[i]];
        WalkPush(from, path[..i], path[i]);
        AddVertex(path[i]);
      }
      assert path[..|path|] == path;
    }

    /** Closed contours wind back to zero in every row. */
    lemma ClosedTotals()
      requires Valid() && status != StatusLineTo
      ensures !loose ==> forall r :: NetHeight(outline.lines, r) == 0
      ensures !loose && AllTame(outline.lines) ==> forall r :: RowCover(outline.drawn, r) == 0
    {
      hide CellRasterizer.Valid, CellRasterizer.SortedValid, Wound, ClipAll, CellsOf, NetHeight, RowCover, FrameOf, FinishedCells,
           Gathered, AllTame;
      if !loose {
        ClosedRows(PenState(), clipper.Mode());
        if AllTame(outline.lines) {
          forall r ensures RowCover(outline.drawn, r) == 0 {
            TameCover(outline.lines, r);
          }
        }
      }
    }

    /** Closes the last contour and sorts; false when no cell was stored. Every row
        of closed contours winds back to zero, in the lines' heights always and in
        the cells' covers when none of the lines is drawn twice. */
    method RewindScanlines() returns (any: bool)
      requires Valid()
      modifies outline, clipper, `status, `edges, `loose, `scanY
      ensures Valid() && PenState() == CloseContour(old(PenState())) && clipper.Mode() == old(clipper.Mode())
      ensures outline.lines == old(Closed()) && loose == old(loose)
      ensures !loose ==> forall r :: NetHeight(outline.lines, r) == 0
      ensures !loose && AllTame(outline.lines) ==> forall r :: RowCover(outline.drawn, r) == 0
      ensures any == (outline.cells != []) && (any ==> outline.sorted && scanY == outline.minY)
      ensures outline.curr == INITIAL_CELL && outline.cells == StoredCells(outline.lines)
    {
      hide StoredCells, FinishedCells, Gathered, CellRasterizer.Valid, CellRasterizer.SortedValid, Wound, ClipAll, CellsOf,
           NetHeight, RowCover, FrameOf, AllTame;
      ClosePolygon();
      ClosedTotals();
      outline.SortCells();
      if |outline.cells| == 0 {
        return false;
      }
      scanY := outline.minY;
      return true;
    }

    // ----- sweeping

    function Stride(): nat {
      StrideOf(subpixel)
    }

    function Pixel(column: int): int {
      PixelOf(subpixel, column)
    }

    /** What a sweep needs: sorted cells, of lines drawn once; on the subpixel arm, no
        cell left of column 0. */
    ghost predicate Swept()
      reads `startX, `startY, `status, `edges, `loose, `gamma, outline, clipper
    {
      && Valid() && outline.sorted && outline.cells != []
      && AllTame(outline.lines) && (subpixel ==> outline.minX >= 0)
    }

    /** A row of operations in order, inside the bounding box; on the plain arm
        none of them is transparent. */
    ghost predicate Fits(ops: seq<Op>)
      reads outline
    {
      Ordered(Stride(), ops, Pixel(outline.minX), Pixel(outline.maxX) + 1) && (!subpixel ==> Visible(ops))
    }

    /** The operations for row y. */
    method SweepOne(y: int) returns (ops: seq<Op>)
      requires Swept() && outline.minY <= y <= outline.maxY
      ensures Fits(ops) && Exact(subpixel, gamma, outline.cells, y, ops)
    {
      hide *;
      SweptFacts();
      var s := outline.ScanlineCells(y);
      SortedRow(s, outline.cells, y);
      RowInFrame(s);
      if subpixel {
        ops := SubpixRow(gamma, s, y);
        SubpixRowFits(ops, s, y);
      } else {
        ops := SweepRow(gamma, s, y);
        PlainRowFits(ops, s, y);
      }
    }

    lemma SweptFacts()
      requires Swept()
      ensures Valid() && IsGamma(gamma) && outline.sorted && outline.SortedValid() && outline.cells != []
      ensures subpixel ==> outline.minX >= 0
    {
    }

    lemma PlainRowFits(ops: seq<Op>, s: seq<Cell>, y: int)
      requires IsGamma(gamma) && !subpixel && SameRow(s, outline.cells, y)
      requires forall i :: 0 <= i < |s| ==> outline.minX <= s[i].x <= outline.maxX
      requires forall x :: OpsAt(1, ops, x) == [PlainAt(gamma, s, y, x)]
      requires Ordered(1, ops, if s == [] then 0 else s[0].x, if s == [] then 0 else s[|s| - 1].x + 1) && Visible(ops)
      ensures Fits(ops) && Exact(subpixel, gamma, outline.cells, y, ops)
    {
      hide SameRow, PlainAt, OpsAt;
      forall x ensures OpsAt(1, ops, x) == PictureAt(false, gamma, outline.cells, y, x) {
        SamePlain(gamma, s, outline.cells, y, x);
      }
    }

    lemma SubpixRowFits(ops: seq<Op>, s: seq<Cell>, y: int)
      requires IsGamma(gamma) && subpixel && SameRow(s, outline.cells, y) && outline.minX >= 0
      requires forall i :: 0 <= i < |s| ==> outline.minX <= s[i].x <= outline.maxX
      requires Ordered(3, ops, if s == [] then 0 else s[0].x / 3, if s == [] then 0 else s[|s| - 1].x / 3 + 1)
      requires forall q :: OpsAt(3, ops, q) == SubpixAt(gamma, s, y, q) && TouchAt(ops, q) == SubpixTouch(gamma, s, y, q)
      ensures Fits(ops) && Exact(subpixel, gamma, outline.cells, y, ops)
    {
      hide SameRow, SubpixAt, SubpixTouch, OpsAt, TouchAt;
      forall q ensures OpsAt(3, ops, q) == PictureAt(true, gamma, outline.cells, y, q)
                       && TouchAt(ops, q) == SubpixTouch(gamma, outline.cells, y, q) {
        SameSubpix(gamma, s, outline.cells, y, q);
      }
    }

    /** The stored cells of a row lie in the bounding box. */
    lemma RowInFrame(s: seq<Cell>)
      requires Swept() && forall c :: c in s ==> c in outline.cells
      ensures forall i :: 0 <= i < |s| ==> outline.minX <= s[i].x <= outline.maxX
    {
      hide *;
      forall i | 0 <= i < |s| ensures outline.minX <= s[i].x <= outline.maxX {
        CellInFrame(s[i]);
      }
    }

    /** Stored cells lie in the bounding box. */
    lemma CellInFrame(c: Cell)
      requires Swept() && c in outline.cells
      ensures outline.minX <= c.x <= outline.maxX && outline.minY <= c.y <= outline.maxY
    {
      hide SamePicture, Sorted, Wound, ClipAll, CellsOf, FrameOf, AllTame, FinishedCells;
      assert c in outline.emitted;
      FinishedInFrame(outline.lines, c);
    }

    /** `sweep_scanline`: the next row that has anything to show. */
    method SweepScanline() returns (more: bool, ops: seq<Op>)
      requires Swept() && outline.minY <= scanY <= outline.maxY + 1
      modifies `scanY
      ensures more ==> old(scanY) < scanY <= outline.maxY + 1 && ops != [] && Fits(ops)
      ensures more ==> Exact(subpixel, gamma, outline.cells, scanY - 1, ops)
      ensures forall y :: old(scanY) <= y < (if more then scanY - 1 else scanY) ==> Exact(subpixel, gamma, outline.cells, y, [])
      ensures !more ==> scanY == outline.maxY + 1
    {
      hide Valid, Exact, Fits, AllTame;
      ops := [];
      while scanY <= outline.maxY
        invariant Swept() && outline.minY <= old(scanY) <= scanY <= outline.maxY + 1
        invariant forall y :: old(scanY) <= y < scanY ==> Exact(subpixel, gamma, outline.cells, y, [])
        decreases outline.maxY + 1 - scanY
      {
        ops := SweepOne(scanY);
        if ops != [] {
          scanY := scanY + 1;
          return true, ops;
        }
        scanY := scanY + 1;
      }
      return false, [];
    }

    // ----- emitting

    /** The rows emitted so far show every pixel of the rows swept so far. */
    ghost predicate Emitted(packed: bool, rows: seq<EmittedRow>, hi: int)
      reads `gamma, outline
    {
      ShownUpTo(subpixel, gamma, outline.cells, packed, rows, outline.minY, hi)
    }

    /** The rows from one up to another have no operations. */
    ghost predicate Silent(from: int, to: int)
      reads `gamma, outline
    {
      forall y :: from <= y < to ==> Exact(subpixel, gamma, outline.cells, y, [])
    }

    /** What the pen has drawn, once its last contour is closed. */
    ghost function Closed(): seq<Segment>
      requires IsClip(clipper.Mode())
      reads `startX, `startY, `status, `edges, `loose, clipper
    {
      ClipAll(CloseContour(PenState()).edges, clipper.Mode())
    }

    /** A picture the containers can take: no line drawn twice, and columns that fit a
        scanline's 16-bit coordinates and lengths. */
    ghost predicate Renderable()
      requires IsClip(clipper.Mode())
      reads `startX, `startY, `status, `edges, `loose, clipper
    {
      Renders(subpixel, Closed())
    }

    /** Rewinding a renderable picture that has cells readies it for the sweep. */
    lemma SweepReady()
      requires Valid() && Renders(subpixel, outline.lines) && outline.sorted && outline.cells != []
      ensures Swept() && FrameFits(subpixel, outline.Bounds()) && outline.minX <= outline.maxX && outline.minY <= outline.maxY
      ensures forall c <- outline.cells :: outline.minY <= c.y < outline.maxY + 1
    {
      hide CellRasterizer.SortedValid, SamePicture, Wound, Room, ClipAll, CellsOf, FrameOf, FinishedCells, Gathered, AllTame;
      NothingFinished();
      CellInFrame(outline.cells[0]);
      forall c | c in outline.cells ensures outline.minY <= c.y < outline.maxY + 1 {
        CellInFrame(c);
      }
    }

    lemma RendersClosed()
      requires Valid() && Renderable()
      ensures Renders(subpixel, Closed())
      ensures Closed() == ClipAll(CloseContour(PenState()).edges, clipper.Mode())
    {
    }

    /** What is drawn is the lines. */
    lemma DrawnIs()
      requires Valid()
      ensures outline.drawn == CellsOf(outline.lines) && outline.Bounds() == FrameOf(outline.lines) && IsGamma(gamma)
    {
    }

    /** A picture one column wide, on the plain arm. */
    ghost predicate OneColumn()
      reads outline
    {
      !subpixel && outline.minX == outline.maxX
    }

    /** It is one pixel wide, a cover a pixel. */
    lemma OneColumnPixels()
      ensures OneColumn() <==> Stride() == 1 && Pixel(outline.minX) == Pixel(outline.maxX)
      ensures IsStride(Stride()) && Stride() == StrideOf(subpixel)
    {
    }

    /** A path on its own on a new rasteriser. */
    lemma PathRenders(clip: Clip, path: seq<Vertex>)
      requires IsClip(clip) && clipper.Mode() == clip && PenState() == Walk(START, path)
      requires Renders(subpixel, PathLines(clip, path))
      ensures Renderable() && Closed() == PathLines(clip, path)
    {
      hide Walk, ClipAll, CloseContour, Renders;
    }

    lemma FrameRoom()
      requires FrameFits(subpixel, outline.Bounds()) && outline.minX <= outline.maxX
      ensures Room(Stride(), Pixel(outline.minX), Pixel(outline.maxX) + 1) && Pixel(outline.minX) <= Pixel(outline.maxX)
    {
    }

    lemma FitsOrder(ops: seq<Op>)
      requires Fits(ops)
      ensures Ordered(Stride(), ops, Pixel(outline.minX), Pixel(outline.maxX) + 1) && (!subpixel ==> Visible(ops))
    {
    }

    /** Emitting a swept row. */
    lemma EmitRow(packed: bool, rows: seq<EmittedRow>, from: int, y: int, row: EmittedRow, ops: seq<Op>)
      requires Emitted(packed, rows, from) && outline.minY <= from <= y && row.y == y && SoundRow(Stride(), row)
      requires Exact(subpixel, gamma, outline.cells, y, ops) && Silent(from, y)
      requires forall x :: Decode(Stride(), row.covers, row.spans, x) == OpsAt(Stride(), ops, x)
      requires Reaches(packed, Stride(), row.spans, ops)
      ensures Emitted(packed, rows + [row], y + 1)
    {
      hide ShownUpTo, Exact, Reaches, OpsAt, Decode, SoundRow;
      ShowRow(subpixel, gamma, outline.cells, packed, rows, outline.minY, from, y, row, ops);
    }

    /** Once all rows are swept. */
    lemma EmitRest(packed: bool, rows: seq<EmittedRow>, from: int)
      requires Emitted(packed, rows, from) && outline.minY <= from <= outline.maxY + 1 && Silent(from, outline.maxY + 1)
      requires forall c <- outline.cells :: outline.minY <= c.y < outline.maxY + 1
      ensures ShowsPicture(subpixel, gamma, outline.cells, packed, rows)
      ensures RowsAscend(Stride(), rows, outline.minY, outline.maxY + 1)
    {
      hide ShownUpTo, Exact, ShowsPicture;
      ShowRest(subpixel, gamma, outline.cells, packed, rows, outline.minY, from, outline.maxY + 1);
      ShownAscends(subpixel, gamma, outline.cells, packed, rows, outline.minY, outline.maxY + 1);
      ShownEverywhere(subpixel, gamma, outline.cells, packed, rows, outline.minY, outline.maxY + 1);
    }

    /** Nothing is emitted yet. */
    lemma EmitNone(packed: bool)
      requires IsGamma(gamma)
      ensures Emitted(packed, [], outline.minY)
    {
      hide ShownUpTo;
      ShowNone(subpixel, gamma, outline.cells, packed, outline.minY);
    }

    /** Emitted rows ascend. */
    lemma EmittedAscends(packed: bool, rows: seq<EmittedRow>, hi: int)
      requires Emitted(packed, rows, hi) && hi <= outline.maxY + 1
      ensures RowsAscend(Stride(), rows, outline.minY, outline.maxY + 1)
    {
      hide SoundRow, ShowsPixel;
    }

    /** With no cell stored there is nothing to show. */
    lemma NothingShown(packed: bool)
      requires IsGamma(gamma) && outline.cells == []
      ensures RowsAscend(Stride(), [], outline.minY, outline.maxY + 1)
      ensures ShowsPicture(subpixel, gamma, outline.cells, packed, [])
    {
      hide ShowsPixel, Exact;
      forall y, x ensures ShowsPixel(subpixel, gamma, outline.cells, packed, [], y, x) {
        EmptyRow(subpixel, gamma, outline.cells, y);
        SilentShown(subpixel, gamma, outline.cells, packed, [], 0, 0, y, x);
      }
    }

    /** Feeds each swept row to the container and emits what it then holds. */
    method EmitPacked(sl: PackedScanline) returns (rows: seq<EmittedRow>)
      requires Swept() && scanY == outline.minY <= outline.maxY + 1
      requires sl.Valid() && sl.stride == Stride() && sl.lo == Pixel(outline.minX) && sl.hi == Pixel(outline.maxX) + 1
      requires forall c <- outline.cells :: outline.minY <= c.y < outline.maxY + 1
      modifies `scanY, sl
      ensures ShowsPicture(subpixel, gamma, outline.cells, true, rows)
      ensures RowsAscend(Stride(), rows, outline.minY, outline.maxY + 1)
    {
      hide *;
      SweptFacts();
      rows := [];
      EmitNone(true);
      ghost var from := scanY;
      var more, ops := SweepScanline();
      SilentIs(from, if more then scanY - 1 else scanY);
      while more
        invariant Swept() && sl.Valid()
        invariant sl.stride == Stride() && sl.lo == Pixel(outline.minX) && sl.hi == Pixel(outline.maxX) + 1
        invariant outline.minY <= from && if more then from < scanY <= outline.maxY + 1 else scanY == outline.maxY + 1 >= from
        invariant Emitted(true, rows, from)
        invariant more ==> Fits(ops) && Exact(subpixel, gamma, outline.cells, scanY - 1, ops)
        invariant Silent(from, if more then scanY - 1 else scanY)
        decreases outline.maxY + 1 - scanY, more
      {
        FitsOrder(ops);
        sl.Feed(ops);
        var row := EmittedRow(scanY - 1, sl.spans[1..sl.cur + 1], sl.covers);
        PackedRow(sl, row);
        EmitRow(true, rows, from, scanY - 1, row, ops);
        rows := rows + [row];
        from := scanY;
        more, ops := SweepScanline();
        SilentIs(from, if more then scanY - 1 else scanY);
      }
      EmitRest(true, rows, from);
    }

    lemma SilentIs(from: int, to: int)
      requires forall y :: from <= y < to ==> Exact(subpixel, gamma, outline.cells, y, [])
      ensures Silent(from, to)
    {
    }

    /** Every row of sorted cells through a new packed container. */
    method PackRows() returns (rows: seq<EmittedRow>)
      requires Swept() && FrameFits(subpixel, outline.Bounds()) && outline.minX <= outline.maxX
      requires scanY == outline.minY <= outline.maxY
      requires forall c <- outline.cells :: outline.minY <= c.y < outline.maxY + 1
      modifies `scanY
      ensures RowsAscend(Stride(), rows, outline.minY, outline.maxY + 1)
      ensures ShowsPicture(subpixel, gamma, outline.cells, true, rows)
    {
      hide *;
      OneColumnPixels();
      FrameRoom();
      var sl := new PackedScanline(Stride());
      sl.Reset(Pixel(outline.minX), Pixel(outline.maxX));
      rows := EmitPacked(sl);
    }

    /** `render_packed`: every row, through the packed container. Each pixel is emitted
        with the covers of the clipped, closed lines' stored cells. */
    method RenderPacked() returns (rows: seq<EmittedRow>)
      requires Valid() && Renderable()
      modifies outline, clipper, `status, `edges, `loose, `scanY
      ensures Valid() && PenState() == CloseContour(old(PenState())) && clipper.Mode() == old(clipper.Mode())
      ensures outline.lines == old(Closed()) && outline.Bounds() == FrameOf(outline.lines)
      ensures IsGamma(gamma) && RowsAscend(Stride(), rows, outline.minY, outline.maxY + 1)
      ensures ShowsPicture(subpixel, gamma, StoredCells(outline.lines), true, rows)
    {
      hide *;
      RendersClosed();
      var any := RewindScanlines();
      DrawnIs();
      if any {
        SweepReady();
        rows := PackRows();
      } else {
        rows := [];
        NothingShown(true);
      }
    }

    /** Feeds each swept row to the container and emits what it then holds, until
        an operation finds no place in the cover buffer. */
    method EmitUnpacked(sl: UnpackedScanline) returns (sound: bool, rows: seq<EmittedRow>)
      requires Swept() && scanY == outline.minY <= outline.maxY + 1
      requires sl.stride == Stride() && sl.minX == Pixel(outline.minX) && sl.hi == Pixel(outline.maxX) + 1
      requires sl.Valid() || (OneColumn() && sl.covers == [])
      requires forall c <- outline.cells :: outline.minY <= c.y < outline.maxY + 1
      modifies `scanY, sl
      ensures sound <==> old(sl.Valid()) || Silent(outline.minY, outline.maxY + 1)
      ensures RowsAscend(Stride(), rows, outline.minY, outline.maxY + 1)
      ensures sound ==> ShowsPicture(subpixel, gamma, outline.cells, false, rows)
      ensures forall row <- rows :: OwnCovers(row)
    {
      hide *;
      SweptFacts();
      rows := [];
      EmitNone(false);
      ghost var from, valid := scanY, sl.Valid();
      var more, ops := SweepScanline();
      SilentIs(from, if more then scanY - 1 else scanY);
      while more
        invariant Swept() && sl.stride == Stride() && sl.minX == Pixel(outline.minX) && sl.hi == Pixel(outline.maxX) + 1
        invariant if valid then sl.Valid() else !sl.Valid() && OneColumn() && sl.covers == [] && from == outline.minY && rows == []
        invariant outline.minY <= from && if more then from < scanY <= outline.maxY + 1 else scanY == outline.maxY + 1 >= from
        invariant Emitted(false, rows, from) && forall row <- rows :: OwnCovers(row)
        invariant more ==> ops != [] && Fits(ops) && Exact(subpixel, gamma, outline.cells, scanY - 1, ops)
        invariant Silent(from, if more then scanY - 1 else scanY)
        decreases outline.maxY + 1 - scanY, more
      {
        FitsOrder(ops);
        OneColumnPixels();
        sl.HoldsIff(ops);
        if !sl.Holds(ops) {
          EmittedAscends(false, rows, from);
          NotSilent(ops, scanY - 1);
          return false, rows;
        }
        sl.Feed(ops);
        var row := EmittedRow(scanY - 1, sl.spans[1..sl.cur + 1], sl.covers);
        UnpackedRow(sl, row);
        EmitRow(false, rows, from, scanY - 1, row, ops);
        rows := rows + [row];
        from := scanY;
        more, ops := SweepScanline();
        SilentIs(from, if more then scanY - 1 else scanY);
      }
      EmitRest(false, rows, from);
      return true, rows;
    }

    /** A row with operations shows something. */
    lemma NotSilent(ops: seq<Op>, y: int)
      requires IsGamma(gamma) && OneColumn() && ops != [] && Fits(ops) && Exact(subpixel, gamma, outline.cells, y, ops)
      requires outline.minY <= y <= outline.maxY
      ensures !Silent(outline.minY, outline.maxY + 1)
    {
      hide PlainAt, Exact, Ordered, Blank, Visible;
      SilentIsBlank(gamma, outline.cells, y, ops, outline.minX, outline.maxX + 1);
      NoOps(gamma, outline.cells, y);
    }

    /** Of a picture one column wide, the rows are swept without operations exactly
        when none shows anything. */
    lemma SilentIff()
      requires IsGamma(gamma) && OneColumn() && outline.Bounds() == FrameOf(outline.lines)
      requires outline.cells == StoredCells(outline.lines)
      requires forall c <- outline.cells :: outline.minY <= c.y < outline.maxY + 1
      ensures Silent(outline.minY, outline.maxY + 1) <==> !Overruns(subpixel, gamma, outline.lines)
    {
      hide PlainAt, Exact, Blank, FrameOf, StoredCells;
      forall y ensures Exact(false, gamma, outline.cells, y, []) <==> Blank(gamma, outline.cells, y) {
        NoOps(gamma, outline.cells, y);
      }
      forall y | !(outline.minY <= y < outline.maxY + 1) ensures Exact(false, gamma, outline.cells, y, []) {
        EmptyRow(false, gamma, outline.cells, y);
      }
    }

    /** Every row of sorted cells through a new unpacked container. */
    method UnpackRows() returns (sound: bool, rows: seq<EmittedRow>)
      requires Swept() && FrameFits(subpixel, outline.Bounds()) && outline.minX <= outline.maxX
      requires scanY == outline.minY <= outline.maxY && outline.cells == StoredCells(outline.lines)
      requires forall c <- outline.cells :: outline.minY <= c.y < outline.maxY + 1
      modifies `scanY
      ensures IsGamma(gamma) && (sound <==> !Overruns(subpixel, gamma, outline.lines))
      ensures RowsAscend(Stride(), rows, outline.minY, outline.maxY + 1)
      ensures (sound ==> ShowsPicture(subpixel, gamma, outline.cells, false, rows)) && forall row <- rows :: OwnCovers(row)
    {
      hide *;
      SweptFacts();
      DrawnIs();
      OneColumnPixels();
      FrameRoom();
      var sl := new UnpackedScanline(Stride());
      sl.Reset(Pixel(outline.minX), Pixel(outline.maxX));
      sound, rows := EmitUnpacked(sl);
      ManyColumns();
      if OneColumn() {
        SilentIff();
      }
    }

    lemma ManyColumns()
      requires IsGamma(gamma) && outline.Bounds() == FrameOf(outline.lines)
      ensures !OneColumn() ==> !Overruns(subpixel, gamma, outline.lines)
      ensures StoredCells(outline.lines) == [] ==> !Overruns(subpixel, gamma, outline.lines)
    {
      hide FrameOf, StoredCells;
    }

    /** `render_unpacked`: the same pixels through the unpacked container. A new
        container of single covers has no place for a picture one column wide
        (UnpackedScanline.Reset); sound says that every operation fed to it had its
        place, which fails exactly when such a picture has a row with something to
        show. */
    method RenderUnpacked() returns (sound: bool, rows: seq<EmittedRow>)
      requires Valid() && Renderable()
      modifies outline, clipper, `status, `edges, `loose, `scanY
      ensures Valid() && PenState() == CloseContour(old(PenState())) && clipper.Mode() == old(clipper.Mode())
      ensures outline.lines == old(Closed()) && outline.Bounds() == FrameOf(outline.lines)
      ensures IsGamma(gamma) && (sound <==> !Overruns(subpixel, gamma, outline.lines))
      ensures RowsAscend(Stride(), rows, outline.minY, outline.maxY + 1)
      ensures sound ==> ShowsPicture(subpixel, gamma, StoredCells(outline.lines), false, rows)
      ensures forall row <- rows :: OwnCovers(row)
    {
      hide *;
      RendersClosed();
      var any := RewindScanlines();
      DrawnIs();
      if any {
        SweepReady();
        sound, rows := UnpackRows();
      } else {
        sound, rows := true, [];
        NothingShown(false);
        ManyColumns();
      }
    }
  }

  // ----- a picture one column wide

  /** A triangle inside cell (0, 0), closed by the rasteriser. */
  const TRIANGLE := [Vertex(0, 0, CMD_MOVE_TO), Vertex(0, 128, CMD_LINE_TO), Vertex(128, 128, CMD_LINE_TO)]

  lemma OneCellLine(a: Point, b: Point)
    requires 0 <= a.x < 256 && 0 <= b.x < 256 && 0 <= a.y < 256 && 0 <= b.y < 256
    ensures LineOf(Segment(a, b)) == if a.y == b.y then [] else [Cell(0, 0, b.y - a.y, (a.x + b.x) * (b.y - a.y))]
  {
    hide LineOf, Run;
    if a.y == b.y {
      LevelOf(Segment(a, b));
    } else {
      OneRowLine(Segment(a, b));
      RunSingle(0, a.x, a.y, b.x, b.y);
    }
  }

  lemma LevelOf(s: Segment)
    requires s.a.y == s.b.y
    ensures LineOf(s) == []
  {
    LevelLine(s.a.x, s.a.y, s.b.x);
  }

  /** A line inside row 0 is one run. */
  lemma OneRowLine(s: Segment)
    requires 0 <= s.a.y < 256 && 0 <= s.b.y < 256 && !Wide(s.a.x, s.b.x)
    ensures LineOf(s) == Run(0, s.a.x, s.a.y, s.b.x, s.b.y)
  {
    hide Run, RowRun;
    RowsStart(s.a.x, s.a.y, s.b.x, s.b.y);
    OneRowRun(s.a.x, s.a.y, s.b.x, s.b.y);
  }

  lemma OneRowRun(x1: int, y1: int, x2: int, y2: int)
    requires CellOf(y1) == CellOf(y2)
    ensures RowRun(x1, y1, x2, y2, 0) == Run(CellOf(y1), x1, Frac(y1), x2, Frac(y2))
  {
    hide Run;
  }

  const TRIANGLE_SIDES := [Segment(Point(0, 0), Point(0, 128)), Segment(Point(0, 128), Point(128, 128)),
                           Segment(Point(128, 128), Point(0, 0))]

  lemma ThreeLines(a: Segment, b: Segment, c: Segment)
    ensures CellsOf([a, b, c]) == LineOf(a) + LineOf(b) + LineOf(c)
  {
    hide *;
    OneLine(a);
    assert [a] + [b] == [a, b] && [a, b] + [c] == [a, b, c];
    CellsOfPush([a], b);
    CellsOfPush([a, b], c);
  }

  /** Its sides go down and up again in one cell, leaving area but no cover. */
  lemma TriangleCells()
    ensures CellsOf(TRIANGLE_SIDES) == [Cell(0, 0, 128, 0), Cell(0, 0, -128, -16384)]
  {
    hide CellsOf, LineOf;
    var a, b, c := Point(0, 0), Point(0, 128), Point(128, 128);
    ThreeLines(Segment(a, b), Segment(b, c), Segment(c, a));
    OneCellLine(a, b);
    OneCellLine(b, c);
    OneCellLine(c, a);
  }

  lemma TriangleSums()
    ensures Left(CellsOf(TRIANGLE_SIDES), 0, 0) == 0 && AreaAt(CellsOf(TRIANGLE_SIDES), 0, 0) == -16384
    ensures RowCover(CellsOf(TRIANGLE_SIDES), 0) == 0 && LostCells(TRIANGLE_SIDES) == []
  {
    hide CellsOf, FinishedCells, Left, AreaAt, RowCover, LostCells;
    TriangleCells();
    TwoCellSums(Cell(0, 0, 128, 0), Cell(0, 0, -128, -16384));
    FewLost(TRIANGLE_SIDES);
  }

  /** Two cells at the origin. */
  lemma TwoCellSums(a: Cell, b: Cell)
    requires a.x == a.y == b.x == b.y == 0
    ensures Left([a, b], 0, 0) == RowCover([a, b], 0) == a.cover + b.cover && AreaAt([a, b], 0, 0) == a.area + b.area
  {
    SumsPush([], a, 0, 0);
    SumsPush([a], b, 0, 0);
    assert [] + [a] == [a] && [a] + [b] == [a, b];
  }

  /** Few contributions lose no cell. */
  lemma FewLost(lines: seq<Segment>)
    requires |CellsOf(lines)| <= CELL_LIMIT
    ensures LostCells(lines) == []
  {
    hide CellsOf, FinishedCells;
    FewFinished(lines);
  }

  lemma TriangleFrame()
    ensures AllTame(TRIANGLE_SIDES) && FrameOf(TRIANGLE_SIDES) == Frame(0, 0, 0, 0)
  {
    var a, b, c := TRIANGLE_SIDES[0], TRIANGLE_SIDES[1], TRIANGLE_SIDES[2];
    FramePush([], a);
    FramePush([a], b);
    FramePush([a, b], c);
    assert [] + [a] == [a] && [a] + [b] == [a, b] && [a, b] + [c] == TRIANGLE_SIDES;
  }

  /** Its path leaves the pen on the last corner, with two sides drawn. */
  lemma TriangleWalk()
    ensures CloseContour(Walk(START, TRIANGLE)).edges == TRIANGLE_SIDES
  {
    var ps := [Point(0, 0), Point(0, 128), Point(128, 128)];
    assert ps[..2][..1] == ps[..1];
    assert PolygonPath(ps[..1]) == TRIANGLE[..1] && PolygonPath(ps[..2]) == TRIANGLE[..2];
    assert TRIANGLE == TRIANGLE[..2] + [TRIANGLE[2]];
    assert Sides(ps[..1]) == [] && Sides(ps[..2]) == TRIANGLE_SIDES[..1];
    PolygonWalk(START, ps);
  }

  /** The triangle's one cell has alpha 32. */
  lemma TriangleShows()
    ensures Overruns(false, LinearGamma(), TRIANGLE_SIDES)
  {
    hide CellsOf, FrameOf, PlainAt, PixelAlpha, StoredCells, LostCells, LinearGamma, AreaAt, Left, RowCover;
    TriangleFrame();
    TriangleSums();
    PlainPicture(LinearGamma(), TRIANGLE_SIDES, 0, 0);
    TriangleAlpha();
    assert PlainAt(LinearGamma(), StoredCells(TRIANGLE_SIDES), 0, 0) == 32;
    assert !Blank(LinearGamma(), StoredCells(TRIANGLE_SIDES), 0);
  }

  lemma TriangleAlpha()
    ensures PixelAlpha(LinearGamma(), CellsOf(TRIANGLE_SIDES), 0, 0) == 32
  {
    hide CellsOf, LinearGamma, AreaAt, Left, RowCover, Shifted, LostCells;
    TriangleSums();
    SilentShift();
  }

  lemma SilentShift()
    ensures Shifted(0) == 0
  {
    ShiftedExact(0);
  }

  /** Rendering the triangle unpacked: its cover has no place in the buffer. */
  method OneColumnOverrun() returns (sound: bool)
    ensures !sound
  {
    hide *;
    var raster := new Rasterizer(false);
    raster.AddPath(TRIANGLE);
    TriangleRenders();
    raster.PathRenders(Open, TRIANGLE);
    var rows;
    sound, rows := raster.RenderUnpacked();
    TriangleShows();
  }

  lemma TriangleRenders()
    ensures PathLines(Open, TRIANGLE) == TRIANGLE_SIDES && Renders(false, TRIANGLE_SIDES)
  {
    hide FrameOf, ClipAll, Walk, CloseContour, AllTame;
    TriangleWalk();
    TriangleFrame();
    ClipAllOpen(TRIANGLE_SIDES);
  }

  // ----- a third of a pixel that is lost

  /** A rectangle over the thirds in columns 2 and 3 of row 0, half a row high. */
  const STRIPE_CORNERS := [Point(512, 0), Point(1024, 0), Point(1024, 128), Point(512, 128)]

  const STRIPE_SIDES := [Segment(Point(512, 0), Point(1024, 0)), Segment(Point(1024, 0), Point(1024, 128)),
                         Segment(Point(1024, 128), Point(512, 128)), Segment(Point(512, 128), Point(512, 0))]

  lemma StripeWalk()
    ensures CloseContour(Walk(START, PolygonPath(STRIPE_CORNERS))).edges == STRIPE_SIDES
  {
    var ps := STRIPE_CORNERS;
    assert ps[..3][..2] == ps[..2] && ps[..2][..1] == ps[..1];
    assert Sides(ps[..1]) == [] && Sides(ps[..2]) == STRIPE_SIDES[..1] && Sides(ps[..3]) == STRIPE_SIDES[..2];
    PolygonWalk(START, ps);
  }

  /** A line inside row 0. */
  lemma OneRowTrace(s: Segment)
    requires 0 <= s.a.y < 256 && 0 <= s.b.y < 256 && !Wide(s.a.x, s.b.x)
    ensures LineTrace(s.a.x, s.a.y, s.b.x, s.b.y) == [Mark(CellOf(s.a.x), 0)] + RunTrace(0, s.a.x, s.a.y, s.b.x, s.b.y)
  {
    hide RunTrace, RowTrace;
    OneRow(s.a.x, s.a.y, s.b.x, s.b.y);
    OneRowPass(s.a.x, s.a.y, s.b.x, s.b.y);
  }

  lemma OneRow(x1: int, y1: int, x2: int, y2: int)
    requires CellOf(y1) == CellOf(y2)
    ensures RowTrace(x1, y1, x2, y2, 0) == [Mark(CellOf(x1), CellOf(y1))] + RunTrace(CellOf(y1), x1, Frac(y1), x2, Frac(y2))
  {
    hide RunTrace;
  }

  lemma OneRowPass(x1: int, y1: int, x2: int, y2: int)
    requires CellOf(y1) == CellOf(y2)
    ensures PassTrace(x1, y1, x2, y2) == RowTrace(x1, y1, x2, y2, 0)
  {
    hide RowTrace;
    assert RowsTrace(x1, y1, x2, y2, 0) == [];
  }

  /** Drawing a line that visits two cells, or one. */
  lemma GatherLine(lines: seq<Segment>, s: Segment, d: Cell)
    requires 0 <= s.a.y < 256 && 0 <= s.b.y < 256 && !Wide(s.a.x, s.b.x)
    requires RunTrace(0, s.a.x, s.a.y, s.b.x, s.b.y) == [d]
    ensures Gathered(lines + [s]) == Gather(Gather(Gathered(lines), Mark(CellOf(s.a.x), 0)), d)
  {
    hide *;
    var m := Mark(CellOf(s.a.x), 0);
    OneRowTrace(s);
    GatheredLine(lines, s);
    GatherAppend(Gathered(lines), [m], [d]);
    GatherOne(Gathered(lines), m);
    GatherOne(Gather(Gathered(lines), m), d);
  }

  lemma GatheredLine(lines: seq<Segment>, s: Segment)
    ensures Gathered(lines + [s]) == GatherAll(Gathered(lines), LineTrace(s.a.x, s.a.y, s.b.x, s.b.y))
  {
    hide GatherAll, LineTrace, TraceOf;
    TraceOfPush(lines, s);
    GatherAppend(Gathering([], INITIAL_CELL), TraceOf(lines), LineTrace(s.a.x, s.a.y, s.b.x, s.b.y));
  }

  /** Its two upright sides leave a cell each, without area. */
  lemma StripeCells()
    ensures FinishedCells(STRIPE_SIDES) == [Cell(4, 0, 128, 0), Cell(2, 0, -128, 0)]
  {
    hide GatherAll, TraceOf, Run, Gathered;
    var a, b, c, d := STRIPE_SIDES[0], STRIPE_SIDES[1], STRIPE_SIDES[2], STRIPE_SIDES[3];
    NothingGathered();
    assert [] + [a] == [a] && [a] + [b] == [a, b] && [a, b] + [c] == [a, b, c] && [a, b, c] + [d] == STRIPE_SIDES;
    GatherLine([], a, Mark(4, 0));
    RunSingle(0, 1024, 0, 1024, 128);
    GatherLine([a], b, Cell(4, 0, 128, 0));
    GatherLine([a, b], c, Mark(2, 0));
    RunSingle(0, 512, 128, 512, 0);
    GatherLine([a, b, c], d, Cell(2, 0, -128, 0));
  }

  lemma StripeFrame()
    ensures FrameOf(STRIPE_SIDES) == Frame(2, 0, 4, 0)
  {
    hide FrameOf;
    NoFrame();
    var a, b, c, d := STRIPE_SIDES[0], STRIPE_SIDES[1], STRIPE_SIDES[2], STRIPE_SIDES[3];
    FramePush([], a);
    FramePush([a], b);
    FramePush([a, b], c);
    FramePush([a, b, c], d);
    assert [] + [a] == [a] && [a] + [b] == [a, b] && [a, b] + [c] == [a, b, c] && [a, b, c] + [d] == STRIPE_SIDES;
  }

  lemma NoFrame()
    ensures FrameOf([]) == Frame(INT_MAX, INT_MAX, -INT_MAX, -INT_MAX)
  {
  }

  lemma StripeRenders()
    ensures Renders(true, STRIPE_SIDES)
  {
    hide FrameOf;
    StripeFrame();
  }

  lemma StripeSums(x: int)
    ensures var s := [Cell(4, 0, 128, 0), Cell(2, 0, -128, 0)];
            AreaAt(s, x, 0) == 0 && Left(s, x, 0) == (if 4 <= x then 128 else 0) - (if 2 <= x then 128 else 0)
  {
    var a, b := Cell(4, 0, 128, 0), Cell(2, 0, -128, 0);
    SumsPush([], a, x, 0);
    SumsPush([a], b, x, 0);
    assert [] + [a] == [a] && [a] + [b] == [a, b];
  }

  /** The subpixel sweep shows nothing of the stripe in pixel 0, though it covers half
      of that pixel's last third: no edge shows there, and the next cell is too near. */
  lemma LostThird()
    ensures PathLines(Open, PolygonPath(STRIPE_CORNERS)) == STRIPE_SIDES && Renders(true, STRIPE_SIDES)
    ensures PictureAt(true, LinearGamma(), StoredCells(STRIPE_SIDES), 0, 0) == [0, 0, 0]
    ensures SubpixTouch(LinearGamma(), StoredCells(STRIPE_SIDES), 0, 0) == Skipped
    ensures ThreeAlphas(LinearGamma(), CellsOf(STRIPE_SIDES), 0, 0) == [0, 0, 128]
  {
    hide *;
    StripePath();
    StripeRenders();
    StripeStored();
    StripePixel(StoredCells(STRIPE_SIDES));
    SameThree(LinearGamma(), StoredCells(STRIPE_SIDES), CellsOf(STRIPE_SIDES), 0, 0);
    PictureIs(LinearGamma(), StoredCells(STRIPE_SIDES), 0, 0);
  }

  lemma PictureIs(g: seq<nat>, cells: seq<Cell>, y: int, x: int)
    requires IsGamma(g)
    ensures PictureAt(true, g, cells, y, x) == SubpixAt(g, cells, y, x)
  {
  }

  lemma StripePath()
    ensures PathLines(Open, PolygonPath(STRIPE_CORNERS)) == STRIPE_SIDES
  {
    hide Walk, CloseContour, ClipAll;
    StripeWalk();
    ClipAllOpen(STRIPE_SIDES);
  }

  lemma StripeStored()
    ensures StoredCells(STRIPE_SIDES) == [Cell(4, 0, 128, 0), Cell(2, 0, -128, 0)]
    ensures SamePicture(StoredCells(STRIPE_SIDES), CellsOf(STRIPE_SIDES))
  {
    hide FinishedCells, CellsOf, Left, AreaAt;
    StripeCells();
    assert LostCells(STRIPE_SIDES) == [];
    WhatIsLost(STRIPE_SIDES);
  }

  lemma StripePixel(s: seq<Cell>)
    requires s == [Cell(4, 0, 128, 0), Cell(2, 0, -128, 0)]
    ensures SubpixTouch(LinearGamma(), s, 0, 0) == Skipped
    ensures SubpixAt(LinearGamma(), s, 0, 0) == [0, 0, 0] && ThreeAlphas(LinearGamma(), s, 0, 0) == [0, 0, 128]
  {
    hide Left, AreaAt;
    StripeSums(0);
    StripeSums(1);
    StripeSums(2);
    ShiftedExact(0);
    ShiftedExact(-128);
    assert s[0] in s && s[1] in s && Has(s, 0, 2) && Has(s, 0, 4) && !Has(s, 0, 0) && !Has(s, 0, 1);
    assert LinearGamma()[0] == 0 && LinearGamma()[128] == 128;
  }
}
