/** From emitted rows to the canvas: runs are cut against the boxes of the clipping
    region and blended. With disjoint boxes each pixel of the region is blended
    exactly once, with the covers the picture gives it. */
module Painters {
  import opened CArith
  import opened PixelFormats
  import opened Rasterizers
  import CellRasterizers
  import Cells
  import LineClippers
  import Lines
  import ScanlineOps
  import Scanlines
  import SubpixSweep
  import Sweep

  datatype IntBox = IntBox(left: int, top: int, right: int, bottom: int)

  predicate InBox(box: IntBox, x: int, y: int) {
    box.left <= x <= box.right && box.top <= y <= box.bottom
  }

  /** (x, y) is in one of the boxes. */
  predicate InRegion(rects: seq<IntBox>, x: int, y: int) {
    rects != [] && (InBox(rects[|rects| - 1], x, y) || InRegion(rects[..|rects| - 1], x, y))
  }

  /** No pixel is in two boxes. */
  ghost predicate Disjoint(rects: seq<IntBox>) {
    forall i, j, x, y :: 0 <= i < j < |rects| ==> !(InBox(rects[i], x, y) && InBox(rects[j], x, y))
  }

  /** Every box is non-empty and on a canvas of that size. */
  predicate OnCanvas(rects: seq<IntBox>, width: int, height: int) {
    forall i :: 0 <= i < |rects| ==> var b := rects[i]; 0 <= b.left <= b.right < width && 0 <= b.top <= b.bottom < height
  }

  lemma {:induction false} InRegionAt(rects: seq<IntBox>, x: int, y: int)
    ensures InRegion(rects, x, y) <==> exists i :: 0 <= i < |rects| && InBox(rects[i], x, y)
    decreases |rects|
  {
    if rects != [] {
      var front := rects[..|rects| - 1];
      InRegionAt(front, x, y);
      if i :| 0 <= i < |rects| && InBox(rects[i], x, y) {
        assert i < |front| ==> front[i] == rects[i];
      }
      if i :| 0 <= i < |front| && InBox(front[i], x, y) {
        assert rects[i] == front[i];
      }
    }
  }

  /** A pixel of the last box is in none of the others. */
  lemma LastBoxAlone(rects: seq<IntBox>, x: int, y: int)
    requires rects != [] && Disjoint(rects) && InBox(rects[|rects| - 1], x, y)
    ensures !InRegion(rects[..|rects| - 1], x, y)
  {
    var front := rects[..|rects| - 1];
    InRegionAt(front, x, y);
    forall i | 0 <= i < |front| ensures !InBox(front[i], x, y) {
      assert front[i] == rects[i];
    }
  }

  lemma DisjointFront(rects: seq<IntBox>)
    requires rects != [] && Disjoint(rects)
    ensures Disjoint(rects[..|rects| - 1])
  {
    var front := rects[..|rects| - 1];
    forall i, j, x, y | 0 <= i < j < |front| ensures !(InBox(front[i], x, y) && InBox(front[j], x, y)) {
      assert front[i] == rects[i] && front[j] == rects[j];
    }
  }

  // ----- runs

  /** What a renderer hands on: a line of one cover, a span of a cover a pixel, or a
      span of three covers a pixel. */
  datatype Run = Line(y: int, x1: int, x2: int, cover: int)
               | Span(y: int, x: int, covers: seq<int>)
               | Thirds(y: int, x: int, covers: seq<int>)

  predicate Covers(run: Run, x: int) {
    match run
    case Line(_, x1, x2, _) => x1 <= x <= x2
    case Span(_, x0, covers) => x0 <= x < x0 + |covers|
    case Thirds(_, x0, covers) => x0 <= x && 3 * (x - x0) + 3 <= |covers|
  }

  /** The covers of the k-th pixel of a span of three a pixel. */
  function Third(covers: seq<int>, k: int): seq<int>
    requires 0 <= k && 3 * k + 3 <= |covers|
  {
    covers[3 * k..3 * k + 3]
  }

  lemma ThirdDrop(covers: seq<int>, m: nat, k: nat)
    requires 3 * m + 3 * k + 3 <= |covers|
    ensures Third(covers[3 * m..], k) == Third(covers, m + k)
  {
  }

  /** What a pixel is blended by: nothing, a cover of its own, the cover of a line from one
      column to another, or a cover for each third. */
  datatype Shade = Bare | Flat(cover: int) | Level(cover: int, x1: int, x2: int) | Split(covers: seq<int>)

  /** What a run has for column x. */
  function ShadeAt(run: Run, x: int): Shade {
    if !Covers(run, x) then Bare
    else match run
         case Line(_, x1, x2, cover) => Level(cover, x1, x2)
         case Span(_, x0, covers) => Flat(covers[x - x0])
         case Thirds(_, x0, covers) => Split(Third(covers, x - x0))
  }

  predicate IsShade(shade: Shade) {
    && (shade.Flat? || shade.Level? ==> IsByte(shade.cover))
    && (shade.Split? ==> |shade.covers| == 3)
  }

  /** What blending a colour into the pixel at (x, y) by a shade makes of it; a line's part
      inside the pixel's box counts as a run of that length. */
  function Blend(f: Format, c: Color, box: IntBox, x: int, y: int, shade: Shade, p: Pixel): Pixel
    requires IsFormat(f) && IsShade(shade)
  {
    match shade
    case Bare => p
    case Flat(cover) => BlendPixel(f, c, x, y, cover, p)
    case Level(cover, x1, x2) => HlinePixel(f, c, x, y, cover, CArith.Min(x2, box.right) - CArith.Max(x1, box.left) + 1, p)
    case Split(covers) => ThirdsPixel(f, c, x, y, covers, p)
  }

  lemma BlendStaysOpaque(f: Format, c: Color, box: IntBox, x: int, y: int, shade: Shade, p: Pixel)
    requires IsFormat(f) && IsShade(shade) && Opaque(p)
    ensures Opaque(Blend(f, c, box, x, y, shade, p))
  {
    hide BlendPixel, HlinePixel, ThirdsPixel, Opaque;
    match shade
    case Bare =>
    case Flat(cover) => StaysOpaque(f, c, x, y, cover, p);
    case Level(cover, x1, x2) =>
      RunStaysOpaque(f, c, x, y, cover, CArith.Min(x2, box.right) - CArith.Max(x1, box.left) + 1, p);
    case Split(covers) => ThirdsStayOpaque(f, c, x, y, covers, p);
  }

  /** Where lines do what their pixels do, a line's cover is a pixel's own. */
  lemma LevelIsFlat(f: Format, c: Color, box: IntBox, x: int, y: int, cover: int, x1: int, x2: int, p: Pixel)
    requires IsFormat(f) && Uniform(f) && IsColor(c) && Opaque(p) && IsByte(cover)
    requires x1 <= x <= x2 && InBox(box, x, y)
    ensures IsShade(Level(cover, x1, x2)) && IsShade(Flat(cover))
    ensures Blend(f, c, box, x, y, Level(cover, x1, x2), p) == Blend(f, c, box, x, y, Flat(cover), p)
  {
    hide BlendPixel, HlinePixel, Opaque, Uniform;
    UniformAgrees(f, c, x, y, cover, CArith.Min(x2, box.right) - CArith.Max(x1, box.left) + 1, p);
  }

  /** What the part of a run inside one box does to the pixel at (x, y): a line cut
      to the box blends as a run of the cut's length, a span pixel by pixel, skipping
      what is not covered. */
  function RunEffect(f: Format, c: Color, run: Run, box: IntBox, x: int, y: int, p: Pixel): Pixel
    requires IsFormat(f)
  {
    if run.y != y || !InBox(box, x, y) || !Covers(run, x) then p
    else match run
         case Line(_, x1, x2, cover) =>
           HlinePixel(f, c, x, y, cover, CArith.Min(x2, box.right) - CArith.Max(x1, box.left) + 1, p)
         case Span(_, x0, covers) =>
           if covers[x - x0] == 0 then p else BlendPixel(f, c, x, y, covers[x - x0], p)
         case Thirds(_, x0, covers) =>
           ThirdsPixel(f, c, x, y, Third(covers, x - x0), p)
  }

  /** The effect of a run cut against each box in turn. */
  function Effects(f: Format, c: Color, run: Run, rects: seq<IntBox>, x: int, y: int, p: Pixel): Pixel
    requires IsFormat(f)
  {
    if rects == [] then p
    else RunEffect(f, c, run, rects[|rects| - 1], x, y, Effects(f, c, run, rects[..|rects| - 1], x, y, p))
  }

  /** The last of the boxes the pixel lies in, which is the only one if no two meet. */
  function BoxAt(rects: seq<IntBox>, x: int, y: int): IntBox
    requires InRegion(rects, x, y)
  {
    if InBox(rects[|rects| - 1], x, y) then rects[|rects| - 1] else BoxAt(rects[..|rects| - 1], x, y)
  }

  /** The pixel blended once if it is in the region, and left as it was if not. */
  function Once(f: Format, c: Color, rects: seq<IntBox>, x: int, y: int, shade: Shade, p: Pixel): Pixel
    requires IsFormat(f) && IsShade(shade)
  {
    if InRegion(rects, x, y) then Blend(f, c, BoxAt(rects, x, y), x, y, shade, p) else p
  }

  /** One box's cut of a run, where it reaches or not, blends the pixel once. */
  lemma BoxOnce(f: Format, c: Color, run: Run, box: IntBox, x: int, y: int, p: Pixel)
    requires IsFormat(f) && Opaque(p) && IsShade(ShadeAt(run, x)) && run.y == y && InBox(box, x, y)
    ensures RunEffect(f, c, run, box, x, y, p) == Blend(f, c, box, x, y, ShadeAt(run, x), p)
  {
    hide HlinePixel, BlendPixel, ThirdsPixel, Opaque;
    CoverZero(f, c, x, y, p);
  }

  /** However the region is cut into boxes, a run blends each of its pixels once,
      and those it does not reach not at all. */
  lemma {:induction false} EffectsOnce(f: Format, c: Color, run: Run, rects: seq<IntBox>, x: int, y: int, p: Pixel)
    requires IsFormat(f) && Opaque(p) && IsShade(ShadeAt(run, x)) && Disjoint(rects)
    ensures Effects(f, c, run, rects, x, y, p) == if run.y == y then Once(f, c, rects, x, y, ShadeAt(run, x), p) else p
    decreases |rects|
  {
    if rects != [] {
      hide Blend, RunEffect, ShadeAt, IsShade, Disjoint, InBox, IsFormat, Opaque;
      var front, box := rects[..|rects| - 1], rects[|rects| - 1];
      DisjointFront(rects);
      EffectsOnce(f, c, run, front, x, y, p);
      if run.y == y && InBox(box, x, y) {
        LastBoxAlone(rects, x, y);
        BoxOnce(f, c, run, box, x, y, p);
      } else {
        NoEffect(f, c, run, box, x, y, Effects(f, c, run, front, x, y, p));
      }
    }
  }

  /** A span of three covers a pixel, inside a box. */
  lemma ThirdsEffect(f: Format, c: Color, box: IntBox, x: int, y: int, covers: seq<int>, i: int, j: int, p: Pixel)
    requires IsFormat(f) && |covers| % 3 == 0
    ensures RunEffect(f, c, Thirds(y, x, covers), box, i, j, p) ==
            if j == y && box.top <= y <= box.bottom && CArith.Max(x, box.left) <= i <= CArith.Min(x + |covers| / 3 - 1, box.right)
            then ThirdsPixel(f, c, i, j, Third(covers, i - x), p) else p
  {
    hide ThirdsPixel, Third;
  }

  lemma NoEffect(f: Format, c: Color, run: Run, box: IntBox, x: int, y: int, p: Pixel)
    requires IsFormat(f) && (run.y != y || !InBox(box, x, y))
    ensures RunEffect(f, c, run, box, x, y, p) == p
  {
  }

  // ----- rows of spans

  /** The run a span of an emitted row is rendered as. */
  function RunOf(stride: nat, row: EmittedRow, st: Scanlines.Stored): Run
    requires ScanlineOps.IsStride(stride) && Scanlines.PlacedSpan(stride, st, |row.covers|)
  {
    if st.len < 0 then Line(row.y, st.x, st.x - TruncDiv(st.len, stride) - 1, row.covers[st.cover])
    else if stride == 1 then Span(row.y, st.x, row.covers[st.cover..st.cover + st.len])
    else Thirds(row.y, st.x, row.covers[st.cover..st.cover + st.len])
  }

  /** The shade of a pixel that is reached in a given way, with given covers, in a run from
      one column to another if in one. */
  function ShadeFor(stride: nat, covers: seq<nat>, t: ScanlineOps.Touch, x1: int, x2: int): (shade: Shade)
    requires ScanlineOps.IsStride(stride) && |covers| == stride
  {
    if t == ScanlineOps.Skipped then Bare
    else if t == ScanlineOps.Shared then Level(covers[0], x1, x2)
    else if stride == 1 then Flat(covers[0])
    else Split(covers)
  }

  lemma RunOfReads(stride: nat, row: EmittedRow, st: Scanlines.Stored, x: int)
    requires ScanlineOps.IsStride(stride) && Scanlines.PlacedSpan(stride, st, |row.covers|)
    ensures Covers(RunOf(stride, row, st), x) == Scanlines.SpanTouches(stride, st, x)
    ensures var v := Scanlines.SpanValue(stride, row.covers, st, x);
            |v| == stride
            && (Scanlines.SpanTouches(stride, st, x) ==>
                  ShadeAt(RunOf(stride, row, st), x)
                  == ShadeFor(stride, v, if st.len > 0 then ScanlineOps.Own else ScanlineOps.Shared,
                              st.x, Scanlines.After(stride, st) - 1))
  {
    RunOfCovers(stride, row, st, x);
    if Scanlines.SpanTouches(stride, st, x) && stride == 3 && st.len > 0 {
      hide Covers;
      var k := st.cover + 3 * (x - st.x);
      assert Third(row.covers[st.cover..st.cover + st.len], x - st.x) == row.covers[k..k + 3];
    }
  }

  lemma RunOfCovers(stride: nat, row: EmittedRow, st: Scanlines.Stored, x: int)
    requires ScanlineOps.IsStride(stride) && Scanlines.PlacedSpan(stride, st, |row.covers|)
    ensures Covers(RunOf(stride, row, st), x) == Scanlines.SpanTouches(stride, st, x)
  {
  }

  /** The effect of a row's first n spans, each cut against every box. */
  function RowEffects(f: Format, c: Color, stride: nat, row: EmittedRow, n: nat, rects: seq<IntBox>,
                      x: int, y: int, p: Pixel): Pixel
    requires IsFormat(f) && ScanlineOps.IsStride(stride) && n <= |row.spans|
    requires Scanlines.Placed(stride, row.spans, |row.covers|)
  {
    if n == 0 then p
    else Effects(f, c, RunOf(stride, row, row.spans[n - 1]), rects, x, y,
                 RowEffects(f, c, stride, row, n - 1, rects, x, y, p))
  }

  /** The shade the first n spans give a pixel. */
  function RowShade(stride: nat, row: EmittedRow, n: nat, x: int): Shade
    requires ScanlineOps.IsStride(stride) && n <= |row.spans| && Scanlines.Placed(stride, row.spans, |row.covers|)
  {
    if n == 0 then Bare
    else if Covers(RunOf(stride, row, row.spans[n - 1]), x) then ShadeAt(RunOf(stride, row, row.spans[n - 1]), x)
    else RowShade(stride, row, n - 1, x)
  }

  /** A pixel no span touches is bare. */
  lemma {:induction false} UntouchedIsBare(stride: nat, row: EmittedRow, n: nat, x: int)
    requires ScanlineOps.IsStride(stride) && n <= |row.spans| && Scanlines.Placed(stride, row.spans, |row.covers|)
    requires forall i :: 0 <= i < n ==> !Scanlines.SpanTouches(stride, row.spans[i], x)
    ensures RowShade(stride, row, n, x) == Bare
    decreases n
  {
    hide Scanlines.SpanTouches, RunOf, Covers, ShadeAt, Scanlines.PlacedSpan;
    if n > 0 {
      assert Scanlines.PlacedSpan(stride, row.spans[n - 1], |row.covers|);
      RunOfCovers(stride, row, row.spans[n - 1], x);
      UntouchedIsBare(stride, row, n - 1, x);
    }
  }

  /** A span's pixels have its shade, and none before it. */
  lemma {:induction false} TouchedShade(stride: nat, row: EmittedRow, n: nat, i: nat, x: int)
    requires ScanlineOps.IsStride(stride) && SoundRow(stride, row) && n <= |row.spans| && i < |row.spans|
    requires Scanlines.SpanTouches(stride, row.spans[i], x)
    ensures Scanlines.PlacedSpan(stride, row.spans[i], |row.covers|)
    ensures RowShade(stride, row, n, x) == if i < n then ShadeAt(RunOf(stride, row, row.spans[i]), x) else Bare
    decreases n
  {
    SoundSpan(stride, row, i);
    hide RunOf, Covers, ShadeAt, Scanlines.PlacedSpan, Scanlines.SpanTouches, SoundRow;
    SoundIs(stride, row);
    if n > 0 {
      SoundSpan(stride, row, n - 1);
      RunOfCovers(stride, row, row.spans[n - 1], x);
      if n - 1 != i {
        OneTouches(stride, row.spans, i, n - 1, x);
      }
      TouchedShade(stride, row, n - 1, i, x);
    }
  }

  lemma SoundIs(stride: nat, row: EmittedRow)
    requires SoundRow(stride, row)
    ensures Scanlines.Placed(stride, row.spans, |row.covers|) && Scanlines.InTurn(stride, row.spans)
    ensures Scanlines.Merged(stride, row.covers, row.spans)
  {
  }

  lemma OneTouches(stride: nat, spans: seq<Scanlines.Stored>, i: nat, j: nat, x: int)
    requires ScanlineOps.IsStride(stride) && Scanlines.InTurn(stride, spans) && i < |spans| && j < |spans| && i != j
    requires Scanlines.SpanTouches(stride, spans[i], x)
    ensures !Scanlines.SpanTouches(stride, spans[j], x)
  {
    var a, b := spans[if i < j then i else j], spans[if i < j then j else i];
    assert Abs(a.len) <= Scanlines.Times(stride, b.x - a.x);
  }

  /** A row's spans blend each pixel of the region once, by the shade the row gives
      it. */
  lemma {:induction false} RowOnce(f: Format, c: Color, stride: nat, row: EmittedRow, n: nat, rects: seq<IntBox>,
                                   x: int, y: int, p: Pixel)
    requires IsFormat(f) && Opaque(p) && Disjoint(rects)
    requires ScanlineOps.IsStride(stride) && SoundRow(stride, row) && n <= |row.spans| && IsShade(RowShade(stride, row, n, x))
    ensures RowEffects(f, c, stride, row, n, rects, x, y, p) ==
            if row.y == y then Once(f, c, rects, x, y, RowShade(stride, row, n, x), p) else p
    decreases n
  {
    if n == 0 {
      OnceBare(f, c, rects, x, y, p);
    } else {
      var st := row.spans[n - 1];
      SoundSpan(stride, row, n - 1);
      hide *;
      var run := RunOf(stride, row, st);
      RowStep(f, c, stride, row, n, rects, x, y, p);
      RunOfRow(stride, row, st);
      BareIsShade();
      RowOnce(f, c, stride, row, n - 1, rects, x, y, p);
      OnceBare(f, c, rects, x, y, p);
      if row.y == y {
        OnceOpaque(f, c, rects, x, y, RowShade(stride, row, n - 1, x), p);
      }
      EffectsOnce(f, c, run, rects, x, y, RowEffects(f, c, stride, row, n - 1, rects, x, y, p));
      OnceBare(f, c, rects, x, y, RowEffects(f, c, stride, row, n - 1, rects, x, y, p));
    }
  }

  /** One more span: a pixel it touches was bare before; another keeps its shade. */
  lemma RowStep(f: Format, c: Color, stride: nat, row: EmittedRow, n: nat, rects: seq<IntBox>, x: int, y: int, p: Pixel)
    requires IsFormat(f) && ScanlineOps.IsStride(stride) && SoundRow(stride, row) && 0 < n <= |row.spans|
    ensures Scanlines.PlacedSpan(stride, row.spans[n - 1], |row.covers|)
    ensures RowEffects(f, c, stride, row, n, rects, x, y, p) ==
            Effects(f, c, RunOf(stride, row, row.spans[n - 1]), rects, x, y, RowEffects(f, c, stride, row, n - 1, rects, x, y, p))
    ensures var shade := ShadeAt(RunOf(stride, row, row.spans[n - 1]), x);
            if shade == Bare then RowShade(stride, row, n, x) == RowShade(stride, row, n - 1, x)
            else RowShade(stride, row, n, x) == shade && RowShade(stride, row, n - 1, x) == Bare
  {
    hide Effects, RunOf, Scanlines.PlacedSpan, Scanlines.SpanTouches, Scanlines.InTurn, Scanlines.Merged, SoundRow, IsFormat;
    SoundSpan(stride, row, n - 1);
    SoundIs(stride, row);
    RunOfCovers(stride, row, row.spans[n - 1], x);
    if Scanlines.SpanTouches(stride, row.spans[n - 1], x) {
      TouchedShade(stride, row, n - 1, n - 1, x);
    }
  }

  lemma SoundSpan(stride: nat, row: EmittedRow, i: nat)
    requires SoundRow(stride, row) && i < |row.spans|
    ensures Scanlines.PlacedSpan(stride, row.spans[i], |row.covers|)
  {
  }

  lemma RunOfRow(stride: nat, row: EmittedRow, st: Scanlines.Stored)
    requires ScanlineOps.IsStride(stride) && Scanlines.PlacedSpan(stride, st, |row.covers|)
    ensures RunOf(stride, row, st).y == row.y
  {
  }

  lemma BareIsShade()
    ensures IsShade(Bare)
  {
  }

  lemma OnceBare(f: Format, c: Color, rects: seq<IntBox>, x: int, y: int, p: Pixel)
    requires IsFormat(f)
    ensures IsShade(Bare) && Once(f, c, rects, x, y, Bare, p) == p
  {
  }

  lemma OnceOpaque(f: Format, c: Color, rects: seq<IntBox>, x: int, y: int, shade: Shade, p: Pixel)
    requires IsFormat(f) && IsShade(shade) && Opaque(p)
    ensures Opaque(Once(f, c, rects, x, y, shade, p))
  {
    hide Blend, InRegion, Opaque;
    if InRegion(rects, x, y) {
      BlendStaysOpaque(f, c, BoxAt(rects, x, y), x, y, shade, p);
    }
  }

  /** The effect of the rows of a picture. */
  function PaintEffects(f: Format, c: Color, stride: nat, rows: seq<EmittedRow>, rects: seq<IntBox>,
                        x: int, y: int, p: Pixel): Pixel
    requires IsFormat(f) && ScanlineOps.IsStride(stride) && SoundRows(stride, rows)
  {
    if rows == [] then p
    else
      var row := rows[|rows| - 1];
      RowEffects(f, c, stride, row, |row.spans|, rects, x, y,
                 PaintEffects(f, c, stride, rows[..|rows| - 1], rects, x, y, p))
  }

  predicate SoundRows(stride: nat, rows: seq<EmittedRow>) {
    forall i :: 0 <= i < |rows| ==> SoundRow(stride, rows[i])
  }

  /** A format under which lines do what their pixels do, or rows without lines. */
  predicate EvenRows(f: Format, rows: seq<EmittedRow>)
    requires IsFormat(f)
  {
    Uniform(f) || forall row <- rows :: OwnCovers(row)
  }

  /** The shade a picture's rows give a pixel. */
  function EmittedShade(stride: nat, rows: seq<EmittedRow>, y: int, x: int): Shade
    requires ScanlineOps.IsStride(stride) && SoundRows(stride, rows)
  {
    if rows == [] then Bare
    else
      var row := rows[|rows| - 1];
      if row.y == y then RowShade(stride, row, |row.spans|, x) else EmittedShade(stride, rows[..|rows| - 1], y, x)
  }

  /** Of a picture's rows, only the one at y has anything for a pixel of row y. */
  lemma {:induction false} OtherRowsBare(stride: nat, rows: seq<EmittedRow>, y: int, x: int)
    requires ScanlineOps.IsStride(stride) && SoundRows(stride, rows) && forall i :: 0 <= i < |rows| ==> rows[i].y != y
    ensures EmittedShade(stride, rows, y, x) == Bare
    decreases |rows|
  {
    hide SoundRow;
    if rows != [] {
      OtherRowsBare(stride, rows[..|rows| - 1], y, x);
    }
  }

  /** Painting a picture's rows blends each pixel of the region once, by the shade
      the picture has there, and leaves the pixels outside alone. */
  lemma {:induction false} PaintOnce(f: Format, c: Color, stride: nat, rows: seq<EmittedRow>, lo: int, hi: int,
                                     rects: seq<IntBox>, x: int, y: int, p: Pixel)
    requires IsFormat(f) && Opaque(p) && Disjoint(rects)
    requires ScanlineOps.IsStride(stride) && RowsAscend(stride, rows, lo, hi) && SoundRows(stride, rows)
    requires IsShade(EmittedShade(stride, rows, y, x))
    ensures PaintEffects(f, c, stride, rows, rects, x, y, p) == Once(f, c, rects, x, y, EmittedShade(stride, rows, y, x), p)
    decreases |rows|
  {
    if rows == [] {
      OnceBare(f, c, rects, x, y, p);
    } else {
      hide Once, RowEffects, RowShade, SoundRow, Disjoint, Opaque, IsFormat, IsShade;
      var row, front := rows[|rows| - 1], rows[..|rows| - 1];
      BareIsShade();
      if row.y == y {
        OtherRowsBare(stride, front, y, x);
      }
      PaintOnce(f, c, stride, front, lo, row.y, rects, x, y, p);
      var before := PaintEffects(f, c, stride, front, rects, x, y, p);
      OnceBare(f, c, rects, x, y, p);
      OnceOpaque(f, c, rects, x, y, EmittedShade(stride, front, y, x), p);
      if row.y == y {
        RowOnce(f, c, stride, row, |row.spans|, rects, x, y, before);
      } else {
        OtherRow(f, c, stride, row, |row.spans|, rects, x, y, before);
      }
    }
  }

  lemma AscendingSound(stride: nat, rows: seq<EmittedRow>, lo: int, hi: int)
    requires RowsAscend(stride, rows, lo, hi)
    ensures SoundRows(stride, rows)
  {
  }

  lemma {:induction false} OtherRow(f: Format, c: Color, stride: nat, row: EmittedRow, n: nat, rects: seq<IntBox>,
                                    x: int, y: int, p: Pixel)
    requires IsFormat(f) && ScanlineOps.IsStride(stride) && SoundRow(stride, row) && n <= |row.spans| && row.y != y
    ensures RowEffects(f, c, stride, row, n, rects, x, y, p) == p
    decreases n
  {
    if n > 0 {
      SoundSpan(stride, row, n - 1);
      OtherRow(f, c, stride, row, n - 1, rects, x, y, p);
      OtherRun(f, c, RunOf(stride, row, row.spans[n - 1]), rects, x, y, p);
    }
  }

  lemma {:induction false} OtherRun(f: Format, c: Color, run: Run, rects: seq<IntBox>, x: int, y: int, p: Pixel)
    requires IsFormat(f) && run.y != y
    ensures Effects(f, c, run, rects, x, y, p) == p
    decreases |rects|
  {
    if rects != [] {
      OtherRun(f, c, run, rects[..|rects| - 1], x, y, p);
    }
  }

  // ----- the code

  /** `clip_region`: the state's rectangles cut to the canvas, or all of it. */
  method ClipRegion(width: int, height: int, clippingSet: bool, clipRects: seq<IntBox>) returns (rects: seq<IntBox>)
    requires width >= 1 && height >= 1
    ensures OnCanvas(rects, width, height)
    ensures forall x, y :: InRegion(rects, x, y) <==>
                             0 <= x < width && 0 <= y < height && (clippingSet ==> InRegion(clipRects, x, y))
    ensures Disjoint(clipRects) ==> Disjoint(rects)
  {
    var bounds := IntBox(0, 0, width - 1, height - 1);
    if !clippingSet {
      return [bounds];
    }
    rects := [];
    ghost var from: seq<nat> := [];
    for n := 0 to |clipRects|
      invariant OnCanvas(rects, width, height)
      invariant forall x, y :: InRegion(rects, x, y) <==> 0 <= x < width && 0 <= y < height && InRegion(clipRects[..n], x, y)
      invariant |from| == |rects| && forall i :: 0 <= i < |from| ==> from[i] < n
      invariant forall i :: 0 <= i < |from| ==> Within(rects[i], clipRects[from[i]])
      invariant forall i, j :: 0 <= i < j < |from| ==> from[i] < from[j]
    {
      var r := clipRects[n];
      var clipped := IntBox(CArith.Max(r.left, bounds.left), CArith.Max(r.top, bounds.top),
                            CArith.Min(r.right, bounds.right), CArith.Min(r.bottom, bounds.bottom));
      assert clipRects[..n + 1][..n] == clipRects[..n];
      if clipped.left <= clipped.right && clipped.top <= clipped.bottom {
        assert (rects + [clipped])[..|rects|] == rects && Within(clipped, clipRects[n]);
        ghost var was := from;
        rects, from := rects + [clipped], from + [n];
        assert forall i :: 0 <= i < |was| ==> from[i] == was[i];
      }
    }
    assert clipRects[..|clipRects|] == clipRects;
    if Disjoint(clipRects) {
      forall i, j, x, y | 0 <= i < j < |rects| ensures !(InBox(rects[i], x, y) && InBox(rects[j], x, y)) {
        assert !(InBox(clipRects[from[i]], x, y) && InBox(clipRects[from[j]], x, y));
      }
    }
  }

  predicate Within(inner: IntBox, outer: IntBox) {
    outer.left <= inner.left && inner.right <= outer.right && outer.top <= inner.top && inner.bottom <= outer.bottom
  }

  class PixelFormat {
    const canvas: array2<Pixel>
    const format: Format

    constructor (canvas: array2<Pixel>, format: Format)
      ensures this.canvas == canvas && this.format == format
    {
      this.canvas, this.format := canvas, format;
    }

    predicate OnRow(x: int, y: int, len: int) {
      0 <= y < canvas.Length0 && 0 <= x && 1 <= len && x + len <= canvas.Length1
    }

    method BlendAt(x: int, y: int, c: Color, cover: int)
      requires IsFormat(format) && OnRow(x, y, 1)
      modifies canvas
      ensures forall j, i :: 0 <= j < canvas.Length0 && 0 <= i < canvas.Length1 ==>
                canvas[j, i] == if j == y && i == x then BlendPixel(format, c, x, y, cover, old(canvas[j, i]))
                                else old(canvas[j, i])
    {
      canvas[y, x] := BlendPixel(format, c, x, y, cover, canvas[y, x]);
    }

    method BlendSolidHspan(x: int, y: int, len: int, c: Color, covers: seq<int>)
      requires IsFormat(format) && OnRow(x, y, len) && len <= |covers|
      modifies canvas
      ensures forall j, i :: 0 <= j < canvas.Length0 && 0 <= i < canvas.Length1 ==>
                canvas[j, i] == if j == y && x <= i < x + len && covers[i - x] != 0
                                then BlendPixel(format, c, i, y, covers[i - x], old(canvas[j, i]))
                                else old(canvas[j, i])
    {
      hide BlendPixel;
      var k := 0;
      while k < len
        invariant 0 <= k <= len
        invariant forall j, i :: 0 <= j < canvas.Length0 && 0 <= i < canvas.Length1 ==>
                    canvas[j, i] == if j == y && x <= i < x + k && covers[i - x] != 0
                                    then BlendPixel(format, c, i, y, covers[i - x], old(canvas[j, i]))
                                    else old(canvas[j, i])
      {
        if covers[k] != 0 {
          BlendAt(x + k, y, c, covers[k]);
        }
        k := k + 1;
      }
    }

    /** `blend_solid_hspan_subpix`, len covers: three a pixel. */
    method BlendThirdsHspan(x: int, y: int, len: int, c: Color, covers: seq<int>)
      requires IsFormat(format) && len % 3 == 0 && OnRow(x, y, len / 3) && len <= |covers|
      modifies canvas
      ensures forall j, i :: 0 <= j < canvas.Length0 && 0 <= i < canvas.Length1 ==>
                canvas[j, i] == if j == y && x <= i < x + len / 3
                                then ThirdsPixel(format, c, i, y, Third(covers, i - x), old(canvas[j, i]))
                                else old(canvas[j, i])
    {
      hide ThirdsPixel;
      var k := 0;
      while 3 * k < len
        invariant 0 <= k <= len / 3
        invariant forall j, i :: 0 <= j < canvas.Length0 && 0 <= i < canvas.Length1 ==>
                    canvas[j, i] == if j == y && x <= i < x + k
                                    then ThirdsPixel(format, c, i, y, Third(covers, i - x), old(canvas[j, i]))
                                    else old(canvas[j, i])
        decreases len - 3 * k
      {
        canvas[y, x + k] := ThirdsPixel(format, c, x + k, y, Third(covers, k), canvas[y, x + k]);
        k := k + 1;
      }
    }

    method BlendHline(x: int, y: int, len: int, c: Color, cover: int)
      requires IsFormat(format) && OnRow(x, y, len)
      modifies canvas
      ensures forall j, i :: 0 <= j < canvas.Length0 && 0 <= i < canvas.Length1 ==>
                canvas[j, i] == if j == y && x <= i < x + len
                                then HlinePixel(format, c, i, y, cover, len, old(canvas[j, i]))
                                else old(canvas[j, i])
    {
      hide HlinePixel;
      var k := 0;
      while k < len
        invariant 0 <= k <= len
        invariant forall j, i :: 0 <= j < canvas.Length0 && 0 <= i < canvas.Length1 ==>
                    canvas[j, i] == if j == y && x <= i < x + k
                                    then HlinePixel(format, c, i, y, cover, len, old(canvas[j, i]))
                                    else old(canvas[j, i])
      {
        canvas[y, x + k] := HlinePixel(format, c, x + k, y, cover, len, canvas[y, x + k]);
        k := k + 1;
      }
    }
  }

  class RendererRegion {
    const pixfmt: PixelFormat
    const rects: seq<IntBox>

    constructor (pixfmt: PixelFormat, rects: seq<IntBox>)
      ensures this.pixfmt == pixfmt && this.rects == rects
    {
      this.pixfmt, this.rects := pixfmt, rects;
    }

    ghost predicate Valid() {
      IsFormat(pixfmt.format) && OnCanvas(rects, pixfmt.canvas.Length1, pixfmt.canvas.Length0)
    }

    /** `RendererRegion::blend_hline`. */
    method BlendHline(x1In: int, y: int, x2In: int, c: Color, cover: int)
      requires Valid()
      modifies pixfmt.canvas
      ensures var run := Line(y, CArith.Min(x1In, x2In), CArith.Max(x1In, x2In), cover);
              forall j, i :: 0 <= j < pixfmt.canvas.Length0 && 0 <= i < pixfmt.canvas.Length1 ==>
                pixfmt.canvas[j, i] == Effects(pixfmt.format, c, run, rects, i, j, old(pixfmt.canvas[j, i]))
    {
      hide HlinePixel, IsFormat;
      var x1, x2 := x1In, x2In;
      if x1 > x2 {
        x1, x2 := x2, x1;
      }
      ghost var run := Line(y, x1, x2, cover);
      var n := 0;
      while n < |rects|
        invariant 0 <= n <= |rects|
        invariant forall j, i :: 0 <= j < pixfmt.canvas.Length0 && 0 <= i < pixfmt.canvas.Length1 ==>
                    pixfmt.canvas[j, i] == Effects(pixfmt.format, c, run, rects[..n], i, j, old(pixfmt.canvas[j, i]))
      {
        var box := rects[n];
        assert rects[..n + 1][..n] == rects[..n];
        n := n + 1;
        if y > box.bottom || y < box.top || x1 > box.right || x2 < box.left {
          continue;
        }
        var a, b := CArith.Max(x1, box.left), CArith.Min(x2, box.right);
        pixfmt.BlendHline(a, y, b - a + 1, c, cover);
      }
      assert rects[..|rects|] == rects;
    }

    /** `RendererRegion::blend_solid_hspan`; a span of len covers. */
    method BlendSolidHspan(x: int, y: int, c: Color, covers: seq<int>)
      requires Valid() && covers != []
      modifies pixfmt.canvas
      ensures forall j, i :: 0 <= j < pixfmt.canvas.Length0 && 0 <= i < pixfmt.canvas.Length1 ==>
                pixfmt.canvas[j, i] == Effects(pixfmt.format, c, Span(y, x, covers), rects, i, j, old(pixfmt.canvas[j, i]))
    {
      hide BlendPixel, IsFormat;
      ghost var run := Span(y, x, covers);
      var n := 0;
      while n < |rects|
        invariant 0 <= n <= |rects|
        invariant forall j, i :: 0 <= j < pixfmt.canvas.Length0 && 0 <= i < pixfmt.canvas.Length1 ==>
                    pixfmt.canvas[j, i] == Effects(pixfmt.format, c, run, rects[..n], i, j, old(pixfmt.canvas[j, i]))
      {
        var box := rects[n];
        assert rects[..n + 1][..n] == rects[..n];
        n := n + 1;
        var sx, slen, sc := x, |covers|, 0;
        if y > box.bottom || y < box.top {
          continue;
        }
        if sx < box.left {
          slen := slen - (box.left - sx);
          if slen <= 0 {
            continue;
          }
          sc := sc + (box.left - sx);
          sx := box.left;
        }
        if sx + slen > box.right {
          slen := box.right - sx + 1;
          if slen <= 0 {
            continue;
          }
        }
        pixfmt.BlendSolidHspan(sx, y, slen, c, covers[sc..]);
      }
      assert rects[..|rects|] == rects;
    }

    /** `RendererRegion::blend_solid_hspan_subpix`; a span of len covers. */
    method BlendThirdsHspan(x: int, y: int, c: Color, covers: seq<int>)
      requires Valid() && covers != [] && |covers| % 3 == 0
      modifies pixfmt.canvas
      ensures forall j, i :: 0 <= j < pixfmt.canvas.Length0 && 0 <= i < pixfmt.canvas.Length1 ==>
                pixfmt.canvas[j, i] == Effects(pixfmt.format, c, Thirds(y, x, covers), rects, i, j, old(pixfmt.canvas[j, i]))
    {
      hide RunEffect, IsFormat;
      ghost var run := Thirds(y, x, covers);
      var n := 0;
      while n < |rects|
        invariant 0 <= n <= |rects|
        invariant forall j, i :: 0 <= j < pixfmt.canvas.Length0 && 0 <= i < pixfmt.canvas.Length1 ==>
                    pixfmt.canvas[j, i] == Effects(pixfmt.format, c, run, rects[..n], i, j, old(pixfmt.canvas[j, i]))
      {
        assert rects[..n + 1][..n] == rects[..n];
        BlendThirdsIn(rects[n], x, y, c, covers);
        n := n + 1;
      }
      assert rects[..|rects|] == rects;
    }

    /** The part of such a span inside one box. */
    method BlendThirdsIn(box: IntBox, x: int, y: int, c: Color, covers: seq<int>)
      requires Valid() && box in rects && covers != [] && |covers| % 3 == 0
      modifies pixfmt.canvas
      ensures forall j, i :: 0 <= j < pixfmt.canvas.Length0 && 0 <= i < pixfmt.canvas.Length1 ==>
                pixfmt.canvas[j, i] == RunEffect(pixfmt.format, c, Thirds(y, x, covers), box, i, j, old(pixfmt.canvas[j, i]))
    {
      hide RunEffect, ThirdsPixel, IsFormat, Third;
      forall j, i, p {
        ThirdsEffect(pixfmt.format, c, box, x, y, covers, i, j, p);
      }
      if y > box.bottom || y < box.top {
        return;
      }
      var sx, slen, sc := CutThirds(box, x, |covers|);
      if slen <= 0 {
        return;
      }
      forall i | 0 <= i < slen / 3 ensures Third(covers[sc..], i) == Third(covers, sx - x + i) {
        ThirdDrop(covers, sx - x, i);
      }
      pixfmt.BlendThirdsHspan(sx, y, slen, c, covers[sc..]);
    }

    /** The part of a span of len covers inside a box's columns, and how many covers
        come before it; nothing is left when slen is not positive. */
    method CutThirds(box: IntBox, x: int, len: int) returns (sx: int, slen: int, sc: int)
      requires len > 0 && len % 3 == 0 && box.left <= box.right
      ensures slen <= 0 <==> x + len / 3 - 1 < box.left || box.right < x
      ensures slen > 0 ==> sx == CArith.Max(x, box.left) && sc == 3 * (sx - x)
      ensures slen > 0 ==> slen % 3 == 0 && slen / 3 == CArith.Min(x + len / 3 - 1, box.right) - sx + 1
    {
      sx, slen, sc := x, len, 0;
      if sx < box.left {
        slen := slen - 3 * (box.left - sx);
        if slen <= 0 {
          return;
        }
        sc := sc + 3 * (box.left - sx);
        sx := box.left;
      }
      if sx + slen / 3 > box.right {
        slen := 3 * (box.right - sx + 1);
      }
    }
  }

  /** `SolidRenderer` over a cover a pixel, `SubpixRenderer` over three. */
  class SpanRenderer {
    const ren: RendererRegion
    const color: Color
    const stride: nat

    constructor (ren: RendererRegion, color: Color, stride: nat)
      ensures this.ren == ren && this.color == color && this.stride == stride
    {
      this.ren, this.color, this.stride := ren, color, stride;
    }

    ghost predicate Valid() {
      ren.Valid() && ScanlineOps.IsStride(stride)
    }

    /** `render`: one row of spans. */
    method Render(row: EmittedRow)
      requires Valid() && SoundRow(stride, row)
      modifies ren.pixfmt.canvas
      ensures forall j, i :: 0 <= j < ren.pixfmt.canvas.Length0 && 0 <= i < ren.pixfmt.canvas.Length1 ==>
                ren.pixfmt.canvas[j, i] ==
                RowEffects(ren.pixfmt.format, color, stride, row, |row.spans|, ren.rects, i, j, old(ren.pixfmt.canvas[j, i]))
    {
      hide Effects, IsFormat;
      var n := 0;
      while n < |row.spans|
        invariant 0 <= n <= |row.spans|
        invariant forall j, i :: 0 <= j < ren.pixfmt.canvas.Length0 && 0 <= i < ren.pixfmt.canvas.Length1 ==>
                    ren.pixfmt.canvas[j, i] ==
                    RowEffects(ren.pixfmt.format, color, stride, row, n, ren.rects, i, j, old(ren.pixfmt.canvas[j, i]))
      {
        var st := row.spans[n];
        SoundSpan(stride, row, n);
        RenderSpan(row, st);
        n := n + 1;
      }
    }

    method RenderSpan(row: EmittedRow, st: Scanlines.Stored)
      requires Valid() && Scanlines.PlacedSpan(stride, st, |row.covers|)
      modifies ren.pixfmt.canvas
      ensures forall j, i :: 0 <= j < ren.pixfmt.canvas.Length0 && 0 <= i < ren.pixfmt.canvas.Length1 ==>
                ren.pixfmt.canvas[j, i] ==
                Effects(ren.pixfmt.format, color, RunOf(stride, row, st), ren.rects, i, j, old(ren.pixfmt.canvas[j, i]))
    {
      hide Effects, IsFormat, OnCanvas;
      if st.len < 0 {
        ren.BlendHline(st.x, row.y, st.x - TruncDiv(st.len, stride) - 1, color, row.covers[st.cover]);
      } else if stride == 1 {
        ren.BlendSolidHspan(st.x, row.y, color, row.covers[st.cover..st.cover + st.len]);
      } else {
        ren.BlendThirdsHspan(st.x, row.y, color, row.covers[st.cover..st.cover + st.len]);
      }
    }

    /** The rows of a picture, as a rasteriser emits them. */
    method RenderRows(rows: seq<EmittedRow>)
      requires Valid() && SoundRows(stride, rows)
      modifies ren.pixfmt.canvas
      ensures forall j, i :: 0 <= j < ren.pixfmt.canvas.Length0 && 0 <= i < ren.pixfmt.canvas.Length1 ==>
                ren.pixfmt.canvas[j, i] ==
                PaintEffects(ren.pixfmt.format, color, stride, rows, ren.rects, i, j, old(ren.pixfmt.canvas[j, i]))
    {
      hide RowEffects, IsFormat, SoundRow, OnCanvas;
      var n := 0;
      while n < |rows|
        invariant 0 <= n <= |rows|
        invariant forall j, i :: 0 <= j < ren.pixfmt.canvas.Length0 && 0 <= i < ren.pixfmt.canvas.Length1 ==>
                    ren.pixfmt.canvas[j, i] ==
                    PaintEffects(ren.pixfmt.format, color, stride, rows[..n], ren.rects, i, j, old(ren.pixfmt.canvas[j, i]))
      {
        assert rows[..n + 1][..n] == rows[..n];
        Render(rows[n]);
        n := n + 1;
      }
      assert rows[..|rows|] == rows;
    }

    ghost predicate CanvasOpaque()
      reads ren.pixfmt.canvas
    {
      forall j, i :: 0 <= j < ren.pixfmt.canvas.Length0 && 0 <= i < ren.pixfmt.canvas.Length1 ==>
        Opaque(ren.pixfmt.canvas[j, i])
    }

    /** What painting needs: an opaque canvas, a colour, boxes that do not overlap. */
    ghost predicate Ready()
      reads ren.pixfmt.canvas
    {
      Valid() && CanvasOpaque() && IsColor(color) && Disjoint(ren.rects)
    }

    lemma FormatReady()
      requires Ready()
      ensures IsFormat(ren.pixfmt.format)
    {
    }

    /** Rendering a picture's rows blends each pixel of the region once, by the shade
        the picture has there, however the region is cut into boxes; every other
        pixel keeps its colour; the canvas stays opaque. */
    method RenderPicture(ghost subpixel: bool, ghost g: seq<nat>, ghost cells: seq<Cells.Cell>, ghost packed: bool,
                         rows: seq<EmittedRow>, ghost lo: int, ghost hi: int)
      requires Ready() && stride == StrideOf(subpixel) && (subpixel || EvenRows(ren.pixfmt.format, rows))
      requires RowsAscend(stride, rows, lo, hi) && Sweep.IsGamma(g) && ShowsPicture(subpixel, g, cells, packed, rows)
      modifies ren.pixfmt.canvas
      ensures CanvasOpaque()
      ensures forall j, i :: 0 <= j < ren.pixfmt.canvas.Length0 && 0 <= i < ren.pixfmt.canvas.Length1 ==>
                ren.pixfmt.canvas[j, i] ==
                Once(ren.pixfmt.format, color, ren.rects, i, j,
                     PictureShade(subpixel, packed, g, cells, j, i),
                     old(ren.pixfmt.canvas[j, i]))
    {
      hide RowsAscend, IsFormat, EvenRows, Once, PaintEffects, Disjoint, PictureShade, IsColor, Opaque, ShowsPicture,
           OnCanvas, Sweep.IsGamma;
      AscendingSound(stride, rows, lo, hi);
      RenderRows(rows);
      forall j, i | 0 <= j < ren.pixfmt.canvas.Length0 && 0 <= i < ren.pixfmt.canvas.Length1
        ensures Opaque(ren.pixfmt.canvas[j, i])
        ensures ren.pixfmt.canvas[j, i] ==
                Once(ren.pixfmt.format, color, ren.rects, i, j,
                     PictureShade(subpixel, packed, g, cells, j, i),
                     old(ren.pixfmt.canvas[j, i]))
      {
        PaintedPixel(ren.pixfmt.format, color, subpixel, g, cells, packed, rows, lo, hi, ren.rects, i, j,
                     old(ren.pixfmt.canvas[j, i]));
      }
    }

    /** Rasterising a path through the packed container and rendering it: every
        pixel of the region is blended once, by the clipped, closed path's shade
        there. */
    method PaintPacked(raster: Rasterizer)
      requires Ready() && raster.Valid() && raster.Renderable() && stride == raster.Stride()
      requires raster.subpixel || Uniform(ren.pixfmt.format)
      modifies raster.outline, raster.clipper, raster`status, raster`edges, raster`loose, raster`scanY, ren.pixfmt.canvas
      ensures raster.Valid() && raster.outline.lines == old(raster.Closed()) && Sweep.IsGamma(raster.gamma)
      ensures CanvasOpaque()
      ensures forall j, i :: 0 <= j < ren.pixfmt.canvas.Length0 && 0 <= i < ren.pixfmt.canvas.Length1 ==>
                ren.pixfmt.canvas[j, i] ==
                Once(ren.pixfmt.format, color, ren.rects, i, j,
                     PictureShade(raster.subpixel, true, raster.gamma, CellRasterizers.StoredCells(old(raster.Closed())), j, i),
                     old(ren.pixfmt.canvas[j, i]))
    {
      hide *;
      FormatReady();
      StrideIs(raster);
      var rows := raster.RenderPacked();
      if !raster.subpixel {
        UniformIsEven(ren.pixfmt.format, rows);
      }
      RenderPicture(raster.subpixel, raster.gamma, CellRasterizers.StoredCells(raster.outline.lines), true, rows,
                    raster.outline.minY, raster.outline.maxY + 1);
    }

    /** The same through the unpacked container, under any format, since it keeps no
        runs; sound as for Rasterizer.RenderUnpacked. */
    method PaintUnpacked(raster: Rasterizer) returns (sound: bool)
      requires Ready() && raster.Valid() && raster.Renderable() && stride == raster.Stride()
      modifies raster.outline, raster.clipper, raster`status, raster`edges, raster`loose, raster`scanY, ren.pixfmt.canvas
      ensures raster.Valid() && raster.outline.lines == old(raster.Closed()) && Sweep.IsGamma(raster.gamma)
      ensures sound <==> !Overruns(raster.subpixel, raster.gamma, old(raster.Closed()))
      ensures sound ==> CanvasOpaque()
      ensures sound ==>
                forall j, i :: 0 <= j < ren.pixfmt.canvas.Length0 && 0 <= i < ren.pixfmt.canvas.Length1 ==>
                  ren.pixfmt.canvas[j, i] ==
                  Once(ren.pixfmt.format, color, ren.rects, i, j,
                       PictureShade(raster.subpixel, false, raster.gamma, CellRasterizers.StoredCells(old(raster.Closed())), j, i),
                       old(ren.pixfmt.canvas[j, i]))
    {
      hide *;
      FormatReady();
      StrideIs(raster);
      var rows;
      sound, rows := raster.RenderUnpacked();
      if sound {
        OwnIsEven(ren.pixfmt.format, rows);
        RenderPicture(raster.subpixel, raster.gamma, CellRasterizers.StoredCells(raster.outline.lines), false, rows,
                      raster.outline.minY, raster.outline.maxY + 1);
      }
    }
  }

  lemma UniformIsEven(f: Format, rows: seq<EmittedRow>)
    requires IsFormat(f) && Uniform(f)
    ensures EvenRows(f, rows)
  {
  }

  lemma OwnIsEven(f: Format, rows: seq<EmittedRow>)
    requires IsFormat(f) && forall row <- rows :: OwnCovers(row)
    ensures EvenRows(f, rows)
  {
  }

  /** The shade a picture gives a pixel: on the plain arm the alpha of the sweep; on the
      subpixel arm what its sweep makes of the row's cells, in runs of one cover or three
      covers a pixel, as the container keeps them. */
  ghost function PictureShade(subpixel: bool, packed: bool, g: seq<nat>, cells: seq<Cells.Cell>, y: int, x: int): (shade: Shade)
    requires Sweep.IsGamma(g)
    ensures IsShade(shade)
  {
    if subpixel then
      ShadeFor(3, SubpixSweep.SubpixAt(g, cells, y, x), Scanlines.Kept(packed, SubpixSweep.SubpixTouch(g, cells, y, x)),
               SubpixSweep.RunFrom(g, cells, y, x), SubpixSweep.RunTo(g, cells, y, x))
    else Flat(Sweep.PlainAt(g, cells, y, x))
  }

  /** The covers and the reach a row reads as, as a shade: a run is the whole span. */
  lemma RowShadeIs(stride: nat, row: EmittedRow, x: int)
    requires ScanlineOps.IsStride(stride) && SoundRow(stride, row)
    ensures var v, t := Scanlines.Decode(stride, row.covers, row.spans, x), Scanlines.TouchIn(stride, row.spans, x);
            |v| == stride && (t == ScanlineOps.Skipped ==> v == ScanlineOps.Clear(stride))
            && exists x1, x2 :: RunAround(stride, row, x, x1, x2)
                                && RowShade(stride, row, |row.spans|, x) == ShadeFor(stride, v, t, x1, x2)
  {
    hide SoundRow, RowShade, ShadeFor, RunAround;
    SoundIs(stride, row);
    if Scanlines.TouchIn(stride, row.spans, x) == ScanlineOps.Skipped {
      SkippedShade(stride, row, x);
    } else {
      var i := Scanlines.TouchingSpan(stride, row.spans, x);
      TouchedRun(stride, row, i, x);
    }
  }

  /** Where pixel x is in a run, the run is from x1 to x2. */
  ghost predicate RunAround(stride: nat, row: EmittedRow, x: int, x1: int, x2: int) {
    Scanlines.TouchIn(stride, row.spans, x) == ScanlineOps.Shared ==>
      && x1 <= x <= x2 && (forall k :: x1 <= k < x2 ==> Scanlines.OneRun(stride, row.covers, row.spans, k))
      && !Scanlines.OneRun(stride, row.covers, row.spans, x1 - 1) && !Scanlines.OneRun(stride, row.covers, row.spans, x2)
  }

  lemma SkippedShade(stride: nat, row: EmittedRow, x: int)
    requires ScanlineOps.IsStride(stride) && SoundRow(stride, row) && Scanlines.TouchIn(stride, row.spans, x) == ScanlineOps.Skipped
    ensures var v := Scanlines.Decode(stride, row.covers, row.spans, x);
            |v| == stride && v == ScanlineOps.Clear(stride) && RunAround(stride, row, x, x, x)
            && RowShade(stride, row, |row.spans|, x) == ShadeFor(stride, v, ScanlineOps.Skipped, x, x)
  {
    hide Scanlines.SpanTouches, RowShade, SoundRow;
    SoundIs(stride, row);
    UntouchedIsClear(stride, row.covers, row.spans, x);
    forall i | 0 <= i < |row.spans| ensures !Scanlines.SpanTouches(stride, row.spans[i], x) {
      if Scanlines.SpanTouches(stride, row.spans[i], x) {
        Scanlines.TouchedBy(stride, row.covers, row.spans, i, x);
      }
    }
    UntouchedIsBare(stride, row, |row.spans|, x);
  }

  lemma TouchedRun(stride: nat, row: EmittedRow, i: nat, x: int)
    requires ScanlineOps.IsStride(stride) && SoundRow(stride, row) && i < |row.spans|
    requires Scanlines.SpanTouches(stride, row.spans[i], x)
    ensures var v, t := Scanlines.Decode(stride, row.covers, row.spans, x), Scanlines.TouchIn(stride, row.spans, x);
            var x1, x2 := row.spans[i].x, Scanlines.After(stride, row.spans[i]) - 1;
            |v| == stride && t != ScanlineOps.Skipped && RunAround(stride, row, x, x1, x2)
            && RowShade(stride, row, |row.spans|, x) == ShadeFor(stride, v, t, x1, x2)
  {
    hide RowShade, ShadeFor, SoundRow, RunOf, ShadeAt, Scanlines.Decode, Scanlines.TouchIn, Scanlines.Merged, Scanlines.InTurn,
         Scanlines.OneRun, Scanlines.SpanValue;
    SoundIs(stride, row);
    SoundSpan(stride, row, i);
    Scanlines.TouchedBy(stride, row.covers, row.spans, i, x);
    TouchedShade(stride, row, |row.spans|, i, x);
    RunOfReads(stride, row, row.spans[i], x);
    if row.spans[i].len < 0 {
      Scanlines.RunIsWhole(stride, row.covers, row.spans, i);
    }
  }

  lemma {:induction false} UntouchedIsClear(stride: nat, covers: seq<nat>, spans: seq<Scanlines.Stored>, x: int)
    requires Scanlines.TouchIn(stride, spans, x) == ScanlineOps.Skipped
    ensures Scanlines.Decode(stride, covers, spans, x) == ScanlineOps.Clear(stride)
    decreases |spans|
  {
    if spans != [] {
      UntouchedIsClear(stride, covers, spans[..|spans| - 1], x);
    }
  }

  /** The row at y, if a picture has one. */
  lemma {:induction false} RowAt(stride: nat, rows: seq<EmittedRow>, y: int) returns (row: EmittedRow)
    requires ScanlineOps.IsStride(stride) && SoundRows(stride, rows)
    ensures SoundRow(stride, row)
    ensures forall x :: EmittedAt(stride, rows, y, x) == Scanlines.Decode(stride, row.covers, row.spans, x)
    ensures forall x :: EmittedTouch(stride, rows, y, x) == Scanlines.TouchIn(stride, row.spans, x)
    ensures forall x :: EmittedShade(stride, rows, y, x) == RowShade(stride, row, |row.spans|, x)
    decreases |rows|
  {
    hide SoundRow, Scanlines.Decode, Scanlines.TouchIn, RowShade;
    if rows == [] {
      row := EmittedRow(y, [], []);
      NoSpans(stride, row);
    } else if rows[|rows| - 1].y == y {
      row := rows[|rows| - 1];
    } else {
      row := RowAt(stride, rows[..|rows| - 1], y);
    }
  }

  lemma NoSpans(stride: nat, row: EmittedRow)
    requires ScanlineOps.IsStride(stride) && row.spans == [] && row.covers == []
    ensures SoundRow(stride, row)
    ensures forall x :: Scanlines.Decode(stride, row.covers, row.spans, x) == ScanlineOps.Clear(stride)
    ensures forall x :: Scanlines.TouchIn(stride, row.spans, x) == ScanlineOps.Skipped && RowShade(stride, row, 0, x) == Bare
  {
  }

  /** Rows that show a picture shade each pixel as the picture should; on the plain
      arm a pixel may be part of a line instead, or bare if its alpha is 0. */
  lemma EmittedIsPicture(subpixel: bool, g: seq<nat>, cells: seq<Cells.Cell>, packed: bool, rows: seq<EmittedRow>, y: int, x: int)
    requires Sweep.IsGamma(g) && ShowsPicture(subpixel, g, cells, packed, rows)
    requires ScanlineOps.IsStride(StrideOf(subpixel)) && SoundRows(StrideOf(subpixel), rows)
    ensures var shade, wanted := EmittedShade(StrideOf(subpixel), rows, y, x), PictureShade(subpixel, packed, g, cells, y, x);
            IsShade(shade) && if subpixel then shade == wanted else shade == wanted || IsPlain(shade, wanted, x)
    ensures EmittedShade(StrideOf(subpixel), rows, y, x).Level? <==> EmittedTouch(StrideOf(subpixel), rows, y, x) == ScanlineOps.Shared
  {
    hide Sweep.PlainAt, SubpixSweep.SubpixAt, SubpixSweep.SubpixTouch, EmittedAt, EmittedTouch, EmittedShade, RowShade,
         Scanlines.Decode, Scanlines.TouchIn, SoundRow, Scanlines.OneRun;
    var stride := StrideOf(subpixel);
    var row := RowAt(stride, rows, y);
    SoundIs(stride, row);
    RowShadeIs(stride, row, x);
    var x1, x2 :| RunAround(stride, row, x, x1, x2)
                  && RowShade(stride, row, |row.spans|, x)
                     == ShadeFor(stride, Scanlines.Decode(stride, row.covers, row.spans, x), Scanlines.TouchIn(stride, row.spans, x), x1, x2);
    assert ShowsPixel(subpixel, g, cells, packed, rows, y, x);
    if subpixel && EmittedTouch(stride, rows, y, x) == ScanlineOps.Shared {
      RunsAgree(g, cells, packed, rows, y, row, x, x1, x2);
    }
  }

  /** Another shade that blends as a cover does where lines do what their pixels do. */
  predicate IsPlain(shade: Shade, wanted: Shade, x: int) {
    wanted.Flat? && ((shade.Level? && shade.cover == wanted.cover && shade.x1 <= x <= shade.x2) || (shade == Bare && wanted.cover == 0))
  }

  /** The run a pixel is emitted in is the picture's. */
  lemma RunsAgree(g: seq<nat>, cells: seq<Cells.Cell>, packed: bool, rows: seq<EmittedRow>, y: int, row: EmittedRow,
                  x: int, x1: int, x2: int)
    requires Sweep.IsGamma(g) && ShowsPicture(true, g, cells, packed, rows) && RunAround(3, row, x, x1, x2)
    requires forall k :: EmittedAt(3, rows, y, k) == Scanlines.Decode(3, row.covers, row.spans, k)
    requires forall k :: EmittedTouch(3, rows, y, k) == Scanlines.TouchIn(3, row.spans, k)
    requires Scanlines.TouchIn(3, row.spans, x) == ScanlineOps.Shared
    ensures SubpixSweep.RunFrom(g, cells, y, x) == x1 && SubpixSweep.RunTo(g, cells, y, x) == x2
  {
    hide SubpixSweep.SubpixAt, SubpixSweep.SubpixTouch, EmittedAt, EmittedTouch, Scanlines.Decode, Scanlines.TouchIn,
         SubpixSweep.RunFrom, SubpixSweep.RunTo;
    assert ShowsPixel(true, g, cells, packed, rows, y, x);
    forall k ensures SubpixSweep.SameRun(g, cells, y, k) <==> Scanlines.OneRun(3, row.covers, row.spans, k) {
      assert ShowsPixel(true, g, cells, packed, rows, y, k);
      assert ShowsPixel(true, g, cells, packed, rows, y, k + 1);
    }
    SubpixSweep.RunIs(g, cells, y, x, x1, x2);
  }

  /** Rows without lines put no pixel in a line. */
  lemma {:induction false} OwnTouch(stride: nat, rows: seq<EmittedRow>, y: int, x: int)
    requires forall row <- rows :: OwnCovers(row)
    ensures EmittedTouch(stride, rows, y, x) != ScanlineOps.Shared
    decreases |rows|
  {
    if rows != [] {
      var row := rows[|rows| - 1];
      assert row in rows;
      OwnSpans(stride, row.spans, x);
      OwnTouch(stride, rows[..|rows| - 1], y, x);
    }
  }

  lemma {:induction false} OwnSpans(stride: nat, spans: seq<Scanlines.Stored>, x: int)
    requires forall st <- spans :: st.len > 0
    ensures Scanlines.TouchIn(stride, spans, x) != ScanlineOps.Shared
    decreases |spans|
  {
    if spans != [] {
      assert spans[|spans| - 1] in spans;
      OwnSpans(stride, spans[..|spans| - 1], x);
    }
  }

  /** One pixel of a rendered picture. */
  lemma PaintedPixel(f: Format, c: Color, subpixel: bool, g: seq<nat>, cells: seq<Cells.Cell>, packed: bool, rows: seq<EmittedRow>,
                     lo: int, hi: int, rects: seq<IntBox>, x: int, y: int, p: Pixel)
    requires IsFormat(f) && IsColor(c) && Opaque(p) && Disjoint(rects) && (subpixel || EvenRows(f, rows))
    requires Sweep.IsGamma(g) && ShowsPicture(subpixel, g, cells, packed, rows) && RowsAscend(StrideOf(subpixel), rows, lo, hi)
    ensures ScanlineOps.IsStride(StrideOf(subpixel)) && SoundRows(StrideOf(subpixel), rows)
    ensures var q := PaintEffects(f, c, StrideOf(subpixel), rows, rects, x, y, p);
            q == Once(f, c, rects, x, y, PictureShade(subpixel, packed, g, cells, y, x), p) && Opaque(q)
  {
    hide *;
    StrideOfIs(subpixel);
    AscendingSound(StrideOf(subpixel), rows, lo, hi);
    EmittedIsPicture(subpixel, g, cells, packed, rows, y, x);
    PaintOnce(f, c, StrideOf(subpixel), rows, lo, hi, rects, x, y, p);
    var shade, wanted := EmittedShade(StrideOf(subpixel), rows, y, x), PictureShade(subpixel, packed, g, cells, y, x);
    OnceOpaque(f, c, rects, x, y, shade, p);
    if !subpixel && shade != wanted {
      NoLines(f, StrideOf(subpixel), rows, y, x);
      SameOnce(f, c, rects, x, y, shade, wanted, p);
    }
  }

  lemma StrideOfIs(subpixel: bool)
    ensures StrideOf(subpixel) == if subpixel then 3 else 1
    ensures ScanlineOps.IsStride(StrideOf(subpixel))
  {
  }

  lemma StrideIs(raster: Rasterizer)
    ensures raster.Stride() == StrideOf(raster.subpixel)
  {
  }

  lemma NoLines(f: Format, stride: nat, rows: seq<EmittedRow>, y: int, x: int)
    requires IsFormat(f) && EvenRows(f, rows)
    ensures Uniform(f) || EmittedTouch(stride, rows, y, x) != ScanlineOps.Shared
  {
    hide Uniform, OwnCovers, EmittedTouch;
    if !Uniform(f) {
      OwnTouch(stride, rows, y, x);
    }
  }

  /** On the plain arm the ways a cover can arrive come to the same. */
  lemma SameOnce(f: Format, c: Color, rects: seq<IntBox>, x: int, y: int, shade: Shade, wanted: Shade, p: Pixel)
    requires IsFormat(f) && IsColor(c) && Opaque(p) && IsShade(shade) && IsShade(wanted)
    requires IsPlain(shade, wanted, x) && (shade.Level? ==> Uniform(f))
    ensures Once(f, c, rects, x, y, shade, p) == Once(f, c, rects, x, y, wanted, p)
  {
    hide BlendPixel, HlinePixel, InRegion, Uniform, Opaque;
    CoverZero(f, c, x, y, p);
    if InRegion(rects, x, y) && shade.Level? {
      BoxAtHolds(rects, x, y);
      LevelIsFlat(f, c, BoxAt(rects, x, y), x, y, shade.cover, shade.x1, shade.x2, p);
    }
  }

  lemma {:induction false} BoxAtHolds(rects: seq<IntBox>, x: int, y: int)
    requires InRegion(rects, x, y)
    ensures InBox(BoxAt(rects, x, y), x, y) && BoxAt(rects, x, y) in rects
    decreases |rects|
  {
    if !InBox(rects[|rects| - 1], x, y) {
      BoxAtHolds(rects[..|rects| - 1], x, y);
    }
  }

  // ----- filling a path

  function Around(f: IntBox, r: IntBox): IntBox {
    IntBox(CArith.Min(f.left, r.left), CArith.Min(f.top, r.top), CArith.Max(f.right, r.right), CArith.Max(f.bottom, r.bottom))
  }

  /** The box around a region's boxes. */
  function FrameBox(rects: seq<IntBox>): IntBox
    requires rects != []
  {
    if |rects| == 1 then rects[0] else Around(FrameBox(rects[..|rects| - 1]), rects[|rects| - 1])
  }

  /** It holds them all, and each of its sides is one of theirs. */
  lemma {:induction false} FrameBoxIs(rects: seq<IntBox>)
    requires rects != []
    ensures var f := FrameBox(rects);
            && (forall r <- rects :: Within(r, f))
            && (exists r <- rects :: r.left == f.left) && (exists r <- rects :: r.right == f.right)
            && (exists r <- rects :: r.top == f.top) && (exists r <- rects :: r.bottom == f.bottom)
    decreases |rects|
  {
    var last := rects[|rects| - 1];
    assert last in rects;
    if |rects| > 1 {
      FrameBoxIs(rects[..|rects| - 1]);
      assert rects == rects[..|rects| - 1] + [last];
    }
  }

  /** `ClipRegion::frame`. */
  method RegionFrame(rects: seq<IntBox>) returns (f: IntBox)
    requires rects != []
    ensures f == FrameBox(rects)
  {
    f := rects[0];
    for n := 0 to |rects|
      invariant f == if n == 0 then rects[0] else FrameBox(rects[..n])
    {
      var r := rects[n];
      assert rects[..n + 1][..n] == rects[..n];
      f := IntBox(CArith.Min(f.left, r.left), CArith.Min(f.top, r.top), CArith.Max(f.right, r.right), CArith.Max(f.bottom, r.bottom));
    }
    assert rects[..|rects|] == rects;
  }

  /** The clip box a shape's rasteriser is given: the frame, right and bottom
      exclusive. */
  function FrameClip(f: IntBox): (clip: LineClippers.Clip)
    ensures LineClippers.IsClip(clip)
  {
    LineClippers.To(Normalised(Corners(true, f.left as real, f.top as real, (f.right + 1) as real, (f.bottom + 1) as real)))
  }

  lemma FrameClipIs(f: IntBox)
    requires 0 <= f.left <= f.right < 0x1_0000 && 0 <= f.top <= f.bottom < 0x1_0000
    ensures FrameClip(f) == LineClippers.To(LineClippers.ClipRect(3 * f.left, 256 * f.top, 768 * (f.right + 1), 256 * (f.bottom + 1)))
  {
    WholeUpscaled(f.top);
    WholeUpscaled(f.bottom + 1);
    WholeUpscaled(3 * (f.right + 1));
    assert 3.0 * (f.right + 1) as real == (3 * (f.right + 1)) as real;
  }

  lemma WholeUpscaled(n: int)
    requires 0 <= n <= 0x4_0000
    ensures Upscale(n as real) == 256 * n && SaturatingInt(n as real) == n
  {
    assert n as real * 256.0 == (256 * n) as real;
    assert ((256 * n) as real + 0.5).Floor == 256 * n;
  }

  /** What is drawn of a path inside a region, by thirds of a pixel. */
  function RegionLines(rects: seq<IntBox>, path: seq<Vertex>): seq<Lines.Segment>
    requires rects != []
  {
    PathLines(FrameClip(FrameBox(rects)), path)
  }

  /** On a canvas up to 5461 pixels wide no shape draws a line twice, and every row
      of it fits its container. */
  lemma CanvasRenders(rects: seq<IntBox>, width: int, height: int, path: seq<Vertex>)
    requires rects != [] && OnCanvas(rects, width, height) && width <= 5461 && height <= 0x1_0000
    ensures Renders(true, RegionLines(rects, path))
  {
    hide CloseContour, Walk, FrameClip, FrameBox;
    FrameOnCanvas(rects, width, height);
    var f := FrameBox(rects);
    FrameClipIs(f);
    var box := LineClippers.ClipRect(3 * f.left, 256 * f.top, 768 * (f.right + 1), 256 * (f.bottom + 1));
    BoxRenders(true, CloseContour(Walk(START, path)).edges, box);
  }

  lemma FrameOnCanvas(rects: seq<IntBox>, width: int, height: int)
    requires rects != [] && OnCanvas(rects, width, height)
    ensures var f := FrameBox(rects); 0 <= f.left <= f.right < width && 0 <= f.top <= f.bottom < height
  {
    hide FrameBox;
    FrameBoxIs(rects);
    var f := FrameBox(rects);
    var r :| r in rects && r.left == f.left;
    var s :| s in rects && s.right == f.right;
    var u :| u in rects && u.top == f.top;
    var v :| v in rects && v.bottom == f.bottom;
    assert Within(r, f) && Within(u, f);
  }

  ghost predicate CanvasReady(ren: RendererRegion, color: Color)
    reads ren.pixfmt.canvas
  {
    && ren.Valid() && IsColor(color) && Disjoint(ren.rects)
    && forall j, i :: 0 <= j < ren.pixfmt.canvas.Length0 && 0 <= i < ren.pixfmt.canvas.Length1 ==>
         Opaque(ren.pixfmt.canvas[j, i])
  }

  lemma RendererReady(r: SpanRenderer)
    requires CanvasReady(r.ren, r.color) && ScanlineOps.IsStride(r.stride)
    ensures r.Ready()
  {
    hide Opaque, Disjoint;
  }

  /** Of the lines drawn of a path in a region: unless lost cells add up to something,
      exactly which pixels' covers are the alphas of what the lines contribute to their
      three columns. */
  lemma RegionThirds(rects: seq<IntBox>, path: seq<Vertex>)
    requires rects != [] && Renders(true, RegionLines(rects, path))
    ensures ThirdsTold(RegionLines(rects, path))
  {
    var lines := RegionLines(rects, path);
    hide *;
    RegionLinesIs(rects, path);
    RendersTame(true, lines);
    PathCloses(FrameClip(FrameBox(rects)), path);
    ThirdsAreTold(lines);
  }

  lemma RendersTame(subpixel: bool, lines: seq<Lines.Segment>)
    requires Renders(subpixel, lines)
    ensures Lines.AllTame(lines)
  {
  }

  /** Unless lost cells add up to something, a pixel's covers are the alphas of what the
      lines contribute to its three columns exactly where the thirds agree. */
  ghost predicate ThirdsTold(lines: seq<Lines.Segment>)
  {
    Cells.SamePicture(CellRasterizers.LostCells(lines), []) ==>
      forall y, x :: ThreeAlphasIff(Sweep.LinearGamma(), lines, y, x)
  }

  lemma ThirdsAreTold(lines: seq<Lines.Segment>)
    requires forall r :: Cells.RowCover(Lines.CellsOf(lines), r) == 0
    ensures ThirdsTold(lines)
  {
    hide ThreeAlphasIff, CellRasterizers.LostCells, Lines.CellsOf, Cells.RowCover, Cells.SamePicture;
    if Cells.SamePicture(CellRasterizers.LostCells(lines), []) {
      forall y, x
        ensures ThreeAlphasIff(Sweep.LinearGamma(), lines, y, x)
      {
        ThirdsPicture(Sweep.LinearGamma(), lines, y, x);
      }
    }
  }

  /** `rasterize_path` with a solid colour, as every filled shape and stroke goes:
      through the subpixel rasteriser clipped to the region's frame, packed. Each
      pixel of the region is blended once by the closed path's shade there. */
  method FillPath(ren: RendererRegion, color: Color, path: seq<Vertex>)
    requires CanvasReady(ren, color) && ren.rects != [] && Anchored(path) && Renders(true, RegionLines(ren.rects, path))
    modifies ren.pixfmt.canvas
    ensures CanvasReady(ren, color)
    ensures forall j, i :: 0 <= j < ren.pixfmt.canvas.Length0 && 0 <= i < ren.pixfmt.canvas.Length1 ==>
              ren.pixfmt.canvas[j, i] ==
              Once(ren.pixfmt.format, color, ren.rects, i, j,
                   PictureShade(true, true, Sweep.LinearGamma(), CellRasterizers.StoredCells(RegionLines(ren.rects, path)), j, i),
                   old(ren.pixfmt.canvas[j, i]))
    ensures ThirdsTold(RegionLines(ren.rects, path))
  {
    hide *;
    CanvasFormat(ren, color);
    RegionThirds(ren.rects, path);
    var raster := FramedRasterizer(ren.rects, path);
    var renderer := new SpanRenderer(ren, color, 3);
    StrideIs(raster);
    StrideOfIs(true);
    RendererReady(renderer);
    renderer.PaintPacked(raster);
    StillReady(renderer);
  }

  lemma StillReady(r: SpanRenderer)
    requires r.CanvasOpaque() && r.ren.Valid() && IsColor(r.color) && Disjoint(r.ren.rects)
    ensures CanvasReady(r.ren, r.color)
  {
    hide Opaque, Disjoint;
  }

  lemma CanvasFormat(ren: RendererRegion, color: Color)
    requires CanvasReady(ren, color)
    ensures IsFormat(ren.pixfmt.format) && ren.Valid() && IsColor(color) && Disjoint(ren.rects)
  {
  }

  /** A subpixel rasteriser clipped to a region's frame, holding one path. */
  method FramedRasterizer(rects: seq<IntBox>, path: seq<Vertex>) returns (raster: Rasterizer)
    requires rects != [] && Anchored(path) && Renders(true, RegionLines(rects, path))
    ensures fresh(raster) && fresh(raster.outline) && fresh(raster.clipper) && raster.subpixel
    ensures raster.Valid() && raster.Renderable() && raster.Closed() == RegionLines(rects, path) && raster.gamma == Sweep.LinearGamma()
  {
    hide *;
    var f := RegionFrame(rects);
    raster := new Rasterizer(true);
    raster.SetClipBox(f.left as real, f.top as real, (f.right + 1) as real, (f.bottom + 1) as real);
    StartsAfresh();
    raster.AddPath(path);
    FrameClipOf(f);
    RegionLinesIs(rects, path);
    raster.PathRenders(FrameClip(f), path);
  }

  lemma RegionLinesIs(rects: seq<IntBox>, path: seq<Vertex>)
    requires rects != []
    ensures RegionLines(rects, path) == PathLines(FrameClip(FrameBox(rects)), path)
  {
  }

  lemma StartsAfresh()
    ensures START.(status := StatusInitial, edges := [], loose := false) == START
  {
  }

  lemma FrameClipOf(f: IntBox)
    ensures FrameClip(f) ==
            LineClippers.To(Normalised(Corners(true, f.left as real, f.top as real, (f.right + 1) as real, (f.bottom + 1) as real)))
  {
  }

  /** The gamma table a font is drawn with. */
  function TextGamma(antialias: bool): (g: seq<nat>)
    ensures Sweep.IsGamma(g) && g[0] == 0
  {
    if antialias then Sweep.LinearGamma() else ThresholdGamma()
  }

  /** Unless lost cells add up to something, every pixel is shaded by the alpha of what
      the lines contribute there, and whether the picture overruns can be told from it. */
  ghost predicate AlphaTold(g: seq<nat>, lines: seq<Lines.Segment>)
    requires Sweep.IsGamma(g)
  {
    Cells.SamePicture(CellRasterizers.LostCells(lines), []) ==>
      (Overruns(false, g, lines) <==> OneColumnShows(g, lines)) && forall y, x :: ShowsAlpha(g, lines, y, x)
  }

  lemma TextAlphas(path: seq<Vertex>, g: seq<nat>)
    requires Sweep.IsGamma(g) && g[0] == 0 && Renders(false, PathLines(LineClippers.Open, path))
    ensures AlphaTold(g, PathLines(LineClippers.Open, path))
  {
    hide ShowsAlpha, Overruns, OneColumnShows, CellRasterizers.LostCells, Lines.CellsOf, Cells.RowCover, Cells.SamePicture,
         PathLines, FrameFits, Lines.AllTame, Sweep.IsGamma;
    var lines := PathLines(LineClippers.Open, path);
    PathCloses(LineClippers.Open, path);
    if Cells.SamePicture(CellRasterizers.LostCells(lines), []) {
      OverrunsIff(g, lines);
      forall y, x
        ensures ShowsAlpha(g, lines, y, x)
      {
        PlainPicture(g, lines, y, x);
      }
    }
  }

  /** `fill_text_path`, greyscale: an unclipped rasteriser, unpacked, under any format.
      Unless the picture is one column wide and shows something, each pixel of the
      region is blended once by the alpha of the closed path there. */
  method FillTextPath(ren: RendererRegion, color: Color, path: seq<Vertex>, antialias: bool) returns (sound: bool)
    requires CanvasReady(ren, color) && Renders(false, PathLines(LineClippers.Open, path))
    modifies ren.pixfmt.canvas
    ensures sound <==> !Overruns(false, TextGamma(antialias), PathLines(LineClippers.Open, path))
    ensures sound ==>
              && CanvasReady(ren, color)
              && forall j, i :: 0 <= j < ren.pixfmt.canvas.Length0 && 0 <= i < ren.pixfmt.canvas.Length1 ==>
                   ren.pixfmt.canvas[j, i] ==
                   Once(ren.pixfmt.format, color, ren.rects, i, j,
                        PictureShade(false, false, TextGamma(antialias),
                                     CellRasterizers.StoredCells(PathLines(LineClippers.Open, path)), j, i),
                        old(ren.pixfmt.canvas[j, i]))
    ensures AlphaTold(TextGamma(antialias), PathLines(LineClippers.Open, path))
  {
    hide *;
    CanvasFormat(ren, color);
    TextAlphas(path, TextGamma(antialias));
    var raster := TextRasterizer(path, antialias);
    var renderer := new SpanRenderer(ren, color, 1);
    StrideIs(raster);
    StrideOfIs(false);
    RendererReady(renderer);
    sound := renderer.PaintUnpacked(raster);
    if sound {
      StillReady(renderer);
    }
  }

  /** An unclipped rasteriser holding one path. */
  method TextRasterizer(path: seq<Vertex>, antialias: bool) returns (raster: Rasterizer)
    requires Renders(false, PathLines(LineClippers.Open, path))
    ensures fresh(raster) && fresh(raster.outline) && fresh(raster.clipper) && !raster.subpixel
    ensures raster.Valid() && raster.Renderable() && raster.gamma == TextGamma(antialias)
    ensures raster.Closed() == PathLines(LineClippers.Open, path)
  {
    hide *;
    raster := new Rasterizer(false);
    if !antialias {
      raster.GammaThreshold();
    }
    TextGammaIs(antialias);
    raster.AddPath(path);
    raster.PathRenders(LineClippers.Open, path);
  }

  lemma TextGammaIs(antialias: bool)
    ensures TextGamma(antialias) == if antialias then Sweep.LinearGamma() else ThresholdGamma()
  {
  }

  /** `fill_text_path`, subpixel: as FillPath, unpacked, under any format. */
  method FillTextThirds(ren: RendererRegion, color: Color, path: seq<Vertex>)
    requires CanvasReady(ren, color) && ren.rects != [] && Anchored(path) && Renders(true, RegionLines(ren.rects, path))
    modifies ren.pixfmt.canvas
    ensures CanvasReady(ren, color)
    ensures forall j, i :: 0 <= j < ren.pixfmt.canvas.Length0 && 0 <= i < ren.pixfmt.canvas.Length1 ==>
              ren.pixfmt.canvas[j, i] ==
              Once(ren.pixfmt.format, color, ren.rects, i, j,
                   PictureShade(true, false, Sweep.LinearGamma(), CellRasterizers.StoredCells(RegionLines(ren.rects, path)), j, i),
                   old(ren.pixfmt.canvas[j, i]))
    ensures ThirdsTold(RegionLines(ren.rects, path))
  {
    hide *;
    CanvasFormat(ren, color);
    RegionThirds(ren.rects, path);
    var raster := FramedRasterizer(ren.rects, path);
    var renderer := new SpanRenderer(ren, color, 3);
    StrideIs(raster);
    StrideOfIs(true);
    RendererReady(renderer);
    var sound := renderer.PaintUnpacked(raster);
    NeverOverruns(RegionLines(ren.rects, path));
    StillReady(renderer);
  }

  lemma NeverOverruns(lines: seq<Lines.Segment>)
    ensures !Overruns(true, Sweep.LinearGamma(), lines)
  {
  }

  // ----- the lost third on a canvas

  lemma StripeRegion()
    ensures RegionLines([IntBox(0, 0, 1, 0)], PolygonPath(STRIPE_CORNERS)) == STRIPE_SIDES
  {
    hide Walk, CloseContour, FrameClip, LineClippers.ClipAll;
    StripeWalk();
    FrameClipIs(IntBox(0, 0, 1, 0));
    var box := LineClippers.ClipRect(0, 0, 1536, 256);
    LineClippers.AllInsideKept(STRIPE_SIDES, box);
  }

  /** Filling the stripe on a canvas two pixels wide leaves pixel (0, 0) as it was,
      though the stripe covers half of its last third. */
  lemma LostOnCanvas()
    ensures var lines := RegionLines([IntBox(0, 0, 1, 0)], PolygonPath(STRIPE_CORNERS));
            && PictureShade(true, true, Sweep.LinearGamma(), CellRasterizers.StoredCells(lines), 0, 0) == Bare
            && SubpixSweep.ThreeAlphas(Sweep.LinearGamma(), Lines.CellsOf(lines), 0, 0) == [0, 0, 128]
  {
    hide SubpixSweep.SubpixAt, SubpixSweep.SubpixTouch, SubpixSweep.ThreeAlphas, RegionLines,
         CellRasterizers.StoredCells, Lines.CellsOf, Renders;
    StripeRegion();
    LostThird();
  }
}
