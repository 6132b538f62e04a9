# Verified models of the remote desktop client

Dafny models of the client's hardest logic, each proved against a specification
that does not mention the code.

* **Rasteriser** (`CArith`, `Cells`, `Lines`, `CellSort`, `CellRasterizers`, `LineClippers`,
  `Rasterizers`, `Sweep`, `Scanlines`, `ScanlineOps`, `SubpixSweep`, `Coverage`, `FillRule`,
  `Cuts`, `Dda2`). Lines are
  specified by geometry: floors of true crossings and clamped heights. The two nested
  error-term walks, the nine clipping cases, the counting sort, the sweep and both
  scanline containers are imperative, with the fields the code has. They compose,
  with a clip box or without, over one column a pixel or three: the cells are a function
  of the lines, a closed path leaves no winding in any row, and every emitted pixel carries
  the covers of the clipped path, whichever container it went through. Apart from the cells,
  `Coverage` says what they mean: each pixel's alpha is the exact area right of a chain of
  pieces that keeps within a unit of each line; `FillRule` derives the nonzero rule, and
  `Cuts` that clipped parts follow their edge.
* **Stroker** (`Strokers`, `StrokeSides`). Vertices are thinned in place; the generator is a state
  machine that hands out one command a call. Its remaining output is a function of
  its state, which gives termination, the shape of the output and the number of
  contours.
* **Painter** (`PixelFormats`, `PixelRules`, `Painters`). Per-mode pixel arithmetic, spans cut
  against the boxes of a region, and the three compositions the program makes with
  the rasteriser, down to the pixels of the canvas: solid shapes (`FillPath`), greyscale
  text (`FillTextPath`) and subpixel text (`FillTextThirds`).
* **JSON** (`Json`, `JsonParsing`, `JsonParser`, `JsonRoundTrip`, `JsonUnicode`,
  `JsonRules`), **Windows command lines** (`CommandLines`), **base64 and font framing** (`Base64`, `FontFetch`) and
  **ssh's stderr** (`StderrLines`, `Strings`): round trips and independence of how the
  input is cut, with the loops of the code proved equal to the grammar.
* **Connecting** (`ConnectFlows`, `Routes`). The walk over routes, the fallback and
  the progress stages, for every answer the outside can give at every step.

## What the code does not promise

Where a natural law fails, the models keep the code as it is and state when the law
holds.

* A line of 16384 cells or more is drawn by halves and then again whole, so its covers
  are wrong in every row it crosses (`Cells.LineCoverExact`). The heights of what is
  drawn close in every row regardless; an edge's covers are right exactly when no part
  of it is drawn twice (`LineClippers.ClipLineCover`), as in any clip box narrower
  than that. `LineClippers.WideBoxDoubles` is an edge that is.
* A sweep shows the alpha of a row's cells if and only if the gamma table maps 0
  to 0 and the row's total is transparent (`Sweep.PointwiseIff`).
* Cells past `cell_limit` are dropped. Which cells a path leaves, stored and dropped, is a
  function of its lines (`CellRasterizers.StoredCells`, `CellRasterizers.LostCells`), and
  every picture is stated of the stored ones; they draw what the lines do exactly when
  the dropped ones add up to nothing (`CellRasterizers.WhatIsLost`), as when none is
  dropped.
* A new unpacked container of stride 1 has no cover buffer for a picture a single
  column wide (`Scanlines.UnpackedScanline.Reset`). A rendering writes past it exactly
  when some row of such a picture shows something (`Rasterizers.OverrunsIff`), as
  for the triangle of `Rasterizers.OneColumnOverrun`.
* The subpixel clip box's left edge is off by a factor of 256
  (`Rasterizers.SubpixelLeftEdge`).
* The subpixel sweep does not give every pixel the alphas of its three columns: filling
  the rectangle with corners (2/3, 0) and (4/3, 1/2) shows nothing in pixel (0, 0)
  (`Rasterizers.LostThird`, `Painters.LostOnCanvas`). What it gives is
  `SubpixSweep.SubpixAt`, which is those alphas exactly where `SubpixSweep.ThirdsAgree`
  holds (`SubpixSweep.ThirdsIff`, and of a filled path `Painters.RegionThirds`).
* Three equal covers do not always blend as that one cover does. Outside `B_OP_ALPHA`
  they do exactly when the pixel is partly covered; or uncovered, unless a pattern is
  copied onto a pixel of another colour than its low one; or fully covered, and no channel
  is moved to a higher value. In `B_OP_ALPHA` the condition is
  `PixelFormats.AlphaAgrees` (`PixelFormats.EqualThirds` for both).
  `PixelFormats.FullThirdsDiffer`, `PixelFormats.NoThirdsDiffer` and
  `PixelFormats.AlphaThirdsDiffer` are inputs of each kind.
* `B_OP_MAX` can darken a partly covered pixel by one step (`PixelFormats.MaxDarkens`,
  `PixelFormats.MaxDarkensGrey`). Inverting or selecting twice restores every pixel
  exactly at no and at full cover (`PixelFormats.InvertTwice`,
  `PixelFormats.SelectTwice`).
* The interpolator reaches its end if and only if its count is at least 1
  (`Dda2.Interpolate`). Where the difference of its ends wraps, it goes the other way
  round, with the exceptions of `Dda2.TowardIff`.
* `blend_hline` is `blend_pixel` per pixel outside `B_OP_ALPHA`, and in it exactly
  for composing formats and for patterned ones whose alphas no cover brings to 255
  (`PixelFormats.RunsIff`).
* A program name with a quote, or one that needs quoting and ends in a backslash,
  does not survive the Windows command line (`CommandLines.CommandLineRoundTrip`).
* A `\u` escape of a low surrogate that stands alone is accepted and appends bytes that
  are not UTF-8 (`JsonUnicode.LoneLowSurrogate`, `JsonUnicode.UnicodeIff`).
* Whether a number too small for a normal double is taken depends on the C library's
  `std::stod` (`JsonRoundTrip.TinyAsked`).
* The base64 decoder does not ask that bits left over in the last letter are zero
  (`Base64.DecodesIff`).
* A guest path that ends in a carriage return loses it (`FontFetch.PathRoundTrip`).
* `flush_lines` keeps a carriage return at the end of an unfinished last line where
  `SshTunnel::feed` drops it: the two deliver the same lines if and only if the text
  does not end in one (`StderrLines.FlushedIffFinished`).

## Model

| member | source | states |
|---|---|---|
| CArith.FloorDivMod | src/agg_port.cpp:1627-1633 | the C++ quotient and remainder with the code's fix-up are the floor quotient and its remainder |
| CArith.DdaStep | src/agg_port.cpp:1652-1660 | adding the lift moves the floor quotient by one more exactly when the remainders carry: why the error term is exact |
| CArith.InterpolationBounds | src/agg_port.cpp:1582-1672 | the interpolated height never leaves the segment, for either sign |
| Cells.LineCoverExact | src/agg_port.cpp:1356-1504 | the cells of a line cover every row by exactly the clamped height difference if and only if the line is not wide or is level |
| Cells.NarrowLineCover | src/agg_port.cpp:1570-1672 | below dx_limit the cover of row r is clamp(y2) - clamp(y1) to that row, in both directions, for upright lines and for ends on row boundaries |
| Cells.WideLineCover | src/agg_port.cpp:1356-1372 | a wide line, drawn by halves and then again whole, covers at least the right amount in its direction, and never exactly it in a row it crosses |
| Cells.RunCover | src/agg_port.cpp:1582-1672 | one scanline's run covers its own row by its height and no other row |
| Cells.RowXExact | src/agg_port.cpp:1451-1503 | the abscissa at the k-th scanline boundary is the floor of the true crossing: the 32-bit walk does not drift below dx_limit |
| Cells.StopHeightIsCrossing | src/agg_port.cpp:1619-1672 | the height at the k-th cell boundary is the floor of the true crossing, first and last cell included |
| Cells.HeightsAdvance | src/agg_port.cpp:1619-1672 | heights move one way and never pass the end: no overshoot, deltas of one sign |
| Cells.NarrowProducts | src/agg_port.cpp:1451-1470 | below dx_limit the products the code wraps to 32 bits do not wrap |
| Cells.LineCellsFit | src/agg_port.cpp:1356-1672 | each cell of a line lies in the line's cell box, has |cover| at most 256 of the line's sign, and area between 0 and 512 times its cover |
| Lines.LevelLine | src/agg_port.cpp:1356-1409 | a level line fills no cell, however wide it is and however often it is drawn |
| Lines.TameCover | src/agg_port.cpp:1356-1504 | lines each drawn once, or level, cover every row by exactly their heights there, together |
| Lines.OneWayExact | src/agg_port.cpp:1356-1504 | lines that all rise, or all fall, cover every row right if and only if none of them is drawn twice |
| Lines.TameInFrame | src/agg_port.cpp:1373-1409 | lines drawn once fill only cells of the box around their ends |
| Cells.SamePictureRowCover | src/agg_port.cpp:1561-1579 | two cell lists with equal prefix covers and areas have equal row covers |
| Cells.GatherSums | src/agg_port.cpp:1561-1579 | gathering visits into cells, flushing one when another is entered, neither loses nor adds cover or area at any place |
| Lines.TraceSums | src/agg_port.cpp:1356-1504 | the cells a list of lines visits add up to the cells the lines contribute to |
| Coverage.RunCellArea | src/agg_port.cpp:1582-1672 | a cell of a run has the height the run has in it, times what lies between its left edge and the two points at which the line enters and leaves |
| Coverage.LineFollowed | src/agg_port.cpp:1356-1672 | a line under dx_limit is drawn as a chain of pieces from its one end to its other, each inside one cell and within a unit of the line across and a unit up |
| Coverage.LineSwept | src/agg_port.cpp:1356-1672 | the cells of any line, covers and areas together, say of every pixel exactly how much of it lies right of those pieces |
| Coverage.LinesSwept | src/agg_port.cpp:1356-1672 | so do the cells of any list of lines |
| Coverage.StoredSwept | src/agg_port.cpp:1561-1579 | and the cells stored, with those past the limit |
| Coverage.PixelIsCovered | src/agg_port.cpp:2659-2698 | a pixel's alpha is that of the area right of the lines' pieces in it, while the covers fit 32 bits |
| CellRasterizers.FinishedPicture | src/agg_port.cpp:1561-1579 | the cells gathered from any lines have the prefix covers and areas of all the lines contribute |
| CellRasterizers.WhatIsLost | src/agg_port.cpp:1561-1568 | cells are dropped exactly when more than cell_limit are finished, which never exceed the contributions; what the stored ones lack is what the dropped ones hold, so their sums are right if and only if those add up to nothing |
| CellRasterizers.FinishedInFrame | src/agg_port.cpp:1373-1409 | of lines drawn once every cell, stored or dropped, lies in the box around their ends |
| CellRasterizers.NextHeight | src/agg_port.cpp:1654-1667 | one step of the inner error-term loop gives the next cell's exact height |
| CellRasterizers.NextRowX | src/agg_port.cpp:1478-1498 | one step of the outer error-term loop gives the next row's exact abscissa |
| CellRasterizers.CellRasterizer.Reset | src/agg_port.cpp:1328-1338 | nothing is drawn, stored or sorted |
| CellRasterizers.CellRasterizer.AddCurrCell | src/agg_port.cpp:1561-1568 | the pending cell is kept unless it is zero, and stored while there is room under cell_limit |
| CellRasterizers.CellRasterizer.SetCurrCell | src/agg_port.cpp:1570-1579 | entering another cell flushes the pending one; the stored and pending cells keep summing to what was drawn, and are those gathered with one visit more |
| CellRasterizers.CellRasterizer.RenderHline | src/agg_port.cpp:1582-1672 | draws exactly the run from (x1, y1) to (x2, y2) in one row, gathers exactly the cells it visits and ends in the last |
| CellRasterizers.CellRasterizer.RenderMiddle | src/agg_port.cpp:1642-1668 | the loop over a run's inner cells draws each with its exact height |
| CellRasterizers.CellRasterizer.RenderVertical | src/agg_port.cpp:1411-1449 | the upright arm, which assigns cover and area, draws the same cells the general walk would |
| CellRasterizers.CellRasterizer.RenderRows | src/agg_port.cpp:1451-1504 | the walk from row to row draws one exact run per row |
| CellRasterizers.CellRasterizer.DrawPass | src/agg_port.cpp:1373-1504 | the body after the wide-line test: the whole line once, and the bounding box |
| CellRasterizers.CellRasterizer.Line | src/agg_port.cpp:1356-1504 | draws exactly the line's cells after what was drawn, and gathers exactly its visits in order, so the cells are a function of the lines; terminates on wide lines; the bounding box is widened to the line's ends |
| CellRasterizers.CellRasterizer.SortCells | src/agg_port.cpp:1507-1547 | flushes the pending cell, which leaves exactly the stored cells of the lines drawn, and makes every row a sorted segment; sorting twice changes nothing |
| CellRasterizers.CellRasterizer.ScanlineCells | src/agg_port.cpp:1346-1353 | a row's segment holds exactly that row's cells, ordered by x |
| CellSort.CountRows | src/agg_port.cpp:1521-1523 | counts each row's cells; every row index is in range |
| CellSort.StartRows | src/agg_port.cpp:1524-1529 | each row starts where the rows before it end |
| CellSort.Distribute | src/agg_port.cpp:1530-1535 | places every cell in its row's segment |
| CellSort.SortRows | src/agg_port.cpp:1536-1546 | each segment becomes a permutation of its row ordered by x, the others untouched |
| CellSort.BelowTotal | src/agg_port.cpp:1521-1535 | the segments fill the array exactly |
| CellSort.SegmentsDisjoint | src/agg_port.cpp:1524-1535 | segments of different rows do not overlap |
| CellSort.PermutationSums | src/agg_port.cpp:1507-1547 | reordering cells changes no prefix cover, area or row cover |
| CellSort.RowOfSums | src/agg_port.cpp:1346-1353 | a row's cells alone give the row's sums |
| LineClippers.MulDivBounds | src/agg_port.cpp:1822 | the rounded interpolation of a point between the ends stays between the ends, so no divisor is zero where it is used and no cut leaves the box |
| LineClippers.ClipLineInBox | src/agg_port.cpp:1730-1864 | every segment drawn for an edge lies inside the clip box |
| Cuts.EdgeCrossingNear | src/agg_port.cpp:1818-1822 | a point cut at a side of the box is within half a unit of the edge, up or down |
| Cuts.CutEndNear | src/agg_port.cpp:1843-1861 | a point cut at the top or bottom is within half a unit of its segment, left or right |
| Cuts.ClipLineFollows | src/agg_port.cpp:1730-1864 | every point of every part drawn of an edge lies where the edge is at that height, moved into the box's columns, but for half a unit each way |
| LineClippers.InsideKept | src/agg_port.cpp:1730-1864 | an edge inside the box is drawn as it is |
| LineClippers.PiecesHeights | src/agg_port.cpp:1730-1864 | however a polyline is cut, at whatever abscissas and bending at whatever ordinates, its pieces' heights add up to clamp(last) - clamp(first), row by row and overall |
| LineClippers.ClipLineHeights | src/agg_port.cpp:1730-1864 | so in every box an edge's parts keep its clamped height: in each row, and from clamp(y1) to clamp(y2) overall, whatever mul_div rounds to |
| LineClippers.ClipLineOneWay | src/agg_port.cpp:1730-1864 | every part drawn of an edge goes the edge's own way: the rounded crossings never overtake each other |
| LineClippers.ClipLineCover | src/agg_port.cpp:1730-1864 | in every box, the cells drawn for an edge cover each row by its clamped height if and only if no part of it is drawn twice |
| LineClippers.NarrowBoxTame | src/agg_port.cpp:1356-1372 | in a box under dx_limit no part is |
| LineClippers.WideBoxDoubles | src/agg_port.cpp:1356-1372 | in a box of dx_limit an edge from corner to corner covers more than its height |
| LineClippers.LineClipper.SetBox | src/agg_port.cpp:1711-1720 | clipping is on and the box is normalised |
| LineClippers.LineClipper.LineTo | src/agg_port.cpp:1730-1818 | draws the clipped edge from the pen to (x2, y2), or the edge itself without a box, and moves the pen |
| LineClippers.LineClipper.DrawVisible | src/agg_port.cpp:1751-1811 | each of the nine flag cases draws the polyline the edge is flattened to, in order |
| LineClippers.LineClipper.LineClipY | src/agg_port.cpp:1824-1864 | cuts one part at the top and bottom of the box and draws what is left |
| Rasterizers.PolygonsClose | src/agg_port.cpp:2598-2632 | every polygon of any list of them is closed before the next one starts and at the end |
| Rasterizers.CloseCommands | src/agg_port.hpp:49-57 | a contour is closed by the end of a polygon with the close flag, whichever orientation it carries, and drawn by the commands 1 to 14 |
| Rasterizers.WalkTight | src/agg_port.cpp:2606-2632 | a path's edges all join on to its contours when it starts with a move, or the pen stands where a contour starts |
| Rasterizers.PathCloses | src/agg_port.cpp:2598-2650 | whatever a path does and however it is clipped, the heights of its lines sum to zero in every row, and so do the covers of its cells when no line is drawn twice |
| Rasterizers.RowsOpenPush | src/agg_port.cpp:2598-2620 | an edge moves the open end of the drawn heights to where the edge ends, in every row, in any clip box or none |
| Rasterizers.SubpixelLeftEdge | src/agg_port.cpp:2879-2886 | the subpixel box begins where it was asked to if and only if that is column 0; elsewhere it begins 256 times nearer to it |
| Rasterizers.UpscaleNear | src/agg_port.cpp:2590 | a coordinate becomes the nearest 256th of a pixel, halves away from zero, saturating at both ends of int |
| Rasterizers.BoxRenders | src/agg_port.cpp:2925-2940 | through a clip box under dx_limit whose columns fit 16 bits every path can be rendered |
| Rasterizers.Rasterizer.GammaThreshold | src/agg_port.cpp:2961-2972 | the table maps the lower half of the alphas to 0 and the upper to 255 |
| Rasterizers.Rasterizer.SetClipBox | src/agg_port.cpp:2876-2892 | resets the rasteriser and clips to the normalised box, either arm's corners |
| Rasterizers.Rasterizer.ClosePolygon | src/agg_port.cpp:2598-2604 | draws the closing edge of an open contour only |
| Rasterizers.Rasterizer.MoveTo | src/agg_port.cpp:2606-2614 | closes the contour before starting the next; a sorted rasteriser starts over |
| Rasterizers.Rasterizer.EdgeTo | src/agg_port.cpp:2616-2620 | draws the edge from the pen, clipped or not, and keeps the rows' heights accounted for |
| Rasterizers.Rasterizer.AddVertex | src/agg_port.cpp:2622-2632 | follows the path state machine; other commands do nothing |
| Rasterizers.Rasterizer.AddPath | src/agg_port.cpp:2910-2923 | a path is the fold of its vertices, after a rendering as well |
| Rasterizers.Rasterizer.RewindScanlines | src/agg_port.cpp:2633-2650 | after any path without loose edges, with a clip box or without, the heights drawn sum to zero in every row, and so do the cells' covers when no line is drawn twice |
| Rasterizers.Rasterizer.SweepOne | src/agg_port.cpp:2670-2869 | the operations of one row are in order inside the bounding box and give every pixel the covers the sweep's pointwise definition makes of the stored cells, on either arm |
| Rasterizers.Rasterizer.SweepScanline | src/agg_port.cpp:2670-2869 | each row with operations is emitted once, in order, and the rows skipped show nothing |
| Rasterizers.Rasterizer.RenderPacked | src/agg_port.cpp:2925-2942 | every pixel is emitted with the covers of the stored cells of the closed path's lines, on either arm, with runs of one cover kept apart; spans are disjoint, rows ascend |
| Rasterizers.Rasterizer.RenderUnpacked | src/agg_port.cpp:2944-2961 | the same through the unpacked container, each pixel with covers of its own; every write finds its place exactly unless the picture is one column wide and some row of it shows something |
| Rasterizers.SilentIsBlank | src/agg_port.cpp:2670-2724 | a plain row is swept without operations exactly when every pixel of it is transparent |
| Rasterizers.OverrunsIff | src/agg_port.cpp:1975-1990 | unless dropped cells add up to something, whether it is can be told from what the lines contribute: one column wide, with area in some row whose alpha shows |
| Rasterizers.OneColumnOverrun | src/agg_port.cpp:2944-2961 | a triangle inside one cell has alpha 32 and no place in the buffer |
| Rasterizers.PlainPicture | src/agg_port.cpp:2670-2722 | unless dropped cells add up to something, a row that closes shows at every pixel the alpha of what the lines contribute there |
| Rasterizers.ThirdsPicture | src/agg_port.cpp:2732-2869 | on the subpixel arm, a pixel's covers are the alphas of what the lines contribute to its three columns if and only if its thirds agree |
| Rasterizers.LostThird | src/agg_port.cpp:2855-2860 | they need not: a stripe over the thirds in columns 2 and 3 shows nothing in pixel 0, whose last third it half covers |
| Sweep.SweepRow | src/agg_port.cpp:2678-2722 | on a sorted row the cells and spans give every pixel what the pointwise rule says of the row's cells in any order, and omit exactly what is transparent |
| Sweep.AlphaAtLeast | src/agg_port.cpp:2659-2667 | under the identity table an alpha is at least k if and only if that many 256ths of a pixel's area are covered, an area that falls being rounded up |
| Sweep.AlphaOfCover | src/agg_port.cpp:2659-2667 | a whole cover has the same alpha rising and falling, full from 255 on |
| Sweep.AlphaThrough | src/agg_port.cpp:2659-2667 | any other gamma table is applied to that alpha |
| FillRule.OutsideSums | src/agg_port.cpp:2678-2698 | a pixel no piece goes through has no area, and the cover of the pieces left of it |
| FillRule.WholeWinding | src/agg_port.cpp:2598-2632 | polygons none of whose lines reaches dx_limit go round such a pixel a whole number of times |
| FillRule.NonzeroRule | src/agg_port.cpp:2659-2698 | the nonzero fill rule: such a pixel has gamma[255] if such polygons go round it, in either direction, and gamma[0] if they do not, turns being counted modulo 2^15 |
| FillRule.FilledShows | src/agg_port.cpp:2670-2722 | so the sweep shows it, unless dropped cells add up to something |
| Sweep.TakeColumn | src/agg_port.cpp:2690-2698 | consumes the cells of one column: area and cover are the sums |
| Sweep.PointwiseIff | src/agg_port.cpp:2659-2724 | that rule gives every pixel of a row its alpha if and only if gamma[0] is 0 and the row's total cover is transparent |
| Sweep.PermutedRow | src/agg_port.cpp:2670-2690 | a sorted row holds the cells of its row, with the same prefix covers, areas and total |
| Scanlines.PackedScanline.At | src/agg_port.cpp:1952-1958 | the emitted packed spans read back, pixel by pixel, as the operations fed in |
| Scanlines.PackedScanline.Reset | src/agg_port.cpp:1882-1892 | the buffers hold any row of the given columns |
| Scanlines.PackedScanline.AddCell | src/agg_port.cpp:1901-1927 | appends or lengthens a span of separate covers; what reads back gains exactly this pixel |
| Scanlines.PackedScanline.AddSpan | src/agg_port.cpp:1929-1949 | appends or lengthens a solid run under a negative length; what reads back gains exactly this run |
| Scanlines.PackedScanline.Feed | src/agg_port.cpp:1893-1949 | a row of operations in order is held whole, no index leaving the buffers |
| Scanlines.RunIsWhole | src/agg_port.cpp:1929-1949 | of spans written in turn, a packed span of one cover is its whole run: the pixel beside either end is in no run or shows another cover |
| Scanlines.UnpackedScanline.At | src/agg_port.cpp:2029-2035 | the emitted unpacked spans read back as the operations fed in, hence as the packed ones do |
| Scanlines.UnpackedScanline.Reset | src/agg_port.cpp:1979-1990 | the buffers hold the row if and only if they were sized before, the stride is 3, or the row is wider than one column |
| Scanlines.UnpackedScanline.AddCell | src/agg_port.cpp:1997-2010 | stores the covers at the pixel's place and extends or starts a span |
| Scanlines.UnpackedScanline.AddSpan | src/agg_port.cpp:2011-2026 | fills the run's covers and extends or starts a span |
| Scanlines.UnpackedScanline.Feed | src/agg_port.cpp:1991-2026 | a row of operations in order is held whole |
| Scanlines.UnpackedScanline.StartSpan | src/agg_port.cpp:2056-2108 | a new span, for one cover or three a pixel |
| SubpixSweep.SubpixRow | src/agg_port.cpp:2732-2869 | the subpixel sweep gives every pixel the covers of its three columns by the stated rule, in strictly increasing order, and reaches it as a pixel or in a run as the rule says |
| SubpixSweep.SweepPixel | src/agg_port.cpp:2746-2860 | each turn consumes the cells of one pixel, each cell once, and cover3 is the prefix sum of all consumed |
| SubpixSweep.TakePixel | src/agg_port.cpp:2747-2827 | takes the cells of up to three columns with their areas and running covers |
| SubpixSweep.TouchedShows | src/agg_port.cpp:2829-2860 | a pixel given covers of its own has some that show, a skipped one none, and a run's pixel one cover three times |
| SubpixSweep.ThirdsIff | src/agg_port.cpp:2829-2860 | in any row that closes, a pixel's three covers are the alphas a plain sweep gives its three columns if and only if each column without area has the cover the code takes it for |
| SubpixSweep.EmptyAgrees | src/agg_port.cpp:2855-2860 | they are wherever no cell lies in the pixel |
| Dda2.Dda2LineInterpolator.constructor | src/agg_port.cpp:3235-3248 | for a count of at least 1 the account holds from the start, of the wrapped difference of any two ends; otherwise what the fields are |
| Dda2.Dda2LineInterpolator.Next | src/agg_port.cpp:3251-3259 | each step gives the closed form of the height as it would be unwrapped, moves one way and ends at the last step |
| Dda2.Interpolate | src/agg_port.cpp:3235-3259 | for any two ints the run starts at y1, has a closed form, and ends on y2 if and only if the count is at least 1; its direction is as TowardIff says |
| Dda2.TowardIff | src/agg_port.cpp:3235-3259 | the stored heights all go towards y2 if and only if the difference fits an int, there is one step only, or the ends are the two extremes |
| Dda2.StepAccounts | src/agg_port.cpp:3251-3259 | count * (y - y1) stays k * (y2 - y1) plus the initial mod less the current mod, with mod in (-count, 0] |
| Dda2.ClosedForm | src/agg_port.cpp:3251-3259 | the account fixes the height after k steps |
| Strokers.VertexSequence.Measure | src/agg_port.cpp:694-702 | measures the distance to another vertex, with the sentinel when too near |
| Strokers.VertexSequence.Add | src/agg_port.cpp:718-725 | drops the last vertex if too near its neighbour; all pairs before it stay apart with their true distances |
| Strokers.VertexSequence.Close | src/agg_port.cpp:735-751 | leaves every adjacent pair apart with the true distance stored, around the end as well on a ring |
| Strokers.TailClosedIs | src/agg_port.cpp:735-743 | ending a path keeps its last vertex after the longest beginning that ends apart from it |
| Strokers.LoopClosed | src/agg_port.cpp:744-750 | closing a ring drops exactly the vertices at the end that are near its first |
| Strokers.ThinIsThin | src/agg_port.cpp:718-751 | neighbouring vertices of those stroked are apart, all are from the path, and an open path keeps its last |
| Strokers.ThinKeeps | src/agg_port.cpp:718-751 | a path whose vertices are apart loses none |
| Strokers.VcgenStroke.AddVertex | src/agg_port.cpp:1006-1017 | collects a path's vertices and its close flag |
| Strokers.VcgenStroke.Rewind | src/agg_port.cpp:1019-1031 | finishes the collected vertices; fewer than three are never a ring |
| Strokers.VcgenStroke.JoinAt | src/agg_port.cpp:1087-1122 | every join is computed with the true lengths of the segments that meet at the vertex |
| Strokers.VcgenStroke.NextVertex | src/agg_port.cpp:1033-1147 | each call hands out the next command of the outline, and stop when nothing is left; the inner loop terminates |
| Strokers.Accumulate | src/agg_port.cpp:2445-2476 | collects one subpath into the generator: the outline to come is that subpath's |
| Strokers.Generate | src/agg_port.cpp:2477-2489 | hands out the whole outline and terminates, one command less to come each turn |
| Strokers.ConvStroke | src/agg_port.cpp:2422-2490 | the output is the outlines of the path's subpaths in order; the whole conversion terminates |
| Strokers.StrokesLegal | src/agg_port.cpp:2422-2490 | whatever the input commands, the output follows (move_to line_to* end_poly|close)* |
| Strokers.SubpathContours | src/agg_port.cpp:1033-1147 | a ring of at least three distinct vertices gives two contours, counterclockwise then clockwise; any other path of two gives one; less gives none |
| Strokers.StrokesOfPath | src/agg_port.cpp:2422-2490 | stroking a stored path strokes each of its subpaths on its own, in order |
| StrokeSides.WayBackIs | src/agg_port.cpp:1066-1122 | where distances are symmetric, as the code's are, going back along a path, cap, joins and lengths, is going out along the path reversed |
| StrokeSides.OpenReversed | src/agg_port.cpp:1033-1122 | an open path and its reverse have one contour, begun at either cap |
| StrokeSides.RingReversed | src/agg_port.cpp:1087-1122 | the inner contour of a ring is the outer one of the ring reversed |
| PixelFormats.CoverZero | src/painter.cpp:483-582 | a pixel with cover 0 stays as it is, in every drawing mode |
| PixelFormats.StaysOpaque | src/painter.cpp:483-582 | whatever is blended, the pixel's alpha byte stays 255 |
| PixelFormats.RunStaysOpaque | src/painter.cpp:610-853 | so it does in a horizontal line, in every mode, the fast loop of B_OP_ALPHA included |
| PixelFormats.ThirdsStayOpaque | src/painter.cpp:855-980 | and under three covers a pixel |
| PixelFormats.EqualThirds | src/painter.cpp:483-582 | exactly when three equal covers of any size blend a pixel as that one cover does, in every mode. Outside B_OP_ALPHA: always when partly covered; uncovered, unless a pattern is copied onto another colour than its low one; fully covered, if no channel has to rise. In it: for Porter-Duff formats, which three covers leave alone, if the one cover moves no channel; where both blend one colour, unless the alpha is full and a channel has to rise or, when not composing, to fall by more than 128; else if each channel moves as far towards either colour |
| PixelFormats.AlphaThirdsDiffer | src/painter.cpp:855-980 | overlaying black on white with three full covers leaves 1 in every channel |
| PixelFormats.FullThirdsDiffer | src/painter.cpp:211-220 | fully covered they need not: copying white onto black falls one short in every channel |
| PixelFormats.NoThirdsDiffer | src/painter.cpp:855-980 | nor uncovered: three zero covers of a copied pattern write its low colour |
| PixelFormats.UniformAgrees | src/painter.cpp:610-853 | each pixel of a horizontal line becomes what blend_pixel makes of it, in every mode but some of B_OP_ALPHA |
| PixelFormats.CopyBetween | src/painter.cpp:198-208 | copying moves each channel towards the colour without wrapping, and all the way when fully covered |
| PixelFormats.AlphaBetween | src/painter.cpp:561-576 | overlaying moves each channel towards the colour without wrapping |
| PixelFormats.LineNoBrighter | src/painter.cpp:309-324 | the fast loop's bytes do not wrap and never exceed both the canvas and the colour |
| PixelFormats.InvertTwice | src/painter.cpp:534-542 | inverting twice restores every pixel if and only if it is uncovered or fully covered, or the pattern is low there |
| PixelFormats.SelectTwice | src/painter.cpp:543-554 | selecting twice restores every pixel if and only if it is uncovered or fully covered, the pattern is low there, or the two colours look the same |
| PixelFormats.AddThenSubtract | src/painter.cpp:348-357 | fully covered, subtracting what was added restores the pixel if and only if no channel was full |
| PixelFormats.MinNeverBrightens | src/painter.cpp:363-366 | B_OP_MIN never brightens a pixel, however it is covered |
| PixelFormats.MaxDarkens | src/painter.cpp:367-370 | B_OP_MAX darkens a pixel by at most one step, and exactly when a partly covering brighter colour loses more to rounding than its weight and the pixel's brightness in hand make up for |
| PixelFormats.MaxDarkensGrey | src/painter.cpp:367-370 | it does: grey 100 under cover 1 of a brighter cyan becomes 99 |
| PixelFormats.BlendBetween | src/painter.cpp:358-362 | B_OP_BLEND leaves each channel between the canvas's and the pattern's, however it is covered |
| PixelFormats.BrightnessMonotone | src/painter.cpp:302-307 | the brightness weights keep the order of colours and do not wrap |
| PixelFormats.RunsIff | src/painter.cpp:610-853 | exactly the modes and patterns in which blend_hline is blend_pixel per pixel, for every colour, place, cover and length |
| PixelFormats.SolidRunsDiffer | src/painter.cpp:742-759 | a long run under a solid source in B_OP_ALPHA darkens what it does not cover |
| PixelFormats.PatternRunsDiffer | src/painter.cpp:825-841 | a patterned run in B_OP_ALPHA is drawn opaque where alpha times cover is 255 |
| PixelRules.PartlyCovered | src/painter.cpp:483-582 | outside B_OP_ALPHA a partial cover moves each channel that many 256ths of the way, rounded down, to what a full one makes of it, from the pixel or from a copied pattern's low colour |
| PixelRules.AlphaCovered | src/painter.cpp:561-576 | in B_OP_ALPHA each channel moves alpha times cover 65536ths of the way to the colour, or when composing that over 255 in 256ths; a full product assigns the colour |
| PixelRules.CopyOverErase | src/painter.cpp:483-533 | under full cover a pattern copied draws both its colours, B_OP_OVER only the high ones, B_OP_ERASE the low colour in their place |
| PixelRules.SolidDraws | src/painter.cpp:483-524 | a solid pattern draws the caller's colour, but B_OP_OVER nothing with a low one |
| PixelRules.InvertSelect | src/painter.cpp:534-554 | under full cover inverting makes each channel its complement and selecting swaps the pattern's two colours, both where the pattern is high only |
| PixelRules.ArithmeticFull | src/painter.cpp:348-362 | under full cover adding raises a channel as far as there is room, subtracting lowers it as far as there is something left, blending takes the mean rounded down |
| PixelRules.PatternByte | src/painter.cpp:166-171 | a row of the pattern is eight pixels read as a binary number, the leftmost highest, begun at the offsets and repeated every eight |
| PixelRules.ThirdsByChannel | src/painter.cpp:855-980 | outside B_OP_ALPHA the left cover moves red, the middle one green, the right one blue: each channel is what blend_pixel makes of it under its own cover, exactly when that cover is partial, or none and the base is the pixel, or full and the channel need not rise |
| PixelRules.AlphaByChannel | src/painter.cpp:855-980 | in B_OP_ALPHA the left cover moves blue and the right one red |
| PixelRules.RightEdge | src/painter.cpp:855-980 | black on white under covers 255, 128, 0 loses its red, and in B_OP_ALPHA its blue |
| PixelRules.LineShares | src/painter.cpp:309-324 | the fast loop weighs each channel of the canvas and of the colour by itself and loses less than two |
| PixelRules.SolidRuns | src/painter.cpp:742-853 | a run of a solid colour in B_OP_ALPHA is its pixels if it is shorter than four or its alpha is full, and goes through the fast loop otherwise |
| PixelRules.PatternedRuns | src/painter.cpp:742-853 | a run of a pattern is its pixels, unless neither composing nor under a constant alpha: then 255 of 65025 is taken for full, and a full one is blended |
| Painters.PixelFormat.BlendAt | src/painter.cpp:483-582 | blends one pixel and no other |
| Painters.PixelFormat.BlendSolidHspan | src/painter.cpp:599-608 | blends each covered pixel of the span once with its own cover, skipping zeros |
| Painters.PixelFormat.BlendHline | src/painter.cpp:610-853 | every pixel of the line and no other gets the line's effect |
| Painters.ClipRegion | src/painter.cpp:137-154 | the boxes cover exactly the canvas pixels of the state's rectangles, are non-empty and on the canvas, and stay disjoint |
| Painters.RendererRegion.BlendHline | src/painter.cpp:1121-1132 | the line is cut against every box in turn |
| Painters.RendererRegion.BlendSolidHspan | src/painter.cpp:1135-1157 | the span is cut against every box, covers staying with their pixels |
| Painters.PixelFormat.BlendThirdsHspan | src/painter.cpp:855-980 | each pixel of the span and no other is blended once by its own three covers |
| Painters.RendererRegion.BlendThirdsHspan | src/painter.cpp:1159-1181 | the span of three covers a pixel is cut against every box, covers staying with their pixels |
| Painters.RendererRegion.CutThirds | src/painter.cpp:1166-1178 | what is left of such a span in a box's columns is whole pixels, and nothing exactly when it lies beside the box |
| Painters.EffectsOnce | src/painter.cpp:1113-1181 | with disjoint boxes a run of any kind blends each pixel of the region it reaches exactly once by what it has there |
| Painters.LevelIsFlat | src/painter.cpp:610-853 | under the formats of PixelFormats.RunsIff a pixel of a line is blended as on its own |
| Painters.SpanRenderer.Render | src/painter.cpp:1220-1258 | a row's spans are rendered one after another, solid ones as lines, for one cover a pixel or three |
| Painters.RowOnce | src/painter.cpp:1220-1258 | a row's spans blend each pixel of the region once by the shade the row gives it |
| Painters.PaintOnce | src/painter.cpp:1220-1258 | so do all rows of a picture; pixels outside the region are untouched |
| Painters.SpanRenderer.PaintPacked | src/agg_port.cpp:2925-2942 | rasterising and rendering packed: each pixel of the region is blended once by the closed path's shade there, all others keep their value, and the canvas stays opaque |
| Painters.SpanRenderer.PaintUnpacked | src/agg_port.cpp:2944-2961 | the same unpacked, under every format, since no runs are kept |
| Painters.RegionFrame | src/painter.cpp:113-124 | the loop finds the box around the region's boxes |
| Painters.FrameBoxIs | src/painter.cpp:113-124 | that box holds them all, and each of its sides is one of theirs |
| Painters.CanvasRenders | src/painter.cpp:2266-2338 | on a canvas up to 5461 pixels wide every filled shape can be rendered: no line is drawn twice and every row fits |
| Painters.RegionThirds | src/painter.cpp:2326-2338 | of any path filled in a region, unless dropped cells add up to something: exactly the pixels whose thirds agree have the alphas of what the lines contribute to their three columns |
| Painters.FillPath | src/painter.cpp:2326-2338 | end to end, every solid shape, as a function of the region and the path alone: clipped to the region's frame, by thirds of a pixel under the linear gamma table, each pixel of the region is blended once by what the sweep makes of the stored cells of the closed path's lines, in a run whose ends they fix, under any format and any cutting of the region; where that is the three alphas is said by RegionThirds |
| Painters.LostOnCanvas | src/painter.cpp:2326-2338 | filling the stripe of LostThird on a canvas two pixels wide leaves pixel (0, 0) as it was |
| Painters.FillTextPath | src/painter.cpp:3557-3597 | end to end, greyscale text, as a function of the path alone: on a rasteriser without a clip box, antialiased or not, each pixel is blended once by the closed path's sweep there, which is its alpha unless dropped cells add up to something, exactly unless the picture is one column wide and shows something |
| Painters.FillTextThirds | src/painter.cpp:3573-3587 | end to end, subpixel text: as FillPath, through the unpacked container |
| JsonRoundTrip.DocumentRoundTrip | src/json.cpp:40-148 | parse(serialize(v, pretty)) is v, to the last byte, for every tree whose numbers are integers below 1e15 and both layouts |
| JsonRoundTrip.ValueRoundTrip | src/json.cpp:212-232 | a printed value reads back before any text that does not continue a number |
| JsonRoundTrip.StringRoundTrip | src/json.cpp:40-64 | every byte string reads back, control characters through their escapes (section 7 of RFC 8259) |
| JsonRoundTrip.NumberRoundTrip | src/json.cpp:67-84 | printed integers read back |
| JsonRoundTrip.HugeExponent | src/json.cpp:278-287 | any digit but zero with an exponent of 342 or more is past the greatest double |
| JsonRoundTrip.HugeRefused | src/json.cpp:278-287 | such a token is malformed, as std::stod refuses it |
| JsonRoundTrip.TinyAsked | src/json.cpp:278-287 | a token too small for a normal double, 1e-999, is malformed if and only if the C library refuses it |
| JsonUnicode.EscapedReads | src/json.cpp:329-388 | every character written by its code, as one unit or a surrogate pair, reads back as its UTF-8 (section 7 of RFC 8259, section 3 of RFC 3629) |
| JsonUnicode.Utf8Iff | src/json.cpp:349-366 | the bytes appended for a code are well-formed UTF-8 for it, unless it is half of a surrogate pair: then they are malformed |
| JsonUnicode.LoneLowSurrogate | src/json.cpp:368-388 | a low surrogate that stands alone is taken, and what it appends is malformed |
| JsonUnicode.UnicodeIff | src/json.cpp:368-388 | an escape that is read, in digits of either case, appends well-formed UTF-8 if and only if its first unit is no low surrogate |
| JsonUnicode.LoneHighSurrogate | src/json.cpp:368-388 | a high surrogate is refused unless an escape follows |
| JsonRules.HexIff | src/json.cpp:329-347 | a character is hex digit n if and only if it is n's digit of either case |
| JsonRules.NoHexIff | src/json.cpp:329-347 | and none if and only if it is no digit's |
| JsonRules.EscapesIff | src/json.cpp:292-327 | a backslash and one of eight letters stand for the letter's character, the slash among them; any other letter but u is refused (section 7 of RFC 8259) |
| JsonRules.TrailingIff | src/json.cpp:154-172 | a value, space before it or not, is a document if and only if nothing but space follows; else it is refused where the rest begins |
| JsonRules.PrintedClean | src/json.cpp:40-64 | no control character is printed raw in a string |
| JsonParser.AppendEscaped | src/json.cpp:40-65 | the escapes of a string go to the end of the buffer |
| JsonParser.SerializeInto | src/json.cpp:86-148 | a value's text goes to the end of the shared buffer |
| JsonParser.Parser.SkipWhitespace | src/json.cpp:181-190 | moves past white space only |
| JsonParser.Parser.ReadNumber | src/json.cpp:264-290 | reads as the grammar does, error and position included; a magnitude that rounds past the greatest double is malformed, and one below the least normal double if the C library says so |
| JsonParser.Parser.ReadHex4 | src/json.cpp:329-366 | reads four hex digits of either case |
| JsonParser.Parser.ReadUnicodeEscape | src/json.cpp:368-388 | reads a code unit, pairs of surrogates included, as the grammar does |
| JsonParser.Parser.ReadString | src/json.cpp:292-327 | reads a quoted string or stops at the first error |
| JsonParser.Parser.ReadValue | src/json.cpp:212-232 | reads a value as the grammar does, leaving the same rest |
| JsonParser.Parser.ReadArray | src/json.cpp:390-416 | the loop reads what the recursive grammar reads |
| JsonParser.Parser.ReadObject | src/json.cpp:418-454 | the loop reads what the recursive grammar reads |
| JsonParser.Parse | src/json.cpp:458-462 | the class's answer, error text and position are those of the grammar on the whole text |
| JsonParser.PrintAndParse | src/json.cpp:458-473 | printing and parsing with the code's own loops gives the value back |
| CommandLines.QuoteWindowsArg | src/managed_transport.cpp:1078-1110 | the loop quotes as the recursive definition does |
| CommandLines.BuildCommandLine | src/managed_transport.cpp:1112-1121 | joins the quoted arguments with blanks |
| CommandLines.ArgumentsRoundTrip | src/managed_transport.cpp:1075-1121 | splitting by the CommandLineToArgvW rules gives back every argument after the program, whatever quotes and backslashes it holds, under any reading of doubled quotes |
| CommandLines.CommandLineRoundTrip | src/managed_transport.cpp:1075-1121 | the program name comes back too if and only if it has no quote and does not both need quoting and end in a backslash |
| CommandLines.ArgReads | src/managed_transport.cpp:1078-1110 | one quoted argument reads back before whatever ends it |
| Base64.DecodeBase64 | src/font_fetch.cpp:53-90 | the 32-bit shift buffer decodes what the bit-exact definition does, or rejects with it |
| Base64.ShiftKeeps | src/font_fetch.cpp:66-80 | the bits pushed out of the 32 are never ones that still matter |
| Base64.DecodeRoundTrip | src/font_fetch.cpp:53-90 | base64 wrapped anywhere decodes to its bytes if and only if they fit the limit (section 4 of RFC 4648) |
| Base64.DecodesIff | src/font_fetch.cpp:53-90 | a text is accepted if and only if, line breaks aside, it is letters of the alphabet and at most two padding signs after them, in whole groups of four, of no more bytes than the limit; so many are decoded |
| Base64.TestVectors | src/font_fetch.cpp:53-90 | the alphabet and the padding are those of RFC 4648, by vectors of its section 10 and one with both signs |
| FontFetch.TakeLine | src/font_fetch.cpp:92-100 | takes a line and drops one carriage return |
| FontFetch.ReadSize | src/font_fetch.cpp:102-113 | reads up to nineteen digits and nothing else |
| FontFetch.ParseFontFetchStream | src/font_fetch.cpp:243-325 | the loop's files, problems and recognition are those of the frame grammar |
| FontFetch.StreamWithinCaps | src/font_fetch.cpp:243-325 | on any input the kept files respect the count, per-file and total caps |
| FontFetch.StreamRead | src/font_fetch.cpp:222-325 | for every list of replies the command can print, each file sent is kept in order exactly while the caps admit it, and every other reply is noted with its reason |
| FontFetch.StreamRoundTrip | src/font_fetch.cpp:222-325 | the frames of the fetch command, base64 wrapped anywhere, read back as exactly those files in order |
| FontFetch.PathRoundTrip | src/font_fetch.cpp:243-325 | a file within the caps comes back as sent if and only if its path has no newline and does not end in a carriage return |
| StderrLines.LinesAppend | src/managed_transport.cpp:163-193 | splitting a text is splitting its beginning, then what that left with the rest |
| StderrLines.LineFeeder.FeedLines | src/managed_transport.cpp:163-182 | delivers the finished lines and keeps the rest |
| StderrLines.LineFeeder.FlushLines | src/managed_transport.cpp:184-193 | delivers an unfinished last line as it is |
| StderrLines.FeedChunks | src/managed_transport.cpp:163-193 | every way of cutting a stream into chunks delivers the lines of the whole |
| StderrLines.ForwardReadinessScanner.Feed | src/managed_transport.cpp:2349-2366 | one line moves the scanner as the state machine does |
| StderrLines.ScanMeaning | src/managed_transport.cpp:2342-2366 | when the scanner is ready, failed or pending, said of the lines and not of its fields |
| StderrLines.ForwardReadiness | src/managed_transport.cpp:2368-2385 | one pass over the text ends where scanning its lines does |
| StderrLines.TunnelReader.Feed | src/managed_transport.cpp:2426-2457 | delivers finished lines, and an unfinished one only when the stream has ended |
| StderrLines.FeedTunnel | src/managed_transport.cpp:2426-2457 | however ssh's stderr is cut, the last piece read as the stream closes, the lines and the scanner's end are those of one pass over the whole text |
| StderrLines.FlushedIffFinished | src/managed_transport.cpp:184-193 | flush_lines and the tunnel's reader deliver the same lines if and only if the text does not end in a carriage return |
| StderrLines.BoundedTranscript.Append | src/managed_transport.cpp:325-334 | the transcript is the last-capacity suffix of everything appended, and dropped counts the rest |
| ConnectFlows.ConnectFlow.constructor | src/connect_flow.cpp:839-859 | the stages of all routes in order, none active |
| ConnectFlows.EnteredRuns | src/connect_flow.cpp:888-903 | entering a stage no earlier than the active one leaves it the only active stage |
| ConnectFlows.StepFailedRests | src/connect_flow.cpp:948-975 | a failed route has no active stage |
| ConnectFlows.StepFailedShows | src/connect_flow.cpp:948-975 | every stage of a failed route is settled, one says that it failed and no more than one anew, and other routes' stages stay |
| ConnectFlows.RouteStagesRise | src/connect_flow.cpp:268-291 | a route's stages are listed in the order they run, the display request last |
| ConnectFlows.ConnectFlow.Enter | src/connect_flow.cpp:888-903 | the stages before it in its route are done, it is active, the others are as they were |
| ConnectFlows.ConnectFlow.AddStage | src/connect_flow.cpp:905-925 | a stage the plan did not know goes after the route's last, once |
| ConnectFlows.ConnectFlow.FailStep | src/connect_flow.cpp:948-975 | the active stage failed, pending ones are skipped; with none active the first is marked |
| ConnectFlows.ConnectFlow.Finish | src/connect_flow.cpp:977-982 | the active stage is done and none is active |
| ConnectFlows.ConnectFlow.Fail | src/connect_flow.cpp:984-990 | the active stage failed and none is active |
| ConnectFlows.ConnectFlow.BeginDisconnect | src/connect_flow.cpp:992-1001 | what was active or pending is skipped and none is active |
| Routes.OpenConnection | src/managed_transport.cpp:2582-2764 | routes begin in turn from the first; it ends with one substrate up, every route failed, or a cancel seen; the broker is asked at most once, and comes up over QUIC only where it last said it offers that |
| Routes.TryBroker | src/managed_transport.cpp:2630-2664 | the route is up if and only if the broker answered and, over QUIC, said it offers that; the answer is asked for once, and a failed fetch is remembered unless a cancel was seen |
| Routes.TryTunnel | src/managed_transport.cpp:2713-2745 | a cookie is fetched if and only if the route has none; all its stages up to the forward are entered when it is up, and the failing one is marked |
| Routes.TryTransport | src/connect_flow.cpp:1458-1504 | a route that is up falls back only if it is a broker with a route after it, no cancel was seen and trust was not at stake |
| Routes.ConnectImpl | src/connect_flow.cpp:1342-1618 | in every run the events are orderly, every repaint shows at most one active stage, and the attempt ends settled with none active: online, cancelled, or given up because every route failed, trust was refused, the last usable transport failed or the server did not answer; only stages shown for a route are entered, and all but the display request were when it succeeds |
| Routes.RunAsync | src/connect_flow.cpp:1735-1792 | a cancel that meets a success wins, and a cancelled attempt ends idle |
| Routes.BeginsIncrease | src/managed_transport.cpp:2620-2630 | in an orderly run, routes begin in strictly increasing order, each at most once |
| Routes.BeginsAll | src/managed_transport.cpp:2620-2630 | no route is passed over |
| Routes.NothingBegins | src/connect_flow.cpp:1396-1513 | nothing begins after a cancel was seen, a certificate was turned down, or a transport was connected |
| Routes.BeginsAfterSubstrate | src/connect_flow.cpp:1420-1446 | after a substrate came up another route begins only if that route was a broker and was given up |
| Routes.QuicHeard | src/managed_transport.cpp:2652-2664 | wherever a broker came up over QUIC, the broker had said before that it offers QUIC and nothing else since |

## Left out

- LineClippers.MulDiv: models `mul_div` as an exact quotient rounded half away from zero; the code divides in double precision.
- Cells.LineCells: the covers and areas accumulated on wide lines, and the abscissas there, are unbounded integers; below `dx_limit` `Cells.NarrowProducts` and `Cells.LineCellsFit` show nothing wraps.
- Rasterizers.Rasterizer.AddPath: coordinates are the integers `upscale` returns, already clamped and, for thirds of a pixel, tripled; an edge drawn after a clip box was set and before any move, from a point whose flags were not recomputed, is not modelled. `auto_close`, which the code never clears, is always on.
- Rasterizers.Rasterizer.RenderPacked: needs a picture none of whose lines is drawn twice, whose columns fit 16 bits (three times their number too, for thirds), and for thirds none left of column 0, where the code's division by 3 is no floor.
- Rasterizers.Rasterizer.RenderUnpacked: the same; of a rendering that writes past the buffer only that it does is stated.
- Scanlines.PackedScanline.Feed: columns must fit 16 bits and three times their number too, as the stored spans' fields do.
- SubpixSweep.SubpixRow: needs columns at or right of 0, where the code's division by 3 is a floor.
- CellSort.SortByX: an insertion sort stands for the library's sort.
- Dda2.Interpolate: the quotient is an unbounded integer; for ends whose wrapped difference is the smallest int, over one step or a count below one, the code's own `lft_--` overflows.
- Strokers.ConvStroke: the distance, the caps and the joins are parameters, the joins and caps non-empty as the code's are; distances are real numbers without NaN.
- PixelFormats.BlendPixel: the canvas is a grid of pixels, not bytes; gradients (`blend_color_hspan`) and the Porter-Duff functions are not part of this model.
- PixelFormats.ThirdsPixel: the subpixel order is RGB, as every caller in the client has it; whether a span wrote anything is not returned.
- PixelFormats.HlinePixel: the arms' separate do-while loops are one loop over the chosen arm.
- Painters.SpanRenderer.PaintPacked: on one cover a pixel, which the program never renders packed, needs a format of PixelFormats.RunsIff.
- Painters.FillPath: on a canvas wider than 5461 pixels (CanvasRenders), only paths none of whose clipped lines is drawn twice. The transforms before it and the gradient arm are left out.
- Painters.FillTextThirds: paths as for FillPath.
- Painters.FillTextPath: the colours' pattern and the state are given as a format; when the region is empty the code returns before it rasterises, where the model rasterises and paints nothing.
- Painters.RendererRegion.BlendSolidHspan: the span is not empty; on an empty one the code's loop would not end.
- Painters.RendererRegion.BlendThirdsHspan: the span is not empty and whole pixels long, as the containers' are.
- JsonParsing.ReadDouble: numbers are integers below 1e15 in magnitude; fractions, exponents and larger numbers are recognised as tokens and kept unevaluated, but for being in range; whether a non-zero number below the least normal double is refused is asked of the C library, a parameter.
- FontFetch.StreamRoundTrip: the caps' sums fit 64 bits and a file is smaller than 10^19 bytes, as its announced length must be.
- Routes.ConnectImpl: exceptions, messages, logs and the classification of failures are not modelled; ssh, the transport, the handshake and the fonts are answers that may be anything.
- Routes.OpenConnection: the plan is any list of routes; building it from a profile is left out.
- Curve flattening, arcs, join and cap geometry, gamma tables, gradients, affine transforms: floating point.
- Process spawning, sockets, TLS, signals, files and the user interface: calls into the system.
- Error titles and remedies, launch-argument checks, reconnect timing: flat tables.
