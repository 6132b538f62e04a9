/** The subpixel sweep: cells a third of a pixel wide, three covers a pixel.
    Its rules differ from three plain sweeps side by side, and are stated here
    as the code has them, pixel by pixel. */
module SubpixSweep {
  import opened CArith
  import opened Cells
  import opened CellSort
  import opened ScanlineOps
  import opened Sweep

  /** Areas and running covers of a pixel's three columns. */
  datatype Thirds = Thirds(area1: int, area2: int, area3: int, cover1: int, cover2: int, cover3: int)

  function EdgeAlpha(g: seq<nat>, cover: int, area: int): nat
    requires IsGamma(g)
  {
    if area != 0 then Alpha(g, Shifted(cover) - area) else 0
  }

  /** Some column of the pixel has an edge that shows. */
  predicate Shows(g: seq<nat>, t: Thirds)
    requires IsGamma(g)
  {
    EdgeAlpha(g, t.cover1, t.area1) != 0 || EdgeAlpha(g, t.cover2, t.area2) != 0 || EdgeAlpha(g, t.cover3, t.area3) != 0
  }

  /** The covers of a pixel with an edge: each column with area has its own; one
      without takes the cover left of the next edge, or right of the last one
      when the row goes on. */
  function PixelCovers(g: seq<nat>, t: Thirds, more: bool): (cs: seq<nat>)
    requires IsGamma(g)
    ensures |cs| == 3 && forall i :: 0 <= i < 3 ==> cs[i] < 256
  {
    var flat1, flat2 := Alpha(g, Shifted(t.cover1)), Alpha(g, Shifted(t.cover2));
    [ if t.area1 != 0 then EdgeAlpha(g, t.cover1, t.area1)
      else if t.area2 != 0 || t.area3 != 0 then flat1 else 0,
      if t.area2 != 0 then EdgeAlpha(g, t.cover2, t.area2)
      else if t.area1 != 0 then (if t.area3 != 0 || more then flat1 else 0)
      else if t.area3 != 0 then flat1 else 0,
      if t.area3 != 0 then EdgeAlpha(g, t.cover3, t.area3)
      else if t.area2 != 0 then (if more then flat2 else 0)
      else if t.area1 != 0 then (if more then flat1 else 0) else 0 ]
  }

  /** The three columns of pixel q. */
  ghost function ThirdsAt(s: seq<Cell>, y: int, q: int): Thirds {
    var c := 3 * q;
    Thirds(AreaAt(s, c, y), AreaAt(s, c + 1, y), AreaAt(s, c + 2, y),
           Left(s, c, y), Left(s, c + 1, y), Left(s, c + 2, y))
  }

  /** The row goes on past pixel q. */
  ghost predicate More(s: seq<Cell>, y: int, q: int) {
    HasFrom(s, y, 3 * q + 3)
  }

  /** Some cell of row y lies in pixel q. */
  ghost predicate Occupied(s: seq<Cell>, y: int, q: int) {
    Has(s, y, 3 * q) || Has(s, y, 3 * q + 1) || Has(s, y, 3 * q + 2)
  }

  /** A pixel where no edge shows joins the run that follows when the next cell is at
      least three columns right of the pixel's first; one without cells, when it lies
      between cells. */
  ghost predicate Joins(s: seq<Cell>, y: int, q: int) {
    && More(s, y, q)
    && if Has(s, y, 3 * q) then true
       else if Has(s, y, 3 * q + 1) then !Has(s, y, 3 * q + 3)
       else if Has(s, y, 3 * q + 2) then !Has(s, y, 3 * q + 3) && !Has(s, y, 3 * q + 4)
       else HasUpTo(s, y, 3 * q - 1)
  }

  /** The covers the subpixel sweep gives pixel q of row y: the rule for edges where one
      shows; elsewhere the running cover, if the pixel joins a run. */
  ghost function SubpixAt(g: seq<nat>, s: seq<Cell>, y: int, q: int): (cs: seq<nat>)
    requires IsGamma(g)
    ensures |cs| == 3 && forall i :: 0 <= i < 3 ==> cs[i] < 256
  {
    var t := ThirdsAt(s, y, q);
    if Shows(g, t) then PixelCovers(g, t, More(s, y, q))
    else if Joins(s, y, q) then Repeat(3, Alpha(g, Shifted(t.cover3)))
    else Clear(3)
  }

  /** How the subpixel sweep reaches pixel q: with the pixel's own covers where an
      edge shows, in a run of one cover where it joins one. */
  ghost function SubpixTouch(g: seq<nat>, s: seq<Cell>, y: int, q: int): Touch
    requires IsGamma(g)
  {
    if Shows(g, ThirdsAt(s, y, q)) then Own else if Joins(s, y, q) then Shared else Skipped
  }

  lemma SameSubpix(g: seq<nat>, s: seq<Cell>, t: seq<Cell>, y: int, q: int)
    requires IsGamma(g) && SameRow(s, t, y)
    ensures SubpixAt(g, s, y, q) == SubpixAt(g, t, y, q) && SubpixTouch(g, s, y, q) == SubpixTouch(g, t, y, q)
  {
    SameThirds(s, t, y, q);
    SameJoins(s, t, y, q);
    hide ThirdsAt, Joins, More, PixelCovers, Shows, Shifted, Alpha;
  }

  lemma SameThirds(s: seq<Cell>, t: seq<Cell>, y: int, q: int)
    requires SameRow(s, t, y)
    ensures ThirdsAt(s, y, q) == ThirdsAt(t, y, q)
  {
    hide Left, AreaAt, RowCover;
    assert Left(s, 3 * q, y) == Left(t, 3 * q, y);
    assert Left(s, 3 * q + 1, y) == Left(t, 3 * q + 1, y);
    assert Left(s, 3 * q + 2, y) == Left(t, 3 * q + 2, y);
  }

  lemma SameJoins(s: seq<Cell>, t: seq<Cell>, y: int, q: int)
    requires SameRow(s, t, y)
    ensures More(s, y, q) == More(t, y, q) && Joins(s, y, q) == Joins(t, y, q) && Occupied(s, y, q) == Occupied(t, y, q)
  {
    hide SameRow, Has, HasFrom, HasUpTo;
    SameHas(s, t, y, 3 * q - 1);
    SameHas(s, t, y, 3 * q);
    SameHas(s, t, y, 3 * q + 1);
    SameHas(s, t, y, 3 * q + 2);
    SameHas(s, t, y, 3 * q + 3);
    SameHas(s, t, y, 3 * q + 4);
  }

  /** A pixel with covers of its own has some that show; one that is skipped, none. */
  lemma TouchedShows(g: seq<nat>, s: seq<Cell>, y: int, q: int)
    requires IsGamma(g)
    ensures SubpixTouch(g, s, y, q) == Own ==> SubpixAt(g, s, y, q) != Clear(3)
    ensures SubpixTouch(g, s, y, q) == Skipped ==> SubpixAt(g, s, y, q) == Clear(3)
    ensures SubpixTouch(g, s, y, q) == Shared ==> exists alpha: nat :: alpha < 256 && SubpixAt(g, s, y, q) == Repeat(3, alpha)
  {
    hide Alpha, Shifted, ThirdsAt, More, Joins;
    var t := ThirdsAt(s, y, q);
    if SubpixTouch(g, s, y, q) == Own {
      var cs := PixelCovers(g, t, More(s, y, q));
      assert cs[0] != 0 || cs[1] != 0 || cs[2] != 0;
    } else if SubpixTouch(g, s, y, q) == Shared {
      var alpha := Alpha(g, Shifted(t.cover3));
      assert SubpixAt(g, s, y, q) == Repeat(3, alpha);
    }
  }

  // ----- runs of one cover

  /** Pixels q and q + 1 lie in one run. */
  ghost predicate SameRun(g: seq<nat>, s: seq<Cell>, y: int, q: int)
    requires IsGamma(g)
  {
    SubpixTouch(g, s, y, q) == Shared && SubpixTouch(g, s, y, q + 1) == Shared && SubpixAt(g, s, y, q) == SubpixAt(g, s, y, q + 1)
  }

  ghost function Rightmost(s: seq<Cell>): (x: int)
    ensures forall c <- s :: c.x <= x
  {
    if s == [] then 0
    else
      assert s == s[..|s| - 1] + [s[|s| - 1]];
      Max(Rightmost(s[..|s| - 1]), s[|s| - 1].x)
  }

  ghost function Leftmost(s: seq<Cell>): (x: int)
    ensures forall c <- s :: x <= c.x
  {
    if s == [] then 0
    else
      assert s == s[..|s| - 1] + [s[|s| - 1]];
      Min(Leftmost(s[..|s| - 1]), s[|s| - 1].x)
  }

  /** A pixel in a run has cells right of it, and cells in it or left of it. */
  lemma RunBetween(g: seq<nat>, s: seq<Cell>, y: int, q: int)
    requires IsGamma(g) && SubpixTouch(g, s, y, q) == Shared
    ensures Leftmost(s) <= 3 * q + 2 && 3 * q + 3 <= Rightmost(s)
  {
    hide Rightmost, Leftmost, Shows, ThirdsAt;
    var c :| c in s && c.y == y && c.x >= 3 * q + 3;
    if Has(s, y, 3 * q) {
      var d :| d in s && d.y == y && d.x == 3 * q;
    } else if Has(s, y, 3 * q + 1) {
      var d :| d in s && d.y == y && d.x == 3 * q + 1;
    } else if Has(s, y, 3 * q + 2) {
      var d :| d in s && d.y == y && d.x == 3 * q + 2;
    } else {
      var d :| d in s && d.y == y && d.x <= 3 * q - 1;
    }
  }

  /** The last pixel of the run pixel q lies in. */
  ghost function RunTo(g: seq<nat>, s: seq<Cell>, y: int, q: int): int
    requires IsGamma(g)
    decreases Rightmost(s) - 3 * q
  {
    if SameRun(g, s, y, q) then
      RunBetween(g, s, y, q);
      RunTo(g, s, y, q + 1)
    else q
  }

  /** The first. */
  ghost function RunFrom(g: seq<nat>, s: seq<Cell>, y: int, q: int): int
    requires IsGamma(g)
    decreases 3 * q - Leftmost(s)
  {
    if SameRun(g, s, y, q - 1) then
      RunBetween(g, s, y, q - 1);
      RunFrom(g, s, y, q - 1)
    else q
  }

  /** The pixels around q that share its run, no more and no less. */
  lemma RunIs(g: seq<nat>, s: seq<Cell>, y: int, q: int, first: int, last: int)
    requires IsGamma(g) && first <= q <= last && forall k :: first <= k < last ==> SameRun(g, s, y, k)
    requires !SameRun(g, s, y, first - 1) && !SameRun(g, s, y, last)
    ensures RunFrom(g, s, y, q) == first && RunTo(g, s, y, q) == last
  {
    RunToIs(g, s, y, q, last);
    RunFromIs(g, s, y, q, first);
  }

  lemma {:induction false} RunToIs(g: seq<nat>, s: seq<Cell>, y: int, q: int, last: int)
    requires IsGamma(g) && q <= last && (forall k :: q <= k < last ==> SameRun(g, s, y, k)) && !SameRun(g, s, y, last)
    ensures RunTo(g, s, y, q) == last
    decreases last - q
  {
    hide SameRun;
    if q < last {
      RunToIs(g, s, y, q + 1, last);
    }
  }

  lemma {:induction false} RunFromIs(g: seq<nat>, s: seq<Cell>, y: int, q: int, first: int)
    requires IsGamma(g) && first <= q && (forall k :: first <= k < q ==> SameRun(g, s, y, k)) && !SameRun(g, s, y, first - 1)
    ensures RunFrom(g, s, y, q) == first
    decreases q - first
  {
    hide SameRun;
    if first < q {
      RunFromIs(g, s, y, q - 1, first);
    }
  }

  // ----- taking the cells of one pixel

  /** The first k cells are those at or left of column c. */
  ghost predicate UpTo(s: seq<Cell>, k: nat, c: int) {
    k <= |s| && (k > 0 ==> s[k - 1].x <= c) && (k < |s| ==> c < s[k].x)
  }

  lemma ColumnSums(s: seq<Cell>, y: int, k: nat, c: int)
    requires SortedByX(s) && UpTo(s, k, c)
    ensures Left(s, c, y) == RowCover(s[..k], y) && AreaAt(s, c, y) == AreaAt(s[..k], c, y)
  {
    SumsAt(s, k, c, y);
  }

  lemma EmptyColumn(s: seq<Cell>, y: int, k: nat, c: int)
    requires SortedByX(s) && UpTo(s, k, c) && (k > 0 ==> s[k - 1].x < c)
    ensures Left(s, c, y) == RowCover(s[..k], y) && AreaAt(s, c, y) == 0
  {
    SumsAt(s, k, c, y);
    NoArea(s[..k], c, y);
  }

  /** The cells of column c, if it has any. */
  method TakeIf(s: seq<Cell>, ghost y: int, from: nat, coverIn: int, c: int) returns (area: int, cover: int, i: nat)
    requires SortedByX(s) && AllInRow(s, y) && UpTo(s, from, c - 1) && coverIn == RowCover(s[..from], y)
    ensures UpTo(s, i, c) && from <= i && area == AreaAt(s, c, y) && cover == Left(s, c, y) == RowCover(s[..i], y)
  {
    if from < |s| && s[from].x == c {
      var x;
      x, area, cover, i := TakeColumn(s, y, from, coverIn);
      ColumnSums(s, y, i, c);
    } else {
      area, cover, i := 0, coverIn, from;
      EmptyColumn(s, y, i, c);
    }
  }

  /** All the cells of the pixel the next cell lies in. */
  method TakePixel(s: seq<Cell>, ghost y: int, from: nat, lastCover: int) returns (t: Thirds, i: nat)
    requires SortedByX(s) && AllInRow(s, y) && from < |s| && s[from].x >= 0
    requires UpTo(s, from, 3 * (s[from].x / 3) - 1) && lastCover == RowCover(s[..from], y)
    ensures from < i && UpTo(s, i, 3 * (s[from].x / 3) + 2)
    ensures t == ThirdsAt(s, y, s[from].x / 3) && t.cover3 == RowCover(s[..i], y)
  {
    hide Left, AreaAt, RowCover;
    var x := s[from].x;
    var area, cover;
    x, area, cover, i := TakeColumn(s, y, from, lastCover);
    ColumnSums(s, y, i, x);
    var area2, cover2, area3, cover3;
    if x % 3 == 0 {
      area2, cover2, i := TakeIf(s, y, i, cover, x + 1);
      area3, cover3, i := TakeIf(s, y, i, cover2, x + 2);
      t := Thirds(area, area2, area3, cover, cover2, cover3);
    } else if x % 3 == 1 {
      EmptyColumn(s, y, from, x - 1);
      area3, cover3, i := TakeIf(s, y, i, cover, x + 1);
      t := Thirds(0, area, area3, lastCover, cover, cover3);
    } else {
      EmptyColumn(s, y, from, x - 2);
      EmptyColumn(s, y, from, x - 1);
      t := Thirds(0, 0, area, lastCover, lastCover, cover);
    }
  }

  // ----- the sweep

  ghost predicate AgreesSub(g: seq<nat>, ops: seq<Op>, s: seq<Cell>, y: int, lo: int, hi: int)
    requires IsGamma(g)
  {
    && lo <= hi && Ordered(3, ops, lo, hi)
    && forall q :: lo <= q < hi ==> OpsAt(3, ops, q) == SubpixAt(g, s, y, q) && TouchAt(ops, q) == SubpixTouch(g, s, y, q)
  }

  lemma AgreesSubPush(g: seq<nat>, ops: seq<Op>, op: Op, s: seq<Cell>, y: int, lo: int, hi: int)
    requires IsGamma(g) && AgreesSub(g, ops, s, y, lo, hi) && op.x == hi && WellFormed(3, op)
    requires forall q :: hi <= q < End(op) ==>
               SubpixAt(g, s, y, q) == Value(3, op) && SubpixTouch(g, s, y, q) == if op.AddCell? then Own else Shared
    ensures AgreesSub(g, ops + [op], s, y, lo, End(op))
  {
    hide SubpixAt, SubpixTouch;
    OrderedPush(3, ops, op, lo, hi, End(op));
    forall q | lo <= q < End(op)
      ensures OpsAt(3, ops + [op], q) == SubpixAt(g, s, y, q) && TouchAt(ops + [op], q) == SubpixTouch(g, s, y, q)
    {
      OpsAtPush(3, ops, op, q);
      TouchAtPush(ops, op, q);
    }
  }

  lemma AgreesSubSkip(g: seq<nat>, ops: seq<Op>, s: seq<Cell>, y: int, lo: int, hi: int, hi': int)
    requires IsGamma(g) && AgreesSub(g, ops, s, y, lo, hi) && hi <= hi'
    requires forall q :: hi <= q < hi' ==> SubpixAt(g, s, y, q) == Clear(3) && SubpixTouch(g, s, y, q) == Skipped
    ensures AgreesSub(g, ops, s, y, lo, hi')
  {
    hide SubpixAt, SubpixTouch;
    forall q | lo <= q < hi'
      ensures OpsAt(3, ops, q) == SubpixAt(g, s, y, q) && TouchAt(ops, q) == SubpixTouch(g, s, y, q)
    {
      if hi <= q {
        OpsAtOutside(3, ops, lo, hi, q);
        TouchOutside(3, ops, lo, hi, q);
      }
    }
  }

  /** The pixel whose cells are those from index a up to b. */
  lemma PixelAt(g: seq<nat>, s: seq<Cell>, y: int, a: nat, b: nat, t: Thirds)
    requires IsGamma(g) && SortedByX(s) && AllInRow(s, y)
    requires a < b <= |s| && UpTo(s, a, 3 * (s[a].x / 3) - 1) && UpTo(s, b, 3 * (s[a].x / 3) + 2)
    requires t == ThirdsAt(s, y, s[a].x / 3)
    ensures SubpixAt(g, s, y, s[a].x / 3) ==
            if Shows(g, t) then PixelCovers(g, t, b < |s|)
            else if b < |s| && s[b].x - s[a].x >= 3 then Repeat(3, Alpha(g, Shifted(t.cover3)))
            else Clear(3)
    ensures SubpixTouch(g, s, y, s[a].x / 3) ==
            if Shows(g, t) then Own else if b < |s| && s[b].x - s[a].x >= 3 then Shared else Skipped
  {
    hide ThirdsAt, PixelCovers, Shows, Shifted, Alpha;
    OccupiedJoins(s, y, a, b, s[a].x / 3);
  }

  lemma OccupiedJoins(s: seq<Cell>, y: int, a: nat, b: nat, q: int)
    requires SortedByX(s) && AllInRow(s, y) && a < b <= |s| && q == s[a].x / 3
    requires UpTo(s, a, 3 * q - 1) && UpTo(s, b, 3 * q + 2)
    ensures More(s, y, q) <==> b < |s|
    ensures Joins(s, y, q) <==> b < |s| && s[b].x - s[a].x >= 3
  {
    hide Has, HasFrom, HasUpTo, SortedByX;
    SortedHas(s, y, a, 3 * q);
    if s[a].x > 3 * q {
      SortedHas(s, y, a, 3 * q + 1);
    }
    if s[a].x > 3 * q + 1 {
      SortedHas(s, y, a, 3 * q + 2);
    }
    SortedHas(s, y, b, 3 * q + 3);
    if b < |s| && s[b].x > 3 * q + 3 {
      SortedHas(s, y, b, 3 * q + 4);
    }
  }

  /** The pixels strictly between two that have cells. */
  lemma PixelsBetween(g: seq<nat>, s: seq<Cell>, y: int, b: nat, q: int)
    requires IsGamma(g) && SortedByX(s) && AllInRow(s, y) && 0 < b < |s| && s[b - 1].x / 3 < q < s[b].x / 3
    ensures SubpixAt(g, s, y, q) == Repeat(3, Alpha(g, Shifted(RowCover(s[..b], y)))) && SubpixTouch(g, s, y, q) == Shared
  {
    hide Left, AreaAt, RowCover, Shifted, Alpha, Has, HasFrom, HasUpTo, SortedByX;
    NoCellsIn(s, y, b, q);
    ColumnSums(s, y, b, 3 * q + 2);
  }

  /** A pixel no cell lies in, with the first k cells left of it. */
  lemma NoCellsIn(s: seq<Cell>, y: int, k: nat, q: int)
    requires SortedByX(s) && AllInRow(s, y) && k <= |s| && (k > 0 ==> s[k - 1].x / 3 < q) && (k < |s| ==> q < s[k].x / 3)
    ensures More(s, y, q) <==> k < |s|
    ensures Joins(s, y, q) <==> 0 < k < |s|
    ensures var t := ThirdsAt(s, y, q); t.area1 == t.area2 == t.area3 == 0
  {
    hide Left, AreaAt, RowCover, Has, HasFrom, HasUpTo, SortedByX;
    SortedHas(s, y, k, 3 * q);
    SortedHas(s, y, k, 3 * q + 1);
    SortedHas(s, y, k, 3 * q + 2);
    SortedHas(s, y, k, 3 * q + 3);
    EmptyColumn(s, y, k, 3 * q);
    EmptyColumn(s, y, k, 3 * q + 1);
    EmptyColumn(s, y, k, 3 * q + 2);
  }

  /** Past both ends of a row every pixel is clear. */
  lemma PixelsOutside(g: seq<nat>, s: seq<Cell>, y: int, q: int)
    requires IsGamma(g) && SortedByX(s) && AllInRow(s, y) && (s == [] || q < s[0].x / 3 || s[|s| - 1].x / 3 < q)
    ensures SubpixAt(g, s, y, q) == Clear(3) && SubpixTouch(g, s, y, q) == Skipped
  {
    hide ThirdsAt, More, Joins, Alpha, Shifted;
    NoCellsIn(s, y, if s == [] || q < s[0].x / 3 then 0 else |s|, q);
  }

  /** One row of `sweep_scanline_subpix`: every cell is consumed once, and each
      pixel gets what SubpixAt says, in the way SubpixTouch says. */
  method SubpixRow(g: seq<nat>, s: seq<Cell>, ghost y: int) returns (ops: seq<Op>)
    requires IsGamma(g) && SortedByX(s) && AllInRow(s, y) && (s != [] ==> s[0].x >= 0)
    ensures Ordered(3, ops, if s == [] then 0 else s[0].x / 3, if s == [] then 0 else s[|s| - 1].x / 3 + 1)
    ensures forall q :: OpsAt(3, ops, q) == SubpixAt(g, s, y, q) && TouchAt(ops, q) == SubpixTouch(g, s, y, q)
  {
    hide SubpixAt, SubpixTouch, ThirdsAt, RowCover, Shifted, Alpha;
    ops := [];
    var cover3, i := 0, 0;
    NoCells(s, y);
    if s == [] {
      forall q ensures OpsAt(3, ops, q) == SubpixAt(g, s, y, q) && TouchAt(ops, q) == SubpixTouch(g, s, y, q) {
        PixelsOutside(g, s, y, q);
      }
      return;
    }
    ghost var lo := s[0].x / 3;
    while i < |s|
      invariant 0 <= i <= |s| && cover3 == RowCover(s[..i], y)
      invariant 0 < i < |s| ==> s[i - 1].x / 3 < s[i].x / 3
      invariant AgreesSub(g, ops, s, y, lo, NextPixel(s, i))
    {
      ops, cover3, i := SweepPixel(g, s, y, lo, i, cover3, ops);
    }
    forall q ensures OpsAt(3, ops, q) == SubpixAt(g, s, y, q) && TouchAt(ops, q) == SubpixTouch(g, s, y, q) {
      if !(lo <= q < s[|s| - 1].x / 3 + 1) {
        OpsAtOutside(3, ops, lo, s[|s| - 1].x / 3 + 1, q);
        TouchOutside(3, ops, lo, s[|s| - 1].x / 3 + 1, q);
        PixelsOutside(g, s, y, q);
      }
    }
  }

  /** The pixel of the next cell, or one past the last when there is none. */
  ghost function NextPixel(s: seq<Cell>, i: nat): int
    requires i <= |s| && s != []
  {
    if i < |s| then s[i].x / 3 else s[|s| - 1].x / 3 + 1
  }

  lemma NoCells(s: seq<Cell>, y: int)
    ensures RowCover(s[..0], y) == 0
  {
  }

  /** One pixel with cells, and the flat run up to the next. */
  method SweepPixel(g: seq<nat>, s: seq<Cell>, ghost y: int, ghost lo: int, from: nat, coverIn: int, opsIn: seq<Op>)
    returns (ops: seq<Op>, cover3: int, i: nat)
    requires IsGamma(g) && SortedByX(s) && AllInRow(s, y) && from < |s| && s[0].x >= 0
    requires coverIn == RowCover(s[..from], y) && (from > 0 ==> s[from - 1].x / 3 < s[from].x / 3)
    requires AgreesSub(g, opsIn, s, y, lo, s[from].x / 3)
    ensures from < i <= |s| && cover3 == RowCover(s[..i], y) && (i < |s| ==> s[i - 1].x / 3 < s[i].x / 3)
    ensures AgreesSub(g, ops, s, y, lo, NextPixel(s, i))
  {
    hide SubpixAt, SubpixTouch, ThirdsAt, RowCover, Shifted, AgreesSub;
    ops := opsIn;
    var t;
    t, i := TakePixel(s, y, from, coverIn);
    cover3 := t.cover3;
    var x := s[from].x;
    ghost var q := x / 3;
    PixelAt(g, s, y, from, i, t);
    var alpha1, alpha2, alpha3 := EdgeAlpha(g, t.cover1, t.area1), EdgeAlpha(g, t.cover2, t.area2), EdgeAlpha(g, t.cover3, t.area3);
    if alpha1 != 0 || alpha2 != 0 || alpha3 != 0 {
      x := x + 3 - x % 3;
      alpha1, alpha2, alpha3 := FillPixel(g, t, i < |s|);
      AgreesSubPush(g, ops, AddCell(x / 3 - 1, [alpha1, alpha2, alpha3]), s, y, lo, q);
      ops := ops + [AddCell(x / 3 - 1, [alpha1, alpha2, alpha3])];
    }
    ghost var done := x / 3;
    if i < |s| && s[i].x - x >= 3 {
      var alpha := Alpha(g, Shifted(t.cover3));
      forall p | done <= p < s[i].x / 3 ensures SubpixAt(g, s, y, p) == Repeat(3, alpha) && SubpixTouch(g, s, y, p) == Shared {
        if p > q {
          PixelsBetween(g, s, y, i, p);
        }
      }
      AgreesSubPush(g, ops, AddSpan(x / 3, s[i].x / 3 - x / 3, alpha), s, y, lo, done);
      ops := ops + [AddSpan(x / 3, s[i].x / 3 - x / 3, alpha)];
    } else {
      AgreesSubSkip(g, ops, s, y, lo, done, NextPixel(s, i));
    }
  }

  /** The covers of a pixel with an edge, in the order the code settles them. */
  method FillPixel(g: seq<nat>, t: Thirds, more: bool) returns (alpha1: nat, alpha2: nat, alpha3: nat)
    requires IsGamma(g)
    ensures [alpha1, alpha2, alpha3] == PixelCovers(g, t, more)
  {
    hide Shifted, Alpha;
    alpha1, alpha2, alpha3 := EdgeAlpha(g, t.cover1, t.area1), EdgeAlpha(g, t.cover2, t.area2), EdgeAlpha(g, t.cover3, t.area3);
    if t.area1 != 0 && t.area2 == 0 && t.area3 != 0 {
      alpha2 := Alpha(g, Shifted(t.cover1));
    } else if more {
      if t.area1 != 0 && t.area2 == 0 {
        alpha2 := Alpha(g, Shifted(t.cover1));
        alpha3 := alpha2;
      }
      if t.area2 != 0 && t.area3 == 0 {
        alpha3 := Alpha(g, Shifted(t.cover2));
      }
    }
    if t.area1 == 0 {
      if t.area2 != 0 {
        alpha1 := Alpha(g, Shifted(t.cover1));
      } else if t.area3 != 0 {
        alpha2 := Alpha(g, Shifted(t.cover1));
        alpha1 := alpha2;
      }
    }
  }

  // ----- against the plain sweep

  /** The alphas a plain sweep over the thirds gives the three columns of pixel q. */
  ghost function ThreeAlphas(g: seq<nat>, s: seq<Cell>, y: int, q: int): (cs: seq<nat>)
    requires IsGamma(g)
    ensures |cs| == 3 && forall i :: 0 <= i < 3 ==> cs[i] < 256
  {
    [PixelAlpha(g, s, y, 3 * q), PixelAlpha(g, s, y, 3 * q + 1), PixelAlpha(g, s, y, 3 * q + 2)]
  }

  /** The covers of the columns without area are the ones the subpixel sweep takes them
      for: where an edge shows, a middle column that of the first, or none when nothing
      follows; a last column that of the last edge, as long as the row goes on. Where
      none shows, every column the cover of the run the pixel joins, or none; and then
      a column with area, whose own alpha is 0, lies under no run that shows. */
  predicate ThirdsAgree(g: seq<nat>, t: Thirds, more: bool, joins: bool)
    requires IsGamma(g)
  {
    var flat1, flat2, flat3 := Alpha(g, Shifted(t.cover1)), Alpha(g, Shifted(t.cover2)), Alpha(g, Shifted(t.cover3));
    if Shows(g, t) then
      && (t.area2 == 0 ==> flat2 == if t.area1 == 0 || t.area3 != 0 || more then flat1 else 0)
      && (t.area3 == 0 && more ==> flat3 == if t.area2 != 0 then flat2 else flat1)
    else
      var run := if joins then flat3 else 0;
      && run == (if t.area1 == 0 then flat1 else 0)
      && run == (if t.area2 == 0 then flat2 else 0)
      && run == (if t.area3 == 0 then flat3 else 0)
  }

  /** The same of pixel q of row y. */
  ghost predicate ThirdsAgreeAt(g: seq<nat>, s: seq<Cell>, y: int, q: int)
    requires IsGamma(g)
  {
    ThirdsAgree(g, ThirdsAt(s, y, q), More(s, y, q), Joins(s, y, q))
  }

  lemma SilentAlpha(g: seq<nat>)
    requires IsGamma(g)
    ensures Alpha(g, Shifted(0)) == g[0]
  {
    ShiftedExact(0);
  }

  /** In a row that closes, nothing is left over where it does not go on. */
  lemma LastCover(s: seq<Cell>, y: int, q: int)
    requires RowCover(s, y) == 0 && !More(s, y, q)
    ensures ThirdsAt(s, y, q).cover3 == 0
  {
    hide RowOf, Left, AreaAt, RowCover;
    RowOfMembers(s, y);
    RowOfSums(s, 3 * q + 2, y);
    forall i | 0 <= i < |RowOf(s, y)| ensures RowOf(s, y)[i].x <= 3 * q + 2 {
      assert RowOf(s, y)[i] in s;
    }
    LeftIsRowCover(RowOf(s, y), 3 * q + 2, y);
  }

  /** Exactly when the subpixel sweep gives a pixel of a row that closes the alphas a
      plain sweep gives its three columns. */
  lemma ThirdsIff(g: seq<nat>, s: seq<Cell>, y: int, q: int)
    requires IsGamma(g) && g[0] == 0 && RowCover(s, y) == 0
    ensures SubpixAt(g, s, y, q) == ThreeAlphas(g, s, y, q) <==> ThirdsAgreeAt(g, s, y, q)
  {
    hide Left, AreaAt, RowCover, Shifted, Alpha, HasFrom, Joins;
    SilentAlpha(g);
    if !More(s, y, q) {
      LastCover(s, y, q);
    }
    hide More;
  }

  /** They agree wherever a pixel has no cell. */
  lemma EmptyAgrees(g: seq<nat>, s: seq<Cell>, y: int, q: int)
    requires IsGamma(g) && g[0] == 0 && RowCover(s, y) == 0 && !Occupied(s, y, q)
    ensures ThirdsAgreeAt(g, s, y, q)
  {
    hide Left, AreaAt, RowCover, Shifted, Alpha;
    SilentAlpha(g);
    EmptyThirds(s, y, q);
    if !More(s, y, q) {
      LastCover(s, y, q);
    }
  }

  lemma EmptyThirds(s: seq<Cell>, y: int, q: int)
    requires !Occupied(s, y, q)
    ensures var t := ThirdsAt(s, y, q);
            && t.area1 == t.area2 == t.area3 == 0 && t.cover1 == t.cover2 == t.cover3
            && (!HasUpTo(s, y, 3 * q - 1) ==> t.cover3 == 0)
  {
    hide RowOf, RowCover;
    SameColumn(s, y, 3 * q);
    SameColumn(s, y, 3 * q + 1);
    SameColumn(s, y, 3 * q + 2);
    if !HasUpTo(s, y, 3 * q - 1) {
      NoneLeft(s, y, 3 * q - 1);
    }
  }

  /** A column without cells adds nothing. */
  lemma {:induction false} SameColumn(s: seq<Cell>, y: int, c: int)
    requires !Has(s, y, c)
    ensures AreaAt(s, c, y) == 0 && Left(s, c, y) == Left(s, c - 1, y)
    decreases |s|
  {
    if s != [] {
      assert s[|s| - 1] in s;
      SameColumn(s[..|s| - 1], y, c);
    }
  }

  lemma {:induction false} NoneLeft(s: seq<Cell>, y: int, c: int)
    requires !HasUpTo(s, y, c)
    ensures Left(s, c, y) == 0
    decreases |s|
  {
    if s != [] {
      assert s[|s| - 1] in s;
      NoneLeft(s[..|s| - 1], y, c);
    }
  }
}
