/** Integrating one sorted row of cells into alpha runs. */
module Sweep {
  import opened CArith
  import opened Cells
  import opened CellSort
  import opened ScanlineOps

  /** The gamma table: 256 bytes, the identity unless a threshold replaced it. */
  predicate IsGamma(g: seq<nat>) {
    |g| == 256 && forall i :: 0 <= i < 256 ==> g[i] < 256
  }

  /** `static_cast<int>(static_cast<unsigned>(cover) << 9)`. */
  function Shifted(cover: int): int {
    Wrap32(cover * 512)
  }

  lemma ShiftedExact(cover: int)
    requires -0x40_0000 <= cover < 0x40_0000
    ensures Shifted(cover) == 512 * cover
  {
  }

  /** `calculate_alpha`. */
  function Alpha(g: seq<nat>, area: int): (a: nat)
    requires IsGamma(g)
    ensures a < 256
  {
    g[Min(255, Abs(area / 512))]
  }

  /** The gamma table of a new rasteriser. */
  function LinearGamma(): (g: seq<nat>)
    ensures IsGamma(g) && forall i :: 0 <= i < 256 ==> g[i] == i
  {
    seq(256, i => i)
  }

  lemma FloorAtLeast(n: int, k: int)
    ensures n / 512 >= k <==> n >= 512 * k
    ensures -(n / 512) >= k <==> n < 512 * (1 - k)
  {
  }

  /** What the alpha of twice an area is under the identity table: a pixel holds
      2 * 256 * 256 of it, and of 256 steps the last is cut off. An area that falls
      counts like one that rises, but is rounded up. */
  lemma AlphaAtLeast(area: int, k: nat)
    requires k <= 255
    ensures Alpha(LinearGamma(), area) >= k <==> k == 0 || area >= 512 * k || -area > 512 * (k - 1)
  {
    FloorAtLeast(area, k);
    FloorAtLeast(area, 0);
  }

  /** Whole steps have one alpha, whichever way they go, and from 255 on it is full. */
  lemma AlphaOfCover(cover: int)
    ensures Alpha(LinearGamma(), 512 * cover) == Alpha(LinearGamma(), -512 * cover) == Min(255, Abs(cover))
  {
    var (a, b) := (Alpha(LinearGamma(), 512 * cover), Alpha(LinearGamma(), -512 * cover));
    hide Alpha;
    AlphaAtLeast(512 * cover, a);
    AlphaAtLeast(-512 * cover, b);
    AlphaAtLeast(512 * cover, Min(255, Abs(cover)));
    AlphaAtLeast(-512 * cover, Min(255, Abs(cover)));
  }

  /** Any other table is applied to that. */
  lemma AlphaThrough(g: seq<nat>, area: int)
    requires IsGamma(g)
    ensures Alpha(g, area) == g[Alpha(LinearGamma(), area)]
  {
  }

  /** The alpha of pixel x: all the cover at or left of it, less its own area. */
  ghost function PixelAlpha(g: seq<nat>, s: seq<Cell>, y: int, x: int): (a: nat)
    requires IsGamma(g)
    ensures a < 256
  {
    Alpha(g, Shifted(Left(s, x, y)) - AreaAt(s, x, y))
  }

  // ----- which columns of a row have cells

  /** Some cell of row y lies in column x. */
  ghost predicate Has(s: seq<Cell>, y: int, x: int) {
    exists c <- s :: c.y == y && c.x == x
  }

  /** Some cell of row y lies in column x or right of it. */
  ghost predicate HasFrom(s: seq<Cell>, y: int, x: int) {
    exists c <- s :: c.y == y && c.x >= x
  }

  /** Some cell of row y lies in column x or left of it. */
  ghost predicate HasUpTo(s: seq<Cell>, y: int, x: int) {
    exists c <- s :: c.y == y && c.x <= x
  }

  /** What the sweep gives pixel x of row y: its alpha from the row's first cell to its
      last, whose own column counts only if it has area; nothing elsewhere. */
  ghost function PlainAt(g: seq<nat>, s: seq<Cell>, y: int, x: int): (a: nat)
    requires IsGamma(g)
    ensures a < 256
  {
    if HasUpTo(s, y, x) && (HasFrom(s, y, x + 1) || AreaAt(s, x, y) != 0) then PixelAlpha(g, s, y, x) else 0
  }

  /** Two lists hold the same cells in row y. */
  ghost predicate SameRow(s: seq<Cell>, t: seq<Cell>, y: int) {
    && (forall c: Cell :: c.y == y ==> (c in s <==> c in t))
    && RowCover(s, y) == RowCover(t, y)
    && forall x :: Left(s, x, y) == Left(t, x, y) && AreaAt(s, x, y) == AreaAt(t, x, y)
  }

  lemma SameHas(s: seq<Cell>, t: seq<Cell>, y: int, x: int)
    requires SameRow(s, t, y)
    ensures Has(s, y, x) == Has(t, y, x) && HasFrom(s, y, x) == HasFrom(t, y, x) && HasUpTo(s, y, x) == HasUpTo(t, y, x)
  {
    hide Left, AreaAt, RowCover;
  }

  lemma SamePlain(g: seq<nat>, s: seq<Cell>, t: seq<Cell>, y: int, x: int)
    requires IsGamma(g) && SameRow(s, t, y)
    ensures PlainAt(g, s, y, x) == PlainAt(g, t, y, x)
  {
    hide Has, HasFrom, HasUpTo, AreaAt, RowCover, Shifted, Alpha;
    SameHas(s, t, y, x);
    SameHas(s, t, y, x + 1);
    assert Left(s, x, y) == Left(t, x, y);
  }

  /** Sorting a row keeps what it holds. */
  lemma PermutedRow(s: seq<Cell>, cells: seq<Cell>, y: int)
    requires multiset(s) == multiset(RowOf(cells, y))
    ensures SameRow(s, cells, y) && AllInRow(s, y)
  {
    hide Left, AreaAt, RowCover;
    RowOfMembers(cells, y);
    forall c ensures c in s <==> c in cells && c.y == y {
      assert c in multiset(s) <==> c in multiset(RowOf(cells, y));
    }
    forall x
      ensures Left(s, x, y) == Left(cells, x, y) && AreaAt(s, x, y) == AreaAt(cells, x, y) && RowCover(s, y) == RowCover(cells, y)
    {
      PermutationSums(s, RowOf(cells, y), x, y);
      RowOfSums(cells, x, y);
    }
    assert Left(s, 0, y) == Left(cells, 0, y);
  }

  // ----- sums over a sorted row

  ghost predicate AllInRow(s: seq<Cell>, y: int) {
    forall i :: 0 <= i < |s| ==> s[i].y == y
  }

  /** In a sorted row whose first k cells lie left of column x. */
  lemma SortedHas(s: seq<Cell>, y: int, k: nat, x: int)
    requires SortedByX(s) && AllInRow(s, y) && k <= |s| && (k > 0 ==> s[k - 1].x < x) && (k < |s| ==> x <= s[k].x)
    ensures HasUpTo(s, y, x - 1) <==> k > 0
    ensures HasFrom(s, y, x) <==> k < |s|
    ensures Has(s, y, x) <==> k < |s| && s[k].x == x
  {
    assert k > 0 ==> s[k - 1] in s;
    assert k < |s| ==> s[k] in s;
  }

  /** Cells right of x add nothing at x. */
  lemma {:induction false} RightOf(s: seq<Cell>, x: int, y: int)
    requires forall i :: 0 <= i < |s| ==> x < s[i].x
    ensures Left(s, x, y) == 0 && AreaAt(s, x, y) == 0
    decreases |s|
  {
    if s != [] {
      RightOf(s[..|s| - 1], x, y);
    }
  }

  lemma {:induction false} NoArea(s: seq<Cell>, x: int, y: int)
    requires forall i :: 0 <= i < |s| ==> s[i].x != x
    ensures AreaAt(s, x, y) == 0
    decreases |s|
  {
    if s != [] {
      NoArea(s[..|s| - 1], x, y);
    }
  }

  /** In a sorted row, what pixel x sees is what the first n cells hold. */
  lemma SumsAt(s: seq<Cell>, n: nat, x: int, y: int)
    requires SortedByX(s) && n <= |s|
    requires (n > 0 ==> s[n - 1].x <= x) && (n < |s| ==> x < s[n].x)
    ensures Left(s, x, y) == RowCover(s[..n], y) && AreaAt(s, x, y) == AreaAt(s[..n], x, y)
  {
    hide RowCover, AreaAt, Left, SortedByX;
    var a, b := s[..n], s[n..];
    SortedSplit(s, n, x);
    assert s == a + b;
    SumsConcat(a, b, x, y);
    RightOf(b, x, y);
    LeftIsRowCover(a, x, y);
  }

  lemma SortedSplit(s: seq<Cell>, n: nat, x: int)
    requires SortedByX(s) && n <= |s|
    requires (n > 0 ==> s[n - 1].x <= x) && (n < |s| ==> x < s[n].x)
    ensures forall i :: 0 <= i < |s[..n]| ==> s[..n][i].x <= x
    ensures forall i :: 0 <= i < |s[n..]| ==> x < s[n..][i].x
  {
    forall i | 0 <= i < |s[n..]| ensures x < s[n..][i].x {
      assert s[n..][i] == s[n + i];
    }
  }

  lemma ColumnPixel(g: seq<nat>, s: seq<Cell>, y: int, i: nat, x: int, area: int, cover: int)
    requires IsGamma(g) && SortedByX(s) && 0 < i <= |s| && s[i - 1].x == x && (i < |s| ==> x < s[i].x)
    requires area == AreaAt(s[..i], x, y) && cover == RowCover(s[..i], y)
    ensures PixelAlpha(g, s, y, x) == Alpha(g, Shifted(cover) - area)
  {
    SumsAt(s, i, x, y);
  }

  /** Where the sweep stops writing: past the last cell, or before it when that
      cell's area is zero. */
  ghost function SweepEnd(s: seq<Cell>, y: int): int
    requires s != []
  {
    var x := s[|s| - 1].x;
    if AreaAt(s, x, y) != 0 then x + 1 else x
  }

  /** A sweep never writes a transparent run. */
  predicate Visible(ops: seq<Op>) {
    forall i :: 0 <= i < |ops| ==> Value(1, ops[i]) != [0]
  }

  /** The operations agree with the pointwise definition on lo..hi and are
      silent elsewhere. */
  ghost predicate Agrees(g: seq<nat>, ops: seq<Op>, s: seq<Cell>, y: int, lo: int, hi: int)
    requires IsGamma(g)
  {
    && lo <= hi && Ordered(1, ops, lo, hi) && Visible(ops)
    && forall x :: lo <= x < hi ==> OpsAt(1, ops, x) == [PixelAlpha(g, s, y, x)]
  }

  lemma AgreesNone(g: seq<nat>, s: seq<Cell>, y: int)
    requires IsGamma(g) && s != []
    ensures Agrees(g, [], s, y, s[0].x, s[0].x) && RowCover(s[..0], y) == 0
  {
  }

  /** Extending the agreement by pixels that all take one alpha. */
  lemma AgreesPush(g: seq<nat>, ops: seq<Op>, op: Op, alpha: nat, s: seq<Cell>, y: int, lo: int, hi: int)
    requires IsGamma(g) && Agrees(g, ops, s, y, lo, hi)
    requires op.x == hi && WellFormed(1, op) && Value(1, op) == [alpha]
    requires forall x :: hi <= x < End(op) ==> PixelAlpha(g, s, y, x) == alpha
    ensures Agrees(g, if alpha == 0 then ops else ops + [op], s, y, lo, End(op))
  {
    hide PixelAlpha;
    forall x | lo <= x < End(op)
      ensures OpsAt(1, if alpha == 0 then ops else ops + [op], x) == [PixelAlpha(g, s, y, x)]
    {
      OpsAtPush(1, ops, op, x);
      if x >= hi {
        OpsAtOutside(1, ops, lo, hi, x);
      }
    }
    if alpha != 0 {
      OrderedPush(1, ops, op, lo, hi, End(op));
    }
  }

  /** What a swept row's operations give every pixel. */
  lemma RowPlain(g: seq<nat>, ops: seq<Op>, s: seq<Cell>, y: int, x: int)
    requires IsGamma(g) && s != [] && SortedByX(s) && AllInRow(s, y)
    requires Agrees(g, ops, s, y, s[0].x, SweepEnd(s, y))
    ensures OpsAt(1, ops, x) == [PlainAt(g, s, y, x)]
  {
    hide PixelAlpha, AreaAt, OpsAt, Has, HasFrom, HasUpTo;
    var last := s[|s| - 1].x;
    if x < s[0].x {
      OpsAtOutside(1, ops, s[0].x, SweepEnd(s, y), x);
      SortedHas(s, y, 0, x + 1);
    } else {
      FromFirst(s, y, x);
      if x >= last {
        SortedHas(s, y, |s|, x + 1);
      }
      if x > last {
        NoArea(s, x, y);
      }
      if x >= SweepEnd(s, y) {
        OpsAtOutside(1, ops, s[0].x, SweepEnd(s, y), x);
      }
    }
  }

  lemma FromFirst(s: seq<Cell>, y: int, x: int)
    requires s != [] && SortedByX(s) && AllInRow(s, y) && s[0].x <= x
    ensures HasUpTo(s, y, x) && (x < s[|s| - 1].x ==> HasFrom(s, y, x + 1))
  {
    assert s[0] in s && s[|s| - 1] in s;
  }

  /** One row of `sweep_scanline`. */
  method SweepRow(g: seq<nat>, s: seq<Cell>, ghost y: int) returns (ops: seq<Op>)
    requires IsGamma(g) && SortedByX(s) && AllInRow(s, y)
    ensures forall x :: OpsAt(1, ops, x) == [PlainAt(g, s, y, x)]
    ensures Ordered(1, ops, if s == [] then 0 else s[0].x, if s == [] then 0 else s[|s| - 1].x + 1) && Visible(ops)
  {
    hide Agrees, PixelAlpha, AreaAt, RowCover, Shifted, Alpha, PlainAt;
    ops := [];
    var cover, i := 0, 0;
    if s == [] {
      NothingSwept(g, s, y);
      return;
    }
    AgreesNone(g, s, y);
    while i < |s|
      invariant 0 <= i <= |s| && cover == RowCover(s[..i], y)
      invariant 0 < i < |s| ==> s[i - 1].x < s[i].x
      invariant Agrees(g, ops, s, y, s[0].x, if i < |s| then s[i].x else SweepEnd(s, y))
    {
      var x, area;
      x, area, cover, i := TakeColumn(s, y, i, cover);
      ghost var hi := x;
      if area != 0 {
        var alpha := Alpha(g, Shifted(cover) - area);
        ColumnPixel(g, s, y, i, x, area, cover);
        AgreesPush(g, ops, AddCell(x, [alpha]), alpha, s, y, s[0].x, x);
        if alpha != 0 {
          ops := ops + [AddCell(x, [alpha])];
        }
        x := x + 1;
      }
      if i < |s| && s[i].x > x {
        var alpha := Alpha(g, Shifted(cover));
        FlatRun(g, s, y, i, hi, x, area, cover);
        AgreesPush(g, ops, AddSpan(x, s[i].x - x, alpha), alpha, s, y, s[0].x, x);
        if alpha != 0 {
          ops := ops + [AddSpan(x, s[i].x - x, alpha)];
        }
      }
      assert i == |s| ==> s[..i] == s;
    }
    AgreesOrder(g, ops, s, y);
    forall x ensures OpsAt(1, ops, x) == [PlainAt(g, s, y, x)] {
      RowPlain(g, ops, s, y, x);
    }
  }

  lemma NothingSwept(g: seq<nat>, s: seq<Cell>, y: int)
    requires IsGamma(g) && s == []
    ensures Visible([]) && forall x :: OpsAt(1, [], x) == [PlainAt(g, s, y, x)]
  {
  }

  lemma AgreesOrder(g: seq<nat>, ops: seq<Op>, s: seq<Cell>, y: int)
    requires IsGamma(g) && s != [] && Agrees(g, ops, s, y, s[0].x, SweepEnd(s, y))
    ensures Ordered(1, ops, s[0].x, s[|s| - 1].x + 1) && Visible(ops)
  {
    hide PixelAlpha, OpsAt;
  }

  /** The cells of one column, summed. */
  method TakeColumn(s: seq<Cell>, ghost y: int, from: nat, coverIn: int) returns (x: int, area: int, cover: int, i: nat)
    requires from < |s| && SortedByX(s) && AllInRow(s, y) && coverIn == RowCover(s[..from], y)
    requires from > 0 ==> s[from - 1].x < s[from].x
    ensures from < i <= |s| && x == s[from].x == s[i - 1].x && (i < |s| ==> x < s[i].x)
    ensures cover == RowCover(s[..i], y) && area == AreaAt(s[..i], x, y)
  {
    hide RowCover, AreaAt, Left;
    x, area, cover, i := s[from].x, s[from].area, coverIn + s[from].cover, from + 1;
    assert s[..i] == s[..from] + [s[from]];
    SumsPush(s[..from], s[from], x, y);
    NoArea(s[..from], x, y);
    while i < |s| && s[i].x == x
      invariant from < i <= |s| && s[i - 1].x == x
      invariant cover == RowCover(s[..i], y) && area == AreaAt(s[..i], x, y)
    {
      area := area + s[i].area;
      cover := cover + s[i].cover;
      assert s[..i + 1] == s[..i] + [s[i]];
      SumsPush(s[..i], s[i], x, y);
      i := i + 1;
    }
  }

  /** Between two columns every pixel has the same alpha. */
  lemma FlatRun(g: seq<nat>, s: seq<Cell>, y: int, i: nat, column: int, from: int, area: int, cover: int)
    requires IsGamma(g) && SortedByX(s) && 0 < i < |s| && s[i - 1].x == column < s[i].x
    requires area == AreaAt(s[..i], column, y) && cover == RowCover(s[..i], y)
    requires from == if area != 0 then column + 1 else column
    ensures forall x :: from <= x < s[i].x ==> PixelAlpha(g, s, y, x) == Alpha(g, Shifted(cover))
  {
    forall x | from <= x < s[i].x ensures PixelAlpha(g, s, y, x) == Alpha(g, Shifted(cover)) {
      SumsAt(s, i, x, y);
      if x != column {
        NoArea(s[..i], x, y);
      }
    }
  }

  // ----- against the pointwise definition

  lemma {:induction false} LowerBoundX(s: seq<Cell>) returns (lo: int)
    ensures forall i :: 0 <= i < |s| ==> lo < s[i].x
    decreases |s|
  {
    if s == [] {
      lo := 0;
    } else {
      lo := LowerBoundX(s[..|s| - 1]);
      lo := Min(lo, s[|s| - 1].x - 1);
    }
  }

  /** Left of all cells of row y there is no cover. */
  lemma BeforeRow(g: seq<nat>, s: seq<Cell>, y: int, x: int)
    requires IsGamma(g) && !HasUpTo(s, y, x)
    ensures PixelAlpha(g, s, y, x) == g[0] && PlainAt(g, s, y, x) == 0
  {
    hide RowOf, Left, AreaAt, RowCover;
    RowOfMembers(s, y);
    RowOfSums(s, x, y);
    RightOf(RowOf(s, y), x, y);
    ShiftedExact(0);
  }

  /** Right of all of them there is the cover of the row. */
  lemma AfterRow(g: seq<nat>, s: seq<Cell>, y: int, x: int)
    requires IsGamma(g) && !HasFrom(s, y, x + 1) && AreaAt(s, x, y) == 0
    ensures PixelAlpha(g, s, y, x) == Alpha(g, Shifted(RowCover(s, y))) && PlainAt(g, s, y, x) == 0
  {
    hide RowOf, Left, AreaAt, RowCover, Shifted;
    RowOfMembers(s, y);
    RowOfSums(s, x, y);
    forall i | 0 <= i < |RowOf(s, y)| ensures RowOf(s, y)[i].x <= x {
      assert RowOf(s, y)[i] in s;
    }
    LeftIsRowCover(RowOf(s, y), x, y);
  }

  /** Exactly when the sweep gives every pixel of a row its alpha: the gamma table keeps
      zero transparent and the row's winding closes to an alpha of zero. */
  lemma PointwiseIff(g: seq<nat>, s: seq<Cell>, y: int)
    requires IsGamma(g)
    ensures (forall x :: PlainAt(g, s, y, x) == PixelAlpha(g, s, y, x))
            <==> g[0] == 0 && Alpha(g, Shifted(RowCover(s, y))) == 0
  {
    hide Shifted, Left, AreaAt, RowCover, PixelAlpha, Alpha;
    var lo := LowerBoundX(s);
    var hi := UpperBoundX(s);
    hi := hi + 1;
    assert !HasUpTo(s, y, lo) && !HasFrom(s, y, hi + 1);
    BeforeRow(g, s, y, lo);
    NoArea(s, hi, y);
    AfterRow(g, s, y, hi);
    if g[0] == 0 && Alpha(g, Shifted(RowCover(s, y))) == 0 {
      forall x ensures PlainAt(g, s, y, x) == PixelAlpha(g, s, y, x) {
        if !HasUpTo(s, y, x) {
          BeforeRow(g, s, y, x);
        } else if !HasFrom(s, y, x + 1) && AreaAt(s, x, y) == 0 {
          AfterRow(g, s, y, x);
        }
      }
    }
  }
}
