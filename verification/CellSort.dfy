/** The order `sort_cells` puts cells into: one segment per row, each a
    permutation of that row's cells and ordered by x. */
module CellSort {
  import opened Cells

  datatype Row = Row(start: nat, num: nat)

  /** The cells of row y, in the order they were stored. */
  ghost function RowOf(s: seq<Cell>, y: int): seq<Cell> {
    if s == [] then []
    else
      var c := s[|s| - 1];
      if c.y == y then RowOf(s[..|s| - 1], y) + [c] else RowOf(s[..|s| - 1], y)
  }

  lemma RowOfPush(s: seq<Cell>, c: Cell, y: int)
    ensures RowOf(s + [c], y) == if c.y == y then RowOf(s, y) + [c] else RowOf(s, y)
  {
    assert (s + [c])[..|s|] == s;
  }

  lemma {:induction false} RowOfPrefix(s: seq<Cell>, n: nat, y: int)
    requires n <= |s|
    ensures |RowOf(s[..n], y)| <= |RowOf(s, y)|
    decreases |s|
  {
    if n < |s| {
      RowOfPrefix(s[..|s| - 1], n, y);
      assert s[..|s| - 1][..n] == s[..n];
    } else {
      assert s[..n] == s;
    }
  }

  lemma {:induction false} RowOfSums(s: seq<Cell>, x: int, y: int)
    ensures Left(RowOf(s, y), x, y) == Left(s, x, y)
    ensures AreaAt(RowOf(s, y), x, y) == AreaAt(s, x, y)
    ensures RowCover(RowOf(s, y), y) == RowCover(s, y)
    decreases |s|
  {
    if s != [] {
      var s', c := s[..|s| - 1], s[|s| - 1];
      RowOfSums(s', x, y);
      if c.y == y {
        SumsPush(RowOf(s', y), c, x, y);
      }
    }
  }

  lemma {:induction false} RowOfMembers(s: seq<Cell>, y: int)
    ensures forall c :: c in RowOf(s, y) <==> c in s && c.y == y
    decreases |s|
  {
    if s != [] {
      RowOfMembers(s[..|s| - 1], y);
    }
  }

  /** How many cells lie in the k rows from y0 on: where row y0 + k starts. */
  ghost function Below(s: seq<Cell>, y0: int, k: nat): nat {
    if k == 0 then 0 else Below(s, y0, k - 1) + |RowOf(s, y0 + k - 1)|
  }

  lemma {:induction false} BelowMonotone(s: seq<Cell>, y0: int, j: nat, k: nat)
    requires j <= k
    ensures Below(s, y0, j) <= Below(s, y0, k)
    decreases k
  {
    if j < k {
      BelowMonotone(s, y0, j, k - 1);
    }
  }

  lemma {:induction false} BelowPush(s: seq<Cell>, c: Cell, y0: int, k: nat)
    ensures Below(s + [c], y0, k) == Below(s, y0, k) + (if y0 <= c.y < y0 + k then 1 else 0)
    decreases k
  {
    if k > 0 {
      BelowPush(s, c, y0, k - 1);
      BelowStep(s, y0, k);
      BelowStep(s + [c], y0, k);
      hide *;
      RowOfPush(s, c, y0 + k - 1);
    }
  }

  lemma BelowStep(s: seq<Cell>, y0: int, k: nat)
    requires k > 0
    ensures Below(s, y0, k) == Below(s, y0, k - 1) + |RowOf(s, y0 + k - 1)|
  {
    hide RowOf;
  }

  /** The rows' segments fill the array exactly. */
  lemma {:induction false} BelowTotal(s: seq<Cell>, y0: int, k: nat)
    requires forall i :: 0 <= i < |s| ==> y0 <= s[i].y < y0 + k
    ensures Below(s, y0, k) == |s|
    decreases |s|
  {
    if s == [] {
      BelowEmpty(y0, k);
    } else {
      var s', c := s[..|s| - 1], s[|s| - 1];
      assert s == s' + [c];
      BelowTotal(s', y0, k);
      BelowPush(s', c, y0, k);
    }
  }

  lemma {:induction false} BelowEmpty(y0: int, k: nat)
    ensures Below([], y0, k) == 0
    decreases k
  {
    if k > 0 {
      BelowEmpty(y0, k - 1);
    }
  }

  /** Row k's segment lies inside the array, before the next row's. */
  lemma SegmentBounds(s: seq<Cell>, y0: int, j: nat, k: nat)
    requires j < k && (forall i :: 0 <= i < |s| ==> y0 <= s[i].y < y0 + k)
    ensures Below(s, y0, j) + |RowOf(s, y0 + j)| == Below(s, y0, j + 1) <= |s|
  {
    BelowMonotone(s, y0, j + 1, k);
    BelowTotal(s, y0, k);
  }

  lemma SegmentsDisjoint(s: seq<Cell>, y0: int, i: nat, j: nat)
    requires i < j
    ensures Below(s, y0, i) + |RowOf(s, y0 + i)| <= Below(s, y0, j)
  {
    BelowMonotone(s, y0, i + 1, j);
  }

  predicate SortedByX(s: seq<Cell>) {
    forall i, j :: 0 <= i < j < |s| ==> s[i].x <= s[j].x
  }

  method InsertByX(s: seq<Cell>, c: Cell) returns (t: seq<Cell>)
    requires SortedByX(s)
    ensures multiset(t) == multiset(s) + multiset{c} && SortedByX(t)
  {
    var j := |s|;
    while j > 0 && s[j - 1].x > c.x
      invariant 0 <= j <= |s|
      invariant forall k :: j <= k < |s| ==> s[k].x > c.x
    {
      j := j - 1;
    }
    InsertSorted(s, c, j);
    InsertPermutes(s, c, j);
    t := s[..j] + [c] + s[j..];
  }

  lemma InsertSorted(s: seq<Cell>, c: Cell, j: nat)
    requires SortedByX(s) && j <= |s|
    requires j > 0 ==> s[j - 1].x <= c.x
    requires forall k :: j <= k < |s| ==> s[k].x > c.x
    ensures SortedByX(s[..j] + [c] + s[j..])
  {
    var t := s[..j] + [c] + s[j..];
    assert forall k :: 0 <= k < |t| ==> t[k] == if k < j then s[k] else if k == j then c else s[k - 1];
  }

  lemma InsertPermutes(s: seq<Cell>, c: Cell, j: nat)
    requires j <= |s|
    ensures multiset(s[..j] + [c] + s[j..]) == multiset(s) + multiset{c}
  {
    assert s == s[..j] + s[j..];
    assert multiset(s[..j] + s[j..]) == multiset(s[..j]) + multiset(s[j..]);
  }

  /** Where std::sort stands in the source: any order of the same cells with
      ascending x. Written here as an insertion sort. */
  method SortByX(s: seq<Cell>) returns (t: seq<Cell>)
    ensures multiset(t) == multiset(s) && SortedByX(t)
  {
    t := [];
    for i := 0 to |s|
      invariant multiset(t) == multiset(s[..i]) && SortedByX(t)
    {
      assert s[..i + 1] == s[..i] + [s[i]];
      t := InsertByX(t, s[i]);
    }
    assert s[..|s|] == s;
  }

  /** A permutation draws the same picture. */
  lemma {:induction false} PermutationSums(s: seq<Cell>, t: seq<Cell>, x: int, y: int)
    requires multiset(s) == multiset(t)
    ensures Left(s, x, y) == Left(t, x, y)
    ensures AreaAt(s, x, y) == AreaAt(t, x, y)
    ensures RowCover(s, y) == RowCover(t, y)
    decreases |s|
  {
    if s == [] {
      assert |multiset(t)| == 0;
    } else {
      var s', c := s[..|s| - 1], s[|s| - 1];
      assert s' + [c] == s;
      var a, b := SplitAt(s', c, t);
      PermutationSums(s', a + b, x, y);
      SumsConcat(a, b, x, y);
      SumsPush(s', c, x, y);
      SumsMiddle(a, c, b, x, y);
    }
  }

  lemma SumsMiddle(a: seq<Cell>, c: Cell, b: seq<Cell>, x: int, y: int)
    ensures Left(a + [c] + b, x, y) == Left(a, x, y) + Left(b, x, y) + (if c.y == y && c.x <= x then c.cover else 0)
    ensures AreaAt(a + [c] + b, x, y) == AreaAt(a, x, y) + AreaAt(b, x, y) + (if c.y == y && c.x == x then c.area else 0)
    ensures RowCover(a + [c] + b, y) == RowCover(a, y) + RowCover(b, y) + (if c.y == y then c.cover else 0)
  {
    SumsConcat(a + [c], b, x, y);
    SumsPush(a, c, x, y);
  }

  lemma SplitAt(s: seq<Cell>, c: Cell, t: seq<Cell>) returns (a: seq<Cell>, b: seq<Cell>)
    requires multiset(s + [c]) == multiset(t)
    ensures t == a + [c] + b && multiset(s) == multiset(a + b)
  {
    assert c in multiset(s + [c]);
    assert c in t;
    var j :| 0 <= j < |t| && t[j] == c;
    a, b := t[..j], t[j + 1..];
    assert t == a + [c] + b;
    assert multiset(t) == multiset(a) + multiset{c} + multiset(b);
    assert multiset(s) == multiset(s + [c]) - multiset{c};
  }

  // ----- the three passes of the counting sort

  ghost predicate InRows(s: seq<Cell>, y0: int, n: nat) {
    forall i :: 0 <= i < |s| ==> y0 <= s[i].y < y0 + n
  }

  /** First pass: how many cells each row holds. */
  method CountRows(cells: seq<Cell>, y0: int, n: nat) returns (rows: seq<Row>)
    requires InRows(cells, y0, n)
    ensures |rows| == n && forall k :: 0 <= k < n ==> Counted(cells, y0, k, rows[k])
  {
    rows := seq(n, _ => Row(0, 0));
    for i := 0 to |cells|
      invariant |rows| == n
      invariant forall k :: 0 <= k < n ==> rows[k] == Row(|RowOf(cells[..i], y0 + k)|, 0)
    {
      var r := cells[i].y - y0;
      ghost var was := rows;
      rows := rows[r := rows[r].(start := rows[r].start + 1)];
      forall k | 0 <= k < n ensures rows[k] == Row(|RowOf(cells[..i + 1], y0 + k)|, 0) {
        assert was[k] == Row(|RowOf(cells[..i], y0 + k)|, 0);
        assert cells[..i + 1] == cells[..i] + [cells[i]];
        RowOfPush(cells[..i], cells[i], y0 + k);
      }
    }
    assert cells[..|cells|] == cells;
  }

  ghost predicate Counted(cells: seq<Cell>, y0: int, k: nat, row: Row) {
    row == Row(|RowOf(cells, y0 + k)|, 0)
  }

  ghost predicate Started(cells: seq<Cell>, y0: int, k: nat, row: Row) {
    row == Row(Below(cells, y0, k), 0)
  }

  /** Second pass: counts become starting positions. */
  method StartRows(counts: seq<Row>, ghost cells: seq<Cell>, ghost y0: int) returns (rows: seq<Row>)
    requires forall k :: 0 <= k < |counts| ==> Counted(cells, y0, k, counts[k])
    ensures |rows| == |counts| && forall k :: 0 <= k < |rows| ==> Started(cells, y0, k, rows[k])
  {
    hide Counted, Started;
    rows := counts;
    var start := 0;
    BelowNone(cells, y0);
    for j := 0 to |counts|
      invariant |rows| == |counts| && start == Below(cells, y0, j)
      invariant forall k :: 0 <= k < j ==> Started(cells, y0, k, rows[k])
      invariant forall k :: j <= k < |rows| ==> rows[k] == counts[k]
    {
      CountedRow(cells, y0, j, counts[j]);
      var v := rows[j].start;
      rows := rows[j := rows[j].(start := start)];
      start := start + v;
    }
  }

  lemma BelowNone(cells: seq<Cell>, y0: int)
    ensures Below(cells, y0, 0) == 0
  {
  }

  lemma CountedRow(cells: seq<Cell>, y0: int, k: nat, row: Row)
    requires Counted(cells, y0, k, row)
    ensures Below(cells, y0, k) + row.start == Below(cells, y0, k + 1)
    ensures Started(cells, y0, k, row.(start := Below(cells, y0, k)))
  {
  }

  /** After i cells: row k's segment holds that row's cells among the first i. */
  ghost predicate Holds(cells: seq<Cell>, i: nat, y0: int, k: nat, row: Row, out: seq<Cell>)
    requires i <= |cells|
  {
    && row.start == Below(cells, y0, k) && row.num == |RowOf(cells[..i], y0 + k)|
    && row.start + row.num <= |out|
    && out[row.start..row.start + row.num] == RowOf(cells[..i], y0 + k)
  }

  ghost predicate Distributed(cells: seq<Cell>, i: nat, y0: int, rows: seq<Row>, out: seq<Cell>)
    requires i <= |cells|
  {
    |out| == |cells| && forall k :: 0 <= k < |rows| ==> Holds(cells, i, y0, k, rows[k], out)
  }

  /** Where the next cell of a row goes lies in that row's own segment. */
  lemma SlotIsFree(cells: seq<Cell>, i: nat, y0: int, n: nat)
    requires i < |cells| && InRows(cells, y0, n)
    ensures |RowOf(cells[..i], cells[i].y)| < |RowOf(cells, cells[i].y)|
  {
    assert cells[..i + 1] == cells[..i] + [cells[i]];
    RowOfPush(cells[..i], cells[i], cells[i].y);
    RowOfPrefix(cells, i + 1, cells[i].y);
  }

  method PlaceCell(cells: seq<Cell>, i: nat, ghost y0: int, r: nat, rows: seq<Row>, out: seq<Cell>)
    returns (rows': seq<Row>, out': seq<Cell>)
    requires i < |cells| && InRows(cells, y0, |rows|) && r == cells[i].y - y0
    requires Distributed(cells, i, y0, rows, out)
    ensures |rows'| == |rows| && Distributed(cells, i + 1, y0, rows', out')
  {
    hide RowOf, Below;
    SlotIsFree(cells, i, y0, |rows|);
    SegmentBounds(cells, y0, r, |rows|);
    var at := rows[r].start + rows[r].num;
    out' := out[at := cells[i]];
    rows' := rows[r := rows[r].(num := rows[r].num + 1)];
    forall k | 0 <= k < |rows| ensures Holds(cells, i + 1, y0, k, rows'[k], out') {
      PlaceInRow(cells, i, y0, r, rows, out, k);
    }
  }

  lemma PlaceInRow(cells: seq<Cell>, i: nat, y0: int, r: nat, rows: seq<Row>, out: seq<Cell>, k: nat)
    requires i < |cells| && InRows(cells, y0, |rows|) && r == cells[i].y - y0
    requires Distributed(cells, i, y0, rows, out) && k < |rows|
    requires rows[r].start + rows[r].num < rows[r].start + |RowOf(cells, y0 + r)| <= |out|
    ensures Holds(cells, i + 1, y0, k, if k == r then rows[k].(num := rows[k].num + 1) else rows[k],
                  out[rows[r].start + rows[r].num := cells[i]])
  {
    hide RowOf, Below;
    assert Holds(cells, i, y0, k, rows[k], out) && Holds(cells, i, y0, r, rows[r], out);
    assert cells[..i + 1] == cells[..i] + [cells[i]];
    RowOfPush(cells[..i], cells[i], y0 + k);
    RowOfPrefix(cells, i, y0 + k);
    if k < r {
      SegmentsDisjoint(cells, y0, k, r);
    } else if r < k {
      SegmentsDisjoint(cells, y0, r, k);
    }
    var out' := out[rows[r].start + rows[r].num := cells[i]];
    var from, num := rows[k].start, rows[k].num;
    if k == r {
      assert out'[from..from + num + 1] == out[from..from + num] + [cells[i]];
    } else {
      assert out'[from..from + num] == out[from..from + num];
    }
  }

  /** Third pass: every cell goes to the next free place of its row. */
  method Distribute(cells: seq<Cell>, y0: int, starts: seq<Row>) returns (rows: seq<Row>, out: seq<Cell>)
    requires InRows(cells, y0, |starts|)
    requires forall k :: 0 <= k < |starts| ==> Started(cells, y0, k, starts[k])
    ensures |rows| == |starts| && Distributed(cells, |cells|, y0, rows, out)
  {
    rows, out := starts, seq(|cells|, _ => Cell(0, 0, 0, 0));
    forall k | 0 <= k < |rows| ensures rows[k].start <= |out| {
      SegmentBounds(cells, y0, k, |rows|);
    }
    for i := 0 to |cells|
      invariant |rows| == |starts| && Distributed(cells, i, y0, rows, out)
    {
      rows, out := PlaceCell(cells, i, y0, cells[i].y - y0, rows, out);
    }
  }

  /** Row k of the sorted array: its segment is a permutation, in ascending x,
      of exactly that row's cells. */
  ghost predicate RowSorted(cells: seq<Cell>, y0: int, k: nat, row: Row, out: seq<Cell>) {
    && row.start == Below(cells, y0, k) && row.num == |RowOf(cells, y0 + k)|
    && row.start + row.num <= |out|
    && multiset(out[row.start..row.start + row.num]) == multiset(RowOf(cells, y0 + k))
    && SortedByX(out[row.start..row.start + row.num])
  }

  /** What `sort_cells` leaves: segments that partition the array in row order. */
  ghost predicate Sorted(cells: seq<Cell>, y0: int, rows: seq<Row>, out: seq<Cell>) {
    |out| == |cells| && forall k :: 0 <= k < |rows| ==> RowSorted(cells, y0, k, rows[k], out)
  }

  ghost predicate PartSorted(cells: seq<Cell>, y0: int, rows: seq<Row>, out: seq<Cell>, j: nat) {
    && |out| == |cells|
    && (forall k :: 0 <= k < |rows| && k < j ==> RowSorted(cells, y0, k, rows[k], out))
    && (forall k :: j <= k < |rows| ==> Holds(cells, |cells|, y0, k, rows[k], out))
  }

  /** Last pass: each row by x. */
  method SortRows(ghost cells: seq<Cell>, ghost y0: int, rows: seq<Row>, placed: seq<Cell>) returns (out: seq<Cell>)
    requires Distributed(cells, |cells|, y0, rows, placed)
    ensures Sorted(cells, y0, rows, out)
  {
    hide RowOf, Below, SortedByX;
    out := placed;
    for j := 0 to |rows|
      invariant PartSorted(cells, y0, rows, out, j)
    {
      assert Holds(cells, |cells|, y0, j, rows[j], out);
      var a, b := rows[j].start, rows[j].start + rows[j].num;
      var row := SortByX(out[a..b]);
      SameSize(row, out[a..b]);
      SortStep(cells, y0, rows, out, j, row);
      out := out[..a] + row + out[b..];
    }
  }

  lemma SortStep(cells: seq<Cell>, y0: int, rows: seq<Row>, was: seq<Cell>, j: nat, row: seq<Cell>)
    requires j < |rows| && PartSorted(cells, y0, rows, was, j)
    requires rows[j].start + rows[j].num <= |was| && |row| == rows[j].num
    requires multiset(row) == multiset(was[rows[j].start..rows[j].start + rows[j].num]) && SortedByX(row)
    ensures PartSorted(cells, y0, rows, was[..rows[j].start] + row + was[rows[j].start + rows[j].num..], j + 1)
  {
    hide RowOf, Below, SortedByX;
    var a, b := rows[j].start, rows[j].start + rows[j].num;
    var out := was[..a] + row + was[b..];
    assert Holds(cells, |cells|, y0, j, rows[j], was);
    assert cells[..|cells|] == cells;
    assert out[a..b] == row;
    assert RowSorted(cells, y0, j, rows[j], out);
    forall k | 0 <= k < |rows| && k != j
      ensures k < j ==> RowSorted(cells, y0, k, rows[k], out)
      ensures k > j ==> Holds(cells, |cells|, y0, k, rows[k], out)
    {
      assert k < j ==> RowSorted(cells, y0, k, rows[k], was);
      assert k > j ==> Holds(cells, |cells|, y0, k, rows[k], was);
      Outside(cells, y0, j, k, rows[j], rows[k], was, out);
    }
  }

  /** Sorting row j leaves every other row's segment alone. */
  lemma Outside(cells: seq<Cell>, y0: int, j: nat, k: nat, row: Row, other: Row, was: seq<Cell>, out: seq<Cell>)
    requires j != k && |was| == |out|
    requires row.start == Below(cells, y0, j) && row.num == |RowOf(cells, y0 + j)| && row.start + row.num <= |out|
    requires other.start == Below(cells, y0, k) && other.num == |RowOf(cells, y0 + k)| && other.start + other.num <= |out|
    requires out[..row.start] == was[..row.start] && out[row.start + row.num..] == was[row.start + row.num..]
    ensures out[other.start..other.start + other.num] == was[other.start..other.start + other.num]
  {
    var a, b := row.start, row.start + row.num;
    var c, d := other.start, other.start + other.num;
    if k < j {
      SegmentsDisjoint(cells, y0, k, j);
      hide *;
      SameSlice(out, was, 0, a, c, d);
    } else {
      SegmentsDisjoint(cells, y0, j, k);
      hide *;
      SameSlice(out, was, b, |out|, c, d);
    }
  }

  lemma SameSlice(s: seq<Cell>, t: seq<Cell>, a: nat, b: nat, c: nat, d: nat)
    requires |s| == |t| && a <= c <= d <= b <= |s| && s[a..b] == t[a..b]
    ensures s[c..d] == t[c..d]
  {
    forall i | c <= i < d ensures s[i] == t[i] {
      assert s[i] == s[a..b][i - a] && t[i] == t[a..b][i - a];
    }
  }

  lemma SameSize(s: seq<Cell>, t: seq<Cell>)
    requires multiset(s) == multiset(t)
    ensures |s| == |t|
  {
    assert |multiset(s)| == |s| && |multiset(t)| == |t|;
  }
}
