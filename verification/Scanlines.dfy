/** Two encodings of one row of covers: packed, whose solid runs store a single
    cover under a negative length, and unpacked, whose covers sit at their
    pixel's position. Both are proved to read back as the operations fed in. */
module Scanlines {
  import opened CArith
  import opened ScanlineOps

  const NO_X := 0x7FFF_FFF0

  datatype Stored = Stored(x: int, len: int, cover: nat)

  /** stride * n. */
  function Times(stride: nat, n: int): int {
    if stride == 1 then n else 3 * n
  }

  function Wrap16(a: int): int {
    (a + 0x8000) % 0x1_0000 - 0x8000
  }

  function Byte(a: nat): nat {
    a % 256
  }

  lemma Wrap16Exact(a: int)
    requires -0x8000 <= a < 0x8000
    ensures Wrap16(a) == a
  {
  }

  /** The columns a row may use: 16-bit coordinates, and lengths in covers that
      fit 16 bits too. */
  predicate Room(stride: nat, lo: int, hi: int) {
    -0x8000 <= lo <= hi <= 0x8000 && Times(stride, hi - lo) < 0x8000
  }

  function CoverAt(covers: seq<nat>, k: int): nat {
    if 0 <= k < |covers| then covers[k] else 0
  }

  predicate SpanTouches(stride: nat, st: Stored, x: int) {
    st.x <= x && Times(stride, x - st.x) < Abs(st.len)
  }

  /** The covers a renderer reads for pixel x of a span: its own under a positive
      length, the span's single one under a negative length. */
  function SpanValue(stride: nat, covers: seq<nat>, st: Stored, x: int): seq<nat> {
    if st.len < 0 then Repeat(stride, CoverAt(covers, st.cover))
    else if stride == 1 then [CoverAt(covers, st.cover + (x - st.x))]
    else
      var k := st.cover + 3 * (x - st.x);
      [CoverAt(covers, k), CoverAt(covers, k + 1), CoverAt(covers, k + 2)]
  }

  /** The covers a list of spans gives pixel x. */
  function Decode(stride: nat, covers: seq<nat>, spans: seq<Stored>, x: int): seq<nat> {
    if spans == [] then Clear(stride)
    else
      var st := spans[|spans| - 1];
      if SpanTouches(stride, st, x) then SpanValue(stride, covers, st, x)
      else Decode(stride, covers, spans[..|spans| - 1], x)
  }

  lemma DecodePush(stride: nat, covers: seq<nat>, spans: seq<Stored>, st: Stored, x: int)
    ensures Decode(stride, covers, spans + [st], x) ==
            if SpanTouches(stride, st, x) then SpanValue(stride, covers, st, x) else Decode(stride, covers, spans, x)
  {
    assert (spans + [st])[..|spans|] == spans;
  }

  /** Every span is non-empty, whole pixels long, and reads covers below head. */
  predicate Placed(stride: nat, spans: seq<Stored>, head: int) {
    forall i :: 0 <= i < |spans| ==> PlacedSpan(stride, spans[i], head)
  }

  predicate PlacedSpan(stride: nat, st: Stored, head: int) {
    && st.len != 0 && (stride == 1 || st.len % 3 == 0)
    && st.cover + (if st.len > 0 then st.len else 1) <= head
  }

  predicate AgreeBelow(a: seq<nat>, b: seq<nat>, head: int) {
    |a| == |b| && 0 <= head <= |a| && a[..head] == b[..head]
  }

  lemma CoverFrame(a: seq<nat>, b: seq<nat>, head: int, k: int)
    requires AgreeBelow(a, b, head) && k < head
    ensures CoverAt(a, k) == CoverAt(b, k)
  {
    if 0 <= k {
      assert a[k] == a[..head][k] && b[k] == b[..head][k];
    }
  }

  lemma SpanValueFrame(stride: nat, a: seq<nat>, b: seq<nat>, st: Stored, x: int, head: int)
    requires IsStride(stride) && AgreeBelow(a, b, head) && SpanTouches(stride, st, x) && PlacedSpan(stride, st, head)
    ensures SpanValue(stride, a, st, x) == SpanValue(stride, b, st, x)
  {
    var k := st.cover + Times(stride, x - st.x);
    if st.len < 0 {
      CoverFrame(a, b, head, st.cover);
    } else {
      CoverFrame(a, b, head, k);
      if stride == 3 {
        CoverFrame(a, b, head, k + 1);
        CoverFrame(a, b, head, k + 2);
      }
    }
  }

  lemma {:induction false} DecodeFrame(stride: nat, a: seq<nat>, b: seq<nat>, spans: seq<Stored>, x: int, head: int)
    requires IsStride(stride) && AgreeBelow(a, b, head) && Placed(stride, spans, head)
    ensures Decode(stride, a, spans, x) == Decode(stride, b, spans, x)
    decreases |spans|
  {
    if spans != [] {
      var st := spans[|spans| - 1];
      if SpanTouches(stride, st, x) {
        SpanValueFrame(stride, a, b, st, x, head);
      } else {
        DecodeFrame(stride, a, b, spans[..|spans| - 1], x, head);
      }
    }
  }

  /** Reads back as: the spans in use decode, pixel by pixel, to the operations. */
  ghost predicate ReadsBack(stride: nat, covers: seq<nat>, spans: seq<Stored>, ops: seq<Op>) {
    forall x :: Decode(stride, covers, spans, x) == OpsAt(stride, ops, x)
  }

  /** A span takes over one operation's pixels from the column `from` on. */
  ghost predicate Shows(stride: nat, covers: seq<nat>, st: Stored, op: Op) {
    forall x :: Touches(op, x) ==> SpanTouches(stride, st, x) && SpanValue(stride, covers, st, x) == Value(stride, op)
  }

  /** Adding a span for a new operation. */
  lemma ReadsBackNew(stride: nat, a: seq<nat>, b: seq<nat>, spans: seq<Stored>, st: Stored, ops: seq<Op>, op: Op, head: int)
    requires IsStride(stride) && AgreeBelow(a, b, head) && Placed(stride, spans, head)
    requires ReadsBack(stride, a, spans, ops) && Shows(stride, b, st, op)
    requires forall x :: SpanTouches(stride, st, x) ==> Touches(op, x)
    ensures ReadsBack(stride, b, spans + [st], ops + [op])
  {
    forall x ensures Decode(stride, b, spans + [st], x) == OpsAt(stride, ops + [op], x) {
      DecodePush(stride, b, spans, st, x);
      OpsAtPush(stride, ops, op, x);
      DecodeFrame(stride, a, b, spans, x, head);
      assert Decode(stride, a, spans, x) == OpsAt(stride, ops, x);
    }
  }

  /** Lengthening the last span by a new operation. */
  lemma ReadsBackLonger(stride: nat, a: seq<nat>, b: seq<nat>, spans: seq<Stored>, st: Stored, longer: Stored,
                        ops: seq<Op>, op: Op, head: int)
    requires IsStride(stride) && AgreeBelow(a, b, head) && Placed(stride, spans + [st], head)
    requires ReadsBack(stride, a, spans + [st], ops) && Shows(stride, b, longer, op)
    requires longer.x == st.x && longer.cover == st.cover && (longer.len > 0 <==> st.len > 0)
    requires forall x :: SpanTouches(stride, longer, x) <==> SpanTouches(stride, st, x) || Touches(op, x)
    ensures ReadsBack(stride, b, spans + [longer], ops + [op])
  {
    assert (spans + [st])[|spans|] == st;
    assert Placed(stride, spans, head) by {
      assert forall i :: 0 <= i < |spans| ==> (spans + [st])[i] == spans[i];
    }
    forall x ensures Decode(stride, b, spans + [longer], x) == OpsAt(stride, ops + [op], x) {
      DecodePush(stride, b, spans, longer, x);
      DecodePush(stride, a, spans, st, x);
      OpsAtPush(stride, ops, op, x);
      DecodeFrame(stride, a, b, spans, x, head);
      if SpanTouches(stride, st, x) {
        SpanValueFrame(stride, a, b, st, x, head);
      }
      assert Decode(stride, a, spans + [st], x) == OpsAt(stride, ops, x);
    }
  }

  /** How a list of spans reaches pixel x. */
  function TouchIn(stride: nat, spans: seq<Stored>, x: int): Touch {
    if spans == [] then Skipped
    else if SpanTouches(stride, spans[|spans| - 1], x) then (if spans[|spans| - 1].len > 0 then Own else Shared)
    else TouchIn(stride, spans[..|spans| - 1], x)
  }

  lemma TouchInPush(stride: nat, spans: seq<Stored>, st: Stored, x: int)
    ensures TouchIn(stride, spans + [st], x) ==
            if SpanTouches(stride, st, x) then (if st.len > 0 then Own else Shared) else TouchIn(stride, spans, x)
  {
    assert (spans + [st])[..|spans|] == spans;
  }

  /** What a container makes of a reached pixel: the packed one keeps runs apart,
      the unpacked one gives every pixel covers of its own. */
  function Kept(packed: bool, t: Touch): Touch {
    if t == Shared && !packed then Own else t
  }

  /** The spans reach the pixels the operations do, as the container keeps them. */
  ghost predicate Reaches(packed: bool, stride: nat, spans: seq<Stored>, ops: seq<Op>) {
    forall x :: TouchIn(stride, spans, x) == Kept(packed, TouchAt(ops, x))
  }

  /** A span's sign tells what kind of operations it holds. */
  predicate Kind(packed: bool, st: Stored, op: Op) {
    if st.len > 0 then op.AddCell? || !packed else op.AddSpan? && packed
  }

  lemma ReachesNew(packed: bool, stride: nat, spans: seq<Stored>, st: Stored, ops: seq<Op>, op: Op)
    requires Reaches(packed, stride, spans, ops) && Kind(packed, st, op)
    requires forall x :: SpanTouches(stride, st, x) <==> Touches(op, x)
    ensures Reaches(packed, stride, spans + [st], ops + [op])
  {
    hide SpanTouches, Touches;
    forall x ensures TouchIn(stride, spans + [st], x) == Kept(packed, TouchAt(ops + [op], x)) {
      TouchInPush(stride, spans, st, x);
      TouchAtPush(ops, op, x);
      assert TouchIn(stride, spans, x) == Kept(packed, TouchAt(ops, x));
    }
  }

  lemma ReachesLonger(packed: bool, stride: nat, spans: seq<Stored>, st: Stored, longer: Stored, ops: seq<Op>, op: Op)
    requires Reaches(packed, stride, spans + [st], ops) && Kind(packed, longer, op) && (longer.len > 0 <==> st.len > 0)
    requires forall x :: SpanTouches(stride, longer, x) <==> SpanTouches(stride, st, x) || Touches(op, x)
    ensures Reaches(packed, stride, spans + [longer], ops + [op])
  {
    hide SpanTouches, Touches;
    forall x ensures TouchIn(stride, spans + [longer], x) == Kept(packed, TouchAt(ops + [op], x)) {
      TouchInPush(stride, spans, longer, x);
      TouchInPush(stride, spans, st, x);
      TouchAtPush(ops, op, x);
      assert TouchIn(stride, spans + [st], x) == Kept(packed, TouchAt(ops, x));
    }
  }

  /** Spans run left to right without overlapping. */
  predicate InTurn(stride: nat, spans: seq<Stored>) {
    forall i, j :: 0 <= i < j < |spans| ==> Abs(spans[i].len) <= Times(stride, spans[j].x - spans[i].x)
  }

  /** They also end by the column edge. */
  predicate SpansApart(stride: nat, spans: seq<Stored>, edge: int) {
    (forall i :: 0 <= i < |spans| ==> Abs(spans[i].len) <= Times(stride, edge - spans[i].x)) && InTurn(stride, spans)
  }

  lemma ApartPush(stride: nat, spans: seq<Stored>, st: Stored, edge: int, edge': int)
    requires IsStride(stride) && SpansApart(stride, spans, edge) && edge <= st.x && edge <= edge'
    requires Abs(st.len) == Times(stride, edge' - st.x)
    ensures SpansApart(stride, spans + [st], edge')
  {
  }

  lemma ApartLonger(stride: nat, spans: seq<Stored>, st: Stored, longer: Stored, edge: int, edge': int)
    requires IsStride(stride) && SpansApart(stride, spans + [st], edge) && longer.x == st.x && edge <= edge'
    requires Abs(longer.len) == Times(stride, edge' - st.x)
    ensures SpansApart(stride, spans + [longer], edge')
  {
    var was, now := spans + [st], spans + [longer];
    forall i | 0 <= i < |now| ensures Abs(now[i].len) <= Times(stride, edge' - now[i].x) {
      assert i < |spans| ==> now[i] == was[i];
    }
    forall i, j | 0 <= i < j < |now| ensures Abs(now[i].len) <= Times(stride, now[j].x - now[i].x) {
      assert now[i] == was[i] && now[j].x == was[j].x;
    }
  }

  /** A run that could have been stored as the end of the one before it. */
  predicate Joinable(stride: nat, covers: seq<nat>, s: Stored, t: Stored) {
    s.len < 0 && t.len < 0 && Times(stride, t.x - s.x) == -s.len && CoverAt(covers, s.cover) == CoverAt(covers, t.cover)
  }

  /** Runs of one cover that touch are one span. */
  predicate Merged(stride: nat, covers: seq<nat>, spans: seq<Stored>) {
    forall i :: 0 < i < |spans| ==> !Joinable(stride, covers, spans[i - 1], spans[i])
  }

  lemma MergedNew(stride: nat, a: seq<nat>, b: seq<nat>, spans: seq<Stored>, st: Stored, head: int)
    requires AgreeBelow(a, b, head) && Placed(stride, spans, head) && Merged(stride, a, spans)
    requires spans != [] ==> !Joinable(stride, b, spans[|spans| - 1], st)
    ensures Merged(stride, b, spans + [st])
  {
    forall i | 0 < i < |spans| ensures !Joinable(stride, b, spans[i - 1], spans[i]) {
      if spans[i - 1].len < 0 && spans[i].len < 0 {
        assert PlacedSpan(stride, spans[i - 1], head) && PlacedSpan(stride, spans[i], head);
        CoverFrame(a, b, head, spans[i - 1].cover);
        CoverFrame(a, b, head, spans[i].cover);
        assert !Joinable(stride, a, spans[i - 1], spans[i]);
      }
    }
  }

  lemma MergedLonger(stride: nat, a: seq<nat>, b: seq<nat>, spans: seq<Stored>, st: Stored, longer: Stored, head: int)
    requires AgreeBelow(a, b, head) && Placed(stride, spans + [st], head) && Merged(stride, a, spans + [st])
    requires longer.x == st.x && longer.cover == st.cover && (longer.len < 0 <==> st.len < 0)
    ensures Merged(stride, b, spans + [longer])
  {
    var was, now := spans + [st], spans + [longer];
    forall i | 0 < i < |now| ensures !Joinable(stride, b, now[i - 1], now[i]) {
      assert now[i - 1] == was[i - 1] && now[i].x == was[i].x && now[i].cover == was[i].cover;
      if now[i - 1].len < 0 && now[i].len < 0 {
        assert PlacedSpan(stride, was[i - 1], head) && PlacedSpan(stride, was[i], head);
        CoverFrame(a, b, head, was[i - 1].cover);
        CoverFrame(a, b, head, was[i].cover);
        assert !Joinable(stride, a, was[i - 1], was[i]);
      }
    }
  }

  // ----- the span a pixel lies in

  /** Of spans that do not overlap, the one that touches a pixel is the one read. */
  lemma {:induction false} TouchedBy(stride: nat, covers: seq<nat>, spans: seq<Stored>, i: nat, x: int)
    requires IsStride(stride) && InTurn(stride, spans) && i < |spans| && SpanTouches(stride, spans[i], x)
    ensures TouchIn(stride, spans, x) == if spans[i].len > 0 then Own else Shared
    ensures Decode(stride, covers, spans, x) == SpanValue(stride, covers, spans[i], x)
    decreases |spans|
  {
    hide SpanValue;
    var last := |spans| - 1;
    if i < last {
      assert !SpanTouches(stride, spans[last], x) by {
        assert Abs(spans[i].len) <= Times(stride, spans[last].x - spans[i].x);
      }
      TouchedBy(stride, covers, spans[..last], i, x);
    }
  }

  lemma {:induction false} TouchingSpan(stride: nat, spans: seq<Stored>, x: int) returns (i: nat)
    requires TouchIn(stride, spans, x) != Skipped
    ensures i < |spans| && SpanTouches(stride, spans[i], x)
    decreases |spans|
  {
    hide SpanTouches;
    if SpanTouches(stride, spans[|spans| - 1], x) {
      i := |spans| - 1;
    } else {
      i := TouchingSpan(stride, spans[..|spans| - 1], x);
    }
  }

  /** The column after a span's last. */
  function After(stride: nat, st: Stored): int {
    st.x + if stride == 1 then Abs(st.len) else Abs(st.len) / 3
  }

  /** Spans that touch different pixels next to each other are neighbours. */
  lemma NextSpan(stride: nat, spans: seq<Stored>, head: int, i: nat, j: nat)
    requires IsStride(stride) && InTurn(stride, spans) && Placed(stride, spans, head) && i < |spans| && j < |spans|
    requires SpanTouches(stride, spans[j], After(stride, spans[i]))
    ensures j == i + 1 && spans[j].x == After(stride, spans[i]) && Times(stride, spans[j].x - spans[i].x) == Abs(spans[i].len)
  {
    assert PlacedSpan(stride, spans[i], head);
    if j < i {
      EarlierEnds(stride, spans, head, j, i);
    } else if i + 1 < j {
      LaterStarts(stride, spans, head, i, j);
    }
  }

  lemma EarlierEnds(stride: nat, spans: seq<Stored>, head: int, i: nat, j: nat)
    requires IsStride(stride) && InTurn(stride, spans) && Placed(stride, spans, head) && i < j < |spans|
    ensures !SpanTouches(stride, spans[i], After(stride, spans[j]))
  {
    assert PlacedSpan(stride, spans[j], head);
    assert Abs(spans[i].len) <= Times(stride, spans[j].x - spans[i].x);
  }

  lemma LaterStarts(stride: nat, spans: seq<Stored>, head: int, i: nat, j: nat)
    requires IsStride(stride) && InTurn(stride, spans) && Placed(stride, spans, head) && i + 1 < j < |spans|
    ensures After(stride, spans[i]) < spans[j].x
  {
    assert PlacedSpan(stride, spans[i], head) && PlacedSpan(stride, spans[i + 1], head);
    assert Abs(spans[i].len) <= Times(stride, spans[i + 1].x - spans[i].x);
    assert Abs(spans[i + 1].len) <= Times(stride, spans[j].x - spans[i + 1].x);
  }

  /** Pixels x and x + 1 lie in runs of one cover. */
  ghost predicate OneRun(stride: nat, covers: seq<nat>, spans: seq<Stored>, x: int) {
    && TouchIn(stride, spans, x) == Shared && TouchIn(stride, spans, x + 1) == Shared
    && Decode(stride, covers, spans, x) == Decode(stride, covers, spans, x + 1)
  }

  /** A span of one cover is the whole run its pixels lie in. */
  lemma RunIsWhole(stride: nat, covers: seq<nat>, spans: seq<Stored>, i: nat)
    requires IsStride(stride) && InTurn(stride, spans) && Placed(stride, spans, |covers|) && Merged(stride, covers, spans)
    requires i < |spans| && spans[i].len < 0
    ensures forall x :: spans[i].x <= x < After(stride, spans[i]) - 1 ==> OneRun(stride, covers, spans, x)
    ensures !OneRun(stride, covers, spans, spans[i].x - 1) && !OneRun(stride, covers, spans, After(stride, spans[i]) - 1)
  {
    hide OneRun, Merged, InTurn, Placed;
    forall x | spans[i].x <= x < After(stride, spans[i]) - 1 ensures OneRun(stride, covers, spans, x) {
      InsideRun(stride, covers, spans, i, x);
    }
    NothingBefore(stride, covers, spans, i);
    NothingAfter(stride, covers, spans, i);
  }

  lemma InsideRun(stride: nat, covers: seq<nat>, spans: seq<Stored>, i: nat, x: int)
    requires IsStride(stride) && InTurn(stride, spans) && Placed(stride, spans, |covers|) && i < |spans| && spans[i].len < 0
    requires spans[i].x <= x < After(stride, spans[i]) - 1
    ensures OneRun(stride, covers, spans, x)
  {
    assert PlacedSpan(stride, spans[i], |covers|);
    hide InTurn, Decode, TouchIn;
    TouchedBy(stride, covers, spans, i, x);
    TouchedBy(stride, covers, spans, i, x + 1);
  }

  /** A run that follows another and does not merge with it has another cover. */
  lemma Apart(stride: nat, covers: seq<nat>, spans: seq<Stored>, i: nat)
    requires IsStride(stride) && InTurn(stride, spans) && Placed(stride, spans, |covers|) && Merged(stride, covers, spans)
    requires i + 1 < |spans| && spans[i].len < 0 && spans[i + 1].len < 0 && spans[i + 1].x == After(stride, spans[i])
    ensures Decode(stride, covers, spans, spans[i + 1].x - 1) != Decode(stride, covers, spans, spans[i + 1].x)
  {
    assert PlacedSpan(stride, spans[i], |covers|) && PlacedSpan(stride, spans[i + 1], |covers|);
    assert !Joinable(stride, covers, spans[(i + 1) - 1], spans[i + 1]);
    hide InTurn, Decode, TouchIn, Merged, Placed;
    TouchedBy(stride, covers, spans, i, spans[i + 1].x - 1);
    TouchedBy(stride, covers, spans, i + 1, spans[i + 1].x);
  }

  lemma NothingAfter(stride: nat, covers: seq<nat>, spans: seq<Stored>, i: nat)
    requires IsStride(stride) && InTurn(stride, spans) && Placed(stride, spans, |covers|) && Merged(stride, covers, spans)
    requires i < |spans| && spans[i].len < 0
    ensures !OneRun(stride, covers, spans, After(stride, spans[i]) - 1)
  {
    hide Decode, Merged, InTurn;
    var e := After(stride, spans[i]);
    if TouchIn(stride, spans, e) == Shared {
      var j := TouchingSpan(stride, spans, e);
      NextSpan(stride, spans, |covers|, i, j);
      TouchedBy(stride, covers, spans, j, e);
      Apart(stride, covers, spans, i);
    }
  }

  lemma NothingBefore(stride: nat, covers: seq<nat>, spans: seq<Stored>, i: nat)
    requires IsStride(stride) && InTurn(stride, spans) && Placed(stride, spans, |covers|) && Merged(stride, covers, spans)
    requires i < |spans| && spans[i].len < 0
    ensures !OneRun(stride, covers, spans, spans[i].x - 1)
  {
    hide Decode, Merged;
    var x := spans[i].x;
    if TouchIn(stride, spans, x - 1) == Shared {
      var j := TouchingSpan(stride, spans, x - 1);
      TouchedBy(stride, covers, spans, j, x - 1);
      EndsBefore(stride, spans, |covers|, i, j);
      hide InTurn, SpanTouches;
      NextSpan(stride, spans, |covers|, j, i);
      Apart(stride, covers, spans, j);
    }
  }

  /** A span that touches the pixel before another ends there. */
  lemma EndsBefore(stride: nat, spans: seq<Stored>, head: int, i: nat, j: nat)
    requires IsStride(stride) && InTurn(stride, spans) && Placed(stride, spans, head) && i < |spans| && j < |spans|
    requires SpanTouches(stride, spans[j], spans[i].x - 1)
    ensures After(stride, spans[j]) == spans[i].x && SpanTouches(stride, spans[i], spans[i].x)
  {
    assert PlacedSpan(stride, spans[i], head) && PlacedSpan(stride, spans[j], head);
    if i < j {
      StartsLater(stride, spans, i, j);
    } else if j < i {
      assert Abs(spans[j].len) <= Times(stride, spans[i].x - spans[j].x);
    }
    hide InTurn, Placed;
    NextTo(stride, spans[i], spans[j], head, i < j, i == j);
  }

  /** One span that touches the pixel before another, and does not reach into it. */
  lemma NextTo(stride: nat, a: Stored, b: Stored, head: int, after: bool, same: bool)
    requires IsStride(stride) && PlacedSpan(stride, a, head) && PlacedSpan(stride, b, head) && SpanTouches(stride, b, a.x - 1)
    requires if same then a == b else if after then a.x <= b.x else Abs(b.len) <= Times(stride, a.x - b.x)
    ensures After(stride, b) == a.x && SpanTouches(stride, a, a.x)
  {
  }

  lemma StartsLater(stride: nat, spans: seq<Stored>, i: nat, j: nat)
    requires IsStride(stride) && InTurn(stride, spans) && i < j < |spans|
    ensures spans[i].x <= spans[j].x
  {
    assert Abs(spans[i].len) <= Times(stride, spans[j].x - spans[i].x);
  }

  /** Where the operations so far end. */
  function Edge(ops: seq<Op>, lo: int): int {
    if ops == [] then lo else End(ops[|ops| - 1])
  }

  /** Each operation of a row starts after the ones before it have ended. */
  lemma OrderedNext(stride: nat, row: seq<Op>, i: nat, lo: int, hi: int)
    requires Ordered(stride, row, lo, hi) && i < |row|
    ensures WellFormed(stride, row[i]) && Edge(row[..i], lo) <= row[i].x && End(row[i]) <= hi
    ensures match row[i] case AddCell(x, _) => x < hi case AddSpan(x, len, _) => x + len <= hi
  {
    hide WellFormed;
    assert WellFormed(stride, row[i]) && End(row[i]) <= hi;
    if i > 0 {
      assert row[..i][i - 1] == row[i - 1];
    }
  }

  /** The last span ends where the operations do, and its own covers at head. */
  predicate LastSpan(stride: nat, lo: int, edge: int, head: int, st: Stored) {
    && lo <= st.x && Times(stride, edge - st.x) == Abs(st.len)
    && PlacedSpan(stride, st, head) && (st.len > 0 ==> st.cover + st.len == head)
  }

  /** The spans in use represent the operations; their covers lie below head. */
  ghost predicate Represents(packed: bool, stride: nat, lo: int, hi: int, ops: seq<Op>, covers: seq<nat>, head: int, used: seq<Stored>) {
    var edge := Edge(ops, lo);
    && IsStride(stride) && Ordered(stride, ops, lo, hi) && lo <= edge <= hi
    && |used| <= edge - lo && 0 <= head <= Times(stride, edge - lo) && head <= |covers|
    && (ops == [] <==> used == [])
    && (used != [] ==> LastSpan(stride, lo, edge, head, used[|used| - 1]))
    && Placed(stride, used, head) && SpansApart(stride, used, edge)
    && ReadsBack(stride, covers, used, ops) && Reaches(packed, stride, used, ops) && Merged(stride, covers, used)
  }

  lemma RepresentsNone(packed: bool, stride: nat, lo: int, hi: int, covers: seq<nat>)
    requires IsStride(stride) && lo <= hi
    ensures Represents(packed, stride, lo, hi, [], covers, 0, [])
  {
  }

  /** Covers may be written above head, and head moved up. */
  ghost predicate Grows(stride: nat, lo: int, a: seq<nat>, b: seq<nat>, head: int, head': int, op: Op) {
    AgreeBelow(a, b, head) && head <= head' <= Times(stride, End(op) - lo) && head' <= |b|
  }

  lemma RepresentsFacts(packed: bool, stride: nat, lo: int, hi: int, ops: seq<Op>, covers: seq<nat>, head: int, used: seq<Stored>)
    requires Represents(packed, stride, lo, hi, ops, covers, head, used)
    ensures IsStride(stride) && lo <= Edge(ops, lo) <= hi && (ops == [] <==> used == [])
    ensures |used| <= Edge(ops, lo) - lo && 0 <= head <= Times(stride, Edge(ops, lo) - lo) && head <= |covers|
    ensures used != [] ==> LastSpan(stride, lo, Edge(ops, lo), head, used[|used| - 1])
  {
  }

  lemma RepresentsSpans(packed: bool, stride: nat, lo: int, hi: int, ops: seq<Op>, covers: seq<nat>, head: int, used: seq<Stored>)
    requires Represents(packed, stride, lo, hi, ops, covers, head, used)
    ensures Placed(stride, used, |covers|) && InTurn(stride, used) && Merged(stride, covers, used) && Reaches(packed, stride, used, ops)
  {
    hide ReadsBack, Reaches, Ordered, LastSpan, Joinable;
  }

  lemma RepresentsNew(packed: bool, stride: nat, lo: int, hi: int, ops: seq<Op>, a: seq<nat>, b: seq<nat>, head: int, head': int,
                      used: seq<Stored>, st: Stored, op: Op)
    requires Represents(packed, stride, lo, hi, ops, a, head, used) && Grows(stride, lo, a, b, head, head', op)
    requires WellFormed(stride, op) && Edge(ops, lo) <= op.x && End(op) <= hi
    requires st.x == op.x && Abs(st.len) == Times(stride, End(op) - op.x)
    requires PlacedSpan(stride, st, head') && Shows(stride, b, st, op) && (st.len > 0 ==> st.cover + st.len == head')
    requires Kind(packed, st, op) && (used != [] ==> !Joinable(stride, b, used[|used| - 1], st))
    ensures Represents(packed, stride, lo, hi, ops + [op], b, head', used + [st])
  {
    hide Merged, Joinable, SpansApart, ReadsBack, Reaches, Shows, Placed;
    MergedNew(stride, a, b, used, st, head);
    OrderedPush(stride, ops, op, lo, Edge(ops, lo), hi);
    ReadsBackNew(stride, a, b, used, st, ops, op, head);
    ReachesNew(packed, stride, used, st, ops, op);
    ApartPush(stride, used, st, Edge(ops, lo), End(op));
    PlacedPush(stride, used, st, head, head');
  }

  lemma PlacedPush(stride: nat, used: seq<Stored>, st: Stored, head: int, head': int)
    requires Placed(stride, used, head) && head <= head' && PlacedSpan(stride, st, head')
    ensures Placed(stride, used + [st], head')
  {
  }

  lemma RepresentsLonger(packed: bool, stride: nat, lo: int, hi: int, ops: seq<Op>, a: seq<nat>, b: seq<nat>, head: int, head': int,
                         used: seq<Stored>, st: Stored, longer: Stored, op: Op)
    requires Represents(packed, stride, lo, hi, ops, a, head, used + [st]) && Grows(stride, lo, a, b, head, head', op)
    requires WellFormed(stride, op) && Edge(ops, lo) == op.x && End(op) <= hi
    requires longer.x == st.x && longer.cover == st.cover && (longer.len > 0 <==> st.len > 0)
    requires Abs(longer.len) == Abs(st.len) + Times(stride, End(op) - op.x)
    requires PlacedSpan(stride, longer, head') && Shows(stride, b, longer, op)
    requires Kind(packed, longer, op) && (longer.len > 0 ==> longer.cover + longer.len == head')
    ensures Represents(packed, stride, lo, hi, ops + [op], b, head', used + [longer])
  {
    hide Merged, Joinable, SpansApart, ReadsBack, Reaches, Shows;
    MergedLonger(stride, a, b, used, st, longer, head);
    assert (used + [st])[|used|] == st;
    OrderedPush(stride, ops, op, lo, Edge(ops, lo), hi);
    ReadsBackLonger(stride, a, b, used, st, longer, ops, op, head);
    ReachesLonger(packed, stride, used, st, longer, ops, op);
    ApartLonger(stride, used, st, longer, Edge(ops, lo), End(op));
    assert Placed(stride, used + [longer], head') by {
      assert forall i :: 0 <= i < |used| ==> (used + [st])[i] == used[i];
    }
  }

  /** Storing one pixel's covers at position at. */
  function Write(covers: seq<nat>, at: nat, cs: seq<nat>): (r: seq<nat>)
    requires IsStride(|cs|) && at + |cs| <= |covers| && forall i :: 0 <= i < |cs| ==> cs[i] < 256
    ensures AgreeBelow(covers, r, at) && forall i :: 0 <= i < |cs| ==> r[at + i] == cs[i]
  {
    if |cs| == 1 then covers[at := Byte(cs[0])]
    else covers[at := Byte(cs[0])][at + 1 := Byte(cs[1])][at + 2 := Byte(cs[2])]
  }

  /** A span showing one pixel's own covers. */
  lemma ShowsCell(stride: nat, covers: seq<nat>, st: Stored, x: int, cs: seq<nat>)
    requires IsStride(stride) && WellFormed(stride, Op.AddCell(x, cs)) && st.x <= x && st.len >= Times(stride, x + 1 - st.x)
    requires var k := st.cover + Times(stride, x - st.x);
             k + stride <= |covers| && forall i :: 0 <= i < stride ==> covers[k + i] == cs[i]
    ensures Shows(stride, covers, st, Op.AddCell(x, cs))
  {
    var k := st.cover + Times(stride, x - st.x);
    assert covers[k + 0] == cs[0];
    assert cs == if stride == 1 then [covers[k]] else [covers[k], covers[k + 1], covers[k + 2]];
    forall x' | Touches(Op.AddCell(x, cs), x')
      ensures SpanTouches(stride, st, x') && SpanValue(stride, covers, st, x') == Value(stride, Op.AddCell(x, cs))
    {
      assert x' == x;
    }
  }

  /** A solid span shows its single cover. */
  lemma ShowsSolid(stride: nat, covers: seq<nat>, st: Stored, op: Op)
    requires IsStride(stride) && WellFormed(stride, op) && op.AddSpan? && st.len < 0
    requires st.x <= op.x && Times(stride, End(op) - st.x) <= -st.len
    requires st.cover < |covers| && covers[st.cover] == op.alpha
    ensures Shows(stride, covers, st, op)
  {
  }

  class PackedScanline {
    const stride: nat
    var lastX: int
    var covers: seq<nat>
    var cover: nat
    var spans: seq<Stored>
    var cur: nat
    /** The operations since the last reset_spans, and the columns reserved. */
    ghost var ops: seq<Op>
    ghost var lo: int
    ghost var hi: int

    ghost predicate Valid()
      reads this
    {
      && Room(stride, lo, hi) && |spans| == |covers| && Times(stride, hi - lo + 2) <= |spans|
      && cur < |spans|
      && Represents(true, stride, lo, hi, ops, covers, cover, spans[1..cur + 1])
      && (if ops == [] then lastX == NO_X && spans[0].len == 0 else lastX == Edge(ops, lo) - 1)
    }

    /** What a renderer given the emitted spans reads at pixel x. */
    ghost function At(x: int): (cs: seq<nat>)
      reads this
      requires Valid()
      ensures cs == OpsAt(stride, ops, x)
    {
      Decode(stride, covers, spans[1..cur + 1], x)
    }

    /** The spans in use are disjoint, read covers the container has, and reach the
        pixels the operations do, runs apart from pixels with covers of their own. */
    lemma SpansSound()
      requires Valid()
      ensures Placed(stride, spans[1..cur + 1], |covers|) && InTurn(stride, spans[1..cur + 1])
      ensures Reaches(true, stride, spans[1..cur + 1], ops) && Merged(stride, covers, spans[1..cur + 1])
    {
      RepresentsSpans(true, stride, lo, hi, ops, covers, cover, spans[1..cur + 1]);
    }

    lemma LastInUse()
      requires Valid()
      ensures cur < |spans|
    {
    }

    constructor (stride: nat)
      ensures this.stride == stride && |spans| == |covers| > 0
    {
      this.stride := stride;
      lastX, covers, cover, spans, cur := NO_X, [0, 0, 0, 0], 0, seq(4, _ => Stored(0, 0, 0)), 0;
      ops, lo, hi := [], 0, 0;
    }

    method Reset(minX: int, maxX: int)
      requires IsStride(stride) && |spans| == |covers| > 0 && minX <= maxX && Room(stride, minX, maxX + 1)
      modifies this
      ensures Valid() && ops == [] && lo == minX && hi == maxX + 1
    {
      var maxLen := Times(stride, maxX - minX + 3);
      if maxLen > |spans| {
        spans := spans + seq(maxLen - |spans|, _ => Stored(0, 0, 0));
        covers := covers + seq(maxLen - |covers|, _ => 0);
      }
      lo, hi := minX, maxX + 1;
      ops := [];
      lastX, cover, cur := NO_X, 0, 0;
      spans := spans[0 := spans[0].(len := 0)];
      RepresentsNone(true, stride, lo, hi, covers);
    }

    method ResetSpans()
      requires Valid()
      modifies this
      ensures Valid() && ops == [] && lo == old(lo) && hi == old(hi)
    {
      ops := [];
      lastX, cover, cur := NO_X, 0, 0;
      spans := spans[0 := spans[0].(len := 0)];
      RepresentsNone(true, stride, lo, hi, covers);
    }

    /** The fields between writing an operation's covers and recording it. */
    ghost predicate Pending(was: seq<nat>, op: Op, head': int)
      reads this
    {
      && Room(stride, lo, hi) && |spans| == |covers| && Times(stride, hi - lo + 2) <= |spans| && cur < |spans|
      && Represents(true, stride, lo, hi, ops, was, cover, spans[1..cur + 1]) && Grows(stride, lo, was, covers, cover, head', op)
      && WellFormed(stride, op) && Edge(ops, lo) <= op.x && End(op) <= hi
    }

    /** `++cur_; spans_[cur_] = {x, len, cover_}`. */
    method StartSpan(x: int, len: int, ghost was: seq<nat>, ghost op: Op, ghost head': nat)
      requires Pending(was, op, head') && x == op.x && Abs(len) == Times(stride, End(op) - op.x)
      requires PlacedSpan(stride, Stored(x, len, cover), head') && Shows(stride, covers, Stored(x, len, cover), op)
      requires Kind(true, Stored(x, len, cover), op) && (len > 0 ==> cover + len == head')
      requires cur > 0 ==> !Joinable(stride, covers, spans[cur], Stored(x, len, cover))
      modifies `spans, `cur
      ensures |spans| == |covers| && cur < |spans| && (ops != [] ==> spans[0] == old(spans[0]))
      ensures Represents(true, stride, lo, hi, ops + [op], covers, head', spans[1..cur + 1])
    {
      hide Represents, Shows, Grows;
      RepresentsFacts(true, stride, lo, hi, ops, was, cover, spans[1..cur + 1]);
      ghost var used := spans[1..cur + 1];
      cur := cur + 1;
      Wrap16Exact(x);
      Wrap16Exact(len);
      spans := spans[cur := Stored(Wrap16(x), Wrap16(len), cover)];
      assert spans[1..cur + 1] == used + [spans[cur]];
      RepresentsNew(true, stride, lo, hi, ops, was, covers, cover, head', used, spans[cur], op);
    }

    /** `spans_[cur_].len += more`. */
    method LengthenSpan(more: int, ghost was: seq<nat>, ghost op: Op, ghost head': nat)
      requires Pending(was, op, head') && cur > 0 && Edge(ops, lo) == op.x
      requires Abs(more) == Times(stride, End(op) - op.x) && (more > 0 <==> spans[cur].len > 0)
      requires var longer := spans[cur].(len := spans[cur].len + more);
               && PlacedSpan(stride, longer, head') && Shows(stride, covers, longer, op)
               && Kind(true, longer, op) && (more > 0 ==> longer.cover + longer.len == head')
      modifies `spans
      ensures |spans| == |covers|
      ensures Represents(true, stride, lo, hi, ops + [op], covers, head', spans[1..cur + 1])
    {
      hide Represents, Shows, Grows;
      RepresentsFacts(true, stride, lo, hi, ops, was, cover, spans[1..cur + 1]);
      ghost var used := spans[1..cur + 1];
      ghost var st, front := spans[cur], used[..cur - 1];
      Wrap16Exact(st.len + more);
      spans := spans[cur := spans[cur].(len := Wrap16(spans[cur].len + more))];
      assert used == front + [st] && spans[1..cur + 1] == front + [spans[cur]];
      RepresentsLonger(true, stride, lo, hi, ops, was, covers, cover, head', front, st, spans[cur], op);
    }

    /** The covers of a pixel, in the last span or a new one. */
    method RecordCell(x: int, cs: seq<nat>, ghost was: seq<nat>)
      requires Pending(was, Op.AddCell(x, cs), cover + stride)
      requires forall k :: 0 <= k < stride ==> covers[cover + k] == cs[k]
      requires if ops == [] then lastX == NO_X && spans[0].len == 0 else lastX == Edge(ops, lo) - 1
      modifies `spans, `cur
      ensures |spans| == |covers| && cur < |spans|
      ensures Represents(true, stride, lo, hi, ops + [Op.AddCell(x, cs)], covers, cover + stride, spans[1..cur + 1])
    {
      hide Represents, Shows, Ordered;
      ghost var op := Op.AddCell(x, cs);
      RepresentsFacts(true, stride, lo, hi, ops, was, cover, spans[1..cur + 1]);
      if x == lastX + 1 && spans[cur].len > 0 {
        ShowsCell(stride, covers, spans[cur].(len := spans[cur].len + stride), x, cs);
        LengthenSpan(stride, was, op, cover + stride);
      } else {
        ShowsCell(stride, covers, Stored(x, stride, cover), x, cs);
        StartSpan(x, stride, was, op, cover + stride);
      }
    }

    method AddCell(x: int, cs: seq<nat>)
      requires Valid() && WellFormed(stride, Op.AddCell(x, cs)) && Edge(ops, lo) <= x < hi
      modifies this
      ensures Valid() && ops == old(ops) + [Op.AddCell(x, cs)] && lo == old(lo) && hi == old(hi)
    {
      hide Represents, Ordered, Write;
      ghost var was := covers;
      RepresentsFacts(true, stride, lo, hi, ops, covers, cover, spans[1..cur + 1]);
      covers := Write(covers, cover, cs);
      RecordCell(x, cs, was);
      lastX := x;
      cover := cover + stride;
      ops := ops + [Op.AddCell(x, cs)];
    }

    /** A run that no span in use can take over: one cover, under a negative length. */
    method StartRun(x: int, len: nat, alpha: nat)
      requires Valid() && WellFormed(stride, Op.AddSpan(x, len, alpha)) && Edge(ops, lo) <= x && x + len <= hi
      requires !(x == lastX + 1 && spans[cur].len < 0 && alpha == CoverAt(covers, spans[cur].cover))
      modifies `covers, `cover, `spans, `cur
      ensures |spans| == |covers| == old(|spans|) && cur < |spans|
      ensures Represents(true, stride, lo, hi, ops + [Op.AddSpan(x, len, alpha)], covers, cover, spans[1..cur + 1])
    {
      hide Represents, Shows, Ordered, Wrap16, Write;
      ghost var op, was := Op.AddSpan(x, len, alpha), covers;
      RepresentsFacts(true, stride, lo, hi, ops, covers, cover, spans[1..cur + 1]);
      Wrap16Exact(0 - len);
      covers := Write(covers, cover, [alpha]);
      assert covers[cover + 0] == [alpha][0];
      var n := Times(stride, Wrap16(0 - len));
      if cur > 0 && spans[cur].len < 0 {
        CoverFrame(was, covers, cover, spans[cur].cover);
      }
      ShowsSolid(stride, covers, Stored(x, n, cover), op);
      StartSpan(x, n, was, op, cover + stride);
      cover := cover + stride;
    }

    method AddSpan(x: int, len: nat, alpha: nat)
      requires Valid() && WellFormed(stride, Op.AddSpan(x, len, alpha)) && Edge(ops, lo) <= x && x + len <= hi
      modifies this
      ensures Valid() && ops == old(ops) + [Op.AddSpan(x, len, alpha)] && lo == old(lo) && hi == old(hi)
    {
      hide Represents, Shows, Ordered, Wrap16;
      ghost var op := Op.AddSpan(x, len, alpha);
      RepresentsFacts(true, stride, lo, hi, ops, covers, cover, spans[1..cur + 1]);
      if x == lastX + 1 && spans[cur].len < 0 && alpha == covers[spans[cur].cover] {
        Wrap16Exact(len);
        var more := -Times(stride, Wrap16(len));
        ShowsSolid(stride, covers, spans[cur].(len := spans[cur].len + more), op);
        LengthenSpan(more, covers, op, cover);
      } else {
        StartRun(x, len, alpha);
      }
      lastX := x + len - 1;
      ops := ops + [op];
    }

    /** Clears the row and feeds it a sweep's operations. */
    method Feed(row: seq<Op>)
      requires Valid() && Ordered(stride, row, lo, hi)
      modifies this
      ensures Valid() && cur < |spans| && ops == row && lo == old(lo) && hi == old(hi)
    {
      hide *;
      ResetSpans();
      for i := 0 to |row|
        invariant Valid() && ops == row[..i] && lo == old(lo) && hi == old(hi)
      {
        assert row[..i + 1] == row[..i] + [row[i]];
        OrderedNext(stride, row, i, lo, hi);
        match row[i]
        case AddCell(x, cs) => AddCell(x, cs);
        case AddSpan(x, len, alpha) => AddSpan(x, len, alpha);
      }
      assert row[..|row|] == row;
      LastInUse();
    }
  }

  /** `memset(&covers_[at], cover, n)`. */
  function Fill(covers: seq<nat>, at: nat, n: nat, cover: nat): (r: seq<nat>)
    requires at + n <= |covers|
    ensures AgreeBelow(covers, r, at) && forall k :: at <= k < at + n ==> r[k] == Byte(cover)
  {
    covers[..at] + seq(n, _ => Byte(cover)) + covers[at + n..]
  }

  /** A span of separate covers shows a run that was filled with one cover. */
  lemma ShowsFill(stride: nat, covers: seq<nat>, st: Stored, op: Op)
    requires IsStride(stride) && WellFormed(stride, op) && op.AddSpan? && st.len > 0
    requires st.x <= op.x && Times(stride, End(op) - st.x) <= st.len
    requires var k := st.cover + Times(stride, op.x - st.x);
             k + Times(stride, op.len) <= |covers| && forall i :: k <= i < k + Times(stride, op.len) ==> covers[i] == op.alpha
    ensures Shows(stride, covers, st, op)
  {
    forall x | Touches(op, x) ensures SpanTouches(stride, st, x) && SpanValue(stride, covers, st, x) == Value(stride, op) {
      var k := st.cover + Times(stride, x - st.x);
      assert covers[k] == op.alpha;
      if stride == 3 {
        assert covers[k + 1] == op.alpha && covers[k + 2] == op.alpha;
      }
    }
  }

  /** Every span has its own covers, stored at its column's place. */
  predicate InPlace(stride: nat, minX: int, spans: seq<Stored>) {
    forall i :: 0 <= i < |spans| ==> InPlaceSpan(stride, minX, spans[i])
  }

  predicate InPlaceSpan(stride: nat, minX: int, st: Stored) {
    st.len > 0 && st.cover == Times(stride, st.x - minX)
  }

  lemma InPlacePush(stride: nat, minX: int, spans: seq<Stored>, st: Stored)
    requires InPlace(stride, minX, spans) && InPlaceSpan(stride, minX, st)
    ensures InPlace(stride, minX, spans + [st])
  {
  }

  class UnpackedScanline {
    const stride: nat
    var lastX: int
    var minX: int
    var covers: seq<nat>
    var spans: seq<Stored>
    var cur: nat
    /** The operations since the last reset_spans, and the end of the columns
        reserved. */
    ghost var ops: seq<Op>
    ghost var hi: int

    ghost function Head(): int
      reads this
    {
      Times(stride, Edge(ops, minX) - minX)
    }

    ghost predicate Valid()
      reads this
    {
      && Room(stride, minX, hi) && |spans| == |covers| && Times(stride, hi - minX + 1) <= |spans| && cur < |spans|
      && Represents(false, stride, minX, hi, ops, covers, Head(), spans[1..cur + 1])
      && InPlace(stride, minX, spans[1..cur + 1])
      && lastX == if ops == [] then NO_X else Edge(ops, minX) - 1 - minX
    }

    ghost function At(x: int): (cs: seq<nat>)
      reads this
      requires Valid()
      ensures cs == OpsAt(stride, ops, x)
    {
      Decode(stride, covers, spans[1..cur + 1], x)
    }

    /** The spans in use are disjoint, read covers the container has, and reach the
        pixels the operations do, each with covers of its own. */
    lemma SpansSound()
      requires Valid()
      ensures Placed(stride, spans[1..cur + 1], |covers|) && InTurn(stride, spans[1..cur + 1])
      ensures Reaches(false, stride, spans[1..cur + 1], ops) && Merged(stride, covers, spans[1..cur + 1])
      ensures forall st <- spans[1..cur + 1] :: st.len > 0
    {
      RepresentsSpans(false, stride, minX, hi, ops, covers, Head(), spans[1..cur + 1]);
    }

    lemma LastInUse()
      requires Valid()
      ensures cur < |spans|
    {
    }

    constructor (stride: nat)
      ensures this.stride == stride && covers == [] && |spans| == 2
    {
      this.stride := stride;
      lastX, minX, covers, spans, cur := NO_X, 0, [], seq(2, _ => Stored(0, 0, 0)), 0;
      ops, hi := [], 0;
    }

    /** The cover buffer has a place for each cover of a row's operations. */
    predicate Holds(row: seq<Op>)
      reads this
    {
      forall op <- row :: Times(stride, End(op) - minX) <= |covers|
    }

    /** Inside the reserved columns the buffers of a valid container hold any row;
        those of one left too short hold none but the empty row. */
    lemma HoldsIff(row: seq<Op>)
      requires IsStride(stride) && Ordered(stride, row, minX, hi)
      requires Valid() || (stride == 1 && hi == minX + 1 && covers == [])
      ensures Holds(row) <==> Valid() || row == []
    {
      if row != [] && !Valid() {
        assert Times(stride, End(row[0]) - minX) > |covers|;
        assert row[0] in row;
      }
    }

    /** The covers are only sized along with the spans, of which a new container
        already holds two: on one of stride 1, a row a single column wide leaves
        no room for its cover. In every other case the buffers hold the row. */
    method Reset(minX: int, maxX: int)
      requires IsStride(stride) && minX <= maxX && Room(stride, minX, maxX + 1)
      requires |spans| == |covers| || (|spans| == 2 && covers == [])
      modifies this
      ensures Valid() <==> (old(|spans| == |covers|) || stride == 3 || maxX > minX)
      ensures !Valid() <==> |covers| < Times(stride, maxX - minX + 1)
      ensures !Valid() ==> stride == 1 && maxX == minX && covers == []
      ensures ops == [] && this.minX == minX && hi == maxX + 1
    {
      var maxLen := Times(stride, maxX - minX + 2);
      if maxLen > |spans| {
        spans := spans + seq(maxLen - |spans|, _ => Stored(0, 0, 0));
        covers := covers + seq(maxLen - |covers|, _ => 0);
      }
      ops, hi := [], maxX + 1;
      lastX := NO_X;
      this.minX := minX;
      cur := 0;
      RepresentsNone(false, stride, minX, hi, covers);
    }

    method ResetSpans()
      requires Valid()
      modifies this
      ensures Valid() && ops == [] && minX == old(minX) && hi == old(hi)
    {
      ops := [];
      lastX, cur := NO_X, 0;
      RepresentsNone(false, stride, minX, hi, covers);
    }

    /** The fields between writing an operation's covers and recording it. */
    ghost predicate Pending(was: seq<nat>, op: Op)
      reads this
    {
      && Room(stride, minX, hi) && |spans| == |covers| && Times(stride, hi - minX + 1) <= |spans| && cur < |spans|
      && Represents(false, stride, minX, hi, ops, was, Head(), spans[1..cur + 1])
      && InPlace(stride, minX, spans[1..cur + 1])
      && Grows(stride, minX, was, covers, Head(), Times(stride, End(op) - minX), op)
      && WellFormed(stride, op) && Edge(ops, minX) <= op.x && End(op) <= hi
      && lastX == if ops == [] then NO_X else Edge(ops, minX) - 1 - minX
    }

    /** Every span at its columns' place that ends with op shows op. */
    ghost predicate ShownInPlace(op: Op)
      reads this
    {
      forall st: Stored :: InPlaceSpan(stride, minX, st) && st.x <= op.x && st.len == Times(stride, End(op) - st.x)
        ==> Shows(stride, covers, st, op)
    }

    /** `++cur_; spans_[cur_] = {x + min_x_, n, x}` for the relative column x. */
    method StartSpan(x: int, n: int, ghost was: seq<nat>, ghost op: Op)
      requires Pending(was, op) && ShownInPlace(op) && x == op.x - minX && n == Times(stride, End(op) - op.x)
      modifies `spans, `cur
      ensures |spans| == |covers| && cur < |spans| && InPlace(stride, minX, spans[1..cur + 1])
      ensures Represents(false, stride, minX, hi, ops + [op], covers, Times(stride, End(op) - minX), spans[1..cur + 1])
    {
      hide Represents, Shows, Grows, InPlace, Wrap16;
      ghost var used, head' := spans[1..cur + 1], Times(stride, End(op) - minX);
      RepresentsFacts(false, stride, minX, hi, ops, was, Head(), used);
      cur := cur + 1;
      Wrap16Exact(x + minX);
      Wrap16Exact(n);
      spans := spans[cur := Stored(Wrap16(x + minX), Wrap16(n), Times(stride, x))];
      assert spans[1..cur + 1] == used + [spans[cur]];
      InPlacePush(stride, minX, used, spans[cur]);
      RepresentsNew(false, stride, minX, hi, ops, was, covers, Head(), head', used, spans[cur], op);
    }

    /** `spans_[cur_].len += n`. */
    method LengthenSpan(n: int, ghost was: seq<nat>, ghost op: Op)
      requires Pending(was, op) && ShownInPlace(op) && n == Times(stride, End(op) - op.x)
      requires ops != [] && op.x == Edge(ops, minX)
      modifies `spans
      ensures |spans| == |covers| && InPlace(stride, minX, spans[1..cur + 1])
      ensures Represents(false, stride, minX, hi, ops + [op], covers, Times(stride, End(op) - minX), spans[1..cur + 1])
    {
      hide Represents, Shows, Grows;
      ghost var used, head' := spans[1..cur + 1], Times(stride, End(op) - minX);
      RepresentsFacts(false, stride, minX, hi, ops, was, Head(), used);
      ghost var st, front := spans[cur], used[..cur - 1];
      assert InPlaceSpan(stride, minX, used[cur - 1]);
      Wrap16Exact(st.len + n);
      spans := spans[cur := spans[cur].(len := Wrap16(spans[cur].len + n))];
      assert used == front + [st] && spans[1..cur + 1] == front + [spans[cur]];
      RepresentsLonger(false, stride, minX, hi, ops, was, covers, Head(), head', front, st, spans[cur], op);
    }

    /** Records n covers from the relative column x on, in the last span when the
        column is the next one, in a new span otherwise. */
    method Record(x: int, n: int, ghost was: seq<nat>, ghost op: Op)
      requires Pending(was, op) && ShownInPlace(op) && x == op.x - minX && n == Times(stride, End(op) - op.x)
      modifies `spans, `cur
      ensures |spans| == |covers| && cur < |spans| && InPlace(stride, minX, spans[1..cur + 1])
      ensures Represents(false, stride, minX, hi, ops + [op], covers, Times(stride, End(op) - minX), spans[1..cur + 1])
    {
      hide Represents, Shows, Grows, ShownInPlace;
      RepresentsFacts(false, stride, minX, hi, ops, was, Head(), spans[1..cur + 1]);
      if x == lastX + 1 {
        LengthenSpan(n, was, op);
      } else {
        StartSpan(x, n, was, op);
      }
    }

    method AddCell(x: int, cs: seq<nat>)
      requires Valid() && WellFormed(stride, Op.AddCell(x, cs)) && Edge(ops, minX) <= x < hi
      modifies this
      ensures Valid() && ops == old(ops) + [Op.AddCell(x, cs)] && minX == old(minX) && hi == old(hi)
    {
      hide Represents, Shows, Ordered, Write, Fill, InPlace;
      ghost var op, was := Op.AddCell(x, cs), covers;
      RepresentsFacts(false, stride, minX, hi, ops, covers, Head(), spans[1..cur + 1]);
      var at := Times(stride, x - minX);
      covers := Write(covers, at, cs);
      forall st: Stored | InPlaceSpan(stride, minX, st) && st.x <= x && st.len == Times(stride, x + 1 - st.x)
        ensures Shows(stride, covers, st, op)
      {
        ShowsCell(stride, covers, st, x, cs);
      }
      Record(x - minX, stride, was, op);
      lastX := x - minX;
      ops := ops + [op];
    }

    method AddSpan(x: int, len: nat, alpha: nat)
      requires Valid() && WellFormed(stride, Op.AddSpan(x, len, alpha)) && Edge(ops, minX) <= x && x + len <= hi
      modifies this
      ensures Valid() && ops == old(ops) + [Op.AddSpan(x, len, alpha)] && minX == old(minX) && hi == old(hi)
    {
      hide Represents, Shows, Ordered, Write, Fill, InPlace;
      ghost var op, was := Op.AddSpan(x, len, alpha), covers;
      RepresentsFacts(false, stride, minX, hi, ops, covers, Head(), spans[1..cur + 1]);
      var at := Times(stride, x - minX);
      covers := Fill(covers, at, Times(stride, len), alpha);
      forall st: Stored | InPlaceSpan(stride, minX, st) && st.x <= x && st.len == Times(stride, x + len - st.x)
        ensures Shows(stride, covers, st, op)
      {
        ShowsFill(stride, covers, st, op);
      }
      Wrap16Exact(len);
      Record(x - minX, Times(stride, Wrap16(len)), was, op);
      lastX := x - minX + len - 1;
      ops := ops + [op];
    }

    /** Clears the row and feeds it a sweep's operations. */
    method Feed(row: seq<Op>)
      requires Valid() && Ordered(stride, row, minX, hi)
      modifies this
      ensures Valid() && cur < |spans| && ops == row && minX == old(minX) && hi == old(hi)
    {
      hide *;
      ResetSpans();
      for i := 0 to |row|
        invariant Valid() && ops == row[..i] && minX == old(minX) && hi == old(hi)
      {
        assert row[..i + 1] == row[..i] + [row[i]];
        OrderedNext(stride, row, i, minX, hi);
        match row[i]
        case AddCell(x, cs) => AddCell(x, cs);
        case AddSpan(x, len, alpha) => AddSpan(x, len, alpha);
      }
      assert row[..|row|] == row;
      LastInUse();
    }
  }
}
