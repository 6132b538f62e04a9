/** The calls a sweep makes on a scanline container, and what they mean. A pixel
    carries `stride` covers: one, or three for subpixel rendering. */
module ScanlineOps {
  datatype Op = AddCell(x: int, covers: seq<nat>) | AddSpan(x: int, len: nat, alpha: nat)

  function End(op: Op): int {
    if op.AddCell? then op.x + 1 else op.x + op.len
  }

  predicate Touches(op: Op, x: int) {
    op.x <= x < End(op)
  }

  predicate IsStride(stride: nat) {
    stride == 1 || stride == 3
  }

  /** The same cover `stride` times. */
  function Repeat(stride: nat, alpha: nat): seq<nat> {
    if stride == 1 then [alpha] else [alpha, alpha, alpha]
  }

  /** The covers an operation gives each pixel it touches. */
  function Value(stride: nat, op: Op): seq<nat> {
    if op.AddCell? then op.covers else Repeat(stride, op.alpha)
  }

  function Clear(stride: nat): seq<nat> {
    Repeat(stride, 0)
  }

  /** The covers a list of operations gives pixel x; zeros where it is silent. */
  function OpsAt(stride: nat, ops: seq<Op>, x: int): seq<nat> {
    if ops == [] then Clear(stride)
    else if Touches(ops[|ops| - 1], x) then Value(stride, ops[|ops| - 1])
    else OpsAt(stride, ops[..|ops| - 1], x)
  }

  /** How a pixel is reached: not at all, with covers of its own, or under the one
      cover of a run. */
  datatype Touch = Skipped | Own | Shared

  /** How a list of operations reaches pixel x. */
  function TouchAt(ops: seq<Op>, x: int): Touch {
    if ops == [] then Skipped
    else if Touches(ops[|ops| - 1], x) then (if ops[|ops| - 1].AddCell? then Own else Shared)
    else TouchAt(ops[..|ops| - 1], x)
  }

  lemma TouchAtPush(ops: seq<Op>, op: Op, x: int)
    ensures TouchAt(ops + [op], x) == if Touches(op, x) then (if op.AddCell? then Own else Shared) else TouchAt(ops, x)
  {
    assert (ops + [op])[..|ops|] == ops;
  }

  lemma {:induction false} TouchOutside(stride: nat, ops: seq<Op>, lo: int, hi: int, x: int)
    requires Ordered(stride, ops, lo, hi) && (x < lo || hi <= x)
    ensures TouchAt(ops, x) == Skipped
    decreases |ops|
  {
    if ops != [] {
      TouchOutside(stride, ops[..|ops| - 1], lo, hi, x);
    }
  }

  predicate WellFormed(stride: nat, op: Op) {
    && op.x < End(op)
    && (op.AddCell? ==> |op.covers| == stride && forall i :: 0 <= i < stride ==> op.covers[i] < 256)
    && (op.AddSpan? ==> op.alpha < 256)
  }

  /** Left to right, disjoint, and inside lo..hi. */
  predicate Ordered(stride: nat, ops: seq<Op>, lo: int, hi: int) {
    && (forall i :: 0 <= i < |ops| ==> WellFormed(stride, ops[i]) && lo <= ops[i].x && End(ops[i]) <= hi)
    && (forall i, j :: 0 <= i < j < |ops| ==> End(ops[i]) <= ops[j].x)
  }

  lemma OrderedPush(stride: nat, ops: seq<Op>, op: Op, lo: int, hi: int, hi': int)
    requires Ordered(stride, ops, lo, hi) && lo <= hi <= op.x && End(op) <= hi' && WellFormed(stride, op)
    ensures Ordered(stride, ops + [op], lo, hi')
  {
  }

  lemma OpsAtPush(stride: nat, ops: seq<Op>, op: Op, x: int)
    ensures OpsAt(stride, ops + [op], x) == if Touches(op, x) then Value(stride, op) else OpsAt(stride, ops, x)
  {
    assert (ops + [op])[..|ops|] == ops;
  }

  lemma {:induction false} OpsAtOutside(stride: nat, ops: seq<Op>, lo: int, hi: int, x: int)
    requires Ordered(stride, ops, lo, hi) && (x < lo || hi <= x)
    ensures OpsAt(stride, ops, x) == Clear(stride)
    decreases |ops|
  {
    if ops != [] {
      OpsAtOutside(stride, ops[..|ops| - 1], lo, hi, x);
    }
  }
}
