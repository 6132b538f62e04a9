/** The gradient's line interpolator: count steps from y1 to y2 in integers. */
module Dda2 {
  import opened CArith

  /** C++ `a / b` and `a % b` truncate toward zero; sums and differences wrap. */
  function Sub32(a: int, b: int): int {
    Wrap32(a - b)
  }

  function Add32(a: int, b: int): int {
    Wrap32(a + b)
  }

  /** Wrapping early or late comes to the same. */
  lemma WrapAdd(a: int, b: int)
    ensures Wrap32(Wrap32(a) + b) == Wrap32(a + b) && FitsInt32(Wrap32(a))
  {
  }

  /** A wrapped difference, added back, arrives where it was taken from. */
  lemma WrapBack(y1: int, y2: int)
    requires FitsInt32(y2)
    ensures Wrap32(y1 + Sub32(y2, y1)) == y2
  {
    WrapAdd(y2 - y1, y1);
    WrapExact(y2);
  }

  /** ceil(a / n). */
  function CeilDiv(a: int, n: int): int
    requires n > 0
  {
    -((-a) / n)
  }

  /** The interpolator's height after k of n steps: the line's own height, pulled
      back by less than one step so that it lands exactly at the end. */
  function HeightAfter(y1: int, y2: int, n: int, k: int): int
    requires n > 0
  {
    y1 + CeilDiv(k * (y2 - y1) - (-(y2 - y1)) % n, n)
  }

  lemma CeilUnique(a: int, n: int, q: int)
    requires n > 0 && a <= n * q < a + n
    ensures CeilDiv(a, n) == q
  {
    DivModUnique(-a, n, -q, n * q - a);
  }

  /** The exact accounting between error term and height after k of n steps. */
  ghost predicate Accounts(n: int, lft: int, rem: int, mod: int, y1: int, y2: int, y: int, k: int) {
    && n >= 1 && lft * n + rem == y2 - y1 && 0 < rem <= n
    && -n < mod <= 0
    && n * (y - y1) == k * (y2 - y1) + (rem - n) - mod
  }

  /** A step keeps the account. */
  lemma StepAccounts(n: int, lft: int, rem: int, mod: int, y1: int, y2: int, y: int, k: int)
    requires Accounts(n, lft, rem, mod, y1, y2, y, k)
    ensures mod + rem > 0 ==> Accounts(n, lft, rem, mod + rem - n, y1, y2, y + lft + 1, k + 1)
    ensures mod + rem <= 0 ==> Accounts(n, lft, rem, mod + rem, y1, y2, y + lft, k + 1)
  {
    assert n * (y + lft - y1) == n * (y - y1) + lft * n;
    assert n * (y + lft + 1 - y1) == n * (y - y1) + lft * n + n;
    assert (k + 1) * (y2 - y1) == k * (y2 - y1) + (y2 - y1);
  }

  /** The quotient never points away from y2. */
  lemma Direction(n: int, lft: int, rem: int, d: int)
    requires n >= 1 && lft * n + rem == d && 0 < rem <= n
    ensures d > 0 ==> lft >= 0
    ensures d <= 0 ==> lft <= -1
    ensures d == 0 ==> rem == n
  {
    if lft >= 0 {
      MulMonotone(0, lft, n);
    } else {
      MulMonotone(lft, -1, n);
    }
    if d == 0 {
      assert lft * n == -rem;
      if lft <= -2 {
        MulMonotone(lft, -2, n);
      }
    }
  }

  /** At the last step the account balances exactly at y2. */
  lemma Lands(n: int, lft: int, rem: int, mod: int, y1: int, y2: int, y: int)
    requires Accounts(n, lft, rem, mod, y1, y2, y, n)
    ensures y == y2
  {
    var e := y - y2;
    assert n * (y - y1) == n * (y2 - y1) + e * n;
    SmallMultiple(e, n);
  }

  /** Until then the height lies between y1 and y2. */
  lemma Between(n: int, lft: int, rem: int, mod: int, y1: int, y2: int, y: int, k: int)
    requires Accounts(n, lft, rem, mod, y1, y2, y, k) && 0 <= k <= n
    ensures if y1 <= y2 then y1 <= y <= y2 else y2 <= y <= y1
  {
    var u, v := y - y1, y2 - y1;
    if v >= 0 {
      MulMonotone(0, k, v);
      MulMonotone(k, n, v);
      assert u * n == n * u;
      AboveMultiple(u, n);
      assert (v - u) * n == n * v - n * u;
      AboveMultiple(v - u, n);
    } else {
      MulMonotone(0, k, -v);
      MulMonotone(k, n, -v);
      assert k * v == -(k * -v) && n * v == -(n * -v);
      assert (-u) * n == -(n * u);
      AboveMultiple(-u, n);
      assert (u - v) * n == n * u - n * v;
      AboveMultiple(u - v, n);
    }
  }

  /** The height in closed form. */
  lemma ClosedForm(n: int, lft: int, rem: int, mod: int, y1: int, y2: int, y: int, k: int)
    requires Accounts(n, lft, rem, mod, y1, y2, y, k)
    ensures y == HeightAfter(y1, y2, n, k)
  {
    var d := y2 - y1;
    assert -d == (-lft - 1) * n + (n - rem);
    DivModUnique(-d, n, -lft - 1, n - rem);
    CeilUnique(k * d - (n - rem), n, y - y1);
  }

  /** The fix-up after the first division starts a balanced account. */
  lemma FirstAccount(y1: int, y2: int, n: int)
    requires n >= 1
    ensures var q, r := TruncDiv(y2 - y1, n), TruncMod(y2 - y1, n);
            if r <= 0 then Accounts(n, q - 1, r + n, r, y1, y2, y1, 0) else Accounts(n, q, r, r - n, y1, y2, y1, 0)
  {
    TruncToFloor(y2 - y1, n);
  }

  lemma WholeQuotient(a: int)
    ensures TruncDiv(a, 1) == a && TruncMod(a, 1) == 0
  {
  }

  class Dda2LineInterpolator {
    var cnt: int
    var lft: int
    var rem: int
    var mod: int
    var y: int
    ghost var y1: int
    /** Where the walk ends, and where it is, were nothing to wrap. */
    ghost var end: int
    ghost var h: int
    ghost var k: nat

    ghost predicate Valid()
      reads this
    {
      Accounts(cnt, lft, rem, mod, y1, end, h, k) && y == Wrap32(h)
    }

    constructor (from: int, to: int, count: int)
      requires FitsInt32(from) && FitsInt32(to)
      ensures y == from == y1 == h && end == from + Sub32(to, from) && k == 0 && cnt == if count <= 0 then 1 else count
      ensures count >= 1 ==> Valid()
      ensures count <= 0 ==> lft == Sub32(to, from) - 1 && mod == 0 && rem == count
    {
      cnt := if count <= 0 then 1 else count;
      lft, rem, mod := 0, 0, 0;
      y := from;
      y1, end, h, k := from, from + Sub32(to, from), from, 0;
      new;
      hide Accounts, Sub32;
      WrapExact(from);
      if count >= 1 {
        FirstAccount(from, from + Sub32(to, from), count);
      } else {
        WholeQuotient(Sub32(to, from));
      }
      lft := TruncDiv(Sub32(to, from), cnt);
      rem := TruncMod(Sub32(to, from), cnt);
      mod := rem;
      if mod <= 0 {
        mod := mod + count;
        rem := rem + count;
        lft := lft - 1;
      }
      mod := mod - count;
    }

    /** One step. Within the count it keeps the account, moves only toward the end,
        and arrives there on the last. */
    method Next()
      modifies `mod, `y, `h, `k
      ensures k == old(k) + 1
      ensures old(Valid() && k < cnt) ==>
        && Valid() && h == HeightAfter(y1, end, cnt, k) && (k == cnt ==> h == end)
        && (if y1 <= end then old(h) <= h <= end else end <= h <= old(h))
      ensures old(mod + rem <= 0) ==> y == Add32(old(y), lft)
    {
      hide Wrap32, Accounts, HeightAfter;
      if Valid() && k < cnt {
        NextHeight(cnt, lft, rem, mod, y1, end, h, k);
        WrapAdd(h, lft);
        WrapAdd(h + lft, 1);
      }
      mod := mod + rem;
      y := Add32(y, lft);
      h := h + lft;
      if mod > 0 {
        mod := mod - cnt;
        y := Add32(y, 1);
        h := h + 1;
      }
      k := k + 1;
    }
  }

  /** Everything one step is promised to do. */
  lemma NextHeight(n: int, lft: int, rem: int, mod: int, y1: int, y2: int, y: int, k: nat)
    requires Accounts(n, lft, rem, mod, y1, y2, y, k) && k < n
    ensures var up := mod + rem > 0;
            var (mod', y') := if up then (mod + rem - n, y + lft + 1) else (mod + rem, y + lft);
            && Accounts(n, lft, rem, mod', y1, y2, y', k + 1)
            && (if y1 <= y2 then y1 <= y <= y' <= y2 else y2 <= y' <= y <= y1)
            && y' == HeightAfter(y1, y2, n, k + 1) && (k + 1 == n ==> y' == y2)
  {
    hide HeightAfter;
    StepAccounts(n, lft, rem, mod, y1, y2, y, k);
    var (mod', y') := if mod + rem > 0 then (mod + rem - n, y + lft + 1) else (mod + rem, y + lft);
    hide Accounts;
    Between(n, lft, rem, mod, y1, y2, y, k);
    Between(n, lft, rem, mod', y1, y2, y', k + 1);
    ClosedForm(n, lft, rem, mod', y1, y2, y', k + 1);
    if k + 1 == n {
      Lands(n, lft, rem, mod', y1, y2, y');
    }
    AccountsDirection(n, lft, rem, mod, y1, y2, y, k);
  }

  lemma AccountsDirection(n: int, lft: int, rem: int, mod: int, y1: int, y2: int, y: int, k: int)
    requires Accounts(n, lft, rem, mod, y1, y2, y, k)
    ensures y1 < y2 ==> lft >= 0
    ensures y1 > y2 ==> lft <= -1
    ensures y1 == y2 ==> lft == -1 && mod + rem > 0
  {
    Direction(n, lft, rem, y2 - y1);
    if y1 == y2 {
      assert (lft + 1) * n == 0;
    }
  }

  // ----- which way the wrapped heights go

  /** The height after k steps between two ints, were nothing to wrap. */
  function H(y1: int, y2: int, n: int, k: int): int
    requires n > 0
  {
    HeightAfter(y1, y1 + Sub32(y2, y1), n, k)
  }

  lemma CeilBounds(a: int, n: int)
    requires n > 0
    ensures a <= n * CeilDiv(a, n) < a + n
  {
    assert n * CeilDiv(a, n) == -(n * ((-a) / n));
  }

  /** A sum's ceiling is at most one under the ceilings' sum. */
  lemma CeilStep(a: int, d: int, n: int)
    requires n > 0
    ensures var s := CeilDiv(a + d, n) - CeilDiv(a, n);
            (s == CeilDiv(d, n) || s == CeilDiv(d, n) - 1) && (if d >= 0 then s >= 0 else s <= 0)
  {
    hide CeilDiv;
    CeilBounds(a, n);
    CeilBounds(d, n);
    CeilBounds(a + d, n);
    var p, q, c := CeilDiv(a, n), CeilDiv(a + d, n), CeilDiv(d, n);
    Scaled(q - p - c, q, p, c, n);
    TwoValues(q - p - c, n);
    Scaled(q - p, q, p, 0, n);
    Scaled(p - q, p, q, 0, n);
    if d >= 0 {
      AboveMultiple(q - p, n);
    } else {
      AboveMultiple(p - q, n);
    }
  }

  lemma Scaled(x: int, q: int, p: int, c: int, n: int)
    requires x == q - p - c
    ensures x * n == n * q - n * p - n * c
  {
  }

  /** Where the walk starts and ends, which way it goes, and that its steps are of
      two sizes. */
  lemma HSteps(y1: int, y2: int, n: int, k: int)
    requires n > 0
    ensures H(y1, y2, n, 0) == y1 && H(y1, y2, n, n) == y1 + Sub32(y2, y1)
    ensures var d := Sub32(y2, y1);
            var s := H(y1, y2, n, k + 1) - H(y1, y2, n, k);
            (s == CeilDiv(d, n) || s == CeilDiv(d, n) - 1) && (if d >= 0 then s >= 0 else s <= 0)
  {
    var d := Sub32(y2, y1);
    var r := (-d) % n;
    assert 0 <= r < n;
    hide Sub32, CeilDiv;
    assert y1 + d - y1 == d;
    CeilUnique(0 - r, n, 0);
    CeilUnique(n * d - r, n, d);
    assert (k + 1) * d - r == (k * d - r) + d;
    CeilStep(k * d - r, d, n);
  }

  lemma TwoValues(x: int, n: int)
    requires n > 0 && -2 * n < x * n < n
    ensures x == 0 || x == -1
  {
    if x >= 1 {
      MulMonotone(1, x, n);
    } else if x <= -2 {
      MulMonotone(x, -2, n);
    }
  }

  /** Heights stay between the start and the end. */
  lemma {:induction false} HBetween(y1: int, y2: int, n: int, k: nat)
    requires n > 0 && k <= n
    ensures var e := y1 + Sub32(y2, y1); if y1 <= e then y1 <= H(y1, y2, n, k) <= e else e <= H(y1, y2, n, k) <= y1
  {
    HFrom(y1, y2, n, k);
    HTo(y1, y2, n, k);
  }

  lemma {:induction false} HFrom(y1: int, y2: int, n: int, k: nat)
    requires n > 0
    ensures if Sub32(y2, y1) >= 0 then y1 <= H(y1, y2, n, k) else H(y1, y2, n, k) <= y1
  {
    hide H;
    HSteps(y1, y2, n, 0);
    if k > 0 {
      HFrom(y1, y2, n, k - 1);
      HSteps(y1, y2, n, k - 1);
    }
  }

  lemma {:induction false} HTo(y1: int, y2: int, n: int, k: nat)
    requires n > 0 && k <= n
    ensures var e := y1 + Sub32(y2, y1); if Sub32(y2, y1) >= 0 then H(y1, y2, n, k) <= e else e <= H(y1, y2, n, k)
    decreases n - k
  {
    hide H;
    HSteps(y1, y2, n, k);
    if k < n {
      HTo(y1, y2, n, k + 1);
    }
  }

  /** The k-th step, as it is stored, does not go away from y2. */
  predicate Toward(y1: int, y2: int, n: int, k: int)
    requires n > 0
  {
    var a, b := Wrap32(H(y1, y2, n, k)), Wrap32(H(y1, y2, n, k + 1));
    if y1 <= y2 then a <= b else b <= a
  }

  const FULL_SPAN := 0xFFFF_FFFF

  /** Exactly when the stored heights go one way: the difference fits an int, there
      is one step only, or the ends are the two extremes, a single step apart. */
  lemma TowardIff(y1: int, y2: int, n: int)
    requires FitsInt32(y1) && FitsInt32(y2) && n > 0
    ensures (forall k :: 0 <= k < n ==> Toward(y1, y2, n, k))
            <==> FitsInt32(y2 - y1) || n == 1 || Abs(y2 - y1) == FULL_SPAN
  {
    hide H;
    if FitsInt32(y2 - y1) || n == 1 || Abs(y2 - y1) == FULL_SPAN {
      forall k | 0 <= k < n ensures Toward(y1, y2, n, k) {
        TowardStep(y1, y2, n, k);
      }
    }
    if !FitsInt32(y2 - y1) && forall k :: 0 <= k < n ==> Toward(y1, y2, n, k) {
      OneLongStep(y1, y2, n);
    }
  }

  lemma TowardStep(y1: int, y2: int, n: int, k: nat)
    requires FitsInt32(y1) && FitsInt32(y2) && k < n
    requires FitsInt32(y2 - y1) || n == 1 || Abs(y2 - y1) == FULL_SPAN
    ensures Toward(y1, y2, n, k)
  {
    hide H;
    HBetween(y1, y2, n, k);
    HBetween(y1, y2, n, k + 1);
    HSteps(y1, y2, n, k);
    WrapBack(y1, y2);
    if FitsInt32(y2 - y1) {
      WrapExact(H(y1, y2, n, k));
      WrapExact(H(y1, y2, n, k + 1));
    }
  }

  /** Where the difference wraps, the end lies outside the ints, on the far side. */
  lemma FarEnd(y1: int, y2: int)
    requires FitsInt32(y1) && FitsInt32(y2) && !FitsInt32(y2 - y1)
    ensures var d := Sub32(y2, y1);
            && (if y1 <= y2 then d == y2 - y1 - 0x1_0000_0000 && d < 0 else d == y2 - y1 + 0x1_0000_0000 && d >= 0)
            && !FitsInt32(y1 + d)
  {
  }

  /** Stored heights that go one way stay still on either side of the wrap. */
  lemma StillStep(y1: int, y2: int, n: int, k: nat)
    requires FitsInt32(y1) && FitsInt32(y2) && !FitsInt32(y2 - y1) && k < n && Toward(y1, y2, n, k)
    ensures var a, b := H(y1, y2, n, k), H(y1, y2, n, k + 1);
            (FitsInt32(a) <==> FitsInt32(b)) ==> a == b
    ensures !FitsInt32(H(y1, y2, n, k)) ==> !FitsInt32(H(y1, y2, n, k + 1))
  {
    hide H, Wrap32, Sub32, CeilDiv;
    FarEnd(y1, y2);
    HBetween(y1, y2, n, k);
    HBetween(y1, y2, n, k + 1);
    HSteps(y1, y2, n, k);
    WrapBeside(H(y1, y2, n, k));
    WrapBeside(H(y1, y2, n, k + 1));
  }

  lemma WrapBeside(v: int)
    requires -0x1_8000_0000 <= v < 0x1_8000_0000
    ensures Wrap32(v) == if v < -0x8000_0000 then v + 0x1_0000_0000 else if v >= 0x8000_0000 then v - 0x1_0000_0000 else v
  {
  }

  /** So before it they stand at the start, ... */
  lemma {:induction false} StillBefore(y1: int, y2: int, n: int, k: nat)
    requires n > 0 && FitsInt32(y1) && FitsInt32(y2) && !FitsInt32(y2 - y1) && k <= n
    requires forall i :: 0 <= i < n ==> Toward(y1, y2, n, i)
    ensures FitsInt32(H(y1, y2, n, k)) ==> H(y1, y2, n, k) == y1
  {
    hide H, Toward;
    HSteps(y1, y2, n, 0);
    if k > 0 {
      StillBefore(y1, y2, n, k - 1);
      StillStep(y1, y2, n, k - 1);
    }
  }

  /** ... and after it at the end. */
  lemma {:induction false} StillAfter(y1: int, y2: int, n: int, k: nat)
    requires n > 0 && FitsInt32(y1) && FitsInt32(y2) && !FitsInt32(y2 - y1) && k <= n
    requires forall i :: 0 <= i < n ==> Toward(y1, y2, n, i)
    ensures !FitsInt32(H(y1, y2, n, k)) ==> H(y1, y2, n, k) == y1 + Sub32(y2, y1)
    decreases n - k
  {
    hide H, Toward;
    HSteps(y1, y2, n, k);
    if k < n {
      StillAfter(y1, y2, n, k + 1);
      StillStep(y1, y2, n, k);
    }
  }

  /** The step over the wrap. */
  lemma {:induction false} WrapStep(y1: int, y2: int, n: int, from: nat) returns (k: nat)
    requires n > 0 && FitsInt32(y1) && FitsInt32(y2) && !FitsInt32(y2 - y1) && from < n && FitsInt32(H(y1, y2, n, from))
    ensures k < n && FitsInt32(H(y1, y2, n, k)) && !FitsInt32(H(y1, y2, n, k + 1))
    decreases n - from
  {
    hide H;
    HSteps(y1, y2, n, from);
    FarEnd(y1, y2);
    if FitsInt32(H(y1, y2, n, from + 1)) {
      k := WrapStep(y1, y2, n, from + 1);
    } else {
      k := from;
    }
  }

  /** Over a longer way than one, two steps would not do: one would have to make it
      all, and another none of it. */
  lemma OneLongStep(y1: int, y2: int, n: int)
    requires FitsInt32(y1) && FitsInt32(y2) && !FitsInt32(y2 - y1) && n > 0
    requires forall i :: 0 <= i < n ==> Toward(y1, y2, n, i)
    ensures n == 1 || Abs(y2 - y1) == FULL_SPAN
  {
    hide H, Toward, CeilDiv;
    if n >= 2 {
      FarEnd(y1, y2);
      HSteps(y1, y2, n, 0);
      var k := WrapStep(y1, y2, n, 0);
      StillBefore(y1, y2, n, k);
      StillAfter(y1, y2, n, k + 1);
      HSteps(y1, y2, n, k);
      var j := if k > 0 then k - 1 else k + 1;
      HSteps(y1, y2, n, j);
      StillStep(y1, y2, n, j);
    }
  }

  /** Walking the given number of steps ends at y2 exactly when that number is at
      least one, whatever the two ends: any other leaves a quotient that is one
      short. On the way it goes towards y2 exactly where TowardIff says. */
  method Interpolate(y1: int, y2: int, count: int) returns (ys: seq<int>)
    requires FitsInt32(y1) && FitsInt32(y2)
    ensures |ys| == Max(count, 1) + 1 && ys[0] == y1
    ensures ys[|ys| - 1] == y2 <==> count >= 1
    ensures count >= 1 ==> forall k :: 0 <= k < |ys| ==> ys[k] == Wrap32(H(y1, y2, count, k))
    ensures count >= 1 ==>
              ((forall k :: 0 < k < |ys| ==> if y1 <= y2 then ys[k - 1] <= ys[k] else ys[k] <= ys[k - 1])
               <==> FitsInt32(y2 - y1) || count == 1 || Abs(y2 - y1) == FULL_SPAN)
  {
    hide HeightAfter, Accounts, Wrap32;
    var d := new Dda2LineInterpolator(y1, y2, count);
    ys := [y1];
    WrapExact(y1);
    WrapBack(y1, y2);
    if count >= 1 {
      HSteps(y1, y2, count, 0);
    }
    for i := 0 to d.cnt
      invariant d.cnt == Max(count, 1) && d.y1 == y1 && d.end == y1 + Sub32(y2, y1) && d.k == i && |ys| == i + 1
      invariant ys[0] == y1 && ys[i] == d.y
      invariant count >= 1 ==> d.Valid() && (i == d.cnt ==> d.h == d.end)
      invariant count < 1 ==> d.lft == Sub32(y2, y1) - 1
                              && (if i == 0 then d.y == y1 && d.mod + d.rem <= 0 else d.y == Add32(y1, Sub32(y2, y1) - 1))
      invariant count >= 1 ==> forall k :: 0 <= k <= i ==> ys[k] == Wrap32(H(y1, y2, count, k))
    {
      d.Next();
      ys := ys + [d.y];
    }
    if count >= 1 {
      TowardIff(y1, y2, count);
      OneWayIff(y1, y2, count, ys);
    } else {
      ShortByOne(y1, y2);
    }
  }

  lemma ShortByOne(y1: int, y2: int)
    requires FitsInt32(y2)
    ensures Add32(y1, Sub32(y2, y1) - 1) != y2
  {
  }

  lemma OneWayIff(y1: int, y2: int, n: int, ys: seq<int>)
    requires n > 0 && |ys| == n + 1 && forall k :: 0 <= k < |ys| ==> ys[k] == Wrap32(H(y1, y2, n, k))
    ensures (forall k :: 0 < k < |ys| ==> if y1 <= y2 then ys[k - 1] <= ys[k] else ys[k] <= ys[k - 1])
            <==> forall k :: 0 <= k < n ==> Toward(y1, y2, n, k)
  {
    hide H, Wrap32;
    if forall k :: 0 <= k < n ==> Toward(y1, y2, n, k) {
      forall k | 0 < k < |ys| ensures if y1 <= y2 then ys[k - 1] <= ys[k] else ys[k] <= ys[k - 1] {
        assert Toward(y1, y2, n, k - 1);
      }
    }
    if forall k :: 0 < k < |ys| ==> if y1 <= y2 then ys[k - 1] <= ys[k] else ys[k] <= ys[k - 1] {
      forall k | 0 <= k < n ensures Toward(y1, y2, n, k) {
        assert ys[k + 1 - 1] == ys[k];
      }
    }
  }
}
