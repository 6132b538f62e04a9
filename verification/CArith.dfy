/** C++ integer arithmetic as the rasteriser uses it: division that truncates
    toward zero, the quotient fix-up that turns it into a floor, and products
    formed in 64 bits and wrapped to 32. */
module CArith {

  function Abs(a: int): nat {
    if a < 0 then -a else a
  }

  function Min(a: int, b: int): int {
    if a < b then a else b
  }

  function Max(a: int, b: int): int {
    if a > b then a else b
  }

  /** v limited to lo..hi. */
  function Clamp(v: int, lo: int, hi: int): int {
    if v < lo then lo else if v > hi then hi else v
  }

  /** C++ `a / b` for a positive divisor. */
  function TruncDiv(a: int, b: int): int
    requires b > 0
  {
    if a >= 0 then a / b else -((-a) / b)
  }

  /** C++ `a % b` for a positive divisor: the remainder has the sign of a. */
  function TruncMod(a: int, b: int): int
    requires b > 0
  {
    a - b * TruncDiv(a, b)
  }

  /** The value of a 64-bit product stored into an int. */
  function Wrap32(a: int): int {
    (a + 0x8000_0000) % 0x1_0000_0000 - 0x8000_0000
  }

  function Mul32(a: int, b: int): int {
    Wrap32(a * b)
  }

  predicate FitsInt32(a: int) {
    -0x8000_0000 <= a < 0x8000_0000
  }

  lemma WrapExact(a: int)
    requires FitsInt32(a)
    ensures Wrap32(a) == a
  {
  }

  lemma SmallMultiple(k: int, d: int)
    requires d > 0 && -d < k * d < d
    ensures k == 0
  {
  }

  lemma AboveMultiple(k: int, d: int)
    requires d > 0 && -d < k * d
    ensures k >= 0
  {
  }

  /** A quotient and a remainder in range are the floor quotient and remainder. */
  lemma DivModUnique(a: int, d: int, q: int, r: int)
    requires d > 0 && a == q * d + r && 0 <= r < d
    ensures a / d == q && a % d == r
  {
    var k := a / d - q;
    assert k * d == (a / d) * d - q * d;
    SmallMultiple(k, d);
  }

  /** The fix-up `if (mod < 0) { delta--; mod += d; }` after a truncating
      division leaves the floor quotient and the non-negative remainder. */
  lemma TruncToFloor(a: int, d: int)
    requires d > 0
    ensures TruncMod(a, d) >= 0 ==> TruncDiv(a, d) == a / d && TruncMod(a, d) == a % d
    ensures TruncMod(a, d) < 0 ==> TruncDiv(a, d) - 1 == a / d && TruncMod(a, d) + d == a % d
  {
    if a >= 0 {
    } else {
      var t := (-a) / d;
      var m := (-a) % d;
      assert -a == t * d + m;
      assert d * TruncDiv(a, d) == -(t * d);
      assert TruncMod(a, d) == -m;
      if m == 0 {
        DivModUnique(a, d, -t, 0);
      } else {
        assert a == (-t - 1) * d + (d - m);
        DivModUnique(a, d, -t - 1, d - m);
      }
    }
  }

  /** The code's floor division: C++ quotient and remainder, then the fix-up. */
  method FloorDivMod(a: int, d: int) returns (q: int, r: int)
    requires d > 0
    ensures q == a / d && r == a % d
  {
    q, r := TruncDiv(a, d), TruncMod(a, d);
    if r < 0 {
      q := q - 1;
      r := r + d;
    }
    TruncToFloor(a, d);
  }

  /** One step of the error-term loop: adding q to the numerator moves the floor
      quotient by q / d, and by one more exactly when the remainders carry. */
  lemma DdaStep(n: int, q: int, d: int)
    requires d > 0
    ensures n % d + q % d >= d ==> (n + q) / d == n / d + q / d + 1 && (n + q) % d == n % d + q % d - d
    ensures n % d + q % d < d ==> (n + q) / d == n / d + q / d && (n + q) % d == n % d + q % d
  {
    assert n == (n / d) * d + n % d;
    assert q == (q / d) * d + q % d;
    if n % d + q % d >= d {
      assert n + q == (n / d + q / d + 1) * d + (n % d + q % d - d);
      DivModUnique(n + q, d, n / d + q / d + 1, n % d + q % d - d);
    } else {
      assert n + q == (n / d + q / d) * d + (n % d + q % d);
      DivModUnique(n + q, d, n / d + q / d, n % d + q % d);
    }
  }

  lemma DivMonotone(a: int, b: int, d: int)
    requires d > 0 && a <= b
    ensures a / d <= b / d
  {
    var k := b / d - a / d;
    assert k * d == (b / d) * d - (a / d) * d;
    AboveMultiple(k, d);
  }

  lemma MulMonotone(a: int, b: int, c: int)
    requires a <= b && 0 <= c
    ensures a * c <= b * c
  {
  }

  lemma ShareBetween(n: int, h: int, w: int)
    requires w > 0 && (0 <= n <= w * h || w * h <= n <= 0)
    ensures Min(0, h) <= n / w <= Max(0, h)
  {
    DivModUnique(w * h, w, h, 0);
    DivModUnique(0, w, 0, 0);
    if 0 <= n <= w * h {
      DivMonotone(0, n, w);
      DivMonotone(n, w * h, w);
    } else {
      DivMonotone(n, 0, w);
      DivMonotone(w * h, n, w);
    }
  }

  /** floor(u * h / w) for 0 <= u <= w lies between 0 and h, whatever h's sign. */
  lemma InterpolationBounds(u: int, h: int, w: int)
    requires 0 <= u <= w && w > 0
    ensures Min(0, h) <= u * h / w <= Max(0, h)
  {
    var k := if h >= 0 then h else -h;
    MulMonotone(u, w, k);
    MulMonotone(0, u, k);
    assert h < 0 ==> u * h == -(u * k) && w * h == -(w * k);
    ShareBetween(u * h, h, w);
  }

  /** The interpolated height moves with u in the direction of h. */
  lemma InterpolationMonotone(u: int, v: int, h: int, w: int)
    requires u <= v && w > 0
    ensures h >= 0 ==> u * h / w <= v * h / w
    ensures h <= 0 ==> v * h / w <= u * h / w
  {
    if h >= 0 {
      MulMonotone(u, v, h);
      DivMonotone(u * h, v * h, w);
    }
    if h <= 0 {
      MulMonotone(u, v, -h);
      assert u * h == -(u * -h) && v * h == -(v * -h);
      DivMonotone(v * h, u * h, w);
    }
  }

  lemma CancelBound(d: int, c: int, m: int)
    requires d > 0 && d * c <= d * m
    ensures c <= m
  {
    assert (m - c) * d == d * m - d * c;
    AboveMultiple(m - c, d);
  }

  /** How far y is on the way from a to b. */
  lemma WayFrom(a: int, b: int, y: int)
    requires a != b && Min(a, b) <= y <= Max(a, b)
    ensures var g := if b >= a then 1 else -1;
            b - a == g * Abs(b - a) && y - a == g * Abs(y - a) && 0 <= Abs(y - a) <= Abs(b - a) && Abs(b - a) > 0
  {
  }

  /** Between two values of at most b, moved by at most m. */
  lemma Convex(d: int, t: int, c0: int, c1: int, c: int, e: int, b: int, m: int)
    requires 0 <= t <= d && d > 0 && d * c == (d - t) * c0 + t * c1 + e
    requires Abs(c0) <= b && Abs(c1) <= b && Abs(e) <= d * m
    ensures Abs(c) <= b + m
  {
    ConvexAbove(d, t, c0, c1, c, e, b, m);
    assert d * -c == -(d * c) && (d - t) * -c0 == -((d - t) * c0) && t * -c1 == -(t * c1);
    ConvexAbove(d, t, -c0, -c1, -c, -e, b, m);
  }

  lemma ConvexAbove(d: int, t: int, c0: int, c1: int, c: int, e: int, b: int, m: int)
    requires 0 <= t <= d && d > 0 && d * c == (d - t) * c0 + t * c1 + e
    requires c0 <= b && c1 <= b && e <= d * m
    ensures c <= b + m
  {
    MulMonotone(c0, b, d - t);
    MulMonotone(c1, b, t);
    assert b * (d - t) + b * t + d * m == d * (b + m);
    CancelBound(d, c, b + m);
  }

  lemma RemainderWeight(n: int, w: int, dx: int)
    requires w > 0
    ensures Abs((n - w * (n / w)) * dx) <= w * Abs(dx)
  {
    var m := n - w * (n / w);
    assert m == n % w;
    MulMonotone(m, w, Abs(dx));
    MulMonotone(0, m, Abs(dx));
    assert Abs(m * dx) == m * Abs(dx);
  }
}
