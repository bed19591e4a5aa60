/** The rounding rules of the matcher's integer divisions. */
module Arithmetic {
  import opened Primitives

  function Abs(x: int): nat {
    if x < 0 then -x else x
  }

  function Min(a: int, b: int): int {
    if a <= b then a else b
  }

  function Max(a: int, b: int): int {
    if a >= b then a else b
  }

  /** `size` units in the long or the short direction. */
  function Directed(long: bool, size: int): int {
    if long then size else -size
  }

  /** Rust's `/` on signed integers: the quotient is rounded toward zero. */
  function TruncDiv(a: int, b: int): (q: int)
    requires b > 0
    ensures Abs(a - q * b) < b
    ensures a >= 0 ==> 0 <= q * b <= a
    ensures a <= 0 ==> a <= q * b <= 0
  {
    if a >= 0 then DivBounds(a, b); a / b else DivBounds(-a, b); -((-a) / b)
  }

  lemma DivBounds(a: int, b: int)
    requires b > 0
    ensures 0 <= a - (a / b) * b < b
    ensures a >= 0 ==> 0 <= (a / b) * b
  {
    assert a == (a / b) * b + a % b;
    if a >= 0 {
      assert a / b >= 0;
    }
  }

  /** Multiplying by a non-negative factor keeps the order, on either side. */
  lemma MulLe(a: int, b: int, c: int)
    requires a <= b && c >= 0
    ensures a * c <= b * c && c * a <= c * b
  {}

  lemma QuotientIs(a: int, b: int, q: int)
    requires b > 0 && 0 <= a - q * b < b
    ensures a / b == q
  {
    var d := a / b;
    DivBounds(a, b);
    if d < q {
      MulLe(d + 1, q, b);
    } else if d > q {
      MulLe(q + 1, d, b);
    }
  }

  lemma DivMonotone(a: int, b: int, d: int)
    requires d > 0 && a <= b
    ensures a / d <= b / d
  {
    DivBounds(a, d);
    DivBounds(b, d);
    if a / d > b / d {
      MulLe(b / d + 1, a / d, d);
    }
  }

  /** Adding `k` times the divisor adds `k` to the quotient. */
  lemma DivShift(a: int, k: int, d: int)
    requires d > 0
    ensures (a + k * d) / d == a / d + k
  {
    DivBounds(a, d);
    QuotientIs(a + k * d, d, a / d + k);
  }

  /** Losing a remainder smaller than the divisor costs at most one unit of quotient. */
  lemma DivLoss(t: int, r: int, s: int)
    requires 0 <= r < s
    ensures t / s - 1 <= (t - r) / s <= t / s
  {
    DivMonotone(t - r, t, s);
    DivShift(t, -1, s);
    DivMonotone(t - s, t - r, s);
  }

  /** Two floors lose at most one unit against the floor of the sum. */
  lemma DivSplit(a: int, b: int, d: int)
    requires d > 0
    ensures a / d + b / d <= (a + b) / d <= a / d + b / d + 1
  {
    DivBounds(a, d);
    var r := a - (a / d) * d;
    DivShift(b + r, a / d, d);
    DivMonotone(b, b + r, d);
    DivShift(b, 1, d);
    DivMonotone(b + r, b + d, d);
  }

  /** The same for division toward zero: a remainder below the divisor moves the quotient by at most one. */
  lemma TruncLoss(t: int, r: int, s: int)
    requires 0 < s && Abs(r) < s
    ensures Abs(TruncDiv(t - r, s) - TruncDiv(t, s)) <= 1
  {
    if r >= 0 {
      TruncStep(t - r, t, s);
    } else {
      TruncStep(t, t - r, s);
    }
  }

  lemma TruncStep(x: int, y: int, s: int)
    requires 0 < s && x <= y < x + s
    ensures TruncDiv(x, s) <= TruncDiv(y, s) <= TruncDiv(x, s) + 1
  {
    if x >= 0 {
      DivMonotone(x, y, s);
      DivMonotone(y, x + s, s);
      DivShift(x, 1, s);
    } else if y <= 0 {
      DivMonotone(-y, -x, s);
      DivMonotone(-x, -y + s, s);
      DivShift(-y, 1, s);
    } else {
      QuotientIs(-x, s, 0);
      QuotientIs(y, s, 0);
    }
  }

  lemma TruncExact(k: int, s: int)
    requires s > 0
    ensures TruncDiv(k * s, s) == k
  {
    var q := TruncDiv(k * s, s);
    if q < k {
      MulLe(q + 1, k, s);
    } else if q > k {
      MulLe(k + 1, q, s);
    }
  }
}
