/** The arithmetic that several components share, and a few facts about products and floors. */
module Arithmetic {
  function Min(a: int, b: int): int { if a < b then a else b }

  function Max(a: int, b: int): int { if a > b then a else b }

  function Pow10(d: nat): (p: nat)
    ensures p > 0
  {
    if d == 0 then 1 else 10 * Pow10(d - 1)
  }

  lemma Product(a: int, b: int)
    requires a > 0 && b > 0
    ensures a * b > 0
  {
  }

  /** Multiplying by something non-negative keeps an order. */
  lemma Grow(k: int, a: int, b: int)
    requires k >= 0 && a <= b
    ensures a * k <= b * k
  {
  }

  /** Floor division by its defining property. */
  lemma FloorIs(x: int, y: int, k: int)
    requires y > 0
    ensures k <= x / y <==> k * y <= x
  {
    var q := x / y;
    assert q * y <= x < q * y + y;
    if k <= q {
      assert k * y <= q * y;
    } else {
      assert (q + 1) * y <= k * y;
    }
  }

  lemma FloorMonotone(x: int, y: int, z: int)
    requires x <= y && z > 0
    ensures x / z <= y / z
  {
    FloorIs(y, z, x / z);
    FloorIs(x, z, x / z);
  }

  /** A common positive factor cancels under the floor. */
  lemma FloorScale(c: int, x: int, y: int)
    requires c > 0 && y > 0
    ensures c * y > 0 && (c * x) / (c * y) == x / y
  {
    Product(c, y);
    ScaledFloor(c, x, y, x / y);
    ScaledFloor(c, x, y, (c * x) / (c * y));
  }

  lemma ScaledFloor(c: int, x: int, y: int, k: int)
    requires c > 0 && y > 0 && c * y > 0
    ensures k <= (c * x) / (c * y) <==> k <= x / y
  {
    FloorIs(c * x, c * y, k);
    FloorIs(x, y, k);
    assert k * (c * y) == c * (k * y);
    if k * y <= x {
      Grow(c, k * y, x);
    } else {
      Grow(c, x + 1, k * y);
    }
  }

  /** A quotient by its defining property. */
  lemma QuotientIs(x: int, y: int, q: int, r: int)
    requires 0 <= r < y && x == q * y + r
    ensures x / y == q
  {
    FloorIs(x, y, q);
    FloorIs(x, y, q + 1);
    assert (q + 1) * y == q * y + y;
  }

  lemma DivMod(x: int, y: int)
    requires y > 0
    ensures x == x / y * y + x % y && 0 <= x % y < y
  {
  }
}
