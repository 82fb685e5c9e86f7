/** Facts about Euclidean division by a positive divisor, used by the
    window count and by the progress percentage. */
module Arith {

  lemma DivIsOne(x: nat, d: nat)
    requires d > 0 && d <= x < 2 * d
    ensures x / d == 1
  {
    DivUnique(x, d, 1, x - d);
  }

  lemma DivStep(x: nat, d: nat)
    requires d > 0
    ensures (x + d) / d == x / d + 1
  {
    var q, r := x / d, x % d;
    assert x + d == (q + 1) * d + r;
    DivUnique(x + d, d, q + 1, r);
  }

  /** Euclidean division has one quotient. */
  lemma DivUnique(x: int, d: int, q: int, r: int)
    requires d > 0 && 0 <= r < d && x == q * d + r
    ensures x / d == q
  {
    var q0 := x / d;
    MulMonotone(q0, q, d);
    MulMonotone(q, q0, d);
  }

  lemma MulMonotone(a: int, b: int, d: int)
    requires d > 0
    ensures a < b ==> a * d + d <= b * d
  {
    if a < b {
      var k := b - a;
      MulAtLeast(k, d);
      assert b * d == (a + k) * d;
    }
  }

  lemma {:induction false} MulAtLeast(k: nat, d: nat)
    requires k >= 1
    ensures k * d >= d
    decreases k
  {
    if k > 1 {
      MulAtLeast(k - 1, d);
      assert k * d == (k - 1) * d + d;
    }
  }

  /** The quotient is the one multiple that brackets the dividend. */
  lemma DivBracket(x: int, d: int, q: int)
    requires d > 0
    ensures x / d == q <==> q * d <= x < q * d + d
  {
    if q * d <= x < q * d + d {
      DivUnique(x, d, q, x - q * d);
    }
  }

  /** Dividing by the same positive number keeps the order. */
  lemma DivMonotone(x: int, y: int, d: int)
    requires d > 0 && x <= y
    ensures x / d <= y / d
  {
    var qx, qy := x / d, y / d;
    DivBracket(x, d, qx);
    DivBracket(y, d, qy);
    MulMonotone(qy, qx, d);
  }
}
