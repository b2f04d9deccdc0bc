/**
 How products compare, and what determines a quotient.
 */
module Multiplication {

  lemma MulLower(d: int, p: int)
    requires d >= 1 && p >= 0
    ensures d * p >= p
  {
    assert d * p == (d - 1) * p + p;
    MulNonNegative(d - 1, p);
  }

  lemma MulNonNegative(x: int, y: int)
    requires x >= 0 && y >= 0
    ensures x * y >= 0
  {
  }

  lemma MulMono(x: int, y: int, z: int)
    requires x <= y && z >= 0
    ensures x * z <= y * z
  {
    assert y * z - x * z == (y - x) * z;
    MulNonNegative(y - x, z);
  }

  lemma MulGap(x: int, y: int, z: int)
    requires x < y && z >= 0
    ensures x * z + z <= y * z
  {
    MulMono(x + 1, y, z);
    assert (x + 1) * z == x * z + z;
  }

  lemma MulCancelLess(x: int, y: int, z: int)
    requires x * z < y * z && z >= 0
    ensures x < y
  {
    if y <= x {
      MulMono(y, x, z);
    }
  }

  /** Quotient and remainder are determined by their defining equation. */
  lemma DivModUnique(u: int, v: int, q: int, r: int)
    requires v > 0 && u == q * v + r && 0 <= r < v
    ensures q == u / v && r == u % v
  {
    var q', r' := u / v, u % v;
    assert u == q' * v + r';
    if q < q' {
      MulGap(q, q', v);
    } else if q' < q {
      MulGap(q', q, v);
    }
  }
}
