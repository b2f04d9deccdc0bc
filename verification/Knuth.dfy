/**
 The number theory of long division with trial digits, for an arbitrary base `b`.
 `top3` and `top2` are the leading three digits of the partial dividend and the leading two
 of the divisor; `scale` is the weight of the digits below them.
 */
module Knuth {
  import opened Multiplication

  /** The digit the trial loop settles on. */
  function Trial(b: int, top3: int, top2: int): int
    requires top2 > 0
  {
    if top3 / top2 < b then top3 / top2 else b - 1
  }

  /** The trial digit is never too small. */
  lemma TrialNotTooSmall(b: int, scale: int, u: int, v: int, top3: int, top2: int, q: int)
    requires scale >= 1 && top2 >= 1 && q < b
    requires top2 * scale <= v && u < (top3 + 1) * scale
    requires 0 <= q && q * v <= u
    ensures q <= Trial(b, top3, top2)
  {
    MulMono(top2 * scale, v, q);
    assert (q * top2) * scale == (top2 * scale) * q <= v * q == q * v;
    MulCancelLess(q * top2, top3 + 1, scale);
    if q >= top3 / top2 + 1 {
      MulGap(top3 / top2, q, top2);
    }
  }

  /** The trial digit is at most one too large. */
  lemma TrialAtMostOneTooLarge(b: int, scale: int, u: int, v: int, top3: int, top2: int, q: int)
    requires scale >= 1 && b <= top2
    requires top2 * scale <= v < top2 * scale + scale
    requires 0 <= top3 && top3 * scale <= u
    requires 1 <= b && u < (q + 1) * v
    ensures Trial(b, top3, top2) <= q + 1
  {
    var t := Trial(b, top3, top2);
    TrialFits(b, top3, top2);
    var low := v - top2 * scale;
    Expand(t, top2, scale, low);
    MulMono(t * top2, top3, scale);
    MulMono(low, scale, t);
    MulGap(t, top2, scale);
    assert t * low <= t * scale;
    hide Trial;
    assert t * v < u + v;
    MulGap(q + 1, q + 2, v);
    MulCancelLess(t, q + 2, v);
  }

  lemma TrialFits(b: int, top3: int, top2: int)
    requires top2 >= 1 && b >= 1 && top3 >= 0
    ensures 0 <= Trial(b, top3, top2) < b
    ensures Trial(b, top3, top2) * top2 <= top3
  {
    MulMono(Trial(b, top3, top2), top3 / top2, top2);
  }

  lemma Expand(t: int, x: int, scale: int, low: int)
    ensures t * (x * scale + low) == (t * x) * scale + t * low
  {
    assert t * (x * scale) == (t * x) * scale;
  }
}
