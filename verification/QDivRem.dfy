/**
 Unsigned 64-bit division on a 32-bit machine: Knuth's Algorithm D in base 2^16 over digit
 arrays changed in place, with the leading-zero offsets, the one-digit short cut, the
 normalising shifts and the borrow encoding of the original.
 */
module QDivRem {
  import opened Digits
  import opened Knuth
  import opened Multiplication

  // ---------------------------------------------------------------------------------------
  // D3: the trial digit.
  // ---------------------------------------------------------------------------------------

  lemma SmallProduct(x: Digit, y: int)
    requires 0 <= y < 0x1_0000
    ensures 0 <= x * y <= 0xFFFE_0001
  {
    MulMono(x, 0xFFFF, y);
    MulNonNegative(x, y);
  }

  /** The loop test compares exactly: `qhat` is too large for the leading digits if and only if
      `v2 * qhat` exceeds the running remainder followed by `uj2`. */
  lemma TrialTest(uj0: Digit, uj1: Digit, uj2: Digit, v1: Digit, v2: Digit, qhat: int, rhat: int)
    requires rhat == uj0 * 0x1_0000 + uj1 - qhat * v1
    ensures v2 * qhat > rhat * 0x1_0000 + uj2
      <==> qhat * (v1 * 0x1_0000 + v2) > (uj0 * 0x1_0000 + uj1) * 0x1_0000 + uj2
  {
    assert qhat * (v1 * 0x1_0000 + v2) == (qhat * v1) * 0x1_0000 + v2 * qhat;
  }

  lemma TrialBelow(top3: int, top2: int, qhat: int)
    requires top2 > 0 && top3 >= 0
    ensures qhat * top2 > top3 ==> Trial(0x1_0000, top3, top2) < qhat
    ensures 0 <= qhat < 0x1_0000 && qhat * top2 <= top3 ==> qhat <= Trial(0x1_0000, top3, top2)
  {
    if qhat <= top3 / top2 {
      MulMono(qhat, top3 / top2, top2);
    } else {
      MulGap(top3 / top2, qhat, top2);
    }
  }

  /** Finds the trial digit. The jump into the middle of the loop when the leading digits agree
      is the flag `tooBig`. With a normalised divisor the loop corrects at most twice. */
  method TrialDigit(uj0: Digit, uj1: Digit, uj2: Digit, v1: Digit, v2: Digit)
    returns (qhat: int, ghost corrections: nat)
    requires 1 <= v1 && uj0 <= v1
    ensures qhat == Trial(0x1_0000, (uj0 * 0x1_0000 + uj1) * 0x1_0000 + uj2, v1 * 0x1_0000 + v2)
    ensures 0 <= qhat < 0x1_0000
    ensures v1 >= 0x8000 ==> corrections <= 2
  {
    hide Trial;
    ghost var top3, top2 := (uj0 * 0x1_0000 + uj1) * 0x1_0000 + uj2, v1 * 0x1_0000 + v2;
    ghost var trial := Trial(0x1_0000, top3, top2);
    TrialFits(0x1_0000, top3, top2);
    corrections := 0;
    var rhat;
    var tooBig := uj0 == v1;
    if tooBig {
      qhat := 0x1_0000;
      rhat := uj1;
    } else {
      var nn := Combine(uj0, uj1);
      qhat := nn / v1;
      rhat := nn % v1;
      QuotientBelow(nn, v1, uj0, uj1);
      InitialTrial(uj0, uj1, uj2, v1, v2);
    }
    while tooBig || Wrap(v2 * qhat) > Combine(rhat, uj2)
      invariant 0 <= rhat < 0x1_0000 && rhat == uj0 * 0x1_0000 + uj1 - qhat * v1
      invariant trial <= qhat && (tooBig ==> qhat == 0x1_0000) && (!tooBig ==> 0 <= qhat < 0x1_0000)
      invariant corrections * v1 <= rhat
      decreases qhat
    {
      if !tooBig {
        SmallProduct(v2, qhat);
        TrialTest(uj0, uj1, uj2, v1, v2, qhat, rhat);
        TrialBelow(top3, top2, qhat);
      }
      tooBig := false;
      assert (qhat - 1) * v1 == qhat * v1 - v1;
      assert (corrections + 1) * v1 == corrections * v1 + v1;
      qhat := qhat - 1;
      rhat := rhat + v1;
      corrections := corrections + 1;
      if rhat >= 0x1_0000 { break; }
    }
    SmallProduct(v2, qhat);
    TrialTest(uj0, uj1, uj2, v1, v2, qhat, rhat);
    TrialBelow(top3, top2, qhat);
    if v1 >= 0x8000 && corrections >= 3 {
      MulMono(3, corrections, v1);
    }
  }

  lemma QuotientBelow(nn: Word, v1: Digit, uj0: Digit, uj1: Digit)
    requires 1 <= v1 && uj0 < v1 && nn == Combine(uj0, uj1)
    ensures nn / v1 < 0x1_0000
    ensures nn % v1 == nn - (nn / v1) * v1
  {
    SmallQuotient(nn, v1, 0x1_0000);
  }

  lemma InitialTrial(uj0: Digit, uj1: Digit, uj2: Digit, v1: Digit, v2: Digit)
    requires 1 <= v1 && uj0 < v1
    ensures Trial(0x1_0000, (uj0 * 0x1_0000 + uj1) * 0x1_0000 + uj2, v1 * 0x1_0000 + v2)
      <= (uj0 * 0x1_0000 + uj1) / v1
  {
    hide Trial;
    var top2, q := v1 * 0x1_0000 + v2, (uj0 * 0x1_0000 + uj1) / v1;
    TrialFits(0x1_0000, (uj0 * 0x1_0000 + uj1) * 0x1_0000 + uj2, top2);
    TrialBelow((uj0 * 0x1_0000 + uj1) * 0x1_0000 + uj2, top2, q + 1);
    assert (q + 1) * top2 > (uj0 * 0x1_0000 + uj1) * 0x1_0000 + uj2 by {
      assert (q + 1) * v1 == q * v1 + v1 > uj0 * 0x1_0000 + uj1;
      assert (q + 1) * top2 == ((q + 1) * v1) * 0x1_0000 + (q + 1) * v2;
      MulNonNegative(q + 1, v2);
    }
  }

  // ---------------------------------------------------------------------------------------
  // D4 to D6: multiply and subtract, test for a borrow, add back.
  // ---------------------------------------------------------------------------------------

  /** The borrow encoding is exact: from a wrapped 32-bit difference, its low half is the new
      digit and the negated high half, masked to a digit, is what the next digit owes. */
  lemma BorrowStep(a: Digit, b: Digit, qhat: int, t: int)
    requires 0 <= qhat < 0x1_0000 && 0 <= t < 0x1_0000
    ensures var w := Wrap(a - b * qhat - t);
      var t' := (0x1_0000 - HHalf(w)) % 0x1_0000;
      0 <= t' < 0x1_0000 && LHalf(w) - t' * 0x1_0000 == a - b * qhat - t
  {
    SmallProduct(b, qhat);
    WrapDigit(a - b * qhat - t);
  }

  lemma WrapDigit(x: int)
    requires -0xFFFF_0000 <= x < 0x1_0000
    ensures var w := Wrap(x); LHalf(w) - ((0x1_0000 - HHalf(w)) % 0x1_0000) * 0x1_0000 == x
  {
    if x < 0 {
      assert Wrap(x) == x + 0x1_0000_0000;
    } else {
      assert Wrap(x) == x;
    }
  }

  lemma PeelDigit(a: seq<Digit>, lo: nat, hi: nat)
    requires lo < hi <= |a|
    ensures Val(a[lo..hi]) == a[lo] * Pow(hi - lo - 1) + Val(a[lo + 1..hi])
  {
    assert a[lo..hi] == [a[lo]] + a[lo + 1..hi];
    ValCons(a[lo], a[lo + 1..hi]);
  }

  lemma NoDigits(a: seq<Digit>, lo: nat)
    requires lo <= |a|
    ensures Val(a[lo..lo]) == 0
  {
  }

  lemma SubtractAlgebra(a: int, b: int, q: int, t: int, d: int, t': int, p: int, x: int, y: int, x': int)
    requires d - t' * 0x1_0000 == a - b * q - t
    requires x' == x - q * y + t * p
    ensures d * p + x' == (a * p + x) - q * (b * p + y) + t' * (p * 0x1_0000)
  {
    assert (d - t' * 0x1_0000) * p == (a - b * q - t) * p;
    assert q * (b * p + y) == (b * q) * p + q * y;
  }

  /** The digits after position `k` hold the difference of those of `was` and `qhat` times the
      divisor's, up to the borrow `t` that position `k` owes. The divisor's digits `w` are
      aligned with `was`, `gap` places earlier. */
  ghost predicate Subtracted(now: seq<Digit>, was: seq<Digit>, w: seq<Digit>,
                             k: nat, hi: nat, gap: int, qhat: int, t: int)
    requires k < hi <= |now| == |was| && 0 <= k - gap && hi - gap <= |w|
  {
    && now[..k + 1] == was[..k + 1] && now[hi..] == was[hi..]
    && Val(now[k + 1..hi]) == Val(was[k + 1..hi]) - qhat * Val(w[k + 1 - gap..hi - gap]) + t * Pow(hi - k - 1)
  }

  /** What both digit loops do to the digit at `k`: everything else stays. */
  lemma OneDigitChanged(before: seq<Digit>, now: seq<Digit>, was: seq<Digit>, k: nat, hi: nat)
    requires k < hi <= |before| == |was| == |now| && now == before[k := now[k]]
    requires before[..k + 1] == was[..k + 1] && before[hi..] == was[hi..]
    ensures before[k] == was[k]
    ensures now[..k] == was[..k] && now[hi..] == was[hi..] && now[k + 1..hi] == before[k + 1..hi]
  {
    assert before[k] == before[..k + 1][k] == was[..k + 1][k];
    assert now[..k] == before[..k + 1][..k] == was[..k + 1][..k] == was[..k];
  }

  lemma SubtractStep(before: seq<Digit>, now: seq<Digit>, was: seq<Digit>, w: seq<Digit>, k: nat, hi: nat, gap: int,
                     qhat: int, t: int, t': int)
    requires 1 <= k < hi <= |before| == |was| == |now| && 0 <= k - 1 - gap && hi - gap <= |w|
    requires Subtracted(before, was, w, k, hi, gap, qhat, t) && now == before[k := now[k]]
    requires now[k] - t' * 0x1_0000 == before[k] - w[k - gap] * qhat - t
    ensures Subtracted(now, was, w, k - 1, hi, gap, qhat, t')
  {
    hide Val;
    OneDigitChanged(before, now, was, k, hi);
    PeelDigit(now, k, hi);
    PeelDigit(was, k, hi);
    PeelDigit(w, k - gap, hi - gap);
    SubtractAlgebra(was[k], w[k - gap], qhat, t, now[k], t', Pow(hi - k - 1),
                    Val(was[k + 1..hi]), Val(w[k + 1 - gap..hi - gap]), Val(before[k + 1..hi]));
  }

  /** Subtracts `qhat` times the divisor from the n + 1 digits at `p`, modulo B^(n+1);
      `borrowed` says whether the exact result was negative. */
  method MultiplyAndSubtract(u: array<Digit>, p: nat, v: array<Digit>, vo: nat, n: nat, qhat: int)
    returns (borrowed: bool)
    requires u != v && p + n < u.Length && vo + n < v.Length && 0 <= qhat < 0x1_0000
    modifies u
    ensures u[..p] == old(u[..p]) && u[p + n + 1..] == old(u[p + n + 1..])
    ensures Val(u[p..p + n + 1]) ==
      old(Val(u[p..p + n + 1])) - qhat * Val(v[vo + 1..vo + n + 1]) + (if borrowed then Pow(n + 1) else 0)
  {
    hide Val, Pow, HHalf, LHalf, Wrap;
    ghost var was, w, gap := u[..], v[..], p - vo;
    var t: Word := 0;
    var i := n;
    NoDigits(was, p + n + 1);
    NoDigits(w, vo + n + 1);
    assert Subtracted(u[..], was, w, p + n, p + n + 1, gap, qhat, 0);
    hide Subtracted;
    while i > 0
      invariant 0 <= i <= n && 0 <= t < 0x1_0000 && v[..] == w
      invariant Subtracted(u[..], was, w, p + i, p + n + 1, gap, qhat, t)
    {
      ghost var before, t0 := u[..], t;
      t := SubtractDigit(u, p + i, v, vo + i, qhat, t);
      SubtractStep(before, u[..], was, w, p + i, p + n + 1, gap, qhat, t0, t);
      i := i - 1;
    }
    ghost var before, t0 := u[..], t;
    t := Wrap(u[p] - t);
    TopBorrow(u[p], t0);
    u[p] := LHalf(t);
    borrowed := HHalf(t) != 0;
    SubtractTop(before, u[..], was, w, p, p + n + 1, gap, qhat, t0, if borrowed then 1 else 0);
    assert u[p..p + n + 1] == u[..][p..p + n + 1] && v[vo + 1..vo + n + 1] == w[vo + 1..vo + n + 1];
  }

  /** The step of the loop at one digit. */
  method SubtractDigit(u: array<Digit>, k: nat, v: array<Digit>, j: nat, qhat: int, t: Word) returns (t': Word)
    requires u != v && k < u.Length && j < v.Length && 0 <= qhat < 0x1_0000 && t < 0x1_0000
    modifies u
    ensures u[..] == old(u[..])[k := u[k]] && t' < 0x1_0000
    ensures u[k] - t' * 0x1_0000 == old(u[k]) - v[j] * qhat - t
  {
    BorrowStep(u[k], v[j], qhat, t);
    hide HHalf, LHalf, Wrap;
    t' := Wrap(u[k] - v[j] * qhat - t);
    u[k] := LHalf(t');
    t' := (0x1_0000 - HHalf(t')) % 0x1_0000;
  }

  /** The last step, at the top digit, where a borrow, if there is one, goes nowhere. */
  lemma SubtractTop(before: seq<Digit>, now: seq<Digit>, was: seq<Digit>, w: seq<Digit>, k: nat, hi: nat, gap: int,
                    qhat: int, t: int, c: int)
    requires k < hi <= |before| == |was| == |now| && 0 <= k - gap && hi - gap <= |w|
    requires Subtracted(before, was, w, k, hi, gap, qhat, t) && now == before[k := now[k]]
    requires now[k] == before[k] - t + c * 0x1_0000
    ensures now[..k] == was[..k] && now[hi..] == was[hi..]
    ensures Val(now[k..hi]) == Val(was[k..hi]) - qhat * Val(w[k + 1 - gap..hi - gap]) + c * Pow(hi - k)
  {
    hide Val;
    OneDigitChanged(before, now, was, k, hi);
    PeelDigit(now, k, hi);
    PeelDigit(was, k, hi);
    TopAlgebra(now[k], was[k], t, c, Pow(hi - k - 1));
  }

  lemma TopBorrow(a: Digit, t: Digit)
    ensures var w := Wrap(a - t);
      LHalf(w) == a - t + (if HHalf(w) != 0 then 0x1_0000 else 0)
  {
  }

  lemma TopAlgebra(d: int, a: int, t: int, c: int, p: int)
    requires d == a - t + c * 0x1_0000
    ensures d * p + t * p == a * p + c * (p * 0x1_0000)
  {
  }

  lemma CarryAlgebra(a: int, b: int, t: int, d: int, t': int, p: int)
    requires d + t' * 0x1_0000 == a + b + t
    ensures d * p + t' * (p * 0x1_0000) == a * p + b * p + t * p
  {
  }

  lemma SplitHalves(t: Word)
    ensures t == HHalf(t) * 0x1_0000 + LHalf(t)
    ensures t < 0x2_0000 ==> HHalf(t) == if t >= 0x1_0000 then 1 else 0
  {
  }

  ghost predicate Added(now: seq<Digit>, was: seq<Digit>, w: seq<Digit>, k: nat, hi: nat, gap: int, t: int)
    requires k < hi <= |now| == |was| && 0 <= k - gap && hi - gap <= |w|
  {
    && now[..k + 1] == was[..k + 1] && now[hi..] == was[hi..]
    && Val(now[k + 1..hi]) + t * Pow(hi - k - 1) == Val(was[k + 1..hi]) + Val(w[k + 1 - gap..hi - gap])
  }

  lemma AddStep(before: seq<Digit>, now: seq<Digit>, was: seq<Digit>, w: seq<Digit>, k: nat, hi: nat, gap: int,
                t: int, t': int)
    requires 1 <= k < hi <= |before| == |was| == |now| && 0 <= k - 1 - gap && hi - gap <= |w|
    requires Added(before, was, w, k, hi, gap, t) && now == before[k := now[k]]
    requires now[k] + t' * 0x1_0000 == before[k] + w[k - gap] + t
    ensures Added(now, was, w, k - 1, hi, gap, t')
  {
    hide Val;
    OneDigitChanged(before, now, was, k, hi);
    PeelDigit(now, k, hi);
    PeelDigit(was, k, hi);
    PeelDigit(w, k - gap, hi - gap);
    CarryAlgebra(was[k], w[k - gap], t, now[k], t', Pow(hi - k - 1));
  }

  /** Adds the divisor to the n + 1 digits at `p`, modulo B^(n+1). */
  method AddBack(u: array<Digit>, p: nat, v: array<Digit>, vo: nat, n: nat) returns (ghost carried: bool)
    requires u != v && p + n < u.Length && vo + n < v.Length
    modifies u
    ensures u[..p] == old(u[..p]) && u[p + n + 1..] == old(u[p + n + 1..])
    ensures Val(u[p..p + n + 1]) + (if carried then Pow(n + 1) else 0) ==
      old(Val(u[p..p + n + 1])) + Val(v[vo + 1..vo + n + 1])
  {
    hide Val, Pow, HHalf, LHalf;
    ghost var was, w, gap := u[..], v[..], p - vo;
    var t: Word := 0;
    var i := n;
    NoDigits(was, p + n + 1);
    NoDigits(w, vo + n + 1);
    assert Added(u[..], was, w, p + n, p + n + 1, gap, 0);
    hide Added;
    while i > 0
      invariant 0 <= i <= n && 0 <= t <= 1 && v[..] == w
      invariant Added(u[..], was, w, p + i, p + n + 1, gap, t)
    {
      ghost var before, t0 := u[..], t;
      t := AddDigit(u, p + i, v, vo + i, t);
      AddStep(before, u[..], was, w, p + i, p + n + 1, gap, t0, t);
      i := i - 1;
    }
    ghost var before, t0 := u[..], t;
    SplitHalves(u[p] as int + t);
    u[p] := LHalf(u[p] as int + t);
    carried := before[p] + t0 >= 0x1_0000;
    AddTop(before, u[..], was, w, p, p + n + 1, gap, t0, if carried then 1 else 0);
    assert u[p..p + n + 1] == u[..][p..p + n + 1] && v[vo + 1..vo + n + 1] == w[vo + 1..vo + n + 1];
  }

  /** The step of the loop at one digit. */
  method AddDigit(u: array<Digit>, k: nat, v: array<Digit>, j: nat, t: Word) returns (t': Word)
    requires u != v && k < u.Length && j < v.Length && t <= 1
    modifies u
    ensures u[..] == old(u[..])[k := u[k]] && t' <= 1
    ensures u[k] + t' * 0x1_0000 == old(u[k]) + v[j] + t
  {
    t' := t + u[k] + v[j];
    SplitHalves(t');
    hide HHalf, LHalf;
    u[k] := LHalf(t');
    t' := HHalf(t');
  }

  /** The last step, at the top digit, where a carry, if there is one, goes nowhere. */
  lemma AddTop(before: seq<Digit>, now: seq<Digit>, was: seq<Digit>, w: seq<Digit>, k: nat, hi: nat, gap: int,
               t: int, c: int)
    requires k < hi <= |before| == |was| == |now| && 0 <= k - gap && hi - gap <= |w|
    requires Added(before, was, w, k, hi, gap, t) && now == before[k := now[k]]
    requires now[k] + c * 0x1_0000 == before[k] + t
    ensures now[..k] == was[..k] && now[hi..] == was[hi..]
    ensures Val(now[k..hi]) + c * Pow(hi - k) == Val(was[k..hi]) + Val(w[k + 1 - gap..hi - gap])
  {
    hide Val;
    OneDigitChanged(before, now, was, k, hi);
    PeelDigit(now, k, hi);
    PeelDigit(was, k, hi);
    CarryAlgebra(was[k], 0, t, now[k], c, Pow(hi - k - 1));
  }

  // ---------------------------------------------------------------------------------------
  // One quotient digit, and all of them.
  // ---------------------------------------------------------------------------------------

  lemma ValThree(a: Digit, b: Digit, c: Digit)
    ensures Val([a, b]) == a * 0x1_0000 + b
    ensures Val([a, b, c]) == (a * 0x1_0000 + b) * 0x1_0000 + c
  {
    assert [a][..0] == [];
    assert Val([a]) == a;
    assert [a, b] == [a] + [b];
    ValSnoc([a], b);
    assert [a, b, c] == [a, b] + [c];
    ValSnoc([a, b], c);
  }

  /** The first `k` digits and the rest. */
  lemma LeadingPart(s: seq<Digit>, k: nat)
    requires k <= |s|
    ensures Val(s) == Val(s[..k]) * Pow(|s| - k) + Val(s[k..])
    ensures Val(s[..k]) * Pow(|s| - k) <= Val(s) < Val(s[..k]) * Pow(|s| - k) + Pow(|s| - k)
  {
    assert s == s[..k] + s[k..];
    ValConcat(s[..k], s[k..]);
    ValBound(s[k..]);
  }

  lemma LeadingDigitAtMost(us: seq<Digit>, vs: seq<Digit>)
    requires |us| == |vs| >= 1 && Val(us) < Val(vs)
    ensures us[0] <= vs[0]
  {
    hide Val, Pow;
    var p := Pow(|us| - 1);
    LeadingPart(us, 1);
    LeadingPart(vs, 1);
    FirstDigit(us);
    FirstDigit(vs);
    var a: int, b: int := us[0], vs[0];
    assert (b + 1) * p == b * p + p;
    MulCancelLess(a, b + 1, p);
  }

  lemma FirstDigit(s: seq<Digit>)
    requires |s| >= 1
    ensures Val(s[..1]) == s[0]
  {
    assert s[..1][..0] == [];
  }

  lemma SmallQuotient(x: int, v: int, k: int)
    requires v > 0 && 0 <= x < v * k
    ensures 0 <= x / v < k
  {
    if x / v >= k {
      MulMono(k, x / v, v);
    }
  }

  /** When the partial remainder is below the divisor, the next quotient is a digit. */
  lemma QuotientIsDigit(us: seq<Digit>, V: int)
    requires |us| >= 1 && Val(us[..|us| - 1]) < V
    ensures 0 <= Val(us) / V < 0x1_0000
  {
    SmallQuotient(Val(us), V, 0x1_0000);
  }

  lemma TrialBrackets(u: int, v: int, top3: int, top2: int, scale: int)
    requires scale >= 1 && top3 >= 0 && top2 >= 0x1_0000 && u >= 0 && v > 0
    requires top3 * scale <= u < top3 * scale + scale
    requires top2 * scale <= v < top2 * scale + scale
    requires u / v < 0x1_0000
    ensures u / v <= Trial(0x1_0000, top3, top2) <= u / v + 1
  {
    hide Trial;
    var q := u / v;
    assert (top3 + 1) * scale == top3 * scale + scale;
    assert q * v <= u < q * v + v;
    assert (q + 1) * v == q * v + v;
    TrialNotTooSmall(0x1_0000, scale, u, v, top3, top2, q);
    TrialAtMostOneTooLarge(0x1_0000, scale, u, v, top3, top2, q);
  }

  /** The trial digit is the true quotient digit or one more. */
  lemma TrialIsClose(us: seq<Digit>, vs: seq<Digit>)
    requires |vs| >= 2 && |us| == |vs| + 1 && vs[0] >= 1 && Val(us[..|vs|]) < Val(vs)
    ensures Val(vs[..2]) > 0
    ensures var q := Val(us) / Val(vs);
      q <= Trial(0x1_0000, Val(us[..3]), Val(vs[..2])) <= q + 1
  {
    hide Val, Trial, Pow;
    QuotientIsDigit(us, Val(vs));
    TwoDigits(vs);
    LeadingPart(us, 3);
    LeadingPart(vs, 2);
    TrialBrackets(Val(us), Val(vs), Val(us[..3]), Val(vs[..2]), Pow(|vs| - 2));
  }

  lemma TwoDigits(s: seq<Digit>)
    requires |s| >= 2
    ensures var a: int, b: int := s[0], s[1]; Val(s[..2]) == a * 0x1_0000 + b
  {
    assert s[..2] == [s[0], s[1]];
    ValThree(s[0], s[1], 0);
  }

  lemma ThreeDigits(s: seq<Digit>)
    requires |s| >= 3
    ensures var a: int, b: int, c: int := s[0], s[1], s[2]; Val(s[..3]) == (a * 0x1_0000 + b) * 0x1_0000 + c
  {
    assert s[..3] == [s[0], s[1], s[2]];
    ValThree(s[0], s[1], s[2]);
  }

  lemma BelowDivisorHasLeadingZero(s: seq<Digit>, vs: seq<Digit>)
    requires |s| == |vs| + 1 && Val(s) < Val(vs)
    ensures s[0] == 0 && Val(s[1..]) == Val(s)
  {
    ValBound(vs);
    assert s == [s[0]] + s[1..];
    LeadingZero(s[0], s[1..]);
  }

  /** D3 to D6 at position `p`: one quotient digit, by trial and at most one repair. */
  method QuotientDigit(u: array<Digit>, p: nat, v: array<Digit>, vo: nat, n: nat) returns (qj: Digit)
    requires u != v && n >= 2 && p + n < u.Length && vo + n < v.Length && v[vo + 1] >= 0x8000
    requires Val(u[p..p + n]) < Val(v[vo + 1..vo + n + 1])
    modifies u
    ensures u[..p] == old(u[..p]) && u[p + n + 1..] == old(u[p + n + 1..])
    ensures u[p] == 0
    ensures qj == old(Val(u[p..p + n + 1])) / Val(v[vo + 1..vo + n + 1])
    ensures Val(u[p + 1..p + n + 1]) == old(Val(u[p..p + n + 1])) % Val(v[vo + 1..vo + n + 1])
  {
    hide Val, Trial, Pow;
    ghost var us, vs := u[p..p + n + 1], v[vo + 1..vo + n + 1];
    ghost var U, V := Val(us), Val(vs);
    assert us[..n] == u[p..p + n];
    LeadingDigitAtMost(us[..n], vs);
    TrialIsClose(us, vs);
    ThreeDigits(us);
    TwoDigits(vs);
    var qhat, corrections := TrialDigit(u[p], u[p + 1], u[p + 2], v[vo + 1], v[vo + 2]);
    assert corrections <= 2;
    var borrowed := MultiplyAndSubtract(u, p, v, vo, n, qhat);
    ghost var mid := u[p..p + n + 1];
    assert v[vo + 1..vo + n + 1] == vs;
    ValBound(mid);
    if borrowed {
      qhat := qhat - 1;
      ghost var carried := AddBack(u, p, v, vo, n);
      ValBound(u[p..p + n + 1]);
      RepairIsExact(U, V, qhat, Pow(n + 1), Val(mid), Val(u[p..p + n + 1]), carried);
    } else {
      NoRepair(U, V, qhat);
    }
    ghost var now := u[p..p + n + 1];
    BelowDivisorHasLeadingZero(now, vs);
    assert now[1..] == u[p + 1..p + n + 1];
    qj := qhat;
  }

  lemma SmallQuotientOf(x: int, v: int, k: int, q: int)
    requires v > 0 && 0 <= x < k * v && q == x / v
    ensures 0 <= q < k
  {
    SmallQuotient(x, v, k);
  }

  /** If the trial product was too large, adding the divisor back once, with its carry dropped,
      gives the remainder. */
  lemma RepairIsExact(U: int, V: int, q: int, P: int, mid: int, now: int, carried: bool)
    requires V > 0 && U >= 0 && U / V <= q + 1 <= U / V + 1
    requires 0 <= mid < P && mid == U - (q + 1) * V + P
    requires 0 <= now < P && now + (if carried then P else 0) == mid + V
    ensures q == U / V && now == U % V
  {
    var k := U / V;
    MulGap(q, q + 1, V);
    assert U == k * V + U % V;
    SmallQuotientOf(U, V, q + 1, k);
    assert k == q;
  }

  lemma NoRepair(U: int, V: int, q: int)
    requires V > 0 && U / V <= q <= U / V + 1 && U - q * V >= 0
    ensures q == U / V && U - q * V == U % V
  {
    var k := U / V;
    assert U == k * V + U % V;
    if k < q {
      MulGap(k, q, V);
    }
  }

  lemma NextPrefix(Q: int, V: int, R: int, d: int, q: int, W: int)
    requires V > 0 && W == Q * V + R && q == (R * 0x1_0000 + d) / V
    ensures W * 0x1_0000 + d == (Q * 0x1_0000 + q) * V + (R * 0x1_0000 + d) % V
  {
    var x := R * 0x1_0000 + d;
    assert x == q * V + x % V;
    assert (Q * 0x1_0000 + q) * V == Q * V * 0x1_0000 + q * V;
  }

  /** D2 to D7: divides the m + n + 1 digits at `uo` by the n digits after `vo`. */
  method ProgramD(u: array<Digit>, uo: nat, v: array<Digit>, vo: nat, q: array<Digit>, qo: nat, m: nat, n: nat)
    requires u != v && u != q && v != q && n >= 2
    requires uo + m + n < u.Length && vo + n < v.Length && qo + m < q.Length && v[vo + 1] >= 0x8000
    requires Val(u[uo..uo + n]) < Val(v[vo + 1..vo + n + 1])
    modifies u, q
    ensures u[..uo] == old(u[..uo]) && q[..qo] == old(q[..qo])
    ensures forall k :: uo <= k <= uo + m ==> u[k] == 0
    ensures Val(u[uo + m + 1..uo + m + n + 1]) < Val(v[vo + 1..vo + n + 1])
    ensures old(Val(u[uo..uo + m + n + 1])) ==
      Val(q[qo..qo + m + 1]) * Val(v[vo + 1..vo + n + 1]) + Val(u[uo + m + 1..uo + m + n + 1])
  {
    hide Val;
    ghost var was, V := u[..], Val(v[vo + 1..vo + n + 1]);
    NoDigits(q[..], qo);
    assert u[uo..uo + n] == u[..][uo..uo + n];
    var j := 0;
    while j <= m
      invariant 0 <= j <= m + 1
      invariant u[..uo] == old(u[..uo]) && q[..qo] == old(q[..qo])
      invariant Val(v[vo + 1..vo + n + 1]) == V && v[vo + 1] >= 0x8000
      invariant forall k :: uo <= k < uo + j ==> u[k] == 0
      invariant u[uo + j + n..] == was[uo + j + n..]
      invariant Val(u[..][uo + j..uo + j + n]) < V
      invariant Val(was[uo..uo + j + n]) == Val(q[..][qo..qo + j]) * V + Val(u[..][uo + j..uo + j + n])
    {
      var qj := DivideAt(u, uo, v, vo, n, j, V, was, Val(q[..][qo..qo + j]));
      ghost var q0 := q[..];
      q[qo + j] := qj;
      assert q[..][qo..qo + j] == q0[qo..qo + j];
      SnocSlice(q[..], qo, qo + j);
      j := j + 1;
    }
    assert u[uo..uo + m + n + 1] == u[..][uo..uo + m + n + 1];
    assert u[uo + m + 1..uo + m + n + 1] == u[..][uo + m + 1..uo + m + n + 1];
    assert q[qo..qo + m + 1] == q[..][qo..qo + m + 1];
  }

  /** One round of the loop of ProgramD: the quotient of the first j + n + 1 dividend digits
      from the quotient `Q` of the first j + n. */
  method DivideAt(u: array<Digit>, uo: nat, v: array<Digit>, vo: nat, n: nat, j: nat,
                  ghost V: int, ghost was: seq<Digit>, ghost Q: int)
    returns (qj: Digit)
    requires u != v && n >= 2 && uo + j + n < u.Length == |was| && vo + n < v.Length && v[vo + 1] >= 0x8000
    requires V == Val(v[vo + 1..vo + n + 1])
    requires u[uo + j + n..] == was[uo + j + n..]
    requires Val(u[..][uo + j..uo + j + n]) < V
    requires Val(was[uo..uo + j + n]) == Q * V + Val(u[..][uo + j..uo + j + n])
    modifies u
    ensures u[..uo + j] == old(u[..uo + j]) && u[uo + j] == 0
    ensures u[uo + j + n + 1..] == was[uo + j + n + 1..]
    ensures Val(u[..][uo + j + 1..uo + j + n + 1]) < V
    ensures Val(was[uo..uo + j + n + 1]) == (Q * 0x1_0000 + qj) * V + Val(u[..][uo + j + 1..uo + j + n + 1])
  {
    hide Val;
    ghost var p := uo + j;
    ghost var R := Val(u[..][p..p + n]);
    SnocSlice(u[..], p, p + n);
    SnocSlice(was, uo, p + n);
    assert u[p + n] == u[p + n..][0] == was[p + n];
    assert u[p..p + n] == u[..][p..p + n] && u[p..p + n + 1] == u[..][p..p + n + 1];
    assert u[p + n + 1..] == u[p + n..][1..] == was[p + n..][1..] == was[p + n + 1..];
    qj := QuotientDigit(u, uo + j, v, vo, n);
    assert u[p + 1..p + n + 1] == u[..][p + 1..p + n + 1];
    NextPrefix(Q, V, R, was[p + n], qj, Val(was[uo..p + n]));
  }

  lemma SnocSlice(s: seq<Digit>, lo: nat, hi: nat)
    requires lo <= hi < |s|
    ensures Val(s[lo..hi + 1]) == Val(s[lo..hi]) * 0x1_0000 + s[hi]
  {
    assert s[lo..hi + 1] == s[lo..hi] + [s[hi]];
    ValSnoc(s[lo..hi], s[hi]);
  }

  // ---------------------------------------------------------------------------------------
  // Normalising and unnormalising shifts.
  // ---------------------------------------------------------------------------------------

  /** Shifting a digit left by a factor `f` pushes out what lies above `g`; the bits kept and
      the bits coming in from the next digit do not overlap, so the original's `|` is a sum. */
  lemma ShiftDigit(x: Digit, y: Digit, f: int, g: int)
    requires f >= 1 && g >= 1 && f * g == 0x1_0000
    ensures (x * f) % 0x1_0000 == (x % g) * f
    ensures x * f == (x / g) * 0x1_0000 + (x * f) % 0x1_0000
    ensures 0 <= y / g < f
    ensures (x * f) % 0x1_0000 + y / g < 0x1_0000
  {
    var h: int, l: int := x / g, x % g;
    assert x * f == (h * g + l) * f == h * (f * g) + l * f;
    MulGap(l, g, f);
    MulNonNegative(l, f);
    ModOf(x * f, h, l * f);
    SmallQuotient(y, g, f);
  }

  lemma ModOf(z: int, h: int, r: int)
    requires z == h * 0x1_0000 + r && 0 <= r < 0x1_0000
    ensures z % 0x1_0000 == r
  {
  }

  lemma ShiftAlgebra(a: int, x: int, y: int, f: int, h: int, kept: int)
    requires x * f == h * 0x1_0000 + kept
    ensures (a * f + h) * 0x1_0000 + (kept + y) == (a * 0x1_0000 + x) * f + y
  {
  }

  /** Shifts the digits p[o..o + len] left; the top digit is small enough that no bit is lost. */
  method Shl(p: array<Digit>, o: nat, len: nat, sh: nat)
    requires o + len < p.Length && 1 <= sh < 16 && p[o] < Pow2(16 - sh)
    modifies p
    ensures p[..o] == old(p[..o]) && p[o + len + 1..] == old(p[o + len + 1..])
    ensures Val(p[o..o + len + 1]) == old(Val(p[o..o + len + 1])) * Pow2(sh)
  {
    hide Val, Pow2;
    ghost var was := p[..];
    var f, g := Pow2(sh), Pow2(16 - sh);
    Pow2Splits(sh);
    NoDigits(was, o);
    NoDigits(p[..], o);
    var i := 0;
    while i < len
      invariant 0 <= i <= len
      invariant p[..o] == was[..o] && p[o + i..] == was[o + i..]
      invariant Val(p[..][o..o + i]) == Val(was[o..o + i]) * f + was[o + i] / g
    {
      ghost var before := p[..];
      assert p[o + i] == p[o + i..][0] == was[o + i];
      assert p[o + i + 1] == p[o + i..][1] == was[o + i + 1];
      ShiftDigit(p[o + i], p[o + i + 1], f, g);
      p[o + i] := (p[o + i] * f) % 0x1_0000 + p[o + i + 1] / g;
      assert p[..][o..o + i] == before[o..o + i];
      SnocSlice(p[..], o, o + i);
      SnocSlice(was, o, o + i);
      ShiftAlgebra(Val(was[o..o + i]), was[o + i], was[o + i + 1] / g, f, was[o + i] / g,
                   (was[o + i] * f) % 0x1_0000);
      assert p[o + i + 1..] == before[o + i..][1..] == was[o + i + 1..];
      i := i + 1;
    }
    ghost var before := p[..];
    assert p[o + i] == p[o + i..][0] == was[o + i];
    ShiftDigit(p[o + i], 0, f, g);
    p[o + i] := (p[o + i] * f) % 0x1_0000;
    assert p[..][o..o + i] == before[o..o + i];
    SnocSlice(p[..], o, o + i);
    SnocSlice(was, o, o + i);
    ShiftAlgebra(Val(was[o..o + i]), was[o + i], 0, f, was[o + i] / g, (was[o + i] * f) % 0x1_0000);
    assert p[o..o + len + 1] == p[..][o..o + len + 1];
    assert p[o + len + 1..] == before[o + i..][1..] == was[o + len + 1..];
  }

  lemma UnshiftAlgebra(x: int, y: int, f: int, g: int, p: int, suffix: int, r: int, low: int)
    requires f >= 1 && f * g == 0x1_0000
    requires suffix * f + r == (x % f) * p + low
    ensures ((x / f + (y % f) * g) * p + suffix) * f + r == (y % f) * (p * 0x1_0000) + (x * p + low)
  {
    var h, l, e := x / f, x % f, y % f;
    assert x == h * f + l;
    assert ((h + e * g) * p) * f == (h * f) * p + (e * (f * g)) * p;
  }

  /** Everything after position `k` has been shifted back; what `was[k]` owes is outstanding. */
  ghost predicate Unshifted(now: seq<Digit>, was: seq<Digit>, k: nat, hi: nat, f: int)
    requires k < hi <= |now| == |was| && f >= 1
  {
    && now[..k + 1] == was[..k + 1]
    && Val(now[k + 1..hi]) * f + was[hi - 1] % f == (was[k] % f) * Pow(hi - k - 1) + Val(was[k + 1..hi])
  }

  lemma UnshiftStep(before: seq<Digit>, now: seq<Digit>, was: seq<Digit>, k: nat, hi: nat, f: int, g: int)
    requires 1 <= k < hi <= |before| == |was| && f >= 1 && g >= 1 && f * g == 0x1_0000
    requires Unshifted(before, was, k, hi, f)
    requires |now| == |before| && now[..k] == before[..k] && now[k + 1..] == before[k + 1..]
    requires now[k] == was[k] / f + (was[k - 1] * g) % 0x1_0000
    ensures Unshifted(now, was, k - 1, hi, f)
  {
    hide Val;
    var n: int := now[k];
    ShiftDigit(was[k - 1], was[k], g, f);
    assert n == was[k] / f + (was[k - 1] % f) * g;
    assert now[k + 1..hi] == before[k + 1..hi] by {
      assert now[k + 1..hi] == now[k + 1..][..hi - k - 1];
      assert before[k + 1..hi] == before[k + 1..][..hi - k - 1];
    }
    assert now[..k] == before[..k] == was[..k];
    PeelDigit(now, k, hi);
    PeelDigit(was, k, hi);
    UnshiftAlgebra(was[k], was[k - 1], f, g, Pow(hi - k - 1), Val(before[k + 1..hi]), was[hi - 1] % f,
                   Val(was[k + 1..hi]));
  }

  /** Shifts the remainder digits back, from the last one up. */
  method Unshift(u: array<Digit>, uo: nat, m: nat, n: nat, d: nat)
    requires uo + m + n < u.Length && 1 <= d < 16 && u[uo + m] == 0
    modifies u
    ensures u[..uo + m + 1] == old(u[..uo + m + 1])
    ensures Val(u[uo + m + 1..uo + m + n + 1]) == old(Val(u[uo + m + 1..uo + m + n + 1])) / Pow2(d)
  {
    hide Val, Pow2;
    ghost var was, hi := u[..], uo + m + n + 1;
    var f, g := Pow2(d), Pow2(16 - d);
    Pow2Splits(d);
    NoDigits(was, hi);
    var i := m + n;
    while i > m
      invariant m <= i <= m + n
      invariant Unshifted(u[..], was, uo + i, hi, f)
    {
      ghost var before := u[..];
      assert u[uo + i] == before[..uo + i + 1][uo + i] == was[uo + i];
      assert u[uo + i - 1] == before[..uo + i + 1][uo + i - 1] == was[uo + i - 1];
      ShiftDigit(u[uo + i - 1], u[uo + i], g, f);
      hide Unshifted;
      u[uo + i] := u[uo + i] / f + (u[uo + i - 1] * g) % 0x1_0000;
      UnshiftStep(before, u[..], was, uo + i, hi, f, g);
      i := i - 1;
    }
    ghost var before := u[..];
    u[uo + i] := 0;
    assert before[uo + m] == before[..uo + m + 1][uo + m] == was[uo + m] == 0;
    assert u[uo + m + 1..hi] == before[uo + m + 1..hi];
    assert u[..uo + m + 1] == before[..uo + m + 1];
    UnshiftDone(before, was, uo + m, hi, f);
  }

  lemma UnshiftDone(now: seq<Digit>, was: seq<Digit>, k: nat, hi: nat, f: int)
    requires k < hi <= |now| == |was| && f >= 1 && was[k] == 0 && Unshifted(now, was, k, hi, f)
    ensures Val(now[k + 1..hi]) == Val(was[k + 1..hi]) / f
  {
    hide Val;
    DivModUnique(Val(was[k + 1..hi]), f, Val(now[k + 1..hi]), was[hi - 1] % f);
  }

  // ---------------------------------------------------------------------------------------
  // The whole division.
  // ---------------------------------------------------------------------------------------

  /** Exercise 16: dividing by a single digit, most significant digit first. */
  method DivideByDigit(u1: Digit, u2: Digit, u3: Digit, u4: Digit, t: Digit) returns (q: Long, r: Long)
    requires t >= 1
    ensures q == Val([u1, u2, u3, u4]) / t && r == Val([u1, u2, u3, u4]) % t
  {
    var q1: Digit := u1 / t;
    var rbj: Word := Combine(u1 % t, u2);
    ghost var Q := NextQuotient(0, u1, 0, t);
    Q := NextQuotient(q1, u2, u1, t);
    var q2: Digit := rbj / t;
    rbj := Combine(rbj % t, u3);
    Q := NextQuotient(Q, u3, u1 * 0x1_0000 + u2, t);
    var q3: Digit := rbj / t;
    rbj := Combine(rbj % t, u4);
    Q := NextQuotient(Q, u4, (u1 * 0x1_0000 + u2) * 0x1_0000 + u3, t);
    var q4: Digit := rbj / t;
    r := rbj % t;
    q := Join(Combine(q1, q2), Combine(q3, q4));
    ValFour(u1, u2, u3, u4);
  }

  /** One step of short division: `W` is the part of the dividend used so far. */
  lemma NextQuotient(Q: int, d: Digit, W: int, t: Digit) returns (next: int)
    requires t >= 1 && W >= 0 && Q == W / t
    ensures 0 <= (W % t * 0x1_0000 + d) / t < 0x1_0000
    ensures next == Q * 0x1_0000 + (W % t * 0x1_0000 + d) / t
    ensures next == (W * 0x1_0000 + d) / t
    ensures (W * 0x1_0000 + d) % t == (W % t * 0x1_0000 + d) % t
  {
    var R := W % t;
    var x := R * 0x1_0000 + d;
    SmallQuotient(x, t, 0x1_0000);
    next := Q * 0x1_0000 + x / t;
    NextPrefix(Q, t, R, d, x / t, W);
    DivModUnique(W * 0x1_0000 + d, t, next, x % t);
  }

  lemma {:induction false} DropZeros(s: seq<Digit>, k: nat)
    requires k <= |s| && forall i :: 0 <= i < k ==> s[i] == 0
    ensures Val(s) == Val(s[k..])
  {
    if k == 0 {
      assert s[0..] == s;
    } else {
      LeadingZero(s[0], s[1..]);
      assert s == [s[0]] + s[1..];
      DropZeros(s[1..], k - 1);
      assert s[1..][k - 1..] == s[k..];
    }
  }

  lemma {:induction false} PowMonotone(j: nat, k: nat)
    requires j <= k
    ensures Pow(j) <= Pow(k)
  {
    if j < k { PowMonotone(j, k - 1); }
  }

  /** A number with a nonzero leading digit has no fewer digits than one that is at least it. */
  lemma EnoughDigits(us: seq<Digit>, vs: seq<Digit>)
    requires |vs| >= 1 && vs[0] >= 1 && Val(us) >= Val(vs)
    ensures |us| >= |vs|
  {
    if |us| < |vs| { PowMonotone(|us|, |vs| - 1); }
    LeadingPart(vs, 1);
    FirstDigit(vs);
    MulLower(vs[0], Pow(|vs| - 1));
    ValBound(us);
  }

  /** After normalisation the leading part of the dividend is below the divisor. */
  lemma NormalisedPrefix(us: seq<Digit>, n: nat, u: int, v: int, f: int)
    requires 1 <= n < |us| && f >= 1 && Val(us) == u * f && u < Pow(|us| - 1) && v >= Pow(n - 1)
    ensures Val(us[..n]) < v * f
  {
    hide Val;
    var k := |us| - n;
    LeadingPart(us, n);
    PowAdd(n - 1, k);
    MulGap(u, Pow(n - 1) * Pow(k), f);
    assert (Pow(n - 1) * Pow(k)) * f == (Pow(n - 1) * f) * Pow(k);
    MulCancelLess(Val(us[..n]), Pow(n - 1) * f, Pow(k));
    MulMono(Pow(n - 1), v, f);
  }

  /** The quotient of the shifted operands is the quotient; the remainder comes out shifted. */
  lemma Unnormalise(u: int, v: int, f: int, q: int, r: int)
    requires f >= 1 && v >= 1 && u * f == q * (v * f) + r && 0 <= r < v * f
    ensures q == u / v && r / f == u % v
  {
    var s := u - q * v;
    assert r == s * f by { assert q * (v * f) == (q * v) * f; assert (u - q * v) * f == u * f - (q * v) * f; }
    MulCancelLess(s, v, f);
    if s < 0 { MulGap(s, 0, f); }
    DivModUnique(u, v, q, s);
    DivModUnique(r, f, s, 0);
  }

  /** The shift that brings the leading divisor digit to at least half the base. */
  method NormalisingShift(v1: Digit) returns (d: nat)
    requires v1 >= 1
    ensures d < 16 && 0x8000 <= v1 * Pow2(d) < 0x1_0000
  {
    hide Pow2;
    d := 0;
    var t: Word := v1;
    Pow2Fifteen();
    NoShift();
    while t < 0x8000
      invariant d <= 15 && t == v1 * Pow2(d) && Pow2(d) <= t < 0x1_0000
      decreases 0x8000 - t
    {
      DoublePow2(v1, d);
      t := t * 2;
      d := d + 1;
    }
  }

  lemma DoublePow2(x: int, d: nat)
    ensures Pow2(d + 1) == 2 * Pow2(d) && x * Pow2(d + 1) == 2 * (x * Pow2(d))
  {
    assert x * (2 * Pow2(d)) == 2 * (x * Pow2(d));
  }

  lemma Pow2Fifteen()
    ensures Pow2(15) == 0x8000
  {
    Pow2Splits(15);
    assert Pow2(1) == 2;
  }

  /** Skips the dividend's leading zero digits; at least the divisor's n digits remain. */
  method SkipLeadingZeros(u: array<Digit>, n: nat, ghost vs: seq<Digit>) returns (m: nat, uo: nat)
    requires u.Length == 5 && u[0] == 0 && 2 <= n <= 4 && |vs| == n && vs[0] >= 1
    requires Val(u[..][1..]) >= Val(vs)
    ensures uo + m + n == 4
    ensures forall k :: 0 <= k <= uo ==> u[k] == 0
    ensures u[uo + 1] != 0
    ensures Val(u[..][uo + 1..]) == Val(u[..][1..])
  {
    hide Val;
    m, uo := 4 - n, 0;
    while u[uo + 1] == 0
      invariant uo + m + n == 4
      invariant forall k :: 0 <= k <= uo ==> u[k] == 0
      invariant Val(u[..][uo + 1..]) == Val(u[..][1..])
      decreases m
    {
      DropZeros(u[..][uo + 1..], 1);
      assert u[..][uo + 1..][1..] == u[..][uo + 2..];
      EnoughDigits(u[..][uo + 2..], vs);
      m, uo := m - 1, uo + 1;
    }
  }

  lemma NormalisedLeadingDigit(before: seq<Digit>, after: seq<Digit>, f: int)
    requires |before| == |after| >= 1 && f >= 1 && Val(after) == Val(before) * f
    requires before[0] * f >= 0x8000
    ensures after[0] >= 0x8000
  {
    hide Val, Pow;
    LeadingPart(before, 1);
    LeadingPart(after, 1);
    FirstDigit(before);
    FirstDigit(after);
    ScaledLead(before[0], after[0], Val(before), Val(after), Pow(|before| - 1), f);
  }

  lemma ScaledLead(b: int, a: int, x: int, y: int, p: int, f: int)
    requires p >= 1 && f >= 1 && y == x * f && b * f >= 0x8000
    requires b * p <= x && y < a * p + p
    ensures a >= 0x8000
  {
    MulMono(b * p, x, f);
    MulMono(0x8000, b * f, p);
    assert (b * p) * f == (b * f) * p;
    assert (a + 1) * p == a * p + p;
    MulCancelLess(0x8000, a + 1, p);
  }

  /** D1: multiplies dividend and divisor by the same power of two. */
  method Normalise(u: array<Digit>, uo: nat, v: array<Digit>, vo: nat, m: nat, n: nat) returns (d: nat)
    requires u != v && u.Length == v.Length == 5 && uo + m + n == 4 && vo + n == 4 && n >= 1
    requires u[uo] == 0 && v[vo + 1] >= 1
    modifies u, v
    ensures d < 16 && u[..uo] == old(u[..uo]) && v[vo + 1] >= 0x8000
    ensures Val(u[uo..]) == old(Val(u[uo..])) * Pow2(d)
    ensures Val(v[vo + 1..]) == old(Val(v[vo + 1..])) * Pow2(d)
  {
    hide Val, Pow2;
    d := NormalisingShift(v[vo + 1]);
    ghost var vs := v[vo + 1..];
    Pow2Splits(d);
    if d > 0 {
      assert u[uo..uo + m + n + 1] == u[uo..] && v[vo + 1..vo + 1 + (n - 1) + 1] == v[vo + 1..];
      MulCancelLess(v[vo + 1], Pow2(16 - d), Pow2(d));
      label before:
      Shl(u, uo, m + n, d);
      assert v[vo + 1..] == vs;
      Shl(v, vo + 1, n - 1, d);
      assert u[uo..uo + m + n + 1] == u[uo..] && v[vo + 1..vo + 1 + (n - 1) + 1] == v[vo + 1..];
      NormalisedLeadingDigit(vs, v[vo + 1..], Pow2(d));
    } else {
      NoShift();
    }
  }

  lemma NoShift()
    ensures Pow2(0) == 1
  {
  }

  /** A digit array with zeros up to position k holds the number its remaining digits write. */
  lemma Assemble(a: array<Digit>, k: nat)
    requires a.Length == 5 && 1 <= k <= 4 && forall i :: 1 <= i < k ==> a[i] == 0
    ensures Join(Combine(a[1], a[2]), Combine(a[3], a[4])) == Val(a[k..])
  {
    assert a[1..] == [a[1], a[2], a[3], a[4]];
    ValFour(a[1], a[2], a[3], a[4]);
    DropZeros(a[1..], k - 1);
    assert a[1..][k - 1..] == a[k..];
  }

  lemma TailSlice(a: array<Digit>, lo: nat, hi: nat)
    requires lo <= hi == a.Length
    ensures a[lo..hi] == a[lo..]
  {
  }

  /** D2 to D7, on shifted operands: the quotient's digits, and the shifted remainder. */
  method DivideNormalised(u: array<Digit>, uo: nat, v: array<Digit>, vo: nat, q: array<Digit>, qo: nat, m: nat, n: nat,
                          ghost ull: Long, ghost vll: Long, ghost f: int)
    requires u != v && u != q && v != q && u.Length == v.Length == q.Length == 5
    requires n >= 2 && uo + m + n == 4 && vo + n == 4 && qo + m == 4 && v[vo + 1] >= 0x8000 && f >= 1 && vll >= 1
    requires forall k :: 0 <= k < uo ==> u[k] == 0
    requires forall k :: 0 <= k < qo ==> q[k] == 0
    requires Val(u[uo..]) == ull * f && Val(v[vo + 1..]) == vll * f && Val(u[uo..uo + n]) < vll * f
    modifies u, q
    ensures Val(q[qo..]) == ull / vll && Val(u[uo + m + 1..]) / f == ull % vll
    ensures forall k :: 0 <= k <= uo + m ==> u[k] == 0
    ensures forall k :: 0 <= k < qo ==> q[k] == 0
  {
    hide Val, Pow2, Pow;
    TailSlice(u, uo, uo + m + n + 1);
    TailSlice(v, vo + 1, vo + n + 1);
    label before:
    ProgramD(u, uo, v, vo, q, qo, m, n);
    StillZero(old@before(u[..uo]), u[..uo]);
    StillZero(old@before(q[..qo]), q[..qo]);
    TailSlice(q, qo, qo + m + 1);
    TailSlice(u, uo + m + 1, uo + m + n + 1);
    Unnormalise(ull, vll, f, Val(q[qo..]), Val(u[uo + m + 1..]));
  }

  /** Division by a divisor of at least two digits. */
  method LongDivide(u: array<Digit>, uo: nat, v: array<Digit>, vo: nat, q: array<Digit>, m: nat, n: nat,
                    ghost ull: Long, ghost vll: Long, arq: bool)
    returns (quotient: Long, rem: Long)
    requires u != v && u != q && v != q && u.Length == v.Length == q.Length == 5
    requires n >= 2 && uo + m + n == 4 && vo + n == 4 && v[vo + 1] >= 1
    requires forall k :: 0 <= k <= uo ==> u[k] == 0
    requires Val(u[..][uo + 1..]) == ull && Val(v[..][vo + 1..]) == vll && vll >= 1
    modifies u, v, q
    ensures quotient == ull / vll
    ensures arq ==> rem == ull % vll
  {
    hide Val, Pow2, Pow;
    rem := 0;
    var qo := 4 - m;
    ghost var us, vs := u[..], v[..];
    ClearDigits(q, qo);
    assert u[..] == us && v[..] == vs;
    ghost var f;
    var d;
    f, d := NormaliseOperands(u, uo, v, vo, m, n, ull, vll);
    DivideNormalised(u, uo, v, vo, q, qo, m, n, ull, vll, f);
    Assemble(q, qo);
    quotient := Join(Combine(q[1], q[2]), Combine(q[3], q[4]));
    if arq {
      rem := ReadRemainder(u, uo, m, n, d);
    }
  }

  lemma StillZero(before: seq<Digit>, now: seq<Digit>)
    requires before == now && forall k :: 0 <= k < |before| ==> before[k] == 0
    ensures forall k :: 0 <= k < |now| ==> now[k] == 0
  {
  }

  /** The quotient digits above the first one computed. */
  method ClearDigits(q: array<Digit>, k: nat)
    requires k <= q.Length
    modifies q
    ensures forall j :: 0 <= j < k ==> q[j] == 0
  {
    var i := k;
    while i > 0
      invariant 0 <= i <= k
      invariant forall j :: i <= j < k ==> q[j] == 0
    {
      i := i - 1;
      q[i] := 0;
    }
  }

  /** The remainder the caller asked for: what is left in the last n digits, shifted back. */
  method ReadRemainder(u: array<Digit>, uo: nat, m: nat, n: nat, d: nat) returns (rem: Long)
    requires u.Length == 5 && uo + m + n == 4 && n >= 1 && d < 16
    requires forall k :: 0 <= k <= uo + m ==> u[k] == 0
    modifies u
    ensures rem == old(Val(u[uo + m + 1..])) / Pow2(d)
  {
    hide Val, Pow2;
    NoShift();
    TailSlice(u, uo + m + 1, uo + m + n + 1);
    if d > 0 {
      label before:
      Unshift(u, uo, m, n, d);
      TailSlice(u, uo + m + 1, uo + m + n + 1);
      StillZero(old@before(u[..uo + m + 1]), u[..uo + m + 1]);
    }
    assert forall k :: 0 <= k <= uo + m ==> u[k] == u[..uo + m + 1][k] == 0;
    Assemble(u, uo + m + 1);
    rem := Join(Combine(u[1], u[2]), Combine(u[3], u[4]));
  }

  /** D1 with what D2 needs to start: the divisor's digits in place and the dividend's leading
      part below it. */
  method NormaliseOperands(u: array<Digit>, uo: nat, v: array<Digit>, vo: nat, m: nat, n: nat,
                           ghost ull: Long, ghost vll: Long)
    returns (ghost f: int, d: nat)
    requires u != v && u.Length == v.Length == 5
    requires n >= 2 && uo + m + n == 4 && vo + n == 4 && v[vo + 1] >= 1
    requires forall k :: 0 <= k <= uo ==> u[k] == 0
    requires Val(u[..][uo + 1..]) == ull && Val(v[..][vo + 1..]) == vll
    modifies u, v
    ensures d < 16 && f == Pow2(d) && (d == 0 ==> f == 1) && vll >= 1
    ensures forall k :: 0 <= k < uo ==> u[k] == 0
    ensures Val(u[uo..]) == ull * f && Val(v[vo + 1..]) == vll * f && v[vo + 1] >= 0x8000
    ensures Val(u[uo..uo + n]) < vll * f
  {
    hide Val, Pow2, Pow;
    ghost var us, vs := u[uo..], v[vo + 1..];
    assert us[1..] == u[..][uo + 1..] && vs == v[..][vo + 1..];
    DropZeros(us, 1);
    ValBound(us[1..]);
    LeadingPart(vs, 1);
    FirstDigit(vs);
    MulLower(vs[0], Pow(n - 1));
    label before:
    d := Normalise(u, uo, v, vo, m, n);
    assert forall k :: 0 <= k < uo ==> u[k] == old@before(u[..uo])[k] == 0;
    f := Pow2(d);
    NoShift();
    NormalisedPrefix(u[uo..], n, ull, vll, f);
    assert u[uo..][..n] == u[uo..uo + n];
  }

  /** Breaks a long long into digits 1 to 4 of a digit array. */
  method LoadDigits(x: Long) returns (a: array<Digit>)
    ensures fresh(a) && a.Length == 5 && a[0] == 0 && Val(a[..][1..]) == x
  {
    a := new Digit[5];
    var s := Split(x);
    ValSplit(x);
    a[0], a[1], a[2], a[3], a[4] := 0, s[0], s[1], s[2], s[3];
    assert a[..][1..] == s;
  }

  lemma DropOneZero(s: seq<Digit>, k: nat)
    requires k < |s| && s[k] == 0
    ensures Val(s[k..]) == Val(s[k + 1..])
  {
    assert s[k..][1..] == s[k + 1..];
    DropZeros(s[k..], 1);
  }

  /** Returns `ull / vll` and, if the caller asks for it, `ull % vll`. */
  method QDivRem(ull: Long, vll: Long, arq: bool) returns (quotient: Long, rem: Long)
    requires vll != 0
    ensures quotient == ull / vll
    ensures arq ==> rem == ull % vll
  {
    hide Val, Pow2, Pow;
    if ull < vll {
      return 0, ull;
    }
    var qspace := new Digit[5];
    var uspace := LoadDigits(ull);
    ghost var us := uspace[..];
    var vspace := LoadDigits(vll);
    ghost var vs := vspace[..];
    assert uspace[..] == us;
    var n, vo := 4, 0;
    while vspace[vo + 1] == 0
      invariant 2 <= n <= 4 && vo == 4 - n
      invariant vspace[..] == vs && uspace[..] == us && Val(vs[vo + 1..]) == vll
      decreases n
    {
      n := n - 1;
      DropOneZero(vs, vo + 1);
      if n == 1 {
        quotient, rem := OneDigitDivide(uspace, vspace, vo, ull, vll);
        return;
      }
      vo := vo + 1;
    }
    var m, uo := SkipLeadingZeros(uspace, n, vs[vo + 1..]);
    quotient, rem := LongDivide(uspace, uo, vspace, vo, qspace, m, n, ull, vll, arq);
  }

  /** The divisor turned out to have one digit. */
  method OneDigitDivide(u: array<Digit>, v: array<Digit>, vo: nat, ghost ull: Long, ghost vll: Long)
    returns (quotient: Long, rem: Long)
    requires u.Length == v.Length == 5 && vo == 2 && vll != 0
    requires Val(u[..][1..]) == ull && Val(v[..][vo + 2..]) == vll
    ensures quotient == ull / vll && rem == ull % vll
  {
    FirstDigit(v[..][4..]);
    assert v[..][4..][..1] == v[..][4..];
    assert u[..][1..] == [u[1], u[2], u[3], u[4]];
    quotient, rem := DivideByDigit(u[1], u[2], u[3], u[4], v[vo + 2]);
  }
}
