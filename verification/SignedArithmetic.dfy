/**
 64-bit multiplication by Karatsuba's three products, and signed division and remainder on
 top of the unsigned division. Unsigned arithmetic wraps; the specifications are over the
 mathematical integers.
 */
module SignedArithmetic {
  import opened Digits
  import opened Multiplication
  import QDivRem

  /** The value a 64-bit expression takes when its exact value is `x`. */
  function Wrap64(x: int): Long { x % 0x1_0000_0000_0000_0000 }

  /** A long long with the bits of `x`. */
  function Signed(x: Long): SLong {
    if x < 0x8000_0000_0000_0000 then x else x - 0x1_0000_0000_0000_0000
  }

  lemma WrapSum(x: int, y: int)
    ensures Wrap64(Wrap64(x) + y) == Wrap64(x + y)
    ensures Wrap64(-(Wrap64(x) as int)) == Wrap64(-x)
  {
    var k := x / 0x1_0000_0000_0000_0000;
    assert x == 0x1_0000_0000_0000_0000 * k + Wrap64(x);
    AddMultiple(Wrap64(x) + y, k);
    AddMultiple(-(Wrap64(x) as int), -k);
  }

  lemma AddMultiple(z: int, k: int)
    ensures Wrap64(z + 0x1_0000_0000_0000_0000 * k) == Wrap64(z)
  {
  }

  lemma SignedRoundTrip(x: SLong)
    ensures Signed(Wrap64(x)) == x
  {
  }

  // ---------------------------------------------------------------------------------------
  // Multiplying two 32-bit numbers into 64 bits.
  // ---------------------------------------------------------------------------------------

  /** Adding a half-word-shifted number to a two-word one: the carry out of the low word is
      seen by the wrapped sum being less than it was. */
  lemma AddShifted(h: Word, l: Word, x: Word, h': Word, l': Word)
    requires l' == Wrap(l + LHUp(x))
    requires h' == Wrap(h + HHalf(x) + (if l' < l then 1 else 0))
    ensures Join(h', l') == Wrap64(Join(h, l) + x * 0x1_0000)
  {
    hide Wrap, Wrap64, HHalf, LHUp;
    ShiftedParts(x);
    Carry(h, l, HHalf(x), LHUp(x));
  }

  lemma ShiftedParts(x: Word)
    ensures x * 0x1_0000 == HHalf(x) * 0x1_0000_0000 + LHUp(x)
  {
  }

  lemma Carry(h: Word, l: Word, xh: Word, xl: Word)
    ensures var l' := Wrap(l + xl);
      var h' := Wrap(h + xh + (if l' < l then 1 else 0));
      (l' < l <==> l + xl >= 0x1_0000_0000) &&
      Join(h', l') == Wrap64(Join(h, l) + (xh * 0x1_0000_0000 + xl))
  {
    hide Wrap, Wrap64;
    WrapOnce(l + xl);
    WrapJoin(h + xh + (if l + xl >= 0x1_0000_0000 then 1 else 0), Wrap(l + xl));
  }

  lemma Borrow(h: Word, l: Word, xh: Word, xl: Word)
    ensures var l' := Wrap(l - xl);
      var h' := Wrap(h - (xh + (if l' > l then 1 else 0)));
      (l' > l <==> l < xl) &&
      Join(h', l') == Wrap64(Join(h, l) - (xh * 0x1_0000_0000 + xl))
  {
    hide Wrap, Wrap64;
    WrapOnce(l - xl);
    WrapJoin(h - (xh + (if l < xl then 1 else 0)), Wrap(l - xl));
  }

  lemma WrapOnce(x: int)
    requires -0x1_0000_0000 <= x < 0x2_0000_0000
    ensures Wrap(x) == if x < 0 then x + 0x1_0000_0000 else if x >= 0x1_0000_0000 then x - 0x1_0000_0000 else x
  {
  }

  lemma WrapJoin(h: int, l: Word)
    ensures Join(Wrap(h), l) == Wrap64(h * 0x1_0000_0000 + l)
  {
    var k := h / 0x1_0000_0000;
    assert h == k * 0x1_0000_0000 + Wrap(h);
    ModOf64(h * 0x1_0000_0000 + l, k, Join(Wrap(h), l));
  }

  lemma ModOf64(z: int, k: int, r: Long)
    requires z == k * 0x1_0000_0000_0000_0000 + r
    ensures Wrap64(z) == r
  {
  }

  lemma SubtractShifted(h: Word, l: Word, x: Word, h': Word, l': Word)
    requires l' == Wrap(l - LHUp(x))
    requires h' == Wrap(h - (HHalf(x) + (if l' > l then 1 else 0)))
    ensures Join(h', l') == Wrap64(Join(h, l) - x * 0x1_0000)
  {
    hide Wrap, Wrap64, HHalf, LHUp;
    ShiftedParts(x);
    Borrow(h, l, HHalf(x), LHUp(x));
  }

  lemma AddLow(h: Word, l: Word, x: Word, h': Word, l': Word)
    requires l' == Wrap(l + x)
    requires h' == Wrap(h + (if l' < x then 1 else 0))
    ensures Join(h', l') == Wrap64(Join(h, l) + x)
  {
    hide Wrap, Wrap64;
    WrapOnce(l + x);
    WrapJoin(h + (if l + x >= 0x1_0000_0000 then 1 else 0), l');
  }

  /** Karatsuba's identity, for words made of halves in any base `w`. */
  lemma Karatsuba(w: int, u1: int, u0: int, v1: int, v0: int)
    ensures (u1 * w + u0) * (v1 * w + v0) ==
      (u1 * v1) * (w * w) + (u1 * v1 + (u1 - u0) * (v0 - v1) + u0 * v0) * w + u0 * v0
  {
    assert (u1 - u0) * (v0 - v1) == u1 * v0 - u1 * v1 - u0 * v0 + u0 * v1;
    var cross := u1 * v0 + u0 * v1;
    assert (u1 * w) * (v1 * w) == (u1 * v1) * (w * w);
    assert (u1 * w) * v0 == (u1 * v0) * w;
    assert u0 * (v1 * w) == (u0 * v1) * w;
    Foil(u1 * w, u0, v1 * w, v0);
    assert cross * w == (u1 * v0) * w + (u0 * v1) * w;
  }

  lemma Foil(a: int, b: int, c: int, d: int)
    ensures (a + b) * (c + d) == a * c + a * d + b * c + b * d
  {
  }

  /** The absolute differences and the sign flag stand for the signed middle term. */
  lemma MiddleTerm(u1: int, u0: int, v1: int, v0: int)
    ensures var udiff := if u1 >= u0 then u1 - u0 else u0 - u1;
      var vdiff := if v0 >= v1 then v0 - v1 else v1 - v0;
      var neg := (u1 < u0) != (v0 < v1);
      (u1 - u0) * (v0 - v1) == if neg then -(udiff * vdiff) else udiff * vdiff
  {
    assert (u0 - u1) * (v0 - v1) == -((u1 - u0) * (v0 - v1));
    assert (u1 - u0) * (v1 - v0) == -((u1 - u0) * (v0 - v1));
    assert (u0 - u1) * (v1 - v0) == (u1 - u0) * (v0 - v1);
  }

  lemma HalvesProduct(x: int, y: int)
    requires 0 <= x < 0x1_0000 && 0 <= y < 0x1_0000
    ensures 0 <= x * y <= 0xFFFE_0001
  {
    MulMono(x, 0xFFFF, y);
    MulNonNegative(x, y);
  }

  lemma WordsProduct(x: Word, y: Word)
    ensures 0 <= x * y < 0x1_0000_0000_0000_0000
  {
    MulMono(x, 0xFFFF_FFFF, y);
    MulNonNegative(x, y);
  }

  /** The sign flag and magnitude of the middle term, from the differences of the halves. */
  method Middle(u1: int, u0: int, v1: int, v0: int) returns (udiff: int, vdiff: int, neg: bool)
    ensures udiff == (if u1 >= u0 then u1 - u0 else u0 - u1)
    ensures vdiff == (if v0 >= v1 then v0 - v1 else v1 - v0)
    ensures (u1 - u0) * (v0 - v1) == if neg then -(udiff * vdiff) else udiff * vdiff
  {
    if u1 >= u0 {
      neg, udiff := false, u1 - u0;
    } else {
      neg, udiff := true, u0 - u1;
    }
    if v0 >= v1 {
      vdiff := v0 - v1;
    } else {
      neg, vdiff := !neg, v1 - v0;
    }
    MiddleTerm(u1, u0, v1, v0);
  }

  /** high * 2^32 + (high + mid + low) * 2^16 + low in two words, with hand-made carries. */
  method Assemble(high: Word, mid: Word, low: Word, neg: bool) returns (prod: Long)
    ensures var signed: int := if neg then 0 - mid else mid;
      prod == Wrap64(high * 0x1_0000_0000 + (high + signed + low) * 0x1_0000 + low)
  {
    hide Wrap, Wrap64, HHalf, LHUp, Join;
    var prodh: Word, prodl: Word := Wrap(high + HHalf(high)), LHUp(high);
    ghost var step0 := Join(prodh, prodl);
    FirstStep(high, prodh, prodl);
    var was := prodl;
    ghost var h0 := prodh;
    if neg {
      prodl := Wrap(prodl - LHUp(mid));
      prodh := Wrap(prodh - (HHalf(mid) + (if prodl > was then 1 else 0)));
      SubtractShifted(h0, was, mid, prodh, prodl);
    } else {
      prodl := Wrap(prodl + LHUp(mid));
      prodh := Wrap(prodh + HHalf(mid) + (if prodl < was then 1 else 0));
      AddShifted(h0, was, mid, prodh, prodl);
    }
    ghost var step1 := Join(prodh, prodl);
    was, h0 := prodl, prodh;
    prodl := Wrap(prodl + LHUp(low));
    prodh := Wrap(prodh + HHalf(low) + (if prodl < was then 1 else 0));
    AddShifted(h0, was, low, prodh, prodl);
    ghost var step2 := Join(prodh, prodl);
    was, h0 := prodl, prodh;
    prodl := Wrap(prodl + low);
    if prodl < low {
      prodh := Wrap(prodh + 1);
    } else {
      WrapWord(prodh);
    }
    AddLow(h0, was, low, prodh, prodl);
    prod := Join(prodh, prodl);
    ChainSteps(high, if neg then 0 - mid else mid, low, step0, step1, step2, prod);
  }

  /** The exact 64-bit product of two 32-bit numbers. */
  method LMulQ(u: Word, v: Word) returns (prod: Long)
    ensures prod == u * v
  {
    hide Wrap, Wrap64, HHalf, LHalf;
    var u1: int, u0: int, v1: int, v0: int := HHalf(u), LHalf(u), HHalf(v), LHalf(v);
    WordHalves(u);
    WordHalves(v);
    Karatsuba(0x1_0000, u1, u0, v1, v0);
    WordsProduct(u, v);
    HalvesProduct(u0, v0);
    HalvesProduct(u1, v1);
    var low: Word := u0 * v0;
    if u1 == 0 && v1 == 0 {
      return low;
    }
    var udiff, vdiff, neg := Middle(u1, u0, v1, v0);
    HalvesProduct(udiff, vdiff);
    var mid: Word := udiff * vdiff;
    var high: Word := u1 * v1;
    prod := Assemble(high, mid, low, neg);
    ModOf64(u * v, 0, u * v);
  }

  lemma WordHalves(u: Word)
    ensures u == HHalf(u) * 0x1_0000 + LHalf(u)
  {
  }

  lemma WrapWord(w: Word)
    ensures Wrap(w) == w
  {
  }

  lemma FirstStep(high: Word, prodh: Word, prodl: Word)
    requires prodh == Wrap(high + HHalf(high)) && prodl == LHUp(high)
    ensures Join(prodh, prodl) == Wrap64(high * 0x1_0000_0000 + high * 0x1_0000)
  {
    ShiftedParts(high);
    WrapJoin(high + HHalf(high), prodl);
  }

  lemma ChainSteps(high: int, mid: int, low: int, s0: Long, s1: Long, s2: Long, s3: Long)
    requires s0 == Wrap64(high * 0x1_0000_0000 + high * 0x1_0000)
    requires s1 == Wrap64(s0 + mid * 0x1_0000)
    requires s2 == Wrap64(s1 + low * 0x1_0000)
    requires s3 == Wrap64(s2 + low)
    ensures s3 == Wrap64(high * 0x1_0000_0000 + (high + mid + low) * 0x1_0000 + low)
  {
    hide Wrap64;
    WrapSum(high * 0x1_0000_0000 + high * 0x1_0000, mid * 0x1_0000);
    WrapSum(high * 0x1_0000_0000 + high * 0x1_0000 + mid * 0x1_0000, low * 0x1_0000);
    WrapSum(high * 0x1_0000_0000 + high * 0x1_0000 + mid * 0x1_0000 + low * 0x1_0000, low);
  }

  // ---------------------------------------------------------------------------------------
  // Multiplying two long longs.
  // ---------------------------------------------------------------------------------------

  function Abs(x: int): nat { if x < 0 then -x else x }

  lemma JoinHalves(u: Long)
    ensures var h: int, l: int := u / 0x1_0000_0000, u % 0x1_0000_0000; u == h * 0x1_0000_0000 + l
  {
  }

  /** Terms of weight 2^64 vanish, and the middle factor only matters modulo 2^32. */
  lemma DropHigh(top: int, cross: int, low: Long, m: Word)
    requires m == Wrap(cross + low / 0x1_0000_0000)
    ensures Join(m, low % 0x1_0000_0000) ==
      Wrap64(top * 0x1_0000_0000_0000_0000 + cross * 0x1_0000_0000 + low)
  {
    JoinHalves(low);
    WrapJoin(cross + low / 0x1_0000_0000, low % 0x1_0000_0000);
    var z := cross * 0x1_0000_0000 + low;
    ModOf64(top * 0x1_0000_0000_0000_0000 + z, top + z / 0x1_0000_0000_0000_0000, Wrap64(z));
  }

  lemma WrapMiddle(high: int, mid: int, neg: bool, a: int)
    ensures var signed := if neg then -mid else mid;
      Wrap(Wrap(high) + (if neg then Wrap(-(Wrap(mid) as int)) else Wrap(mid)) + a) == Wrap(high + signed + a)
  {
  }

  lemma SignOfProduct(a: int, b: int)
    ensures a * b == if (a < 0) != (b < 0) then -(Abs(a) * Abs(b)) else Abs(a) * Abs(b)
  {
    assert (-a) * b == -(a * b);
    assert (-a) * (-b) == a * b;
  }

  /** The magnitudes' product modulo 2^64. */
  method MulMagnitudes(u: Long, v: Long) returns (prod: Long)
    ensures prod == Wrap64(u * v)
  {
    hide Wrap, Wrap64;
    var u1: int, u0: int, v1: int, v0: int :=
      u / 0x1_0000_0000, u % 0x1_0000_0000, v / 0x1_0000_0000, v % 0x1_0000_0000;
    JoinHalves(u);
    JoinHalves(v);
    Karatsuba(0x1_0000_0000, u1, u0, v1, v0);
    var low := LMulQ(u0, v0);
    if u1 == 0 && v1 == 0 {
      ModOf64(low, 0, low);
      return low;
    }
    var udiff, vdiff, negmid := Middle(u1, u0, v1, v0);
    var mid := Wrap(udiff * vdiff);
    var high := Wrap(u1 * v1);
    var h := Wrap(high + (if negmid then Wrap(-(mid as int)) else mid) + (low % 0x1_0000_0000 + low / 0x1_0000_0000));
    WrapMiddle(u1 * v1, udiff * vdiff, negmid, low % 0x1_0000_0000 + low / 0x1_0000_0000);
    prod := Join(h, low % 0x1_0000_0000);
    ghost var inner := u1 * v1 + (u1 - u0) * (v0 - v1);
    DropLow(u1 * v1, inner, low, h, u * v);
  }

  /** high * 2^64 + (inner + low) * 2^32 + low, modulo 2^64, from a high word computed modulo 2^32. */
  lemma DropLow(top: int, inner: int, low: Long, h: Word, exact: int)
    requires h == Wrap(inner + (low % 0x1_0000_0000 + low / 0x1_0000_0000))
    requires exact == top * 0x1_0000_0000_0000_0000 + (inner + low) * 0x1_0000_0000 + low
    ensures Join(h, low % 0x1_0000_0000) == Wrap64(exact)
  {
    hide Wrap64;
    var lh: int, ll: int := low / 0x1_0000_0000, low % 0x1_0000_0000;
    JoinHalves(low);
    DropHigh(top + lh, inner + ll, low, h);
  }

  /** The product of two signed 64-bit numbers, modulo 2^64. */
  method MulDi3(a: SLong, b: SLong) returns (r: SLong)
    ensures r == Signed(Wrap64(a * b))
  {
    hide Wrap64;
    var negall;
    var u: Long, v: Long;
    if a >= 0 {
      u, negall := a, false;
    } else {
      u, negall := 0 - a, true;
    }
    if b >= 0 {
      v := b;
    } else {
      v, negall := 0 - b, !negall;
    }
    var prod := MulMagnitudes(u, v);
    SignOfProduct(a, b);
    WrapSum(u * v, 0);
    if negall {
      prod := Wrap64(-(prod as int));
    }
    r := Signed(prod);
  }

  // ---------------------------------------------------------------------------------------
  // Signed division and remainder.
  // ---------------------------------------------------------------------------------------

  /** The quotient rounded toward zero. */
  function Quotient(a: int, b: int): int
    requires b != 0
  {
    var q := Abs(a) / Abs(b);
    if (a < 0) != (b < 0) then -q else q
  }

  /** What is left of the dividend, with the dividend's sign. */
  function Remainder(a: int, b: int): int
    requires b != 0
  {
    var r := Abs(a) % Abs(b);
    if a < 0 then -r else r
  }

  /** Quotient and Remainder are truncating division, and nothing else is. */
  lemma TruncatingDivision(a: int, b: int, q: int, r: int)
    requires b != 0
    ensures q == Quotient(a, b) && r == Remainder(a, b) <==>
      a == q * b + r && Abs(r) < Abs(b) && (r > 0 ==> a > 0) && (r < 0 ==> a < 0)
  {
    hide Quotient, Remainder;
    TruncationHolds(a, b);
    if a == q * b + r && Abs(r) < Abs(b) && (r > 0 ==> a > 0) && (r < 0 ==> a < 0) {
      TruncationIsUnique(a, b, q, r);
    }
  }

  lemma DivModParts(x: int, y: int)
    requires y > 0
    ensures x == (x / y) * y + x % y && 0 <= x % y < y
  {
  }

  lemma TruncationHolds(a: int, b: int)
    requires b != 0
    ensures var q, r := Quotient(a, b), Remainder(a, b);
      a == q * b + r && Abs(r) < Abs(b) && (r > 0 ==> a > 0) && (r < 0 ==> a < 0)
  {
    DivModParts(Abs(a), Abs(b));
    SignedParts(a, b, Abs(a) / Abs(b), Abs(a) % Abs(b), Quotient(a, b), Remainder(a, b));
  }

  lemma TruncationIsUnique(a: int, b: int, q: int, r: int)
    requires b != 0 && a == q * b + r && Abs(r) < Abs(b) && (r > 0 ==> a > 0) && (r < 0 ==> a < 0)
    ensures q == Quotient(a, b) && r == Remainder(a, b)
  {
    var s := if (a < 0) != (b < 0) then -q else q;
    UnsignedParts(a, b, q, r, s);
    DivModUnique(Abs(a), Abs(b), s, Abs(r));
  }

  lemma SignedParts(a: int, b: int, uq: int, ur: int, q: int, r: int)
    requires b != 0 && Abs(a) == uq * Abs(b) + ur && 0 <= ur < Abs(b)
    requires q == if (a < 0) != (b < 0) then -uq else uq
    requires r == if a < 0 then -ur else ur
    ensures a == q * b + r && Abs(r) < Abs(b) && (r > 0 ==> a > 0) && (r < 0 ==> a < 0)
  {
    assert (-uq) * b == uq * (-b) == -(uq * b);
    if uq < 0 {
      MulGap(uq, 0, Abs(b));
    } else {
      MulNonNegative(uq, Abs(b));
    }
  }

  lemma UnsignedParts(a: int, b: int, q: int, r: int, s: int)
    requires b != 0 && a == q * b + r && (r > 0 ==> a > 0) && (r < 0 ==> a < 0)
    requires s == if (a < 0) != (b < 0) then -q else q
    ensures Abs(a) == s * Abs(b) + Abs(r)
  {
    assert (-q) * b == q * (-b) == -(q * b);
    assert (-q) * (-b) == q * b;
  }

  lemma MagnitudeOf(a: SLong)
    ensures (if a < 0 then Wrap64(-(Wrap64(a) as int)) else Wrap64(a)) == Abs(a)
  {
  }

  lemma SmallQuotientBound(x: int, v: int)
    requires x >= 0 && v >= 1
    ensures 0 <= x / v <= x
  {
    var k := x / v;
    assert x == k * v + x % v;
    if k >= 0 {
      MulMono(1, v, k);
    }
  }

  method DivDi3(a: SLong, b: SLong) returns (r: SLong)
    requires b != 0
    ensures r == Signed(Wrap64(Quotient(a, b)))
  {
    hide Wrap64;
    var neg := false;
    var ua, ub := Wrap64(a), Wrap64(b);
    MagnitudeOf(a);
    MagnitudeOf(b);
    if a < 0 {
      ua, neg := Wrap64(-(ua as int)), !neg;
    }
    if b < 0 {
      ub, neg := Wrap64(-(ub as int)), !neg;
    }
    var uq, _ := QDivRem.QDivRem(ua, ub, false);
    ModOf64(uq, 0, uq);
    if neg {
      uq := Wrap64(-(uq as int));
    }
    r := Signed(uq);
  }

  method ModDi3(a: SLong, b: SLong) returns (r: SLong)
    requires b != 0
    ensures r == Remainder(a, b)
  {
    hide Wrap64;
    var neg := false;
    var ua, ub := Wrap64(a), Wrap64(b);
    MagnitudeOf(a);
    MagnitudeOf(b);
    if a < 0 {
      ua, neg := Wrap64(-(ua as int)), !neg;
    }
    if b < 0 {
      ub := Wrap64(-(ub as int));
    }
    var _, ur := QDivRem.QDivRem(ua, ub, true);
    RemainderFits(ur, ub, b);
    if neg {
      ur := Wrap64(-(ur as int));
    }
    r := Signed(ur);
  }

  lemma RemainderFits(ur: int, ub: int, b: SLong)
    requires ub == Abs(b) && 0 <= ur < ub
    ensures Wrap64(ur) == ur && Signed(ur) == ur && Signed(Wrap64(-ur)) == -ur
  {
  }

  /** The quotient returned is exact but for the one that does not fit. */
  lemma QuotientIsExact(a: SLong, b: SLong)
    requires b != 0
    ensures Signed(Wrap64(Quotient(a, b))) == Quotient(a, b)
      <==> !(a == -0x8000_0000_0000_0000 && b == -1)
  {
    var q := Abs(a) / Abs(b);
    SmallQuotientBound(Abs(a), Abs(b));
    if a == -0x8000_0000_0000_0000 && b < -1 {
      QDivRem.SmallQuotient(Abs(a), Abs(b), 0x8000_0000_0000_0000);
    }
  }

  /** For every dividend and nonzero divisor the two results fit together, modulo 2^64. */
  lemma QuotientAndRemainderAgree(a: SLong, b: SLong, q: SLong, r: SLong)
    requires b != 0 && q == Signed(Wrap64(Quotient(a, b))) && r == Remainder(a, b)
    ensures Signed(Wrap64(q * b + r)) == a
  {
    TruncatingDivision(a, b, Quotient(a, b), r);
    QuotientIsExact(a, b);
    SignedRoundTrip(a);
  }
}
