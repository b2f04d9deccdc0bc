/**
 Words, half words and multi-digit numbers in base 2^16, as the 64-bit arithmetic
 routines of a 32-bit machine use them. C's unsigned arithmetic is integer arithmetic
 followed by `Wrap`.
 */
module Digits {
  import opened Multiplication

  type Digit = d: int | 0 <= d < 0x1_0000
  type Word = w: int | 0 <= w < 0x1_0000_0000
  type Long = x: int | 0 <= x < 0x1_0000_0000_0000_0000
  type SLong = x: int | -0x8000_0000_0000_0000 <= x < 0x8000_0000_0000_0000

  /** The value an `unsigned int` expression takes when its exact value is `x`. */
  function Wrap(x: int): Word { x % 0x1_0000_0000 }

  function HHalf(w: Word): Digit { w / 0x1_0000 }

  function LHalf(w: Word): Digit { w % 0x1_0000 }

  function LHUp(w: Word): Word { (w * 0x1_0000) % 0x1_0000_0000 }

  function Combine(a: Digit, b: Digit): Word { a * 0x1_0000 + b }

  /** A long long put together from its two ints. */
  function Join(h: Word, l: Word): Long { h * 0x1_0000_0000 + l }

  function Pow(k: nat): (p: int)
    ensures p >= 1
  {
    if k == 0 then 1 else Pow(k - 1) * 0x1_0000
  }

  /** The number written by the digits `s`, most significant first. */
  function Val(s: seq<Digit>): (x: int)
    ensures x >= 0
  {
    if s == [] then 0 else Val(s[..|s| - 1]) * 0x1_0000 + s[|s| - 1]
  }

  lemma ValSnoc(s: seq<Digit>, d: Digit)
    ensures Val(s + [d]) == Val(s) * 0x1_0000 + d
  {
    assert (s + [d])[..|s|] == s;
  }

  lemma {:induction false} ValBound(s: seq<Digit>)
    ensures 0 <= Val(s) < Pow(|s|)
  {
    if s != [] {
      ValBound(s[..|s| - 1]);
    }
  }

  lemma ShiftIn(x: int, p: int, y: int)
    ensures (x * p + y) * 0x1_0000 == x * (p * 0x1_0000) + y * 0x1_0000
  {
  }

  lemma {:induction false} ValConcat(s: seq<Digit>, t: seq<Digit>)
    ensures Val(s + t) == Val(s) * Pow(|t|) + Val(t)
  {
    if t == [] {
      assert s + t == s;
    } else {
      var n := |t| - 1;
      ValConcat(s, t[..n]);
      assert s + t == (s + t[..n]) + [t[n]];
      ValSnoc(s + t[..n], t[n]);
      ShiftIn(Val(s), Pow(n), Val(t[..n]));
    }
  }

  lemma ValCons(d: Digit, s: seq<Digit>)
    ensures Val([d] + s) == d * Pow(|s|) + Val(s)
  {
    ValConcat([d], s);
    assert [d][..0] == [];
    assert Val([d]) == d;
  }

  lemma {:induction false} PowAdd(j: nat, k: nat)
    ensures Pow(j + k) == Pow(j) * Pow(k)
  {
    if k > 0 {
      PowAdd(j, k - 1);
      assert Pow(j) * (Pow(k - 1) * 0x1_0000) == Pow(j) * Pow(k - 1) * 0x1_0000;
    }
  }

  /** A leading zero does not matter, and a small value has one. */
  lemma LeadingZero(d: Digit, s: seq<Digit>)
    ensures d == 0 ==> Val([d] + s) == Val(s)
    ensures Val([d] + s) < Pow(|s|) ==> d == 0
  {
    hide Val, Pow;
    ValCons(d, s);
    ValBound(s);
    if d >= 1 {
      MulLower(d, Pow(|s|));
    }
  }

  function Pow2(k: nat): (p: int)
    ensures p >= 1
  {
    if k == 0 then 1 else 2 * Pow2(k - 1)
  }

  lemma {:induction false} Pow2Add(j: nat, k: nat)
    ensures Pow2(j + k) == Pow2(j) * Pow2(k)
  {
    if j > 0 {
      Pow2Add(j - 1, k);
      assert 2 * Pow2(j - 1) * Pow2(k) == 2 * (Pow2(j - 1) * Pow2(k));
    }
  }

  lemma Pow2Splits(d: nat)
    requires d <= 16
    ensures Pow2(d) * Pow2(16 - d) == 0x1_0000
  {
    Pow2Add(d, 16 - d);
    assert Pow2(4) == 16;
    Pow2Add(4, 4);
    Pow2Add(8, 8);
  }

  /** The four digits of a long long, as the division routine lays them out. */
  function Split(x: Long): (s: seq<Digit>)
    ensures |s| == 4
  {
    var h: Word, l: Word := x / 0x1_0000_0000, x % 0x1_0000_0000;
    [HHalf(h), LHalf(h), HHalf(l), LHalf(l)]
  }

  lemma ValFour(a: Digit, b: Digit, c: Digit, d: Digit)
    ensures Val([a, b, c, d]) == a * 0x1_0000_0000_0000 + b * 0x1_0000_0000 + c * 0x1_0000 + d
    ensures Val([a, b, c, d]) == Join(Combine(a, b), Combine(c, d))
  {
    assert [a, b, c, d] == [a, b, c] + [d];
    ValSnoc([a, b, c], d);
    assert [a, b, c] == [a, b] + [c];
    ValSnoc([a, b], c);
    assert [a, b] == [a] + [b];
    ValSnoc([a], b);
    assert [a][..0] == [];
    assert Val([a]) == a;
  }

  lemma ValSplit(x: Long)
    ensures Val(Split(x)) == x
  {
    var h: Word, l: Word := x / 0x1_0000_0000, x % 0x1_0000_0000;
    ValFour(HHalf(h), LHalf(h), HHalf(l), LHalf(l));
  }
}
