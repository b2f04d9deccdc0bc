/**
 Where the constants of SHA-256 come from (FIPS 180-4, sections 4.2.2 and 5.3): the first 32 bits of
 the fractional parts of the cube roots of the first 64 primes, and of the square roots of the first
 eight; for SHA-224 the second 32 bits of those of the ninth to the sixteenth.
 */
module Sha256Constants {
  import opened Multiplication
  import opened Sha256Standard
  import opened Sha256Words

  const P0: seq<nat> := [2, 3, 5, 7, 11, 13, 17, 19]
  const P1: seq<nat> := [23, 29, 31, 37, 41, 43, 47, 53]
  const P2: seq<nat> := [59, 61, 67, 71, 73, 79, 83, 89]
  const P3: seq<nat> := [97, 101, 103, 107, 109, 113, 127, 131]
  const P4: seq<nat> := [137, 139, 149, 151, 157, 163, 167, 173]
  const P5: seq<nat> := [179, 181, 191, 193, 197, 199, 211, 223]
  const P6: seq<nat> := [227, 229, 233, 239, 241, 251, 257, 263]
  const P7: seq<nat> := [269, 271, 277, 281, 283, 293, 307, 311]

  // What is left of the list from each row on.
  const Q7 := P7
  const Q6 := P6 + Q7
  const Q5 := P5 + Q6
  const Q4 := P4 + Q5
  const Q3 := P3 + Q4
  const Q2 := P2 + Q3
  const Q1 := P1 + Q2

  /** The first 64 primes. */
  const Primes: seq<nat> := P0 + Q1

  // ---------------------------------------------------------------------------------------
  // The first 64 primes.
  // ---------------------------------------------------------------------------------------

  ghost predicate IsPrime(n: nat) { n >= 2 && forall d :: 2 <= d < n ==> n % d != 0 }

  predicate HasSmallDivisor(n: nat) {
    (n > 2 && n % 2 == 0) || (n > 3 && n % 3 == 0) || (n > 5 && n % 5 == 0) || (n > 7 && n % 7 == 0) ||
    (n > 11 && n % 11 == 0) || (n > 13 && n % 13 == 0) || (n > 17 && n % 17 == 0)
  }

  lemma NotPrime(n: nat)
    requires HasSmallDivisor(n)
    ensures !IsPrime(n)
  {
    var d := if n > 2 && n % 2 == 0 then 2 else if n > 3 && n % 3 == 0 then 3 else if n > 5 && n % 5 == 0 then 5
      else if n > 7 && n % 7 == 0 then 7 else if n > 11 && n % 11 == 0 then 11
      else if n > 13 && n % 13 == 0 then 13 else 17;
    assert 2 <= d < n && n % d == 0;
  }

  /** Below 18 * 18, a number with a divisor has one of the primes below 18. */
  lemma PrimeIs(n: nat)
    requires 2 <= n < 324
    ensures IsPrime(n) <==> !HasSmallDivisor(n)
  {
    if HasSmallDivisor(n) { NotPrime(n); }
    hide HasSmallDivisor;
    forall d | 2 <= d < n && n % d == 0 ensures HasSmallDivisor(n) {
      var e := n / d;
      assert n == d * e;
      if d < 18 { DivisorCounts(n, d); } else { Smaller(d, e, n); DivisorCounts(n, e); }
    }
  }

  lemma Smaller(d: nat, e: nat, n: nat)
    requires d >= 18 && n == d * e && d < n < 324
    ensures 2 <= e < 18 && e < n && n % e == 0
  {
    MulMono(18, d, e);
    assert e != 0 && e != 1;
    Divides(d, e);
  }

  lemma Divides(d: nat, e: nat)
    requires e > 0
    ensures (d * e) % e == 0
  {
    DivModUnique(d * e, e, d, 0);
  }

  lemma Factor(n: nat, a: nat, b: nat, q: nat)
    requires a > 0 && n == (a * b) * q
    ensures n % a == 0
  {
    assert n == (b * q) * a;
    Divides(b * q, a);
  }

  /** A divisor below 18 is a multiple of a prime below 18. */
  lemma DivisorCounts(n: nat, d: nat)
    requires 2 <= d < 18 && d < n && n % d == 0
    ensures HasSmallDivisor(n)
  {
    var q := n / d;
    assert n == d * q;
    if d % 2 == 0 {
      Factor(n, 2, d / 2, q);
    } else if d % 3 == 0 {
      Factor(n, 3, d / 3, q);
    }
  }

  /** Whether the `n` numbers from `lo` on all have a small divisor. */
  /** Whether the `n` numbers from `lo` on all have a small divisor. */
  function AllComposite(lo: nat, n: nat): bool {
    n == 0 || (AllComposite(lo, n - 1) && HasSmallDivisor(lo + n - 1))
  }

  lemma {:induction false} Gap(lo: nat, n: nat)
    requires AllComposite(lo, n)
    ensures forall x :: lo <= x < lo + n ==> HasSmallDivisor(x)
  {
    if n > 0 { Gap(lo, n - 1); }
  }

  lemma Row0(n: nat)
    requires 1 < n <= 19
    ensures n in P0 <==> !HasSmallDivisor(n)
  {
    Gap(4, 1); Gap(6, 1); Gap(8, 3); Gap(12, 1);
    Gap(14, 3); Gap(18, 1);
  }

  lemma Row1(n: nat)
    requires 19 < n <= 53
    ensures n in P1 <==> !HasSmallDivisor(n)
  {
    Gap(20, 3); Gap(24, 5); Gap(30, 1); Gap(32, 5);
    Gap(38, 3); Gap(42, 1); Gap(44, 3); Gap(48, 5);
  }

  lemma Row2(n: nat)
    requires 53 < n <= 89
    ensures n in P2 <==> !HasSmallDivisor(n)
  {
    Gap(54, 5); Gap(60, 1); Gap(62, 5); Gap(68, 3);
    Gap(72, 1); Gap(74, 5); Gap(80, 3); Gap(84, 5);
  }

  lemma Row3(n: nat)
    requires 89 < n <= 131
    ensures n in P3 <==> !HasSmallDivisor(n)
  {
    Gap(90, 7); Gap(98, 3); Gap(102, 1); Gap(104, 3);
    Gap(108, 1); Gap(110, 3); Gap(114, 6); Gap(120, 7); Gap(128, 3);
  }

  lemma Row4(n: nat)
    requires 131 < n <= 173
    ensures n in P4 <==> !HasSmallDivisor(n)
  {
    Gap(132, 5); Gap(138, 1); Gap(140, 9); Gap(150, 1);
    Gap(152, 5); Gap(158, 5); Gap(164, 3); Gap(168, 5);
  }

  lemma Row5(n: nat)
    requires 173 < n <= 223
    ensures n in P5 <==> !HasSmallDivisor(n)
  {
    Gap(174, 5); Gap(180, 1); Gap(182, 9); Gap(192, 1);
    Gap(194, 3); Gap(198, 1); Gap(200, 11); Gap(212, 11);
  }

  lemma Row6(n: nat)
    requires 223 < n <= 263
    ensures n in P6 <==> !HasSmallDivisor(n)
  {
    Gap(224, 3); Gap(228, 1); Gap(230, 3); Gap(234, 5);
    Gap(240, 1); Gap(242, 9); Gap(252, 5); Gap(258, 5);
  }

  lemma Row7(n: nat)
    requires 263 < n <= 311
    ensures n in P7 <==> !HasSmallDivisor(n)
  {
    Gap(264, 5); Gap(270, 1); Gap(272, 5); Gap(278, 3);
    Gap(282, 1); Gap(284, 9); Gap(294, 6); Gap(300, 7); Gap(308, 3);
  }

  predicate Increasing(s: seq<nat>) { forall i, j :: 0 <= i < j < |s| ==> s[i] < s[j] }

  lemma Joined(s: seq<nat>, t: seq<nat>, m: nat)
    requires Increasing(s) && Increasing(t)
    requires (forall x :: x in s ==> x <= m) && forall x :: x in t ==> m < x
    ensures Increasing(s + t) && forall x :: x in s + t <==> x in s || x in t
  {
    forall i, j | 0 <= i < j < |s + t| ensures (s + t)[i] < (s + t)[j] {
      assert (s + t)[i] == if i < |s| then s[i] else t[i - |s|];
      assert (s + t)[j] == if j < |s| then s[j] else t[j - |s|];
      if i < |s| && |s| <= j { assert s[i] in s && t[j - |s|] in t; }
    }
  }

  /** Numbers above `m` and up to 311 are on the list if and only if they are primes, and it is in order. */
  ghost predicate Lists(q: seq<nat>, m: nat) {
    && Increasing(q)
    && (forall x :: x in q ==> m < x <= 311)
    && forall x: nat :: m < x <= 311 ==> (x in q <==> IsPrime(x))
  }

  lemma Extended(p: seq<nat>, q: seq<nat>, l: nat, m: nat)
    requires 1 <= l <= m <= 311 && Lists(q, m) && Increasing(p) && forall x :: x in p ==> l < x <= m
    requires forall x: nat :: l < x <= m ==> (x in p <==> IsPrime(x))
    ensures Lists(p + q, l)
  {
    hide IsPrime;
    Joined(p, q, m);
  }

  lemma Primes0()
    ensures Increasing(P0) && forall x :: x in P0 ==> 1 < x <= 19
    ensures forall x: nat :: 1 < x <= 19 ==> (x in P0 <==> IsPrime(x))
  {
    forall x: nat | 1 < x <= 19 ensures x in P0 <==> IsPrime(x) {
      hide IsPrime, HasSmallDivisor;
      PrimeIs(x);
      Row0(x);
    }
  }

  lemma Primes1()
    ensures Increasing(P1) && forall x :: x in P1 ==> 19 < x <= 53
    ensures forall x: nat :: 19 < x <= 53 ==> (x in P1 <==> IsPrime(x))
  {
    forall x: nat | 19 < x <= 53 ensures x in P1 <==> IsPrime(x) {
      hide IsPrime, HasSmallDivisor;
      PrimeIs(x);
      Row1(x);
    }
  }

  lemma Primes2()
    ensures Increasing(P2) && forall x :: x in P2 ==> 53 < x <= 89
    ensures forall x: nat :: 53 < x <= 89 ==> (x in P2 <==> IsPrime(x))
  {
    forall x: nat | 53 < x <= 89 ensures x in P2 <==> IsPrime(x) {
      hide IsPrime, HasSmallDivisor;
      PrimeIs(x);
      Row2(x);
    }
  }

  lemma Primes3()
    ensures Increasing(P3) && forall x :: x in P3 ==> 89 < x <= 131
    ensures forall x: nat :: 89 < x <= 131 ==> (x in P3 <==> IsPrime(x))
  {
    forall x: nat | 89 < x <= 131 ensures x in P3 <==> IsPrime(x) {
      hide IsPrime, HasSmallDivisor;
      PrimeIs(x);
      Row3(x);
    }
  }

  lemma Primes4()
    ensures Increasing(P4) && forall x :: x in P4 ==> 131 < x <= 173
    ensures forall x: nat :: 131 < x <= 173 ==> (x in P4 <==> IsPrime(x))
  {
    forall x: nat | 131 < x <= 173 ensures x in P4 <==> IsPrime(x) {
      hide IsPrime, HasSmallDivisor;
      PrimeIs(x);
      Row4(x);
    }
  }

  lemma Primes5()
    ensures Increasing(P5) && forall x :: x in P5 ==> 173 < x <= 223
    ensures forall x: nat :: 173 < x <= 223 ==> (x in P5 <==> IsPrime(x))
  {
    forall x: nat | 173 < x <= 223 ensures x in P5 <==> IsPrime(x) {
      hide IsPrime, HasSmallDivisor;
      PrimeIs(x);
      Row5(x);
    }
  }

  lemma Primes6()
    ensures Increasing(P6) && forall x :: x in P6 ==> 223 < x <= 263
    ensures forall x: nat :: 223 < x <= 263 ==> (x in P6 <==> IsPrime(x))
  {
    forall x: nat | 223 < x <= 263 ensures x in P6 <==> IsPrime(x) {
      hide IsPrime, HasSmallDivisor;
      PrimeIs(x);
      Row6(x);
    }
  }

  lemma Primes7()
    ensures Increasing(P7) && forall x :: x in P7 ==> 263 < x <= 311
    ensures forall x: nat :: 263 < x <= 311 ==> (x in P7 <==> IsPrime(x))
  {
    forall x: nat | 263 < x <= 311 ensures x in P7 <==> IsPrime(x) {
      hide IsPrime, HasSmallDivisor;
      PrimeIs(x);
      Row7(x);
    }
  }

  /** The list holds the primes up to 311 and nothing else, in order: so it is that of the first 64. */
  lemma PrimesAre()
    ensures Lists(Primes, 1) && |Primes| == 64
  {
    hide IsPrime, Lists, Increasing;
    Primes7();
    Alone(Q7, 263);
    Primes6();
    Extended(P6, Q7, 223, 263);
    Primes5();
    Extended(P5, Q6, 173, 223);
    Primes4();
    Extended(P4, Q5, 131, 173);
    Primes3();
    Extended(P3, Q4, 89, 131);
    Primes2();
    Extended(P2, Q3, 53, 89);
    Primes1();
    Extended(P1, Q2, 19, 53);
    Primes0();
    Extended(P0, Q1, 1, 19);
  }

  lemma Alone(p: seq<nat>, m: nat)
    requires Increasing(p) && (forall x :: x in p ==> m < x <= 311)
    requires forall x: nat :: m < x <= 311 ==> (x in p <==> IsPrime(x))
    ensures Lists(p, m)
  {
  }

  // ---------------------------------------------------------------------------------------
  // Roots.
  // ---------------------------------------------------------------------------------------

  function Square(x: nat): nat { x * x }

  function Cube(x: nat): nat { x * x * x }

  /** The first 32 bits of the fractional part of the cube root of `p`. */
  ghost predicate CubeRootBits(p: nat, k: Word32) {
    exists x: nat ::
      Cube(x) <= p * 0x1_0000_0000_0000_0000_0000_0000 < Cube(x + 1) && x % 0x1_0000_0000 == k as nat
  }

  /** Those of the square root. */
  ghost predicate SquareRootBits(p: nat, k: Word32) {
    exists x: nat :: Square(x) <= p * 0x1_0000_0000_0000_0000 < Square(x + 1) && x % 0x1_0000_0000 == k as nat
  }

  /** The second 32 bits of the fractional part of the square root. */
  ghost predicate LaterRootBits(p: nat, k: Word32) {
    exists x: nat ::
      Square(x) <= p * 0x1_0000_0000_0000_0000_0000_0000_0000_0000 < Square(x + 1) && x % 0x1_0000_0000 == k as nat
  }

  lemma CubeRoots0()
    ensures AllCubeRoots(P0, K0)
  {
    hide CubeRootBits;
    CubeRootIs(2, 0x428A2F98, 0x1428A2F98);
    CubeRootIs(3, 0x71374491, 0x171374491);
    CubeRootIs(5, 0xB5C0FBCF, 0x1B5C0FBCF);
    CubeRootIs(7, 0xE9B5DBA5, 0x1E9B5DBA5);
    CubeRootIs(11, 0x3956C25B, 0x23956C25B);
    CubeRootIs(13, 0x59F111F1, 0x259F111F1);
    CubeRootIs(17, 0x923F82A4, 0x2923F82A4);
    CubeRootIs(19, 0xAB1C5ED5, 0x2AB1C5ED5);
  }

  lemma CubeRoots1()
    ensures AllCubeRoots(P1, K1)
  {
    hide CubeRootBits;
    CubeRootIs(23, 0xD807AA98, 0x2D807AA98);
    CubeRootIs(29, 0x12835B01, 0x312835B01);
    CubeRootIs(31, 0x243185BE, 0x3243185BE);
    CubeRootIs(37, 0x550C7DC3, 0x3550C7DC3);
    CubeRootIs(41, 0x72BE5D74, 0x372BE5D74);
    CubeRootIs(43, 0x80DEB1FE, 0x380DEB1FE);
    CubeRootIs(47, 0x9BDC06A7, 0x39BDC06A7);
    CubeRootIs(53, 0xC19BF174, 0x3C19BF174);
  }

  lemma CubeRoots2()
    ensures AllCubeRoots(P2, K2)
  {
    hide CubeRootBits;
    CubeRootIs(59, 0xE49B69C1, 0x3E49B69C1);
    CubeRootIs(61, 0xEFBE4786, 0x3EFBE4786);
    CubeRootIs(67, 0x0FC19DC6, 0x40FC19DC6);
    CubeRootIs(71, 0x240CA1CC, 0x4240CA1CC);
    CubeRootIs(73, 0x2DE92C6F, 0x42DE92C6F);
    CubeRootIs(79, 0x4A7484AA, 0x44A7484AA);
    CubeRootIs(83, 0x5CB0A9DC, 0x45CB0A9DC);
    CubeRootIs(89, 0x76F988DA, 0x476F988DA);
  }

  lemma CubeRoots3()
    ensures AllCubeRoots(P3, K3)
  {
    hide CubeRootBits;
    CubeRootIs(97, 0x983E5152, 0x4983E5152);
    CubeRootIs(101, 0xA831C66D, 0x4A831C66D);
    CubeRootIs(103, 0xB00327C8, 0x4B00327C8);
    CubeRootIs(107, 0xBF597FC7, 0x4BF597FC7);
    CubeRootIs(109, 0xC6E00BF3, 0x4C6E00BF3);
    CubeRootIs(113, 0xD5A79147, 0x4D5A79147);
    CubeRootIs(127, 0x06CA6351, 0x506CA6351);
    CubeRootIs(131, 0x14292967, 0x514292967);
  }

  lemma CubeRoots4()
    ensures AllCubeRoots(P4, K4)
  {
    hide CubeRootBits;
    CubeRootIs(137, 0x27B70A85, 0x527B70A85);
    CubeRootIs(139, 0x2E1B2138, 0x52E1B2138);
    CubeRootIs(149, 0x4D2C6DFC, 0x54D2C6DFC);
    CubeRootIs(151, 0x53380D13, 0x553380D13);
    CubeRootIs(157, 0x650A7354, 0x5650A7354);
    CubeRootIs(163, 0x766A0ABB, 0x5766A0ABB);
    CubeRootIs(167, 0x81C2C92E, 0x581C2C92E);
    CubeRootIs(173, 0x92722C85, 0x592722C85);
  }

  lemma CubeRoots5()
    ensures AllCubeRoots(P5, K5)
  {
    hide CubeRootBits;
    CubeRootIs(179, 0xA2BFE8A1, 0x5A2BFE8A1);
    CubeRootIs(181, 0xA81A664B, 0x5A81A664B);
    CubeRootIs(191, 0xC24B8B70, 0x5C24B8B70);
    CubeRootIs(193, 0xC76C51A3, 0x5C76C51A3);
    CubeRootIs(197, 0xD192E819, 0x5D192E819);
    CubeRootIs(199, 0xD6990624, 0x5D6990624);
    CubeRootIs(211, 0xF40E3585, 0x5F40E3585);
    CubeRootIs(223, 0x106AA070, 0x6106AA070);
  }

  lemma CubeRoots6()
    ensures AllCubeRoots(P6, K6)
  {
    hide CubeRootBits;
    CubeRootIs(227, 0x19A4C116, 0x619A4C116);
    CubeRootIs(229, 0x1E376C08, 0x61E376C08);
    CubeRootIs(233, 0x2748774C, 0x62748774C);
    CubeRootIs(239, 0x34B0BCB5, 0x634B0BCB5);
    CubeRootIs(241, 0x391C0CB3, 0x6391C0CB3);
    CubeRootIs(251, 0x4ED8AA4A, 0x64ED8AA4A);
    CubeRootIs(257, 0x5B9CCA4F, 0x65B9CCA4F);
    CubeRootIs(263, 0x682E6FF3, 0x6682E6FF3);
  }

  lemma CubeRoots7()
    ensures AllCubeRoots(P7, K7)
  {
    hide CubeRootBits;
    CubeRootIs(269, 0x748F82EE, 0x6748F82EE);
    CubeRootIs(271, 0x78A5636F, 0x678A5636F);
    CubeRootIs(277, 0x84C87814, 0x684C87814);
    CubeRootIs(281, 0x8CC70208, 0x68CC70208);
    CubeRootIs(283, 0x90BEFFFA, 0x690BEFFFA);
    CubeRootIs(293, 0xA4506CEB, 0x6A4506CEB);
    CubeRootIs(307, 0xBEF9A3F7, 0x6BEF9A3F7);
    CubeRootIs(311, 0xC67178F2, 0x6C67178F2);
  }

  lemma CubeRootIs(p: nat, k: Word32, x: nat)
    requires Cube(x) <= p * 0x1_0000_0000_0000_0000_0000_0000 < Cube(x + 1) && x % 0x1_0000_0000 == k as nat
    ensures CubeRootBits(p, k)
  {
    hide Cube;
  }

  ghost predicate AllCubeRoots(p: seq<nat>, k: seq<Word32>) {
    |p| == |k| && forall t :: 0 <= t < |p| ==> CubeRootBits(p[t], k[t])
  }

  lemma Both(p: seq<nat>, q: seq<nat>, k: seq<Word32>, l: seq<Word32>)
    requires AllCubeRoots(p, k) && AllCubeRoots(q, l)
    ensures AllCubeRoots(p + q, k + l)
  {
    hide CubeRootBits;
  }

  /** Every round constant is what section 4.2.2 says. */
  lemma RoundConstantsAre()
    ensures AllCubeRoots(Primes, K) && |K| == 64
  {
    hide AllCubeRoots;
    CubeRoots0(); CubeRoots1(); CubeRoots2(); CubeRoots3();
    CubeRoots4(); CubeRoots5(); CubeRoots6(); CubeRoots7();
    Both(P6, P7, K6, K7);
    Both(P5, Q6, K5, K6 + K7);
    Both(P4, Q5, K4, K5 + (K6 + K7));
    Both(P3, Q4, K3, K4 + (K5 + (K6 + K7)));
    Both(P2, Q3, K2, K3 + (K4 + (K5 + (K6 + K7))));
    Both(P1, Q2, K1, K2 + (K3 + (K4 + (K5 + (K6 + K7)))));
    Both(P0, Q1, K0, K1 + (K2 + (K3 + (K4 + (K5 + (K6 + K7))))));
  }

  lemma SquareRootIs(p: nat, k: Word32, x: nat)
    requires Square(x) <= p * 0x1_0000_0000_0000_0000 < Square(x + 1) && x % 0x1_0000_0000 == k as nat
    ensures SquareRootBits(p, k)
  {
    hide Square;
  }

  /** The initial value for SHA-256 is what section 5.3.3 says. */
  lemma InitialValueIs()
    ensures var v := InitialValue(false);
      && SquareRootBits(Primes[0], v.a) && SquareRootBits(Primes[1], v.b)
      && SquareRootBits(Primes[2], v.c) && SquareRootBits(Primes[3], v.d)
      && SquareRootBits(Primes[4], v.e) && SquareRootBits(Primes[5], v.f)
      && SquareRootBits(Primes[6], v.g) && SquareRootBits(Primes[7], v.h)
  {
    hide SquareRootBits;
    FirstSixteen();
    SquareRootIs(2, 0x6A09E667, 0x16A09E667);
    SquareRootIs(3, 0xBB67AE85, 0x1BB67AE85);
    SquareRootIs(5, 0x3C6EF372, 0x23C6EF372);
    SquareRootIs(7, 0xA54FF53A, 0x2A54FF53A);
    SquareRootIs(11, 0x510E527F, 0x3510E527F);
    SquareRootIs(13, 0x9B05688C, 0x39B05688C);
    SquareRootIs(17, 0x1F83D9AB, 0x41F83D9AB);
    SquareRootIs(19, 0x5BE0CD19, 0x45BE0CD19);
  }

  lemma LaterRootIs(p: nat, k: Word32, x: nat)
    requires Square(x) <= p * 0x1_0000_0000_0000_0000_0000_0000_0000_0000 < Square(x + 1)
    requires x % 0x1_0000_0000 == k as nat
    ensures LaterRootBits(p, k)
  {
    hide Square;
  }

  /** The initial value for SHA-224. */
  lemma InitialValue224Is()
    ensures var v := InitialValue(true);
      && LaterRootBits(Primes[8], v.a) && LaterRootBits(Primes[9], v.b)
      && LaterRootBits(Primes[10], v.c) && LaterRootBits(Primes[11], v.d)
      && LaterRootBits(Primes[12], v.e) && LaterRootBits(Primes[13], v.f)
      && LaterRootBits(Primes[14], v.g) && LaterRootBits(Primes[15], v.h)
  {
    hide LaterRootBits;
    FirstSixteen();
    LaterRootIs(23, 0xC1059ED8, 0x4CBBB9D5DC1059ED8);
    LaterRootIs(29, 0x367CD507, 0x5629A292A367CD507);
    LaterRootIs(31, 0x3070DD17, 0x59159015A3070DD17);
    LaterRootIs(37, 0xF70E5939, 0x6152FECD8F70E5939);
    LaterRootIs(41, 0xFFC00B31, 0x667332667FFC00B31);
    LaterRootIs(43, 0x68581511, 0x68EB44A8768581511);
    LaterRootIs(47, 0x64F98FA7, 0x6DB0C2E0D64F98FA7);
    LaterRootIs(53, 0xBEFA4FA4, 0x747B5481DBEFA4FA4);
  }

  lemma FirstSixteen()
    ensures forall t :: 0 <= t < 8 ==> Primes[t] == P0[t] && Primes[8 + t] == P1[t]
  {
  }
}
