/**
 As many phases as ranks are needed: for three ranks or more, whatever the block size, there is an
 input that one phase fewer leaves unsorted. Its blocks hold equal elements, zeros in the last one
 or two and ones in the others, and the zeros are followed on their way to the left.
 */
module TightBound {
  import opened MinPlus
  import opened OddEvenSort
  import opened SortedSlices

  function Block(zero: bool, s: nat): (b: seq<int>)
    ensures |b| == s && Sorted(b)
  {
    seq(s, k => if zero then 0 else 1)
  }

  /** The blocks of ranks of which `z` says whether they hold zeros. */
  ghost function Image(z: seq<bool>, s: nat): (b: Blocks)
    ensures |b| == |z| && SortedBlocks(b, s)
  {
    seq(|z|, r requires 0 <= r < |z| => Block(z[r], s))
  }

  /** What a phase does to such blocks. */
  predicate After(z: seq<bool>, i: nat, r: nat)
    requires r < |z|
  {
    if Active(|z|, i, r + 1) then z[r] || z[r + 1]
    else if Active(|z|, i, r) then z[r - 1] && z[r]
    else z[r]
  }

  lemma {:induction false} MergeOrdered(a: seq<int>, b: seq<int>)
    requires forall i, j :: 0 <= i < |a| && 0 <= j < |b| ==> a[i] <= b[j]
    ensures Merge(a, b) == a + b
  {
    if a == [] || b == [] {
      assert a + b == if a == [] then b else a;
    } else {
      MergeOrdered(a[1..], b);
      assert a + b == [a[0]] + (a[1..] + b);
    }
  }

  lemma MergeBlocks(x: bool, y: bool, s: nat)
    ensures Merge(Block(x, s), Block(y, s))[..s] == Block(x || y, s)
    ensures Merge(Block(x, s), Block(y, s))[s..] == Block(x && y, s)
  {
    var a, b := Block(x, s), Block(y, s);
    if x || !y {
      MergeOrdered(a, b);
    } else {
      MergeCommutes(a, b);
      MergeOrdered(b, a);
    }
  }

  lemma BlockAfter(z: seq<bool>, s: nat, i: nat, r: nat)
    requires r < |z|
    ensures PhaseBlock(Image(z, s), s, i, r) == Block(After(z, i, r), s)
  {
    RoleIsActive(|z|, i, r);
    if Active(|z|, i, r + 1) {
      MergeBlocks(z[r], z[r + 1], s);
    } else if Active(|z|, i, r) {
      MergeBlocks(z[r], z[r - 1], s);
    }
  }

  lemma PhaseOfImage(z: seq<bool>, z': seq<bool>, s: nat, i: nat)
    requires |z'| == |z| && forall r: nat :: r < |z| ==> z'[r] == After(z, i, r)
    ensures Phase(Image(z, s), s, i) == Image(z', s)
  {
    var c := Phase(Image(z, s), s, i);
    forall r: nat | r < |z| ensures c[r] == Image(z', s)[r] {
      PhaseAt(Image(z, s), s, i, r);
      BlockAfter(z, s, i, r);
    }
  }

  // ---------------------------------------------------------------------------------------
  // The way of the zeros: one block of them for an odd number of ranks, two for an even one.
  // ---------------------------------------------------------------------------------------

  predicate IsZero(p: nat, t: nat, r: int) {
    if p % 2 == 1 then r == (if t == 0 then p - 1 else p - t)
    else r == (if t == 0 then p - 2 else p - 1 - t) || r == (if t <= 1 then p - 1 else p + 1 - t)
  }

  function Zeros(p: nat, t: nat): (z: seq<bool>)
    ensures |z| == p
  {
    seq(p, r => IsZero(p, t, r))
  }

  lemma ZerosMove(p: nat, t: nat, r: nat)
    requires p >= 3 && t + 1 < p && r < p
    ensures Zeros(p, t + 1)[r] == After(Zeros(p, t), t, r)
  {
  }

  lemma {:induction false} ZerosAfter(p: nat, s: nat, t: nat)
    requires p >= 3 && t < p
    ensures Run(Image(Zeros(p, 0), s), s, t) == Image(Zeros(p, t), s)
  {
    hide Image, Zeros, After, Phase;
    if t > 0 {
      ZerosAfter(p, s, t - 1);
      forall r: nat | r < p ensures Zeros(p, t)[r] == After(Zeros(p, t - 1), t - 1, r) {
        ZerosMove(p, t - 1, r);
      }
      PhaseOfImage(Zeros(p, t - 1), Zeros(p, t), s, t - 1);
    }
  }

  lemma {:induction false} GatherAt(b: Blocks, s: nat, n: nat, r: nat)
    requires SameSize(b, s) && r < n <= |b| && s >= 1
    ensures 0 <= r * s < |Gather(b, n)| == n * s && Gather(b, n)[r * s] == b[r][0]
  {
    GatherSize(b, s, n - 1);
    assert n * s == (n - 1) * s + s;
    if r < n - 1 {
      GatherAt(b, s, n - 1, r);
    }
  }

  lemma {:induction false} GatherSize(b: Blocks, s: nat, n: nat)
    requires SameSize(b, s) && n <= |b|
    ensures |Gather(b, n)| == n * s
  {
    if n > 0 {
      GatherSize(b, s, n - 1);
      assert n * s == (n - 1) * s + s;
    }
  }

  /** One phase fewer than ranks leaves a one before a zero. */
  lemma FewerPhasesDoNotSuffice(p: nat, s: nat)
    requires p >= 3 && s >= 1
    ensures var b := Image(Zeros(p, 0), s);
      |b| == p && SortedBlocks(b, s) && !Sorted(Gather(Run(b, s, p - 1), p))
  {
    ZerosAfter(p, s, p - 1);
    var c := Image(Zeros(p, p - 1), s);
    var q := if p % 2 == 1 then 0 else 1;
    GatherAt(c, s, p, q);
    GatherAt(c, s, p, q + 1);
    assert c[q][0] == 1 && c[q + 1][0] == 0;
    assert (q + 1) * s == q * s + s;
  }

  /** With one or two ranks the last phase has nothing to do. */
  lemma OneFewerSuffices(b: Blocks, s: nat)
    requires SortedBlocks(b, s) && 1 <= |b| <= 2
    ensures Sorted(Gather(Run(b, s, |b| - 1), |b|))
  {
    hide Phase, Sorted, Gather, SameSize;
    OddEvenSortSorts(b, s);
    LastIsIdle(Run(b, s, |b| - 1), s);
  }

  lemma LastIsIdle(c: Blocks, s: nat)
    requires SortedBlocks(c, s) && 1 <= |c| <= 2
    ensures Phase(c, s, |c| - 1) == c
  {
    hide SortedBlocks, Phase;
    forall r: nat | r < |c| ensures Phase(c, s, |c| - 1)[r] == c[r] {
      PhaseAt(c, s, |c| - 1, r);
      IdlePhase(c, |c| - 1, s, r);
    }
  }

  /** One phase fewer than ranks sorts every input if and only if there are at most two ranks. */
  lemma OneFewer(p: nat, s: nat)
    requires p >= 1 && s >= 1
    ensures (forall b: Blocks :: |b| == p && SortedBlocks(b, s) ==> Sorted(Gather(Run(b, s, p - 1), p))) <==> p <= 2
  {
    if p <= 2 {
      forall b: Blocks | |b| == p && SortedBlocks(b, s) ensures Sorted(Gather(Run(b, s, p - 1), p)) {
        OneFewerSuffices(b, s);
      }
    } else {
      FewerPhasesDoNotSuffice(p, s);
      var b := Image(Zeros(p, 0), s);
      assert |b| == p && SortedBlocks(b, s);
    }
  }
}
