/**
 The arithmetic behind odd-even sorting with blocks. For a fixed threshold, `f[r]` is how many
 of rank r's elements are at most the threshold. An exchange moves as many of them as fit to
 the left partner, which is a min-plus step on the prefix sums.
 */
module MinPlus {

  function Min(x: int, y: int): int { if x <= y then x else y }

  ghost function Sum(f: seq<int>, r: nat): int
    requires r <= |f|
  {
    if r == 0 then 0 else Sum(f, r - 1) + f[r - 1]
  }

  /** Whether an exchange crosses the boundary between ranks `r - 1` and `r` in phase `i`. */
  predicate Active(n: nat, i: nat, r: nat) {
    1 <= r < n && (r - 1) % 2 == i % 2
  }

  lemma ActiveAlternates(n: nat, i: nat, r: nat)
    requires 1 <= r < n
    ensures Active(n, i, r) ==> !Active(n, i, r - 1) && !Active(n, i, r + 1)
    ensures Active(n, i + 1, r) <==> !Active(n, i, r)
  {
  }

  ghost predicate CountAt(f: seq<int>, g: seq<int>, i: nat, s: nat, r: nat)
    requires |f| == |g| && r < |f|
  {
    if Active(|f|, i, r + 1) then g[r] == Min(s, f[r] + f[r + 1])
    else if Active(|f|, i, r) then g[r] == f[r - 1] + f[r] - Min(s, f[r - 1] + f[r])
    else g[r] == f[r]
  }

  /** `g` are the counts after phase `i` when `f` are those before it. */
  ghost predicate CountStep(f: seq<int>, g: seq<int>, i: nat, s: nat) {
    |f| == |g| && forall r :: 0 <= r < |f| ==> CountAt(f, g, i, s, r)
  }

  ghost predicate Within(f: seq<int>, s: nat) {
    forall r :: 0 <= r < |f| ==> 0 <= f[r] <= s
  }

  lemma {:induction false} SumStep(f: seq<int>, g: seq<int>, i: nat, s: nat, r: nat)
    requires CountStep(f, g, i, s) && r <= |f|
    ensures Sum(g, r) == if Active(|f|, i, r) then Min(Sum(f, r - 1) + s, Sum(f, r + 1)) else Sum(f, r)
  {
    if r > 0 {
      assert CountAt(f, g, i, s, r - 1);
      SumStep(f, g, i, s, r - 1);
      if Active(|f|, i, r) {
        ActiveAlternates(|f|, i, r);
      } else if Active(|f|, i, r - 1) {
        assert Sum(f, r - 1) == Sum(f, r - 2) + f[r - 2];
      }
    }
  }

  lemma {:induction false} SumBounds(f: seq<int>, s: nat, q: nat, r: nat)
    requires Within(f, s) && q <= r <= |f|
    ensures Sum(f, q) <= Sum(f, r) <= Sum(f, q) + (r - q) * s
    decreases r - q
  {
    if q < r {
      SumBounds(f, s, q, r - 1);
      assert (r - q) * s == (r - 1 - q) * s + s;
    }
  }

  /** What holds the count at boundary `r` back: less than `x` ranks' worth of room found on
      the left, or all but `n - r - y` ranks' worth already moved in from the right. */
  ghost predicate Reached(f: seq<int>, s: nat, r: nat, x: nat, y: nat)
    requires r <= |f|
  {
    Sum(f, r) >= Min(x * s, Sum(f, |f|) - (|f| - r - y) * s)
  }

  /** After `t` phases every split of the distance travelled is accounted for; a boundary that
      is about to be active lags one phase behind. */
  ghost predicate Progress(f: seq<int>, s: nat, t: nat) {
    forall r, x: nat, y: nat ::
      0 <= r <= |f| && x <= r && y <= |f| - r && x + y <= (if Active(|f|, t, r) then t else t + 1)
      ==> Reached(f, s, r, x, y)
  }

  lemma ReachedTrivially(f: seq<int>, s: nat, r: nat, x: nat, y: nat)
    requires Within(f, s) && r <= |f| && (x == 0 || y == 0)
    ensures Reached(f, s, r, x, y)
  {
    SumBounds(f, s, 0, r);
    SumBounds(f, s, r, |f|);
  }

  lemma ReachedStep(f: seq<int>, g: seq<int>, i: nat, s: nat, r: nat, x: nat, y: nat)
    requires CountStep(f, g, i, s) && Active(|f|, i, r) && x >= 1 && y >= 1
    requires Reached(f, s, r - 1, x - 1, y)
    requires Reached(f, s, r + 1, x, y - 1)
    ensures Reached(g, s, r, x, y)
  {
    SumStep(f, g, i, s, r);
    SumStep(f, g, i, s, |f|);
    assert (x - 1) * s + s == x * s;
    assert (|f| - (r - 1) - y) * s == (|f| - r - y) * s + s;
    assert |f| - (r + 1) - (y - 1) == |f| - r - y;
  }

  /** The inductive step at one boundary: the distance travelled grows by one where it is active. */
  lemma ReachedNext(f: seq<int>, g: seq<int>, i: nat, s: nat, r: nat, x: nat, y: nat)
    requires Within(g, s) && CountStep(f, g, i, s) && Progress(f, s, i)
    requires r <= |f| && x <= r && y <= |f| - r && x + y <= (if Active(|f|, i + 1, r) then i + 1 else i + 2)
    ensures Reached(g, s, r, x, y)
  {
    if x == 0 || y == 0 {
      ReachedTrivially(g, s, r, x, y);
    } else {
      ActiveAlternates(|f|, i, r);
      if Active(|f|, i, r) {
        assert Reached(f, s, r - 1, x - 1, y);
        assert Reached(f, s, r + 1, x, y - 1);
        ReachedStep(f, g, i, s, r, x, y);
      } else {
        assert Reached(f, s, r, x, y);
        SumStep(f, g, i, s, r);
        SumStep(f, g, i, s, |f|);
      }
    }
  }

  lemma ProgressAtStart(f: seq<int>, s: nat)
    requires Within(f, s)
    ensures Progress(f, s, 0)
  {
    forall r, x: nat, y: nat | 0 <= r <= |f| && x <= r && y <= |f| - r && x + y <= 1
      ensures Reached(f, s, r, x, y)
    {
      ReachedTrivially(f, s, r, x, y);
    }
  }

  lemma ProgressStep(f: seq<int>, g: seq<int>, i: nat, s: nat)
    requires Within(g, s) && CountStep(f, g, i, s) && Progress(f, s, i)
    ensures Progress(g, s, i + 1)
  {
    forall r, x: nat, y: nat |
      0 <= r <= |g| && x <= r && y <= |g| - r && x + y <= (if Active(|g|, i + 1, r) then i + 1 else i + 2)
      ensures Reached(g, s, r, x, y)
    {
      ReachedNext(f, g, i, s, r, x, y);
    }
  }

  /** After as many phases as ranks, only full ranks stand before a rank that is not empty. */
  lemma FullBefore(f: seq<int>, s: nat, q: nat, r: nat)
    requires Within(f, s) && Progress(f, s, |f|) && q < r < |f| && f[r] > 0
    ensures f[q] == s
  {
    assert Reached(f, s, r, r, |f| - r);
    SumBounds(f, s, r + 1, |f|);
    SumBounds(f, s, 0, q);
    SumBounds(f, s, q + 1, r);
    assert q * s + s + (r - (q + 1)) * s == r * s;
  }
}

/**
 The odd-even block merge sort: what one phase does to the blocks of all ranks, the theorem
 that as many phases as there are ranks always sort, and the phase loop itself.
 */
module OddEvenSort {
  import opened MinPlus
  import opened SortedSlices

  type Blocks = seq<seq<int>>

  datatype Role = KeepsSmaller(partner: nat) | KeepsBigger(partner: nat) | Idle

  /** What rank `myRank` of `commSz` does in phase `i`. */
  function RoleOf(commSz: nat, i: nat, myRank: nat): Role {
    if i % 2 == 0 then
      if myRank % 2 == 0 && myRank + 1 < commSz then KeepsSmaller(myRank + 1)
      else if myRank % 2 == 1 && myRank - 1 >= 0 then KeepsBigger(myRank - 1)
      else Idle
    else
      if myRank % 2 == 1 && myRank + 1 < commSz then KeepsSmaller(myRank + 1)
      else if myRank % 2 == 0 && myRank - 1 > 0 then KeepsBigger(myRank - 1)
      else Idle
  }

  /** Every send has its receive: partners name each other, and keep opposite halves. */
  lemma PartnersMatch(commSz: nat, i: nat, r: nat)
    requires r < commSz
    ensures var role := RoleOf(commSz, i, r);
      && (role.KeepsSmaller? <==> r + 1 < commSz && RoleOf(commSz, i, r + 1) == KeepsBigger(r))
      && (role.KeepsBigger? <==> r >= 1 && RoleOf(commSz, i, r - 1) == KeepsSmaller(r))
      && (role.KeepsSmaller? ==> role.partner == r + 1)
      && (role.KeepsBigger? ==> role.partner == r - 1)
  {
  }

  predicate SameSize(b: Blocks, s: nat) {
    forall r :: 0 <= r < |b| ==> |b[r]| == s
  }

  ghost predicate SortedBlocks(b: Blocks, s: nat) {
    SameSize(b, s) && forall r :: 0 <= r < |b| ==> Sorted(b[r])
  }

  /** The block of rank `r` after phase `i`, given everyone's block before it. */
  function PhaseBlock(b: Blocks, s: nat, i: nat, r: nat): seq<int>
    requires r < |b|
    requires SameSize(b, s)
  {
    match RoleOf(|b|, i, r)
    case KeepsSmaller(q) => Merge(b[r], b[q])[..s]
    case KeepsBigger(q) => Merge(b[r], b[q])[s..]
    case Idle => b[r]
  }

  lemma PhaseBlockIsSorted(b: Blocks, s: nat, i: nat, r: nat)
    requires SortedBlocks(b, s) && r < |b|
    ensures |PhaseBlock(b, s, i, r)| == s && Sorted(PhaseBlock(b, s, i, r))
  {
    PartnersMatch(|b|, i, r);
    var role := RoleOf(|b|, i, r);
    if !role.Idle? {
      MergeIsSorted(b[r], b[role.partner]);
      SortedHalves(Merge(b[r], b[role.partner]), s);
    }
  }

  /** Everyone's block after phase `i`. */
  ghost function Phase(b: Blocks, s: nat, i: nat): (c: Blocks)
    requires SortedBlocks(b, s)
    ensures |c| == |b| && SortedBlocks(c, s)
  {
    var c := seq(|b|, r requires 0 <= r < |b| => PhaseBlock(b, s, i, r));
    assert SortedBlocks(c, s) by {
      forall r | 0 <= r < |b| ensures |c[r]| == s && Sorted(c[r]) {
        PhaseBlockIsSorted(b, s, i, r);
      }
    }
    c
  }

  // ---------------------------------------------------------------------------------------
  // Counting the elements up to a threshold turns a phase into a step of MinPlus.
  // ---------------------------------------------------------------------------------------

  /** The number of elements of `m` that are at most `v`. */
  function Count(m: seq<int>, v: int): (n: nat)
    ensures n <= |m|
  {
    if m == [] then 0 else (if m[0] <= v then 1 else 0) + Count(m[1..], v)
  }

  lemma {:induction false} CountConcat(a: seq<int>, b: seq<int>, v: int)
    ensures Count(a + b, v) == Count(a, v) + Count(b, v)
  {
    if a == [] {
      assert a + b == b;
    } else {
      assert (a + b)[1..] == a[1..] + b;
      CountConcat(a[1..], b, v);
    }
  }

  lemma {:induction false} CountMerge(a: seq<int>, b: seq<int>, v: int)
    ensures Count(Merge(a, b), v) == Count(a, v) + Count(b, v)
  {
    if a == [] || b == [] {
    } else if a[0] <= b[0] {
      CountMerge(a[1..], b, v);
      assert Merge(a, b)[1..] == Merge(a[1..], b);
    } else {
      CountMerge(a, b[1..], v);
      assert Merge(a, b)[1..] == Merge(a, b[1..]);
    }
  }

  /** In a sorted sequence the elements at most `v` come first. */
  lemma {:induction false} CountSorted(m: seq<int>, v: int, k: nat)
    requires Sorted(m) && k < |m|
    ensures m[k] <= v <==> k < Count(m, v)
  {
    if m[0] > v {
      CountNone(m, v);
    } else if k > 0 {
      CountSorted(m[1..], v, k - 1);
    }
  }

  lemma {:induction false} CountNone(m: seq<int>, v: int)
    requires forall k :: 0 <= k < |m| ==> m[k] > v
    ensures Count(m, v) == 0
  {
    if m != [] { CountNone(m[1..], v); }
  }

  lemma {:induction false} CountPrefix(m: seq<int>, v: int, k: nat)
    requires Sorted(m) && k <= |m|
    ensures Count(m[..k], v) == Min(k, Count(m, v))
    ensures Count(m[k..], v) == Count(m, v) - Min(k, Count(m, v))
  {
    assert m == m[..k] + m[k..];
    CountConcat(m[..k], m[k..], v);
    if k < |m| && m[k] <= v {
      CountSorted(m, v, k);
      if k > 0 {
        CountSorted(m[..k], v, k - 1);
      }
    } else if k < |m| {
      CountNone(m[k..], v);
    }
  }

  lemma RoleIsActive(n: nat, i: nat, r: nat)
    requires r < n
    ensures RoleOf(n, i, r) ==
      if Active(n, i, r + 1) then KeepsSmaller(r + 1) else if Active(n, i, r) then KeepsBigger(r - 1) else Idle
  {
  }

  lemma MergedHalves(a: seq<int>, b: seq<int>, v: int)
    requires Sorted(a) && Sorted(b)
    ensures var both := Count(a, v) + Count(b, v);
      && Count(Merge(a, b)[..|a|], v) == Min(|a|, both)
      && Count(Merge(a, b)[|a|..], v) == both - Min(|a|, both)
  {
    hide Merge, Count;
    CountMerge(a, b, v);
    MergeIsSorted(a, b);
    CountPrefix(Merge(a, b), v, |a|);
  }

  lemma PhaseCounts(b: Blocks, i: nat, s: nat, v: int, r: nat)
    requires SortedBlocks(b, s) && r < |b|
    ensures var c := Count(PhaseBlock(b, s, i, r), v);
      if Active(|b|, i, r + 1) then c == Min(s, Count(b[r], v) + Count(b[r + 1], v))
      else if Active(|b|, i, r) then
        var both := Count(b[r - 1], v) + Count(b[r], v); c == both - Min(s, both)
      else c == Count(b[r], v)
  {
    RoleIsActive(|b|, i, r);
    match RoleOf(|b|, i, r)
    case Idle =>
    case KeepsSmaller(q) => MergedHalves(b[r], b[q], v);
    case KeepsBigger(q) => MergedHalves(b[r], b[q], v);
  }

  ghost function Counts(b: Blocks, v: int): (f: seq<int>)
    ensures |f| == |b|
  {
    seq(|b|, r requires 0 <= r < |b| => Count(b[r], v))
  }

  lemma PhaseIsCountStep(b: Blocks, i: nat, s: nat, v: int)
    requires SortedBlocks(b, s)
    ensures CountStep(Counts(b, v), Counts(Phase(b, s, i), v), i, s)
  {
    hide SortedBlocks, Counts, Phase, CountAt;
    forall r: nat | r < |b|
      ensures CountAt(Counts(b, v), Counts(Phase(b, s, i), v), i, s, r)
    {
      PhaseCountAt(b, i, s, v, r);
    }
  }

  lemma CountsAt(b: Blocks, v: int, r: nat)
    requires r < |b|
    ensures Counts(b, v)[r] == Count(b[r], v)
  {
  }

  lemma PhaseAt(b: Blocks, s: nat, i: nat, r: nat)
    requires SortedBlocks(b, s) && r < |b|
    ensures Phase(b, s, i)[r] == PhaseBlock(b, s, i, r)
  {
  }

  lemma PhaseCountAt(b: Blocks, i: nat, s: nat, v: int, r: nat)
    requires SortedBlocks(b, s) && r < |b|
    ensures CountAt(Counts(b, v), Counts(Phase(b, s, i), v), i, s, r)
  {
    PhaseCounts(b, i, s, v, r);
    PhaseAt(b, s, i, r);
    CountsAt(Phase(b, s, i), v, r);
    CountsAt(b, v, r);
    hide SortedBlocks, SameSize, Sorted, Counts, Phase, PhaseBlock, Count;
    if Active(|b|, i, r + 1) { CountsAt(b, v, r + 1); }
    if Active(|b|, i, r) { CountsAt(b, v, r - 1); }
  }

  // ---------------------------------------------------------------------------------------
  // The run, and why |b| phases are enough.
  // ---------------------------------------------------------------------------------------

  /** The blocks after the first `t` phases. */
  ghost function Run(b: Blocks, s: nat, t: nat): (r: Blocks)
    requires SortedBlocks(b, s)
    ensures SortedBlocks(r, s) && |r| == |b|
  {
    if t == 0 then b else Phase(Run(b, s, t - 1), s, t - 1)
  }

  lemma {:induction false} RunMakesProgress(b: Blocks, s: nat, v: int, t: nat)
    requires SortedBlocks(b, s)
    ensures Progress(Counts(Run(b, s, t), v), s, t)
  {
    hide Phase;
    if t == 0 {
      ProgressAtStart(Counts(b, v), s);
    } else {
      var c := Run(b, s, t - 1);
      RunMakesProgress(b, s, v, t - 1);
      PhaseIsCountStep(c, t - 1, s, v);
      ProgressStep(Counts(c, v), Counts(Phase(c, s, t - 1), v), t - 1, s);
    }
  }

  /** What the root gathers: the blocks of ranks 0 to `n - 1` side by side. */
  function Gather(b: Blocks, n: nat): seq<int>
    requires n <= |b|
  {
    if n == 0 then [] else Gather(b, n - 1) + b[n - 1]
  }

  ghost predicate Bounds(b: Blocks, n: nat, x: int)
    requires n <= |b|
  {
    forall q :: 0 <= q < n ==> AtMost(b[q], x)
  }

  lemma {:induction false} GatherAtMost(b: Blocks, n: nat, x: int)
    requires n <= |b| && Bounds(b, n, x)
    ensures AtMost(Gather(b, n), x)
  {
    if n > 0 {
      GatherAtMost(b, n - 1, x);
    }
  }

  lemma SortedSnoc(a: seq<int>, x: int)
    requires Sorted(a) && AtMost(a, x)
    ensures Sorted(a + [x])
  {
  }

  lemma {:induction false} GatherPrefixSorted(b: Blocks, n: nat, k: nat)
    requires n < |b| && k <= |b[n]|
    requires Sorted(Gather(b, n)) && Sorted(b[n])
    requires forall x | x in b[n] :: Bounds(b, n, x)
    ensures Sorted(Gather(b, n) + b[n][..k])
  {
    if k == 0 {
      assert Gather(b, n) + b[n][..0] == Gather(b, n);
    } else {
      GatherPrefixSorted(b, n, k - 1);
      var x := b[n][k - 1];
      GatherAtMost(b, n, x);
      SortedSnoc(Gather(b, n) + b[n][..k - 1], x);
      assert Gather(b, n) + b[n][..k] == Gather(b, n) + b[n][..k - 1] + [x];
    }
  }

  lemma {:induction false} GatherSorted(b: Blocks, n: nat)
    requires n <= |b|
    requires forall r :: 0 <= r < |b| ==> Sorted(b[r])
    requires forall r, x :: 0 <= r < |b| && x in b[r] ==> Bounds(b, r, x)
    ensures Sorted(Gather(b, n))
  {
    if n > 0 {
      GatherSorted(b, n - 1);
      GatherPrefixSorted(b, n - 1, |b[n - 1]|);
      assert b[n - 1][..|b[n - 1]|] == b[n - 1];
    }
  }

  // ---------------------------------------------------------------------------------------
  // No phase loses or invents an element.
  // ---------------------------------------------------------------------------------------

  ghost function Bags(b: Blocks): (f: seq<multiset<int>>)
    ensures |f| == |b|
  {
    seq(|b|, r requires 0 <= r < |b| => multiset(b[r]))
  }

  ghost function Union(f: seq<multiset<int>>, n: nat): multiset<int>
    requires n <= |f|
  {
    if n == 0 then multiset{} else Union(f, n - 1) + f[n - 1]
  }

  ghost predicate BagsExchanged(f: seq<multiset<int>>, g: seq<multiset<int>>, i: nat) {
    && |f| == |g|
    && (forall r :: 0 <= r < |f| && !Active(|f|, i, r) && !Active(|f|, i, r + 1) ==> g[r] == f[r])
    && (forall r: nat :: Active(|f|, i, r) ==> g[r - 1] + g[r] == f[r - 1] + f[r])
  }

  lemma {:induction false} UnionUnchanged(f: seq<multiset<int>>, g: seq<multiset<int>>, i: nat, n: nat)
    requires BagsExchanged(f, g, i) && n <= |f| && !Active(|f|, i, n)
    ensures Union(g, n) == Union(f, n)
  {
    if n >= 2 && Active(|f|, i, n - 1) {
      ActiveAlternates(|f|, i, n - 1);
      UnionUnchanged(f, g, i, n - 2);
      assert g[n - 2] + g[n - 1] == f[n - 2] + f[n - 1];
      hide BagsExchanged, Active, Union;
      UnionTwo(f, n);
      UnionTwo(g, n);
    } else if n > 0 {
      UnionUnchanged(f, g, i, n - 1);
      assert g[n - 1] == f[n - 1];
    }
  }

  lemma UnionTwo(f: seq<multiset<int>>, n: nat)
    requires 2 <= n <= |f|
    ensures Union(f, n) == Union(f, n - 2) + (f[n - 2] + f[n - 1])
  {
    assert Union(f, n) == Union(f, n - 1) + f[n - 1];
    assert Union(f, n - 1) == Union(f, n - 2) + f[n - 2];
  }

  lemma {:induction false} GatherUnion(b: Blocks, n: nat)
    requires n <= |b|
    ensures multiset(Gather(b, n)) == Union(Bags(b), n)
  {
    if n > 0 {
      GatherUnion(b, n - 1);
    }
  }

  lemma ExchangePhase(b: Blocks, i: nat, s: nat, r: nat)
    requires SortedBlocks(b, s) && Active(|b|, i, r)
    ensures multiset(PhaseBlock(b, s, i, r - 1)) + multiset(PhaseBlock(b, s, i, r))
         == multiset(b[r - 1]) + multiset(b[r])
  {
    RoleIsActive(|b|, i, r);
    RoleIsActive(|b|, i, r - 1);
    assert PhaseBlock(b, s, i, r - 1) == Merge(b[r - 1], b[r])[..s];
    assert PhaseBlock(b, s, i, r) == Merge(b[r], b[r - 1])[s..];
    hide PhaseBlock;
    ExchangeSplits(b[r - 1], b[r]);
  }

  lemma IdlePhase(b: Blocks, i: nat, s: nat, r: nat)
    requires SortedBlocks(b, s) && r < |b| && !Active(|b|, i, r) && !Active(|b|, i, r + 1)
    ensures PhaseBlock(b, s, i, r) == b[r]
  {
    PartnersMatch(|b|, i, r);
  }

  lemma PhaseExchangesBags(b: Blocks, i: nat, s: nat)
    requires SortedBlocks(b, s)
    ensures BagsExchanged(Bags(b), Bags(Phase(b, s, i)), i)
  {
    forall r: nat | Active(|b|, i, r)
      ensures multiset(PhaseBlock(b, s, i, r - 1)) + multiset(PhaseBlock(b, s, i, r))
           == multiset(b[r - 1]) + multiset(b[r])
    {
      ExchangePhase(b, i, s, r);
    }
    forall r | 0 <= r < |b| && !Active(|b|, i, r) && !Active(|b|, i, r + 1)
      ensures PhaseBlock(b, s, i, r) == b[r]
    {
      IdlePhase(b, i, s, r);
    }
  }

  lemma PhaseIsPermutation(b: Blocks, i: nat, s: nat)
    requires SortedBlocks(b, s)
    ensures multiset(Gather(Phase(b, s, i), |b|)) == multiset(Gather(b, |b|))
  {
    PhaseExchangesBags(b, i, s);
    UnionUnchanged(Bags(b), Bags(Phase(b, s, i)), i, |b|);
    GatherUnion(b, |b|);
    GatherUnion(Phase(b, s, i), |b|);
  }

  lemma {:induction false} RunIsPermutation(b: Blocks, s: nat, t: nat)
    requires SortedBlocks(b, s)
    ensures multiset(Gather(Run(b, s, t), |b|)) == multiset(Gather(b, |b|))
  {
    hide Phase, Gather;
    if t > 0 {
      var c := Run(b, s, t - 1);
      RunIsPermutation(b, s, t - 1);
      PhaseIsPermutation(c, t - 1, s);
    }
  }

  lemma NoneAbove(c: Blocks, s: nat, q: nat, r: nat, x: int)
    requires SortedBlocks(c, s) && Progress(Counts(c, x), s, |c|) && q < r < |c| && x in c[r]
    ensures AtMost(c[q], x)
  {
    var k :| 0 <= k < |c[r]| && c[r][k] == x;
    CountSorted(c[r], x, k);
    FullBefore(Counts(c, x), s, q, r);
    forall j | 0 <= j < |c[q]| ensures c[q][j] <= x {
      CountSorted(c[q], x, j);
    }
  }

  /** The theorem: for every number of ranks, every block size and every input, as many phases
      as there are ranks leave the gathered array sorted, with the elements it started with. */
  lemma OddEvenSortSorts(b: Blocks, s: nat)
    requires SortedBlocks(b, s)
    ensures Sorted(Gather(Run(b, s, |b|), |b|))
    ensures multiset(Gather(Run(b, s, |b|), |b|)) == multiset(Gather(b, |b|))
  {
    var c := Run(b, s, |b|);
    RunIsPermutation(b, s, |b|);
    forall r, x | 0 <= r < |c| && x in c[r]
      ensures Bounds(c, r, x)
    {
      RunMakesProgress(b, s, x, |b|);
      forall q | 0 <= q < r ensures AtMost(c[q], x) {
        NoneAbove(c, s, q, r, x);
      }
    }
    GatherSorted(c, |b|);
  }

  // ---------------------------------------------------------------------------------------
  // The phase loop over the ranks' own arrays.
  // ---------------------------------------------------------------------------------------

  ghost function Contents(ranks: seq<array<int>>): (b: Blocks)
    reads ranks
    ensures |b| == |ranks|
  {
    seq(|ranks|, r requires 0 <= r < |ranks| reads ranks => ranks[r][..])
  }

  /** One rank's part of phase `i`. `sent` is what each rank had when the phase began, which is
      what the send-and-receive exchange delivers. */
  method RankPhase(local_v: array<int>, my_rank: nat, i: nat, sent: Blocks)
    requires SortedBlocks(sent, local_v.Length) && my_rank < |sent| && local_v[..] == sent[my_rank]
    modifies local_v
    ensures local_v[..] == PhaseBlock(sent, local_v.Length, i, my_rank)
  {
    var s := local_v.Length;
    PartnersMatch(|sent|, i, my_rank);
    match RoleOf(|sent|, i, my_rank)
    case KeepsSmaller(q) =>
      var other_v := new int[s](k requires 0 <= k < s => sent[q][k]);
      assert other_v[..] == sent[q];
      MergeSlicesKeepSmallerBetter(local_v, other_v);
    case KeepsBigger(q) =>
      var other_v := new int[s](k requires 0 <= k < s => sent[q][k]);
      assert other_v[..] == sent[q];
      MergeSlicesKeepBiggerBetter(local_v, other_v);
    case Idle =>
  }

  /** The phase loop of the whole job: scatter has already put a sorted block on every rank;
      after the loop the gathered blocks are sorted and are what the ranks started with. */
  method SortAcrossRanks(ranks: seq<array<int>>, s: nat)
    requires forall q, r :: 0 <= q < r < |ranks| ==> ranks[q] != ranks[r]
    requires SortedBlocks(Contents(ranks), s)
    modifies ranks
    ensures Contents(ranks) == Run(old(Contents(ranks)), s, |ranks|)
    ensures Sorted(Gather(Contents(ranks), |ranks|))
    ensures multiset(Gather(Contents(ranks), |ranks|)) == old(multiset(Gather(Contents(ranks), |ranks|)))
  {
    var comm_sz := |ranks|;
    ghost var start := Contents(ranks);
    for i := 0 to comm_sz
      invariant Contents(ranks) == Run(start, s, i)
    {
      OnePhase(ranks, s, i);
    }
    OddEvenSortSorts(start, s);
  }

  method OnePhase(ranks: seq<array<int>>, s: nat, i: nat)
    requires forall q, r :: 0 <= q < r < |ranks| ==> ranks[q] != ranks[r]
    requires SortedBlocks(Contents(ranks), s)
    modifies ranks
    ensures Contents(ranks) == Phase(old(Contents(ranks)), s, i)
  {
    var sent := seq(|ranks|, r requires 0 <= r < |ranks| reads ranks => ranks[r][..]);
    assert sent == Contents(ranks);
    assert forall r :: 0 <= r < |ranks| ==> sent[r] == ranks[r][..];
    for r := 0 to |ranks|
      invariant forall q :: 0 <= q < r ==> ranks[q][..] == PhaseBlock(sent, s, i, q)
      invariant forall q :: r <= q < |ranks| ==> ranks[q][..] == sent[q]
    {
      assert ranks[r].Length == |sent[r]| == s;
      RankPhase(ranks[r], r, i, sent);
    }
  }
}
