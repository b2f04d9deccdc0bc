/**
 Sorted integer slices, their stable merge, and the two in-place merge routines of the
 block sort: one rank keeps the smaller half of a merged pair, its neighbour the larger half.
 */
module SortedSlices {

  predicate Sorted(s: seq<int>) {
    forall i, j :: 0 <= i < j < |s| ==> s[i] <= s[j]
  }

  /** The specification of merging: repeatedly take the smaller head. */
  function Merge(a: seq<int>, b: seq<int>): (r: seq<int>)
    ensures |r| == |a| + |b|
  {
    if a == [] then b
    else if b == [] then a
    else if a[0] <= b[0] then [a[0]] + Merge(a[1..], b)
    else [b[0]] + Merge(a, b[1..])
  }

  lemma MultisetCons(s: seq<int>)
    requires s != []
    ensures multiset(s) == multiset{s[0]} + multiset(s[1..])
  {
    assert s == [s[0]] + s[1..];
  }

  lemma {:induction false} MergeIsPermutation(a: seq<int>, b: seq<int>)
    ensures multiset(Merge(a, b)) == multiset(a) + multiset(b)
  {
    if a == [] || b == [] {
    } else if a[0] <= b[0] {
      MergeIsPermutation(a[1..], b);
      MultisetCons(a);
      assert multiset(Merge(a, b)) == multiset{a[0]} + multiset(Merge(a[1..], b));
    } else {
      MergeIsPermutation(a, b[1..]);
      MultisetCons(b);
      assert multiset(Merge(a, b)) == multiset{b[0]} + multiset(Merge(a, b[1..]));
    }
  }

  lemma SortedCons(x: int, s: seq<int>)
    requires Sorted(s) && (s != [] ==> x <= s[0])
    ensures Sorted([x] + s)
  {
  }

  lemma {:induction false} MergeIsSorted(a: seq<int>, b: seq<int>)
    requires Sorted(a) && Sorted(b)
    ensures Sorted(Merge(a, b))
  {
    if a == [] || b == [] {
    } else if a[0] <= b[0] {
      MergeIsSorted(a[1..], b);
      SortedCons(a[0], Merge(a[1..], b));
    } else {
      MergeIsSorted(a, b[1..]);
      SortedCons(b[0], Merge(a, b[1..]));
    }
  }

  /** A sorted sequence is determined by its elements. */
  lemma {:induction false} SortedIsUnique(s: seq<int>, t: seq<int>)
    requires Sorted(s) && Sorted(t)
    requires multiset(s) == multiset(t)
    ensures s == t
  {
    SameLength(s, t);
    if s != [] {
      assert s[0] in multiset(s) && t[0] in multiset(t);
      FirstIsLeast(s, t[0]);
      FirstIsLeast(t, s[0]);
      hide Sorted;
      SameTails(s, t);
      SortedIsUnique(s[1..], t[1..]);
      assert s == [s[0]] + s[1..] && t == [t[0]] + t[1..];
    }
  }

  lemma SameTails(s: seq<int>, t: seq<int>)
    requires s != [] && t != [] && s[0] == t[0] && multiset(s) == multiset(t)
    ensures multiset(s[1..]) == multiset(t[1..])
  {
    MultisetCons(s);
    MultisetCons(t);
    SameWithout(s[0], multiset(s[1..]), multiset(t[1..]));
  }

  lemma SameLength(s: seq<int>, t: seq<int>)
    requires multiset(s) == multiset(t)
    ensures |s| == |t|
  {
    assert |s| == |multiset(s)| && |t| == |multiset(t)|;
  }

  lemma SameWithout(x: int, a: multiset<int>, b: multiset<int>)
    requires multiset{x} + a == multiset{x} + b
    ensures a == b
  {
    assert a == (multiset{x} + a) - multiset{x};
    assert b == (multiset{x} + b) - multiset{x};
  }

  lemma FirstIsLeast(s: seq<int>, x: int)
    requires Sorted(s) && s != []
    ensures s[0] in multiset(s) && Sorted(s[1..])
    ensures x in multiset(s) ==> s[0] <= x
  {
    if x in multiset(s) {
      assert x in s;
    }
  }

  /** Both partners of an exchange see the same merged pair. */
  lemma MergeCommutes(a: seq<int>, b: seq<int>)
    requires Sorted(a) && Sorted(b)
    ensures Merge(a, b) == Merge(b, a)
  {
    MergeIsPermutation(a, b);
    MergeIsPermutation(b, a);
    MergeIsSorted(a, b);
    MergeIsSorted(b, a);
    SortedIsUnique(Merge(a, b), Merge(b, a));
  }

  /**
   One exchange: the left rank's slice and the right rank's come out sorted, with every element of
   the left one at most every element of the right one, and with the elements of both.
   */
  lemma ExchangeSplits(a: seq<int>, b: seq<int>)
    requires Sorted(a) && Sorted(b) && |a| == |b|
    ensures var left, right := Merge(a, b)[..|a|], Merge(b, a)[|a|..];
      && Sorted(left) && Sorted(right)
      && (forall i, j :: 0 <= i < |left| && 0 <= j < |right| ==> left[i] <= right[j])
      && multiset(left) + multiset(right) == multiset(a) + multiset(b)
  {
    MergeCommutes(a, b);
    MergeIsSorted(a, b);
    MergeIsPermutation(a, b);
    hide Merge, Sorted;
    SortedHalves(Merge(a, b), |a|);
  }

  lemma SortedHalves(m: seq<int>, k: nat)
    requires Sorted(m) && k <= |m|
    ensures Sorted(m[..k]) && Sorted(m[k..])
    ensures forall i, j :: 0 <= i < |m[..k]| && 0 <= j < |m[k..]| ==> m[..k][i] <= m[k..][j]
    ensures multiset(m[..k]) + multiset(m[k..]) == multiset(m)
  {
    assert m == m[..k] + m[k..];
  }

  predicate AtMost(s: seq<int>, x: int) {
    forall k :: 0 <= k < |s| ==> s[k] <= x
  }

  /** An element above both slices goes to the end of the merge. */
  lemma {:induction false} MergeSnoc(a: seq<int>, b: seq<int>, x: int)
    requires Sorted(b) && AtMost(a, x) && AtMost(b, x)
    ensures Merge(a + [x], b) == Merge(a, b) + [x]
  {
    var ax := a + [x];
    if b == [] {
    } else if a == [] && b[0] == x {
      assert ax[1..] == [];
      assert [x] + b == b + [x];
    } else if a != [] && a[0] <= b[0] {
      assert ax[1..] == a[1..] + [x];
      MergeSnoc(a[1..], b, x);
      assert [a[0]] + (Merge(a[1..], b) + [x]) == Merge(a, b) + [x];
    } else {
      MergeSnoc(a, b[1..], x);
      assert [b[0]] + (Merge(a, b[1..]) + [x]) == Merge(a, b) + [x];
    }
  }

  lemma {:induction false} MergeSnocOther(a: seq<int>, b: seq<int>, x: int)
    requires AtMost(a, x) && AtMost(b, x)
    ensures Merge(a, b + [x]) == Merge(a, b) + [x]
  {
    var bx := b + [x];
    if a == [] {
    } else if b == [] || a[0] <= b[0] {
      MergeSnocOther(a[1..], b, x);
      assert [a[0]] + (Merge(a[1..], b) + [x]) == Merge(a, b) + [x];
    } else {
      assert bx[1..] == b[1..] + [x];
      MergeSnocOther(a, b[1..], x);
      assert [b[0]] + (Merge(a, b[1..]) + [x]) == Merge(a, b) + [x];
    }
  }

  /** One step of merging from the small end, at positions `i` and `j`. */
  lemma MergeStep(a: seq<int>, b: seq<int>, i: nat, j: nat, done: seq<int>)
    requires i < |a| && j < |b|
    ensures done + Merge(a[i..], b[j..]) ==
      if a[i] <= b[j] then (done + [a[i]]) + Merge(a[i + 1..], b[j..])
      else (done + [b[j]]) + Merge(a[i..], b[j + 1..])
  {
    var c, d := a[i..], b[j..];
    assert c[0] == a[i] && d[0] == b[j];
    assert c[1..] == a[i + 1..] && d[1..] == b[j + 1..];
  }

  /** What is left to merge below `i` and `j`, and what has been kept above them, make the merged pair. */
  ghost predicate KeptAbove(a: seq<int>, b: seq<int>, i: int, j: int, kept: seq<int>) {
    && -1 <= i < |a| && -1 <= j < |b|
    && Merge(a[..i + 1], b[..j + 1]) + kept == Merge(a, b)
  }

  /** One step of merging from the large end, at positions `i` and `j`. */
  lemma MergeStepBack(a: seq<int>, b: seq<int>, i: nat, j: nat, kept: seq<int>)
    requires Sorted(a) && Sorted(b) && KeptAbove(a, b, i, j, kept)
    ensures if a[i] >= b[j] then KeptAbove(a, b, i - 1, j, [a[i]] + kept) else KeptAbove(a, b, i, j - 1, [b[j]] + kept)
  {
    var c, d := a[..i], b[..j];
    assert a[..i + 1] == c + [a[i]] && b[..j + 1] == d + [b[j]];
    if a[i] >= b[j] {
      MergeSnoc(c, d + [b[j]], a[i]);
      assert Merge(c, b[..j + 1]) + [a[i]] + kept == Merge(c, b[..j + 1]) + ([a[i]] + kept);
    } else {
      MergeSnocOther(c + [a[i]], d, b[j]);
      assert Merge(a[..i + 1], d) + [b[j]] + kept == Merge(a[..i + 1], d) + ([b[j]] + kept);
    }
  }

  lemma KeptAll(a: seq<int>, b: seq<int>)
    ensures |a| >= 1 && |b| >= 1 ==> KeptAbove(a, b, |a| - 1, |b| - 1, [])
    ensures a == [] && b == [] ==> KeptAbove(a, b, -1, -1, [])
  {
    assert a[..|a|] == a && b[..|b|] == b;
  }

  lemma KeptHalf(a: seq<int>, b: seq<int>, i: int, j: int, kept: seq<int>)
    requires KeptAbove(a, b, i, j, kept) && |kept| == |a| == |b|
    ensures kept == Merge(a, b)[|a|..]
  {
    Halves(Merge(a[..i + 1], b[..j + 1]), kept);
    assert |Merge(a[..i + 1], b[..j + 1])| == |a|;
  }

  lemma Halves(p: seq<int>, q: seq<int>)
    ensures (p + q)[..|p|] == p && (p + q)[|p|..] == q
  {
  }

  method CopyBack(dst: array<int>, src: array<int>)
    requires dst != src && dst.Length == src.Length
    modifies dst
    ensures dst[..] == src[..]
  {
    forall k | 0 <= k < dst.Length { dst[k] := src[k]; }
  }

  /** Keeps the smaller half: afterwards `myslice` is the first half of the merged pair. */
  method MergeSlicesKeepSmallerBetter(myslice: array<int>, otherslice: array<int>)
    requires myslice.Length <= otherslice.Length && myslice != otherslice
    modifies myslice
    ensures myslice[..] == Merge(old(myslice[..]), otherslice[..])[..myslice.Length]
  {
    hide Merge;
    var mysize := myslice.Length;
    var smallest := new int[mysize];
    var smallindex, myindex, otherindex := 0, 0, 0;
    ghost var my, other := myslice[..], otherslice[..];
    assert my[0..] == my && other[0..] == other;
    while smallindex < mysize
      invariant 0 <= myindex && 0 <= otherindex && smallindex == myindex + otherindex <= mysize
      invariant smallest[..smallindex] + Merge(my[myindex..], other[otherindex..]) == Merge(my, other)
      modifies smallest
    {
      ghost var done := smallest[..smallindex];
      MergeStep(my, other, myindex, otherindex, done);
      var mine := myslice[myindex];
      var others := otherslice[otherindex];
      if mine <= others {
        smallest[smallindex] := mine;
        myindex := myindex + 1;
      } else {
        smallest[smallindex] := others;
        otherindex := otherindex + 1;
      }
      assert smallest[..smallindex + 1] == done + [smallest[smallindex]];
      smallindex := smallindex + 1;
    }
    Halves(smallest[..smallindex], Merge(my[myindex..], other[otherindex..]));
    assert smallest[..] == smallest[..smallindex];
    CopyBack(myslice, smallest);
  }

  /** Keeps the larger half: afterwards `myslice` is the second half of the merged pair. */
  method MergeSlicesKeepBiggerBetter(myslice: array<int>, otherslice: array<int>)
    requires myslice.Length == otherslice.Length && myslice != otherslice
    requires Sorted(myslice[..]) && Sorted(otherslice[..])
    modifies myslice
    ensures myslice[..] == Merge(old(myslice[..]), otherslice[..])[myslice.Length..]
  {
    hide Merge, Sorted, KeptAbove;
    var mysize := myslice.Length;
    var biggest := new int[mysize];
    var bigindex, myindex, otherindex := mysize - 1, mysize - 1, mysize - 1;
    ghost var my, other, kept: seq<int> := myslice[..], otherslice[..], [];
    KeptAll(my, other);
    while bigindex >= 0
      invariant -1 <= bigindex < mysize && -1 <= myindex < mysize && -1 <= otherindex < mysize
      invariant bigindex + mysize - 1 == myindex + otherindex
      invariant myslice[..] == my && otherslice[..] == other
      invariant kept == biggest[bigindex + 1..] && KeptAbove(my, other, myindex, otherindex, kept)
    {
      MergeStepBack(my, other, myindex, otherindex, kept);
      var mine := myslice[myindex];
      var others := otherslice[otherindex];
      if mine >= others {
        biggest[bigindex] := mine;
        myindex := myindex - 1;
      } else {
        biggest[bigindex] := others;
        otherindex := otherindex - 1;
      }
      assert biggest[bigindex..] == [biggest[bigindex]] + kept;
      kept := biggest[bigindex..];
      bigindex := bigindex - 1;
    }
    assert bigindex == -1 && biggest[..] == biggest[0..] == kept;
    KeptHalf(my, other, myindex, otherindex, kept);
    CopyBack(myslice, biggest);
  }
}
