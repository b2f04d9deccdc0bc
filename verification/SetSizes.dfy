/**
 How many elements sets have.
 */
module SetSizes {

  lemma {:induction false} SubsetSize<A>(s: set<A>, t: set<A>)
    requires s <= t
    ensures |s| <= |t|
  {
    if x :| x in s {
      SubsetSize(s - {x}, t - {x});
    }
  }

  ghost function Range(lo: int, n: nat): set<int> { if n == 0 then {} else Range(lo, n - 1) + {lo + n - 1} }

  lemma {:induction false} RangeIs(lo: int, n: nat)
    ensures |Range(lo, n)| == n && forall x: int :: x in Range(lo, n) <==> lo <= x < lo + n
  {
    if n > 0 { RangeIs(lo, n - 1); }
  }
}
