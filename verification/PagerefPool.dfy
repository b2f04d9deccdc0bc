/**
 The pool pagerefs come from: sixteen pages of 256 each, with a bitmap of 32-bit words and a
 count of set bits per page. Pageref `256 w + 32 i + j` is bit `j` of word `i` of page `w`.
 */
module PagerefPool {

  const PER_PAGE := 256
  const NPAGES := 16
  const TOTAL := 4096

  /** The number of set bits among the `n` from `lo` on. */
  function CountSet(s: seq<bool>, lo: nat, n: nat): (c: nat)
    requires lo + n <= |s|
    ensures c <= n
  {
    if n == 0 then 0 else CountSet(s, lo, n - 1) + (if s[lo + n - 1] then 1 else 0)
  }

  lemma {:induction false} CountFull(s: seq<bool>, lo: nat, n: nat)
    requires lo + n <= |s|
    ensures CountSet(s, lo, n) == n <==> forall k :: lo <= k < lo + n ==> s[k]
  {
    if n > 0 {
      CountFull(s, lo, n - 1);
    }
  }

  lemma {:induction false} CountUpdate(s: seq<bool>, lo: nat, n: nat, k: nat, b: bool)
    requires lo + n <= |s| && k < |s|
    ensures CountSet(s[k := b], lo, n) ==
      CountSet(s, lo, n) + (if lo <= k < lo + n then (if b then 1 else 0) - (if s[k] then 1 else 0) else 0)
  {
    if n > 0 {
      CountUpdate(s, lo, n - 1, k, b);
    }
  }

  class Pool {
    var inuse: seq<bool>
    var numinuse: seq<nat>
    var page: seq<bool>

    /**
     Every page's count is that of its set bits, and what comes after a page that is not there has
     bits set only if that page has all of its own set.
     */
    ghost predicate Counted()
      reads this
    {
      && |inuse| == TOTAL && |numinuse| == NPAGES && |page| == NPAGES
      && (forall w :: 0 <= w < NPAGES ==> numinuse[w] == CountSet(inuse, PER_PAGE * w, PER_PAGE))
      && forall v, w :: 0 <= v < w < NPAGES && !page[v] && numinuse[v] < PER_PAGE ==> numinuse[w] == 0
    }

    /** What is more, a page that is not there has none. */
    ghost predicate Valid()
      reads this
    {
      Counted() && forall w :: 0 <= w < NPAGES && !page[w] ==> numinuse[w] == 0
    }

    constructor ()
      ensures Valid() && (forall p :: 0 <= p < TOTAL ==> !inuse[p]) && forall w :: 0 <= w < NPAGES ==> !page[w]
    {
      inuse, numinuse, page := seq(TOTAL, p => false), seq(NPAGES, w => 0), seq(NPAGES, w => false);
      new;
      forall w | 0 <= w < NPAGES ensures CountSet(inuse, PER_PAGE * w, PER_PAGE) == 0 {
        CountNone(inuse, PER_PAGE * w, PER_PAGE);
      }
    }

    /** Whether the word of 32 bits from `lo` on has no clear bit. */
    predicate WordFull(lo: nat)
      requires lo + 32 <= |inuse|
      reads this
    {
      forall q :: lo <= q < lo + 32 ==> inuse[q]
    }

    /** Whether pageref `p` is the first that is free. */
    ghost predicate IsFirst(p: int)
      requires |inuse| == TOTAL
      reads this
    {
      0 <= p < TOTAL && !inuse[p] && forall q :: 0 <= q < p ==> inuse[q]
    }

    /** Takes the first free bit, in the first page that has one; -1 if there is none. */
    method Reserve() returns (p: int)
      requires Counted()
      modifies this`inuse, this`numinuse
      ensures Counted()
      ensures p == -1 <==> forall q :: 0 <= q < TOTAL ==> old(inuse)[q]
      ensures p == -1 ==> unchanged(this)
      ensures p != -1 ==> old(IsFirst(p)) && inuse == old(inuse)[p := true]
      ensures p != -1 ==> numinuse == old(numinuse)[p / PER_PAGE := old(numinuse)[p / PER_PAGE] + 1]
    {
      var w := 0;
      while w < NPAGES
        invariant 0 <= w <= NPAGES && Counted() && unchanged(this)
        invariant forall q :: 0 <= q < PER_PAGE * w ==> inuse[q]
        invariant forall v :: 0 <= v < w ==> numinuse[v] == PER_PAGE
      {
        CountFull(inuse, PER_PAGE * w, PER_PAGE);
        if numinuse[w] < PER_PAGE {
          p := ReserveOn(w);
          return;
        }
        w := w + 1;
      }
      p := -1;
    }

    method ReserveOn(w: nat) returns (p: int)
      requires Counted() && w < NPAGES && numinuse[w] < PER_PAGE
      requires forall v :: 0 <= v < w ==> numinuse[v] == PER_PAGE
      modifies this`inuse, this`numinuse
      ensures Counted()
      ensures PER_PAGE * w <= p < PER_PAGE * w + PER_PAGE && p / PER_PAGE == w
      ensures !old(inuse)[p] && inuse == old(inuse)[p := true]
      ensures forall q :: PER_PAGE * w <= q < p ==> old(inuse)[q]
      ensures numinuse == old(numinuse)[w := old(numinuse)[w] + 1]
    {
      var i := 0;
      while i < 8
        invariant 0 <= i <= 8
        invariant forall q :: PER_PAGE * w <= q < PER_PAGE * w + 32 * i ==> inuse[q]
      {
        if !WordFull(PER_PAGE * w + 32 * i) {
          var j := FreeBit(PER_PAGE * w + 32 * i);
          p := PER_PAGE * w + i * 32 + j;
          TakeBit(w, PER_PAGE * w + i * 32 + j);
          return;
        }
        i := i + 1;
      }
      CountFull(inuse, PER_PAGE * w, PER_PAGE);
      assert false;
    }

    /** The position of the first clear bit of a word that is not full. */
    method FreeBit(lo: nat) returns (j: nat)
      requires lo + 32 <= |inuse| && !WordFull(lo)
      ensures j < 32 && !inuse[lo + j]
      ensures forall q :: lo <= q < lo + j ==> inuse[q]
    {
      j := 0;
      while inuse[lo + j]
        invariant 0 <= j < 32
        invariant forall q :: lo <= q < lo + j ==> inuse[q]
        decreases 32 - j
      {
        if j == 31 { assert WordFull(lo); }
        j := j + 1;
      }
    }

    /** Sets the bit and counts it. */
    method TakeBit(w: nat, p: nat)
      requires Counted() && w < NPAGES && PER_PAGE * w <= p < PER_PAGE * w + PER_PAGE && !inuse[p]
      requires numinuse[w] < PER_PAGE && forall v :: 0 <= v < w ==> numinuse[v] == PER_PAGE
      modifies this`inuse, this`numinuse
      ensures Counted() && inuse == old(inuse)[p := true]
      ensures numinuse == old(numinuse)[w := old(numinuse)[w] + 1]
    {
      forall v | 0 <= v < NPAGES
        ensures CountSet(inuse[p := true], PER_PAGE * v, PER_PAGE) ==
          CountSet(inuse, PER_PAGE * v, PER_PAGE) + (if v == w then 1 else 0)
      {
        CountUpdate(inuse, PER_PAGE * v, PER_PAGE, p, true);
      }
      hide CountSet;
      inuse := inuse[p := true];
      numinuse := numinuse[w := numinuse[w] + 1];
    }

    /**
     What follows when the page of a reserved pageref was missing: the lock has been dropped to ask
     for memory, and `supplied` says whether there was any. If others have got the page meanwhile, it
     is theirs that is used. The pageref, or -1 if its page is still missing; its bit stays set.
     */
    method Settle(p: nat, supplied: bool) returns (r: int)
      requires Counted() && p < TOTAL
      modifies this`page
      ensures Counted() && page == if supplied then old(page)[p / PER_PAGE := true] else old(page)
      ensures r == if page[p / PER_PAGE] then p else -1
    {
      if supplied && !page[p / PER_PAGE] {
        page := page[p / PER_PAGE := true];
      }
      r := if page[p / PER_PAGE] then p else -1;
    }

    /**
     The two in a row: takes the first free bit `f`, TOTAL if there is none, and gets its page if
     that is missing. If that fails, the allocation fails and leaves the bit set; just then the pool
     stops being valid.
     */
    method Alloc(supplied: bool) returns (p: int, ghost f: nat)
      requires Counted()
      modifies this
      ensures Counted()
      ensures f <= TOTAL && (forall q :: 0 <= q < f ==> old(inuse)[q]) && (f < TOTAL ==> !old(inuse)[f])
      ensures inuse == if f < TOTAL then old(inuse)[f := true] else old(inuse)
      ensures page == if f < TOTAL && supplied then old(page)[f / PER_PAGE := true] else old(page)
      ensures p == if f < TOTAL && page[f / PER_PAGE] then f else -1
      ensures old(Valid()) ==> (Valid() <==> f == TOTAL || page[f / PER_PAGE])
    {
      p := Reserve();
      if p == -1 {
        return -1, TOTAL;
      }
      f := p;
      if !page[p / PER_PAGE] {
        p := Settle(p, supplied);
      } else {
        assert page == page[p / PER_PAGE := true];
      }
    }

    /** In a valid pool the page of every pageref in use is there. */
    lemma PageIsThere(p: nat)
      requires Valid() && p < TOTAL && inuse[p]
      ensures page[p / PER_PAGE]
    {
      CountNone(inuse, PER_PAGE * (p / PER_PAGE), PER_PAGE);
    }

    /** If a page is missing although a later one has bits set, all of its bits are set. */
    lemma MissingIsFull(w: nat, p: nat)
      requires Counted() && p < TOTAL && inuse[p] && w < p / PER_PAGE && !page[w]
      ensures forall q :: PER_PAGE * w <= q < PER_PAGE * w + PER_PAGE ==> inuse[q]
    {
      CountNone(inuse, PER_PAGE * (p / PER_PAGE), PER_PAGE);
      CountFull(inuse, PER_PAGE * w, PER_PAGE);
    }

    /**
     Gives pageref `p` back: finds its page by comparing offsets, and clears its bit. False if it
     panics instead, on an earlier page that is missing but has bits set.
     */
    method Free(p: nat) returns (ok: bool)
      requires Counted() && p < TOTAL && inuse[p] && page[p / PER_PAGE]
      modifies this`inuse, this`numinuse
      ensures ok <==> forall w :: 0 <= w < p / PER_PAGE ==> page[w]
      ensures Counted() && inuse == if ok then old(inuse)[p := false] else old(inuse)
      ensures old(Valid()) ==> ok && Valid()
    {
      CountNone(inuse, PER_PAGE * (p / PER_PAGE), PER_PAGE);
      var w := 0;
      while w < NPAGES
        invariant 0 <= w <= p / PER_PAGE && unchanged(this)
        invariant forall v :: 0 <= v < w ==> page[v]
        decreases NPAGES - w
      {
        if page[w] {
          var j := p - PER_PAGE * w;
          if j < PER_PAGE {
            ClearBit(w, p);
            return true;
          }
        } else if numinuse[w] != 0 {
          return false;
        }
        w := w + 1;
      }
    }

    method ClearBit(w: nat, p: nat)
      requires Counted() && w < NPAGES && PER_PAGE * w <= p < PER_PAGE * w + PER_PAGE && inuse[p] && page[w]
      modifies this`inuse, this`numinuse
      ensures Counted() && inuse == old(inuse)[p := false]
      ensures old(Valid()) ==> Valid()
    {
      forall v | 0 <= v < NPAGES
        ensures CountSet(inuse[p := false], PER_PAGE * v, PER_PAGE) ==
          CountSet(inuse, PER_PAGE * v, PER_PAGE) - (if v == w then 1 else 0)
      {
        CountUpdate(inuse, PER_PAGE * v, PER_PAGE, p, false);
      }
      hide CountSet;
      inuse := inuse[p := false];
      numinuse := numinuse[w := numinuse[w] - 1];
    }
  }

  /** The panic can be reached: once a whole page of pagerefs is lost, no later one can be given back. */
  method FreePanics() returns (p: int, ok: bool)
    ensures p == PER_PAGE && !ok
  {
    var pool := new Pool();
    var n := 0;
    while n < PER_PAGE
      invariant 0 <= n <= PER_PAGE && pool.Counted() && fresh(pool)
      invariant forall q :: 0 <= q < TOTAL ==> (pool.inuse[q] <==> q < n)
      invariant forall w :: 0 <= w < NPAGES ==> !pool.page[w]
    {
      assert !pool.inuse[n];
      var lost; ghost var at;
      lost, at := pool.Alloc(false);
      n := n + 1;
    }
    assert !pool.inuse[n];
    ghost var f;
    p, f := pool.Alloc(true);
    assert f == PER_PAGE && !pool.page[0];
    ok := pool.Free(p);
  }

  lemma {:induction false} CountNone(s: seq<bool>, lo: nat, n: nat)
    requires lo + n <= |s|
    ensures CountSet(s, lo, n) == 0 <==> forall k :: lo <= k < lo + n ==> !s[k]
  {
    if n > 0 {
      CountNone(s, lo, n - 1);
    }
  }
}
