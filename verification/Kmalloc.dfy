/**
 The kernel heap: subpage allocation from pages of equal-sized blocks, the two lists every
 pageref is on, and whole-page allocation above them. The fields of pageref number `p` are the
 entries at `p` of the maps; -1 is the null pageref pointer.
 */
module Kmalloc {
  import opened LinkedLists
  import opened PagerefPool
  import opened HeapPages
  import opened Multiplication
  import opened SetSizes

  /** A free panics on a misplaced address, or, at its very end, in the pool of pagerefs. */
  datatype FreeResult = Freed | NotOurs | Panicked | PoolPanicked

  /** The per-size lists split `all` by block type, and no two pages overlap. */
  ghost predicate SplitByType(all: seq<int>, same: seq<seq<int>>, pab: map<int, nat>) {
    && |same| == NSIZES
    && (forall p :: p in all ==> p in pab && BlockTypeOf(pab[p]) < NSIZES && p in same[BlockTypeOf(pab[p])])
    && (forall t, p :: 0 <= t < NSIZES && p in same[t] ==> p in all && p in pab && BlockTypeOf(pab[p]) == t)
    && (forall p, q :: p in all && q in all && p != q ==> PageAddr(pab[p]) != PageAddr(pab[q]))
  }

  lemma SplitPush(all: seq<int>, same: seq<seq<int>>, pab: map<int, nat>, pr: int, t: nat, w: nat)
    requires SplitByType(all, same, pab) && pr !in all && t < NSIZES && BlockTypeOf(w) == t
    requires forall p :: p in all ==> PageAddr(pab[p]) != PageAddr(w)
    ensures SplitByType([pr] + all, same[t := [pr] + same[t]], pab[pr := w])
    ensures forall u :: 0 <= u < NSIZES ==> pr !in same[u]
  {
    var same' := same[t := [pr] + same[t]];
    forall u, p | 0 <= u < NSIZES
      ensures p in same'[u] <==> p in same[u] || (u == t && p == pr)
    {
    }
  }

  lemma SplitRemove(all: seq<int>, same: seq<seq<int>>, pab: map<int, nat>,
                    all': seq<int>, same': seq<seq<int>>, pr: int)
    requires SplitByType(all, same, pab) && pr in all && |same'| == NSIZES
    requires RemovedOne(all, all', pr) && RemovedOne(same[BlockTypeOf(pab[pr])], same'[BlockTypeOf(pab[pr])], pr)
    requires forall u :: 0 <= u < NSIZES && u != BlockTypeOf(pab[pr]) ==> same'[u] == same[u]
    ensures SplitByType(all', same', pab)
  {
  }

  lemma InOwnList(all: seq<int>, same: seq<seq<int>>, pab: map<int, nat>, pr: int)
    requires SplitByType(all, same, pab) && pr in all
    ensures BlockTypeOf(pab[pr]) < NSIZES && pr in same[BlockTypeOf(pab[pr])]
  {
  }

  function Lengths(lists: seq<seq<int>>): nat {
    if lists == [] then 0 else Lengths(lists[..|lists| - 1]) + |lists[|lists| - 1]|
  }

  /** The pagerefs of block types below `n`. */
  ghost function OfTypes(all: seq<int>, pab: map<int, nat>, n: nat): set<int> {
    set p | p in all && p in pab && BlockTypeOf(pab[p]) < n
  }

  lemma OfTypesNext(all: seq<int>, same: seq<seq<int>>, pab: map<int, nat>, n: nat)
    requires SplitByType(all, same, pab) && n < NSIZES
    ensures var list := same[n];
      && OfTypes(all, pab, n + 1) == OfTypes(all, pab, n) + (set p | p in list)
      && OfTypes(all, pab, n) !! (set p | p in list)
  {
    var list := same[n];
    forall p ensures p in OfTypes(all, pab, n + 1) <==> p in OfTypes(all, pab, n) || p in list {}
    forall p | p in list ensures p !in OfTypes(all, pab, n) {}
  }

  lemma AllTypes(all: seq<int>, same: seq<seq<int>>, pab: map<int, nat>)
    requires SplitByType(all, same, pab)
    ensures OfTypes(all, pab, NSIZES) == set p | p in all
  {
    forall p ensures p in OfTypes(all, pab, NSIZES) <==> p in all {}
  }

  lemma {:induction false} LengthsOf(all: seq<int>, same: seq<seq<int>>, pab: map<int, nat>, n: nat)
    requires SplitByType(all, same, pab) && n <= NSIZES
    requires forall t :: 0 <= t < NSIZES ==> var list := same[t]; |set p | p in list| == |list|
    ensures Lengths(same[..n]) == |OfTypes(all, pab, n)|
  {
    if n == 0 {
      forall p ensures p !in OfTypes(all, pab, 0) {}
    } else {
      LengthsOf(all, same, pab, n - 1);
      OfTypesNext(all, same, pab, n - 1);
      hide SplitByType, OfTypes;
      assert same[..n][..n - 1] == same[..n - 1];
    }
  }

  lemma SlotsBound(all: seq<int>)
    requires forall p :: p in all ==> 0 <= p < TOTAL
    ensures |set p | p in all| <= TOTAL
  {
    var slots := set p | p in all;
    RangeIs(0, TOTAL);
    forall p | p in slots ensures p in Range(0, TOTAL) {}
    SubsetSize(slots, Range(0, TOTAL));
  }

  lemma SplitDistinct(all: seq<int>, same: seq<seq<int>>, pab: map<int, nat>, t: nat)
    requires SplitByType(all, same, pab) && t < NSIZES
    ensures forall u, p :: 0 <= u < NSIZES && u != t && p in same[t] ==> p !in same[u]
  {
    forall u, p | 0 <= u < NSIZES && u != t && p in same[t]
      ensures p !in same[u]
    {
      assert p in all;
    }
  }

  /** The block at `a` of the page of pageref `p` is out with a client. */
  ghost predicate BlockOut(all: seq<int>, pab: map<int, nat>, free: map<int, seq<int>>, p: int, a: int) {
    && p in all && p in pab && p in free && BlockTypeOf(pab[p]) < NSIZES
    && IsBlock(PageAddr(pab[p]), BlockTypeOf(pab[p]), a) && a !in free[p]
  }

  ghost predicate IsOut(all: seq<int>, pab: map<int, nat>, free: map<int, seq<int>>, a: int) {
    exists p :: BlockOut(all, pab, free, p, a)
  }

  /** The addresses of all blocks out with clients. */
  ghost function Out(all: seq<int>, pab: map<int, nat>, free: map<int, seq<int>>): iset<int> {
    iset a | IsOut(all, pab, free, a)
  }

  ghost predicate HeldIn(all: seq<int>, pab: map<int, nat>, free: map<int, seq<int>>, a: int, sz: nat) {
    exists p :: BlockOut(all, pab, free, p, a) && sz <= SIZES[BlockTypeOf(pab[p])]
  }

  /** A block that stays out keeps its size, since its page stays what it is. */
  lemma HeldStays(all: seq<int>, pab: map<int, nat>, free: map<int, seq<int>>,
                  all': seq<int>, same': seq<seq<int>>, pab': map<int, nat>, free': map<int, seq<int>>, a: int, sz: nat)
    requires HeldIn(all, pab, free, a, sz) && IsOut(all', pab', free', a) && SplitByType(all', same', pab')
    requires forall p :: BlockOut(all, pab, free, p, a) ==> p in all' && p in pab' && pab'[p] == pab[p]
    ensures HeldIn(all', pab', free', a, sz)
  {
    var p :| BlockOut(all, pab, free, p, a) && sz <= SIZES[BlockTypeOf(pab[p])];
    var q :| BlockOut(all', pab', free', q, a);
    BlockOnPage(all, pab, free, p, a);
    BlockOnPage(all', pab', free', q, a);
    hide BlockOut;
    SamePage(all', same', pab', p, q, a);
  }

  lemma BlockOnPage(all: seq<int>, pab: map<int, nat>, free: map<int, seq<int>>, p: int, a: int)
    requires BlockOut(all, pab, free, p, a)
    ensures p in all && p in pab && PageAddr(pab[p]) <= a < PageAddr(pab[p]) + PAGE
  {
  }

  lemma SamePage(all: seq<int>, same: seq<seq<int>>, pab: map<int, nat>, p: int, q: int, a: int)
    requires SplitByType(all, same, pab) && p in all && q in all
    requires PageAddr(pab[p]) <= a < PageAddr(pab[p]) + PAGE && PageAddr(pab[q]) <= a < PageAddr(pab[q]) + PAGE
    ensures p == q
  {
    AlignedPagesApart(PageAddr(pab[p]), PageAddr(pab[q]), a);
  }

  /** Freeing a block drops no page on which another block is out. */
  lemma OtherPageStays(all: seq<int>, pab: map<int, nat>, free: map<int, seq<int>>, all': seq<int>,
                       pr: int, ptr: int, dropped: bool, p: int, a: int)
    requires BlockOut(all, pab, free, p, a) && a != ptr
    requires !dropped ==> all' == all
    requires dropped ==> RemovedOne(all, all', pr) && forall b :: BlockOut(all, pab, free, pr, b) ==> b == ptr
    ensures p in all' && p in pab
  {
  }

  /** Moving block `a` of page `p` onto or off the front of its free list changes just that. */
  lemma OutPushed(all: seq<int>, pab: map<int, nat>, free: map<int, seq<int>>, p: int, a: int, fs: seq<int>)
    requires p in free && forall q :: BlockOut(all, pab, free, q, a) ==> q == p
    requires free[p] == fs || free[p] == [a] + fs
    ensures Out(all, pab, free[p := [a] + fs]) == Out(all, pab, free) - iset{a}
  {
    var free' := free[p := [a] + fs];
    forall q, b ensures BlockOut(all, pab, free', q, b) <==> BlockOut(all, pab, free, q, b) && !(q == p && b == a) {
    }
  }

  /** Whether `a` is the last block out on its page is seen once it is back on the free list. */
  lemma LastPushed(all: seq<int>, pab: map<int, nat>, free: map<int, seq<int>>, free': map<int, seq<int>>,
                   p: int, a: int)
    requires BlockOut(all, pab, free, p, a) && free' == free[p := [a] + free[p]]
    ensures (forall b :: !BlockOut(all, pab, free', p, b)) <==> (forall b :: BlockOut(all, pab, free, p, b) <==> b == a)
  {
    forall b ensures BlockOut(all, pab, free', p, b) <==> BlockOut(all, pab, free, p, b) && b != a {}
  }

  /** A page with nothing out does not matter for what is. */
  lemma OutDropped(all: seq<int>, all': seq<int>, pab: map<int, nat>, free: map<int, seq<int>>, p: int)
    requires forall a :: !BlockOut(all, pab, free, p, a)
    requires forall q :: q in all' <==> q in all && q != p
    ensures Out(all', pab, free) == Out(all, pab, free)
  {
    forall q, b ensures BlockOut(all, pab, free, q, b) <==> BlockOut(all', pab, free, q, b) {}
    OutSame(all, all', pab, pab, free, free);
  }

  lemma OutSame(all: seq<int>, all': seq<int>, pab: map<int, nat>, pab': map<int, nat>,
                free: map<int, seq<int>>, free': map<int, seq<int>>)
    requires forall q, b :: BlockOut(all, pab, free, q, b) <==> BlockOut(all', pab', free', q, b)
    ensures Out(all, pab, free) == Out(all', pab', free')
  {
  }

  /** The pagerefs in use are those on the lists, whose pages are there, and the reserved ones. */
  ghost predicate SlotsAgree(all: seq<int>, reserved: set<int>, inuse: seq<bool>, pages: seq<bool>) {
    && |inuse| == TOTAL && |pages| == NPAGES
    && (forall p :: 0 <= p < TOTAL ==> (inuse[p] <==> p in all || p in reserved))
    && (forall p :: p in all ==> 0 <= p < TOTAL && p !in reserved && pages[p / PER_PAGE])
    && (forall p :: p in reserved ==> 0 <= p < TOTAL)
  }

  lemma SlotsLess(all: seq<int>, all': seq<int>, reserved: set<int>, inuse: seq<bool>, pages: seq<bool>, pr: int)
    requires SlotsAgree(all, reserved, inuse, pages) && RemovedOne(all, all', pr) && pr in all
    ensures SlotsAgree(all', reserved + {pr}, inuse, pages) && SlotsAgree(all', reserved, inuse[pr := false], pages)
  {
    assert forall q :: q in all' <==> q in all && q != pr;
    hide RemovedOne;
  }

  ghost predicate Pages(all: seq<int>, pab: map<int, nat>, offset: map<int, nat>, nfree: map<int, nat>,
                        free: map<int, seq<int>>, mem: map<int, int>)
  {
    forall p :: p in all ==>
      p in pab && p in offset && p in nfree && p in free && PageOk(mem, pab[p], offset[p], nfree[p], free[p])
  }

  lemma PagesFewer(all: seq<int>, all': seq<int>, pab: map<int, nat>, offset: map<int, nat>, nfree: map<int, nat>,
                   free: map<int, seq<int>>, mem: map<int, int>, pr: int)
    requires Pages(all, pab, offset, nfree, free, mem) && RemovedOne(all, all', pr)
    ensures Pages(all', pab, offset, nfree, free, mem)
  {
    hide PageOk;
  }

  // ---------------------------------------------------------------------------------------
  // The words of the heap.
  // ---------------------------------------------------------------------------------------

  predicate SameWord(m: map<int, int>, m': map<int, int>, x: int) {
    (x in m <==> x in m') && (x in m && x in m' ==> m'[x] == m[x])
  }

  /** Nothing is written but in the `n` bytes from `lo` on. */
  ghost predicate Only(m: map<int, int>, m': map<int, int>, lo: int, n: nat) {
    forall x :: !(lo <= x < lo + n) ==> (x in m <==> x in m') && (x in m ==> m'[x] == m[x])
  }

  ghost predicate Filled(m: map<int, int>, a: int, n: nat) {
    forall i: nat :: i < n ==> a + 4 * i in m && m[a + 4 * i] == 0xdeadbeef
  }

  /** All words but the first, which links the block, are overwritten. */
  ghost predicate Cleared(m: map<int, int>, a: int, n: nat) {
    forall i: nat :: 1 <= i < n ==> a + 4 * i in m && m[a + 4 * i] == 0xdeadbeef
  }

  /** Address `x` is in the block at `a`, which is out, of the page of `p`. */
  ghost predicate InBlock(all: seq<int>, pab: map<int, nat>, free: map<int, seq<int>>, p: int, a: int, x: int) {
    BlockOut(all, pab, free, p, a) && a <= x < a + SIZES[BlockTypeOf(pab[p])]
  }

  ghost predicate InSomeBlock(all: seq<int>, pab: map<int, nat>, free: map<int, seq<int>>, x: int) {
    exists p, a :: InBlock(all, pab, free, p, a, x)
  }

  /** No word of a block that is out afterwards is written. */
  ghost predicate Spares(m: map<int, int>, m': map<int, int>,
                         all: seq<int>, pab: map<int, nat>, free: map<int, seq<int>>)
  {
    forall x :: InSomeBlock(all, pab, free, x) ==> SameWord(m, m', x)
  }

  /** What a free writes is in no block that is out afterwards. */
  lemma FreedSpares(all: seq<int>, all': seq<int>, pab: map<int, nat>, free: map<int, seq<int>>,
                    free': map<int, seq<int>>, m: map<int, int>, m': map<int, int>, pr: int, ptr: int)
    requires pr in pab && BlockTypeOf(pab[pr]) < NSIZES && Only(m, m', ptr, SIZES[BlockTypeOf(pab[pr])])
    requires pr in free && free' == free[pr := [ptr] + free[pr]] && forall q :: q in all' ==> q in all
    requires forall p, a, x :: InBlock(all, pab, free, p, a, x) && (p, a) != (pr, ptr) ==>
      !(ptr <= x < ptr + SIZES[BlockTypeOf(pab[pr])])
    ensures Spares(m, m', all', pab, free')
  {
    forall x | InSomeBlock(all', pab, free', x) ensures SameWord(m, m', x) {
      var p, a :| InBlock(all', pab, free', p, a, x);
      assert InBlock(all, pab, free, p, a, x) && (p, a) != (pr, ptr);
    }
  }

  /** What is written on a page that was nobody's is in no block that was out. */
  lemma FreshSpares(all: seq<int>, pab: map<int, nat>, free: map<int, seq<int>>, m: map<int, int>, m': map<int, int>,
                    page: nat)
    requires page % PAGE == 0 && Only(m, m', page, PAGE)
    requires forall p :: p in all && p in pab ==> PageAddr(pab[p]) != page
    ensures Spares(m, m', all, pab, free)
  {
    forall x | InSomeBlock(all, pab, free, x) ensures SameWord(m, m', x) {
      var p, a :| InBlock(all, pab, free, p, a, x);
      BlockFits(PageAddr(pab[p]), BlockTypeOf(pab[p]), a);
      if page <= x < page + PAGE { AlignedPagesApart(PageAddr(pab[p]), page, x); }
    }
  }

  class Heap {
    var sizebases: seq<int>
    var allbase: int
    var nextSame: map<int, int>
    var nextAll: map<int, int>
    var pab: map<int, nat>
    var offset: map<int, nat>
    var nfree: map<int, nat>
    /** The words of the heap: a free block's first is its free-list link, those of a block that is out the client's. */
    var mem: map<int, int>
    const pool: Pool
    ghost var all: seq<int>
    ghost var same: seq<seq<int>>
    ghost var free: map<int, seq<int>>
    /** Pagerefs that are taken and on no list: their page is being asked for, or could not be had. */
    ghost var reserved: set<int>

    constructor ()
      ensures Valid() && fresh(pool) && all == [] && reserved == {}
    {
      sizebases, allbase := seq(NSIZES, t => -1), -1;
      nextSame, nextAll, pab, offset, nfree, mem := map[], map[], map[], map[], map[], map[];
      pool := new Pool();
      all, same, free, reserved := [], seq(NSIZES, t => []), map[], {};
    }

    /** Both kinds of list are lists. */
    ghost predicate Listed()
      reads this
    {
      && IsList(nextAll, -1, allbase, all)
      && |sizebases| == |same| == NSIZES
      && forall t :: 0 <= t < NSIZES ==> IsList(nextSame, -1, sizebases[t], same[t])
    }

    /** Every pageref of `all` describes a well-formed page. */
    ghost predicate PagesOk()
      reads this
    {
      Pages(all, pab, offset, nfree, free, mem)
    }

    ghost predicate Sorted()
      reads this
    {
      SplitByType(all, same, pab)
    }

    ghost predicate PoolAgrees()
      reads this, pool
    {
      pool.Counted() && SlotsAgree(all, reserved, pool.inuse, pool.page)
    }

    ghost predicate Valid()
      reads this, pool
    {
      Listed() && PagesOk() && Sorted() && PoolAgrees()
    }

    ghost predicate LiveOn(p: int, a: int)
      reads this
    {
      BlockOut(all, pab, free, p, a)
    }

    ghost predicate IsLive(a: int)
      reads this
    {
      a in Live()
    }

    ghost function Live(): iset<int>
      reads this
    {
      Out(all, pab, free)
    }

    /** Whether address `a` lies on a heap page. */
    ghost predicate OnPage(p: int, a: int)
      requires PagesOk()
      reads this
    {
      p in all && PageAddr(pab[p]) <= a < PageAddr(pab[p]) + PAGE
    }

    lemma PagesApart(p: int, q: int, a: int)
      requires Valid() && OnPage(p, a) && OnPage(q, a)
      ensures p == q
    {
      AlignedPagesApart(PageAddr(pab[p]), PageAddr(pab[q]), a);
    }

    /** No two blocks out with clients overlap, whatever their sizes. */
    lemma LiveBlocksDisjoint(p: int, a: int, q: int, b: int)
      requires Valid() && LiveOn(p, a) && LiveOn(q, b) && a < b
      ensures a + SIZES[BlockTypeOf(pab[p])] <= b
    {
      var pa, t := PageAddr(pab[p]), BlockTypeOf(pab[p]);
      BlockFits(pa, t, a);
      if p == q {
        SizesDividePage(t);
        BlocksDisjoint(pa, SIZES[t], PAGE / SIZES[t], a, b);
      } else {
        if OnPage(p, b) { PagesApart(p, q, b); }
      }
    }

    /** On every page the blocks out with clients and the free ones add up to all of them. */
    lemma LivePlusFree(p: int)
      requires Valid() && p in all
      ensures |LiveSet(p)| + nfree[p] == PAGE / SIZES[BlockTypeOf(pab[p])]
    {
      FreeCount(mem, pab[p], offset[p], nfree[p], free[p]);
    }

    ghost function LiveSet(p: int): set<int>
      requires PagesOk() && p in all
      reads this
    {
      Blocks(PageAddr(pab[p]), BlockTypeOf(pab[p])) - (set a | a in free[p])
    }

    lemma LiveSetIs(p: int, a: int)
      requires PagesOk() && p in all
      ensures a in LiveSet(p) <==> LiveOn(p, a)
    {
      BlocksAre(PageAddr(pab[p]), BlockTypeOf(pab[p]), a);
    }

    /** The part of allocation that takes the first free block of page `p`. */
    method TakeFrom(p: int) returns (r: int)
      requires Valid() && p in all && nfree[p] > 0
      modifies this
      ensures Valid() && all == old(all) && pab == old(pab) && reserved == old(reserved) && mem == old(mem)
      ensures r !in old(Live()) && LiveOn(p, r) && Live() == old(Live()) + iset{r}
    {
      hide PageOk, IsList, IsBlock, PageAddr, BlockTypeOf, SplitByType, SlotsAgree;
      PopOk(mem, pab[p], offset[p], nfree[p], free[p]);
      ghost var fs := free[p];
      NotLive(p, fs[0]);
      var fla := PageAddr(pab[p]) + offset[p];
      r := fla;
      var fl := mem[fla];
      nfree := nfree[p := nfree[p] - 1];
      if fl != 0 {
        offset := offset[p := fl - PageAddr(pab[p])];
      } else {
        offset := offset[p := INVALID_OFFSET];
      }
      free := free[p := fs[1..]];
      assert fs == [r] + fs[1..];
      assert LiveOn(p, r);
      OnlyLiveHere(p, r);
      OutPushed(all, pab, free, p, r, fs[1..]);
      assert free[p := fs] == old(free);
    }

    lemma FreeIsOnPage(p: int, a: int)
      requires PagesOk() && p in all && a in free[p]
      ensures OnPage(p, a)
    {
    }

    /** A free block of a page is not out with a client from another one. */
    lemma NotLive(p: int, a: int)
      requires Valid() && p in all && a in free[p]
      ensures !IsLive(a)
    {
      hide SplitByType, PageOk;
      forall q ensures !BlockOut(all, pab, free, q, a) {
        if LiveOn(q, a) {
          FreeIsOnPage(p, a);
          PagesApart(p, q, a);
        }
      }
    }

    /** First critical section of subpage_kmalloc: a block from a page that has one free. */
    method FromExistingPage(t: nat) returns (r: int, ghost p: int)
      requires Valid() && t < NSIZES
      modifies this
      ensures Valid() && all == old(all) && pab == old(pab) && reserved == old(reserved) && mem == old(mem)
      ensures r == 0 ==> unchanged(this)
      ensures r != 0 <==> exists q :: q in all && BlockTypeOf(pab[q]) == t && old(nfree)[q] > 0
      ensures r == 0 ==> Live() == old(Live()) && forall q :: q in all && BlockTypeOf(pab[q]) == t ==> nfree[q] == 0
      ensures r != 0 ==> LiveOn(p, r) && BlockTypeOf(pab[p]) == t
      ensures r != 0 ==> r !in old(Live()) && Live() == old(Live()) + iset{r}
    {
      hide PageOk, IsList, IsBlock, PageAddr, BlockTypeOf;
      var pr := sizebases[t];
      ghost var k := 0;
      ListHead(nextSame, -1, pr, same[t]);
      while pr != -1
        invariant unchanged(this) && 0 <= k <= |same[t]| && pr == At(-1, same[t], k)
        invariant forall i :: 0 <= i < k ==> same[t][i] in all && same[t][i] in nfree && nfree[same[t][i]] == 0
        decreases |same[t]| - k
      {
        ListAt(nextSame, -1, sizebases[t], same[t], k);
        assert same[t][k] in same[t];
        if nfree[pr] > 0 {
          r := TakeFrom(pr);
          p := pr;
          PageIsPositive(p, r);
          return;
        }
        pr := nextSame[pr];
        k := k + 1;
      }
      EndOfList(nextSame, -1, sizebases[t], same[t], k);
      r, p := 0, -1;
    }

    lemma PageIsPositive(p: int, a: int)
      requires PagesOk() && LiveOn(p, a)
      ensures a > 0
    {
    }

    /** The free list of a page nobody uses yet: every block links to the one before it. */
    method ThreadPage(page: nat, t: nat) returns (last: int)
      requires t < NSIZES && page > 0
      modifies this`mem
      ensures last == page + (PAGE / SIZES[t] - 1) * SIZES[t]
      ensures IsList(mem, 0, last, Descending(page, SIZES[t], PAGE / SIZES[t]))
      ensures Only(old(mem), mem, page, PAGE)
    {
      SizesDividePage(t);
      var size, n := SIZES[t], PAGE / SIZES[t];
      assert 0 < size && 0 < n && n * size == PAGE;
      var fl := page;
      mem := mem[fl := 0];
      assert Descending(page, size, 1) == [page] + [];
      assert IsList(mem, 0, 0, []);
      assert IsList(mem, 0, page, Descending(page, size, 1));
      var i := 1;
      while i < n
        invariant 1 <= i <= n && fl == page + (i - 1) * size
        invariant IsList(mem, 0, fl, Descending(page, size, i))
        invariant Only(old(mem), mem, page, PAGE)
      {
        ThreadNext(mem, page, size, i, n);
        fl := page + i * size;
        mem := mem[fl := page + (i - 1) * size];
        i := i + 1;
      }
      last := fl;
    }

    ghost predicate IsFreshPage(page: nat)
      requires PagesOk()
      reads this
    {
      page > 0 && page % PAGE == 0 && forall p :: p in all ==> PageAddr(pab[p]) != page
    }

    /** What the second critical section of subpage_kmalloc starts with: a pageref is taken, if one is left. */
    method ReservePageref() returns (pr: int)
      requires Valid()
      modifies `reserved, pool`inuse, pool`numinuse
      ensures Valid()
      ensures pr == -1 <==> forall q :: 0 <= q < TOTAL ==> old(pool.inuse[q])
      ensures pr == -1 ==> reserved == old(reserved) && unchanged(pool)
      ensures pr != -1 ==> old(pool.IsFirst(pr)) && pr !in all
      ensures pr != -1 ==> reserved == old(reserved) + {pr} && pr !in old(reserved)
    {
      hide PageOk, IsList, SplitByType;
      pr := pool.Reserve();
      if pr != -1 {
        reserved := reserved + {pr};
      }
    }

    /** If the pageref's page is missing the lock is dropped to ask for one; this is what follows. */
    method SettlePageref(pr: int, supplied: bool) returns (r: int)
      requires Valid() && pr in reserved
      modifies pool`page
      ensures pool.page == if supplied then old(pool.page)[pr / PER_PAGE := true] else old(pool.page)
      ensures Valid() && r == if old(pool.page[pr / PER_PAGE]) || supplied then pr else -1
      ensures r == pr <==> pool.page[pr / PER_PAGE]
    {
      hide PagesOk, Listed, Sorted;
      r := pool.Settle(pr, supplied);
    }

    /** Then the pageref is filled in for a fresh page, whose free list is threaded, and put at the
        front of both lists. */
    method AddPage(pr: int, t: nat, page: nat)
      requires Valid() && t < NSIZES && IsFreshPage(page) && pr in reserved && pool.page[pr / PER_PAGE]
      modifies this
      ensures Valid() && Live() == old(Live()) && reserved == old(reserved) - {pr}
      ensures pr !in old(all) && all == [pr] + old(all) && pab == old(pab)[pr := MkPab(page, t)]
      ensures nfree[pr] == PAGE / SIZES[t] > 0 && Only(old(mem), mem, page, PAGE)
    {
      hide PageOk, IsList, IsBlock, PageAddr, BlockTypeOf, MkPab, SplitByType;
      SizesDividePage(t);
      InitPage(pr, t, page);
      ghost var pabs := old(pab);
      SplitPush(all, same, pabs, pr, t, MkPab(page, t));
      LinkPage(pr, t);
      reserved := reserved - {pr};
      OutSame(old(all), all, old(pab), pab, old(free), free);
    }

    /** Fills in a pageref for a fresh page, all of whose blocks are free. */
    method InitPage(pr: int, t: nat, page: nat)
      requires PagesOk() && t < NSIZES && IsFreshPage(page) && pr !in all
      modifies this`pab, this`nfree, this`offset, this`mem, this`free
      ensures PagesOk() && pab == old(pab)[pr := MkPab(page, t)]
      ensures PageAddr(pab[pr]) == page && BlockTypeOf(pab[pr]) == t
      ensures pr in offset && pr in nfree && pr in free && PageOk(mem, pab[pr], offset[pr], nfree[pr], free[pr])
      ensures forall a :: IsBlock(page, t, a) ==> a in free[pr]
      ensures forall q :: q in all ==> free[q] == old(free)[q]
      ensures nfree[pr] == PAGE / SIZES[t] && Only(old(mem), mem, page, PAGE)
    {
      hide PageOk, IsList, IsBlock, PageAddr, BlockTypeOf, MkPab;
      PabParts(page, t);
      pab := pab[pr := MkPab(page, t)];
      nfree := nfree[pr := PAGE / SIZES[t]];
      ghost var mem0 := mem;
      var last := ThreadPage(page, t);
      FreshPageOk(mem, page, t);
      offset := offset[pr := last - page];
      free := free[pr := Descending(page, SIZES[t], PAGE / SIZES[t])];
      forall q | q in all
        ensures q in pab && q in offset && q in nfree && q in free && PageOk(mem, pab[q], offset[q], nfree[q], free[q])
      {
        OtherPageKept(mem0, mem, pab[q], offset[q], nfree[q], free[q], page);
      }
    }

    /** Puts a pageref at the front of its two lists. */
    method LinkPage(pr: int, t: nat)
      requires Listed() && t < NSIZES && pr != -1 && pr !in all
      requires forall u :: 0 <= u < NSIZES ==> pr !in same[u]
      modifies this`nextSame, this`sizebases, this`nextAll, this`allbase, this`all, this`same
      ensures Listed() && all == [pr] + old(all) && same == old(same)[t := [pr] + old(same)[t]]
    {
      ListPush(nextSame, -1, sizebases[t], same[t], pr);
      ListPush(nextAll, -1, allbase, all, pr);
      forall u | 0 <= u < NSIZES
        ensures IsList(nextSame[pr := sizebases[t]], -1, sizebases[u], same[u])
      {
        ListFrame(nextSame, nextSame[pr := sizebases[t]], -1, sizebases[u], same[u]);
      }
      hide IsList;
      nextSame := nextSame[pr := sizebases[t]];
      sizebases := sizebases[t := pr];
      nextAll := nextAll[pr := allbase];
      allbase := pr;
      all := [pr] + all;
      same := same[t := [pr] + same[t]];
    }

    /** Unlinks a pageref from one list: `prev` is the cell whose link is being looked at, -1 for
        the list's base. */
    method RemoveFromSame(pr: int, t: nat)
      requires Listed() && t < NSIZES && pr in same[t]
      requires forall u, p :: 0 <= u < NSIZES && u != t && p in same[t] ==> p !in same[u]
      modifies this`nextSame, this`sizebases, this`same
      ensures Listed() && |same| == |old(same)| && forall u :: 0 <= u < NSIZES && u != t ==> same[u] == old(same)[u]
      ensures RemovedOne(old(same)[t], same[t], pr)
    {
      hide IsList;
      ghost var list := same[t];
      ghost var at :| 0 <= at < |list| && list[at] == pr;
      ghost var k := 0;
      var prev, guy := -1, sizebases[t];
      ListHead(nextSame, -1, guy, list);
      while guy != pr
        invariant 0 <= k <= at && guy == At(-1, list, k)
        invariant prev == if k == 0 then -1 else list[k - 1]
        decreases |list| - k
        modifies {}
      {
        ListAt(nextSame, -1, sizebases[t], list, k);
        prev := guy;
        guy := nextSame[guy];
        k := k + 1;
      }
      ListRemove(nextSame, -1, sizebases[t], list, k);
      RemovedAt(nextSame, -1, sizebases[t], list, k);
      forall u | 0 <= u < NSIZES && u != t && k > 0
        ensures IsList(nextSame[prev := nextSame[pr]], -1, sizebases[u], same[u])
      {
        assert prev in list && prev !in same[u];
        ListFrame(nextSame, nextSame[prev := nextSame[pr]], -1, sizebases[u], same[u]);
      }
      if prev == -1 {
        ListNotNil(nextSame, -1, sizebases[t], list, k);
        sizebases := sizebases[t := nextSame[pr]];
        assert list[..0] + list[1..] == list[1..];
      } else {
        nextSame := nextSame[prev := nextSame[pr]];
      }
      same := same[t := list[..k] + list[k + 1..]];
    }

    method RemoveFromAll(pr: int)
      requires Listed() && pr in all
      modifies this`nextAll, this`allbase, this`all
      ensures Listed() && RemovedOne(old(all), all, pr)
    {
      hide IsList;
      ghost var list := all;
      ghost var at :| 0 <= at < |list| && list[at] == pr;
      ghost var k := 0;
      var prev, guy := -1, allbase;
      ListHead(nextAll, -1, guy, list);
      while guy != pr
        invariant 0 <= k <= at && guy == At(-1, list, k)
        invariant prev == if k == 0 then -1 else list[k - 1]
        decreases |list| - k
        modifies {}
      {
        ListAt(nextAll, -1, allbase, list, k);
        prev := guy;
        guy := nextAll[guy];
        k := k + 1;
      }
      ListRemove(nextAll, -1, allbase, list, k);
      RemovedAt(nextAll, -1, allbase, list, k);
      if prev == -1 {
        ListNotNil(nextAll, -1, allbase, list, k);
        allbase := nextAll[pr];
        assert list[..0] + list[1..] == list[1..];
      } else {
        nextAll := nextAll[prev := nextAll[pr]];
      }
      all := list[..k] + list[k + 1..];
    }

    /** Overwrites the words of a block. */
    method Fill(a: int, len: nat)
      requires len % 4 == 0
      modifies this`mem
      ensures Only(old(mem), mem, a, len) && Filled(mem, a, len / 4)
    {
      var i := 0;
      while i < len / 4
        invariant 0 <= i <= len / 4 && Only(old(mem), mem, a, len) && Filled(mem, a, i)
      {
        mem := mem[a + 4 * i := 0xdeadbeef];
        i := i + 1;
      }
    }

    /** Overwrites a freed block, then links it before the head of its page's free list. */
    method LinkBlock(pr: int, a: int)
      requires Valid() && LiveOn(pr, a)
      modifies this`mem
      ensures a >= PageAddr(pab[pr])
      ensures Pages(all, pab, offset[pr := a - PageAddr(pab[pr])], nfree[pr := nfree[pr] + 1],
                    free[pr := [a] + free[pr]], mem)
      ensures Only(old(mem), mem, a, SIZES[BlockTypeOf(pab[pr])])
      ensures Cleared(mem, a, SIZES[BlockTypeOf(pab[pr])] / 4)
    {
      hide PageOk, IsList, IsBlock, PageAddr, BlockTypeOf, SplitByType, SlotsAgree;
      TypeInRange(pr);
      SizesAreWords(BlockTypeOf(pab[pr]));
      ghost var mem0 := mem;
      forall q, f | q in all && f in free[q] ensures !(a <= f < a + SIZES[BlockTypeOf(pab[pr])]) {
        if a <= f < a + SIZES[BlockTypeOf(pab[pr])] { InsideIsNotFree(pr, a, f, q); }
      }
      Fill(a, SIZES[BlockTypeOf(pab[pr])]);
      forall q | q in all
        ensures PageOk(mem, pab[q], offset[q], nfree[q], free[q])
      {
        PageFrame(mem0, mem, pab[q], offset[q], nfree[q], free[q]);
      }
      ghost var mem1 := mem;
      PushOk(mem, pab[pr], offset[pr], nfree[pr], free[pr], a);
      if offset[pr] == INVALID_OFFSET {
        mem := mem[a := 0];
      } else {
        mem := mem[a := PageAddr(pab[pr]) + offset[pr]];
      }
      assert mem == mem1[a := Head(pab[pr], offset[pr])];
      forall q | q in all && q != pr
        ensures PageOk(mem, pab[q], offset[q], nfree[q], free[q])
      {
        PageFrame(mem1, mem, pab[q], offset[q], nfree[q], free[q]);
      }
    }

    /** Puts the block at `a` back on its page's free list. */
    method PushFree(pr: int, a: int)
      requires Valid() && LiveOn(pr, a)
      modifies this
      ensures Valid() && all == old(all) && same == old(same) && pab == old(pab) && reserved == old(reserved)
      ensures Live() == old(Live()) - iset{a}
      ensures nfree == old(nfree)[pr := old(nfree)[pr] + 1]
      ensures free == old(free)[pr := [a] + old(free)[pr]]
      ensures Only(old(mem), mem, a, SIZES[BlockTypeOf(pab[pr])])
      ensures Cleared(mem, a, SIZES[BlockTypeOf(pab[pr])] / 4)
    {
      hide PageOk, IsList, IsBlock, PageAddr, BlockTypeOf, SplitByType, SlotsAgree;
      Described(pr);
      OnlyLiveHere(pr, a);
      hide Pages, Only, Cleared;
      LinkBlock(pr, a);
      offset := offset[pr := a - PageAddr(pab[pr])];
      nfree := nfree[pr := nfree[pr] + 1];
      free := free[pr := [a] + free[pr]];
      OutPushed(all, pab, old(free), pr, a, old(free)[pr]);
    }

    lemma Described(pr: int)
      requires PagesOk() && pr in all
      ensures pr in pab && pr in offset && pr in nfree && pr in free
    {
    }

    lemma OnlyLiveHere(p: int, a: int)
      requires Valid() && LiveOn(p, a)
      ensures forall q :: BlockOut(all, pab, free, q, a) ==> q == p
    {
      forall q | BlockOut(all, pab, free, q, a) ensures q == p {
        PagesApart(p, q, a);
      }
    }

    /** Whether the pages of all earlier pagerefs are there. */
    ghost predicate EarlierThere(pr: int)
      reads pool
    {
      !Lost(pool.page, pr)
    }

    /** Takes a pageref off both of its lists. */
    method Unlink(pr: int)
      requires Listed() && Sorted() && pr in all
      modifies `nextSame, `sizebases, `same, `nextAll, `allbase, `all
      ensures Listed() && Sorted() && RemovedOne(old(all), all, pr)
    {
      hide IsList, BlockTypeOf, PageAddr;
      InOwnList(all, same, pab, pr);
      SplitDistinct(all, same, pab, BlockTypeOf(pab[pr]));
      hide SplitByType, RemovedOne;
      RemoveFromSame(pr, BlockTypeOf(pab[pr]));
      RemoveFromAll(pr);
      SplitRemove(old(all), old(same), pab, all, same, pr);
    }

    lemma SlotOf(pr: int)
      requires Valid() && pr in all
      ensures 0 <= pr < TOTAL && pool.inuse[pr] && pool.page[pr / PER_PAGE]
    {
    }

    /** Gives a pageref back that is on no list any more; if the pool panics, it stays in use. */
    method GivePageref(pr: int) returns (ok: bool)
      requires pool.Counted() && 0 <= pr < TOTAL && pool.inuse[pr] && pool.page[pr / PER_PAGE]
      requires SlotsAgree(all, reserved + {pr}, pool.inuse, pool.page)
      requires SlotsAgree(all, reserved, pool.inuse[pr := false], pool.page)
      modifies `reserved, pool`inuse, pool`numinuse
      ensures PoolAgrees() && (ok <==> old(EarlierThere(pr)))
      ensures reserved == if ok then old(reserved) else old(reserved) + {pr}
    {
      hide SlotsAgree;
      ok := pool.Free(pr);
      if !ok {
        reserved := reserved + {pr};
      }
    }

    /** Takes a page without live blocks off both lists and gives its pageref back, if the pool can. */
    method DropPage(pr: int) returns (ok: bool)
      requires Valid() && pr in all && nfree[pr] == PAGE / SIZES[BlockTypeOf(pab[pr])]
      modifies `nextSame, `sizebases, `same, `nextAll, `allbase, `all, `reserved, pool`inuse, pool`numinuse
      ensures Valid() && RemovedOne(old(all), all, pr) && Live() == old(Live())
      ensures ok <==> old(EarlierThere(pr))
      ensures reserved == if ok then old(reserved) else old(reserved) + {pr}
    {
      NothingLive(pr);
      SlotOf(pr);
      hide PageOk, IsList, IsBlock, PageAddr, BlockTypeOf, SplitByType, Out, BlockOut, SlotsAgree, Lost;
      Unlink(pr);
      OutDropped(old(all), all, pab, free, pr);
      SlotsLess(old(all), all, reserved, pool.inuse, pool.page, pr);
      PagesFewer(old(all), all, pab, offset, nfree, free, mem, pr);
      hide RemovedOne, Pages;
      ok := GivePageref(pr);
    }

    lemma LastIsLive(p: int, ptr: int)
      requires Valid() && IsLast(p, ptr)
      ensures LiveOn(p, ptr) && IsLive(ptr) && forall q :: LiveOn(q, ptr) ==> q == p
    {
      assert LiveOn(p, ptr);
      OnlyLiveHere(p, ptr);
    }

    /** If no page of pagerefs is missing wholesale, nothing panics. */
    lemma FewReserved(p: int)
      requires Valid() && p in all && |reserved| < PER_PAGE
      ensures EarlierThere(p)
    {
      hide PagesOk, Listed, Sorted;
      if w :| 0 <= w < p / PER_PAGE && !pool.page[w] {
        pool.MissingIsFull(w, p);
        var lost := Range(PER_PAGE * w, PER_PAGE);
        RangeIs(PER_PAGE * w, PER_PAGE);
        forall q | q in lost ensures q in reserved { assert q / PER_PAGE == w && pool.inuse[q]; }
        SubsetSize(lost, reserved);
      }
    }

    /** With no pageref reserved, the pool has no bit set on a page that is missing. */
    lemma NoneReserved()
      requires Valid() && reserved == {}
      ensures pool.Valid()
    {
      hide PagesOk, Listed, Sorted;
      forall w | 0 <= w < NPAGES && !pool.page[w] ensures pool.numinuse[w] == 0 {
        forall q | PER_PAGE * w <= q < PER_PAGE * w + PER_PAGE ensures !pool.inuse[q] { assert q / PER_PAGE == w; }
        CountNone(pool.inuse, PER_PAGE * w, PER_PAGE);
      }
    }

    /** A page is wholly free exactly when none of its blocks is out. */
    lemma NothingLive(p: int)
      requires Valid() && p in all
      ensures nfree[p] == PAGE / SIZES[BlockTypeOf(pab[p])] <==> forall a :: !BlockOut(all, pab, free, p, a)
    {
      LivePlusFree(p);
      if nfree[p] == PAGE / SIZES[BlockTypeOf(pab[p])] {
        forall a ensures !BlockOut(all, pab, free, p, a) { LiveSetIs(p, a); }
      }
      if forall a :: !BlockOut(all, pab, free, p, a) {
        forall a ensures a !in LiveSet(p) { LiveSetIs(p, a); }
        assert LiveSet(p) == {};
      }
    }

    /** Searches all pages for the one `ptr` lies on. */
    method FindPage(ptr: int) returns (pr: int)
      requires Valid()
      ensures pr == -1 <==> forall p :: !OnPage(p, ptr)
      ensures pr != -1 ==> OnPage(pr, ptr)
    {
      hide PageOk, IsList, PageAddr, BlockTypeOf, SplitByType;
      pr := allbase;
      ghost var k := 0;
      ListHead(nextAll, -1, pr, all);
      while pr != -1
        invariant 0 <= k <= |all| && pr == At(-1, all, k)
        invariant forall i :: 0 <= i < k ==> !OnPage(all[i], ptr)
        decreases |all| - k
      {
        ListAt(nextAll, -1, allbase, all, k);
        assert all[k] in all;
        if ptr >= PageAddr(pab[pr]) && ptr < PageAddr(pab[pr]) + PAGE {
          assert OnPage(pr, ptr) && pr != -1;
          return;
        }
        pr := nextAll[pr];
        k := k + 1;
      }
      EndOfList(nextAll, -1, allbase, all, k);
      forall p ensures !OnPage(p, ptr) {
        if p in all {
          var i :| 0 <= i < |all| && all[i] == p;
        }
      }
    }

    /** Whether `ptr` is the one block out on the page of `pr`. */
    ghost predicate IsLast(pr: int, ptr: int)
      reads this, pool
    {
      LastOn(Now(), pr, ptr)
    }

    /** Frees a block. `page` is the page that goes back to the system, 0 if none does: that
        happens exactly when the block was the last one out on its page, and the pool does not panic. */
    method SubpageFree(ptr: int) returns (r: FreeResult, page: nat, ghost pr: int)
      requires Valid() && forall p :: p in all ==> ptr !in free[p]
      modifies this, pool`inuse, pool`numinuse
      ensures Valid()
      ensures r == NotOurs <==> forall p :: !old(OnPage(p, ptr))
      ensures r in {Freed, PoolPanicked} <==> old(IsLive(ptr))
      ensures r !in {Freed, PoolPanicked} ==> page == 0 && unchanged(this) && unchanged(pool)
      ensures r in {Freed, PoolPanicked} ==> old(LiveOn(pr, ptr)) && Live() == old(Live()) - iset{ptr}
      ensures r in {Freed, PoolPanicked} ==>
        if old(IsLast(pr, ptr)) then RemovedOne(old(all), all, pr) else all == old(all)
      ensures r == PoolPanicked <==> old(IsLive(ptr) && LiveOn(pr, ptr) && IsLast(pr, ptr) && !EarlierThere(pr))
      ensures r == Freed ==> (page != 0 <==> old(IsLast(pr, ptr))) && (page != 0 ==> page == old(PageAddr(pab[pr])))
      ensures reserved == if r == PoolPanicked then old(reserved) + {pr} else old(reserved)
      ensures pab == old(pab)
      ensures r in {Freed, PoolPanicked} ==> Only(old(mem), mem, ptr, SIZES[BlockTypeOf(pab[pr])])
      ensures r in {Freed, PoolPanicked} ==> Cleared(mem, ptr, SIZES[BlockTypeOf(pab[pr])] / 4)
      ensures Spares(old(mem), mem, all, pab, free)
    {
      hide PageOk, IsList, PageAddr, BlockTypeOf, SplitByType;
      page := 0;
      var p := FindPage(ptr);
      pr := p;
      if p == -1 {
        forall q ensures !old(OnPage(q, ptr)) && !BlockOut(all, pab, free, q, ptr) {
          assert !OnPage(q, ptr);
        }
        return NotOurs, 0, -1;
      }
      TypeInRange(p);
      if (ptr - PageAddr(pab[p])) % SIZES[BlockTypeOf(pab[p])] != 0 {
        forall q ensures !BlockOut(all, pab, free, q, ptr) {
          if LiveOn(q, ptr) { PagesApart(p, q, ptr); }
        }
        assert old(OnPage(p, ptr));
        return Panicked, 0, p;
      }
      assert LiveOn(p, ptr);
      assert IsLive(ptr);
      r, page := FreeOn(p, ptr);
    }

    /** The rest of a free, once the page has been found. */
    method FreeOn(pr: int, ptr: int) returns (r: FreeResult, page: nat)
      requires Valid() && LiveOn(pr, ptr)
      modifies this, pool`inuse, pool`numinuse
      ensures Valid() && Live() == old(Live()) - iset{ptr} && pab == old(pab)
      ensures r == if old(IsLast(pr, ptr) && !EarlierThere(pr)) then PoolPanicked else Freed
      ensures if old(IsLast(pr, ptr)) then RemovedOne(old(all), all, pr) else all == old(all)
      ensures page == if r == Freed && old(IsLast(pr, ptr)) then old(PageAddr(pab[pr])) else 0
      ensures old(PageAddr(pab[pr])) > 0
      ensures Only(old(mem), mem, ptr, SIZES[BlockTypeOf(pab[pr])])
      ensures Cleared(mem, ptr, SIZES[BlockTypeOf(pab[pr])] / 4)
      ensures Spares(old(mem), mem, all, pab, free)
      ensures reserved == if r == PoolPanicked then old(reserved) + {pr} else old(reserved)
    {
      hide PageOk, IsList, PageAddr, BlockTypeOf, SplitByType;
      PageAddressIsPositive(pr);
      LastPushed(all, pab, free, free[pr := [ptr] + free[pr]], pr, ptr);
      WordsApart(pr, ptr);
      ghost var free0 := free;
      hide RemovedOne, Out, IsBlock, Lost, Only, Cleared;
      r, page := Freed, 0;
      PushFree(pr, ptr);
      NothingLive(pr);
      hide BlockOut;
      if nfree[pr] == PAGE / SIZES[BlockTypeOf(pab[pr])] {
        var ok := DropPage(pr);
        if ok {
          page := PageAddr(pab[pr]);
        } else {
          r := PoolPanicked;
        }
      }
      FreedSpares(old(all), all, pab, free0, free, old(mem), mem, pr, ptr);
    }

    /** No other block that is out has a word in the block at `ptr`. */
    lemma WordsApart(pr: int, ptr: int)
      requires Valid() && LiveOn(pr, ptr)
      ensures forall p, a, x :: InBlock(all, pab, free, p, a, x) && (p, a) != (pr, ptr) ==>
        !(ptr <= x < ptr + SIZES[BlockTypeOf(pab[pr])])
    {
      forall p, a, x | InBlock(all, pab, free, p, a, x) && (p, a) != (pr, ptr)
        ensures !(ptr <= x < ptr + SIZES[BlockTypeOf(pab[pr])])
      {
        hide SplitByType;
        if a < ptr {
          LiveBlocksDisjoint(p, a, pr, ptr);
        } else if ptr < a {
          LiveBlocksDisjoint(pr, ptr, p, a);
        } else {
          OnlyLiveHere(pr, ptr);
        }
      }
    }

    lemma TypeInRange(p: int)
      requires PagesOk() && p in all
      ensures BlockTypeOf(pab[p]) < NSIZES && SIZES[BlockTypeOf(pab[p])] > 0
    {
      SizesDividePage(BlockTypeOf(pab[p]));
    }

    lemma PageAddressIsPositive(p: int)
      requires PagesOk() && p in all
      ensures PageAddr(pab[p]) > 0
    {
    }

    /** An address in a block that is out is no free block's. */
    lemma InsideIsNotFree(p: int, a: int, x: int, q: int)
      requires Valid() && LiveOn(p, a) && a <= x < a + SIZES[BlockTypeOf(pab[p])] && q in all
      ensures x !in free[q]
    {
      if x in free[q] {
        FreeIsOnPage(q, x);
        BlockFits(PageAddr(pab[p]), BlockTypeOf(pab[p]), a);
        PagesApart(p, q, x);
        if a < x {
          SizesDividePage(BlockTypeOf(pab[p]));
          BlocksDisjoint(PageAddr(pab[p]), SIZES[BlockTypeOf(pab[p])], PAGE / SIZES[BlockTypeOf(pab[p])], a, x);
        }
      }
    }

    /** A client may put anything anywhere into a block it holds. */
    method ClientWrite(ghost p: int, ghost a: int, x: int, value: int)
      requires Valid() && LiveOn(p, a) && a <= x < a + SIZES[BlockTypeOf(pab[p])]
      modifies this`mem
      ensures Valid() && Live() == old(Live()) && mem == old(mem)[x := value]
    {
      hide PageOk, IsList, PageAddr, BlockTypeOf, IsBlock, SplitByType;
      forall q | q in all
        ensures PageOk(mem[x := value], pab[q], offset[q], nfree[q], free[q])
      {
        InsideIsNotFree(p, a, x, q);
        PageFrame(mem, mem[x := value], pab[q], offset[q], nfree[q], free[q]);
      }
      mem := mem[x := value];
    }

    /** Whether a pageref is left, and its page is there or can be had. */
    ghost predicate PagerefLeft(supplied: bool)
      requires Valid()
      reads this, pool
    {
      exists f :: pool.IsFirst(f) && (pool.page[f / PER_PAGE] || supplied)
    }

    /**
     The critical sections of one allocation, with the page the system supplies in between, 0 for
     none, and `refs` saying whether it supplies one for pagerefs if that is missing. The result is 0
     exactly when neither section could serve the request.
     */
    method SubpageKmalloc(sz: nat, supply: nat, refs: bool) returns (r: int, ghost p: int)
      requires Valid() && sz <= 2048 && (supply == 0 || IsFreshPage(supply))
      modifies this, pool
      ensures Valid()
      ensures r == 0 <==> !old(CanServe(sz)) && (supply == 0 || !old(PagerefLeft(refs)))
      ensures r == 0 ==> Live() == old(Live()) && all == old(all)
      ensures if supply == 0 then mem == old(mem) else Only(old(mem), mem, supply, PAGE)
      ensures r != 0 ==> LiveOn(p, r) && SmallestFit(sz, BlockTypeOf(pab[p]))
      ensures r != 0 ==> r !in old(Live()) && Live() == old(Live()) + iset{r}
      ensures (all == old(all) && pab == old(pab)) ||
        (supply > 0 && p !in old(all) && all == [p] + old(all) && pab.Keys >= old(pab).Keys &&
         PageAddr(pab[p]) == supply && forall q :: q in old(all) ==> pab[q] == old(pab)[q])
    {
      hide PageOk, IsList, IsBlock, PageAddr, MkPab, SplitByType;
      var blktype := BlockType(sz);
      OneFit(sz, blktype);
      r, p := FromExistingPage(blktype);
      if r != 0 {
        return;
      }
      if supply == 0 {
        return 0, -1;
      }
      PabParts(supply, blktype);
      r, p := FromNewPage(blktype, supply, refs);
    }

    /** The second critical section, and the third if the lock has to be dropped, with nobody in between. */
    method FromNewPage(t: nat, page: nat, refs: bool) returns (r: int, ghost p: int)
      requires Valid() && t < NSIZES && IsFreshPage(page)
      modifies this, pool
      ensures Valid()
      ensures r == 0 <==> !old(PagerefLeft(refs))
      ensures r == 0 ==> Live() == old(Live()) && all == old(all) && pab == old(pab)
      ensures r != 0 ==> LiveOn(p, r) && BlockTypeOf(pab[p]) == t
      ensures r != 0 ==> r !in old(Live()) && Live() == old(Live()) + iset{r}
      ensures r != 0 ==> p !in old(all) && all == [p] + old(all) && pab == old(pab)[p := MkPab(page, t)]
      ensures Only(old(mem), mem, page, PAGE)
    {
      hide PageOk, IsList, IsBlock, PageAddr, MkPab, SplitByType;
      var pr, waits;
      r, pr, waits := StartPage(t, page);
      p := pr;
      if waits {
        r := FinishPage(pr, t, page, refs);
      }
    }

    /** The second critical section, up to where it drops the lock, if it does. */
    method StartPage(t: nat, page: nat) returns (r: int, pr: int, waits: bool)
      requires Valid() && t < NSIZES && IsFreshPage(page)
      modifies this, pool`inuse, pool`numinuse
      ensures Valid()
      ensures pr == -1 <==> forall q :: 0 <= q < TOTAL ==> old(pool.inuse[q])
      ensures pr == -1 ==> unchanged(pool)
      ensures pr != -1 ==> old(pool.IsFirst(pr)) && pr !in old(all) && pr !in old(reserved)
      ensures waits <==> pr != -1 && !pool.page[pr / PER_PAGE]
      ensures pr == -1 || waits ==> r == 0 && Live() == old(Live()) && all == old(all) && pab == old(pab)
      ensures pr == -1 || waits ==> free == old(free) && mem == old(mem)
      ensures pr == -1 || waits ==> reserved == old(reserved) + if waits then {pr} else {}
      ensures Only(old(mem), mem, page, PAGE)
      ensures pr != -1 && !waits ==> Got(r, pr, t) && reserved == old(reserved)
      ensures pr != -1 && !waits ==> r !in old(Live()) && Live() == old(Live()) + iset{r}
      ensures pr != -1 && !waits ==> all == [pr] + old(all) && pab == old(pab)[pr := MkPab(page, t)]
    {
      hide PageOk, IsList, IsBlock, PageAddr, MkPab, SplitByType, BlockTypeOf;
      r, waits := 0, false;
      pr := ReservePageref();
      if pr != -1 {
        if !pool.page[pr / PER_PAGE] {
          waits := true;
        } else {
          r := UsePageref(pr, t, page);
        }
      }
    }

    /** What follows once the lock has been taken again, with the answer of the system. */
    method FinishPage(pr: int, t: nat, page: nat, supplied: bool) returns (r: int)
      requires Valid() && t < NSIZES && IsFreshPage(page) && pr in reserved
      modifies this, pool`page
      ensures Valid() && pr !in old(all)
      ensures pool.page == if supplied then old(pool.page)[pr / PER_PAGE := true] else old(pool.page)
      ensures r == 0 <==> !(old(pool.page[pr / PER_PAGE]) || supplied)
      ensures r == 0 ==> Live() == old(Live()) && all == old(all) && pab == old(pab) && free == old(free)
      ensures r == 0 ==> reserved == old(reserved) && mem == old(mem)
      ensures r != 0 ==> Got(r, pr, t) && reserved == old(reserved) - {pr}
      ensures Only(old(mem), mem, page, PAGE)
      ensures r != 0 ==> r !in old(Live()) && Live() == old(Live()) + iset{r}
      ensures r != 0 ==> all == [pr] + old(all) && pab == old(pab)[pr := MkPab(page, t)]
    {
      hide PageOk, IsList, IsBlock, PageAddr, MkPab, SplitByType, BlockTypeOf;
      var s := SettlePageref(pr, supplied);
      r := 0;
      if s != -1 {
        r := UsePageref(pr, t, page);
      }
    }

    /** Block `r`, of type `t`, is out on the page of `p`. */
    ghost predicate Got(r: int, p: int, t: nat)
      reads this
    {
      r > 0 && LiveOn(p, r) && BlockTypeOf(pab[p]) == t
    }

    /** The end of the second section: the pageref gets the page, and the caller a block of it. */
    method UsePageref(pr: int, t: nat, page: nat) returns (r: int)
      requires Valid() && t < NSIZES && IsFreshPage(page) && pr in reserved && pool.page[pr / PER_PAGE]
      modifies this
      ensures Valid() && Got(r, pr, t) && pr !in old(all)
      ensures r !in old(Live()) && Live() == old(Live()) + iset{r} && reserved == old(reserved) - {pr}
      ensures all == [pr] + old(all) && pab == old(pab)[pr := MkPab(page, t)] && Only(old(mem), mem, page, PAGE)
    {
      hide PageOk, IsList, IsBlock, PageAddr, MkPab, SplitByType, BlockTypeOf, Only;
      PabParts(page, t);
      AddPage(pr, t, page);
      r := TakeFrom(pr);
      PageIsPositive(pr, r);
    }

    /** A page of the size that fits `sz` bytes has a free block. */
    ghost predicate CanServe(sz: nat)
      requires Valid()
      reads this, pool
    {
      exists p :: p in all && SmallestFit(sz, BlockTypeOf(pab[p])) && nfree[p] > 0
    }

    lemma SoundNow()
      requires Valid()
      ensures Sound(Now())
    {
    }

    /** What the heap is now. */
    ghost function Now(): View
      reads this, pool
    {
      View(all, pab, free, reserved, pool.inuse, pool.page, mem)
    }

    lemma FitsOldIs(sz: nat, t: nat)
      requires Valid() && SmallestFit(sz, t)
      ensures (exists p :: FitsOld(Now(), sz, p)) <==> exists q :: q in all && BlockTypeOf(pab[q]) == t && nfree[q] > 0
    {
      OneFit(sz, t);
      hide SmallestFit, BlockTypeOf;
      forall q | q in all && BlockTypeOf(pab[q]) == t ensures FitsOld(Now(), sz, q) <==> nfree[q] > 0 {}
    }

    lemma FreshIs(page: nat)
      requires Valid()
      ensures IsFreshPage(page) <==> Fresh(Now(), page)
    {
    }

    lemma IsHeld(p: int, a: int, sz: nat)
      requires PagesOk() && LiveOn(p, a) && SmallestFit(sz, BlockTypeOf(pab[p]))
      ensures HeldIn(all, pab, free, a, sz)
    {
    }

    /** An aligned page is fresh if and only if it does not lie on a heap page. */
    lemma NobodysIsFresh(page: nat)
      requires Valid() && page > 0 && page % PAGE == 0
      ensures IsFreshPage(page) <==> forall p :: !OnPage(p, page)
    {
      forall p | p in all ensures PageAddr(pab[p]) == page <==> OnPage(p, page) {
        if OnPage(p, page) { AlignedPagesApart(PageAddr(pab[p]), page, page); }
      }
    }

    lemma LiveIsNotFree(a: int)
      requires Valid() && IsLive(a)
      ensures forall p :: p in all ==> a !in free[p]
    {
      forall p | p in all ensures a !in free[p] {
        if a in free[p] { NotLive(p, a); }
      }
    }

    ghost function LiveBytes(s: seq<int>): nat
      requires PagesOk() && forall p :: p in s ==> p in all
      reads this
    {
      if s == [] then 0 else assert s[|s| - 1] in s; LiveBytes(s[..|s| - 1]) + BytesOn(s[|s| - 1])
    }

    ghost function BytesOn(p: int): nat
      requires PagesOk() && p in all
      reads this
    {
      SIZES[BlockTypeOf(pab[p])] * |LiveSet(p)|
    }

    /** The lists by size hold as many pagerefs as the list of all, and no more than there are. */
    lemma ListLengths()
      requires Valid()
      ensures Lengths(same) == |all| <= TOTAL
    {
      hide PagesOk, IsList;
      forall t | 0 <= t < NSIZES ensures var list := same[t]; |set p | p in list| == |list| {
        ListCount(nextSame, -1, sizebases[t], same[t]);
      }
      ListCount(nextAll, -1, allbase, all);
      LengthsOf(all, same, pab, NSIZES);
      assert same[..NSIZES] == same;
      AllTypes(all, same, pab);
      SlotsBound(all);
    }

    lemma ListEnds()
      requires Valid()
      ensures allbase == At(-1, all, 0)
    {
      ListHead(nextAll, -1, allbase, all);
    }

    lemma OnList(k: nat)
      requires Valid() && k < |all|
      ensures all[k] in nextAll && all[k] != -1 && nextAll[all[k]] == At(-1, all, k + 1)
      ensures LiveBytes(all[..k + 1]) == LiveBytes(all[..k]) + BytesOn(all[k])
    {
      hide BytesOn;
      ListAt(nextAll, -1, allbase, all, k);
      assert all[..k + 1][..k] == all[..k];
    }

    /** The bytes out with clients on one page, from the number of its free blocks. */
    method SubpageStats(pr: int) returns (used: int)
      requires Valid() && pr in all
      ensures used == BytesOn(pr)
    {
      TypeInRange(pr);
      LivePlusFree(pr);
      hide LiveSet;
      var blktype := BlockTypeOf(pab[pr]);
      var n := PAGE / SIZES[blktype];
      used := SIZES[blktype] * (n - nfree[pr]);
    }

    /** The used bytes: on the heap pages those of the blocks out with clients, plus whatever the
        coremap counts beyond the heap pages themselves. */
    method GetUsed(coremapBytes: nat) returns (total: int)
      requires Valid()
      ensures total == LiveBytes(all) + (if coremapBytes > 0 then coremapBytes - |all| * PAGE else 0)
    {
      ListEnds();
      assert LiveBytes(all[..0]) == 0 && all[..|all|] == all;
      hide Listed, PagesOk, Sorted, PoolAgrees, LiveBytes, BytesOn;
      total := 0;
      var numPages := 0;
      var pr := allbase;
      while pr != -1
        invariant 0 <= numPages <= |all| && pr == At(-1, all, numPages)
        invariant total == LiveBytes(all[..numPages])
        decreases |all| - numPages
      {
        OnList(numPages);
        var used := SubpageStats(pr);
        total := total + used;
        pr := nextAll[pr];
        numPages := numPages + 1;
      }
      if numPages < |all| { OnList(numPages); }
      if coremapBytes > 0 {
        total := total + coremapBytes - numPages * PAGE;
      }
    }
  }

  // ---------------------------------------------------------------------------------------
  // The critical sections of any number of callers, in any order.
  // ---------------------------------------------------------------------------------------

  /**
   One critical section on behalf of some caller: the first of an allocation, the second with the
   page supplied for it, its end after the lock was dropped to ask for a page of pagerefs, a free of
   the `k`-th block that is out, or a write into it.
   */
  datatype Section =
    | TryOldPage(sz: nat)
    | TryNewPage(sz: nat, page: nat)
    | Resume(k: nat, supplied: bool)
    | FreeBlock(k: nat)
    | WriteTo(k: nat, offset: nat, value: int)

  /** What came of a section: nothing, a block, the lock dropped to wait, done, or a panic in the pool. */
  datatype Result = Nothing | Gets(addr: int) | Waits(pr: int) | Done | Panics

  /** A block out with a caller, and what the caller asked for. */
  datatype Block = Block(addr: int, sz: nat)

  /** A caller that waits for a page of pagerefs, with its pageref and the page for its blocks. */
  datatype Waiting = Waiting(pr: int, sz: nat, page: nat)

  datatype Callers = Callers(out: seq<Block>, waiting: seq<Waiting>)

  function Less<T>(s: seq<T>, k: nat): seq<T> { if k < |s| then s[..k] + s[k + 1..] else s }

  /** What callers have once a section has given its result. */
  function Next(c: Callers, section: Section, r: Result): Callers {
    match section
    case TryOldPage(sz) =>
      if r.Gets? then c.(out := c.out + [Block(r.addr, sz)]) else c
    case TryNewPage(sz, page) =>
      if r.Gets? then c.(out := c.out + [Block(r.addr, sz)])
      else if r.Waits? then c.(waiting := c.waiting + [Waiting(r.pr, sz, page)])
      else c
    case Resume(k, _) =>
      if k >= |c.waiting| then c
      else if r.Gets? then Callers(c.out + [Block(r.addr, c.waiting[k].sz)], Less(c.waiting, k))
      else c.(waiting := Less(c.waiting, k))
    case FreeBlock(k) => c.(out := Less(c.out, k))
    case WriteTo(_, _, _) => c
  }

  /** What a heap is at one moment. */
  datatype View = View(all: seq<int>, pab: map<int, nat>, free: map<int, seq<int>>, reserved: set<int>,
                       inuse: seq<bool>, pages: seq<bool>, mem: map<int, int>)

  ghost function LiveIn(v: View): iset<int> { Out(v.all, v.pab, v.free) }

  ghost predicate FirstFree(v: View, f: int) {
    0 <= f < |v.inuse| && !v.inuse[f] && forall q :: 0 <= q < f ==> v.inuse[q]
  }

  predicate PageThere(v: View, p: int) { 0 <= p / PER_PAGE < |v.pages| && v.pages[p / PER_PAGE] }

  ghost predicate FitsOld(v: View, sz: nat, p: int) {
    && p in v.all && p in v.pab && p in v.free
    && SmallestFit(sz, BlockTypeOf(v.pab[p])) && v.free[p] != []
  }

  /** A page that the system may supply: one that is nobody's. */
  ghost predicate Usable(v: View, c: Callers, page: nat) {
    Fresh(v, page) && forall w :: w in c.waiting ==> w.page != page
  }

  ghost predicate LastOn(v: View, p: int, a: int) { forall b :: BlockOut(v.all, v.pab, v.free, p, b) <==> b == a }

  /** Whether a page of earlier pagerefs is missing. */
  ghost predicate Lost(pages: seq<bool>, p: int) { exists w :: 0 <= w < p / PER_PAGE && w < |pages| && !pages[w] }

  ghost predicate SameLists(v: View, v': View) { v'.all == v.all && v'.pab == v.pab }

  ghost predicate NewOnLists(v: View, v': View, p: int, sz: nat, page: nat) {
    && v'.all == [p] + v.all && v'.reserved == v.reserved - {p}
    && exists t: nat :: SmallestFit(sz, t) && v'.pab == v.pab[p := MkPab(page, t)]
  }

  /** No word of a block that is out before and afterwards is written, but by the client that has it. */
  ghost predicate Words(v: View, c: Callers, section: Section, r: Result, v': View) {
    if section.WriteTo? && r == Done then
      section.k < |c.out| && v'.mem == v.mem[c.out[section.k].addr + section.offset := section.value]
    else
      forall x :: InSomeBlock(v.all, v.pab, v.free, x) && InSomeBlock(v'.all, v'.pab, v'.free, x) ==>
        SameWord(v.mem, v'.mem, x)
  }

  /** When a section gives which result, and what it does to the words, the lists, the pagerefs and their pages. */
  ghost predicate Step(v: View, c: Callers, section: Section, r: Result, v': View) {
    Words(v, c, section, r, v') && Does(v, c, section, r, v')
  }

  ghost predicate Does(v: View, c: Callers, section: Section, r: Result, v': View) {
    match section
    case TryOldPage(sz) =>
      && SameLists(v, v') && v'.reserved == v.reserved && v'.pages == v.pages
      && (r.Gets? || (r == Nothing && v' == v))
      && (r.Gets? <==> sz <= 2048 && exists p :: FitsOld(v, sz, p))
    case TryNewPage(sz, page) =>
      && v'.pages == v.pages
      && (r == Nothing <==> sz > 2048 || !Usable(v, c, page) || forall q :: 0 <= q < |v.inuse| ==> v.inuse[q])
      && (r == Nothing ==> v' == v)
      && (r.Gets? ==> exists p :: FirstFree(v, p) && PageThere(v, p) && NewOnLists(v, v', p, sz, page))
      && (r.Waits? ==>
           FirstFree(v, r.pr) && !PageThere(v, r.pr) && SameLists(v, v') && v'.reserved == v.reserved + {r.pr})
      && r != Done && r != Panics
    case Resume(k, supplied) =>
      if k >= |c.waiting| then r == Nothing && v' == v
      else
        var w := c.waiting[k];
        && 0 <= w.pr / PER_PAGE < |v.pages|
        && v'.pages == (if supplied then v.pages[w.pr / PER_PAGE := true] else v.pages)
        && (r.Gets? || r == Nothing) && (r.Gets? <==> PageThere(v, w.pr) || supplied)
        && (r == Nothing ==> SameLists(v, v') && v'.reserved == v.reserved)
        && (r.Gets? ==> NewOnLists(v, v', w.pr, w.sz, w.page))
    case FreeBlock(k) =>
      if k >= |c.out| then r == Nothing && v' == v
      else
        && v'.pab == v.pab && v'.pages == v.pages && (r == Done || r == Panics)
        && exists p :: BlockOut(v.all, v.pab, v.free, p, c.out[k].addr)
             && (r == Panics <==> LastOn(v, p, c.out[k].addr) && Lost(v.pages, p))
             && (if LastOn(v, p, c.out[k].addr) then RemovedOne(v.all, v'.all, p) else v'.all == v.all)
             && v'.reserved == (if r == Panics then v.reserved + {p} else v.reserved)
    case WriteTo(k, offset, _) =>
      v' == v.(mem := v'.mem) && r == (if k < |c.out| && offset < c.out[k].sz then Done else Nothing) &&
      (r == Nothing ==> v' == v)
  }

  ghost function Addresses(out: seq<Block>): iset<int> { iset i | 0 <= i < |out| :: out[i].addr }

  /** The blocks out with callers are different, out, and large enough. */
  ghost predicate Kept(v: View, out: seq<Block>) {
    && (forall i, j :: 0 <= i < j < |out| ==> out[i].addr != out[j].addr)
    && forall b :: b in out ==> HeldIn(v.all, v.pab, v.free, b.addr, b.sz)
  }

  /** Those who wait have different pagerefs, reserved for them, and different pages, not on the heap yet. */
  ghost predicate Queued(v: View, waiting: seq<Waiting>) {
    && (forall i, j :: 0 <= i < j < |waiting| ==>
         waiting[i].pr != waiting[j].pr && waiting[i].page != waiting[j].page)
    && forall w :: w in waiting ==> w.pr in v.reserved && w.sz <= 2048 && Fresh(v, w.page)
  }

  ghost predicate Fresh(v: View, page: nat) {
    && page > 0 && page % PAGE == 0
    && forall p :: p in v.all && p in v.pab ==> PageAddr(v.pab[p]) != page
  }

  /** What is out is what callers have, and `rest`. */
  ghost predicate Ledger(v: View, c: Callers, rest: iset<int>) {
    Kept(v, c.out) && Queued(v, c.waiting) && LiveIn(v) == rest + Addresses(c.out) && rest !! Addresses(c.out)
  }

  lemma Gained(out: seq<Block>, b: Block)
    ensures Addresses(out + [b]) == Addresses(out) + iset{b.addr}
  {
    var more := out + [b];
    assert more[|out|] == b;
    forall i | 0 <= i < |out| ensures out[i].addr in Addresses(more) { assert more[i] == out[i]; }
  }

  lemma GivenUp(out: seq<Block>, k: nat)
    requires k < |out| && forall i, j :: 0 <= i < j < |out| ==> out[i].addr != out[j].addr
    ensures Addresses(Less(out, k)) == Addresses(out) - iset{out[k].addr}
    ensures forall b :: b in Less(out, k) ==> b in out && b.addr != out[k].addr
    ensures var less := Less(out, k); forall i, j :: 0 <= i < j < |less| ==> less[i].addr != less[j].addr
  {
    var less := Less(out, k);
    forall i | 0 <= i < |out| && i != k ensures out[i].addr in Addresses(less) {
      assert out[i] == less[if i < k then i else i - 1];
    }
    forall i | 0 <= i < |less| ensures less[i].addr in Addresses(out) && less[i].addr != out[k].addr {
      assert less[i] == out[if i < k then i else i + 1];
    }
  }

  /** Blocks that are still out, on pages that are what they were, are still held. */
  lemma StillKept(v: View, v': View, same': seq<seq<int>>, out: seq<Block>)
    requires Kept(v, out) && SplitByType(v'.all, same', v'.pab)
    requires forall b :: b in out ==> b.addr in LiveIn(v')
    requires forall b, p :: b in out && BlockOut(v.all, v.pab, v.free, p, b.addr) ==>
      p in v'.all && p in v'.pab && v'.pab[p] == v.pab[p]
    ensures Kept(v', out)
  {
    hide HeldIn, BlockOut, SplitByType;
    forall b | b in out ensures HeldIn(v'.all, v'.pab, v'.free, b.addr, b.sz) {
      assert IsOut(v'.all, v'.pab, v'.free, b.addr);
      HeldStays(v.all, v.pab, v.free, v'.all, same', v'.pab, v'.free, b.addr, b.sz);
    }
  }

  lemma KeptGains(v: View, v': View, same': seq<seq<int>>, out: seq<Block>, b: Block)
    requires Kept(v, out) && SplitByType(v'.all, same', v'.pab) && b.addr !in Addresses(out)
    requires Addresses(out) <= LiveIn(v') && HeldIn(v'.all, v'.pab, v'.free, b.addr, b.sz)
    requires forall p :: p in v.all && p in v.pab ==> p in v'.all && p in v'.pab && v'.pab[p] == v.pab[p]
    ensures Kept(v', out + [b])
  {
    forall x | x in out ensures x.addr in LiveIn(v') {
      var i :| 0 <= i < |out| && out[i] == x;
      assert out[i].addr in Addresses(out);
    }
    hide HeldIn, SplitByType, LiveIn;
    forall x, p | x in out && BlockOut(v.all, v.pab, v.free, p, x.addr) ensures p in v.all && p in v.pab {}
    hide BlockOut;
    StillKept(v, v', same', out);
    var more := out + [b];
    forall i, j | 0 <= i < j < |more| ensures more[i].addr != more[j].addr {
      assert more[i] == out[i] && (j < |out| ==> more[j] == out[j]);
      assert out[i].addr in Addresses(out);
    }
  }

  /** Those who wait are not troubled by what happens to other pagerefs and pages. */
  lemma QueuedStays(v: View, v': View, waiting: seq<Waiting>, pr: int, page: nat)
    requires Queued(v, waiting)
    requires forall p :: p in v'.all && p in v'.pab ==>
      (p in v.all && p in v.pab && v'.pab[p] == v.pab[p]) || (p == pr && PageAddr(v'.pab[p]) == page)
    requires v.reserved - {pr} <= v'.reserved
    requires forall w :: w in waiting ==> w.page != page && (w.pr == pr ==> pr in v'.reserved || pr !in v.reserved)
    ensures Queued(v', waiting)
  {
  }

  /** A new block in the ledger, from a page that was on the lists. */
  lemma LedgerGains(v: View, v': View, same': seq<seq<int>>, c: Callers, rest: iset<int>, b: Block)
    requires Ledger(v, c, rest) && SplitByType(v'.all, same', v'.pab)
    requires LiveIn(v') == LiveIn(v) + iset{b.addr} && b.addr !in LiveIn(v)
    requires HeldIn(v'.all, v'.pab, v'.free, b.addr, b.sz)
    requires SameLists(v, v') && v'.reserved == v.reserved
    ensures Ledger(v', c.(out := c.out + [b]), rest)
  {
    Gained(c.out, b);
    hide HeldIn, SplitByType, LiveIn, Addresses;
    KeptGains(v, v', same', c.out, b);
    hide Kept;
  }

  /** A new block in the ledger, from a new page. */
  lemma LedgerGainsPage(v: View, v': View, same': seq<seq<int>>, c: Callers, rest: iset<int>, b: Block,
                        pr: int, page: nat, w: nat)
    requires Ledger(v, c, rest) && SplitByType(v'.all, same', v'.pab)
    requires LiveIn(v') == LiveIn(v) + iset{b.addr} && b.addr !in LiveIn(v)
    requires HeldIn(v'.all, v'.pab, v'.free, b.addr, b.sz)
    requires v'.all == [pr] + v.all && pr !in v.all && v'.pab == v.pab[pr := w] && PageAddr(w) == page
    requires v'.reserved == v.reserved - {pr}
    requires forall x :: x in c.waiting ==> x.page != page && (x.pr == pr ==> pr !in v.reserved)
    ensures Ledger(v', c.(out := c.out + [b]), rest)
  {
    Gained(c.out, b);
    hide HeldIn, SplitByType, LiveIn, Addresses, PageAddr;
    forall p | p in v.all && p in v.pab ensures p in v'.all && p in v'.pab && v'.pab[p] == v.pab[p] {}
    KeptGains(v, v', same', c.out, b);
    QueuedStays(v, v', c.waiting, pr, page);
    hide Kept, Queued;
  }

  /** A block less. */
  lemma LedgerLoses(v: View, v': View, same': seq<seq<int>>, c: Callers, rest: iset<int>, k: nat, pr: int)
    requires Ledger(v, c, rest) && k < |c.out| && SplitByType(v'.all, same', v'.pab) && v'.pab == v.pab
    requires LiveIn(v') == LiveIn(v) - iset{c.out[k].addr} && v.reserved <= v'.reserved
    requires v'.all == v.all || (RemovedOne(v.all, v'.all, pr) && LastOn(v, pr, c.out[k].addr))
    ensures Ledger(v', c.(out := Less(c.out, k)), rest)
  {
    GivenUp(c.out, k);
    var less := Less(c.out, k);
    forall b | b in less ensures b.addr in LiveIn(v') && b.addr != c.out[k].addr {
      assert b in c.out;
      var i :| 0 <= i < |c.out| && c.out[i] == b;
      assert c.out[i].addr in Addresses(c.out);
    }
    forall b, p | b in less && BlockOut(v.all, v.pab, v.free, p, b.addr) ensures p in v'.all && p in v'.pab {}
    hide BlockOut, SplitByType, HeldIn;
    StillKept(v, v', same', less);
    assert c.out[k].addr in Addresses(c.out);
  }

  /** One more waits, or one less. */
  lemma LedgerWaits(v: View, v': View, c: Callers, rest: iset<int>, w: Waiting)
    requires Ledger(v, c, rest) && v'.all == v.all && v'.pab == v.pab && v'.free == v.free
    requires v'.reserved == v.reserved + {w.pr} && w.pr !in v.reserved && w.sz <= 2048 && Usable(v, c, w.page)
    ensures Ledger(v', c.(waiting := c.waiting + [w]), rest)
  {
    hide HeldIn, Out;
    var more := c.waiting + [w];
    forall i, j | 0 <= i < j < |more| ensures more[i].pr != more[j].pr && more[i].page != more[j].page {
      assert more[i] == c.waiting[i] && more[i] in c.waiting;
    }
  }

  lemma LedgerSame(v: View, v': View, c: Callers, rest: iset<int>)
    requires Ledger(v, c, rest) && v'.all == v.all && v'.pab == v.pab && v'.free == v.free && v'.reserved == v.reserved
    ensures Ledger(v', c, rest)
  {
    hide HeldIn, Out, Addresses;
  }

  lemma LedgerResumes(v: View, c: Callers, rest: iset<int>, k: nat)
    requires Ledger(v, c, rest) && k < |c.waiting|
    ensures Ledger(v, c.(waiting := Less(c.waiting, k)), rest)
    ensures forall w :: w in Less(c.waiting, k) ==>
      w in c.waiting && w.pr != c.waiting[k].pr && w.page != c.waiting[k].page
  {
    hide HeldIn, Out;
    var less := Less(c.waiting, k);
    forall i | 0 <= i < |less| ensures less[i] == c.waiting[if i < k then i else i + 1] {}
  }

  /**
   The sections of any number of callers, in any order. The heap stays well formed throughout, also
   while callers wait for pages of pagerefs, and after every section what is out is what was, and
   what callers got and have not freed: different blocks, large enough. Every section gives the
   result that the heap as it was called for. Only a panic in the pool ends the run before the end.
   */
  method RunSections(heap: Heap, sections: seq<Section>) returns (results: seq<Result>, ghost run: seq<Moment>)
    requires heap.Valid()
    modifies heap, heap.pool
    ensures heap.Valid() && Traced(sections, results, run, old(heap.Live()))
    ensures run[0].view == old(heap.Now()) && run[|results|].view == heap.Now()
    ensures |results| < |sections| ==> results != [] && results[|results| - 1] == Panics
  {
    hide Heap.Valid, Heap.Live, Heap.Now, Ledger, Next, Step, Sound;
    ghost var rest := heap.Live();
    LedgerStarts(heap);
    heap.SoundNow();
    var c := Callers([], []);
    var going := true;
    results, run := [], [Moment(heap.Now(), c)];
    while going && |results| < |sections|
      invariant heap.Valid() && Traced(sections, results, run, rest)
      invariant run[0].view == old(heap.Now()) && run[|results|] == Moment(heap.Now(), c)
      invariant !going ==> results != [] && results[|results| - 1] == Panics
      decreases |sections| - |results|
    {
      var r := OneSection(heap, c, rest, sections[|results|]);
      heap.SoundNow();
      c := Next(c, sections[|results|], r);
      TraceGrows(sections, results, run, rest, r, Moment(heap.Now(), c));
      going := r != Panics;
      results, run := results + [r], run + [Moment(heap.Now(), c)];
    }
  }

  /** The bits set are those of the pagerefs on the lists and of the reserved ones. */
  ghost predicate Sound(v: View) { SlotsAgree(v.all, v.reserved, v.inuse, v.pages) }

  /** The heap and what callers have, before or after a section. */
  datatype Moment = Moment(view: View, callers: Callers)

  /** At every moment the ledger is right, and every section gave the right result. */
  ghost predicate Traced(sections: seq<Section>, results: seq<Result>, run: seq<Moment>, rest: iset<int>) {
    && |results| <= |sections| && |run| == |results| + 1 && run[0].callers == Callers([], [])
    && (forall k :: 0 <= k <= |results| ==> Sound(run[k].view) && Ledger(run[k].view, run[k].callers, rest))
    && forall k :: 0 <= k < |results| ==>
         && run[k + 1].callers == Next(run[k].callers, sections[k], results[k])
         && Step(run[k].view, run[k].callers, sections[k], results[k], run[k + 1].view)
  }

  lemma TraceGrows(sections: seq<Section>, results: seq<Result>, run: seq<Moment>, rest: iset<int>,
                   r: Result, m: Moment)
    requires Traced(sections, results, run, rest) && |results| < |sections|
    requires Sound(m.view) && Ledger(m.view, m.callers, rest)
    requires var n := |results|;
      && m.callers == Next(run[n].callers, sections[n], r)
      && Step(run[n].view, run[n].callers, sections[n], r, m.view)
    ensures Traced(sections, results + [r], run + [m], rest)
  {
    hide Ledger, Step, Next, Sound;
  }

  /** Whether a section writes at `x` for a client. */
  predicate WritesAt(c: Callers, section: Section, r: Result, x: int) {
    section.WriteTo? && r == Done && section.k < |c.out| && x == c.out[section.k].addr + section.offset
  }

  predicate Has(c: Callers, b: Block, x: int) { b in c.out && b.addr <= x < b.addr + b.sz }

  /**
   What a caller writes into its block it reads back, however many other sections there have been, as
   long as it has the block and has not written there again.
   */
  lemma {:induction false} ReadsBack(sections: seq<Section>, results: seq<Result>, run: seq<Moment>, rest: iset<int>,
                                     b: Block, x: int, k: nat, n: nat)
    requires Traced(sections, results, run, rest) && k < n <= |results|
    requires WritesAt(run[k].callers, sections[k], results[k], x)
    requires forall m :: k < m <= n ==> Has(run[m].callers, b, x)
    requires forall m :: k < m < n ==> !WritesAt(run[m].callers, sections[m], results[m], x)
    ensures x in run[n].view.mem && run[n].view.mem[x] == sections[k].value
  {
    hide Ledger, Does, Sound, InSomeBlock;
    if n - 1 > k {
      ReadsBack(sections, results, run, rest, b, x, k, n - 1);
      assert Has(run[n - 1].callers, b, x) && Has(run[n].callers, b, x);
      HasIsOut(run[n - 1].view, run[n - 1].callers, rest, b, x);
      HasIsOut(run[n].view, run[n].callers, rest, b, x);
    }
    assert Step(run[n - 1].view, run[n - 1].callers, sections[n - 1], results[n - 1], run[n].view);
  }

  lemma HasIsOut(v: View, c: Callers, rest: iset<int>, b: Block, x: int)
    requires Ledger(v, c, rest) && Has(c, b, x)
    ensures InSomeBlock(v.all, v.pab, v.free, x)
  {
    assert HeldIn(v.all, v.pab, v.free, b.addr, b.sz);
    var p :| BlockOut(v.all, v.pab, v.free, p, b.addr) && b.sz <= SIZES[BlockTypeOf(v.pab[p])];
    assert InBlock(v.all, v.pab, v.free, p, b.addr, x);
  }

  lemma LedgerStarts(heap: Heap)
    ensures Ledger(heap.Now(), Callers([], []), heap.Live())
  {
    assert Addresses([]) == iset{};
  }

  method OneSection(heap: Heap, c: Callers, ghost rest: iset<int>, section: Section) returns (r: Result)
    requires heap.Valid() && Ledger(heap.Now(), c, rest)
    modifies heap, heap.pool
    ensures heap.Valid() && Ledger(heap.Now(), Next(c, section, r), rest)
    ensures Step(old(heap.Now()), c, section, r, heap.Now())
  {
    hide Heap.Valid, Heap.Now, Ledger, Step, Next;
    match section {
      case TryOldPage(sz) => r := OldPageSection(heap, c, rest, sz);
      case TryNewPage(sz, page) => r := NewPageSection(heap, c, rest, sz, page);
      case Resume(k, supplied) => r := ResumeSection(heap, c, rest, k, supplied);
      case FreeBlock(k) => r := FreeSection(heap, c, rest, k);
      case WriteTo(k, offset, value) => r := WriteSection(heap, c, rest, k, offset, value);
    }
  }

  method OldPageSection(heap: Heap, c: Callers, ghost rest: iset<int>, sz: nat) returns (r: Result)
    requires heap.Valid() && Ledger(heap.Now(), c, rest)
    modifies heap
    ensures heap.Valid() && Ledger(heap.Now(), Next(c, TryOldPage(sz), r), rest)
    ensures Step(old(heap.Now()), c, TryOldPage(sz), r, heap.Now())
  {
    hide Heap.PagesOk, Heap.Listed, SplitByType, Kept, Queued, Out, BlockOut, HeldIn, BlockTypeOf, PageAddr;
    if sz > 2048 {
      return Nothing;
    }
    var t := BlockType(sz);
    OneFit(sz, t);
    ghost var v := heap.Now();
    heap.FitsOldIs(sz, t);
    var a; ghost var p;
    a, p := heap.FromExistingPage(t);
    if a == 0 {
      return Nothing;
    }
    r := Gets(a);
    heap.IsHeld(p, a, sz);
    LedgerGains(v, heap.Now(), heap.same, c, rest, Block(a, sz));
  }

  method NewPageSection(heap: Heap, c: Callers, ghost rest: iset<int>, sz: nat, page: nat) returns (r: Result)
    requires heap.Valid() && Ledger(heap.Now(), c, rest)
    modifies heap, heap.pool
    ensures heap.Valid() && Ledger(heap.Now(), Next(c, TryNewPage(sz, page), r), rest)
    ensures Step(old(heap.Now()), c, TryNewPage(sz, page), r, heap.Now())
  {
    hide Heap.PagesOk, Heap.Listed, SplitByType, Kept, Queued, Out, BlockOut, HeldIn;
    hide BlockTypeOf, PageAddr, Only, InSomeBlock;
    ghost var v := heap.Now();
    var usable := IsUsable(heap, c, page);
    if sz > 2048 || !usable {
      return Nothing;
    }
    var t := BlockType(sz);
    heap.FreshIs(page);
    PabParts(page, t);
    var a, pr, waits := heap.StartPage(t, page);
    if pr == -1 {
      assert heap.Now() == v;
      return Nothing;
    }
    if waits {
      LedgerWaits(v, heap.Now(), c, rest, Waiting(pr, sz, page));
      return Waits(pr);
    }
    r := Gets(a);
    FreshSpares(v.all, v.pab, v.free, v.mem, heap.mem, page);
    heap.IsHeld(pr, a, sz);
    assert heap.reserved == v.reserved - {pr};
    assert NewOnLists(v, heap.Now(), pr, sz, page);
    assert FirstFree(v, pr);
    assert PageThere(v, pr);
    LedgerGainsPage(v, heap.Now(), heap.same, c, rest, Block(a, sz), pr, page, MkPab(page, t));
  }

  /** Whether nobody has the page. */
  method IsUsable(heap: Heap, c: Callers, page: nat) returns (usable: bool)
    requires heap.Valid()
    ensures usable <==> Usable(heap.Now(), c, page)
  {
    if page == 0 || page % PAGE != 0 || exists w :: w in c.waiting && w.page == page {
      return false;
    }
    var taken := heap.FindPage(page);
    usable := taken == -1;
    heap.NobodysIsFresh(page);
    heap.FreshIs(page);
  }

  method ResumeSection(heap: Heap, c: Callers, ghost rest: iset<int>, k: nat, supplied: bool) returns (r: Result)
    requires heap.Valid() && Ledger(heap.Now(), c, rest)
    modifies heap, heap.pool
    ensures heap.Valid() && Ledger(heap.Now(), Next(c, Resume(k, supplied), r), rest)
    ensures Step(old(heap.Now()), c, Resume(k, supplied), r, heap.Now())
  {
    hide Heap.PagesOk, Heap.Listed, SplitByType, Kept, Out, BlockOut, HeldIn, BlockTypeOf, PageAddr, Only, InSomeBlock;
    if k >= |c.waiting| {
      return Nothing;
    }
    ghost var v := heap.Now();
    var w := c.waiting[k];
    assert w in c.waiting;
    var t := BlockType(w.sz);
    heap.FreshIs(w.page);
    PabParts(w.page, t);
    LedgerResumes(v, c, rest, k);
    var a := heap.FinishPage(w.pr, t, w.page, supplied);
    if a == 0 {
      LedgerSame(v, heap.Now(), c.(waiting := Less(c.waiting, k)), rest);
      return Nothing;
    }
    r := Gets(a);
    FreshSpares(v.all, v.pab, v.free, v.mem, heap.mem, w.page);
    heap.IsHeld(w.pr, a, w.sz);
    LedgerGainsPage(v, heap.Now(), heap.same, c.(waiting := Less(c.waiting, k)), rest, Block(a, w.sz),
                    w.pr, w.page, MkPab(w.page, t));
  }

  method FreeSection(heap: Heap, c: Callers, ghost rest: iset<int>, k: nat) returns (r: Result)
    requires heap.Valid() && Ledger(heap.Now(), c, rest)
    modifies heap, heap.pool
    ensures heap.Valid() && Ledger(heap.Now(), Next(c, FreeBlock(k), r), rest)
    ensures Step(old(heap.Now()), c, FreeBlock(k), r, heap.Now())
  {
    hide Heap.PagesOk, Heap.Listed, SplitByType, Kept, Queued, BlockOut, BlockTypeOf, PageAddr, RemovedOne;
    hide Only, Cleared, InSomeBlock;
    if k >= |c.out| {
      return Nothing;
    }
    ghost var v := heap.Now();
    var ptr := c.out[k].addr;
    assert ptr in Addresses(c.out);
    heap.LiveIsNotFree(ptr);
    var f, page; ghost var pr;
    f, page, pr := heap.SubpageFree(ptr);
    r := if f == PoolPanicked then Panics else Done;
    LedgerLoses(v, heap.Now(), heap.same, c, rest, k, pr);
  }

  method WriteSection(heap: Heap, c: Callers, ghost rest: iset<int>, k: nat, offset: nat, value: int)
    returns (r: Result)
    requires heap.Valid() && Ledger(heap.Now(), c, rest)
    modifies heap
    ensures heap.Valid() && Ledger(heap.Now(), Next(c, WriteTo(k, offset, value), r), rest)
    ensures Step(old(heap.Now()), c, WriteTo(k, offset, value), r, heap.Now())
  {
    hide Heap.PagesOk, Heap.Listed, SplitByType, Queued, Out, BlockTypeOf, PageAddr;
    if k >= |c.out| || offset >= c.out[k].sz {
      return Nothing;
    }
    ghost var b := c.out[k];
    ghost var v := heap.Now();
    ghost var p :| heap.LiveOn(p, b.addr) && b.sz <= SIZES[BlockTypeOf(heap.pab[p])];
    heap.ClientWrite(p, b.addr, c.out[k].addr + offset, value);
    r := Done;
    LedgerSame(v, heap.Now(), c, rest);
  }

  /** Block type `t` is the first whose blocks hold `sz` bytes. */
  predicate SmallestFit(sz: nat, t: nat) {
    t < NSIZES && sz <= SIZES[t] && forall u :: 0 <= u < t ==> SIZES[u] < sz
  }

  lemma OneFit(sz: nat, t: nat)
    requires SmallestFit(sz, t)
    ensures forall u: nat :: SmallestFit(sz, u) <==> u == t
  {
  }

  /** The index of the smallest block size that fits. Beyond the largest the original panics. */
  method BlockType(clientsz: nat) returns (i: nat)
    requires clientsz <= 2048
    ensures SmallestFit(clientsz, i)
  {
    i := 0;
    while clientsz > SIZES[i]
      invariant 0 <= i < NSIZES && forall u :: 0 <= u < i ==> SIZES[u] < clientsz
      decreases NSIZES - i
    {
      i := i + 1;
    }
  }

  // ---------------------------------------------------------------------------------------
  // The front: whole pages for large requests.
  // ---------------------------------------------------------------------------------------

  const LARGEST: nat := 2048
  const SIZE_LIMIT: nat := 0x1_0000_0000

  /** How many pages a large request asks for; the rounding wraps in a 32-bit size_t. */
  function PagesWanted(sz: nat): nat { (sz + PAGE - 1) % SIZE_LIMIT / PAGE }

  /** The pages cover the request if and only if rounding up does not wrap. */
  lemma PagesCover(sz: nat)
    requires LARGEST <= sz < SIZE_LIMIT
    ensures PagesWanted(sz) * PAGE >= sz <==> sz <= SIZE_LIMIT - PAGE
    ensures PagesWanted(sz) >= 1 <==> sz <= SIZE_LIMIT - PAGE
  {
  }

  /** A request the rounding loses: it asks for no pages at all. */
  lemma HugeRequestGetsNothing()
    ensures PagesWanted(0xFFFF_FFFF) == 0
  {
  }

  class Kernel {
    const heap: Heap
    /** Addresses and page counts of the large blocks out with clients. */
    ghost var big: set<(int, nat)>

    constructor ()
      ensures Valid() && big == {} && heap.all == []
    {
      heap := new Heap();
      big := {};
    }

    ghost predicate Apart(a: int, m: nat, b: int, n: nat) {
      a + m * PAGE <= b || b + n * PAGE <= a
    }

    ghost predicate Valid()
      reads this, heap, heap.pool
    {
      && heap.Valid()
      && (forall x, p :: x in big && p in heap.all ==> Apart(x.0, x.1, PageAddr(heap.pab[p]), 1))
      && (forall x, y :: x in big && y in big && x != y ==> Apart(x.0, x.1, y.0, y.1))
      && (forall x :: x in big ==> x.0 > 0 && x.0 % PAGE == 0)
    }

    /** What alloc_kpages returns: pages that nobody has. */
    ghost predicate Supplied(a: nat, n: nat)
      requires heap.PagesOk()
      reads this, heap
    {
      && a > 0 && a % PAGE == 0
      && (forall p :: p in heap.all ==> Apart(a, n, PageAddr(heap.pab[p]), 1))
      && (forall x :: x in big ==> Apart(a, n, x.0, x.1) && x != (a, n))
    }

    ghost predicate InBig(x: int)
      reads this
    {
      exists y :: y in big && y.0 <= x < y.0 + y.1 * PAGE
    }

    /** Whether a client has a block, large or small, with address `x` in it. */
    ghost predicate Owned(x: int)
      reads this, heap
    {
      InBig(x) || InSomeBlock(heap.all, heap.pab, heap.free, x)
    }

    method Kmalloc(sz: nat, supply: nat, refs: bool) returns (r: int, ghost p: int)
      requires Valid() && sz < SIZE_LIMIT
      requires supply == 0 || Supplied(supply, if sz >= LARGEST then PagesWanted(sz) else 1)
      modifies this, heap, heap.pool
      ensures Valid()
      ensures sz >= LARGEST ==> r == supply
      ensures sz < LARGEST ==>
        (r == 0 <==> !old(heap.CanServe(sz)) && (supply == 0 || !old(heap.PagerefLeft(refs))))
      ensures r == 0 ==> big == old(big) && heap.Live() == old(heap.Live())
      ensures r != 0 && sz >= LARGEST ==> big == old(big) + {(r, PagesWanted(sz))} && heap.Live() == old(heap.Live())
      ensures r != 0 && sz >= LARGEST ==> (PagesWanted(sz) * PAGE >= sz <==> sz <= SIZE_LIMIT - PAGE)
      ensures r != 0 && sz < LARGEST ==> big == old(big) && heap.LiveOn(p, r) && sz <= SIZES[BlockTypeOf(heap.pab[p])]
      ensures r != 0 && sz < LARGEST ==> r !in old(heap.Live()) && heap.Live() == old(heap.Live()) + iset{r}
      ensures forall x :: old(Owned(x)) ==> SameWord(old(heap.mem), heap.mem, x)
    {
      p := -1;
      if sz >= LARGEST {
        var npages := PagesWanted(sz);
        PagesCover(sz);
        if supply == 0 {
          return 0, -1;
        }
        big := big + {(supply, npages)};
        return supply, -1;
      }
      hide IsList, PageOk, IsBlock, SplitByType, BlockTypeOf, PageAddr;
      forall q | q in heap.all && supply != 0 ensures PageAddr(heap.pab[q]) != supply {
        assert Apart(supply, 1, PageAddr(heap.pab[q]), 1);
      }
      r, p := heap.SubpageKmalloc(sz, supply, refs);
      if supply != 0 {
        FreshSpares(old(heap.all), old(heap.pab), old(heap.free), old(heap.mem), heap.mem, supply);
        BigSpared(big, old(heap.mem), heap.mem, supply, PAGE, supply);
      }
      hide Only, InSomeBlock;
      forall x, q | x in big && q in heap.all
        ensures Apart(x.0, x.1, PageAddr(heap.pab[q]), 1)
      {
        if q in old(heap.all) {
          assert old(Apart(x.0, x.1, PageAddr(heap.pab[q]), 1));
        } else {
          assert q == p;
        }
      }
    }

    /** What kfree may be given: nothing, or a block that kmalloc returned. */
    ghost predicate Returned(ptr: int)
      requires heap.PagesOk()
      reads this, heap
    {
      ptr == 0 || heap.IsLive(ptr) || exists n :: n >= 1 && (ptr, n) in big
    }

    /** Frees a block; false if the pool panics on giving a pageref back. */
    method Kfree(ptr: int) returns (ok: bool)
      requires Valid() && Returned(ptr)
      modifies this, heap, heap.pool
      ensures Valid()
      ensures ok <==> !exists p :: old(heap.IsLast(p, ptr) && !heap.EarlierThere(p))
      ensures old(|heap.reserved|) < PER_PAGE ==> ok
      ensures heap.Live() == old(heap.Live()) - iset{ptr}
      ensures old(heap.IsLive(ptr)) || ptr == 0 ==> big == old(big)
      ensures ptr != 0 && !old(heap.IsLive(ptr)) ==> big == set x | x in old(big) && x.0 != ptr
      ensures forall x :: Owned(x) ==> SameWord(old(heap.mem), heap.mem, x)
    {
      hide IsList, PageOk, IsBlock, SplitByType, BlockTypeOf, PageAddr, PagesWanted;
      NullIsNotLive();
      forall p | heap.IsLast(p, ptr)
        ensures heap.IsLive(ptr) && forall q :: heap.LiveOn(q, ptr) ==> q == p
      {
        heap.LastIsLive(p, ptr);
      }
      if ptr == 0 {
        return true;
      }
      NotFree(ptr);
      ghost var pages := heap.all;
      if old(|heap.reserved|) < PER_PAGE {
        forall p | p in heap.all ensures heap.EarlierThere(p) { heap.FewReserved(p); }
      }
      var r, page, pr := heap.SubpageFree(ptr);
      ok := r != PoolPanicked;
      if r in {Freed, PoolPanicked} {
        FreeSpared(old(heap.all), heap.pab, old(heap.free), big, old(heap.mem), heap.mem, pr, ptr);
      }
      hide Only, InSomeBlock, Cleared;
      assert forall q :: q in heap.all ==> q in pages;
      forall x, q | x in big && q in heap.all
        ensures Apart(x.0, x.1, PageAddr(heap.pab[q]), 1)
      {
        assert old(Apart(x.0, x.1, PageAddr(heap.pab[q]), 1));
      }
      if r == NotOurs {
        big := set x | x in big && x.0 != ptr;
      }
    }

    static lemma FreeSpared(all: seq<int>, pab: map<int, nat>, free: map<int, seq<int>>, big: set<(int, nat)>,
                            m: map<int, int>, m': map<int, int>, pr: int, ptr: int)
      requires BlockOut(all, pab, free, pr, ptr) && Only(m, m', ptr, SIZES[BlockTypeOf(pab[pr])])
      requires var page := PageAddr(pab[pr]);
        forall y :: y in big ==> y.0 + y.1 * PAGE <= page || page + PAGE <= y.0
      ensures forall x, y :: y in big && y.0 <= x < y.0 + y.1 * PAGE ==> SameWord(m, m', x)
    {
      BlockOnPage(all, pab, free, pr, ptr);
      BlockFits(PageAddr(pab[pr]), BlockTypeOf(pab[pr]), ptr);
      BigSpared(big, m, m', ptr, SIZES[BlockTypeOf(pab[pr])], PageAddr(pab[pr]));
    }

    /** What is written on one page that is apart from large blocks is in none of them. */
    static lemma BigSpared(big: set<(int, nat)>, m: map<int, int>, m': map<int, int>, lo: int, n: nat, page: int)
      requires Only(m, m', lo, n) && page <= lo && lo + n <= page + PAGE
      requires forall y :: y in big ==> y.0 + y.1 * PAGE <= page || page + PAGE <= y.0
      ensures forall x, y :: y in big && y.0 <= x < y.0 + y.1 * PAGE ==> SameWord(m, m', x)
    {
    }

    lemma NullIsNotLive()
      requires Valid()
      ensures !heap.IsLive(0)
    {
      forall p ensures !heap.LiveOn(p, 0) {
        if heap.LiveOn(p, 0) { heap.PageIsPositive(p, 0); }
      }
    }

    /** A block out with a client is on no free list; a large one is on no heap page at all. */
    lemma NotFree(ptr: int)
      requires Valid() && Returned(ptr) && ptr != 0
      ensures forall p :: p in heap.all ==> ptr !in heap.free[p]
      ensures heap.IsLive(ptr) || forall p :: !heap.OnPage(p, ptr)
    {
      forall p | p in heap.all ensures ptr !in heap.free[p] {
        if ptr in heap.free[p] {
          heap.FreeIsOnPage(p, ptr);
          heap.NotLive(p, ptr);
          OnNoPage(ptr);
        }
      }
      if !heap.IsLive(ptr) {
        OnNoPage(ptr);
      }
    }

    lemma OnNoPage(ptr: int)
      requires Valid() && exists n :: n >= 1 && (ptr, n) in big
      ensures forall p :: !heap.OnPage(p, ptr)
    {
      var n :| n >= 1 && (ptr, n) in big;
      forall p ensures !heap.OnPage(p, ptr) {
        if p in heap.all {
          assert Apart((ptr, n).0, (ptr, n).1, PageAddr(heap.pab[p]), 1);
        }
      }
    }
  }

  /** `t` is `s` without its one occurrence of `x`, the rest in order. */
  ghost predicate RemovedOne(s: seq<int>, t: seq<int>, x: int) {
    && (forall y :: y in t <==> y in s && y != x)
    && exists k :: 0 <= k < |s| && s[k] == x && t == s[..k] + s[k + 1..]
  }

  lemma RemovedAt(next: map<int, int>, nil: int, head: int, s: seq<int>, k: nat)
    requires IsList(next, nil, head, s) && k < |s|
    ensures RemovedOne(s, s[..k] + s[k + 1..], s[k])
  {
    assert s == s[..k] + [s[k]] + s[k + 1..];
    forall j | 0 <= j < |s| && j != k ensures s[j] != s[k] {
      if j < k { ListDistinct(next, nil, head, s, j, k); } else { ListDistinct(next, nil, head, s, k, j); }
    }
  }

  lemma ListNotNil(next: map<int, int>, nil: int, head: int, s: seq<int>, k: nat)
    requires IsList(next, nil, head, s) && k < |s|
    ensures k > 0 ==> s[k - 1] != nil
  {
    if k > 0 { ListAt(next, nil, head, s, k - 1); }
  }

  /** Writing inside one page leaves the free lists of the others alone. */
  lemma OtherPageKept(mem: map<int, int>, mem': map<int, int>, pab: nat, offset: nat, nfree: nat, fs: seq<int>,
                      page: nat)
    requires PageOk(mem, pab, offset, nfree, fs) && page % PAGE == 0 && PageAddr(pab) != page
    requires Only(mem, mem', page, PAGE)
    ensures PageOk(mem', pab, offset, nfree, fs)
  {
    forall a | a in fs ensures !(page <= a < page + PAGE) {
      if page <= a < page + PAGE {
        AlignedPagesApart(PageAddr(pab), page, a);
      }
    }
    PageFrame(mem, mem', pab, offset, nfree, fs);
  }

  lemma FreshPageOk(mem: map<int, int>, page: nat, t: nat)
    requires t < NSIZES && page > 0 && page % PAGE == 0
    requires var n := PAGE / SIZES[t];
      IsList(mem, 0, page + (n - 1) * SIZES[t], Descending(page, SIZES[t], n))
    ensures var n := PAGE / SIZES[t];
      (n - 1) * SIZES[t] < PAGE &&
      PageOk(mem, MkPab(page, t), (n - 1) * SIZES[t], n, Descending(page, SIZES[t], n))
    ensures forall a :: IsBlock(page, t, a) ==> a in Descending(page, SIZES[t], PAGE / SIZES[t])
  {
    PabParts(page, t);
    SizesDividePage(t);
    var size, n := SIZES[t], PAGE / SIZES[t];
    MultipleIsBlock(n - 1, size, n);
    forall a ensures a in Descending(page, size, n) <==> IsBlock(page, t, a) {
      DescendingHas(page, size, n, a);
      BlocksAre(page, t, a);
    }
  }

  /** One more block before the free list of those threaded so far. */
  lemma ThreadNext(mem: map<int, int>, page: nat, size: nat, i: nat, n: nat)
    requires size > 0 && n * size == PAGE && 1 <= i < n && page > 0
    requires IsList(mem, 0, page + (i - 1) * size, Descending(page, size, i))
    ensures IsList(mem[page + i * size := page + (i - 1) * size], 0, page + i * size, Descending(page, size, i + 1))
    ensures page <= page + i * size < page + PAGE
  {
    NextBlock(page, size, i, n);
    ListPush(mem, 0, page + (i - 1) * size, Descending(page, size, i), page + i * size);
    assert Descending(page, size, i + 1) == [page + i * size] + Descending(page, size, i);
  }

  lemma NextBlock(page: nat, size: nat, i: nat, n: nat)
    requires size > 0 && n * size == PAGE && i < n
    ensures page + i * size !in Descending(page, size, i)
    ensures page <= page + i * size < page + PAGE
  {
    var a := page + i * size;
    DescendingHas(page, size, i, a);
    BlockSetHas(page, size, i, a);
    MultipleIsBlock(i, size, n);
    if j: nat :| j < i && a == page + j * size {
      MulGap(j, i, size);
    }
  }

  lemma ListHead(next: map<int, int>, nil: int, head: int, s: seq<int>)
    requires IsList(next, nil, head, s)
    ensures head == At(nil, s, 0)
  {
  }

  lemma EndOfList(next: map<int, int>, nil: int, head: int, s: seq<int>, k: nat)
    requires IsList(next, nil, head, s) && k <= |s| && At(nil, s, k) == nil
    ensures k == |s|
  {
    ListAt(next, nil, head, s, k);
  }

  lemma AlignedPagesApart(pa: nat, qa: nat, a: int)
    requires pa % PAGE == 0 && qa % PAGE == 0 && pa <= a < pa + PAGE && qa <= a < qa + PAGE
    ensures pa == qa
  {
  }
}
