/**
 The pages of the subpage allocator seen one at a time: a page holds blocks of one size, and its
 free blocks form a list threaded through their first words.
 */
module HeapPages {
  import opened LinkedLists
  import opened Multiplication

  const PAGE: nat := 4096
  const NSIZES: nat := 8
  const SIZES: seq<nat> := [16, 32, 64, 128, 256, 512, 1024, 2048]
  const INVALID_OFFSET: nat := 0xffff

  /** A pageref keeps page address and block type in one word. */
  function PageAddr(pab: nat): nat { pab / PAGE * PAGE }

  function BlockTypeOf(pab: nat): nat { pab % PAGE }

  function MkPab(pa: nat, blk: nat): nat { pa / PAGE * PAGE + blk % PAGE }

  lemma PabParts(pa: nat, blk: nat)
    requires pa % PAGE == 0 && blk < NSIZES
    ensures PageAddr(MkPab(pa, blk)) == pa && BlockTypeOf(MkPab(pa, blk)) == blk
  {
  }

  lemma SizesDividePage(t: nat)
    requires t < NSIZES
    ensures 16 <= SIZES[t] <= 2048 && PAGE / SIZES[t] * SIZES[t] == PAGE && 2 <= PAGE / SIZES[t]
  {
  }

  /** Every size is twice the one before it, from 16 on, so the first that fits is the smallest. */
  lemma SizesDouble()
    ensures |SIZES| == NSIZES && SIZES[0] == 16 && forall t :: 0 < t < NSIZES ==> SIZES[t] == 2 * SIZES[t - 1]
    ensures forall t, u :: 0 <= t < u < NSIZES ==> SIZES[t] < SIZES[u]
  {
  }

  lemma SizesAreWords(t: nat)
    requires t < NSIZES
    ensures SIZES[t] % 4 == 0
  {
  }

  /** Whether `a` is the address of a block on the page at `pa`. */
  predicate IsBlock(pa: nat, t: nat, a: int)
    requires t < NSIZES
  {
    pa <= a < pa + PAGE && (a - pa) % SIZES[t] == 0
  }

  lemma BlocksDisjoint(pa: nat, size: nat, n: nat, a: int, b: int)
    requires size > 0 && n * size == PAGE && pa <= a < b < pa + PAGE
    requires (a - pa) % size == 0 && (b - pa) % size == 0
    ensures a + size <= b && b + size <= pa + PAGE
  {
    Fits(b - pa, size, n);
    Apart(a - pa, b - pa, size);
  }

  lemma Apart(x: nat, y: nat, size: nat)
    requires size > 0 && x < y && x % size == 0 && y % size == 0
    ensures x + size <= y
  {
    var i, j := x / size, y / size;
    assert x == i * size && y == j * size;
    if j <= i {
      MulMono(j, i, size);
    } else {
      MulGap(i, j, size);
    }
  }

  lemma BlockFits(pa: nat, t: nat, a: int)
    requires t < NSIZES && IsBlock(pa, t, a)
    ensures a + SIZES[t] <= pa + PAGE
  {
    SizesDividePage(t);
    Fits(a - pa, SIZES[t], PAGE / SIZES[t]);
  }

  lemma Fits(offset: nat, size: nat, n: nat)
    requires size > 0 && n * size == PAGE && offset < PAGE && offset % size == 0
    ensures offset + size <= PAGE
    ensures offset / size < n
  {
    var j := offset / size;
    assert offset == j * size;
    if n <= j {
      MulMono(n, j, size);
    } else {
      MulGap(j, n, size);
    }
  }

  // ---------------------------------------------------------------------------------------
  // How many blocks a page has.
  // ---------------------------------------------------------------------------------------

  ghost function BlockSet(pa: int, size: int, n: nat): set<int> {
    if n == 0 then {} else BlockSet(pa, size, n - 1) + {pa + (n - 1) * size}
  }

  lemma {:induction false} BlockSetHas(pa: int, size: int, n: nat, a: int)
    requires size > 0
    ensures a in BlockSet(pa, size, n) <==> exists i: nat :: i < n && a == pa + i * size
  {
    if n > 0 {
      BlockSetHas(pa, size, n - 1, a);
      if a == pa + (n - 1) * size {
        assert n - 1 < n && a == pa + (n - 1) * size;
      }
    }
  }

  lemma {:induction false} BlockSetSize(pa: int, size: int, n: nat)
    requires size > 0
    ensures |BlockSet(pa, size, n)| == n
  {
    if n > 0 {
      BlockSetSize(pa, size, n - 1);
      var last := pa + (n - 1) * size;
      BlockSetHas(pa, size, n - 1, last);
      if i: nat :| i < n - 1 && last == pa + i * size {
        MulGap(i, n - 1, size);
      }
    }
  }

  ghost function Blocks(pa: nat, t: nat): (s: set<int>)
    requires t < NSIZES
  {
    BlockSet(pa, SIZES[t], PAGE / SIZES[t])
  }

  lemma BlocksAre(pa: nat, t: nat, a: int)
    requires t < NSIZES
    ensures a in Blocks(pa, t) <==> IsBlock(pa, t, a)
    ensures |Blocks(pa, t)| == PAGE / SIZES[t]
  {
    SizesDividePage(t);
    BlocksOfSize(pa, SIZES[t], PAGE / SIZES[t], a);
  }

  lemma BlocksOfSize(pa: nat, size: nat, n: nat, a: int)
    requires size > 0 && n * size == PAGE
    ensures a in BlockSet(pa, size, n) <==> pa <= a < pa + PAGE && (a - pa) % size == 0
    ensures |BlockSet(pa, size, n)| == n
  {
    hide BlockSet;
    BlockSetSize(pa, size, n);
    BlockSetHas(pa, size, n, a);
    if pa <= a < pa + PAGE && (a - pa) % size == 0 {
      Fits(a - pa, size, n);
      assert a == pa + (a - pa) / size * size;
    }
    if i: nat :| i < n && a == pa + i * size {
      MultipleIsBlock(i, size, n);
    }
  }

  lemma MultipleIsBlock(i: nat, size: nat, n: nat)
    requires size > 0 && n * size == PAGE && i < n
    ensures i * size < PAGE && (i * size) % size == 0
  {
    MulGap(i, n, size);
    ModZero(i, size);
  }

  lemma ModZero(i: nat, size: nat)
    requires size > 0
    ensures (i * size) % size == 0
  {
    var q, r := (i * size) / size, (i * size) % size;
    assert q * size + r == i * size;
    if q < i {
      MulGap(q, i, size);
    } else {
      MulMono(i, q, size);
    }
  }

  // ---------------------------------------------------------------------------------------
  // One page's free list.
  // ---------------------------------------------------------------------------------------

  /** The address of the first free block; 0 is the null pointer. */
  function Head(pab: nat, offset: nat): nat {
    if offset == INVALID_OFFSET then 0 else PageAddr(pab) + offset
  }

  /** What checksubpage looks for: the free list stays on the page, on block boundaries, ends,
      and has `nfree` entries. That no block is on it twice follows. */
  ghost predicate PageOk(mem: map<int, int>, pab: nat, offset: nat, nfree: nat, fs: seq<int>) {
    && BlockTypeOf(pab) < NSIZES && PageAddr(pab) > 0
    && (offset == INVALID_OFFSET || offset < PAGE)
    && nfree == |fs|
    && (forall a :: a in fs ==> IsBlock(PageAddr(pab), BlockTypeOf(pab), a))
    && IsList(mem, 0, Head(pab, offset), fs)
  }

  lemma PageFrame(mem: map<int, int>, mem': map<int, int>, pab: nat, offset: nat, nfree: nat, fs: seq<int>)
    requires PageOk(mem, pab, offset, nfree, fs)
    requires forall a :: a in fs && a in mem ==> a in mem' && mem'[a] == mem[a]
    ensures PageOk(mem', pab, offset, nfree, fs)
  {
    ListFrame(mem, mem', 0, Head(pab, offset), fs);
  }

  /** Taking the first free block. */
  lemma PopOk(mem: map<int, int>, pab: nat, offset: nat, nfree: nat, fs: seq<int>)
    requires PageOk(mem, pab, offset, nfree, fs) && nfree > 0
    ensures offset != INVALID_OFFSET && fs[0] == PageAddr(pab) + offset && fs[0] in mem && fs[0] !in fs[1..]
    ensures BlockTypeOf(pab) < NSIZES && IsBlock(PageAddr(pab), BlockTypeOf(pab), fs[0]) && |fs| == nfree
    ensures var next := mem[fs[0]];
      && (next == 0 <==> nfree == 1)
      && (next != 0 ==> 0 <= next - PageAddr(pab) < PAGE)
      && PageOk(mem, pab, if next == 0 then INVALID_OFFSET else next - PageAddr(pab), nfree - 1, fs[1..])
  {
    ListAt(mem, 0, Head(pab, offset), fs, 0);
    ListAt(mem, 0, Head(pab, offset), fs, 1);
    forall j | 0 < j < |fs| ensures fs[j] != fs[0] { ListDistinct(mem, 0, Head(pab, offset), fs, 0, j); }
    if nfree > 1 {
      assert fs[1] in fs;
    }
  }

  /** Putting a block in front of the free list. */
  lemma PushOk(mem: map<int, int>, pab: nat, offset: nat, nfree: nat, fs: seq<int>, a: int)
    requires PageOk(mem, pab, offset, nfree, fs)
    requires IsBlock(PageAddr(pab), BlockTypeOf(pab), a) && a !in fs
    ensures a >= PageAddr(pab)
    ensures PageOk(mem[a := Head(pab, offset)], pab, a - PageAddr(pab), nfree + 1, [a] + fs)
  {
    ListPush(mem, 0, Head(pab, offset), fs, a);
  }

  /** The free blocks are at most all, and if all but one are free the rest is that one. */
  lemma FreeCount(mem: map<int, int>, pab: nat, offset: nat, nfree: nat, fs: seq<int>)
    requires PageOk(mem, pab, offset, nfree, fs)
    ensures nfree <= PAGE / SIZES[BlockTypeOf(pab)]
    ensures |Blocks(PageAddr(pab), BlockTypeOf(pab)) - (set a | a in fs)| == PAGE / SIZES[BlockTypeOf(pab)] - nfree
  {
    var pa, t := PageAddr(pab), BlockTypeOf(pab);
    var f := set a | a in fs;
    var all := Blocks(pa, t);
    ListCount(mem, 0, Head(pab, offset), fs);
    forall a | a in f ensures a in all { BlocksAre(pa, t, a); }
    BlocksAre(pa, t, 0);
    assert all == (all - f) + f;
    assert |all| == |all - f| + |f|;
  }

  /** The free list of a fresh page, as far as `n` blocks: last block first. */
  ghost function Descending(pa: int, size: int, n: nat): (s: seq<int>)
    ensures |s| == n
  {
    if n == 0 then [] else [pa + (n - 1) * size] + Descending(pa, size, n - 1)
  }

  lemma {:induction false} DescendingHas(pa: int, size: int, n: nat, a: int)
    ensures a in Descending(pa, size, n) <==> a in BlockSet(pa, size, n)
  {
    if n > 0 {
      DescendingHas(pa, size, n - 1, a);
    }
  }
}
