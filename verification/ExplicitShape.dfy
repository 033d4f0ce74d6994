/** What each public call of lab7/mm_v4.c does, block by block and node by node. */
module ExplicitShape {
  import opened BlockLayout
  import opened ExplicitSpec
  import opened FreeList
  import opened Memlib
  import opened Seqs
  import opened Takes

  // ----- block sizes

  /** The block is the least multiple of 8 that holds the request and two tags, but for
      small requests and the two sizes of the traces. */
  lemma BlockSizeLeast(size: nat)
    ensures size <= 8 ==> BlockSize(size) == 24
    ensures size == 112 ==> BlockSize(size) == 136
    ensures size == 448 ==> BlockSize(size) == 520
    ensures size > 8 && size != 112 && size != 448 ==>
              BlockSize(size) % 8 == 0 && size + 8 <= BlockSize(size) < size + 16
  {
  }

  // ----- the list

  /** The nodes of a list other than `n`, in order. */
  function Others(l: seq<nat>, n: nat): seq<nat> {
    if l == [] then [] else (if l[0] == n then [] else [l[0]]) + Others(l[1..], n)
  }

  lemma {:induction false} NoneAmong(l: seq<nat>, n: nat)
    requires n !in l
    ensures Others(l, n) == l
  {
    if l != [] { NoneAmong(l[1..], n); }
  }

  lemma {:induction false} OthersCut(l: seq<nat>, k: nat)
    requires Distinct(l) && k < |l|
    ensures Others(l, l[k]) == Without(l, k)
  {
    if k == 0 {
      NoneAmong(l[1..], l[0]);
      assert Without(l, 0) == l[1..];
    } else {
      OthersCut(l[1..], k - 1);
      assert Without(l, k) == [l[0]] + Without(l[1..], k - 1);
    }
  }

  lemma RemovedIsOthers(l: seq<nat>, n: nat)
    requires Distinct(l)
    ensures Removed(l, n) == Others(l, n)
  {
    hide Index, Others;
    if n in l {
      OthersCut(l, Index(l, n));
    } else {
      NoneAmong(l, n);
    }
  }

  lemma OthersOfHead(l: seq<nat>, n: nat)
    requires n !in l
    ensures Others([n] + l, n) == l
  {
    NoneAmong(l, n);
    assert ([n] + l)[1..] == l;
  }

  // ----- mm_malloc

  /** When blocks on the list are large enough the first of them is taken, all or its
      first part; the rest, of 24 bytes or more, becomes the head of the list. */
  lemma MallocTakes(h: State, size: nat, i: nat)
    requires Inv(h) && Served(h, size) && size != 0 && i < |h.free|
    requires h.blocks[h.free[i]].size >= BlockSize(size)
    requires forall j | 0 <= j < i :: h.blocks[h.free[j]].size < BlockSize(size)
    ensures var (x, p) := Malloc(h, size);
            var c, asize := h.blocks[p].size, BlockSize(size);
            && p == h.free[i] && x.brk == h.brk && Taken(h.blocks, x.blocks, p, c, asize, 24)
            && x.free == (if c >= asize + 24 then [p + asize] else []) + h.free[..i] + h.free[i + 1..]
  {
    hide Served, Extend, Place, FirstFit, Tiling, Coalesced, Lists, Taken;
    FitIs(h, BlockSize(size), i, 0);
    PlaceFits(h, i, BlockSize(size));
  }

  lemma PlaceFits(h: State, i: nat, asize: nat)
    requires Inv(h) && i < |h.free| && MIN <= asize <= h.blocks[h.free[i]].size
    ensures var p := h.free[i];
            var c, y := h.blocks[p].size, Place(h, p, asize);
            && y.brk == h.brk && Taken(h.blocks, y.blocks, p, c, asize, 24)
            && y.free == (if c >= asize + 24 then [p + asize] else []) + h.free[..i] + h.free[i + 1..]
  {
    hide Coalesced, Lists, Index;
    var p := h.free[i];
    assert p in h.free;
    if h.blocks[p].size >= asize + 24 { SplitInside(h, p, asize); }
    assert Removed(h.free, p) == h.free[..i] + h.free[i + 1..];
  }

  lemma {:induction false} FitIs(h: State, asize: nat, i: nat, k: nat)
    requires FreeNodes(h.blocks, h.free) && k <= i < |h.free| && h.blocks[h.free[i]].size >= asize
    requires forall j | 0 <= j < i :: h.blocks[h.free[j]].size < asize
    ensures FirstFit(h.blocks, h.free, asize, k) == i
  {
  }

  /** A remainder does not lie on another block. */
  lemma SplitInside(h: State, p: nat, asize: nat)
    requires Tiling(h.blocks, h.brk, MIN) && p in h.blocks && 24 <= asize && asize + 24 <= h.blocks[p].size
    ensures p + asize !in h.blocks
  {
    assert p + asize in h.blocks ==> ApartAt(h.blocks, p, p + asize);
  }

  /** When none is, the heap grows by the block size, but by 4104 bytes at least; what is
      free at its end, with a free block that was last, is taken in the same way. */
  lemma MallocGrowsBy(h: State, size: nat, grown: nat)
    requires Inv(h) && Served(h, size) && size != 0
    requires forall b | b in h.blocks && !h.blocks[b].alloc :: h.blocks[b].size < BlockSize(size)
    requires grown == h.brk + if BlockSize(size) > 4104 then BlockSize(size) else 4104
    ensures grown > MAX_HEAP ==> Malloc(h, size) == (h, 0)
    ensures grown <= MAX_HEAP ==>
              var (x, p) := Malloc(h, size);
              var c, asize := grown - p, BlockSize(size);
              && x.brk == grown && LastFree(h.blocks, h.brk, p) && Taken(h.blocks, x.blocks, p, c, asize, 24)
              && x.free == (if c >= asize + 24 then [p + asize] else []) + Others(h.free, p)
  {
    hide Served, Coalesce, Extend, Place, FirstFit, Tiling, Coalesced, Lists, Taken, LastFree, Others;
    var asize := BlockSize(size);
    assert forall n | n in h.free :: h.blocks[n].size < asize;
    if grown <= MAX_HEAP {
      var (x, p) := Extend(h, grown - h.brk).value;
      ExtendInv(h, grown - h.brk);
      ExtendIs(h, grown - h.brk);
      PlaceTakes(h, x, p, asize);
    }
  }

  /** Placing in the free block that an extension gave. */
  lemma PlaceTakes(h: State, x: State, p: nat, asize: nat)
    requires Inv(h) && Inv(x) && p <= x.brk && MIN <= asize <= x.brk - p
    requires x.blocks == h.blocks[p := Block(x.brk - p, false)] && x.free == [p] + Others(h.free, p)
    ensures var c, y := x.brk - p, Place(x, p, asize);
            && y.brk == x.brk && Taken(h.blocks, y.blocks, p, c, asize, 24)
            && y.free == (if c >= asize + 24 then [p + asize] else []) + Others(h.free, p)
  {
    hide Others, Coalesced, Lists;
    var rest := Others(h.free, p);
    assert p !in rest by { NoMore(h.free, p); }
    assert Removed(x.free, p) == rest by {
      RemovedIsOthers(x.free, p);
      OthersOfHead(rest, p);
    }
    if x.brk - p >= asize + 24 { SplitInside(x, p, asize); }
  }

  lemma {:induction false} NoMore(l: seq<nat>, n: nat)
    ensures n !in Others(l, n)
  {
    if l != [] { NoMore(l[1..], n); }
  }

  /** The chunk and a free block before it become one free block. */
  lemma ExtendIs(h: State, size: nat)
    requires Inv(h) && size % 8 == 0 && size >= MIN && h.brk + size <= MAX_HEAP
    ensures var (x, p) := Extend(h, size).value;
            && x.brk == h.brk + size && LastFree(h.blocks, h.brk, p)
            && x.blocks == h.blocks[p := Block(x.brk - p, false)] && x.free == [p] + Others(h.free, p)
  {
    hide Coalesced, LastFree, Others, Merged, MergeHi, MergeLo, Removed, Tiling, Lists;
    var m := Extended(h.blocks, h.brk, size);
    ExtendedTiles(h.blocks, h.brk, MIN, size);
    BrkBeyond(h.blocks, h.brk, MIN);
    ChunkMerges(h.blocks, h.brk, MIN, size);
    var p := MergeLo(m, h.brk + size, MIN, h.brk);
    NotListed(h, h.brk);
    NotListed(h, h.brk + size);
    RemovedTwice(h.free, p, h.brk, h.brk + size);
  }

  lemma RemovedTwice(l: seq<nat>, p: nat, a: nat, b: nat)
    requires Distinct(l) && a !in l && b !in l
    ensures Removed(if p == a then l else Removed(l, p), b) == Others(l, p)
  {
    RemovedFacts(l, p);
    RemovedIsOthers(l, p);
    if p == a { NoneAmong(l, p); }
  }

  lemma NotListed(h: State, b: nat)
    requires Inv(h) && b >= h.brk
    ensures b !in h.free
  {
    assert b in h.blocks ==> SizedAt(h.blocks, h.brk, MIN, b);
  }

  // ----- mm_free

  /** The freed block and its free neighbours become one free block, the head of the list;
      the other blocks, and the other nodes in their order, stay. */
  lemma FreeMerges(h: State, bp: nat)
    requires Inv(h) && Live(h.blocks, bp)
    ensures exists lo: nat, hi: nat :: FreedRegion(h.blocks, h.brk, bp, lo, hi) && FreedTo(h, Free(h, bp), lo, hi)
  {
    var m := Freed(h.blocks, bp);
    MarkedTiles(h.blocks, h.brk, MIN, bp, false);
    var lo, hi := MergeLo(m, h.brk, MIN, bp), MergeHi(m, h.brk, MIN, bp);
    var n := End(m, bp);
    MergeExtent(m, h.brk, MIN, bp);
    FreedRegionIs(h.blocks, h.brk, MIN, bp);
    var l1 := if lo == bp then h.free else Removed(h.free, lo);
    RemovedFacts(h.free, lo);
    RemovedIsOthers(h.free, lo);
    NotFree(h, bp);
    RemovedIsOthers(l1, n);
    MergedKeys(h, bp, lo, hi);
    ListedInside(h, bp, lo, hi, n);
    assert FreedTo(h, Free(h, bp), lo, hi);
  }

  lemma NotFree(h: State, bp: nat)
    requires Inv(h) && Live(h.blocks, bp)
    ensures bp !in h.free && Others(h.free, bp) == h.free
  {
    NoneAmong(h.free, bp);
  }

  /** The heap `x` is `h` with everything from lo to hi as one free block. */
  ghost predicate FreedTo(h: State, x: State, lo: nat, hi: nat) {
    && x.brk == h.brk && lo < hi
    && (forall b :: b in x.blocks <==> b == lo || (b in h.blocks && !(lo <= b < hi)))
    && x.blocks[lo] == Block(hi - lo, false)
    && (forall b | b in x.blocks && b != lo :: x.blocks[b] == h.blocks[b])
    && x.free == [lo] + Outside(h.free, lo, hi)
  }

  /** The nodes of a list that do not lie from lo to hi, in order. */
  function Outside(l: seq<nat>, lo: nat, hi: nat): seq<nat> {
    if l == [] then [] else (if lo <= l[0] < hi then [] else [l[0]]) + Outside(l[1..], lo, hi)
  }

  lemma MergedKeys(h: State, bp: nat, lo: nat, hi: nat)
    requires Inv(h) && Live(h.blocks, bp) && Tiling(Freed(h.blocks, bp), h.brk, MIN)
    requires lo == MergeLo(Freed(h.blocks, bp), h.brk, MIN, bp) && hi == MergeHi(Freed(h.blocks, bp), h.brk, MIN, bp)
    ensures var x := Free(h, bp);
            && x.brk == h.brk && lo < hi
            && (forall b :: b in x.blocks <==> b == lo || (b in h.blocks && !(lo <= b < hi)))
            && x.blocks[lo] == Block(hi - lo, false)
            && (forall b | b in x.blocks && b != lo :: x.blocks[b] == h.blocks[b])
  {
    assert SizedAt(h.blocks, h.brk, MIN, bp);
  }

  lemma {:induction false} TwoOthers(l: seq<nat>, a: nat, n: nat, lo: nat, hi: nat)
    requires forall x | x in l :: lo <= x < hi <==> x == a || x == n
    ensures Others(Others(l, a), n) == Outside(l, lo, hi)
  {
    if l != [] {
      assert l[0] in l && forall x | x in l[1..] :: x in l;
      TwoOthers(l[1..], a, n, lo, hi);
      var t := Others(l[1..], a);
      if l[0] == a {
        assert Others(l, a) == t;
      } else {
        assert Others(l, a) == [l[0]] + t && ([l[0]] + t)[1..] == t;
      }
    }
  }

  lemma ListedInside(h: State, bp: nat, lo: nat, hi: nat, n: nat)
    requires Inv(h) && Live(h.blocks, bp) && Tiling(Freed(h.blocks, bp), h.brk, MIN)
    requires lo == MergeLo(Freed(h.blocks, bp), h.brk, MIN, bp) && hi == MergeHi(Freed(h.blocks, bp), h.brk, MIN, bp)
    requires n == End(h.blocks, bp)
    ensures Others(if lo == bp then h.free else Others(h.free, lo), n) == Outside(h.free, lo, hi)
  {
    hide MergeLo, MergeHi, Tiling;
    NotFree(h, bp);
    forall x | x in h.free ensures lo <= x < hi <==> x == lo || x == n {
      assert x in h.blocks && !h.blocks[x].alloc && x != bp;
      RegionBlocks(h.blocks, h.brk, MIN, bp, x);
    }
    TwoOthers(h.free, lo, n, lo, hi);
  }

  // ----- mm_init

  /** mm_init leaves one free block of 4104 bytes, listed, behind the prologue. */
  lemma InitIs()
    ensures Init().blocks == map[8 := Block(8, true), 16 := Block(4104, false)]
    ensures Init().brk == 4120 && Init().free == [16]
  {
  }
}
