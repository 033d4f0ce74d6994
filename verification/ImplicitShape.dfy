/** What each public call of lab7/mm.c does, block by block, and where it leaves the rover. */
module ImplicitShape {
  import opened BlockLayout
  import opened ImplicitSpec
  import opened Memlib
  import opened Takes
  import opened Wrappers

  /** The block is the least multiple of 8 that holds the request and two tags, and 16 for
      small requests. */
  lemma BlockSizeLeast(size: nat)
    ensures size <= 8 ==> BlockSize(size) == 16
    ensures size > 8 ==> BlockSize(size) % 8 == 0 && size + 8 <= BlockSize(size) < size + 16
  {
  }

  // ----- the search

  /** p is the first block large enough from the rover on or, when there is none up to the
      end of the heap, from its start. */
  ghost predicate NextFitting(m: Layout, last: nat, p: nat, asize: nat) {
    && Fits(m, p, asize)
    && (if p >= last then forall b: nat | last <= b < p :: !Fits(m, b, asize)
        else forall b: nat | b < p || last <= b :: !Fits(m, b, asize))
  }

  /** The search starts at the rover and goes round. */
  lemma NextFitIs(h: State, asize: nat, p: nat)
    requires Inv(h)
    ensures NextFit(h, asize) == Some(p) <==> NextFitting(h.blocks, h.last, p, asize)
  {
    BlockBounds(h.blocks, h.brk, h.last);
    ScanFinds(h.blocks, h.brk, h.last, h.brk, asize);
    ScanFinds(h.blocks, h.brk, PROLOGUE, h.last, asize);
    forall b: nat | b in h.blocks ensures PROLOGUE <= b < h.brk { BlockBounds(h.blocks, h.brk, b); }
  }

  // ----- mm_malloc

  /** The next block that fits is taken, all or its first part, with a rest of 16 bytes or
      more left free, and the rover stays at it. */
  lemma MallocTakes(h: State, size: nat, p: nat)
    requires Inv(h) && Served(h, size) && size != 0 && NextFitting(h.blocks, h.last, p, BlockSize(size))
    ensures var (x, q) := Malloc(h, size);
            && q == p && x.brk == h.brk && x.last == p
            && Taken(h.blocks, x.blocks, p, h.blocks[p].size, BlockSize(size), 16)
  {
    hide Served, Extend, NextFit, NextFitting, Coalesced;
    NextFitIs(h, BlockSize(size), p);
    assert Fits(h.blocks, p, BlockSize(size)) by { NextFitFinds(h, BlockSize(size)); }
    SplitInside(h, p, BlockSize(size));
  }

  lemma SplitInside(h: State, p: nat, asize: nat)
    requires Tiling(h.blocks, h.brk, MIN) && p in h.blocks && 16 <= asize
    ensures asize + 16 <= h.blocks[p].size ==> p + asize !in h.blocks
  {
    assert p + asize in h.blocks ==> ApartAt(h.blocks, p, p + asize);
  }

  /** When none fits the heap grows by the block size, but by 4096 bytes at least; what is
      free at its end is taken in the same way, and the rover stays where it was. */
  lemma MallocGrowsBy(h: State, size: nat, grown: nat)
    requires Inv(h) && Served(h, size) && size != 0
    requires forall b: nat :: !Fits(h.blocks, b, BlockSize(size))
    requires grown == h.brk + if BlockSize(size) > 4096 then BlockSize(size) else 4096
    ensures grown > MAX_HEAP ==> Malloc(h, size) == (h, 0)
    ensures grown <= MAX_HEAP ==>
              var (x, p) := Malloc(h, size);
              && x.brk == grown && x.last == h.last && LastFree(h.blocks, h.brk, p)
              && Taken(h.blocks, x.blocks, p, grown - p, BlockSize(size), 16)
  {
    hide Served, Extend, NextFit, Tiling, Coalesced, LastFree, Place, Taken;
    var asize := BlockSize(size);
    NextFitFinds(h, asize);
    if grown <= MAX_HEAP {
      var (x, p) := Extend(h, grown - h.brk).value;
      ExtendInv(h, grown - h.brk);
      ExtendIs(h, grown - h.brk);
      PlaceTakes(h, x, p, asize);
    }
  }

  lemma PlaceTakes(h: State, x: State, p: nat, asize: nat)
    requires Inv(h) && Inv(x) && p <= x.brk && MIN <= asize <= x.brk - p
    requires x.blocks == h.blocks[p := Block(x.brk - p, false)]
    ensures var y := Place(x, p, asize);
            y.brk == x.brk && y.last == x.last && Taken(h.blocks, y.blocks, p, x.brk - p, asize, 16)
  {
    hide Coalesced;
    SplitInside(x, p, asize);
  }

  lemma ExtendIs(h: State, size: nat)
    requires Inv(h) && size % 8 == 0 && size >= MIN && h.brk + size <= MAX_HEAP
    ensures var (x, p) := Extend(h, size).value;
            && x.brk == h.brk + size && x.last == h.last && LastFree(h.blocks, h.brk, p) && p <= h.brk
            && x.blocks == h.blocks[p := Block(x.brk - p, false)]
  {
    hide Coalesced, LastFree, Merged, MergeLo;
    ExtendedTiles(h.blocks, h.brk, MIN, size);
    BrkBeyond(h.blocks, h.brk, MIN);
    ChunkMerges(h.blocks, h.brk, MIN, size);
    var m := Extended(h.blocks, h.brk, size);
    RoverBelow(h, MergeLo(m, h.brk + size, MIN, h.brk));
  }

  /** The rover is not behind the last free block. */
  lemma RoverBelow(h: State, p: nat)
    requires Inv(h) && LastFree(h.blocks, h.brk, p)
    ensures h.last <= p
  {
    BlockBounds(h.blocks, h.brk, h.last);
    assert SizedAt(h.blocks, h.brk, MIN, h.last);
    assert p in h.blocks ==> ApartAt(h.blocks, p, h.last);
  }

  // ----- mm_free

  /** The heap `x` is `h` with everything from lo to hi as one free block, and the rover at
      its start if it was inside. */
  ghost predicate FreedTo(h: State, x: State, lo: nat, hi: nat) {
    && x.brk == h.brk && lo < hi
    && (forall b :: b in x.blocks <==> b == lo || (b in h.blocks && !(lo <= b < hi)))
    && x.blocks[lo] == Block(hi - lo, false)
    && (forall b | b in x.blocks && b != lo :: x.blocks[b] == h.blocks[b])
    && x.last == if lo < h.last < hi then lo else h.last
  }

  lemma FreeMerges(h: State, bp: nat)
    requires Inv(h) && Live(h.blocks, bp)
    ensures exists lo: nat, hi: nat :: FreedRegion(h.blocks, h.brk, bp, lo, hi) && FreedTo(h, Free(h, bp), lo, hi)
  {
    var m := Freed(h.blocks, bp);
    BlockBounds(h.blocks, h.brk, bp);
    MarkedTiles(h.blocks, h.brk, MIN, bp, false);
    FreedRegionIs(h.blocks, h.brk, MIN, bp);
    assert SizedAt(h.blocks, h.brk, MIN, bp);
    assert FreedTo(h, Free(h, bp), MergeLo(m, h.brk, MIN, bp), MergeHi(m, h.brk, MIN, bp));
  }

  // ----- mm_realloc

  /** For NULL it is mm_malloc, for size 0 mm_free; else, when mm_malloc has a block, the
      old one is freed behind it, and when it has none nothing happens. */
  lemma ReallocIs(h: State, ptr: nat, size: nat)
    requires Inv(h) && (ptr == 0 || Live(h.blocks, ptr)) && Served(h, size)
    ensures ptr == 0 ==> Realloc(h, ptr, size) == Malloc(h, size)
    ensures ptr != 0 && size == 0 ==> Realloc(h, ptr, size) == (Free(h, ptr), 0)
    ensures ptr != 0 && size != 0 ==>
              var (y, p) := Malloc(h, size);
              if p == 0 then Realloc(h, ptr, size) == (h, 0)
              else Inv(y) && Live(y.blocks, ptr) && Realloc(h, ptr, size) == (Free(y, ptr), p)
  {
    hide Served, Inv;
    MallocInv(h, size);
    MallocSafe(h, size);
  }

  // ----- mm_init

  /** mm_init leaves one free block of 4096 bytes, and the rover at the prologue before it. */
  lemma InitIs()
    ensures Init().blocks == map[8 := Block(8, true), 16 := Block(4096, false)]
    ensures Init().brk == 4112 && Init().last == 8
  {
  }
}
