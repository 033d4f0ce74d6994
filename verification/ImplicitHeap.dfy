/** lab7/mm.c in place: boundary tags in the words of the heap and a next-fit rover,
    each call proved against ImplicitSpec. */
module ImplicitHeap {
  import opened BlockLayout
  import opened Bytes
  import opened Memlib
  import opened Requests
  import opened Tags
  import opened ImplicitSpec
  import opened Wrappers

  ghost predicate Image(s: Memory, m: Layout, brk: nat) {
    Tiling(m, brk, MIN) && brk <= |s| == MAX_HEAP && Tagged(s, m, brk)
  }

  lemma MergeRegion(m: Layout, brk: nat, bp: nat)
    requires Tiling(m, brk, MIN) && bp in m && bp != PROLOGUE && !m[bp].alloc
    ensures var lo, hi := MergeLo(m, brk, MIN, bp), MergeHi(m, brk, MIN, bp);
            && Region(m, brk, lo, hi) && 8 <= lo && lo + MIN <= hi
            && forall b: nat | Live(m, b) :: !(lo <= b < hi)
  {
    assert SizedAt(m, brk, MIN, bp);
    RegionFacts(m, brk, MIN, MergeLo(m, brk, MIN, bp), MergeHi(m, brk, MIN, bp));
    MergeExtent(m, brk, MIN, bp);
  }

  /** What a client writes into a block it holds harms no tag and no other block. */
  lemma ClientWrites(s: Memory, t: Memory, m: Layout, brk: nat, b: nat)
    requires Image(s, m, brk) && Live(m, b) && |t| == |s|
    requires forall q: nat | q < |s| && !(b <= q < End(m, b) - 8) :: t[q] == s[q]
    ensures Image(t, m, brk)
    ensures forall c: nat | Live(m, c) && c != b :: SamePayloadAt(s, t, m, c)
  {
    WholeRegion(m, brk, MIN, b);
    forall c | c in m ensures TaggedAt(t, m, c) && (c != b ==> SamePayloadAt(s, t, m, c)) {
      assert TaggedAt(s, m, c);
      if c != b { BeyondRegion(m, brk, MIN, b, End(m, b), c); }
    }
  }

  class Allocator {
    const ms: MemSystem
    const heapListp: nat := PROLOGUE
    var last: nat         // the rover
    ghost var h: State

    ghost predicate Holds()
      reads this, ms, ms.data
    {
      ms.Valid() && ms.brk == h.brk && Image(ms.Mem(), h.blocks, h.brk) && last == h.last
    }

    ghost predicate Valid()
      reads this, ms, ms.data
    {
      Holds() && Inv(h)
    }

    constructor (ms: MemSystem)
      requires ms.Valid()
      ensures this.ms == ms
    {
      this.ms := ms;
      last := 0;
      h := State(map[], 0, 0);
    }

    // ----- block macros, while the tags are in order

    function HeaderSize(bp: nat): (n: nat)
      requires Holds() && Boundary(h.blocks, h.brk, bp)
      reads this, ms, ms.data
      ensures n == (if bp in h.blocks then h.blocks[bp].size else 0) && (bp in h.blocks ==> n > 0)
    {
      ReadBoundary(ms.Mem(), h.blocks, h.brk, MIN, bp);
      BrkBeyond(h.blocks, h.brk, MIN);
      GetSize(ms.Get(bp - 4))
    }

    function HeaderAlloc(bp: nat): (a: bool)
      requires Holds() && Boundary(h.blocks, h.brk, bp)
      reads this, ms, ms.data
      ensures a == (bp in h.blocks ==> h.blocks[bp].alloc)
    {
      ReadBoundary(ms.Mem(), h.blocks, h.brk, MIN, bp);
      GetAlloc(ms.Get(bp - 4))
    }

    function FooterAlloc(bp: nat): (a: bool)
      requires Holds() && bp in h.blocks
      reads this, ms, ms.data
      ensures a == h.blocks[bp].alloc
    {
      ReadTag(ms.Mem(), h.blocks, h.brk, MIN, bp);
      GetAlloc(ms.Get(bp + HeaderSize(bp) - 8))
    }

    function NextBlkp(bp: nat): (n: nat)
      requires Holds() && bp in h.blocks
      reads this, ms, ms.data
      ensures n == End(h.blocks, bp) && Boundary(h.blocks, h.brk, n)
    {
      assert Follows(h.blocks, h.brk, bp);
      bp + HeaderSize(bp)
    }

    function PrevBlkp(bp: nat): (p: nat)
      requires Holds() && Boundary(h.blocks, h.brk, bp) && bp != PROLOGUE
      reads this, ms, ms.data
      ensures p == Prev(h.blocks, h.brk, MIN, bp)
    {
      ReadTag(ms.Mem(), h.blocks, h.brk, MIN, Prev(h.blocks, h.brk, MIN, bp));
      bp - GetSize(ms.Get(bp - 8))
    }

    // ----- coalescing and growing

    method PutBlock(lo: nat, hi: nat, alloc: bool)
      requires ms.Valid() && 8 <= lo && lo + MIN <= hi <= MAX_HEAP
      modifies ms.data
      ensures ms.Mem() == PutTags(old(ms.Mem()), lo, hi, alloc)
    {
      ms.Put(lo - 4, Pack(hi - lo, alloc));
      ms.Put(hi - 8, Pack(hi - lo, alloc));
    }

    /** Merges `bp` with its free neighbours and fixes up the rover. */
    method Coalesce(bp: nat) returns (r: nat)
      requires Holds() && bp in h.blocks && bp != PROLOGUE && !h.blocks[bp].alloc && h.last in h.blocks
      modifies this, ms.data
      ensures Holds() && h == ImplicitSpec.Coalesce(old(h), bp)
      ensures r == MergeLo(old(h).blocks, old(h).brk, MIN, bp)
      ensures SamePayloads(old(ms.Mem()), ms.Mem(), old(h).blocks)
    {
      var prevAlloc := FooterAlloc(PrevBlkp(bp));
      var nextAlloc := HeaderAlloc(NextBlkp(bp));
      var size := HeaderSize(bp);
      r := bp;
      if prevAlloc && nextAlloc {
        Untouched(h, bp);
        return;
      } else if prevAlloc && !nextAlloc {
        size := size + HeaderSize(NextBlkp(bp));
      } else if !prevAlloc && nextAlloc {
        size := size + HeaderSize(PrevBlkp(bp));
        r := PrevBlkp(bp);
      } else {
        size := size + HeaderSize(NextBlkp(bp)) + HeaderSize(PrevBlkp(bp));
        r := PrevBlkp(bp);
      }
      TagMerge(r, size, bp);
    }

    /** Tags for the merge around `bp`, and the rover out of its inside. */
    method TagMerge(r: nat, size: nat, ghost bp: nat)
      requires Holds() && bp in h.blocks && bp != PROLOGUE && !h.blocks[bp].alloc
      requires r == MergeLo(h.blocks, h.brk, MIN, bp) && r + size == MergeHi(h.blocks, h.brk, MIN, bp)
      modifies this, ms.data
      ensures Holds() && h == ImplicitSpec.Coalesce(old(h), bp)
      ensures SamePayloads(old(ms.Mem()), ms.Mem(), old(h).blocks)
    {
      ghost var g, s := h, ms.Mem();
      MergeRegion(g.blocks, g.brk, bp);
      FuseTiles(g.blocks, g.brk, MIN, r, r + size);
      PutBlock(r, r + size, false);
      FuseTagged(s, ms.Mem(), g.blocks, g.brk, MIN, r, r + size);
      BeyondPayloads(s, ms.Mem(), g.blocks, g.brk, MIN, r, r + size);
      h := h.(blocks := Merged(g.blocks, g.brk, MIN, bp));
      if last > r && last < NextBlkp(r) {
        last := r;
        h := h.(last := r);
      }
    }

    // ----- growing the heap

    method ExtendHeap(words: nat) returns (r: nat)
      requires Valid() && MIN <= WordBytes(words)
      requires WordBytes(words) < TWO_32 || Grown(h.brk, AsInt(WordBytes(words))).None?
      modifies this, ms`brk, ms.data
      ensures Valid() && SamePayloads(old(ms.Mem()), ms.Mem(), old(h).blocks)
      ensures match Extend(old(h), WordBytes(words))
              case None => r == 0 && h == old(h)
              case Some((x, b)) => r == b && h == x
    {
      var size := WordBytes(words);
      SbrkRefuses(ms.brk, size);
      var bp := ms.Sbrk(AsInt(size));
      if bp == -1 {
        return 0;
      }
      r := AddChunk(bp, size);
    }

    method AddChunk(bp: nat, size: nat) returns (r: nat)
      requires ms.Valid() && Image(ms.Mem(), h.blocks, h.brk) && last == h.last && Inv(h)
      requires bp == h.brk && size % 8 == 0 && size >= MIN && ms.brk == h.brk + size
      modifies this, ms.data
      ensures Valid() && SamePayloads(old(ms.Mem()), ms.Mem(), old(h).blocks)
      ensures Some((h, r)) == Extend(old(h), size)
    {
      ghost var g, s := h, ms.Mem();
      BrkBeyond(g.blocks, g.brk, MIN);
      ExtendedTiles(g.blocks, g.brk, MIN, size);
      PutBlock(bp, bp + size, false);
      ms.Put(bp + size - 4, Pack(0, true));
      ghost var t := ms.Mem();
      ExtendTagged(s, t, g.blocks, g.brk, MIN, size);
      h := State(Extended(g.blocks, g.brk, size), g.brk + size, g.last);
      r := Coalesce(bp);
      ExtendInv(g, size);
      SamePayloadsTrans(s, t, ms.Mem(), g.blocks, Extended(g.blocks, g.brk, size));
    }

    // ----- allocation

    /** Next fit: the rover itself does the searching. */
    method FindFit(size: nat) returns (p: nat)
      requires Valid()
      modifies this
      ensures Valid()
      ensures match NextFit(old(h), size)
              case Some(b) => p == b && h == old(h).(last := b)
              case None => p == 0 && h == old(h)
    {
      ghost var g := h;
      var oldLast := last;
      BlockBounds(g.blocks, g.brk, oldLast);
      while HeaderSize(last) > 0
        invariant ms.Valid() && ms.brk == g.brk && Image(ms.Mem(), g.blocks, g.brk) && h == g.(last := last)
        invariant Boundary(g.blocks, g.brk, last) && oldLast <= last <= g.brk
        invariant Scan(g.blocks, g.brk, g.last, g.brk, size) == Scan(g.blocks, g.brk, last, g.brk, size)
        decreases g.brk - last
      {
        assert last in g.blocks;
        BlockBounds(g.blocks, g.brk, last);
        if !HeaderAlloc(last) && size <= HeaderSize(last) {
          return last;
        }
        ScanStep(g.blocks, g.brk, last, g.brk);
        last := NextBlkp(last);
        h := h.(last := last);
      }
      assert last == g.brk;
      last := heapListp;
      h := h.(last := last);
      while last < oldLast
        invariant ms.Valid() && ms.brk == g.brk && Image(ms.Mem(), g.blocks, g.brk) && h == g.(last := last)
        invariant Boundary(g.blocks, g.brk, last) && last <= oldLast
        invariant Scan(g.blocks, g.brk, PROLOGUE, g.last, size) == Scan(g.blocks, g.brk, last, g.last, size)
        decreases g.brk - last
      {
        ScanStep(g.blocks, g.brk, last, oldLast);
        if !HeaderAlloc(last) && size <= HeaderSize(last) {
          BlockBounds(g.blocks, g.brk, last);
          return last;
        }
        last := NextBlkp(last);
        h := h.(last := last);
      }
      return 0;
    }

    method Place(bp: nat, asize: nat)
      requires Valid() && Fits(h.blocks, bp, asize) && MIN <= asize && asize % 8 == 0
      modifies this, ms.data
      ensures Valid() && h == ImplicitSpec.Place(old(h), bp, asize)
      ensures SamePayloads(old(ms.Mem()), ms.Mem(), old(h).blocks)
    {
      ghost var g, s := h, ms.Mem();
      PlaceInv(g, bp, asize);
      WholeRegion(g.blocks, g.brk, MIN, bp);
      RegionFacts(g.blocks, g.brk, MIN, bp, End(g.blocks, bp));
      var csize := HeaderSize(bp);
      if csize - asize >= MIN {
        PutBlock(bp, bp + asize, true);
        var rest := bp + asize;
        PutBlock(rest, rest + (csize - asize), false);
        SplitTagged(s, ms.Mem(), g.blocks, g.brk, MIN, bp, asize);
      } else {
        PutBlock(bp, bp + csize, true);
        MarkTagged(s, ms.Mem(), g.blocks, g.brk, MIN, bp, true);
      }
      BeyondPayloads(s, ms.Mem(), g.blocks, g.brk, MIN, bp, End(g.blocks, bp));
      h := ImplicitSpec.Place(g, bp, asize);
    }

    // ----- the public calls

    method MmInit() returns (r: int)
      requires ms.Valid() && ms.brk == 0
      modifies this, ms`brk, ms.data
      ensures Valid() && r == 0 && h == Init()
    {
      var start := ms.Sbrk(16);
      if start == -1 {
        return -1;
      }
      ms.Put(start, 0);
      ms.Put(start + 4, Pack(8, true));
      ms.Put(start + 8, Pack(8, true));
      ms.Put(start + 12, Pack(0, true));
      last := heapListp;
      h := Empty();
      EmptyInv();
      assert Image(ms.Mem(), h.blocks, h.brk) by { assert TaggedAt(ms.Mem(), h.blocks, PROLOGUE); }
      ChunkWords(CHUNKSIZE);
      FirstChunk();
      var bp := ExtendHeap(CHUNKSIZE / 4);
      if bp == 0 {
        return -1;
      }
      return 0;
    }

    method MmMalloc(size: nat) returns (p: nat)
      requires Valid() && Served(h, size)
      modifies this, ms`brk, ms.data
      ensures Valid() && (h, p) == Malloc(old(h), size)
      ensures SamePayloads(old(ms.Mem()), ms.Mem(), old(h).blocks)
    {
      if size == 0 {
        return 0;
      }
      var asize := CodeSize(size);
      ghost var g, s := h, ms.Mem();
      NextFitFinds(g, asize);
      NotNull(g, asize);
      RefusedFails(g, size);
      p := FindFit(asize);
      if p != 0 {
        Place(p, asize);
        return;
      }
      ChunkWords(Growth(asize, CHUNKSIZE));
      p := ExtendHeap(Growth(asize, CHUNKSIZE) / 4);
      if p == 0 {
        return 0;
      }
      ExtendInv(g, Growth(asize, CHUNKSIZE));
      ghost var x, t := h, ms.Mem();
      Place(p, asize);
      SamePayloadsTrans(s, t, ms.Mem(), g.blocks, x.blocks);
    }

    /** mem_heapsize: the blocks and, for padding and epilogue, 8 bytes. */
    method HeapSize() returns (n: nat)
      requires Valid()
      ensures n == 8 + Total(h.blocks, Walk(h.blocks, PROLOGUE, h.brk, MIN))
    {
      n := ms.HeapSize();
      WalkTotal(h.blocks, PROLOGUE, h.brk, MIN);
    }

    method MmFree(bp: nat)
      requires Valid() && (bp == 0 || Live(h.blocks, bp))
      modifies this, ms.data
      ensures Valid() && h == Free(old(h), bp)
      ensures SamePayloads(old(ms.Mem()), ms.Mem(), h.blocks)
    {
      if bp == 0 {
        return;
      }
      ghost var g, s := h, ms.Mem();
      ghost var f := Freed(g.blocks, bp);
      WholeRegion(g.blocks, g.brk, MIN, bp);
      RegionFacts(g.blocks, g.brk, MIN, bp, End(g.blocks, bp));
      var size := HeaderSize(bp);
      PutBlock(bp, bp + size, false);
      ghost var t := ms.Mem();
      MarkTagged(s, t, g.blocks, g.brk, MIN, bp, false);
      FreedPayloads(s, t, g.blocks, g.brk, MIN, bp);
      h := g.(blocks := f);
      FreeInv(g, bp);
      var _ := Coalesce(bp);
      SamePayloadsTrans(s, t, ms.Mem(), f, f);
      RestrictPayloads(s, ms.Mem(), f, h.blocks);
    }

    /** The new block starts with the bytes the old one held, as many as both have
        room for; every other live block keeps its words, and so does the old one
        when no new block can be had. */
    method MmRealloc(ptr: nat, size: nat) returns (p: nat)
      requires Valid() && (ptr == 0 || Live(h.blocks, ptr)) && Served(h, size)
      modifies this, ms`brk, ms.data
      ensures Valid() && (h, p) == Realloc(old(h), ptr, size)
      ensures ptr != 0 && p != 0 ==>
                SameBytes(old(ms.Mem()), ptr, ms.Mem(), p, Kept(old(h).blocks, ptr, size))
      ensures forall b: nat | Live(old(h).blocks, b) && (b != ptr || (p == 0 && size != 0)) ::
                SamePayloadAt(old(ms.Mem()), ms.Mem(), old(h).blocks, b)
    {
      if size == 0 {
        if ptr != 0 { FreeInv(h, ptr); }
        MmFree(ptr);
        forall b: nat | Live(old(h).blocks, b) && b != ptr
          ensures SamePayloadAt(old(ms.Mem()), ms.Mem(), old(h).blocks, b)
        {
          assert SamePayloadAt(old(ms.Mem()), ms.Mem(), h.blocks, b);
        }
        return 0;
      }
      if ptr == 0 {
        p := MmMalloc(size);
        return;
      }
      p := MmMalloc(size);
      if p == 0 {
        return 0;
      }
      ghost var g, s, t := old(h), old(ms.Mem()), ms.Mem();
      MallocSafe(g, size);
      BlockBounds(g.blocks, g.brk, ptr);
      ghost var x := h;
      MoveTo(p, ptr, size);
      MovedFrom(s, t, ms.Mem(), g.blocks, g.brk, x.blocks, ptr, p, size);
    }

    /** The copy into the new block `p`, then the end of the old one. */
    method MoveTo(p: nat, ptr: nat, size: nat)
      requires Valid() && Live(h.blocks, ptr) && Live(h.blocks, p) && p != ptr && size + 8 <= h.blocks[p].size
      modifies this, ms.data
      ensures Valid() && h == Free(old(h), ptr)
      ensures SameBytes(old(ms.Mem()), ptr, ms.Mem(), p, Kept(old(h).blocks, ptr, size))
      ensures forall b: nat | Live(old(h).blocks, b) && b != ptr && b != p ::
                SamePayloadAt(old(ms.Mem()), ms.Mem(), old(h).blocks, b)
    {
      ghost var x, s := h, ms.Mem();
      BlockBounds(x.blocks, x.brk, ptr);
      assert SizedAt(x.blocks, x.brk, MIN, p);
      var oldSize := HeaderSize(ptr);
      if size < oldSize {
        oldSize := size;
      }
      CopyPayload(p, ptr, oldSize);
      ghost var t := ms.Mem();
      MmFree(ptr);
      FreeInv(x, ptr);
      assert SamePayloadAt(t, ms.Mem(), h.blocks, p);
      PayloadBytes(t, ms.Mem(), h.blocks, p, Kept(x.blocks, ptr, size));
      forall b: nat | Live(x.blocks, b) && b != ptr && b != p ensures SamePayloadAt(s, ms.Mem(), x.blocks, b) {
        assert SamePayloadAt(t, ms.Mem(), h.blocks, b);
      }
    }

    /** memcpy between two live payloads; it may run past the end of the source's, up
        to the end of its block. */
    method CopyPayload(dst: nat, src: nat, n: nat)
      requires Valid() && Live(h.blocks, dst) && Live(h.blocks, src) && dst != src
      requires n <= h.blocks[dst].size - 8 && n <= h.blocks[src].size
      modifies ms.data
      ensures Valid() && SameBytes(old(ms.Mem()), src, ms.Mem(), dst, n)
      ensures forall b: nat | Live(h.blocks, b) && b != dst :: SamePayloadAt(old(ms.Mem()), ms.Mem(), h.blocks, b)
    {
      ghost var s := ms.Mem();
      assert SizedAt(h.blocks, h.brk, MIN, dst) && SizedAt(h.blocks, h.brk, MIN, src);
      assert ApartAt(h.blocks, dst, src) && ApartAt(h.blocks, src, dst);
      Memcpy(ms, dst, src, n);
      ClientWrites(s, ms.Mem(), h.blocks, h.brk, dst);
    }
  }

  /** How many bytes mm_realloc promises to keep. */
  function Kept(m: Layout, ptr: nat, size: nat): nat
    requires ptr in m
  {
    if size < m[ptr].size - 8 then size else if m[ptr].size < 8 then 0 else m[ptr].size - 8
  }

  /** Equal payload words have equal bytes. */
  lemma PayloadBytes(s: Memory, t: Memory, m: Layout, b: nat, n: nat)
    requires b in m && SamePayloadAt(s, t, m, b) && |s| == |t| && End(m, b) <= |s|
    requires n + 8 <= m[b].size
    ensures SameBytes(s, b, t, b, n)
  {
    forall i: nat | i < n ensures ByteAt(t, b, i) == ByteAt(s, b, i) {
      assert b <= b + (i - i % 4) < End(m, b) - 8;
    }
  }

  /** Allocating and then moving, seen from the memory before both. */
  lemma MovedFrom(s: Memory, t: Memory, u: Memory, m: Layout, brk: nat, x: Layout, ptr: nat, p: nat, size: nat)
    requires Tiling(m, brk, MIN) && brk <= |s| && Live(m, ptr) && !Live(m, p)
    requires SamePayloads(s, t, m) && |t| == |u|
    requires forall b: nat | Live(m, b) :: Live(x, b) && x[b] == m[b]
    requires SameBytes(t, ptr, u, p, Kept(m, ptr, size))
    requires forall b: nat | Live(x, b) && b != ptr && b != p :: SamePayloadAt(t, u, x, b)
    ensures SameBytes(s, ptr, u, p, Kept(m, ptr, size))
    ensures forall b: nat | Live(m, b) && b != ptr :: SamePayloadAt(s, u, m, b)
  {
    assert SamePayloadAt(s, t, m, ptr) && SizedAt(m, brk, MIN, ptr);
    PayloadBytes(s, t, m, ptr, Kept(m, ptr, size));
    forall b: nat | Live(m, b) && b != ptr ensures SamePayloadAt(s, u, m, b) {
      assert SamePayloadAt(s, t, m, b) && SamePayloadAt(t, u, x, b);
    }
  }

  lemma NotNull(h: State, asize: nat)
    requires Inv(h)
    ensures match NextFit(h, asize) case Some(p) => p != 0 case None => true
  {
    NextFitFinds(h, asize);
    if NextFit(h, asize).Some? { BlockBounds(h.blocks, h.brk, NextFit(h, asize).value); }
  }

  /** With both neighbours allocated there is nothing to merge. */
  lemma Untouched(h: State, bp: nat)
    requires Tiling(h.blocks, h.brk, MIN) && bp in h.blocks && bp != PROLOGUE && !h.blocks[bp].alloc
    requires h.blocks[Prev(h.blocks, h.brk, MIN, bp)].alloc
    requires End(h.blocks, bp) in h.blocks ==> h.blocks[End(h.blocks, bp)].alloc
    ensures Merged(h.blocks, h.brk, MIN, bp) == h.blocks
    ensures h.last in h.blocks ==> ImplicitSpec.Coalesce(h, bp) == h
  {
    WholeRegion(h.blocks, h.brk, MIN, bp);
    assert SizedAt(h.blocks, h.brk, MIN, bp);
  }
}
