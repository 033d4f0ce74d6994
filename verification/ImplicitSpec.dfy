/** What the public calls of lab7/mm.c compute on the abstract heap. */
module ImplicitSpec {
  import opened Bits
  import opened BlockLayout
  import opened Memlib
  import opened Requests
  import opened Seqs
  import opened Wrappers

  // There is no free list, but a rover `last` from which the next search starts.

  const MIN: nat := 16          // 2 * DSIZE
  const CHUNKSIZE: nat := 4096  // 1 << 12

  datatype State = State(blocks: Layout, brk: nat, last: nat)

  /** Between public calls the heap is tiled and coalesced and the rover is at a
      block; it is never at the epilogue, nor inside a block. */
  ghost predicate Inv(h: State) {
    && Tiling(h.blocks, h.brk, MIN) && Coalesced(h.blocks) && h.brk <= MAX_HEAP
    && h.last in h.blocks
  }

  ghost predicate Fits(m: Layout, b: nat, asize: nat) {
    b in m && !m[b].alloc && asize <= m[b].size
  }

  // ----- the operations

  /** The first block from `p` on, before `stop`, that fits. */
  ghost function Scan(m: Layout, brk: nat, p: nat, stop: nat, asize: nat): (r: Option<nat>)
    requires Tiling(m, brk, MIN) && Boundary(m, brk, p) && Boundary(m, brk, stop) && p <= stop <= brk
    decreases stop - p
  {
    if p == stop then None
    else
      ScanStep(m, brk, p, stop);
      if Fits(m, p, asize) then Some(p) else Scan(m, brk, End(m, p), stop, asize)
  }

  lemma ScanStep(m: Layout, brk: nat, p: nat, stop: nat)
    requires Tiling(m, brk, MIN) && Boundary(m, brk, p) && Boundary(m, brk, stop) && p < stop <= brk
    ensures p in m && Boundary(m, brk, End(m, p)) && p < End(m, p) <= stop
  {
    assert p in m;
    assert Follows(m, brk, p) && SizedAt(m, brk, MIN, p) && (stop in m ==> ApartAt(m, p, stop));
  }

  lemma BlockBounds(m: Layout, brk: nat, b: nat)
    requires Tiling(m, brk, MIN) && b in m
    ensures PROLOGUE <= b < brk && b % 8 == 0
  {
    assert SizedAt(m, brk, MIN, b) && AlignedAt(m, b);
  }

  /** From the rover to the end of the heap, then from the start to the rover. */
  ghost function NextFit(h: State, asize: nat): Option<nat>
    requires Inv(h)
  {
    BlockBounds(h.blocks, h.brk, h.last);
    match Scan(h.blocks, h.brk, h.last, h.brk, asize)
    case Some(p) => Some(p)
    case None => Scan(h.blocks, h.brk, PROLOGUE, h.last, asize)
  }

  /** Merge the free block `bp` with its free neighbours; a rover inside the merge
      moves to its start. */
  ghost function Coalesce(h: State, bp: nat): State
    requires Tiling(h.blocks, h.brk, MIN) && bp in h.blocks && bp != PROLOGUE
  {
    var lo, hi := MergeLo(h.blocks, h.brk, MIN, bp), MergeHi(h.blocks, h.brk, MIN, bp);
    State(Merged(h.blocks, h.brk, MIN, bp), h.brk, if lo < h.last < hi then lo else h.last)
  }

  ghost function Extend(h: State, size: nat): (r: Option<(State, nat)>)
    requires Tiling(h.blocks, h.brk, MIN) && size % 8 == 0 && size >= MIN
    ensures r.Some? <==> h.brk + size <= MAX_HEAP
  {
    if h.brk + size > MAX_HEAP then None else
      ExtendedTiles(h.blocks, h.brk, MIN, size);
      BrkBeyond(h.blocks, h.brk, MIN);
      var x := State(Extended(h.blocks, h.brk, size), h.brk + size, h.last);
      Some((Coalesce(x, h.brk), MergeLo(x.blocks, x.brk, MIN, h.brk)))
  }

  function BlockSize(size: nat): (asize: nat)
    ensures size + 8 <= asize && asize >= MIN && asize % 8 == 0
    ensures size < TWO_32 - 15 ==> asize < TWO_32
  {
    if size <= 8 then MIN else 8 * ((size + 15) / 8)
  }

  /** The block size as the code computes it: near 2^64 the sum wraps. */
  function CodeSize(size: nat): (asize: nat)
    ensures asize % 8 == 0
    ensures size < TWO_64 - 15 ==> asize == BlockSize(size)
    ensures TWO_64 - 15 <= size < TWO_64 ==> asize <= 8
  {
    if size <= 8 then MIN else RoundUp(size)
  }

  ghost function Place(h: State, bp: nat, asize: nat): State
    requires bp in h.blocks && asize <= h.blocks[bp].size
  {
    h.(blocks := Placed(h.blocks, bp, asize, MIN))
  }

  ghost predicate Refused(h: State, size: nat) {
    Refuses(h.blocks, h.brk, CodeSize(size), CHUNKSIZE)
  }

  /** The requests mm_malloc is up to: all below 2^32 - 15 bytes, and of those beyond the
      ones it refuses. */
  ghost predicate Served(h: State, size: nat) {
    size < TWO_32 - 15 || (size < TWO_64 && Refused(h, size))
  }

  ghost function Malloc(h: State, size: nat): (State, nat)
    requires Inv(h) && Served(h, size)
  {
    if size == 0 then (h, 0) else
      var asize := BlockSize(size);
      NextFitFinds(h, asize);
      match NextFit(h, asize)
      case Some(p) => (Place(h.(last := p), p, asize), p)
      case None =>
        match Extend(h, Growth(asize, CHUNKSIZE))
        case None => (h, 0)
        case Some((x, b)) =>
          ExtendInv(h, Growth(asize, CHUNKSIZE));
          (Place(x, b, asize), b)
  }

  ghost function Free(h: State, bp: nat): State
    requires Inv(h) && (bp == 0 || Live(h.blocks, bp))
  {
    if bp == 0 then h else
      MarkedTiles(h.blocks, h.brk, MIN, bp, false);
      Coalesce(h.(blocks := Freed(h.blocks, bp)), bp)
  }

  ghost function Realloc(h: State, ptr: nat, size: nat): (State, nat)
    requires Inv(h) && (ptr == 0 || Live(h.blocks, ptr)) && Served(h, size)
  {
    if size == 0 then (Free(h, ptr), 0)
    else
      var (x, p) := Malloc(h, size);
      MallocInv(h, size);
      MallocSafe(h, size);
      if ptr == 0 || p == 0 then (x, p) else (Free(x, ptr), p)
  }

  /** The heap before its first chunk, and after mm_init. */
  ghost function Empty(): State {
    State(Spanned(16), 16, PROLOGUE)
  }

  ghost function Init(): State {
    State(Spanned(16 + CHUNKSIZE), 16 + CHUNKSIZE, PROLOGUE)
  }

  // ----- the search

  lemma {:induction false} ScanFinds(m: Layout, brk: nat, p: nat, stop: nat, asize: nat)
    requires Tiling(m, brk, MIN) && Boundary(m, brk, p) && Boundary(m, brk, stop) && p <= stop <= brk
    ensures match Scan(m, brk, p, stop, asize)
            case Some(b) => Fits(m, b, asize) && p <= b < stop && forall c: nat | p <= c < b :: !Fits(m, c, asize)
            case None => forall c: nat | p <= c < stop :: !Fits(m, c, asize)
    decreases stop - p
  {
    if p != stop {
      ScanStep(m, brk, p, stop);
      if !Fits(m, p, asize) {
        ScanFinds(m, brk, End(m, p), stop, asize);
        forall c: nat | p <= c < End(m, p) ensures !Fits(m, c, asize) {
          assert c in m ==> ApartAt(m, p, c);
        }
      }
    }
  }

  /** The search finds a block exactly when some free block is large enough. */
  lemma NextFitFinds(h: State, asize: nat)
    requires Inv(h)
    ensures match NextFit(h, asize)
            case Some(p) => Fits(h.blocks, p, asize)
            case None => forall b: nat :: !Fits(h.blocks, b, asize)
  {
    BlockBounds(h.blocks, h.brk, h.last);
    ScanFinds(h.blocks, h.brk, h.last, h.brk, asize);
    ScanFinds(h.blocks, h.brk, PROLOGUE, h.last, asize);
    forall b: nat | b in h.blocks ensures PROLOGUE <= b < h.brk { BlockBounds(h.blocks, h.brk, b); }
  }

  // ----- the invariant is kept

  lemma CoalesceInv(h: State, bp: nat)
    requires Tiling(h.blocks, h.brk, MIN) && bp in h.blocks && bp != PROLOGUE && h.brk <= MAX_HEAP
    requires !h.blocks[bp].alloc && CoalescedExcept(h.blocks, bp) && h.last in h.blocks
    ensures Inv(Coalesce(h, bp))
  {
    MergedCoalesces(h.blocks, h.brk, MIN, bp);
  }

  lemma ExtendInv(h: State, size: nat)
    requires Inv(h) && size % 8 == 0 && size >= MIN && h.brk + size <= MAX_HEAP
    ensures var (x, b) := Extend(h, size).value;
            && Inv(x) && x.brk == h.brk + size && b != 0
            && b in x.blocks && !x.blocks[b].alloc && size <= x.blocks[b].size
            && (forall p: nat :: Live(x.blocks, p) <==> Live(h.blocks, p))
            && (forall p: nat | Live(h.blocks, p) :: x.blocks[p] == h.blocks[p])
  {
    var bp := h.brk;
    var x := State(Extended(h.blocks, bp, size), bp + size, h.last);
    ExtendedTiles(h.blocks, bp, MIN, size);
    BrkBeyond(h.blocks, bp, MIN);
    ExtendedCoalescedExcept(h.blocks, bp, MIN, size);
    CoalesceInv(x, bp);
    MergedLive(x.blocks, x.brk, MIN, bp);
    BlockBounds(x.blocks, x.brk, MergeLo(x.blocks, x.brk, MIN, bp));
  }

  lemma PlaceInv(h: State, bp: nat, asize: nat)
    requires Inv(h) && Fits(h.blocks, bp, asize) && MIN <= asize && asize % 8 == 0
    ensures Inv(Place(h, bp, asize))
  {
    PlacedTiles(h.blocks, h.brk, MIN, bp, asize);
    PlacedCoalesced(h.blocks, h.brk, MIN, bp, asize);
  }

  lemma MallocInv(h: State, size: nat)
    requires Inv(h) && Served(h, size)
    ensures Inv(Malloc(h, size).0)
  {
    hide Served;
    var asize := BlockSize(size);
    NextFitFinds(h, asize);
    if size != 0 {
      if NextFit(h, asize).Some? {
        var p := NextFit(h, asize).value;
        PlaceInv(h.(last := p), p, asize);
      } else if Extend(h, Growth(asize, CHUNKSIZE)).Some? {
        ExtendInv(h, Growth(asize, CHUNKSIZE));
        var (x, b) := Extend(h, Growth(asize, CHUNKSIZE)).value;
        PlaceInv(x, b, asize);
      }
    }
  }

  lemma FreeInv(h: State, bp: nat)
    requires Inv(h) && Live(h.blocks, bp)
    ensures Inv(Free(h, bp))
    ensures forall p: nat :: Live(Free(h, bp).blocks, p) <==> Live(h.blocks, p) && p != bp
    ensures forall p: nat | Live(Free(h, bp).blocks, p) :: Free(h, bp).blocks[p] == h.blocks[p]
  {
    BlockBounds(h.blocks, h.brk, bp);
    var f := h.(blocks := Freed(h.blocks, bp));
    MarkedTiles(h.blocks, h.brk, MIN, bp, false);
    FreedCoalescedExcept(h.blocks, bp);
    CoalesceInv(f, bp);
    MergedLive(f.blocks, f.brk, MIN, bp);
  }

  // ----- what a client gets

  lemma MallocSafe(h: State, size: nat)
    requires Inv(h) && Served(h, size)
    ensures var (x, p) := Malloc(h, size);
            if p == 0 then x == h else HandedOut(h.blocks, x.blocks, x.brk, p, size)
  {
    hide Served;
    var asize := BlockSize(size);
    NextFitFinds(h, asize);
    if size != 0 {
      if NextFit(h, asize).Some? {
        PlacedHandsOut(h.blocks, h.brk, MIN, NextFit(h, asize).value, asize, size);
      } else if Extend(h, Growth(asize, CHUNKSIZE)).Some? {
        ExtendInv(h, Growth(asize, CHUNKSIZE));
        var (x, b) := Extend(h, Growth(asize, CHUNKSIZE)).value;
        PlacedHandsOut(x.blocks, x.brk, MIN, b, asize, size);
      }
    }
  }

  /** The heap grows only when no free block is large enough, and a request fails only
      when, besides, the arena has no room for another chunk (or the request is for
      nothing). */
  lemma MallocGrows(h: State, size: nat)
    requires Inv(h) && size != 0 && Served(h, size)
    ensures var (x, p) := Malloc(h, size);
            var fits := exists b: nat :: Fits(h.blocks, b, BlockSize(size));
            var grown := h.brk + Growth(BlockSize(size), CHUNKSIZE);
            && (p == 0 <==> !fits && grown > MAX_HEAP)
            && x.brk == (if fits || grown > MAX_HEAP then h.brk else grown)
  {
    hide Served;
    var asize := BlockSize(size);
    NextFitFinds(h, asize);
    MallocSafe(h, size);
    if NextFit(h, asize).Some? {
      BlockBounds(h.blocks, h.brk, NextFit(h, asize).value);
    } else if Extend(h, Growth(asize, CHUNKSIZE)).Some? {
      ExtendInv(h, Growth(asize, CHUNKSIZE));
    }
  }

  /** After mm_realloc of a live block to a non-zero size only that block has been
      exchanged for the new one, or, on failure, nothing has changed. */
  lemma ReallocSafe(h: State, ptr: nat, size: nat)
    requires Inv(h) && Live(h.blocks, ptr) && size != 0 && Served(h, size)
    ensures var (x, p) := Realloc(h, ptr, size);
            && Inv(x)
            && (p == 0 ==> x == h)
            && (p != 0 ==>
                  && p % 8 == 0 && Live(x.blocks, p) && !Live(h.blocks, p)
                  && size <= x.blocks[p].size - 8 && End(x.blocks, p) <= x.brk
                  && (forall b: nat | b != p :: Live(x.blocks, b) <==> Live(h.blocks, b) && b != ptr)
                  && (forall b: nat | Live(h.blocks, b) && b != ptr :: x.blocks[b] == h.blocks[b]))
  {
    hide Served;
    BlockBounds(h.blocks, h.brk, ptr);
    MallocInv(h, size);
    MallocSafe(h, size);
    var (y, p) := Malloc(h, size);
    if p != 0 {
      FreeInv(y, ptr);
    }
  }

  // ----- requests of any size

  /** Nothing is NULL for want of room but what has none. */
  lemma RefusedFails(h: State, size: nat)
    requires Inv(h) && 0 < size < TWO_64
    ensures Refused(h, size) ==> Malloc(h, size) == (h, 0)
    ensures size < TWO_32 - 15 && !Refused(h, size) ==> Malloc(h, size).1 != 0
  {
    SbrkRefuses(h.brk, Growth(CodeSize(size), CHUNKSIZE));
    if size < TWO_32 - 15 || Refused(h, size) {
      forall b | b in h.blocks ensures h.blocks[b].size <= MAX_HEAP { assert SizedAt(h.blocks, h.brk, MIN, b); }
      if b: nat :| b in h.blocks && !h.blocks[b].alloc && h.blocks[b].size >= CodeSize(size) {
        assert Fits(h.blocks, b, BlockSize(size));
      }
      MallocGrows(h, size);
      MallocSafe(h, size);
    }
  }

  /** mm_malloc can be right about a request exactly when it serves it: where it does not
      answer NULL, no heap within the arena holds a block for the others. */
  lemma ServedIff(h: State, size: nat)
    requires Inv(h) && 0 < size < TWO_64
    ensures Served(h, size) <==>
            || Refused(h, size)
            || exists x: Layout, brk: nat, p: nat :: brk <= MAX_HEAP && HandedOut(h.blocks, x, brk, p, size)
  {
    hide Refused;
    if size < TWO_32 - 15 && !Refused(h, size) {
      RefusedFails(h, size);
      MallocSafe(h, size);
      MallocInv(h, size);
      var (x, p) := Malloc(h, size);
      assert HandedOut(h.blocks, x.blocks, x.brk, p, size);
    }
    OnlySmall(h.blocks, size);
  }

  /** Asked for 2^32 bytes, mm_malloc has mem_sbrk grant 8 and answers with a block; asked
      for 2^64 - 8, it answers with any free block there is. */
  lemma UnservedExamples(h: State)
    requires Inv(h)
    ensures h.brk + 8 <= MAX_HEAP ==>
              !Served(h, TWO_32) && Grown(h.brk, AsInt(Growth(CodeSize(TWO_32), CHUNKSIZE))) == Some(h.brk + 8)
    ensures (exists b :: b in h.blocks && !h.blocks[b].alloc) ==>
              !Served(h, TWO_64 - 8) && CodeSize(TWO_64 - 8) == 0
  {
  }

  lemma EmptyInv()
    ensures Inv(Empty())
  {
    EmptyTiles(MIN);
  }

  lemma FirstChunk()
    requires Inv(Empty())
    ensures Extend(Empty(), CHUNKSIZE) == Some((Init(), 16))
  {
    var x := Extended(Empty().blocks, 16, CHUNKSIZE);
    ExtendedTiles(Empty().blocks, 16, MIN, CHUNKSIZE);
    assert x == Init().blocks && End(x, PROLOGUE) == 16;
    PrevIs(x, 16 + CHUNKSIZE, MIN, PROLOGUE);
    assert Merged(x, 16 + CHUNKSIZE, MIN, 16) == x;
  }

  // ----- whole runs

  datatype Call = DoMalloc(size: nat) | DoFree(bp: nat) | DoRealloc(ptr: nat, newSize: nat)

  ghost predicate Allowed(h: State, c: Call) {
    match c
    case DoMalloc(size) => Served(h, size)
    case DoFree(bp) => bp == 0 || Live(h.blocks, bp)
    case DoRealloc(ptr, size) => (ptr == 0 || Live(h.blocks, ptr)) && Served(h, size)
  }

  ghost function Apply(h: State, c: Call): State
    requires Inv(h) && Allowed(h, c)
  {
    match c
    case DoMalloc(size) => Malloc(h, size).0
    case DoFree(bp) => Free(h, bp)
    case DoRealloc(ptr, size) => Realloc(h, ptr, size).0
  }

  lemma ApplyInv(h: State, c: Call)
    requires Inv(h) && Allowed(h, c)
    ensures Inv(Apply(h, c))
  {
    match c
    case DoMalloc(size) => MallocInv(h, size);
    case DoFree(bp) => if bp != 0 { FreeInv(h, bp); }
    case DoRealloc(ptr, size) =>
      MallocInv(h, size);
      if size == 0 {
        if ptr != 0 { FreeInv(h, ptr); }
      } else if ptr != 0 {
        ReallocSafe(h, ptr, size);
      }
  }

  ghost predicate Legal(h: State, calls: seq<Call>)
    requires Inv(h)
    decreases |calls|
  {
    calls == [] ||
    (Allowed(h, calls[0]) && (ApplyInv(h, calls[0]); Legal(Apply(h, calls[0]), calls[1..])))
  }

  ghost function Run(h: State, calls: seq<Call>): State
    requires Inv(h) && Legal(h, calls)
    decreases |calls|
  {
    if calls == [] then h else
      ApplyInv(h, calls[0]);
      Run(Apply(h, calls[0]), calls[1..])
  }

  lemma ApplyKeeps(h: State, c: Call, b: nat)
    requires Inv(h) && Allowed(h, c) && Live(h.blocks, b)
    requires c != DoFree(b) && (c.DoRealloc? ==> c.ptr != b)
    ensures Live(Apply(h, c).blocks, b) && Apply(h, c).blocks[b] == h.blocks[b]
  {
    match c
    case DoMalloc(size) => MallocSafe(h, size);
    case DoFree(bp) => if bp != 0 { FreeInv(h, bp); }
    case DoRealloc(ptr, size) =>
      MallocSafe(h, size);
      if size == 0 {
        if ptr != 0 { FreeInv(h, ptr); }
      } else if ptr != 0 {
        ReallocSafe(h, ptr, size);
      }
  }

  /** After any run from mm_init's heap the rover is at a block and the heap tiled and
      coalesced, and a live block the run neither freed nor reallocated is still live,
      in place and whole. */
  lemma {:induction false} RunKeeps(h: State, calls: seq<Call>, b: nat)
    requires Inv(h) && Legal(h, calls)
    ensures Inv(Run(h, calls))
    ensures Live(h.blocks, b) && (forall c | c in calls :: c != DoFree(b) && (c.DoRealloc? ==> c.ptr != b)) ==>
              Live(Run(h, calls).blocks, b) && Run(h, calls).blocks[b] == h.blocks[b]
    decreases |calls|
  {
    if calls != [] {
      var c := calls[0];
      ApplyInv(h, c);
      RunKeeps(Apply(h, c), calls[1..], b);
      assert c in calls && forall d | d in calls[1..] :: d in calls;
      if Live(h.blocks, b) && c != DoFree(b) && (c.DoRealloc? ==> c.ptr != b) {
        ApplyKeeps(h, c, b);
      }
    }
  }

  lemma MallocGrowsOnly(h: State, size: nat)
    requires Inv(h) && Served(h, size)
    ensures Malloc(h, size).0.brk >= h.brk
  {
    if size != 0 { MallocGrows(h, size); }
  }

  lemma ApplyGrows(h: State, c: Call)
    requires Inv(h) && Allowed(h, c)
    ensures Apply(h, c).brk >= h.brk
  {
    hide Served, Malloc, Inv;
    match c
    case DoFree(_) =>
    case DoMalloc(size) => MallocGrowsOnly(h, size);
    case DoRealloc(_, size) => MallocGrowsOnly(h, size);
  }

  lemma {:induction false} RunGrows(h: State, calls: seq<Call>)
    requires Inv(h) && Legal(h, calls)
    ensures h.brk <= Run(h, calls).brk
    decreases |calls|
  {
    if calls != [] {
      hide Apply, Allowed;
      ApplyInv(h, calls[0]);
      ApplyGrows(h, calls[0]);
      RunGrows(Apply(h, calls[0]), calls[1..]);
    }
  }

  /** Whatever a client holds at some time, no block for more bytes than it was promised,
      fits, tags included, into the heap as it is at any later time. */
  lemma Utilization(h: State, held: map<nat, nat>, calls: seq<Call>)
    requires Inv(h) && Legal(h, calls)
    requires forall b | b in held :: Live(h.blocks, b) && held[b] <= h.blocks[b].size - 8
    ensures 8 + Claims(held, Walk(h.blocks, PROLOGUE, h.brk, MIN)) <= Run(h, calls).brk
  {
    hide Legal, Run;
    ClaimsFit(h.blocks, held, Walk(h.blocks, PROLOGUE, h.brk, MIN));
    WalkTotal(h.blocks, PROLOGUE, h.brk, MIN);
    RunGrows(h, calls);
  }

  ghost function Frees(order: seq<nat>): (calls: seq<Call>)
    ensures |calls| == |order|
  {
    if order == [] then [] else [DoFree(order[0])] + Frees(order[1..])
  }

  /** Freeing all that is live, in any order, leaves one spanning free block, with the rover
      at it or at the prologue. */
  lemma {:induction false} FreeingAll(h: State, order: seq<nat>)
    requires Inv(h) && Distinct(order) && forall b: nat :: b in order <==> Live(h.blocks, b)
    ensures Legal(h, Frees(order))
    ensures var r := Run(h, Frees(order)); r.blocks == Spanned(h.brk) && r.brk == h.brk && r.last in Spanned(h.brk)
    decreases |order|
  {
    hide Inv, Served, Spanned, Merged;
    if order == [] {
      NothingLiveSpanned(h);
    } else {
      var b := order[0];
      FreeInv(h, b);
      LiveNotNull(h, b);
      assert order == [b] + order[1..];
      FreeingAll(Free(h, b), order[1..]);
      assert Frees(order)[0] == DoFree(b) && Frees(order)[1..] == Frees(order[1..]);
    }
  }

  lemma LiveNotNull(h: State, b: nat)
    requires Inv(h) && Live(h.blocks, b)
    ensures b != 0
  {
    BlockBounds(h.blocks, h.brk, b);
  }

  lemma NothingLiveSpanned(h: State)
    requires Inv(h) && forall b: nat :: !Live(h.blocks, b)
    ensures h.blocks == Spanned(h.brk) && h.last in Spanned(h.brk)
  {
    NothingLive(h.blocks, h.brk, MIN);
  }

  lemma InitInv()
    ensures Inv(Init())
  {
    EmptyInv();
    FirstChunk();
    ExtendInv(Empty(), CHUNKSIZE);
  }
}
