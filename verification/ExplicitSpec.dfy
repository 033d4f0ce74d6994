/** What the public calls of lab7/mm_v4.c compute on the abstract heap. */
module ExplicitSpec {
  import opened Bits
  import opened BlockLayout
  import opened Memlib
  import opened FreeList
  import opened Seqs
  import opened Requests
  import opened Wrappers

  // A heap is a layout, the break, and the free list, most recently freed block first.

  const MIN: nat := 24           // 3 * DSIZE
  const CHUNKSIZE: nat := 4104   // (1 << 12) + 8

  datatype State = State(blocks: Layout, brk: nat, free: seq<nat>)

  // ----- the invariant of the heap between public calls

  /** The nodes of the list are free blocks ... */
  ghost predicate FreeNodes(m: Layout, l: seq<nat>) {
    Distinct(l) && forall n | n in l :: n in m && !m[n].alloc
  }

  /** ... and all of them ... */
  ghost predicate Lists(m: Layout, l: seq<nat>) {
    forall b | b in m && !m[b].alloc :: b in l
  }

  /** ... or all of them but `bp`. */
  ghost predicate ListsAllBut(m: Layout, l: seq<nat>, bp: nat) {
    forall b | b in m && !m[b].alloc && b != bp :: b in l
  }

  ghost predicate Inv(h: State) {
    && Tiling(h.blocks, h.brk, MIN) && Coalesced(h.blocks) && h.brk <= MAX_HEAP
    && FreeNodes(h.blocks, h.free) && Lists(h.blocks, h.free)
  }

  // ----- the operations

  function Index(l: seq<nat>, n: nat): (k: nat)
    requires n in l
    ensures k < |l| && l[k] == n
  {
    if l[0] == n then 0 else 1 + Index(l[1..], n)
  }

  /** The list without `n`. */
  function Removed(l: seq<nat>, n: nat): seq<nat> {
    if n in l then Without(l, Index(l, n)) else l
  }

  /** Merge the free block `bp` with its free neighbours, which leave the list, and
      put the result at the head of the list. */
  ghost function Coalesce(h: State, bp: nat): State
    requires Tiling(h.blocks, h.brk, MIN) && bp in h.blocks && bp != PROLOGUE
  {
    var lo := MergeLo(h.blocks, h.brk, MIN, bp);
    State(Merged(h.blocks, h.brk, MIN, bp), h.brk,
          [lo] + Removed(if lo == bp then h.free else Removed(h.free, lo), End(h.blocks, bp)))
  }

  /** mem_sbrk gives `size` more bytes, or None. */
  ghost function Extend(h: State, size: nat): (r: Option<(State, nat)>)
    requires Tiling(h.blocks, h.brk, MIN) && size % 8 == 0 && size >= MIN
    ensures r.Some? <==> h.brk + size <= MAX_HEAP
  {
    if h.brk + size > MAX_HEAP then None else
      ExtendedTiles(h.blocks, h.brk, MIN, size);
      BrkBeyond(h.blocks, h.brk, MIN);
      var x := State(Extended(h.blocks, h.brk, size), h.brk + size, h.free);
      Some((Coalesce(x, h.brk), MergeLo(x.blocks, x.brk, MIN, h.brk)))
  }

  /** The block size for a request, with the two sizes tuned for traces. */
  function BlockSize(size: nat): (asize: nat)
    ensures size + 8 <= asize && asize >= MIN && asize % 8 == 0
    ensures size < TWO_32 - 15 ==> asize < TWO_32
  {
    if size <= 8 then MIN
    else if size == 112 then 136
    else if size == 448 then 520
    else 8 * ((size + 15) / 8)
  }

  /** The block size as the code computes it: near 2^64 the sum wraps. */
  function CodeSize(size: nat): (asize: nat)
    ensures asize % 8 == 0
    ensures size < TWO_64 - 15 ==> asize == BlockSize(size)
    ensures TWO_64 - 15 <= size < TWO_64 ==> asize <= 8
  {
    if size <= 8 then MIN
    else if size == 112 then 136
    else if size == 448 then 520
    else RoundUp(size)
  }

  /** Position of the first node of the list, from k on, that is large enough. */
  function FirstFit(m: Layout, l: seq<nat>, asize: nat, k: nat): (i: nat)
    requires k <= |l| && forall n | n in l :: n in m
    ensures k <= i <= |l| && (i < |l| ==> asize <= m[l[i]].size)
    ensures forall j | k <= j < i :: m[l[j]].size < asize
    decreases |l| - k
  {
    if k == |l| || asize <= m[l[k]].size then k else FirstFit(m, l, asize, k + 1)
  }

  /** Take `asize` bytes from the free block `bp`; a remainder that is large enough
      goes to the head of the list. */
  function Place(h: State, bp: nat, asize: nat): State
    requires bp in h.blocks && asize <= h.blocks[bp].size
  {
    var rest := Removed(h.free, bp);
    State(Placed(h.blocks, bp, asize, MIN), h.brk,
          if h.blocks[bp].size - asize >= MIN then [bp + asize] + rest else rest)
  }

  ghost predicate Refused(h: State, size: nat) {
    Refuses(h.blocks, h.brk, CodeSize(size), CHUNKSIZE)
  }

  /** The requests mm_malloc is up to: all below 2^32 - 15 bytes, and of those beyond the
      ones it refuses. */
  ghost predicate Served(h: State, size: nat) {
    size < TWO_32 - 15 || (size < TWO_64 && Refused(h, size))
  }

  ghost function Malloc(h: State, size: nat): (State, nat)
    requires Inv(h) && Served(h, size)
  {
    if size == 0 then (h, 0) else
      var asize := BlockSize(size);
      var i := FirstFit(h.blocks, h.free, asize, 0);
      if i < |h.free| then
        (Place(h, h.free[i], asize), h.free[i])
      else
        match Extend(h, Growth(asize, CHUNKSIZE))
        case None => (h, 0)
        case Some((x, b)) =>
          ExtendInv(h, Growth(asize, CHUNKSIZE));
          (Place(x, b, asize), b)
  }

  ghost function Free(h: State, bp: nat): State
    requires Inv(h) && Live(h.blocks, bp)
  {
    MarkedTiles(h.blocks, h.brk, MIN, bp, false);
    Coalesce(h.(blocks := Freed(h.blocks, bp)), bp)
  }

  /** The heap mm_init builds on an empty break. */
  ghost function Init(): State {
    State(Spanned(16 + CHUNKSIZE), 16 + CHUNKSIZE, [16])
  }

  // ----- the invariant is kept

  lemma RemovedFacts(l: seq<nat>, n: nat)
    requires Distinct(l)
    ensures Distinct(Removed(l, n))
    ensures forall x :: x in Removed(l, n) <==> x in l && x != n
  {
    if n in l {
      var k := Index(l, n);
      var w := Without(l, k);
      forall x | x in l && x != n ensures x in w {
        var i :| 0 <= i < |l| && l[i] == x;
        assert w[if i < k then i else i - 1] == x;
      }
    }
  }

  lemma CoalesceInv(h: State, bp: nat)
    requires Tiling(h.blocks, h.brk, MIN) && bp in h.blocks && bp != PROLOGUE && h.brk <= MAX_HEAP
    requires !h.blocks[bp].alloc && CoalescedExcept(h.blocks, bp)
    requires FreeNodes(h.blocks, h.free) && bp !in h.free && ListsAllBut(h.blocks, h.free, bp)
    ensures Inv(Coalesce(h, bp))
    ensures MergeLo(h.blocks, h.brk, MIN, bp) == Head(Coalesce(h, bp).free)
  {
    MergedCoalesces(h.blocks, h.brk, MIN, bp);
    MergeExtent(h.blocks, h.brk, MIN, bp);
    MergedList(h, bp);
  }

  lemma MergedList(h: State, bp: nat)
    requires Tiling(h.blocks, h.brk, MIN) && bp in h.blocks && bp != PROLOGUE && !h.blocks[bp].alloc
    requires FreeNodes(h.blocks, h.free) && bp !in h.free && ListsAllBut(h.blocks, h.free, bp)
    ensures var c := Coalesce(h, bp); FreeNodes(c.blocks, c.free) && Lists(c.blocks, c.free)
  {
    var m, c := h.blocks, Coalesce(h, bp);
    var lo := MergeLo(m, h.brk, MIN, bp);
    var n := End(m, bp);
    var l1 := if lo == bp then h.free else Removed(h.free, lo);
    RemovedFacts(h.free, lo);
    RemovedFacts(l1, n);
    MergeExtent(m, h.brk, MIN, bp);
    var l2 := Removed(l1, n);
    forall x | x in l2 ensures x in c.blocks && !c.blocks[x].alloc && x != lo {
      assert x in h.free;
    }
    assert forall x :: x in c.free <==> x == lo || x in l2;
    assert n in m ==> SizedAt(m, h.brk, MIN, n);
  }

  lemma ExtendInv(h: State, size: nat)
    requires Inv(h) && size % 8 == 0 && size >= MIN && h.brk + size <= MAX_HEAP
    ensures var (x, b) := Extend(h, size).value;
            Inv(x) && x.brk == h.brk + size && b != 0 && b in x.free && b in x.blocks && size <= x.blocks[b].size
    ensures var (x, b) := Extend(h, size).value;
            forall p: nat :: Live(x.blocks, p) <==> Live(h.blocks, p)
    ensures var (x, b) := Extend(h, size).value;
            forall p: nat | Live(h.blocks, p) :: x.blocks[p] == h.blocks[p]
  {
    hide Merged, Removed, CoalescedExcept, MergeLo, End;
    var bp := h.brk;
    var x := State(Extended(h.blocks, bp, size), bp + size, h.free);
    ExtendedTiles(h.blocks, bp, MIN, size);
    BrkBeyond(h.blocks, bp, MIN);
    ExtendedCoalescedExcept(h.blocks, bp, MIN, size);
    CoalesceInv(x, bp);
    MergedLive(x.blocks, x.brk, MIN, bp);
    assert SizedAt(x.blocks, x.brk, MIN, MergeLo(x.blocks, x.brk, MIN, bp));
  }

  lemma PlaceInv(h: State, bp: nat, asize: nat)
    requires Inv(h) && bp in h.free && MIN <= asize <= h.blocks[bp].size && asize % 8 == 0
    ensures Inv(Place(h, bp, asize))
  {
    var p := Place(h, bp, asize);
    PlacedTiles(h.blocks, h.brk, MIN, bp, asize);
    PlacedCoalesced(h.blocks, h.brk, MIN, bp, asize);
    RemovedFacts(h.free, bp);
    if h.blocks[bp].size - asize >= MIN {
      SplitTiles(h.blocks, h.brk, MIN, bp, asize);
      assert p.free == [bp + asize] + Removed(h.free, bp);
    }
  }

  lemma MallocInv(h: State, size: nat)
    requires Inv(h) && Served(h, size)
    ensures Inv(Malloc(h, size).0)
  {
    hide Served;
    var asize := BlockSize(size);
    var i := FirstFit(h.blocks, h.free, asize, 0);
    if size == 0 {
    } else if i < |h.free| {
      PlaceInv(h, h.free[i], asize);
    } else if Extend(h, Growth(asize, CHUNKSIZE)).Some? {
      ExtendInv(h, Growth(asize, CHUNKSIZE));
      var (x, b) := Extend(h, Growth(asize, CHUNKSIZE)).value;
      PlaceInv(x, b, asize);
    }
  }

  lemma FreeInv(h: State, bp: nat)
    requires Inv(h) && Live(h.blocks, bp)
    ensures Inv(Free(h, bp))
    ensures forall p: nat :: Live(Free(h, bp).blocks, p) <==> Live(h.blocks, p) && p != bp
    ensures forall p: nat | Live(Free(h, bp).blocks, p) :: Free(h, bp).blocks[p] == h.blocks[p]
  {
    var f := h.(blocks := Freed(h.blocks, bp));
    MarkedTiles(h.blocks, h.brk, MIN, bp, false);
    FreedCoalescedExcept(h.blocks, bp);
    CoalesceInv(f, bp);
    MergedLive(f.blocks, f.brk, MIN, bp);
  }

  /** The heap before its first chunk. */
  ghost function Empty(): State {
    State(Spanned(16), 16, [])
  }

  lemma EmptyInv()
    ensures Inv(Empty())
  {
    EmptyTiles(MIN);
  }

  /** mm_init's first chunk has nothing to merge with. */
  lemma FirstChunk()
    requires Inv(Empty())
    ensures Extend(Empty(), CHUNKSIZE) == Some((Init(), 16))
  {
    var x := Extended(Empty().blocks, 16, CHUNKSIZE);
    ExtendedTiles(Empty().blocks, 16, MIN, CHUNKSIZE);
    assert x == Init().blocks && End(x, PROLOGUE) == 16;
    PrevIs(x, 16 + CHUNKSIZE, MIN, PROLOGUE);
    assert Merged(x, 16 + CHUNKSIZE, MIN, 16) == x;
    assert Coalesce(State(x, 16 + CHUNKSIZE, []), 16).free == [16];
  }

  lemma InitInv()
    ensures Inv(Init())
  {
    EmptyInv();
    FirstChunk();
    ExtendInv(Empty(), CHUNKSIZE);
  }

  // ----- what a client gets

  lemma MallocSafe(h: State, size: nat)
    requires Inv(h) && Served(h, size)
    ensures var (x, p) := Malloc(h, size);
            if p == 0 then x == h else HandedOut(h.blocks, x.blocks, x.brk, p, size)
  {
    hide Served, HandedOut, Removed, Extend, Placed, Tiling, Coalesced, Lists;
    var asize := BlockSize(size);
    var i := FirstFit(h.blocks, h.free, asize, 0);
    if size == 0 {
    } else if i < |h.free| {
      PlacedHandsOut(h.blocks, h.brk, MIN, h.free[i], asize, size);
    } else if Extend(h, Growth(asize, CHUNKSIZE)).Some? {
      ExtendInv(h, Growth(asize, CHUNKSIZE));
      var (x, b) := Extend(h, Growth(asize, CHUNKSIZE)).value;
      PlacedHandsOut(x.blocks, x.brk, MIN, b, asize, size);
      HandedOutSame(h.blocks, x.blocks, Placed(x.blocks, b, asize, MIN), x.brk, b, size);
    }
  }

  /** A request fails only when it is empty, or no free block is large enough and the
      arena has no room for another chunk. */
  lemma MallocFails(h: State, size: nat)
    requires Inv(h) && Served(h, size)
    ensures Malloc(h, size).1 == 0 <==>
            || size == 0
            || ((forall b | b in h.blocks && !h.blocks[b].alloc :: h.blocks[b].size < BlockSize(size))
                && h.brk + Growth(BlockSize(size), CHUNKSIZE) > MAX_HEAP)
  {
    hide Served;
    var asize := BlockSize(size);
    var i := FirstFit(h.blocks, h.free, asize, 0);
    MallocSafe(h, size);
    if size == 0 {
    } else if i < |h.free| {
      var b := h.free[i];
      assert SizedAt(h.blocks, h.brk, MIN, b) && b in h.free;
    } else if Extend(h, Growth(asize, CHUNKSIZE)).Some? {
      ExtendInv(h, Growth(asize, CHUNKSIZE));
      var (x, b) := Extend(h, Growth(asize, CHUNKSIZE)).value;
      assert SizedAt(x.blocks, x.brk, MIN, b);
    }
  }

  // ----- requests of any size

  /** Nothing is NULL for want of room but what has none. */
  lemma RefusedFails(h: State, size: nat)
    requires Inv(h) && 0 < size < TWO_64
    ensures Refused(h, size) ==> Malloc(h, size) == (h, 0)
    ensures size < TWO_32 - 15 && !Refused(h, size) ==> Malloc(h, size).1 != 0
  {
    SbrkRefuses(h.brk, Growth(CodeSize(size), CHUNKSIZE));
    if size < TWO_32 - 15 || Refused(h, size) {
      FreeBlocksEnd(h);
      MallocFails(h, size);
      MallocSafe(h, size);
    }
  }

  lemma FreeBlocksEnd(h: State)
    requires Inv(h)
    ensures forall b | b in h.blocks :: h.blocks[b].size <= MAX_HEAP
  {
    forall b | b in h.blocks ensures h.blocks[b].size <= MAX_HEAP { assert SizedAt(h.blocks, h.brk, MIN, b); }
  }

  /** mm_malloc can be right about a request exactly when it serves it: where it does not
      answer NULL, no heap within the arena holds a block for the others. */
  lemma ServedIff(h: State, size: nat)
    requires Inv(h) && 0 < size < TWO_64
    ensures Served(h, size) <==>
            || Refused(h, size)
            || exists x: Layout, brk: nat, p: nat :: brk <= MAX_HEAP && HandedOut(h.blocks, x, brk, p, size)
  {
    hide Refused;
    if size < TWO_32 - 15 && !Refused(h, size) {
      RefusedFails(h, size);
      MallocSafe(h, size);
      MallocInv(h, size);
      var (x, p) := Malloc(h, size);
      assert HandedOut(h.blocks, x.blocks, x.brk, p, size);
    }
    OnlySmall(h.blocks, size);
  }

  /** Asked for 2^32 bytes, mm_malloc has mem_sbrk grant 8 and answers with a block; asked
      for 2^64 - 8, it answers with any free block there is. */
  lemma UnservedExamples(h: State)
    requires Inv(h)
    ensures h.brk + 8 <= MAX_HEAP ==>
              !Served(h, TWO_32) && Grown(h.brk, AsInt(Growth(CodeSize(TWO_32), CHUNKSIZE))) == Some(h.brk + 8)
    ensures (exists b :: b in h.blocks && !h.blocks[b].alloc) ==>
              !Served(h, TWO_64 - 8) && CodeSize(TWO_64 - 8) == 0
  {
  }

  // ----- whole runs

  datatype Call = DoMalloc(size: nat) | DoFree(bp: nat)

  /** The client asks for what is served and frees only what it holds. */
  ghost predicate Allowed(h: State, c: Call) {
    match c
    case DoMalloc(size) => Served(h, size)
    case DoFree(bp) => Live(h.blocks, bp)
  }

  ghost function Apply(h: State, c: Call): State
    requires Inv(h) && Allowed(h, c)
  {
    match c
    case DoMalloc(size) => Malloc(h, size).0
    case DoFree(bp) => Free(h, bp)
  }

  ghost predicate Legal(h: State, calls: seq<Call>)
    requires Inv(h)
    decreases |calls|
  {
    calls == [] ||
    (Allowed(h, calls[0]) && (ApplyInv(h, calls[0]); Legal(Apply(h, calls[0]), calls[1..])))
  }

  lemma ApplyInv(h: State, c: Call)
    requires Inv(h) && Allowed(h, c)
    ensures Inv(Apply(h, c))
  {
    match c
    case DoMalloc(size) => MallocInv(h, size);
    case DoFree(bp) => FreeInv(h, bp);
  }

  ghost function Run(h: State, calls: seq<Call>): State
    requires Inv(h) && Legal(h, calls)
    decreases |calls|
  {
    if calls == [] then h else
      ApplyInv(h, calls[0]);
      Run(Apply(h, calls[0]), calls[1..])
  }

  /** After any run the invariant holds; a block that is live and not freed in the run
      is still live, in place and whole. */
  lemma {:induction false} RunKeeps(h: State, calls: seq<Call>)
    requires Inv(h) && Legal(h, calls)
    ensures Inv(Run(h, calls))
    ensures forall b: nat | Live(h.blocks, b) && DoFree(b) !in calls ::
              Live(Run(h, calls).blocks, b) && Run(h, calls).blocks[b] == h.blocks[b]
    decreases |calls|
  {
    if calls != [] {
      var c := calls[0];
      ApplyInv(h, c);
      RunKeeps(Apply(h, c), calls[1..]);
      if c.DoMalloc? { MallocSafe(h, c.size); } else { FreeInv(h, c.bp); }
      assert c in calls && forall d | d in calls[1..] :: d in calls;
    }
  }

  lemma ApplyGrows(h: State, c: Call)
    requires Inv(h) && Allowed(h, c)
    ensures Apply(h, c).brk >= h.brk
  {
    hide Served;
    match c
    case DoFree(_) =>
    case DoMalloc(size) =>
      if Extend(h, Growth(BlockSize(size), CHUNKSIZE)).Some? { ExtendInv(h, Growth(BlockSize(size), CHUNKSIZE)); }
  }

  lemma {:induction false} RunGrows(h: State, calls: seq<Call>)
    requires Inv(h) && Legal(h, calls)
    ensures h.brk <= Run(h, calls).brk
    decreases |calls|
  {
    if calls != [] {
      hide Apply, Allowed;
      ApplyInv(h, calls[0]);
      ApplyGrows(h, calls[0]);
      RunGrows(Apply(h, calls[0]), calls[1..]);
    }
  }

  /** Whatever a client holds at some time, no block for more bytes than it was promised,
      fits, tags included, into the heap as it is at any later time. */
  lemma Utilization(h: State, held: map<nat, nat>, calls: seq<Call>)
    requires Inv(h) && Legal(h, calls)
    requires forall b | b in held :: Live(h.blocks, b) && held[b] <= h.blocks[b].size - 8
    ensures 8 + Claims(held, Walk(h.blocks, PROLOGUE, h.brk, MIN)) <= Run(h, calls).brk
  {
    hide Legal, Run;
    ClaimsFit(h.blocks, held, Walk(h.blocks, PROLOGUE, h.brk, MIN));
    WalkTotal(h.blocks, PROLOGUE, h.brk, MIN);
    RunGrows(h, calls);
  }

  ghost function Frees(order: seq<nat>): (calls: seq<Call>)
    ensures |calls| == |order|
  {
    if order == [] then [] else [DoFree(order[0])] + Frees(order[1..])
  }

  function SpannedList(brk: nat): seq<nat> {
    if brk <= 16 then [] else [16]
  }

  /** Freeing all that is live, in any order, leaves one spanning free block. */
  lemma {:induction false} FreeingAll(h: State, order: seq<nat>)
    requires Inv(h) && Distinct(order) && forall b: nat :: b in order <==> Live(h.blocks, b)
    ensures Legal(h, Frees(order)) && Run(h, Frees(order)) == State(Spanned(h.brk), h.brk, SpannedList(h.brk))
    decreases |order|
  {
    hide Inv, Served, Spanned, SpannedList, Removed, Merged;
    if order == [] {
      NothingLiveSpanned(h);
    } else {
      FreeInv(h, order[0]);
      assert order == [order[0]] + order[1..];
      FreeingAll(Free(h, order[0]), order[1..]);
      assert Frees(order)[0] == DoFree(order[0]) && Frees(order)[1..] == Frees(order[1..]);
    }
  }

  lemma NothingLiveSpanned(h: State)
    requires Inv(h) && forall b: nat :: !Live(h.blocks, b)
    ensures h == State(Spanned(h.brk), h.brk, SpannedList(h.brk))
  {
    assert |h.free| > 1 ==> h.free[0] != h.free[1];
    NothingLive(h.blocks, h.brk, MIN);
    forall i | 0 <= i < |h.free| ensures h.free[i] == 16 { assert h.free[i] in h.free; }
    assert |h.free| > 0 ==> h.free[0] in h.free;
    assert h.brk != 16 ==> 16 in h.free;
    assert h.free == SpannedList(h.brk);
  }
}
