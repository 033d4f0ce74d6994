/** lab7/mm_v4.c in place: boundary tags, links and the head of the free list in the
    words of the heap, each call proved against ExplicitSpec. */
module ExplicitHeap {
  import opened BlockLayout
  import opened Memlib
  import opened FreeList
  import opened Requests
  import opened Tags
  import opened ExplicitSpec
  import opened Wrappers

  /** The words `s` hold the tags of `h`'s blocks and the links of its free list. */
  ghost predicate Image(s: Memory, h: State) {
    && Tiling(h.blocks, h.brk, MIN) && h.brk <= |s| == MAX_HEAP
    && FreeNodes(h.blocks, h.free)
    && Tagged(s, h.blocks, h.brk) && Linked(s, h.free)
  }

  /** Free blocks are long enough for their links not to overlap. */
  lemma NodesSpread(m: Layout, brk: nat, l: seq<nat>, size: nat)
    requires Tiling(m, brk, MIN) && FreeNodes(m, l) && brk <= size
    ensures Spread(l, size)
  {
    forall i: nat, j: nat | i < |l| && j < |l| ensures SpreadAt(l, size, i, j) {
      assert l[i] in l && l[j] in l;
      assert SizedAt(m, brk, MIN, l[i]) && SizedAt(m, brk, MIN, l[j]);
      assert ApartAt(m, l[i], l[j]) && ApartAt(m, l[j], l[i]);
      assert i < j ==> l[i] != l[j];
      assert j < i ==> l[j] != l[i];
    }
  }

  /** No tag and no word of an allocated block is a link of the list. */
  lemma OutsideLinks(m: Layout, brk: nat, l: seq<nat>, b: nat, q: nat)
    requires Tiling(m, brk, MIN) && FreeNodes(m, l) && b in m
    requires q == b - 4 || q == End(m, b) - 8 || (m[b].alloc && b <= q < End(m, b))
    ensures Outside(l, q)
  {
    forall n | n in l ensures q < n || n + LINKS <= q {
      assert SizedAt(m, brk, MIN, n) && SizedAt(m, brk, MIN, b);
      assert ApartAt(m, n, b) && ApartAt(m, b, n);
    }
  }

  /** Changing only links keeps tags and payloads. */
  lemma LinksFrame(s: Memory, t: Memory, m: Layout, brk: nat, l: seq<nat>)
    requires Tiling(m, brk, MIN) && FreeNodes(m, l) && Tagged(s, m, brk) && SameOutside(s, t, l)
    ensures Tagged(t, m, brk) && SamePayloads(s, t, m)
  {
    forall b | b in m ensures TaggedAt(t, m, b) {
      assert TaggedAt(s, m, b);
      OutsideLinks(m, brk, l, b, b - 4);
      OutsideLinks(m, brk, l, b, End(m, b) - 8);
    }
    assert Outside(l, brk - 4) by {
      forall n | n in l ensures n + LINKS <= brk - 4 { assert SizedAt(m, brk, MIN, n); }
    }
    forall b: nat | Live(m, b) ensures SamePayloadAt(s, t, m, b) {
      forall q: nat | b <= q < End(m, b) - 8 && q < |s| ensures t[q] == s[q] {
        OutsideLinks(m, brk, l, b, q);
      }
    }
  }

  lemma ImageShape(s: Memory, h: State)
    requires Image(s, h)
    ensures Tiling(h.blocks, h.brk, MIN) && FreeNodes(h.blocks, h.free) && h.brk <= MAX_HEAP
  {
  }

  lemma UnlinkImage(s: Memory, h: State, k: nat)
    requires Image(s, h) && k < |h.free| && Spread(h.free, |s|)
    ensures Image(Unlinked(s, h.free, k), h.(free := Without(h.free, k)))
    ensures SamePayloads(s, Unlinked(s, h.free, k), h.blocks)
  {
    UnlinkedFrame(s, h.free, k);
    UnlinkedLinks(s, h.free, k);
    LinksFrame(s, Unlinked(s, h.free, k), h.blocks, h.brk, h.free);
  }

  lemma PushImage(s: Memory, h: State, n: nat)
    requires Image(s, h) && n in h.blocks && !h.blocks[n].alloc && n !in h.free
    requires Spread([n] + h.free, |s|)
    ensures Image(Pushed(s, h.free, n), h.(free := [n] + h.free))
    ensures SamePayloads(s, Pushed(s, h.free, n), h.blocks)
  {
    PushedFrame(s, h.free, n);
    PushedLinks(s, h.free, n);
    LinksFrame(s, Pushed(s, h.free, n), h.blocks, h.brk, [n] + h.free);
  }

  /** Writes inside a region that holds no node of the list keep the links. */
  lemma RegionLinks(s: Memory, t: Memory, h: State, lo: nat, hi: nat)
    requires Image(s, h) && Region(h.blocks, h.brk, lo, hi) && SameBeyond(s, t, lo, hi)
    requires forall n | n in h.free :: !(lo <= n < hi)
    ensures Linked(t, h.free)
  {
    var l := h.free;
    forall i: nat | i < |l| ensures LinkedAt(t, l, i) {
      assert LinkedAt(s, l, i) && l[i] in l;
      assert SizedAt(h.blocks, h.brk, MIN, l[i]);
      BeyondRegion(h.blocks, h.brk, MIN, lo, hi, l[i]);
    }
  }

  lemma FuseImage(s: Memory, t: Memory, h: State, lo: nat, hi: nat)
    requires Image(s, h) && Region(h.blocks, h.brk, lo, hi) && SameBeyond(s, t, lo, hi)
    requires HasTags(t, lo, hi - lo, false)
    requires forall n | n in h.free :: !(lo <= n < hi)
    ensures Image(t, h.(blocks := Fuse(h.blocks, lo, hi)))
  {
    FuseTiles(h.blocks, h.brk, MIN, lo, hi);
    FuseTagged(s, t, h.blocks, h.brk, MIN, lo, hi);
    RegionLinks(s, t, h, lo, hi);
  }

  /** What a client writes into a block it holds harms no tag, no link and no other block. */
  lemma ClientWrites(s: Memory, t: Memory, h: State, b: nat)
    requires Image(s, h) && Live(h.blocks, b) && |t| == |s|
    requires forall q: nat | q < |s| && !(b <= q < End(h.blocks, b) - 8) :: t[q] == s[q]
    ensures Image(t, h)
    ensures forall c: nat | Live(h.blocks, c) && c != b :: SamePayloadAt(s, t, h.blocks, c)
  {
    hide Linked;
    var m := h.blocks;
    var hi := End(m, b);
    WholeRegion(m, h.brk, MIN, b);
    forall c | c in m ensures TaggedAt(t, m, c) && (c != b ==> SamePayloadAt(s, t, m, c)) {
      assert TaggedAt(s, m, c);
      if c != b { BeyondRegion(m, h.brk, MIN, b, hi, c); }
    }
    RegionLinks(s, t, h, b, hi);
  }

  lemma MarkImage(s: Memory, t: Memory, h: State, bp: nat, alloc: bool)
    requires Image(s, h) && bp in h.blocks && bp != PROLOGUE && bp !in h.free
    requires SameBeyond(s, t, bp, End(h.blocks, bp)) && HasTags(t, bp, h.blocks[bp].size, alloc)
    ensures Image(t, h.(blocks := h.blocks[bp := Block(h.blocks[bp].size, alloc)]))
  {
    WholeRegion(h.blocks, h.brk, MIN, bp);
    MarkedTiles(h.blocks, h.brk, MIN, bp, alloc);
    MarkTagged(s, t, h.blocks, h.brk, MIN, bp, alloc);
    RegionLinks(s, t, h, bp, End(h.blocks, bp));
  }

  lemma SplitImage(s: Memory, t: Memory, h: State, bp: nat, asize: nat)
    requires Image(s, h) && bp in h.blocks && bp != PROLOGUE && bp !in h.free
    requires MIN <= asize && asize + MIN <= h.blocks[bp].size && asize % 8 == 0
    requires SameBeyond(s, t, bp, End(h.blocks, bp))
    requires HasTags(t, bp, asize, true) && HasTags(t, bp + asize, h.blocks[bp].size - asize, false)
    ensures Image(t, h.(blocks := Placed(h.blocks, bp, asize, MIN))) && bp + asize !in h.blocks
  {
    WholeRegion(h.blocks, h.brk, MIN, bp);
    SplitTiles(h.blocks, h.brk, MIN, bp, asize);
    SplitTagged(s, t, h.blocks, h.brk, MIN, bp, asize);
    RegionLinks(s, t, h, bp, End(h.blocks, bp));
  }

  lemma ExtendImage(s: Memory, t: Memory, h: State, size: nat)
    requires Image(s, h) && size % 8 == 0 && size >= MIN && h.brk + size <= MAX_HEAP && |t| == |s|
    requires HasTags(t, h.brk, size, false) && t[h.brk + size - 4] == Pack(0, true)
    requires forall q: nat | q < h.brk - 4 :: t[q] == s[q]
    ensures Image(t, State(Extended(h.blocks, h.brk, size), h.brk + size, h.free))
    ensures h.brk !in h.free && SamePayloads(s, t, h.blocks)
  {
    BrkBeyond(h.blocks, h.brk, MIN);
    ExtendedTiles(h.blocks, h.brk, MIN, size);
    ExtendTagged(s, t, h.blocks, h.brk, MIN, size);
    forall i: nat | i < |h.free| ensures LinkedAt(t, h.free, i) {
      assert LinkedAt(s, h.free, i) && h.free[i] in h.free && SizedAt(h.blocks, h.brk, MIN, h.free[i]);
    }
  }

  /** The list once `bp`'s free neighbours have left it. */
  ghost function Unmerged(h: State, bp: nat): seq<nat>
    requires Tiling(h.blocks, h.brk, MIN) && bp in h.blocks && bp != PROLOGUE
  {
    var lo := MergeLo(h.blocks, h.brk, MIN, bp);
    Removed(if lo == bp then h.free else Removed(h.free, lo), End(h.blocks, bp))
  }

  /** coalesce's four cases, told apart by the allocated bits of the neighbours. */
  lemma MergeCases(h: State, bp: nat)
    requires Tiling(h.blocks, h.brk, MIN) && bp in h.blocks && bp != PROLOGUE && !h.blocks[bp].alloc
    requires FreeNodes(h.blocks, h.free) && bp !in h.free && ListsAllBut(h.blocks, h.free, bp)
    ensures var m := h.blocks;
            var p, n := Prev(m, h.brk, MIN, bp), End(m, bp);
            var lo, hi, l := MergeLo(m, h.brk, MIN, bp), MergeHi(m, h.brk, MIN, bp), Unmerged(h, bp);
            var nextAlloc := n in m ==> m[n].alloc;
            && lo == (if m[p].alloc then bp else p)
            && hi == (if nextAlloc then n else End(m, n))
            && (!m[p].alloc ==> p in h.free)
            && (!nextAlloc ==> n in h.free && n in Removed(h.free, p))
            && l == (if m[p].alloc && nextAlloc then h.free
                     else if m[p].alloc then Removed(h.free, n)
                     else if nextAlloc then Removed(h.free, p)
                     else Removed(Removed(h.free, p), n))
  {
    var p, n := Prev(h.blocks, h.brk, MIN, bp), End(h.blocks, bp);
    assert SizedAt(h.blocks, h.brk, MIN, bp) && SizedAt(h.blocks, h.brk, MIN, p);
    RemovedFacts(h.free, p);
  }

  /** Tags for the whole merge, written once the neighbours have left the list, make
      the words an image of the merged heap. */
  lemma MergeImage(s: Memory, t: Memory, h: State, bp: nat)
    requires Tiling(h.blocks, h.brk, MIN) && bp in h.blocks && bp != PROLOGUE && !h.blocks[bp].alloc
    requires FreeNodes(h.blocks, h.free) && bp !in h.free
    requires Image(s, h.(free := Unmerged(h, bp)))
    requires var lo, hi := MergeLo(h.blocks, h.brk, MIN, bp), MergeHi(h.blocks, h.brk, MIN, bp);
             SameBeyond(s, t, lo, hi) && HasTags(t, lo, hi - lo, false)
    ensures var lo := MergeLo(h.blocks, h.brk, MIN, bp);
            && Image(t, State(Merged(h.blocks, h.brk, MIN, bp), h.brk, Unmerged(h, bp)))
            && SamePayloads(s, t, h.blocks) && lo !in Unmerged(h, bp)
  {
    var m, l := h.blocks, Unmerged(h, bp);
    var lo, hi := MergeLo(m, h.brk, MIN, bp), MergeHi(m, h.brk, MIN, bp);
    RemovedFacts(h.free, lo);
    RemovedFacts(if lo == bp then h.free else Removed(h.free, lo), End(m, bp));
    MergeExtent(m, h.brk, MIN, bp);
    MergeRegion(m, h.brk, bp);
    FuseImage(s, t, h.(free := l), lo, hi);
    BeyondPayloads(s, t, m, h.brk, MIN, lo, hi);
  }

  lemma MergeRegion(m: Layout, brk: nat, bp: nat)
    requires Tiling(m, brk, MIN) && bp in m && bp != PROLOGUE
    ensures var lo, hi := MergeLo(m, brk, MIN, bp), MergeHi(m, brk, MIN, bp);
            Region(m, brk, lo, hi) && lo % 8 == 0 && hi % 8 == 0 && 8 <= lo && lo + MIN <= hi
  {
    assert SizedAt(m, brk, MIN, bp);
    RegionFacts(m, brk, MIN, MergeLo(m, brk, MIN, bp), MergeHi(m, brk, MIN, bp));
  }

  /** What remove_node reads from a node, and that it may write there. */
  lemma Neighbours(s: Memory, l: seq<nat>, k: nat)
    requires Spread(l, |s|) && Linked(s, l) && k < |l|
    ensures 0 < l[k] && l[k] + LINKS <= |s|
    ensures GetAddr(s, l[k]) == Before(l, k) && GetAddr(s, l[k] + 8) == After(l, k)
    ensures k > 0 ==> 0 < l[k - 1] && l[k - 1] + LINKS <= |s| && (l[k - 1] + LINKS <= l[k] || l[k] + LINKS <= l[k - 1])
    ensures k + 1 < |l| ==> 0 < l[k + 1] && l[k + 1] + LINKS <= |s|
  {
    assert SpreadAt(l, |s|, k, k) && LinkedAt(s, l, k);
    assert k > 0 ==> SpreadAt(l, |s|, k - 1, k);
    assert k + 1 < |l| ==> SpreadAt(l, |s|, k + 1, k);
  }

  lemma NonNull(h: State, i: nat)
    requires Inv(h)
    ensures i < |h.free| ==> h.free[i] != 0 && h.free[i] in h.free
  {
    if i < |h.free| { assert h.free[i] in h.free && SizedAt(h.blocks, h.brk, MIN, h.free[i]); }
  }

  lemma NodeFits(h: State, bp: nat)
    requires Tiling(h.blocks, h.brk, MIN) && FreeNodes(h.blocks, h.free) && h.brk <= MAX_HEAP && bp in h.free
    ensures bp in h.blocks && bp != PROLOGUE && 8 <= bp && bp + h.blocks[bp].size <= MAX_HEAP && !Live(h.blocks, bp)
  {
    assert SizedAt(h.blocks, h.brk, MIN, bp);
  }

  /** Taking `bp` off the list and then splitting it, seen from the memory before both. */
  lemma SplitDone(s: Memory, t: Memory, u: Memory, g: State, bp: nat, asize: nat)
    requires bp in g.free && bp !in Removed(g.free, bp) && bp in g.blocks && bp != PROLOGUE && !Live(g.blocks, bp)
    requires Image(t, g.(free := Removed(g.free, bp))) && SamePayloads(s, t, g.blocks)
    requires MIN <= asize && asize + MIN <= g.blocks[bp].size && asize % 8 == 0
    requires SameBeyond(t, u, bp, bp + g.blocks[bp].size)
    requires HasTags(u, bp, asize, true) && HasTags(u, bp + asize, g.blocks[bp].size - asize, false)
    ensures Image(u, State(Placed(g.blocks, bp, asize, MIN), g.brk, Removed(g.free, bp)))
    ensures bp + asize !in g.blocks && SamePayloads(s, u, g.blocks)
  {
    hide HasTags, SameBeyond, SamePayloads, Removed, Placed;
    var h := g.(free := Removed(g.free, bp));
    ImageShape(t, h);
    SplitImage(t, u, h, bp, asize);
    WholeRegion(g.blocks, g.brk, MIN, bp);
    BeyondPayloads(t, u, g.blocks, g.brk, MIN, bp, End(g.blocks, bp));
    SamePayloadsTrans(s, t, u, g.blocks, g.blocks);
  }

  lemma RestNotListed(h: State, bp: nat, rest: nat)
    requires FreeNodes(h.blocks, h.free) && rest !in h.blocks
    ensures rest !in Removed(h.free, bp)
  {
    RemovedFacts(h.free, bp);
  }

  /** The allocator's global state; `h` is the heap its words stand for. */
  class Allocator {
    const ms: MemSystem
    var blkHeadp: nat   // head of the free list, 0 for NULL
    ghost var h: State

    /** What holds even in the middle of a call. */
    ghost predicate Holds()
      reads this, ms, ms.data
    {
      ms.Valid() && ms.brk == h.brk && Image(ms.Mem(), h) && blkHeadp == Head(h.free)
    }

    /** What holds between calls. */
    ghost predicate Valid()
      reads this, ms, ms.data
    {
      Holds() && Inv(h)
    }

    constructor (ms: MemSystem)
      requires ms.Valid()
      ensures this.ms == ms && blkHeadp == 0
    {
      this.ms := ms;
      blkHeadp := 0;
      h := State(map[], 0, []);
    }

    // ----- GET_SIZE and GET_ALLOC of a header or footer

    function SizeAt(p: nat): nat
      requires p < ms.data.Length
      reads ms.data
    {
      GetSize(ms.Get(p))
    }

    function AllocAt(p: nat): bool
      requires p < ms.data.Length
      reads ms.data
    {
      GetAlloc(ms.Get(p))
    }

    // ----- the free list

    /** Unlinks the node at position k of the list `l`; the four branches are the four
        places it can be in. */
    method Unlink(bp: nat, ghost l: seq<nat>, ghost k: nat)
      requires ms.Valid() && Spread(l, MAX_HEAP) && Linked(ms.Mem(), l) && blkHeadp == Head(l)
      requires k < |l| && l[k] == bp
      modifies this`blkHeadp, ms.data
      ensures blkHeadp == Head(Without(l, k)) && ms.Mem() == Unlinked(old(ms.Mem()), l, k)
    {
      Neighbours(ms.Mem(), l, k);
      var prev := ms.ReadAddr(bp);
      var next := ms.ReadAddr(bp + 8);
      if prev != 0 && next != 0 {
        ms.WriteAddr(prev + 8, ms.ReadAddr(bp + 8));
        ms.WriteAddr(next, ms.ReadAddr(bp));
      } else if prev != 0 {
        ms.WriteAddr(prev + 8, 0);
      } else if next != 0 {
        ms.WriteAddr(next, 0);
        blkHeadp := next;
      } else {
        blkHeadp := 0;
      }
      ms.WriteAddr(bp, 0);
      ms.WriteAddr(bp + 8, 0);
    }

    method RemoveNode(bp: nat)
      requires Holds() && bp in h.free
      modifies this, ms.data
      ensures Holds() && h == old(h).(free := Removed(old(h.free), bp))
      ensures SamePayloads(old(ms.Mem()), ms.Mem(), h.blocks)
    {
      ghost var k := Index(h.free, bp);
      NodesSpread(h.blocks, h.brk, h.free, MAX_HEAP);
      UnlinkImage(ms.Mem(), h, k);
      Unlink(bp, h.free, k);
      h := h.(free := Without(h.free, k));
    }

    /** Links a free block in at the head. */
    method AddNode(bp: nat)
      requires Holds() && bp in h.blocks && !h.blocks[bp].alloc && bp !in h.free
      modifies this, ms.data
      ensures Holds() && h == old(h).(free := [bp] + old(h.free))
      ensures SamePayloads(old(ms.Mem()), ms.Mem(), h.blocks)
    {
      ghost var l, s := h.free, ms.Mem();
      NodesSpread(h.blocks, h.brk, [bp] + l, |s|);
      assert SpreadAt([bp] + l, |s|, 0, 0);
      assert l != [] ==> SpreadAt([bp] + l, |s|, 1, 0);
      PushImage(s, h, bp);
      if blkHeadp != 0 {
        ms.WriteAddr(blkHeadp, bp);
        ms.WriteAddr(bp + 8, blkHeadp);
      } else {
        ms.WriteAddr(bp + 8, 0);
      }
      ms.WriteAddr(bp, 0);
      blkHeadp := bp;
      h := h.(free := [bp] + l);
      assert ms.Mem() == Pushed(s, l, bp);
    }

    // ----- block macros, while the tags are in order

    /** GET_SIZE(HDRP(bp)) and GET_ALLOC(HDRP(bp)); the epilogue reads 0 and true. */
    function HeaderSize(bp: nat): (n: nat)
      requires Holds() && Boundary(h.blocks, h.brk, bp)
      reads this, ms, ms.data
      ensures n == if bp in h.blocks then h.blocks[bp].size else 0
    {
      ReadBoundary(ms.Mem(), h.blocks, h.brk, MIN, bp);
      SizeAt(bp - 4)
    }

    function HeaderAlloc(bp: nat): (a: bool)
      requires Holds() && Boundary(h.blocks, h.brk, bp)
      reads this, ms, ms.data
      ensures a == (bp in h.blocks ==> h.blocks[bp].alloc)
    {
      ReadBoundary(ms.Mem(), h.blocks, h.brk, MIN, bp);
      AllocAt(bp - 4)
    }

    function NextBlkp(bp: nat): (n: nat)
      requires Holds() && bp in h.blocks
      reads this, ms, ms.data
      ensures n == End(h.blocks, bp) && Boundary(h.blocks, h.brk, n)
    {
      assert Follows(h.blocks, h.brk, bp);
      bp + HeaderSize(bp)
    }

    /** PREV_BLKP(bp), found through the footer of the block before. */
    function PrevBlkp(bp: nat): (p: nat)
      requires Holds() && Boundary(h.blocks, h.brk, bp) && bp != PROLOGUE
      reads this, ms, ms.data
      ensures p == Prev(h.blocks, h.brk, MIN, bp)
    {
      ReadTag(ms.Mem(), h.blocks, h.brk, MIN, Prev(h.blocks, h.brk, MIN, bp));
      bp - SizeAt(bp - 8)
    }

    function FooterAlloc(bp: nat): (a: bool)
      requires Holds() && bp in h.blocks
      reads this, ms, ms.data
      ensures a == h.blocks[bp].alloc
    {
      ReadTag(ms.Mem(), h.blocks, h.brk, MIN, bp);
      AllocAt(bp + HeaderSize(bp) - 8)
    }

    // ----- coalescing

    /** The tags of one free block from `lo` to `hi`. */
    method PutFree(lo: nat, hi: nat)
      requires ms.Valid() && 8 <= lo && lo + MIN <= hi <= MAX_HEAP
      modifies ms.data
      ensures ms.Mem() == PutTags(old(ms.Mem()), lo, hi, false)
      ensures SameBeyond(old(ms.Mem()), ms.Mem(), lo, hi) && HasTags(ms.Mem(), lo, hi - lo, false)
    {
      ms.Put(lo - 4, Pack(hi - lo, false));
      ms.Put(hi - 8, Pack(hi - lo, false));
    }

    /** `bp` is free but not on the list, where every other free block is. */
    ghost predicate Pending(bp: nat)
      reads this, ms, ms.data
    {
      && Holds() && bp in h.blocks && bp != PROLOGUE && !h.blocks[bp].alloc
      && bp !in h.free && ListsAllBut(h.blocks, h.free, bp)
    }

    /** The free neighbours of `bp` have left the list and the tags of the whole merge
        been written over `s`. */
    ghost predicate Absorbed(s: Memory, g: State, bp: nat)
      requires Tiling(g.blocks, g.brk, MIN) && bp in g.blocks && bp != PROLOGUE
      reads this, ms, ms.data
    {
      var lo, hi := MergeLo(g.blocks, g.brk, MIN, bp), MergeHi(g.blocks, g.brk, MIN, bp);
      && ms.Valid() && ms.brk == g.brk && blkHeadp == Head(h.free)
      && h == g.(free := Unmerged(g, bp)) && Image(s, h)
      && SameBeyond(s, ms.Mem(), lo, hi) && HasTags(ms.Mem(), lo, hi - lo, false)
    }

    method AbsorbNext(bp: nat) returns (ghost s: Memory)
      requires Pending(bp) && h.blocks[Prev(h.blocks, h.brk, MIN, bp)].alloc
      requires End(h.blocks, bp) in h.blocks && !h.blocks[End(h.blocks, bp)].alloc
      modifies this, ms.data
      ensures Absorbed(s, old(h), bp) && SamePayloads(old(ms.Mem()), s, h.blocks)
    {
      hide PutTags, SameBeyond, HasTags, Image, Tiling, FreeNodes, Removed, SamePayloads;
      ImageShape(ms.Mem(), h);
      MergeRegion(h.blocks, h.brk, bp);
      MergeCases(h, bp);
      var size := HeaderSize(bp);
      RemoveNode(NextBlkp(bp));
      s := ms.Mem();
      size := size + HeaderSize(NextBlkp(bp));
      PutFree(bp, bp + size);
    }

    method AbsorbPrev(bp: nat) returns (r: nat, ghost s: Memory)
      requires Pending(bp) && !h.blocks[Prev(h.blocks, h.brk, MIN, bp)].alloc
      requires End(h.blocks, bp) in h.blocks ==> h.blocks[End(h.blocks, bp)].alloc
      modifies this, ms.data
      ensures Absorbed(s, old(h), bp) && SamePayloads(old(ms.Mem()), s, h.blocks)
      ensures r == Prev(h.blocks, h.brk, MIN, bp)
    {
      hide PutTags, SameBeyond, HasTags, Image, Tiling, FreeNodes, Removed, SamePayloads;
      ImageShape(ms.Mem(), h);
      MergeRegion(h.blocks, h.brk, bp);
      MergeCases(h, bp);
      var size := HeaderSize(bp);
      RemoveNode(PrevBlkp(bp));
      s := ms.Mem();
      size := size + HeaderSize(PrevBlkp(bp));
      r := PrevBlkp(bp);
      PutFree(r, r + size);
    }

    method AbsorbBoth(bp: nat) returns (r: nat, ghost s: Memory)
      requires Pending(bp) && !h.blocks[Prev(h.blocks, h.brk, MIN, bp)].alloc
      requires End(h.blocks, bp) in h.blocks && !h.blocks[End(h.blocks, bp)].alloc
      modifies this, ms.data
      ensures Absorbed(s, old(h), bp) && SamePayloads(old(ms.Mem()), s, h.blocks)
      ensures r == Prev(h.blocks, h.brk, MIN, bp)
    {
      hide PutTags, SameBeyond, HasTags, Image, Tiling, FreeNodes, Removed, SamePayloads;
      ImageShape(ms.Mem(), h);
      MergeRegion(h.blocks, h.brk, bp);
      MergeCases(h, bp);
      ghost var s0 := ms.Mem();
      var size := HeaderSize(bp);
      RemoveNode(PrevBlkp(bp));
      ghost var s1 := ms.Mem();
      RemoveNode(NextBlkp(bp));
      s := ms.Mem();
      SamePayloadsTrans(s0, s1, s, h.blocks, h.blocks);
      size := size + HeaderSize(PrevBlkp(bp)) + HeaderSize(NextBlkp(bp));
      r := PrevBlkp(bp);
      PutFree(r, r + size);
    }

    /** Merges `bp` with its free neighbours and puts the result on the list. */
    method Coalesce(bp: nat) returns (r: nat)
      requires Pending(bp)
      modifies this, ms.data
      ensures Holds() && h == ExplicitSpec.Coalesce(old(h), bp)
      ensures r == MergeLo(old(h).blocks, old(h).brk, MIN, bp)
      ensures SamePayloads(old(ms.Mem()), ms.Mem(), old(h).blocks)
    {
      ghost var g, s0 := h, ms.Mem();
      ghost var s := s0;
      MergeCases(g, bp);
      var prevAlloc := FooterAlloc(PrevBlkp(bp));
      var nextAlloc := HeaderAlloc(NextBlkp(bp));
      r := bp;
      if prevAlloc && !nextAlloc {
        s := AbsorbNext(bp);
      } else if !prevAlloc && nextAlloc {
        r, s := AbsorbPrev(bp);
      } else if !prevAlloc && !nextAlloc {
        r, s := AbsorbBoth(bp);
      } else {
        assert TaggedAt(s, g.blocks, bp);
      }
      FinishCoalesce(g, s0, s, bp, r);
    }

    /** The common end of the four cases. */
    method FinishCoalesce(ghost g: State, ghost s0: Memory, ghost s: Memory, ghost bp: nat, r: nat)
      requires Tiling(g.blocks, g.brk, MIN) && bp in g.blocks && bp != PROLOGUE && !g.blocks[bp].alloc
      requires FreeNodes(g.blocks, g.free) && bp !in g.free && ListsAllBut(g.blocks, g.free, bp)
      requires Absorbed(s, g, bp) && SamePayloads(s0, s, g.blocks)
      requires r == MergeLo(g.blocks, g.brk, MIN, bp)
      modifies this, ms.data
      ensures Holds() && h == ExplicitSpec.Coalesce(g, bp)
      ensures SamePayloads(s0, ms.Mem(), g.blocks)
    {
      MergedLive(g.blocks, g.brk, MIN, bp);
      MergeImage(s, ms.Mem(), g, bp);
      SamePayloadsTrans(s0, s, ms.Mem(), g.blocks, g.blocks);
      h := State(Merged(g.blocks, g.brk, MIN, bp), g.brk, h.free);
      ghost var t := ms.Mem();
      AddNode(r);
      SamePayloadsTrans(s0, t, ms.Mem(), g.blocks, h.blocks);
    }

    // ----- growing the heap

    method ExtendHeap(words: nat) returns (r: nat)
      requires Valid() && MIN <= WordBytes(words)
      requires WordBytes(words) < TWO_32 || Grown(h.brk, AsInt(WordBytes(words))).None?
      modifies this, ms`brk, ms.data
      ensures Valid() && SamePayloads(old(ms.Mem()), ms.Mem(), old(h).blocks)
      ensures match Extend(old(h), WordBytes(words))
              case None => r == 0 && h == old(h)
              case Some((x, b)) => r == b && h == x
    {
      var size := WordBytes(words);
      SbrkRefuses(ms.brk, size);
      var bp := ms.Sbrk(AsInt(size));
      if bp == -1 {
        return 0;
      }
      r := AddChunk(bp, size);
    }

    /** The `size` bytes that mem_sbrk has just granted become a free block, merged
        with a free block before them. */
    method AddChunk(bp: nat, size: nat) returns (r: nat)
      requires ms.Valid() && Image(ms.Mem(), h) && blkHeadp == Head(h.free) && Inv(h)
      requires bp == h.brk && size % 8 == 0 && size >= MIN && ms.brk == h.brk + size
      modifies this, ms.data
      ensures Valid() && SamePayloads(old(ms.Mem()), ms.Mem(), old(h).blocks)
      ensures Some((h, r)) == Extend(old(h), size)
    {
      ghost var g, s := h, ms.Mem();
      BrkBeyond(g.blocks, g.brk, MIN);
      ExtendedTiles(g.blocks, g.brk, MIN, size);
      NewBlock(bp, size);
      ghost var t := ms.Mem();
      ExtendImage(s, t, g, size);
      h := State(Extended(g.blocks, g.brk, size), g.brk + size, g.free);
      r := Coalesce(bp);
      ExtendInv(g, size);
      SamePayloadsTrans(s, t, ms.Mem(), g.blocks, Extended(g.blocks, g.brk, size));
    }

    /** Header, footer, cleared links and new epilogue. */
    method NewBlock(bp: nat, size: nat)
      requires ms.Valid() && 8 <= bp && MIN <= size && bp + size <= MAX_HEAP
      modifies ms.data
      ensures HasTags(ms.Mem(), bp, size, false) && ms.Mem()[bp + size - 4] == Pack(0, true)
      ensures forall q: nat | q < bp - 4 :: ms.Mem()[q] == old(ms.Mem())[q]
    {
      ms.Put(bp - 4, Pack(size, false));
      ms.Put(bp + size - 8, Pack(size, false));
      ms.WriteAddr(bp, 0);
      ms.WriteAddr(bp + 8, 0);
      ms.Put(bp + size - 4, Pack(0, true));
    }

    // ----- allocation

    /** First fit over the free list. */
    method FindFit(asize: nat) returns (bp: nat)
      requires Valid()
      ensures var i := FirstFit(h.blocks, h.free, asize, 0);
              bp == if i < |h.free| then h.free[i] else 0
    {
      bp := blkHeadp;
      ghost var k := 0;
      NodesSpread(h.blocks, h.brk, h.free, MAX_HEAP);
      assert h.free != [] ==> SpreadAt(h.free, MAX_HEAP, 0, 0);
      while bp != 0
        invariant 0 <= k <= |h.free| && bp == (if k < |h.free| then h.free[k] else 0)
        invariant k < |h.free| ==> bp != 0
        invariant FirstFit(h.blocks, h.free, asize, 0) == FirstFit(h.blocks, h.free, asize, k)
        decreases |h.free| - k
      {
        Neighbours(ms.Mem(), h.free, k);
        assert bp in h.free;
        if asize <= HeaderSize(bp) {
          return;
        }
        bp := ms.ReadAddr(bp + 8);
        k := k + 1;
      }
    }

    method Place(bp: nat, asize: nat)
      requires Valid() && bp in h.free && MIN <= asize <= h.blocks[bp].size && asize % 8 == 0
      modifies this, ms.data
      ensures Valid() && h == ExplicitSpec.Place(old(h), bp, asize)
      ensures SamePayloads(old(ms.Mem()), ms.Mem(), old(h).blocks)
    {
      PlaceInv(h, bp, asize);
      RemovedFacts(h.free, bp);
      var csize := HeaderSize(bp);
      if csize - asize >= MIN {
        PlaceSplit(bp, asize, csize);
      } else {
        PlaceWhole(bp, csize);
      }
    }

    /** The tags of an allocated block of `asize` bytes and a free one behind it. */
    method PutSplit(bp: nat, asize: nat, csize: nat)
      requires ms.Valid() && 8 <= bp && MIN <= asize && asize + MIN <= csize && bp + csize <= MAX_HEAP
      modifies ms.data
      ensures SameBeyond(old(ms.Mem()), ms.Mem(), bp, bp + csize)
      ensures HasTags(ms.Mem(), bp, asize, true) && HasTags(ms.Mem(), bp + asize, csize - asize, false)
    {
      ms.Put(bp - 4, Pack(asize, true));
      ms.Put(bp + asize - 8, Pack(asize, true));
      var rest := bp + asize;
      ms.Put(rest - 4, Pack(csize - asize, false));
      ms.Put(rest + (csize - asize) - 8, Pack(csize - asize, false));
    }

    /** The block leaves the list and is split; the rest is not listed yet. */
    method SplitOff(bp: nat, asize: nat, csize: nat)
      requires Holds() && bp in h.free && bp !in Removed(h.free, bp)
      requires csize == h.blocks[bp].size && MIN <= asize && asize + MIN <= csize && asize % 8 == 0
      modifies this, ms.data
      ensures Holds() && h == State(Placed(old(h).blocks, bp, asize, MIN), old(h).brk, Removed(old(h).free, bp))
      ensures bp + asize !in old(h).blocks && SamePayloads(old(ms.Mem()), ms.Mem(), old(h).blocks)
    {
      hide Image, HasTags, SameBeyond, SamePayloads, Removed, Tiling, FreeNodes;
      ImageShape(ms.Mem(), h);
      ghost var g, s := h, ms.Mem();
      NodeFits(g, bp);
      RemoveNode(bp);
      ghost var t := ms.Mem();
      PutSplit(bp, asize, csize);
      SplitDone(s, t, ms.Mem(), g, bp, asize);
      h := h.(blocks := Placed(g.blocks, bp, asize, MIN));
    }

    method PlaceSplit(bp: nat, asize: nat, csize: nat)
      requires Holds() && bp in h.free && bp !in Removed(h.free, bp)
      requires csize == h.blocks[bp].size && MIN <= asize && asize + MIN <= csize && asize % 8 == 0
      modifies this, ms.data
      ensures Holds() && h == ExplicitSpec.Place(old(h), bp, asize)
      ensures SamePayloads(old(ms.Mem()), ms.Mem(), old(h).blocks)
    {
      hide Linked, Tagged, SamePayloads, Removed;
      ghost var g, s := h, ms.Mem();
      SplitOff(bp, asize, csize);
      ghost var u := ms.Mem();
      RestNotListed(g, bp, bp + asize);
      AddNode(bp + asize);
      SamePayloadsTrans(s, u, ms.Mem(), g.blocks, h.blocks);
    }

    method PlaceWhole(bp: nat, csize: nat)
      requires Holds() && bp in h.free && bp !in Removed(h.free, bp) && csize == h.blocks[bp].size
      modifies this, ms.data
      ensures Holds() && SamePayloads(old(ms.Mem()), ms.Mem(), old(h).blocks)
      ensures h == State(old(h).blocks[bp := Block(csize, true)], old(h).brk, Removed(old(h).free, bp))
    {
      ghost var g, s := h, ms.Mem();
      ReadTag(s, g.blocks, g.brk, MIN, bp);
      WholeRegion(g.blocks, g.brk, MIN, bp);
      RemoveNode(bp);
      ghost var t := ms.Mem();
      ms.Put(bp - 4, Pack(csize, true));
      ms.Put(bp + csize - 8, Pack(csize, true));
      MarkImage(t, ms.Mem(), h, bp, true);
      BeyondPayloads(t, ms.Mem(), g.blocks, g.brk, MIN, bp, End(g.blocks, bp));
      SamePayloadsTrans(s, t, ms.Mem(), g.blocks, g.blocks);
      h := h.(blocks := h.blocks[bp := Block(csize, true)]);
    }

    // ----- the public calls

    /** On an empty break: padding, prologue, epilogue and a first free chunk. */
    method MmInit() returns (r: int)
      requires ms.Valid() && ms.brk == 0
      modifies this, ms`brk, ms.data
      ensures Valid() && r == 0 && h == Init()
    {
      var start := ms.Sbrk(16);
      if start == -1 {
        return -1;
      }
      ms.Put(start, 0);
      ms.Put(start + 4, Pack(8, true));
      ms.Put(start + 8, Pack(8, true));
      ms.Put(start + 12, Pack(0, true));
      blkHeadp := 0;
      h := Empty();
      EmptyInv();
      assert Image(ms.Mem(), h) by { assert TaggedAt(ms.Mem(), h.blocks, PROLOGUE); }
      ChunkWords(CHUNKSIZE);
      FirstChunk();
      var bp := ExtendHeap(CHUNKSIZE / 4);
      if bp == 0 {
        return -1;
      }
      return 0;
    }

    /** A block for `size` bytes, or NULL when none can be had. */
    method MmMalloc(size: nat) returns (p: nat)
      requires Valid() && Served(h, size)
      modifies this, ms`brk, ms.data
      ensures Valid() && (h, p) == Malloc(old(h), size)
      ensures SamePayloads(old(ms.Mem()), ms.Mem(), old(h).blocks)
    {
      hide Image, Tiling, Coalesced, Lists, Removed, Placed, Extend;
      if size == 0 {
        return 0;
      }
      var asize := CodeSize(size);
      ghost var g, s := h, ms.Mem();
      ghost var i := FirstFit(g.blocks, g.free, asize, 0);
      NonNull(g, i);
      RefusedFails(g, size);
      p := FindFit(asize);
      if p != 0 {
        Place(p, asize);
        return;
      }
      ChunkWords(Growth(asize, CHUNKSIZE));
      p := ExtendHeap(Growth(asize, CHUNKSIZE) / 4);
      if p == 0 {
        return 0;
      }
      ExtendInv(g, Growth(asize, CHUNKSIZE));
      ghost var x, t := h, ms.Mem();
      Place(p, asize);
      SamePayloadsTrans(s, t, ms.Mem(), g.blocks, x.blocks);
    }

    /** mem_heapsize: the blocks and, for padding and epilogue, 8 bytes. */
    method HeapSize() returns (n: nat)
      requires Valid()
      ensures n == 8 + Total(h.blocks, Walk(h.blocks, PROLOGUE, h.brk, MIN))
    {
      n := ms.HeapSize();
      WalkTotal(h.blocks, PROLOGUE, h.brk, MIN);
    }

    /** Free tags and cleared links. */
    method ClearBlock(bp: nat, size: nat)
      requires ms.Valid() && 8 <= bp && MIN <= size && bp + size <= MAX_HEAP
      modifies ms.data
      ensures SameBeyond(old(ms.Mem()), ms.Mem(), bp, bp + size) && HasTags(ms.Mem(), bp, size, false)
    {
      ms.Put(bp - 4, Pack(size, false));
      ms.Put(bp + size - 8, Pack(size, false));
      ms.WriteAddr(bp, 0);
      ms.WriteAddr(bp + 8, 0);
    }

    method MmFree(bp: nat)
      requires Valid() && Live(h.blocks, bp)
      modifies this, ms.data
      ensures Valid() && h == Free(old(h), bp)
      ensures SamePayloads(old(ms.Mem()), ms.Mem(), h.blocks)
    {
      ghost var g, s := h, ms.Mem();
      ghost var f := Freed(g.blocks, bp);
      WholeRegion(g.blocks, g.brk, MIN, bp);
      assert SizedAt(g.blocks, g.brk, MIN, bp);
      var size := HeaderSize(bp);
      ClearBlock(bp, size);
      ghost var t := ms.Mem();
      MarkImage(s, t, g, bp, false);
      FreedPayloads(s, t, g.blocks, g.brk, MIN, bp);
      h := g.(blocks := f);
      FreedCoalescedExcept(g.blocks, bp);
      FreeInv(g, bp);
      var _ := Coalesce(bp);
      SamePayloadsTrans(s, t, ms.Mem(), f, f);
      RestrictPayloads(s, ms.Mem(), f, h.blocks);
    }
  }
}
