/** Boundary tags: how the words of memory encode a block layout. */
module Tags {
  import opened BlockLayout
  import opened Memlib

  // Every block has its size and allocated bit in the word before it (header) and, again,
  // in its last word (footer); the epilogue is a header of size 0 that is allocated.

  ghost predicate HasTags(s: Memory, b: nat, size: nat, alloc: bool) {
    && 4 <= b && 8 <= size && b + size - 4 <= |s| && size < TWO_32 - 1
    && s[b - 4] == Pack(size, alloc) && s[b + size - 8] == Pack(size, alloc)
  }

  ghost predicate TaggedAt(s: Memory, m: Layout, b: nat)
    requires b in m
  {
    HasTags(s, b, m[b].size, m[b].alloc)
  }

  ghost predicate Tagged(s: Memory, m: Layout, brk: nat) {
    && (forall b {:trigger TaggedAt(s, m, b)} | b in m :: TaggedAt(s, m, b))
    && 4 <= brk <= |s| && s[brk - 4] == Pack(0, true)
  }

  /** Header and footer written for a block from `lo` to `hi`. */
  function PutTags(s: Memory, lo: nat, hi: nat, alloc: bool): (t: Memory)
    requires 4 <= lo && lo + 8 <= hi && hi - 4 <= |s| <= MAX_HEAP
    ensures HasTags(t, lo, hi - lo, alloc) && |t| == |s|
    ensures forall q: nat | q < |s| && q != lo - 4 && q != hi - 8 :: t[q] == s[q]
  {
    s[lo - 4 := Pack(hi - lo, alloc)][hi - 8 := Pack(hi - lo, alloc)]
  }

  /** Every word a client may use is the same in `s` and `t`. */
  ghost predicate SamePayloadAt(s: Memory, t: Memory, m: Layout, b: nat)
    requires b in m
  {
    forall q: nat | b <= q < End(m, b) - 8 && q < |s| && q < |t| :: t[q] == s[q]
  }

  ghost predicate SamePayloads(s: Memory, t: Memory, m: Layout) {
    |s| == |t| && forall b {:trigger SamePayloadAt(s, t, m, b)} | Live(m, b) :: SamePayloadAt(s, t, m, b)
  }

  lemma SamePayloadsTrans(s: Memory, t: Memory, u: Memory, m: Layout, n: Layout)
    requires SamePayloads(s, t, m) && SamePayloads(t, u, n)
    requires forall b | Live(m, b) :: b in n && n[b] == m[b]
    ensures SamePayloads(s, u, m)
  {
    forall b | Live(m, b) ensures SamePayloadAt(s, u, m, b) {
      assert SamePayloadAt(s, t, m, b) && SamePayloadAt(t, u, n, b);
    }
  }

  // ----- writes confined to some blocks harm neither tags nor payloads of others

  /** `t` differs from `s` only in the extent, tags included, of what lies from `lo`
      to `hi`. */
  ghost predicate SameBeyond(s: Memory, t: Memory, lo: nat, hi: nat) {
    |s| == |t| && forall q: nat | q < |s| && (q < lo - 4 || hi - 4 <= q) :: t[q] == s[q]
  }

  ghost predicate Region(m: Layout, brk: nat, lo: nat, hi: nat) {
    lo in m && lo != PROLOGUE && Boundary(m, brk, hi) && lo < hi <= brk
  }

  lemma RegionFacts(m: Layout, brk: nat, min: nat, lo: nat, hi: nat)
    requires Tiling(m, brk, min) && Region(m, brk, lo, hi)
    ensures 8 <= lo && lo + min <= End(m, lo) <= hi && lo % 8 == 0 && hi % 8 == 0
  {
    assert SizedAt(m, brk, min, lo) && AlignedAt(m, lo);
    assert AlignedAt(m, Prev(m, brk, min, hi));
    assert hi in m ==> ApartAt(m, lo, hi);
  }

  lemma BeyondRegion(m: Layout, brk: nat, min: nat, lo: nat, hi: nat, b: nat)
    requires Tiling(m, brk, min) && Region(m, brk, lo, hi) && b in m && !(lo <= b < hi)
    ensures 8 <= b && b + 8 <= End(m, b) <= brk && (End(m, b) <= lo || hi <= b)
  {
    assert SizedAt(m, brk, min, b) && ApartAt(m, b, lo);
  }

  lemma BeyondTagged(s: Memory, t: Memory, m: Layout, brk: nat, min: nat, lo: nat, hi: nat, b: nat)
    requires Tiling(m, brk, min) && Region(m, brk, lo, hi) && SameBeyond(s, t, lo, hi)
    requires Tagged(s, m, brk) && b in m && !(lo <= b < hi)
    ensures TaggedAt(t, m, b)
  {
    BeyondRegion(m, brk, min, lo, hi, b);
    assert TaggedAt(s, m, b);
  }

  /** A block is a region of its own. */
  lemma WholeRegion(m: Layout, brk: nat, min: nat, b: nat)
    requires Tiling(m, brk, min) && b in m && b != PROLOGUE
    ensures Region(m, brk, b, End(m, b)) && End(m, b) - 8 >= b
    ensures forall c | c in m :: b <= c < End(m, b) ==> c == b
  {
    assert Follows(m, brk, b) && SizedAt(m, brk, min, b);
    forall c | c in m ensures b <= c < End(m, b) ==> c == b { assert ApartAt(m, b, c); }
  }

  lemma BeyondPayloads(s: Memory, t: Memory, m: Layout, brk: nat, min: nat, lo: nat, hi: nat)
    requires Tiling(m, brk, min) && Region(m, brk, lo, hi) && SameBeyond(s, t, lo, hi)
    requires forall b: nat | Live(m, b) :: !(lo <= b < hi)
    ensures SamePayloads(s, t, m)
  {
    forall b: nat | Live(m, b) ensures SamePayloadAt(s, t, m, b) {
      BeyondRegion(m, brk, min, lo, hi, b);
    }
  }

  // ----- the four changes of layout, as changes of tags

  lemma FuseTagged(s: Memory, t: Memory, m: Layout, brk: nat, min: nat, lo: nat, hi: nat)
    requires Tiling(m, brk, min) && Region(m, brk, lo, hi) && Tagged(s, m, brk)
    requires SameBeyond(s, t, lo, hi) && HasTags(t, lo, hi - lo, false)
    ensures Tagged(t, Fuse(m, lo, hi), brk)
  {
    var f := Fuse(m, lo, hi);
    forall b | b in f ensures TaggedAt(t, f, b) {
      if b != lo { BeyondTagged(s, t, m, brk, min, lo, hi, b); }
    }
  }

  lemma MarkTagged(s: Memory, t: Memory, m: Layout, brk: nat, min: nat, bp: nat, alloc: bool)
    requires Tiling(m, brk, min) && Tagged(s, m, brk) && bp in m && bp != PROLOGUE
    requires Region(m, brk, bp, End(m, bp))
    requires SameBeyond(s, t, bp, End(m, bp)) && HasTags(t, bp, m[bp].size, alloc)
    ensures Tagged(t, m[bp := Block(m[bp].size, alloc)], brk)
  {
    var f := m[bp := Block(m[bp].size, alloc)];
    forall b | b in f ensures TaggedAt(t, f, b) {
      if b != bp {
        assert ApartAt(m, bp, b);
        BeyondTagged(s, t, m, brk, min, bp, End(m, bp), b);
      }
    }
  }

  lemma SplitTagged(s: Memory, t: Memory, m: Layout, brk: nat, min: nat, bp: nat, asize: nat)
    requires Tiling(m, brk, min) && Tagged(s, m, brk) && bp in m && bp != PROLOGUE
    requires Region(m, brk, bp, End(m, bp)) && 0 < asize && asize + min <= m[bp].size
    requires SameBeyond(s, t, bp, End(m, bp))
    requires HasTags(t, bp, asize, true) && HasTags(t, bp + asize, m[bp].size - asize, false)
    ensures Tagged(t, Placed(m, bp, asize, min), brk)
  {
    var f := Placed(m, bp, asize, min);
    forall b | b in f ensures TaggedAt(t, f, b) {
      if b != bp && b != bp + asize {
        assert ApartAt(m, bp, b);
        BeyondTagged(s, t, m, brk, min, bp, End(m, bp), b);
      }
    }
  }

  lemma ExtendTagged(s: Memory, t: Memory, m: Layout, brk: nat, min: nat, size: nat)
    requires Tiling(m, brk, min) && Tagged(s, m, brk) && brk + size <= |t| && |s| == |t| && 0 < size
    requires HasTags(t, brk, size, false) && t[brk + size - 4] == Pack(0, true)
    requires forall q: nat | q < brk - 4 :: t[q] == s[q]
    ensures Tagged(t, Extended(m, brk, size), brk + size)
    ensures SamePayloads(s, t, m)
  {
    var x := Extended(m, brk, size);
    forall b | b in x ensures TaggedAt(t, x, b) {
      if b != brk { assert SizedAt(m, brk, min, b) && TaggedAt(s, m, b); }
    }
    forall b: nat | Live(m, b) ensures SamePayloadAt(s, t, m, b) {
      assert SizedAt(m, brk, min, b);
    }
  }

  /** Reading a tag back gives the block's size and allocated bit. */
  lemma ReadTag(s: Memory, m: Layout, brk: nat, min: nat, b: nat)
    requires Tiling(m, brk, min) && Tagged(s, m, brk) && b in m
    ensures 8 <= b && b + 8 <= End(m, b) <= brk <= |s| && b % 8 == 0 && End(m, b) % 8 == 0
    ensures GetSize(s[b - 4]) == m[b].size && GetAlloc(s[b - 4]) == m[b].alloc
    ensures GetSize(s[End(m, b) - 8]) == m[b].size && GetAlloc(s[End(m, b) - 8]) == m[b].alloc
  {
    assert SizedAt(m, brk, min, b) && AlignedAt(m, b) && TaggedAt(s, m, b);
    Unpack(m[b].size, m[b].alloc);
  }

  /** The word before a boundary is the header of the next block or the epilogue's. */
  lemma ReadBoundary(s: Memory, m: Layout, brk: nat, min: nat, p: nat)
    requires Tiling(m, brk, min) && Tagged(s, m, brk) && Boundary(m, brk, p)
    ensures 8 <= p <= |s|
    ensures GetSize(s[p - 4]) == (if p in m then m[p].size else 0)
    ensures GetAlloc(s[p - 4]) == (p in m ==> m[p].alloc)
    ensures p != brk ==> GetSize(s[p - 4]) > 0
  {
    BrkBeyond(m, brk, min);
    if p in m { ReadTag(s, m, brk, min, p); } else { Unpack(0, true); }
  }

  lemma RestrictPayloads(s: Memory, t: Memory, m: Layout, n: Layout)
    requires SamePayloads(s, t, m) && forall b: nat | Live(n, b) :: Live(m, b) && n[b] == m[b]
    ensures SamePayloads(s, t, n)
  {
    forall b: nat | Live(n, b) ensures SamePayloadAt(s, t, n, b) {
      assert SamePayloadAt(s, t, m, b);
    }
  }

  lemma FreedPayloads(s: Memory, t: Memory, m: Layout, brk: nat, min: nat, bp: nat)
    requires Tiling(m, brk, min) && Live(m, bp) && SameBeyond(s, t, bp, End(m, bp))
    ensures Tiling(Freed(m, bp), brk, min) && SamePayloads(s, t, Freed(m, bp))
  {
    var f := Freed(m, bp);
    MarkedTiles(m, brk, min, bp, false);
    WholeRegion(f, brk, min, bp);
    BeyondPayloads(s, t, f, brk, min, bp, End(f, bp));
  }
}
