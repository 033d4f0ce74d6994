/** Blocks taken from free space and given back, written out block by block. */
module Takes {
  import opened BlockLayout

  /** Of the c free bytes at p a block of `asize` is taken; the rest stays a free block when
      it has `least` bytes, and else goes along; no other block changes. */
  ghost predicate Taken(m: Layout, y: Layout, p: nat, c: int, asize: nat, least: nat) {
    && asize <= c && p in y
    && (forall b | b in m && b != p :: b in y && y[b] == m[b])
    && if c >= asize + least then
         && y[p] == Block(asize, true)
         && p + asize !in m && p + asize in y && y[p + asize] == Block(c - asize, false)
         && (forall b | b in y :: b in m || b == p || b == p + asize)
       else
         y[p] == Block(c, true) && forall b | b in y :: b in m || b == p
  }

  /** Where the free space at the end of the heap starts. */
  ghost predicate LastFree(m: Layout, brk: nat, p: nat) {
    if exists b :: b in m && !m[b].alloc && End(m, b) == brk then p in m && !m[p].alloc && End(m, p) == brk
    else p == brk
  }

  lemma LastIs(m: Layout, brk: nat, min: nat, size: nat)
    requires Tiling(m, brk, min) && size % 8 == 0 && size >= min
    ensures Tiling(Extended(m, brk, size), brk + size, min) && brk !in m
    ensures LastFree(m, brk, MergeLo(Extended(m, brk, size), brk + size, min, brk))
  {
    ExtendedTiles(m, brk, min, size);
    BrkBeyond(m, brk, min);
    var x := Extended(m, brk, size);
    var a := Prev(x, brk + size, min, brk);
    assert SizedAt(x, brk + size, min, brk);
    forall b | b in m && End(m, b) == brk ensures b == a {
      PrevIs(x, brk + size, min, b);
    }
  }

  /** A new chunk and what is free before it become one free block. */
  lemma ChunkMerges(m: Layout, brk: nat, min: nat, size: nat)
    requires Tiling(m, brk, min) && size % 8 == 0 && size >= min
    requires Tiling(Extended(m, brk, size), brk + size, min)
    ensures var x, end := Extended(m, brk, size), brk + size;
            && End(x, brk) == end
            && LastFree(m, brk, MergeLo(x, end, min, brk))
            && MergeLo(x, end, min, brk) <= brk
            && Merged(x, end, min, brk) == m[MergeLo(x, end, min, brk) := Block(end - MergeLo(x, end, min, brk), false)]
  {
    var x, end := Extended(m, brk, size), brk + size;
    LastIs(m, brk, min, size);
    MergeExtent(x, end, min, brk);
    BrkBeyond(x, end, min);
    var lo := MergeLo(x, end, min, brk);
    assert MergeHi(x, end, min, brk) == end;
    var f := Merged(x, end, min, brk);
    forall b ensures b in f <==> b == lo || b in m {
      assert b in x ==> SizedAt(x, end, min, b);
      assert b in m ==> b != brk;
    }
  }

  /** What a freed block becomes part of: lo is the free block that ends at it, hi the end
      of the free block that starts behind it, where there are such. */
  ghost predicate FreedRegion(m: Layout, brk: nat, bp: nat, lo: nat, hi: nat)
    requires bp in m
  {
    && (if exists b :: b in m && !m[b].alloc && End(m, b) == bp then lo in m && !m[lo].alloc && End(m, lo) == bp
        else lo == bp)
    && hi == if End(m, bp) in m && !m[End(m, bp)].alloc then End(m, End(m, bp)) else End(m, bp)
  }

  lemma FreedRegionIs(m: Layout, brk: nat, min: nat, bp: nat)
    requires Tiling(m, brk, min) && Live(m, bp) && Tiling(Freed(m, bp), brk, min)
    ensures var f := Freed(m, bp);
            FreedRegion(m, brk, bp, MergeLo(f, brk, min, bp), MergeHi(f, brk, min, bp))
  {
    var f := Freed(m, bp);
    var a := Prev(f, brk, min, bp);
    assert SizedAt(m, brk, min, bp);
    assert a != bp;
    forall b | b in m && End(m, b) == bp ensures b == a {
      assert SizedAt(m, brk, min, b);
      PrevIs(f, brk, min, b);
    }
  }

  /** The blocks in it. */
  lemma RegionBlocks(m: Layout, brk: nat, min: nat, bp: nat, b: nat)
    requires Tiling(m, brk, min) && Live(m, bp) && Tiling(Freed(m, bp), brk, min) && b in m
    ensures var f := Freed(m, bp);
            MergeLo(f, brk, min, bp) <= b < MergeHi(f, brk, min, bp) <==>
            b == MergeLo(f, brk, min, bp) || b == bp || (b == End(m, bp) && !m[b].alloc)
  {
    hide MergeLo, MergeHi, Tiling;
    var f, n := Freed(m, bp), End(m, bp);
    MergeExtent(f, brk, min, bp);
    FreedRegionIs(m, brk, min, bp);
    EndsHigher(m, brk, min, b);
    EndsHigher(m, brk, min, bp);
    var lo, hi := MergeLo(f, brk, min, bp), MergeHi(f, brk, min, bp);
    assert End(f, bp) == n && b in f && lo <= bp;
    if b == n && !m[b].alloc { assert hi == End(m, b); }
    if b == n && hi != n { assert n in m && !m[n].alloc; }
    assert b in f && lo <= b < hi <==> b in {lo, bp} || (b == n && hi != b);
  }

  lemma EndsHigher(m: Layout, brk: nat, min: nat, b: nat)
    requires Tiling(m, brk, min) && b in m
    ensures b < End(m, b)
  {
    assert SizedAt(m, brk, min, b);
  }
}
