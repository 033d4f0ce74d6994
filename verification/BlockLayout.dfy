/** The abstract heap both allocators of lab7 refine. */
module BlockLayout {
  // A heap is a map from block pointers, byte offsets of payloads from the heap start, to
  // block sizes and allocated bits.  The prologue is the block at 8; the epilogue sits at
  // `brk` and is not a key of the map.  How the words of the heap encode a layout is the
  // business of the allocator modules.

  datatype Block = Block(size: nat, alloc: bool)

  type Layout = map<nat, Block>

  const PROLOGUE: nat := 8

  function End(m: Layout, b: nat): nat
    requires b in m
  {
    b + m[b].size
  }

  // ----- what it means for a layout to tile the heap

  ghost predicate SizedAt(m: Layout, brk: nat, min: nat, b: nat)
    requires b in m
  {
    PROLOGUE <= b && m[b].size >= (if b == PROLOGUE then 8 else min) && End(m, b) <= brk
  }

  ghost predicate AlignedAt(m: Layout, b: nat)
    requires b in m
  {
    b % 8 == 0 && m[b].size % 8 == 0
  }

  ghost predicate ApartAt(m: Layout, b: nat, c: nat)
    requires b in m && c in m
  {
    b < c ==> End(m, b) <= c
  }

  ghost predicate Follows(m: Layout, brk: nat, b: nat)
    requires b in m
  {
    End(m, b) in m || End(m, b) == brk
  }

  // In these quantifiers a trigger keeps the verifier from instantiating, and so
  // from chasing successors and remainders, until a proof names the block it needs.

  ghost predicate Sized(m: Layout, brk: nat, min: nat) {
    forall b {:trigger SizedAt(m, brk, min, b)} | b in m :: SizedAt(m, brk, min, b)
  }

  ghost predicate Aligned(m: Layout) {
    forall b {:trigger AlignedAt(m, b)} | b in m :: AlignedAt(m, b)
  }

  ghost predicate Apart(m: Layout) {
    forall b, c {:trigger ApartAt(m, b, c)} | b in m && c in m :: ApartAt(m, b, c)
  }

  ghost predicate Chained(m: Layout, brk: nat) {
    forall b {:trigger Follows(m, brk, b)} | b in m :: Follows(m, brk, b)
  }

  /** The blocks tile the heap from the prologue exactly up to the epilogue. */
  ghost predicate Tiling(m: Layout, brk: nat, min: nat) {
    && 8 <= min
    && PROLOGUE in m && m[PROLOGUE] == Block(8, true)
    && Sized(m, brk, min) && Aligned(m) && Apart(m) && Chained(m, brk)
  }

  /** A block pointer of the layout, or the epilogue. */
  ghost predicate Boundary(m: Layout, brk: nat, p: nat) {
    p in m || p == brk
  }

  /** The blocks a client holds. */
  predicate Live(m: Layout, b: nat) {
    b in m && b != PROLOGUE && m[b].alloc
  }

  /** The block `b` and its successor are not both free. */
  ghost predicate Settled(m: Layout, b: nat)
    requires b in m
  {
    End(m, b) in m ==> m[b].alloc || m[End(m, b)].alloc
  }

  /** No two neighbouring blocks are both free. */
  ghost predicate Coalesced(m: Layout) {
    forall b {:trigger Settled(m, b)} | b in m :: Settled(m, b)
  }

  /** The same, except possibly around `bp`. */
  ghost predicate CoalescedExcept(m: Layout, bp: nat) {
    forall b {:trigger Settled(m, b)} | b in m && b != bp && End(m, b) != bp :: Settled(m, b)
  }

  // ----- walking the layout

  /** NEXT_BLKP from `p` until the epilogue. */
  ghost function Walk(m: Layout, p: nat, brk: nat, min: nat): (w: seq<nat>)
    requires Tiling(m, brk, min) && Boundary(m, brk, p)
    ensures forall b | b in w :: b in m
    decreases brk - p
  {
    if p == brk then
      []
    else
      assert Follows(m, brk, p) && SizedAt(m, brk, min, p);
      [p] + Walk(m, End(m, p), brk, min)
  }

  ghost predicate Ascending(w: seq<nat>) {
    forall i, j | 0 <= i < j < |w| :: w[i] < w[j]
  }

  ghost function Total(m: Layout, w: seq<nat>): nat
    requires forall b | b in w :: b in m
  {
    if w == [] then 0 else m[w[0]].size + Total(m, w[1..])
  }

  /** Walking from a boundary visits exactly the blocks at or after it ... */
  lemma {:induction false} WalkCovers(m: Layout, p: nat, brk: nat, min: nat)
    requires Tiling(m, brk, min) && Boundary(m, brk, p)
    ensures forall b :: b in Walk(m, p, brk, min) <==> b in m && p <= b
    decreases brk - p
  {
    if p == brk {
      forall b | b in m ensures b < brk { assert SizedAt(m, brk, min, b); }
    } else {
      assert Follows(m, brk, p) && SizedAt(m, brk, min, p);
      var t := Walk(m, End(m, p), brk, min);
      WalkCovers(m, End(m, p), brk, min);
      assert Walk(m, p, brk, min) == [p] + t;
      forall b | b in m ensures p <= b <==> b == p || b in t { assert ApartAt(m, p, b); }
    }
  }

  /** ... in address order, so each of them once ... */
  lemma {:induction false} WalkAscends(m: Layout, p: nat, brk: nat, min: nat)
    requires Tiling(m, brk, min) && Boundary(m, brk, p)
    ensures Ascending(Walk(m, p, brk, min))
    decreases brk - p
  {
    if p != brk {
      assert Follows(m, brk, p) && SizedAt(m, brk, min, p);
      var w, t := Walk(m, p, brk, min), Walk(m, End(m, p), brk, min);
      WalkAscends(m, End(m, p), brk, min);
      WalkCovers(m, End(m, p), brk, min);
      assert w == [p] + t;
      forall i, j | 0 <= i < j < |w| ensures w[i] < w[j] {
        assert w[j] == t[j - 1] && t[j - 1] in t;
        if i > 0 { assert w[i] == t[i - 1] && t[i - 1] < t[j - 1]; }
      }
    }
  }

  /** ... and their sizes add up to what lies between it and the epilogue. */
  lemma {:induction false} WalkTotal(m: Layout, p: nat, brk: nat, min: nat)
    requires Tiling(m, brk, min) && Boundary(m, brk, p)
    ensures p + Total(m, Walk(m, p, brk, min)) == brk
    decreases brk - p
  {
    if p != brk {
      assert Follows(m, brk, p) && SizedAt(m, brk, min, p);
      WalkTotal(m, End(m, p), brk, min);
      assert Walk(m, p, brk, min)[1..] == Walk(m, End(m, p), brk, min);
    }
  }

  /** The bytes asked for of the blocks on a walk that are held, and a word each for their
      tags. */
  function Claims(held: map<nat, nat>, w: seq<nat>): nat {
    if w == [] then 0 else (if w[0] in held then held[w[0]] + 8 else 0) + Claims(held, w[1..])
  }

  lemma {:induction false} ClaimsFit(m: Layout, held: map<nat, nat>, w: seq<nat>)
    requires forall b | b in w :: b in m
    requires forall b | b in held :: b in m && held[b] + 8 <= m[b].size
    ensures Claims(held, w) <= Total(m, w)
  {
    if w != [] {
      assert w[0] in w;
      ClaimsFit(m, held, w[1..]);
    }
  }

  /** Every boundary but the prologue ends some block, the one PREV_BLKP finds. */
  lemma HasPrev(m: Layout, brk: nat, min: nat, c: nat)
    requires Tiling(m, brk, min) && Boundary(m, brk, c) && c != PROLOGUE
    ensures exists a :: a in m && End(m, a) == c
  {
    var a := PROLOGUE;
    assert SizedAt(m, brk, min, a) && (c in m ==> SizedAt(m, brk, min, c));
    while End(m, a) != c
      invariant a in m && a < c
      decreases c - a
    {
      assert Follows(m, brk, a) && SizedAt(m, brk, min, a);
      if c in m { assert ApartAt(m, a, c); }
      a := End(m, a);
    }
  }

  ghost function Prev(m: Layout, brk: nat, min: nat, c: nat): (a: nat)
    requires Tiling(m, brk, min) && Boundary(m, brk, c) && c != PROLOGUE
    ensures a in m && End(m, a) == c
  {
    HasPrev(m, brk, min, c);
    var a :| a in m && End(m, a) == c;
    a
  }

  lemma PrevIs(m: Layout, brk: nat, min: nat, a: nat)
    requires Tiling(m, brk, min) && a in m && Boundary(m, brk, End(m, a))
    ensures End(m, a) != PROLOGUE && a == Prev(m, brk, min, End(m, a))
  {
    var p := Prev(m, brk, min, End(m, a));
    assert SizedAt(m, brk, min, a) && SizedAt(m, brk, min, p);
    assert ApartAt(m, a, p) && ApartAt(m, p, a);
  }

  // ----- the three ways a layout changes

  /** One free block over everything from `lo` to `hi`. */
  ghost function Fuse(m: Layout, lo: nat, hi: nat): (f: Layout)
    requires lo <= hi
    ensures forall b :: b in f <==> b == lo || (b in m && !(lo <= b < hi))
    ensures forall b | b in f && b != lo :: f[b] == m[b]
    ensures f[lo] == Block(hi - lo, false)
  {
    (map b | b in m && !(lo <= b < hi) :: m[b])[lo := Block(hi - lo, false)]
  }

  ghost function MergeLo(m: Layout, brk: nat, min: nat, bp: nat): (lo: nat)
    requires Tiling(m, brk, min) && bp in m && bp != PROLOGUE
    ensures lo in m && lo <= bp && lo != PROLOGUE
  {
    var p := Prev(m, brk, min, bp);
    if m[p].alloc then bp else p
  }

  ghost function MergeHi(m: Layout, brk: nat, min: nat, bp: nat): (hi: nat)
    requires Tiling(m, brk, min) && bp in m && bp != PROLOGUE
    ensures Boundary(m, brk, hi) && End(m, bp) <= hi <= brk
  {
    assert Follows(m, brk, bp) && SizedAt(m, brk, min, bp);
    var n := End(m, bp);
    if n in m && !m[n].alloc then
      assert Follows(m, brk, n) && SizedAt(m, brk, min, n);
      End(m, n)
    else
      n
  }

  /** The free block `bp` together with its free neighbours. */
  ghost function Merged(m: Layout, brk: nat, min: nat, bp: nat): Layout
    requires Tiling(m, brk, min) && bp in m && bp != PROLOGUE
  {
    Fuse(m, MergeLo(m, brk, min, bp), MergeHi(m, brk, min, bp))
  }

  /** A new free block where the epilogue was. */
  function Extended(m: Layout, brk: nat, size: nat): Layout {
    m[brk := Block(size, false)]
  }

  /** `asize` bytes taken from the block `bp`; the rest stays free when it is
      large enough to be a block. */
  function Placed(m: Layout, bp: nat, asize: nat, min: nat): Layout
    requires bp in m && asize <= m[bp].size
  {
    if m[bp].size - asize >= min then
      m[bp := Block(asize, true)][bp + asize := Block(m[bp].size - asize, false)]
    else
      m[bp := Block(m[bp].size, true)]
  }

  function Freed(m: Layout, bp: nat): Layout
    requires bp in m
  {
    m[bp := Block(m[bp].size, false)]
  }

  // ----- each of them keeps the tiling

  lemma FusedAligned(m: Layout, brk: nat, min: nat, lo: nat, hi: nat)
    requires Tiling(m, brk, min) && lo in m && Boundary(m, brk, hi) && PROLOGUE != hi && lo < hi
    ensures Aligned(Fuse(m, lo, hi))
  {
    var f := Fuse(m, lo, hi);
    var a := Prev(m, brk, min, hi);
    assert AlignedAt(m, a) && AlignedAt(m, lo);
    Multiples(a, m[a].size);
    Multiples(lo, hi);
    assert AlignedAt(f, lo);
    hide AlignedAt;
    forall b | b in f ensures AlignedAt(f, b) {
      if b != lo { SameAligned(m, f, b); }
    }
  }

  lemma Multiples(a: nat, b: nat)
    requires a % 8 == 0 && b % 8 == 0
    ensures (a + b) % 8 == 0 && (a <= b ==> (b - a) % 8 == 0)
  {
    var i, k := a / 8, b / 8;
    assert a == 8 * i && b == 8 * k;
    Eightfold(i + k);
    if a <= b { Eightfold(k - i); }
  }

  lemma Eightfold(k: nat)
    ensures 8 * k % 8 == 0
  {
  }

  lemma SameAligned(m: Layout, f: Layout, b: nat)
    requires Aligned(m) && b in m && b in f && f[b] == m[b]
    ensures AlignedAt(f, b)
  {
    assert AlignedAt(m, b);
  }

  lemma FuseTiles(m: Layout, brk: nat, min: nat, lo: nat, hi: nat)
    requires Tiling(m, brk, min)
    requires lo in m && lo != PROLOGUE && Boundary(m, brk, hi) && lo < hi <= brk
    ensures Tiling(Fuse(m, lo, hi), brk, min)
  {
    hide AlignedAt;
    var f := Fuse(m, lo, hi);
    assert SizedAt(m, brk, min, lo);
    FusedAligned(m, brk, min, lo, hi);
    assert hi in m ==> ApartAt(m, lo, hi);
    forall b | b in f ensures SizedAt(f, brk, min, b) && Follows(f, brk, b) {
      if b != lo {
        assert SizedAt(m, brk, min, b) && Follows(m, brk, b) && ApartAt(m, b, lo);
      }
    }
    forall b, c | b in f && c in f ensures ApartAt(f, b, c) {
      if b != lo { assert ApartAt(m, b, c); }
    }
  }

  lemma BrkBeyond(m: Layout, brk: nat, min: nat)
    requires Tiling(m, brk, min)
    ensures brk % 8 == 0 && brk !in m && 16 <= brk
  {
    assert SizedAt(m, brk, min, PROLOGUE);
    assert AlignedAt(m, Prev(m, brk, min, brk));
    assert brk in m ==> SizedAt(m, brk, min, brk);
  }

  lemma ExtendedTiles(m: Layout, brk: nat, min: nat, size: nat)
    requires Tiling(m, brk, min) && size % 8 == 0 && size >= min
    ensures Tiling(Extended(m, brk, size), brk + size, min)
  {
    var x := Extended(m, brk, size);
    BrkBeyond(m, brk, min);
    forall b | b in x
      ensures SizedAt(x, brk + size, min, b) && AlignedAt(x, b) && Follows(x, brk + size, b)
    {
      if b != brk { assert SizedAt(m, brk, min, b) && AlignedAt(m, b) && Follows(m, brk, b); }
    }
    forall b, c | b in x && c in x ensures ApartAt(x, b, c) {
      if b != brk {
        assert SizedAt(m, brk, min, b);
        if c != brk { assert ApartAt(m, b, c); }
      } else if c != brk {
        assert SizedAt(m, brk, min, c);
      }
    }
  }

  lemma SplitApart(m: Layout, bp: nat, asize: nat, min: nat)
    requires Apart(m) && bp in m && 0 < asize && asize + min <= m[bp].size && 0 < min
    ensures Apart(Placed(m, bp, asize, min)) && bp + asize !in m
  {
    var r := bp + asize;
    var p := Placed(m, bp, asize, min);
    assert r !in m by { assert r in m ==> ApartAt(m, bp, r); }
    forall b, c | b in p && c in p ensures ApartAt(p, b, c) {
      if b != r {
        assert ApartAt(m, b, bp) && ApartAt(m, bp, b);
        if c != r { assert ApartAt(m, b, c); }
      } else if c != r {
        assert ApartAt(m, bp, c);
      }
    }
  }

  lemma SplitTiles(m: Layout, brk: nat, min: nat, bp: nat, asize: nat)
    requires Tiling(m, brk, min) && bp in m && bp != PROLOGUE
    requires min <= asize && asize + min <= m[bp].size && asize % 8 == 0
    ensures Tiling(Placed(m, bp, asize, min), brk, min)
    ensures bp + asize !in m
  {
    var r := bp + asize;
    var p := Placed(m, bp, asize, min);
    SplitApart(m, bp, asize, min);
    assert SizedAt(m, brk, min, bp) && AlignedAt(m, bp) && Follows(m, brk, bp);
    forall b | b in p ensures SizedAt(p, brk, min, b) && AlignedAt(p, b) && Follows(p, brk, b) {
      if b != r { assert SizedAt(m, brk, min, b) && AlignedAt(m, b) && Follows(m, brk, b); }
    }
  }

  lemma MarkedTiles(m: Layout, brk: nat, min: nat, bp: nat, alloc: bool)
    requires Tiling(m, brk, min) && bp in m && bp != PROLOGUE
    ensures Tiling(m[bp := Block(m[bp].size, alloc)], brk, min)
  {
    var f := m[bp := Block(m[bp].size, alloc)];
    forall b | b in f ensures SizedAt(f, brk, min, b) && AlignedAt(f, b) && Follows(f, brk, b) {
      assert SizedAt(m, brk, min, b) && AlignedAt(m, b) && Follows(m, brk, b);
    }
    forall b, c | b in f && c in f ensures ApartAt(f, b, c) {
      assert ApartAt(m, b, c);
    }
  }

  lemma PlacedTiles(m: Layout, brk: nat, min: nat, bp: nat, asize: nat)
    requires Tiling(m, brk, min) && bp in m && bp != PROLOGUE
    requires min <= asize <= m[bp].size && asize % 8 == 0
    ensures Tiling(Placed(m, bp, asize, min), brk, min)
  {
    if m[bp].size - asize >= min {
      SplitTiles(m, brk, min, bp, asize);
    } else {
      MarkedTiles(m, brk, min, bp, true);
    }
  }

  // ----- and keeps, or restores, complete coalescing

  lemma MergedCoalesces(m: Layout, brk: nat, min: nat, bp: nat)
    requires Tiling(m, brk, min) && bp in m && bp != PROLOGUE && !m[bp].alloc
    requires CoalescedExcept(m, bp)
    ensures Tiling(Merged(m, brk, min, bp), brk, min)
    ensures Coalesced(Merged(m, brk, min, bp))
  {
    var lo, hi := MergeLo(m, brk, min, bp), MergeHi(m, brk, min, bp);
    var f := Merged(m, brk, min, bp);
    var n := End(m, bp);
    assert SizedAt(m, brk, min, bp);
    FuseTiles(m, brk, min, lo, hi);
    forall b | b in f ensures Settled(f, b) {
      if b == lo {
        if n in m && !m[n].alloc {
          assert SizedAt(m, brk, min, n) && Settled(m, n);
        }
      } else {
        if End(m, b) == bp {
          PrevIs(m, brk, min, b);
        } else {
          assert Settled(m, b);
        }
        assert b != bp;
      }
    }
  }

  lemma ExtendedCoalescedExcept(m: Layout, brk: nat, min: nat, size: nat)
    requires Tiling(m, brk, min) && Coalesced(m) && size > 0
    ensures CoalescedExcept(Extended(m, brk, size), brk)
  {
    var x := Extended(m, brk, size);
    forall b | b in x && b != brk && End(x, b) != brk ensures Settled(x, b) {
      assert Settled(m, b);
    }
  }

  lemma PlacedCoalesced(m: Layout, brk: nat, min: nat, bp: nat, asize: nat)
    requires Tiling(m, brk, min) && Coalesced(m) && bp in m && bp != PROLOGUE && !m[bp].alloc
    requires min <= asize <= m[bp].size && asize % 8 == 0
    ensures Coalesced(Placed(m, bp, asize, min))
  {
    var p := Placed(m, bp, asize, min);
    assert Settled(m, bp);
    assert SizedAt(m, brk, min, bp);
    if m[bp].size - asize >= min { SplitTiles(m, brk, min, bp, asize); }
    forall b | b in p ensures Settled(p, b) {
      if b in m { assert Settled(m, b) && Follows(m, brk, b); }
    }
  }

  lemma FreedCoalescedExcept(m: Layout, bp: nat)
    requires Coalesced(m) && bp in m
    ensures CoalescedExcept(Freed(m, bp), bp)
  {
    var f := Freed(m, bp);
    forall b | b in f && b != bp && End(f, b) != bp ensures Settled(f, b) {
      assert Settled(m, b);
    }
  }

  /** The blocks inside a merge are `bp` and its free neighbours. */
  lemma MergeExtent(m: Layout, brk: nat, min: nat, bp: nat)
    requires Tiling(m, brk, min) && bp in m && bp != PROLOGUE && !m[bp].alloc
    ensures var lo, hi := MergeLo(m, brk, min, bp), MergeHi(m, brk, min, bp);
            && !m[lo].alloc
            && (lo != bp ==> lo == Prev(m, brk, min, bp))
            && forall b: nat :: b in m && lo <= b < hi <==> b in {lo, bp} || (b == End(m, bp) && hi != b)
  {
    var lo, hi := MergeLo(m, brk, min, bp), MergeHi(m, brk, min, bp);
    var n := End(m, bp);
    assert SizedAt(m, brk, min, lo) && SizedAt(m, brk, min, bp);
    assert n in m ==> SizedAt(m, brk, min, n);
    forall b: nat | b in m && lo <= b < hi ensures b in {lo, bp} || (b == n && hi != b) {
      assert ApartAt(m, lo, b) && ApartAt(m, bp, b) && ApartAt(m, b, bp);
      assert n in m ==> ApartAt(m, n, b);
    }
  }

  /** A merge leaves what is live alone, and covers at least `bp`. */
  lemma MergedLive(m: Layout, brk: nat, min: nat, bp: nat)
    requires Tiling(m, brk, min) && bp in m && bp != PROLOGUE && !m[bp].alloc
    ensures var c, lo := Merged(m, brk, min, bp), MergeLo(m, brk, min, bp);
            && (forall p: nat :: Live(c, p) <==> Live(m, p))
            && (forall p: nat | Live(m, p) :: c[p] == m[p])
            && lo in c && !c[lo].alloc && c[lo].size >= m[bp].size
  {
    MergeExtent(m, brk, min, bp);
  }

  // ----- what a client gets

  /** `p` is a block of the layout `x` handed out from `m`: aligned, with `size` usable
      bytes inside the heap, not live before and apart from every block that was;
      those stay where they were, whole, and nothing else becomes live. */
  ghost predicate HandedOut(m: Layout, x: Layout, brk: nat, p: nat, size: nat) {
    && p % 8 == 0 && PROLOGUE < p && Live(x, p) && !Live(m, p)
    && size <= x[p].size - 8 && End(x, p) <= brk
    && (forall b: nat | Live(m, b) :: End(m, b) <= p || End(x, p) <= b)
    && (forall b: nat | b != p :: Live(x, b) <==> Live(m, b))
    && (forall b: nat | Live(m, b) :: x[b] == m[b])
  }

  /** What is handed out among the same live blocks. */
  lemma HandedOutSame(m: Layout, y: Layout, x: Layout, brk: nat, p: nat, size: nat)
    requires HandedOut(y, x, brk, p, size)
    requires forall b: nat :: Live(y, b) <==> Live(m, b)
    requires forall b: nat | Live(m, b) :: y[b] == m[b]
    ensures HandedOut(m, x, brk, p, size)
  {
  }

  lemma PlacedHandsOut(m: Layout, brk: nat, min: nat, bp: nat, asize: nat, size: nat)
    requires Tiling(m, brk, min) && bp in m && !m[bp].alloc
    requires min <= asize <= m[bp].size && asize % 8 == 0 && size + 8 <= asize
    ensures HandedOut(m, Placed(m, bp, asize, min), brk, bp, size)
  {
    assert SizedAt(m, brk, min, bp) && AlignedAt(m, bp);
    if m[bp].size - asize >= min { SplitTiles(m, brk, min, bp, asize); }
    forall b: nat | Live(m, b) ensures End(m, b) <= bp || End(m, bp) <= b {
      assert ApartAt(m, b, bp) && ApartAt(m, bp, b);
    }
  }

  /** One free block over the whole heap, or none when the heap never got one. */
  function Spanned(brk: nat): Layout {
    if brk <= 16 then map[PROLOGUE := Block(8, true)]
    else map[PROLOGUE := Block(8, true), 16 := Block(brk - 16, false)]
  }

  /** The heap before its first chunk. */
  lemma EmptyTiles(min: nat)
    requires 8 <= min
    ensures Tiling(Spanned(16), 16, min) && Coalesced(Spanned(16))
  {
    var m := Spanned(16);
    forall b | b in m ensures SizedAt(m, 16, min, b) && AlignedAt(m, b) && Follows(m, 16, b) && Settled(m, b) {
    }
    forall b, c | b in m && c in m ensures ApartAt(m, b, c) {
    }
  }

  /** A fully coalesced heap in which the client holds nothing is the prologue and
      at most one free block, which spans the rest. */
  lemma NothingLive(m: Layout, brk: nat, min: nat)
    requires Tiling(m, brk, min) && Coalesced(m) && (forall b :: !Live(m, b))
    ensures 16 <= brk
    ensures m == Spanned(brk)
  {
    assert Follows(m, brk, PROLOGUE);
    BrkBeyond(m, brk, min);
    forall b | b in m && b != PROLOGUE ensures b == 16 && m[b] == Block(brk - 16, false) {
      assert !Live(m, b);
      assert SizedAt(m, brk, min, b);
      var a := Prev(m, brk, min, b);
      assert !Live(m, a) && Settled(m, a);
      assert Follows(m, brk, b) && Settled(m, b) && !Live(m, End(m, b));
    }
  }
}
