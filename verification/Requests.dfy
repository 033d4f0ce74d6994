/** How both allocators of lab7 treat the sizes they are asked for. */
module Requests {
  import opened Bits
  import opened BlockLayout
  import opened Memlib

  /** 8 * ((size + 15) / 8) in the unsigned 64-bit arithmetic of the code. */
  function RoundUp(size: nat): (asize: nat)
    ensures asize % 8 == 0
    ensures size < TWO_64 - 15 ==> asize == 8 * ((size + 15) / 8)
    ensures TWO_64 - 15 <= size < TWO_64 ==> asize <= 8
  {
    8 * ((size + 15) % TWO_64 / 8)
  }

  /** How much the heap grows when nothing fits. */
  function Growth(asize: nat, chunk: nat): nat {
    if asize > chunk then asize else chunk
  }

  /** mm_malloc answers NULL: no free block is large enough, and mem_sbrk refuses what an
      int keeps of the size it is asked for. */
  ghost predicate Refuses(m: Layout, brk: nat, asize: nat, chunk: nat) {
    && (forall b | b in m && !m[b].alloc :: m[b].size < asize)
    && Grown(brk, AsInt(Growth(asize, chunk))).None?
  }

  /** No heap within the arena holds a block for a size beyond. */
  lemma OnlySmall(m: Layout, size: nat)
    ensures (exists x: Layout, brk: nat, p: nat :: brk <= MAX_HEAP && HandedOut(m, x, brk, p, size)) ==>
              size < TWO_32 - 15
  {
  }
}
