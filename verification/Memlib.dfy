/** The memory system of lab7/memlib.c and the word macros both allocators put on it. */
module Memlib {
  import opened Wrappers

  // Addresses are byte offsets from the start of the heap; the 4-byte word at byte address
  // p, always a multiple of 4, is kept in cell p of the array.

  const MAX_HEAP: nat := 20 * 0x10_0000
  const TWO_32: nat := 0x1_0000_0000

  type Word = w: int | 0 <= w < TWO_32

  type Memory = seq<Word>

  /** The C conversion of an unsigned 64-bit size to mem_sbrk's `int` parameter. */
  function AsInt(n: nat): (i: int)
    ensures -0x8000_0000 <= i < 0x8000_0000
  {
    if n % TWO_32 < 0x8000_0000 then n % TWO_32 else n % TWO_32 - TWO_32
  }

  /** What mem_sbrk(incr) does to a break at `brk`: None when it refuses. */
  function Grown(brk: nat, incr: int): (r: Option<nat>) {
    if incr < 0 || brk + incr > MAX_HEAP then None else Some(brk + incr)
  }

  /** Because of that conversion mem_sbrk moves the break by the `size` bytes it was
      asked for, or refuses, for every size below 2^32 and, beyond, exactly when the
      truncated size is itself refused. */
  lemma SbrkTruncation(brk: nat, size: nat)
    requires brk <= MAX_HEAP
    ensures Grown(brk, AsInt(size)) in {None, Some(brk + size)}
            <==> size < TWO_32 || size % TWO_32 >= 0x8000_0000 || brk + size % TWO_32 > MAX_HEAP
  {
    assert size < TWO_32 ==> size % TWO_32 == size;
  }

  /** A request of 2^32 + 8 bytes is granted 8. */
  lemma SbrkTruncationExample()
    ensures Grown(16, AsInt(TWO_32 + 8)) == Some(24)
  {
  }

  /** mem_sbrk refuses no size there is room for; below 2^32 it refuses all others. */
  lemma SbrkRefuses(brk: nat, size: nat)
    requires brk <= MAX_HEAP
    ensures Grown(brk, AsInt(size)).None? ==> brk + size > MAX_HEAP
    ensures size < TWO_32 && brk + size > MAX_HEAP ==> Grown(brk, AsInt(size)).None?
    ensures size < TWO_32 && brk + size <= MAX_HEAP ==> Grown(brk, AsInt(size)) == Some(brk + size)
  {
    assert size < TWO_32 ==> size % TWO_32 == size;
  }

  /** The bytes of `words` words, rounded up to an even number of words. */
  function WordBytes(words: nat): (size: nat)
    ensures size % 8 == 0 && 4 * words <= size < 4 * words + 8
  {
    if words % 2 == 1 then (words + 1) * 4 else words * 4
  }

  lemma ChunkWords(size: nat)
    requires size % 8 == 0
    ensures WordBytes(size / 4) == size
  {
    assert size == 8 * (size / 8) && size / 4 == 2 * (size / 8);
  }

  // ----- PACK, GET_SIZE, GET_ALLOC

  function Pack(size: nat, alloc: bool): (w: Word)
    requires size < TWO_32 - 1
  {
    size + if alloc then 1 else 0
  }

  function GetSize(w: Word): nat { w - w % 8 }

  function GetAlloc(w: Word): bool { w % 8 % 2 == 1 }  // the lowest bit

  lemma Remainder8(k: nat, r: nat)
    requires r < 8
    ensures (8 * k + r) % 8 == r
  {
  }

  lemma Unpack(size: nat, alloc: bool)
    requires size < TWO_32 - 1 && size % 8 == 0
    ensures GetSize(Pack(size, alloc)) == size && GetAlloc(Pack(size, alloc)) == alloc
  {
    Remainder8(size / 8, if alloc then 1 else 0);
  }

  // ----- GETADDR, PUTADDR: 8-byte little-endian values over two words

  function GetAddr(s: Memory, p: nat): nat
    requires p + 4 < |s|
  {
    s[p] + TWO_32 * s[p + 4]
  }

  function PutAddr(s: Memory, p: nat, a: nat): (r: Memory)
    requires p + 4 < |s| && a < TWO_32
    ensures |r| == |s| && GetAddr(r, p) == a
    ensures forall q | 0 <= q < |s| && q != p && q != p + 4 :: r[q] == s[q]
  {
    s[p := a][p + 4 := 0]
  }

  class MemSystem {
    const data: array<Word>
    var brk: nat  // mem_brk, relative to mem_start_brk

    ghost predicate Valid()
      reads this
    {
      data.Length == MAX_HEAP && brk <= MAX_HEAP
    }

    ghost function Mem(): (s: Memory)
      reads data
      ensures |s| == data.Length
      ensures forall p | 0 <= p < data.Length :: s[p] == data[p]
    {
      data[..]
    }

    constructor ()
      ensures Valid() && brk == 0 && fresh(data)
    {
      data := new Word[MAX_HEAP];
      brk := 0;
    }

    method ResetBrk()
      requires Valid()
      modifies `brk
      ensures Valid() && brk == 0
    {
      brk := 0;
    }

    /** Grows the heap and returns the old break, or -1 leaving it as it was; the
        contents of memory are not touched. */
    method Sbrk(incr: int) returns (r: int)
      requires Valid()
      modifies `brk
      ensures Valid()
      ensures match Grown(old(brk), incr)
              case None => r == -1 && brk == old(brk)
              case Some(b) => r == old(brk) && brk == b
    {
      var oldBrk := brk;
      if incr < 0 || brk + incr > MAX_HEAP {
        return -1;
      }
      brk := brk + incr;
      return oldBrk;
    }

    method HeapSize() returns (n: nat)
      ensures n == brk
    {
      n := brk;
    }

    function Get(p: nat): (w: Word)
      requires p < data.Length
      reads data
      ensures w == Mem()[p]
    {
      data[p]
    }

    method Put(p: nat, w: Word)
      requires p < data.Length
      modifies data
      ensures Mem() == old(Mem())[p := w]
    {
      data[p] := w;
    }

    function ReadAddr(p: nat): (a: nat)
      requires p + 4 < data.Length
      reads data
      ensures a == GetAddr(Mem(), p)
    {
      data[p] + TWO_32 * data[p + 4]
    }

    method WriteAddr(p: nat, a: nat)
      requires p + 4 < data.Length && a < TWO_32
      modifies data
      ensures Mem() == PutAddr(old(Mem()), p, a)
    {
      data[p] := a;
      data[p + 4] := 0;
    }
  }
}
