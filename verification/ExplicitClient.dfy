/** Clients of lab7/mm_v4.c: over whole runs every payload keeps what was stored in it. */
module ExplicitClient {
  import opened BlockLayout
  import opened Bytes
  import opened ExplicitHeap
  import opened ExplicitSpec
  import opened Memlib
  import opened Payloads
  import opened Tags

  /** What clients do: call the allocator, or store a byte in a payload. */
  datatype Use = Make(call: Call) | Store(at: nat, v: nat)

  ghost predicate Fair(h: State, u: Use) {
    match u
    case Make(c) => Allowed(h, c)
    case Store(at, v) => Mine(h.blocks, at) && v < 256
  }

  ghost function After(h: State, u: Use): State
    requires Inv(h) && Fair(h, u)
  {
    if u.Make? then Apply(h, u.call) else h
  }

  /** Only freeing a payload makes its clients forget. */
  ghost function Remembered(h: State, known: Known, u: Use): Known
    requires Fair(h, u)
  {
    match u
    case Make(DoMalloc(_)) => known
    case Make(DoFree(bp)) => Dropped(known, bp, End(h.blocks, bp) - 8)
    case Store(at, v) => known[at := v]
  }

  lemma AfterInv(h: State, u: Use)
    requires Inv(h) && Fair(h, u)
    ensures Inv(After(h, u))
  {
    if u.Make? { ApplyInv(h, u.call); }
  }

  ghost predicate AllFair(h: State, uses: seq<Use>)
    requires Inv(h)
    decreases |uses|
  {
    uses == [] || (Fair(h, uses[0]) && (AfterInv(h, uses[0]); AllFair(After(h, uses[0]), uses[1..])))
  }

  /** The heap and what is known after all of them. */
  ghost function AfterAll(h: State, known: Known, uses: seq<Use>): (State, Known)
    requires Inv(h) && AllFair(h, uses)
    decreases |uses|
  {
    if uses == [] then (h, known) else
      AfterInv(h, uses[0]);
      AfterAll(After(h, uses[0]), Remembered(h, known, uses[0]), uses[1..])
  }

  // ----- one step

  lemma MallocHolds(s: Memory, t: Memory, h: State, known: Known, size: nat)
    requires Inv(h) && Served(h, size) && Holding(s, h.blocks, known) && SamePayloads(s, t, h.blocks)
    ensures Holding(t, Malloc(h, size).0.blocks, known)
  {
    hide Malloc, Served, Holding, SamePayloads;
    MallocSafe(h, size);
    MineStays(h.blocks, Malloc(h, size).0.blocks);
    KnownMine(s, h.blocks, known);
    FrameHolds(s, t, h.blocks, Malloc(h, size).0.blocks, known);
  }

  lemma FreeHolds(s: Memory, t: Memory, h: State, known: Known, bp: nat)
    requires Inv(h) && Live(h.blocks, bp) && Holding(s, h.blocks, known) && SamePayloads(s, t, Free(h, bp).blocks)
    ensures Holding(t, Free(h, bp).blocks, Dropped(known, bp, End(h.blocks, bp) - 8))
  {
    hide ByteAt, Free, SamePayloads;
    assert SizedAt(h.blocks, h.brk, MIN, bp);
    FreeInv(h, bp);
    var y, k := Free(h, bp).blocks, Dropped(known, bp, End(h.blocks, bp) - 8);
    MineButFreed(h.blocks, y, bp);
    assert Holding(s, y, k);
    FrameHolds(s, t, y, y, k);
  }

  /** A store, in the memory of the allocator. */
  method StoreIn(a: Allocator, at: nat, v: nat, ghost known: Known)
    requires a.Valid() && Mine(a.h.blocks, at) && v < 256 && Holding(a.ms.Mem(), a.h.blocks, known)
    modifies a.ms.data
    ensures a.Valid() && Holding(a.ms.Mem(), a.h.blocks, known[at := v])
  {
    hide ByteAt;
    ghost var s, h := a.ms.Mem(), a.h;
    ghost var b: nat :| Live(h.blocks, b) && b <= at < End(h.blocks, b) - 8;
    LiveAligned(h.blocks, b);
    WordStart(b, at);
    assert SizedAt(h.blocks, h.brk, MIN, b);
    StoreByte(a.ms, at, v);
    ClientWrites(s, a.ms.Mem(), h, b);
  }

  // ----- whole runs

  /** Whatever clients do with the payloads they hold, each payload has, byte for byte, what
      was last stored in it. */
  method Session(a: Allocator, uses: seq<Use>, ghost known: Known)
    requires a.Valid() && AllFair(a.h, uses) && Holding(a.ms.Mem(), a.h.blocks, known)
    modifies a, a.ms`brk, a.ms.data
    ensures a.Valid() && Holding(a.ms.Mem(), a.h.blocks, AfterAll(old(a.h), known, uses).1)
    ensures a.h == AfterAll(old(a.h), known, uses).0
  {
    hide Holding, Fair, Served;
    ghost var k := known;
    for i := 0 to |uses|
      invariant a.Valid() && Holding(a.ms.Mem(), a.h.blocks, k)
      invariant AllFair(a.h, uses[i..]) && AfterAll(a.h, k, uses[i..]) == AfterAll(old(a.h), known, uses)
    {
      assert uses[i..][0] == uses[i] && uses[i..][1..] == uses[i + 1..];
      k := Act(a, uses[i], k);
    }
    assert uses[|uses|..] == [];
  }

  method Act(a: Allocator, u: Use, ghost known: Known) returns (ghost k: Known)
    requires a.Valid() && Fair(a.h, u) && Holding(a.ms.Mem(), a.h.blocks, known)
    modifies a, a.ms`brk, a.ms.data
    ensures a.Valid() && Holding(a.ms.Mem(), a.h.blocks, k)
    ensures a.h == After(old(a.h), u) && k == Remembered(old(a.h), known, u)
  {
    hide Holding, Served, Malloc, Free, SamePayloads;
    ghost var s, h := a.ms.Mem(), a.h;
    k := Remembered(h, known, u);
    match u {
      case Make(DoMalloc(size)) =>
        var _ := a.MmMalloc(size);
        MallocHolds(s, a.ms.Mem(), h, known, size);
      case Make(DoFree(bp)) =>
        a.MmFree(bp);
        FreeHolds(s, a.ms.Mem(), h, known, bp);
      case Store(at, v) =>
        StoreIn(a, at, v, known);
    }
  }
}
