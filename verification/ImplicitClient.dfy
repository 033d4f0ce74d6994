/** Clients of lab7/mm.c: over whole runs, mm_realloc included, every payload keeps what
    was stored in it. */
module ImplicitClient {
  import opened BlockLayout
  import opened Bytes
  import opened ImplicitHeap
  import opened ImplicitSpec
  import opened Memlib
  import opened Payloads
  import opened Tags

  datatype Use = Make(call: Call) | Store(at: nat, v: nat)

  ghost predicate Fair(h: State, u: Use) {
    match u
    case Make(c) => Allowed(h, c)
    case Store(at, v) => Mine(h.blocks, at) && v < 256
  }

  ghost function After(h: State, u: Use): State
    requires Inv(h) && Fair(h, u)
  {
    if u.Make? then Apply(h, u.call) else h
  }

  /** The payload at `bp` is given up; NULL holds nothing. */
  ghost function Given(h: State, known: Known, bp: nat): Known
    requires bp == 0 || Live(h.blocks, bp)
  {
    if bp == 0 then known else Dropped(known, bp, End(h.blocks, bp) - 8)
  }

  /** Freeing a payload makes its clients forget; reallocating moves as many of its bytes as
      the new block has room for, or leaves everything as it is. */
  ghost function Remembered(h: State, known: Known, u: Use): Known
    requires Inv(h) && Fair(h, u)
  {
    match u
    case Make(DoMalloc(_)) => known
    case Make(DoFree(bp)) => Given(h, known, bp)
    case Make(DoRealloc(ptr, size)) => Moved(h, known, ptr, size)
    case Store(at, v) => known[at := v]
  }

  ghost function Moved(h: State, known: Known, ptr: nat, size: nat): Known
    requires Inv(h) && (ptr == 0 || Live(h.blocks, ptr)) && Served(h, size)
  {
    var p := Realloc(h, ptr, size).1;
    if size == 0 then Given(h, known, ptr)
    else if ptr == 0 || p == 0 then known
    else Given(h, Copied(known, ptr, p, Kept(h.blocks, ptr, size)), ptr)
  }

  lemma AfterInv(h: State, u: Use)
    requires Inv(h) && Fair(h, u)
    ensures Inv(After(h, u))
  {
    if u.Make? { ApplyInv(h, u.call); }
  }

  ghost predicate AllFair(h: State, uses: seq<Use>)
    requires Inv(h)
    decreases |uses|
  {
    uses == [] || (Fair(h, uses[0]) && (AfterInv(h, uses[0]); AllFair(After(h, uses[0]), uses[1..])))
  }

  ghost function AfterAll(h: State, known: Known, uses: seq<Use>): (State, Known)
    requires Inv(h) && AllFair(h, uses)
    decreases |uses|
  {
    if uses == [] then (h, known) else
      AfterInv(h, uses[0]);
      AfterAll(After(h, uses[0]), Remembered(h, known, uses[0]), uses[1..])
  }

  // ----- one step

  lemma MallocHolds(s: Memory, t: Memory, h: State, known: Known, size: nat)
    requires Inv(h) && Served(h, size) && Holding(s, h.blocks, known) && SamePayloads(s, t, h.blocks)
    ensures Holding(t, Malloc(h, size).0.blocks, known)
  {
    hide Malloc, Served, Holding, SamePayloads;
    MallocSafe(h, size);
    MineStays(h.blocks, Malloc(h, size).0.blocks);
    KnownMine(s, h.blocks, known);
    FrameHolds(s, t, h.blocks, Malloc(h, size).0.blocks, known);
  }

  lemma FreeHolds(s: Memory, t: Memory, h: State, known: Known, bp: nat)
    requires Inv(h) && (bp == 0 || Live(h.blocks, bp)) && Holding(s, h.blocks, known)
    requires SamePayloads(s, t, Free(h, bp).blocks)
    ensures Holding(t, Free(h, bp).blocks, Given(h, known, bp))
  {
    hide ByteAt, SamePayloads, Coalesce;
    var y, k := Free(h, bp).blocks, Given(h, known, bp);
    if bp != 0 {
      FreeInv(h, bp);
      MineButFreed(h.blocks, y, bp);
    }
    assert Holding(s, y, k);
    FrameHolds(s, t, y, y, k);
  }

  /** The bytes that come along and those of the other payloads. */
  lemma ReallocHolds(s: Memory, t: Memory, h: State, known: Known, ptr: nat, size: nat)
    requires Inv(h) && Live(h.blocks, ptr) && size != 0 && Served(h, size) && Realloc(h, ptr, size).1 != 0
    requires Holding(s, h.blocks, known) && |s| == |t|
    requires SameBytes(s, ptr, t, Realloc(h, ptr, size).1, Kept(h.blocks, ptr, size))
    requires forall b: nat | Live(h.blocks, b) && b != ptr :: SamePayloadAt(s, t, h.blocks, b)
    ensures Holding(t, Realloc(h, ptr, size).0.blocks, Moved(h, known, ptr, size))
  {
    hide Realloc, Served, ByteAt, SamePayloadAt, SameBytes, Mine, Kept;
    var (x, p) := Realloc(h, ptr, size);
    var n := Kept(h.blocks, ptr, size);
    var k := Moved(h, known, ptr, size);
    LiveNotNull(h, ptr);
    forall q | q in k ensures Mine(x.blocks, q) && q < |t| && ByteAt(t, 0, q) == k[q] {
      if p <= q < p + n && ptr + (q - p) in known {
        CameAlong(s, t, h, ptr, size, q - p);
      } else {
        StayedPut(s, t, h, ptr, size, q);
      }
    }
  }

  lemma CameAlong(s: Memory, t: Memory, h: State, ptr: nat, size: nat, i: nat)
    requires Inv(h) && Live(h.blocks, ptr) && size != 0 && Served(h, size) && Realloc(h, ptr, size).1 != 0
    requires SameBytes(s, ptr, t, Realloc(h, ptr, size).1, Kept(h.blocks, ptr, size))
    requires i < Kept(h.blocks, ptr, size)
    ensures var (x, p) := Realloc(h, ptr, size);
            Mine(x.blocks, p + i) && p + i < |t| && ptr + i < |s| && ByteAt(t, 0, p + i) == ByteAt(s, 0, ptr + i)
  {
    hide Realloc, Served, ByteAt, Inv, OnWord, SameBytes, Kept;
    var (x, p) := Realloc(h, ptr, size);
    ReallocSafe(h, ptr, size);
    LivePointer(h, ptr);
    Eight(p);
    MovedByte(s, t, ptr, p, i, Kept(h.blocks, ptr, size));
    KeptFits(h.blocks, s, t, ptr, p, size);
    assert Live(x.blocks, p) && p <= p + i < End(x.blocks, p) - 8;
  }

  lemma KeptFits(m: Layout, s: Memory, t: Memory, ptr: nat, p: nat, size: nat)
    requires Live(m, ptr) && SameBytes(s, ptr, t, p, Kept(m, ptr, size))
    ensures Kept(m, ptr, size) <= size && ptr + Kept(m, ptr, size) <= |s| && p + Kept(m, ptr, size) <= |t|
  {
  }

  lemma LivePointer(h: State, b: nat)
    requires Inv(h) && Live(h.blocks, b)
    ensures OnWord(b)
  {
    LiveAligned(h.blocks, b);
  }

  lemma StayedPut(s: Memory, t: Memory, h: State, ptr: nat, size: nat, q: nat)
    requires Inv(h) && Live(h.blocks, ptr) && size != 0 && Served(h, size) && Realloc(h, ptr, size).1 != 0
    requires Mine(h.blocks, q) && !(ptr <= q < End(h.blocks, ptr) - 8) && |s| == |t| && q < |s|
    requires forall b: nat | Live(h.blocks, b) && b != ptr :: SamePayloadAt(s, t, h.blocks, b)
    ensures Mine(Realloc(h, ptr, size).0.blocks, q) && ByteAt(t, 0, q) == ByteAt(s, 0, q)
  {
    hide Realloc, Served, ByteAt, SamePayloadAt, Inv, OnWord;
    var x := Realloc(h, ptr, size).0;
    ReallocSafe(h, ptr, size);
    var b: nat :| Live(h.blocks, b) && b <= q < End(h.blocks, b) - 8;
    LivePointer(h, b);
    PayloadByte(s, t, h.blocks, b, q);
    assert Live(x.blocks, b) && End(x.blocks, b) == End(h.blocks, b);
  }

  lemma MovedByte(s: Memory, t: Memory, ptr: nat, p: nat, i: nat, n: nat)
    requires SameBytes(s, ptr, t, p, n) && i < n && OnWord(ptr) && OnWord(p)
    ensures ByteAt(t, 0, p + i) == ByteAt(s, 0, ptr + i)
  {
    hide ByteAt, OnWord;
    ByteShift(t, p, i);
    ByteShift(s, ptr, i);
    assert ByteAt(t, p, i) == ByteAt(s, ptr, i);
  }

  lemma ByteShift(s: Memory, p: nat, i: nat)
    requires OnWord(p) && p + i < |s|
    ensures ByteAt(s, p, i) == ByteAt(s, 0, p + i)
  {
    hide Byte, OnWord;
    WordOffset(p, i);
  }

  method StoreIn(a: Allocator, at: nat, v: nat, ghost known: Known)
    requires a.Valid() && Mine(a.h.blocks, at) && v < 256 && Holding(a.ms.Mem(), a.h.blocks, known)
    modifies a.ms.data
    ensures a.Valid() && Holding(a.ms.Mem(), a.h.blocks, known[at := v])
  {
    hide ByteAt, OnWord, Inv;
    ghost var s, h := a.ms.Mem(), a.h;
    ghost var b: nat :| Live(h.blocks, b) && b <= at < End(h.blocks, b) - 8;
    LivePointer(h, b);
    WordStart(b, at);
    assert SizedAt(h.blocks, h.brk, MIN, b);
    StoreByte(a.ms, at, v);
    ClientWrites(s, a.ms.Mem(), h.blocks, h.brk, b);
  }

  // ----- whole runs

  /** Whatever clients do with the payloads they hold, each payload has, byte for byte, what
      was last stored in it or came along when it was reallocated. */
  method Session(a: Allocator, uses: seq<Use>, ghost known: Known)
    requires a.Valid() && AllFair(a.h, uses) && Holding(a.ms.Mem(), a.h.blocks, known)
    modifies a, a.ms`brk, a.ms.data
    ensures a.Valid() && Holding(a.ms.Mem(), a.h.blocks, AfterAll(old(a.h), known, uses).1)
    ensures a.h == AfterAll(old(a.h), known, uses).0
  {
    hide Holding, Fair, Served;
    ghost var k := known;
    for i := 0 to |uses|
      invariant a.Valid() && Holding(a.ms.Mem(), a.h.blocks, k)
      invariant AllFair(a.h, uses[i..]) && AfterAll(a.h, k, uses[i..]) == AfterAll(old(a.h), known, uses)
    {
      assert uses[i..][0] == uses[i] && uses[i..][1..] == uses[i + 1..];
      k := Act(a, uses[i], k);
    }
    assert uses[|uses|..] == [];
  }

  method Act(a: Allocator, u: Use, ghost known: Known) returns (ghost k: Known)
    requires a.Valid() && Fair(a.h, u) && Holding(a.ms.Mem(), a.h.blocks, known)
    modifies a, a.ms`brk, a.ms.data
    ensures a.Valid() && Holding(a.ms.Mem(), a.h.blocks, k)
    ensures a.h == After(old(a.h), u) && k == Remembered(old(a.h), known, u)
  {
    hide Holding, Served, Malloc, Free, Realloc, SamePayloads, Moved, Given;
    ghost var s, h := a.ms.Mem(), a.h;
    k := Remembered(h, known, u);
    match u {
      case Make(DoMalloc(size)) =>
        var _ := a.MmMalloc(size);
        MallocHolds(s, a.ms.Mem(), h, known, size);
      case Make(DoFree(bp)) =>
        a.MmFree(bp);
        FreeHolds(s, a.ms.Mem(), h, known, bp);
      case Make(DoRealloc(ptr, size)) =>
        Resize(a, ptr, size, known);
      case Store(at, v) =>
        StoreIn(a, at, v, known);
    }
  }

  method Resize(a: Allocator, ptr: nat, size: nat, ghost known: Known)
    requires a.Valid() && (ptr == 0 || Live(a.h.blocks, ptr)) && Served(a.h, size)
    requires Holding(a.ms.Mem(), a.h.blocks, known)
    modifies a, a.ms`brk, a.ms.data
    ensures a.Valid() && a.h == Realloc(old(a.h), ptr, size).0
    ensures Holding(a.ms.Mem(), a.h.blocks, Moved(old(a.h), known, ptr, size))
  {
    hide Holding, Served, Inv, Malloc, Free, SamePayloadAt, ByteAt;
    ghost var s, h := a.ms.Mem(), a.h;
    var p := a.MmRealloc(ptr, size);
    if size == 0 {
      FreedFrame(s, a.ms.Mem(), h, ptr);
      FreeHolds(s, a.ms.Mem(), h, known, ptr);
    } else if ptr == 0 {
      NoneAtNull(h);
      MallocHolds(s, a.ms.Mem(), h, known, size);
    } else if p == 0 {
      ReallocSafe(h, ptr, size);
      Unmoved(s, a.ms.Mem(), h, known);
    } else {
      ReallocHolds(s, a.ms.Mem(), h, known, ptr, size);
    }
  }

  lemma NoneAtNull(h: State)
    requires Inv(h)
    ensures !Live(h.blocks, 0)
  {
    if Live(h.blocks, 0) { LiveNotNull(h, 0); }
  }

  lemma FreedFrame(s: Memory, t: Memory, h: State, ptr: nat)
    requires Inv(h) && (ptr == 0 || Live(h.blocks, ptr)) && |s| == |t|
    requires forall b: nat | Live(h.blocks, b) && b != ptr :: SamePayloadAt(s, t, h.blocks, b)
    ensures SamePayloads(s, t, Free(h, ptr).blocks)
  {
    hide Coalesce;
    if ptr == 0 { NoneAtNull(h); } else { FreeInv(h, ptr); }
    var y := Free(h, ptr).blocks;
    forall b: nat | Live(y, b) ensures SamePayloadAt(s, t, y, b) {
      assert SamePayloadAt(s, t, h.blocks, b);
    }
  }

  lemma Unmoved(s: Memory, t: Memory, h: State, known: Known)
    requires Inv(h) && Holding(s, h.blocks, known) && SamePayloads(s, t, h.blocks)
    ensures Holding(t, h.blocks, known)
  {
    FrameHolds(s, t, h.blocks, h.blocks, known);
  }
}
