/** What the clients of an allocator last stored, byte by byte. */
module Payloads {
  import opened Bits
  import opened BlockLayout
  import opened Bytes
  import opened Memlib
  import opened Tags

  /** An address a client may use: it lies in the payload of a block that it holds. */
  ghost predicate Mine(m: Layout, x: nat) {
    exists b: nat :: Live(m, b) && b <= x < End(m, b) - 8
  }

  /** The last byte a client stored at an address. */
  type Known = map<nat, nat>

  /** Memory has what the clients stored, and they still hold it. */
  ghost predicate Holding(s: Memory, m: Layout, known: Known) {
    forall x {:trigger x in known} | x in known :: Mine(m, x) && x < |s| && ByteAt(s, 0, x) == known[x]
  }

  // ----- how that changes

  /** The n addresses from `lo` on. */
  function Span(lo: nat, n: nat): (r: set<nat>)
    ensures forall x: nat :: x in r <==> lo <= x < lo + n
  {
    if n == 0 then {} else Span(lo, n - 1) + {lo + n - 1}
  }

  /** A payload is given up. */
  function Dropped(known: Known, lo: int, hi: int): Known {
    map x | x in known && !(lo <= x < hi) :: known[x]
  }

  /** The n bytes at `from` come to `to`. */
  function Copied(known: Known, from: nat, to: nat, n: nat): Known {
    known + map x | x in Span(to, n) && from + (x - to) in known :: known[from + (x - to)]
  }

  predicate OnWord(b: nat) { b % 4 == 0 }

  lemma WordStart(b: nat, x: nat)
    requires OnWord(b) && b <= x
    ensures b <= x - x % 4
  {
  }

  lemma WordOffset(b: nat, i: nat)
    requires OnWord(b)
    ensures (b + i) % 4 == i % 4
  {
    Remainder(b / 4 + i / 4, i % 4);
    assert b == 4 * (b / 4) && i == 4 * (i / 4) + i % 4;
  }

  lemma Remainder(q: nat, r: nat)
    requires r < 4
    ensures (4 * q + r) % 4 == r
  {
  }

  /** Equal words have equal bytes. */
  lemma PayloadByte(s: Memory, t: Memory, m: Layout, b: nat, x: nat)
    requires Live(m, b) && OnWord(b) && b <= x < End(m, b) - 8 && SamePayloadAt(s, t, m, b)
    requires |s| == |t| && x < |s|
    ensures ByteAt(t, 0, x) == ByteAt(s, 0, x)
  {
    hide Byte, OnWord;
    WordStart(b, x);
  }

  lemma LiveAligned(m: Layout, b: nat)
    requires Aligned(m) && Live(m, b)
    ensures OnWord(b)
  {
    assert AlignedAt(m, b);
    Eight(b);
  }

  lemma Eight(b: nat)
    ensures b % 8 == 0 ==> OnWord(b)
  {
  }

  /** What leaves the payloads of `m` alone keeps what is known, wherever it is still held. */
  lemma FrameHolds(s: Memory, t: Memory, m: Layout, y: Layout, known: Known)
    requires Holding(s, m, known) && SamePayloads(s, t, m) && Aligned(m)
    requires forall x | x in known :: Mine(y, x)
    ensures Holding(t, y, known)
  {
    hide ByteAt, Mine;
    forall x | x in known ensures x < |t| && ByteAt(t, 0, x) == known[x] { FrameByte(s, t, m, x); }
  }

  lemma FrameByte(s: Memory, t: Memory, m: Layout, x: nat)
    requires SamePayloads(s, t, m) && Aligned(m) && Mine(m, x) && x < |s|
    ensures ByteAt(t, 0, x) == ByteAt(s, 0, x)
  {
    hide ByteAt, OnWord, Aligned, SamePayloadAt;
    var b: nat :| Live(m, b) && b <= x < End(m, b) - 8;
    LiveAligned(m, b);
    assert SamePayloadAt(s, t, m, b);
    PayloadByte(s, t, m, b, x);
  }

  lemma KnownMine(s: Memory, m: Layout, known: Known)
    requires Holding(s, m, known)
    ensures forall x | x in known :: Mine(m, x)
  {
  }

  lemma MineStays(m: Layout, y: Layout)
    requires forall b: nat | Live(m, b) :: Live(y, b) && y[b] == m[b]
    ensures forall x: nat :: Mine(m, x) ==> Mine(y, x)
  {
    forall x: nat | Mine(m, x) ensures Mine(y, x) {
      var b: nat :| Live(m, b) && b <= x < End(m, b) - 8;
      assert Live(y, b) && End(y, b) == End(m, b);
    }
  }

  /** Only the freed payload is lost. */
  lemma MineButFreed(m: Layout, y: Layout, bp: nat)
    requires Live(m, bp)
    requires forall b: nat | Live(m, b) && b != bp :: Live(y, b) && y[b] == m[b]
    ensures forall x: nat :: Mine(m, x) && !(bp <= x < End(m, bp) - 8) ==> Mine(y, x)
  {
    forall x: nat | Mine(m, x) && !(bp <= x < End(m, bp) - 8) ensures Mine(y, x) {
      var b: nat :| Live(m, b) && b <= x < End(m, b) - 8;
      assert Live(y, b) && End(y, b) == End(m, b);
    }
  }

  /** The word w with byte i replaced. */
  function WithByte(w: nat, i: nat, v: nat): nat {
    if i == 0 then v + 256 * (w / 256) else w % 256 + 256 * WithByte(w / 256, i - 1, v)
  }

  lemma {:induction false} WithByteBytes(w: nat, i: nat, v: nat, j: nat)
    requires v < 256
    ensures Byte(WithByte(w, i, v), j) == if j == i then v else Byte(w, j)
    decreases i
  {
    var low, high := if i == 0 then v else w % 256, if i == 0 then w / 256 else WithByte(w / 256, i - 1, v);
    assert (low + 256 * high) % 256 == low && (low + 256 * high) / 256 == high;
    if i > 0 && j > 0 { WithByteBytes(w / 256, i - 1, v, j - 1); }
  }

  lemma {:induction false} WithByteFits(w: nat, i: nat, v: nat, k: nat)
    requires w < Pow256(k) && i < k && v < 256
    ensures WithByte(w, i, v) < Pow256(k)
    decreases i
  {
    if i > 0 { WithByteFits(w / 256, i - 1, v, k - 1); }
  }

  /** A client's store of one byte. */
  method StoreByte(ms: MemSystem, at: nat, v: nat)
    requires at < ms.data.Length && v < 256
    modifies ms.data
    ensures ms.Mem() == old(ms.Mem())[at - at % 4 := ms.Mem()[at - at % 4]]
    ensures forall x: nat | x < ms.data.Length ::
              ByteAt(ms.Mem(), 0, x) == if x == at then v else ByteAt(old(ms.Mem()), 0, x)
  {
    hide Byte, WithByte;
    var p := at - at % 4;
    WordLimit();
    WithByteFits(ms.data[p], at % 4, v, 4);
    ms.data[p] := WithByte(ms.data[p], at % 4, v);
    forall x: nat | x < ms.data.Length
      ensures ByteAt(ms.Mem(), 0, x) == if x == at then v else ByteAt(old(ms.Mem()), 0, x)
    {
      if x - x % 4 == p { WithByteBytes(old(ms.data[p]), at % 4, v, x % 4); }
    }
  }

  lemma WordLimit()
    ensures Pow256(4) == TWO_32
  {
  }
}
