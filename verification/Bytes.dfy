/** Bytes of words, little-endian, and the memcpy that mm_realloc uses. */
module Bytes {
  import opened Bits
  import opened Memlib

  /** Byte i of a word, the least significant first. */
  function Byte(w: nat, i: nat): (b: nat)
    ensures b < 256
  {
    if i == 0 then w % 256 else Byte(w / 256, i - 1)
  }

  /** Byte i of what starts at address p. */
  function ByteAt(s: Memory, p: nat, i: nat): (b: nat)
    requires p + i < |s|
  {
    Byte(s[p + (i - i % 4)], i % 4)
  }

  /** The n bytes at q in `t` are those at p in `s`. */
  ghost predicate SameBytes(s: Memory, p: nat, t: Memory, q: nat, n: nat) {
    p + n <= |s| && q + n <= |t| && forall i: nat | i < n :: ByteAt(t, q, i) == ByteAt(s, p, i)
  }

  /** The low r bytes of `src` under the others of `dst`. */
  function Overlay(dst: nat, src: nat, r: nat): nat {
    if r == 0 then dst else src % 256 + 256 * Overlay(dst / 256, src / 256, r - 1)
  }

  lemma {:induction false} OverlayBytes(dst: nat, src: nat, r: nat, i: nat)
    ensures Byte(Overlay(dst, src, r), i) == Byte(if i < r then src else dst, i)
    decreases r
  {
    if r > 0 {
      var o := Overlay(dst / 256, src / 256, r - 1);
      assert (src % 256 + 256 * o) % 256 == src % 256 && (src % 256 + 256 * o) / 256 == o;
      if i > 0 { OverlayBytes(dst / 256, src / 256, r - 1, i - 1); }
    }
  }

  lemma {:induction false} OverlayFits(dst: nat, src: nat, r: nat, k: nat)
    requires dst < Pow256(k) && src < Pow256(k)
    ensures Overlay(dst, src, r) < Pow256(k)
    decreases k
  {
    if r > 0 && k > 0 {
      OverlayFits(dst / 256, src / 256, r - 1, k - 1);
    } else if r > 0 {
      assert dst == 0 && src == 0;
      OverlayZero(r);
    }
  }

  lemma {:induction false} OverlayZero(r: nat)
    ensures Overlay(0, 0, r) == 0
  {
    if r > 0 { OverlayZero(r - 1); }
  }

  /** The first n bytes at `src` copied to `dst`; both are word aligned and, as memcpy
      demands, do not overlap. */
  method Memcpy(ms: MemSystem, dst: nat, src: nat, n: nat)
    requires dst + n <= ms.data.Length && src + n <= ms.data.Length
    requires dst + n <= src || src + n <= dst
    modifies ms.data
    ensures SameBytes(old(ms.Mem()), src, ms.Mem(), dst, n)
    ensures forall q: nat | q < ms.data.Length && !(dst <= q < dst + n) :: ms.Mem()[q] == old(ms.Mem())[q]
  {
    hide Byte, Overlay;
    var k := 0;
    while 4 * k + 4 <= n
      invariant 4 * k <= n
      invariant forall j: nat | j < k :: ms.data[dst + 4 * j] == old(ms.data[src + 4 * j])
      invariant forall q: nat | q < ms.data.Length && !(dst <= q < dst + 4 * k) :: ms.data[q] == old(ms.data[q])
    {
      ms.data[dst + 4 * k] := ms.data[src + 4 * k];
      k := k + 1;
    }
    if 4 * k < n {
      var r := n - 4 * k;
      OverlayFits(ms.data[dst + 4 * k], ms.data[src + 4 * k], r, 4);
      ms.data[dst + 4 * k] := Overlay(ms.data[dst + 4 * k], ms.data[src + 4 * k], r);
    }
    forall i: nat | i < n ensures ByteAt(ms.Mem(), dst, i) == ByteAt(old(ms.Mem()), src, i) {
      var j := i / 4;
      assert i - i % 4 == 4 * j;
      if j == k {
        OverlayBytes(old(ms.data[dst + 4 * k]), old(ms.data[src + 4 * k]), n - 4 * k, i % 4);
      }
    }
  }
}
