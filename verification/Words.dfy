/** Bytes and 64-bit words, their little-endian storage, and memories of bytes. */
module Words {
  import opened Bits
  import opened Wrappers

  // The memories are mem_t of lab4/y64sim.h and of lab6/sim/misc/isa.h.

  const TWO_63: int := 0x8000_0000_0000_0000

  type Byte = b: int | 0 <= b < 256

  type Word = w: int | -TWO_63 <= w < TWO_63

  /** The word congruent to x modulo 2^64. */
  function Wrap(x: int): (w: Word)
    decreases if x < 0 then -2 * x else 2 * x + 1
  {
    if x >= TWO_63 then Wrap(x - TWO_64)
    else if x < -TWO_63 then Wrap(x + TWO_64)
    else x
  }

  lemma {:induction false} WrapWord(w: Word, q: int)
    ensures Wrap(w + TWO_64 * q) == w
    decreases if q < 0 then -q else q
  {
    if q > 0 {
      WrapWord(w, q - 1);
    } else if q < 0 {
      WrapWord(w, q + 1);
    }
  }

  lemma WrapNear(x: int)
    requires -TWO_64 <= x < TWO_64
    ensures Wrap(x) == if x >= TWO_63 then x - TWO_64 else if x < -TWO_63 then x + TWO_64 else x
  {
  }

  lemma {:induction false} WrapParts(x: int) returns (k: int)
    ensures x == Wrap(x) + TWO_64 * k
    decreases if x < 0 then -2 * x else 2 * x + 1
  {
    if x >= TWO_63 {
      k := WrapParts(x - TWO_64);
      k := k + 1;
    } else if x < -TWO_63 {
      k := WrapParts(x + TWO_64);
      k := k - 1;
    } else {
      k := 0;
    }
  }

  /** Wrapping changes a number by a multiple of 2^64. */
  lemma WrapCongruent(x: int)
    ensures (Wrap(x) - x) % TWO_64 == 0
  {
    var k := WrapParts(x);
    assert Wrap(x) - x == -k * TWO_64;
  }

  lemma WrapPeriod(x: int, q: int)
    ensures Wrap(x + TWO_64 * q) == Wrap(x)
  {
    var k := WrapParts(x);
    WrapWord(Wrap(x), k + q);
  }

  /** Adding and taking back wraps around to where it started. */
  lemma WrapBack(w: Word, d: int)
    requires -TWO_63 <= d <= TWO_63
    ensures Wrap(Wrap(w - d) + d) == w
  {
  }

  // ----- little-endian bytes

  /** The low n bytes of v, the least significant first. */
  function Low(v: int, n: nat): (s: seq<Byte>)
    ensures |s| == n
    decreases n
  {
    if n == 0 then [] else [v % 256] + Low(v / 256, n - 1)
  }

  lemma LowHead(v: int, n: nat)
    requires n > 0
    ensures Low(v, n) == [v % 256] + Low(v / 256, n - 1)
  {
  }

  /** Byte i is the one of weight 256^i. */
  lemma {:induction false} LowIs(v: int, n: nat, i: nat)
    requires i < n
    ensures Low(v, n)[i] == v / Pow256(i) % 256
    decreases n
  {
    hide Low;
    LowHead(v, n);
    if i > 0 {
      LowIs(v / 256, n - 1, i - 1);
      Shifted(v, Pow256(i - 1));
    }
  }

  lemma Shifted(v: int, p: nat)
    requires p > 0
    ensures v / 256 / p == v / (256 * p)
  {
    var q := v / 256 / p;
    var m := v / 256 % p;
    assert v / 256 == q * p + m;
    assert v == q * (256 * p) + (256 * m + v % 256) && 0 <= 256 * m + v % 256 < 256 * p;
    QuotientOf(v, 256 * p, q, 256 * m + v % 256);
  }

  lemma QuotientOf(v: int, d: nat, q: int, r: nat)
    requires d > 0 && r < d && v == q * d + r
    ensures v / d == q
  {
    var p := v / d;
    assert (p - q) * d == r - v % d;
    AtLeast(p - q, d);
  }

  lemma AtLeast(k: int, d: nat)
    ensures (k >= 1 ==> k * d >= d) && (k <= -1 ==> k * d <= 0 - d)
  {
  }

  function Join(s: seq<Byte>): nat {
    if s == [] then 0 else s[0] + 256 * Join(s[1..])
  }

  lemma Times256(q: int, p: int)
    ensures Times(q, 256 * p) == 256 * Times(q, p)
  {
  }

  /** What the low bytes leave out is a multiple of their range. */
  lemma {:induction false} JoinLow(v: int, n: nat) returns (q: int)
    ensures v == Times(q, Pow256(n)) + Join(Low(v, n))
    decreases n
  {
    if n == 0 {
      q := v;
    } else {
      q := JoinLow(v / 256, n - 1);
      Times256(q, Pow256(n - 1));
      assert Low(v, n)[1..] == Low(v / 256, n - 1);
    }
  }

  lemma EightBytes()
    ensures Pow256(8) == TWO_64
  {
    assert Pow256(4) == 0x1_0000_0000;
  }

  /** Eight bytes hold a number modulo 2^64 ... */
  lemma JoinEight(v: int)
    ensures Wrap(Join(Low(v, 8))) == Wrap(v)
  {
    hide Wrap, Low, Join, Pow256;
    var q := JoinLow(v, 8);
    EightBytes();
    assert v == Join(Low(v, 8)) + TWO_64 * q by { assert Times(q, TWO_64) == q * TWO_64; }
    WrapPeriod(Join(Low(v, 8)), q);
  }

  /** ... and so a word exactly. */
  lemma WordRoundTrip(w: Word)
    ensures Wrap(Join(Low(w, 8))) == w
  {
    JoinEight(w);
  }

  lemma {:induction false} JoinAppend(s: seq<Byte>, b: Byte)
    ensures Join(s + [b]) == Join(s) + Times(b, Pow2(8 * |s|))
    ensures Join(s) < Pow2(8 * |s|)
  {
    if s == [] {
      assert [b][1..] == [];
    } else {
      assert (s + [b])[1..] == s[1..] + [b];
      JoinAppend(s[1..], b);
      hide Pow2;
      var n := |s| - 1;
      EightBits(n);
      Times256(b, Pow2(8 * n));
    }
  }

  lemma EightBits(n: nat)
    ensures Pow2(8 * n + 8) == 256 * Pow2(8 * n)
  {
    var k := 8 * n;
    assert Pow2(k + 2) == 4 * Pow2(k);
    assert Pow2(k + 4) == 4 * Pow2(k + 2);
    assert Pow2(k + 6) == 4 * Pow2(k + 4);
  }

  lemma Pow63()
    ensures Pow2(63) == TWO_63
  {
    assert Pow2(7) == 128;
    EightBits(0);
    EightBits(1);
    EightBits(2);
    EightBits(3);
    EightBits(4);
    EightBits(5);
    EightBits(6);
    assert 256 * Pow2(55) == Pow2(63);
  }

  lemma {:induction false} LowJoin(s: seq<Byte>)
    ensures Low(Join(s), |s|) == s
  {
    hide Low;
    if s == [] {
      LowNone(Join(s));
    } else {
      LowJoin(s[1..]);
      LowHead(Join(s), |s|);
      Carry(s[0], Join(s[1..]));
      assert s == [s[0]] + s[1..];
    }
  }

  lemma {:induction false} LowPeriod(w: int, k: int, n: nat)
    ensures Low(w + Times(k, Pow256(n)), n) == Low(w, n)
    decreases n
  {
    hide Low, Times;
    if n == 0 {
      LowNone(w);
      LowNone(w + Times(k, Pow256(n)));
    } else {
      var t := Times(k, Pow256(n - 1));
      Times256(k, Pow256(n - 1));
      Carry(w, t);
      LowPeriod(w / 256, k, n - 1);
      LowHead(w, n);
      LowHead(w + 256 * t, n);
    }
  }

  lemma LowNone(v: int)
    ensures Low(v, 0) == []
  {
  }

  lemma Carry(w: int, t: int)
    ensures (w + 256 * t) % 256 == w % 256 && (w + 256 * t) / 256 == w / 256 + t
  {
  }

  /** Wrapping does not touch the low eight bytes. */
  lemma LowWrap(x: int)
    ensures Low(Wrap(x), 8) == Low(x, 8)
  {
    hide Low, Wrap;
    var k := WrapParts(x);
    EightBytes();
    LowPeriod(Wrap(x), k, 8);
    assert Times(k, TWO_64) == k * TWO_64;
  }

  // ----- memories

  /** get_byte_val */
  function GetByte(m: seq<Byte>, addr: int): Option<Byte> {
    if addr < 0 || addr >= |m| then None else Some(m[addr])
  }

  /** get_long_val, get_word_val */
  function GetWord(m: seq<Byte>, addr: int): Option<Word> {
    if addr < 0 || addr + 8 > |m| then None else Some(Wrap(Join(m[addr..addr + 8])))
  }

  function Patch(m: seq<Byte>, addr: nat, s: seq<Byte>): (r: seq<Byte>)
    requires addr + |s| <= |m|
    ensures |r| == |m|
    ensures forall i: nat {:trigger r[i]} | i < |m| :: r[i] == if addr <= i < addr + |s| then s[i - addr] else m[i]
  {
    m[..addr] + s + m[addr + |s|..]
  }

  lemma PatchStep(m: seq<Byte>, addr: nat, s: seq<Byte>, i: nat)
    requires addr + |s| <= |m| && i < |s|
    ensures Patch(m, addr, s[..i])[addr + i := s[i]] == Patch(m, addr, s[..i + 1])
  {
    hide Patch;
  }

  /** set_long_val, set_word_val */
  function SetWord(m: seq<Byte>, addr: int, w: Word): Option<seq<Byte>> {
    if addr < 0 || addr + 8 > |m| then None else Some(Patch(m, addr, Low(w, 8)))
  }

  /** The word that is read is the one whose eight bytes lie there. */
  lemma GetWordIff(m: seq<Byte>, addr: int, v: Word)
    ensures GetWord(m, addr) == Some(v) <==> 0 <= addr && addr + 8 <= |m| && m[addr..addr + 8] == Low(v, 8)
  {
    hide Low, Join, Wrap;
    WordRoundTrip(v);
    if 0 <= addr && addr + 8 <= |m| {
      var s := m[addr..addr + 8];
      LowJoin(s);
      LowWrap(Join(s));
    }
  }

  /** A word reads back as it was written ... */
  lemma SetGet(m: seq<Byte>, addr: int, w: Word)
    requires SetWord(m, addr, w).Some?
    ensures GetWord(SetWord(m, addr, w).value, addr) == Some(w)
  {
    var r := SetWord(m, addr, w).value;
    assert r[addr..addr + 8] == Low(w, 8);
    WordRoundTrip(w);
  }

  /** ... and leaves every word beside it ... */
  lemma SetFrame(m: seq<Byte>, addr: int, w: Word, other: int)
    requires SetWord(m, addr, w).Some? && (other + 8 <= addr || addr + 8 <= other)
    ensures GetWord(SetWord(m, addr, w).value, other) == GetWord(m, other)
  {
    var r := SetWord(m, addr, w).value;
    if 0 <= other && other + 8 <= |m| {
      assert r[other..other + 8] == m[other..other + 8];
    }
  }

  /** ... so stores to different words commute, and the later of two to the same wins. */
  lemma SetSet(m: seq<Byte>, a: int, v: Word, b: int, w: Word)
    requires SetWord(m, a, v).Some? && SetWord(m, b, w).Some?
    ensures a == b ==> SetWord(SetWord(m, a, v).value, b, w) == SetWord(m, b, w)
    ensures a + 8 <= b || b + 8 <= a ==>
              SetWord(SetWord(m, a, v).value, b, w) == SetWord(SetWord(m, b, w).value, a, v)
  {
    hide Low, Patch;
    PatchPatch(m, a, Low(v, 8), b, Low(w, 8));
  }

  lemma PatchPatch(m: seq<Byte>, a: nat, s: seq<Byte>, b: nat, t: seq<Byte>)
    requires a + |s| <= |m| && b + |t| <= |m| && |s| == |t|
    ensures a == b ==> Patch(Patch(m, a, s), b, t) == Patch(m, b, t)
    ensures a + |s| <= b || b + |s| <= a ==> Patch(Patch(m, a, s), b, t) == Patch(Patch(m, b, t), a, s)
  {
    hide Patch;
  }
}
