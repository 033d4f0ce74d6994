/** The masks and shifts lab8/csim.c uses to split an address.

    The set index is cut out with one mask and one shift.  A mask of s ones above b zeros
    selects bits b to b + s, which is division by 2^b and the remainder by 2^s; products
    and quotients are kept behind names, since powers of two are variables here. */
module IndexBits {
  import opened Bits
  import opened Lru

  function Div(x: nat, d: nat): nat
    requires d > 0
  {
    MulAtLeast(x / d, d);
    assert x == x / d * d + x % d;
    x / d
  }

  /** (address & ((1 << (b + s)) - (1 << b))) >> b */
  function MaskedIndex(addr: nat, s: nat, b: nat): nat {
    Div(BitAnd(addr, Pow2(b + s) - Pow2(b)), Pow2(b))
  }

  lemma {:induction false} PowAdd(a: nat, b: nat)
    ensures Pow2(a + b) == Pow2(a) * Pow2(b)
    decreases a
  {
    if a > 0 {
      PowAdd(a - 1, b);
      assert a + b - 1 == a - 1 + b;
    }
  }

  lemma MulAtLeast(k: int, d: nat)
    ensures (k >= 1 ==> k * d >= d) && (k <= -1 ==> k * d <= 0 - d)
  {
  }

  lemma DivMod(x: nat, d: nat, q: nat, r: nat)
    requires d > 0 && r < d && x == q * d + r
    ensures x / d == q && x % d == r
  {
    var p := x / d;
    assert x == p * d + x % d;
    assert (p - q) * d == r - x % d;
    MulAtLeast(p - q, d);
  }

  lemma BitAndHalves(x: nat, m: nat, bit: nat)
    requires bit < 2
    ensures BitAnd(x, 2 * m + bit) == Bit(x % 2 == 1 && bit == 1) + 2 * BitAnd(x / 2, m)
  {
    assert (2 * m + bit) / 2 == m && (2 * m + bit) % 2 == bit;
  }

  /** The low s bits of a number that is r above a multiple of 2^s. */
  lemma {:induction false} LowMaskOf(q: nat, r: nat, s: nat)
    requires r < Pow2(s)
    ensures BitAnd(Times(q, Pow2(s)) + r, Pow2(s) - 1) == r
  {
    if s == 0 {
      assert r == 0;
    } else {
      var p, h, bit := Pow2(s - 1), r / 2, r % 2;
      var t := Times(q, p);
      LowMaskOf(q, h, s - 1);
      LowBit(t + h, bit, p - 1, h);
      TwiceTimes(q, p);
    }
  }

  lemma LowBit(x: nat, bit: nat, m: nat, h: nat)
    requires bit < 2 && BitAnd(x, m) == h
    ensures BitAnd(2 * x + bit, 2 * m + 1) == 2 * h + bit
  {
    BitAndHalves(2 * x + bit, m, 1);
    assert (2 * x + bit) / 2 == x && (2 * x + bit) % 2 == bit;
  }

  lemma Parts(x: nat, d: nat) returns (q: nat, r: nat)
    requires d > 0
    ensures x == Times(q, d) + r && r == x % d && r < d
  {
    q, r := Div(x, d), x % d;
  }

  lemma LowMask(x: nat, s: nat)
    ensures BitAnd(x, Pow2(s) - 1) == x % Pow2(s)
  {
    hide BitAnd;
    var q, r := Parts(x, Pow2(s));
    LowMaskOf(q, r, s);
  }

  lemma {:induction false} HighMask(x: nat, m: nat, b: nat)
    ensures Div(BitAnd(x, Times(Pow2(b), m)), Pow2(b)) == BitAnd(Div(x, Pow2(b)), m)
    decreases b
  {
    hide BitAnd, Div, Times;
    if b == 0 {
      OneTimes(m);
      DivOne(BitAnd(x, m));
      DivOne(x);
    } else {
      var p := Pow2(b - 1);
      var y := BitAnd(x / 2, Times(p, m));
      HighMask(x / 2, m, b - 1);
      TwiceTimes(p, m);
      BitAndHalves(x, Times(p, m), 0);
      HalveDiv(2 * y, p);
      HalveDiv(x, p);
      assert 2 * y / 2 == y;
    }
  }

  lemma OneTimes(m: nat)
    ensures Times(1, m) == m
  {
  }

  lemma DivOne(x: nat)
    ensures Div(x, 1) == x
  {
  }

  lemma HalveDiv(x: nat, p: nat)
    requires p > 0
    ensures Div(x, 2 * p) == Div(x / 2, p)
  {
    var q, r := x / 2 / p, x / 2 % p;
    assert x / 2 == q * p + r;
    assert x == q * (2 * p) + (2 * r + x % 2);
    DivMod(x, 2 * p, q, 2 * r + x % 2);
  }

  lemma TimesLess(p: nat, q: nat)
    requires q > 0
    ensures Times(p, q - 1) == p * q - p
  {
  }

  /** The C mask. */
  lemma MaskIs(s: nat, b: nat)
    ensures Pow2(b + s) - Pow2(b) == Times(Pow2(b), Pow2(s) - 1)
  {
    PowAdd(b, s);
    TimesLess(Pow2(b), Pow2(s));
  }

  /** The mask selects, and the shift brings down, the s bits above the b block bits:
      the set index. */
  lemma IndexIsMasked(g: Geometry, addr: nat)
    ensures MaskedIndex(addr, g.s, g.b) == g.Index(addr)
  {
    hide BitAnd, Times, Pow2;
    MaskIs(g.s, g.b);
    HighMask(addr, Pow2(g.s) - 1, g.b);
    LowMask(Div(addr, Pow2(g.b)), g.s);
  }
}
