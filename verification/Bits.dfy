/** Powers of two and the bitwise operators of C on two's complement integers. */
module Bits {

  const TWO_64: int := 0x1_0000_0000_0000_0000

  function Bit(b: bool): int { if b then 1 else 0 }

  /** A product, named so that proofs can leave it alone. */
  function Times(a: int, b: int): (r: int)
    ensures a >= 0 && b >= 0 ==> r >= 0
  {
    a * b
  }

  lemma TwiceTimes(a: int, b: int)
    ensures Times(a, 2 * b) == 2 * Times(a, b) && Times(2 * a, b) == 2 * Times(a, b)
  {
  }

  lemma TimesSucc(a: int, k: int)
    ensures Times(a, k + 1) == Times(a, k) + a && Times(k + 1, a) == Times(k, a) + a
  {
  }

  lemma TimesMonotone(a: nat, k: int, j: int)
    requires k <= j
    ensures Times(a, k) <= Times(a, j) && Times(k, a) <= Times(j, a)
  {
    assert a * (j - k) >= 0;
  }

  function Pow2(n: nat): (p: nat)
    ensures p > 0
  {
    if n == 0 then 1 else 2 * Pow2(n - 1)
  }

  function Pow256(n: nat): (p: nat)
    ensures p > 0
  {
    if n == 0 then 1 else 256 * Pow256(n - 1)
  }

  /** x & y, for integers of any width: x / 2 rounds down, as an arithmetic shift does. */
  function BitAnd(x: int, y: int): (r: int)
    ensures x >= 0 || y >= 0 ==> r >= 0
    decreases if x < 0 then -x else x
  {
    if x == 0 || y == 0 then 0
    else if x == -1 then y
    else if y == -1 then x
    else 2 * BitAnd(x / 2, y / 2) + Bit(x % 2 == 1 && y % 2 == 1)
  }

  /** x | y */
  function BitOr(x: int, y: int): int
    decreases if x < 0 then -x else x
  {
    if x == -1 || y == -1 then -1
    else if x == 0 then y
    else if y == 0 then x
    else 2 * BitOr(x / 2, y / 2) + Bit(x % 2 == 1 || y % 2 == 1)
  }

  /** x ^ y */
  function BitXor(x: int, y: int): int
    decreases if x < 0 then -x else x
  {
    if x == 0 then y
    else if y == 0 then x
    else if x == -1 then -1 - y
    else if y == -1 then -1 - x
    else 2 * BitXor(x / 2, y / 2) + Bit(x % 2 != y % 2)
  }

  /** Bit i of x in two's complement. */
  function BitOf(x: int, i: nat): (b: int)
    ensures b == 0 || b == 1
    decreases i
  {
    if i == 0 then x % 2 else BitOf(x / 2, i - 1)
  }

  lemma {:induction false} ConstantBits(i: nat)
    ensures BitOf(0, i) == 0 && BitOf(-1, i) == 1
  {
    if i > 0 { ConstantBits(i - 1); }
  }

  lemma HalfAndRest(z: int, bit: int)
    requires bit == 0 || bit == 1
    ensures (2 * z + bit) / 2 == z && (2 * z + bit) % 2 == bit
  {
  }

  /** The operators work bit by bit. */
  lemma {:induction false} OperatorBits(x: int, y: int, i: nat)
    ensures BitOf(BitAnd(x, y), i) == Bit(BitOf(x, i) == 1 && BitOf(y, i) == 1)
    ensures BitOf(BitOr(x, y), i) == Bit(BitOf(x, i) == 1 || BitOf(y, i) == 1)
    ensures BitOf(BitXor(x, y), i) == Bit(BitOf(x, i) != BitOf(y, i))
    decreases i
  {
    ConstantBits(i);
    NotBits(x, i);
    NotBits(y, i);
    if x !in {0, -1} && y !in {0, -1} {
      HalfAndRest(BitAnd(x / 2, y / 2), Bit(x % 2 == 1 && y % 2 == 1));
      HalfAndRest(BitOr(x / 2, y / 2), Bit(x % 2 == 1 || y % 2 == 1));
      HalfAndRest(BitXor(x / 2, y / 2), Bit(x % 2 != y % 2));
      if i > 0 { OperatorBits(x / 2, y / 2, i - 1); }
    }
  }

  lemma {:induction false} NotBits(x: int, i: nat)
    ensures BitOf(-1 - x, i) == 1 - BitOf(x, i)
    decreases i
  {
    assert (-1 - x) / 2 == -1 - x / 2 && (-1 - x) % 2 == 1 - x % 2;
    if i > 0 { NotBits(x / 2, i - 1); }
  }

  ghost predicate Signed(k: nat, x: int) {
    0 - Pow2(k) <= x < Pow2(k)
  }

  lemma SignedHalf(k: nat, x: int)
    requires Signed(k, x)
    ensures k > 0 ==> Signed(k - 1, x / 2)
    ensures k == 0 ==> x == 0 || x == -1
  {
  }

  /** Neither operator needs more bits than its operands. */
  lemma {:induction false} BitwiseFits(k: nat, x: int, y: int)
    requires Signed(k, x) && Signed(k, y)
    ensures Signed(k, BitAnd(x, y)) && Signed(k, BitXor(x, y))
  {
    SignedHalf(k, x);
    SignedHalf(k, y);
    if k > 0 {
      BitwiseFits(k - 1, x / 2, y / 2);
    }
  }

  lemma OrStep(x: nat, z: nat)
    requires BitOr(x / 2, z) == x / 2 + z
    ensures BitOr(x, 2 * z) == x + 2 * z
  {
    assert 2 * z / 2 == z && 2 * z % 2 == 0;
    assert 2 * (x / 2) + Bit(x % 2 == 1) == x;
  }

  /** Putting bits above those of x is adding. */
  lemma {:induction false} OrAdds(k: nat, x: nat, y: nat)
    requires x < Pow2(k)
    ensures BitOr(x, Times(y, Pow2(k))) == x + Times(y, Pow2(k))
  {
    if k > 0 {
      hide BitOr, Times;
      var p := Pow2(k - 1);
      OrAdds(k - 1, x / 2, y);
      TwiceTimes(y, p);
      OrStep(x, Times(y, p));
    }
  }
}
