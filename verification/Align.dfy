/** The arithmetic of the .align directive of lab5/y64asm.c.

    It divides and multiplies again, with C's division, which truncates toward zero.  The
    question is when that gives the least multiple at or above the address. */
module Align {
  import opened Bits

  function Abs(x: int): (n: int)
    ensures n >= 0 && (x != 0 ==> n > 0)
  {
    if x < 0 then -x else x
  }

  /** The C operator /, which truncates toward zero. */
  function Quotient(x: int, a: int): int
    requires a != 0
  {
    if (x < 0) == (a < 0) then Abs(x) / Abs(a) else -(Abs(x) / Abs(a))
  }

  function AlignUp(v: int, a: int): int
    requires a != 0
  {
    Times(Quotient(v + a - 1, a), a)
  }

  ghost predicate Multiple(m: int, a: int) {
    exists k: int :: m == Times(k, a)
  }

  ghost predicate LeastMultiple(r: int, v: int, a: int) {
    Multiple(r, a) && v <= r && forall m: int | Multiple(m, a) && v <= m :: r <= m
  }

  /** Truncation leaves a remainder smaller than the divisor, on the side of zero. */
  lemma QuotientIs(x: int, a: int) returns (r: int)
    requires a != 0
    ensures x == Times(Quotient(x, a), a) + r
    ensures if x < 0 then -Abs(a) < r <= 0 else 0 <= r < Abs(a)
  {
    var n, d := Abs(x), Abs(a);
    var q, rest := n / d, n % d;
    assert n == Times(q, d) + rest;
    Signs(q, d);
    r := if x < 0 then -rest else rest;
  }

  lemma Signs(q: int, d: int)
    ensures Times(-q, d) == -Times(q, d) && Times(q, -d) == -Times(q, d) && Times(-q, -d) == Times(q, d)
  {
  }

  /** Different multiples are at least a apart. */
  lemma Gap(j: int, k: int, a: int)
    requires a > 0 && Times(j, a) < Times(k, a)
    ensures Times(j, a) + a <= Times(k, a)
  {
    hide Times;
    if k <= j { TimesMonotone(a, k, j); }
    TimesMonotone(a, j + 1, k);
    TimesSucc(a, j);
  }

  lemma LeastBelow(r: int, v: int, a: int)
    requires a > 0 && Multiple(r, a) && v <= r
    ensures LeastMultiple(r, v, a) <==> r < v + a
  {
    var k: int :| r == Times(k, a);
    if r >= v + a {
      assert r - a == Times(k - 1, a);
      assert Multiple(r - a, a);
    } else {
      forall m: int | Multiple(m, a) && v <= m ensures r <= m {
        var j: int :| m == Times(j, a);
        if m < r { Gap(j, k, a); }
      }
    }
  }

  /** .align moves to the least multiple at or above the current address exactly for a
      positive operand and an address that is not negative, or only by less than the
      operand, or one above a multiple. */
  lemma AlignUpIff(v: int, a: int)
    requires a != 0
    ensures LeastMultiple(AlignUp(v, a), v, a) <==> a > 0 && (v + a - 1 >= 0 || Multiple(v - 1, a))
  {
    hide Times, Quotient, LeastMultiple;
    var x := v + a - 1;
    var r := QuotientIs(x, a);
    var up := AlignUp(v, a);
    assert Multiple(up, a);
    if a < 0 {
      assert up < v;
      assert !LeastMultiple(up, v, a) by { LeastIsAbove(up, v, a); }
    } else if x >= 0 {
      LeastBelow(up, v, a);
    } else {
      NegativeCase(v, a, r);
    }
  }

  lemma LeastIsAbove(r: int, v: int, a: int)
    ensures LeastMultiple(r, v, a) ==> v <= r
  {
  }

  lemma NegativeCase(v: int, a: int, r: int)
    requires a > 0 && v + a - 1 < 0
    requires v + a - 1 == AlignUp(v, a) + r && -a < r <= 0
    ensures LeastMultiple(AlignUp(v, a), v, a) <==> Multiple(v - 1, a)
  {
    var q := Quotient(v + a - 1, a);
    hide Times, Quotient, LeastMultiple;
    var up := AlignUp(v, a);
    assert Multiple(up, a);
    LeastBelow(up, v, a);
    TimesSucc(a, q - 1);
    if r == 0 {
      assert v - 1 == Times(q - 1, a);
    } else if Multiple(v - 1, a) {
      var k: int :| v - 1 == Times(k, a);
      Gap(q - 1, k + 1, a);
      TimesSucc(a, k);
      Gap(k, q - 1, a);
    }
  }

  /** From -6, .align 4 moves to 0 and passes -4. */
  lemma AlignUpExample()
    ensures AlignUp(-6, 4) == 0 && LeastMultiple(-4, -6, 4)
  {
    assert Times(-1, 4) == -4;
    LeastBelow(-4, -6, 4);
  }
}
