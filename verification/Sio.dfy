/** sio_reverse and sio_ltoa of lab10/csapp.c.

    The digits come out backwards, by C's remainder and division, with a sign behind them
    when the number is negative, and are then reversed in place.  What the text denotes is
    decided for every number and every base whose digits are characters. */
module Sio {
  import opened Bits
  import opened DigitChars
  import opened Words

  function Reversed(s: string): (r: string)
    ensures |r| == |s|
  {
    if s == [] then [] else Reversed(s[1..]) + [s[0]]
  }

  lemma {:induction false} ReversedAt(s: string, k: nat)
    requires k < |s|
    ensures Reversed(s)[k] == s[|s| - 1 - k]
  {
    if k < |s| - 1 { ReversedAt(s[1..], k); }
  }

  /** The C string at s has n characters. */
  ghost predicate Terminated(s: array<char>, n: nat)
    reads s
  {
    n < s.Length && s[n] == '\0' && forall k | 0 <= k < n :: s[k] != '\0'
  }

  /** strlen */
  method Strlen(s: array<char>, ghost len: nat) returns (n: nat)
    requires Terminated(s, len)
    ensures n == len
  {
    n := 0;
    while s[n] != '\0'
      invariant n <= len
      decreases len - n
    {
      n := n + 1;
    }
  }

  /** sio_reverse: the characters before the terminator, in place. */
  method Reverse(s: array<char>, ghost len: nat)
    requires Terminated(s, len)
    modifies s
    ensures s[..len] == Reversed(old(s[..len])) && s[len..] == old(s[len..])
  {
    ghost var was := s[..len];
    var n := Strlen(s, len);
    var i, j := 0, n - 1;
    while i < j
      invariant 0 <= i <= j + 2 && i + j == n - 1
      invariant forall k | 0 <= k < s.Length ::
                  s[k] == if k < n && (k < i || k > j) then old(s[n - 1 - k]) else old(s[k])
    {
      s[i], s[j] := s[j], s[i];
      i, j := i + 1, j - 1;
    }
    forall k | 0 <= k < n ensures s[..n][k] == Reversed(was)[k] {
      ReversedAt(was, k);
    }
  }

  // ----- numbers

  type Base = b: nat | 2 <= b <= 36 witness 10

  /** C's % and / on a long and a positive int, both truncating. */
  function CRem(v: int, b: Base): int
  {
    if v >= 0 then v % b else 0 - (0 - v) % b
  }

  function CDiv(v: int, b: Base): int
  {
    if v >= 0 then v / b else 0 - (0 - v) / b
  }

  /** Quotient and remainder go together, and the remainder has the sign of the number. */
  lemma TruncatesToZero(v: int, b: Base)
    ensures v == Times(CDiv(v, b), b) + CRem(v, b) && 0 - b < CRem(v, b) < b
    ensures (v >= 0 ==> CRem(v, b) >= 0) && (v <= 0 ==> CRem(v, b) <= 0)
  {
    var n := if v < 0 then 0 - v else v;
    assert n == (n / b) * b + n % b;
  }

  lemma CRemBound(v: int, b: Base)
    ensures -36 < CRem(v, b) < 36 && (v >= 0 ==> CRem(v, b) >= 0)
  {
  }

  /** The characters the loop produces, the least significant first; the loop stops when
      what is left is not positive. */
  function Backwards(m: int, b: Base): (s: string)
    ensures s != []
    decreases if m < 0 then 0 else m
  {
    CRemBound(m, b);
    var rest := CDiv(m, b);
    [DigitChar(CRem(m, b))] + if rest > 0 then (Smaller(m, b); Backwards(rest, b)) else []
  }

  lemma Smaller(m: int, b: Base)
    requires CDiv(m, b) > 0
    ensures m > 0 && CDiv(m, b) < m
  {
    NotPositive(m, b);
    HalfBound(m, b);
  }

  lemma HalfBound(m: nat, b: Base)
    ensures 2 * (m / b) <= m
  {
    var q := m / b;
    assert m == b * q + m % b;
    AtLeastTwice(b, q);
  }

  lemma AtLeastTwice(b: Base, q: nat)
    ensures b * q >= 2 * q
  {
  }

  lemma NotPositive(m: int, b: Base)
    ensures m <= 0 ==> CDiv(m, b) <= 0
  {
    assert m <= 0 ==> (0 - m) / b >= 0;
  }

  lemma BackwardsStep(m: int, b: Base)
    ensures -36 < CRem(m, b) < 36
    ensures Backwards(m, b) == [DigitChar(CRem(m, b))] + if CDiv(m, b) > 0 then Backwards(CDiv(m, b), b) else []
  {
    CRemBound(m, b);
  }

  /** What is printed for a long. */
  function Text(v: Word, b: Base): string
  {
    Reversed(if v < 0 then Backwards(Wrap(0 - v), b) + "-" else Backwards(v, b))
  }

  // ----- what a numeral denotes

  ghost predicate Numeral(t: string, b: nat) {
    t != [] && forall i | 0 <= i < |t| :: DigitVal(t[i]) < b
  }

  function Value(t: string, b: nat): nat {
    if t == [] then 0 else Times(b, Value(t[..|t| - 1], b)) + DigitVal(t[|t| - 1])
  }

  ghost predicate Denotes(t: string, b: nat, v: int) {
    if t != [] && t[0] == '-' then Numeral(t[1..], b) && v == 0 - Value(t[1..], b)
    else Numeral(t, b) && v == Value(t, b)
  }

  lemma DivRem(m: nat, b: Base)
    ensures m == Times(b, CDiv(m, b)) + CRem(m, b) && CDiv(m, b) >= 0 && 0 <= CRem(m, b) < b
  {
  }

  lemma {:induction false} BackwardsDenotes(m: nat, b: Base)
    ensures Numeral(Reversed(Backwards(m, b)), b) && Value(Reversed(Backwards(m, b)), b) == m
    ensures Reversed(Backwards(m, b))[0] != '-'
    decreases m
  {
    hide Times, DigitChar, DigitVal, CDiv, CRem, Backwards, Value, Numeral;
    DivRem(m, b);
    BackwardsStep(m, b);
    DigitBack(CRem(m, b));
    var c, q := DigitChar(CRem(m, b)), CDiv(m, b);
    if q > 0 {
      Smaller(m, b);
      BackwardsDenotes(q, b);
      var rest := Backwards(q, b);
      assert ([c] + rest)[1..] == rest;
      Snoc(Reversed(rest), c, b);
    } else {
      OneDigit(c, b);
      TimesZero(b);
    }
  }

  lemma OneDigit(c: char, b: nat)
    requires DigitVal(c) < b
    ensures Reversed([c]) == [c] && Numeral([c], b) && Value([c], b) == DigitVal(c)
  {
    assert [c][..0] == [];
    TimesZero(b);
  }

  lemma TimesZero(b: nat)
    ensures Times(b, 0) == 0
  {
  }

  lemma Snoc(t: string, c: char, b: nat)
    requires Numeral(t, b) && DigitVal(c) < b
    ensures Numeral(t + [c], b) && Value(t + [c], b) == Times(b, Value(t, b)) + DigitVal(c)
    ensures (t + [c])[0] == t[0]
  {
    assert (t + [c])[..|t|] == t;
  }

  lemma {:induction false} ReversedSign(s: string)
    ensures Reversed(s + "-") == "-" + Reversed(s)
  {
    if s == [] {
      assert s + "-" == "-";
    } else {
      assert (s + "-")[1..] == s[1..] + "-";
      ReversedSign(s[1..]);
    }
  }

  /** The text denotes the number exactly when it is not the least long, whose negation
      wraps around. */
  lemma TextDenotesIff(v: Word, b: Base)
    ensures Denotes(Text(v, b), b, v) <==> v != -TWO_63
  {
    hide Backwards, Times, Wrap, DigitVal, Numeral, Value;
    if v >= 0 {
      BackwardsDenotes(v, b);
    } else {
      WrapNear(0 - v);
      var m := Wrap(0 - v);
      ReversedSign(Backwards(m, b));
      var t := Reversed(Backwards(m, b));
      assert Text(v, b) == "-" + t && Text(v, b)[1..] == t;
      if v != -TWO_63 {
        BackwardsDenotes(m, b);
      } else {
        LeastLong(b);
      }
    }
  }

  /** In base 10 the least long is printed as "-(". */
  lemma LeastLongExample()
    ensures Text(-TWO_63, 10) == "-("
  {
    hide Wrap;
    WrapNear(TWO_63);
    BackwardsStep(-TWO_63, 10);
    assert CRem(-TWO_63, 10) == -8 && CDiv(-TWO_63, 10) <= 0 && DigitChar(-8) == '(';
    ReversedSign("(");
  }

  /** For the least long the loop runs once, on a negative number. */
  lemma LeastLong(b: Base)
    ensures var t := Reversed(Backwards(-TWO_63, b)); |t| == 1 && Value(t, b) <= 99
  {
    CRemBound(-TWO_63, b);
    assert CDiv(-TWO_63, b) <= 0;
    var c := DigitChar(CRem(-TWO_63, b));
    assert Backwards(-TWO_63, b) == [c] && Reversed([c]) == [c] && [c][..0] == [];
    TimesZero(b);
  }

  /** A buffer of 66 characters is enough in every base. */
  lemma {:induction false} BackwardsFits(m: int, b: Base, k: nat)
    requires m < Pow2(k)
    ensures |Backwards(m, b)| <= k + 1
    decreases k
  {
    CRemBound(m, b);
    var q := CDiv(m, b);
    if q > 0 {
      Smaller(m, b);
      assert 2 * q <= m by { HalfBound(m, b); }
      BackwardsFits(q, b, k - 1);
    }
  }

  /** sio_ltoa */
  method Ltoa(v0: Word, s: array<char>, b: Base)
    requires s.Length >= 66
    modifies s
    ensures var t := Text(v0, b); |t| < s.Length && s[..|t|] == t && s[|t|] == '\0'
  {
    hide Backwards, Reversed, Wrap, Pow2;
    var v: int := v0;
    var neg := v < 0;
    if neg { v := Wrap(0 - v); }
    ghost var all := Backwards(v, b);
    LongFits(v, b);
    Printable(v, b);
    var i := Loop(v, s, b);
    if neg {
      s[i] := '-';
      i := i + 1;
    }
    s[i] := '\0';
    ghost var was := s[..i];
    assert was == if neg then all + "-" else all;
    forall k | 0 <= k < i ensures s[k] != '\0' {
      assert s[k] == was[k];
      if k < |all| { assert was[k] in all; }
    }
    Reverse(s, i);
    assert s[i..][0] == s[i];
  }

  lemma LongFits(v: Word, b: Base)
    ensures |Backwards(v, b)| <= 64
  {
    Pow63();
    BackwardsFits(v, b, 63);
  }

  lemma {:induction false} Printable(v: int, b: Base)
    ensures '\0' !in Backwards(v, b)
    decreases if v < 0 then 0 else v
  {
    CRemBound(v, b);
    if CDiv(v, b) > 0 {
      Smaller(v, b);
      Printable(CDiv(v, b), b);
    }
  }

  /** The do loop of sio_ltoa. */
  method Loop(v0: int, s: array<char>, b: Base) returns (i: nat)
    requires |Backwards(v0, b)| <= s.Length
    modifies s
    ensures i == |Backwards(v0, b)| && s[..i] == Backwards(v0, b)
  {
    hide CRem, CDiv, DigitChar, Backwards;
    var v := v0;
    i := 0;
    ghost var todo := Backwards(v, b);
    while true
      invariant todo == Backwards(v, b) && i + |todo| <= s.Length
      invariant s[..i] + todo == Backwards(v0, b)
      decreases |todo|
    {
      BackwardsStep(v, b);
      ghost var before := s[..i];
      s[i] := DigitChar(CRem(v, b));
      i := i + 1;
      assert s[..i] == before + [todo[0]];
      v := CDiv(v, b);
      if v <= 0 {
        assert todo == [todo[0]];
        break;
      }
      assert todo == [todo[0]] + todo[1..];
      todo := todo[1..];
    }
  }
}
