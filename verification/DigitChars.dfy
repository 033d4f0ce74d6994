/** Digits of bases up to 36, as characters. */
module DigitChars {
  /** What a character counts as a digit, 99 when it is none. */
  function DigitVal(c: char): nat {
    if '0' <= c <= '9' then c as nat - '0' as nat
    else if 'a' <= c <= 'z' then 10 + (c as nat - 'a' as nat)
    else if 'A' <= c <= 'Z' then 10 + (c as nat - 'A' as nat)
    else 99
  }

  /** The C expression c < 10 ? c + '0' : c - 10 + 'a'. */
  function DigitChar(c: int): char
    requires -36 < c < 36
  {
    (if c < 10 then c + 48 else c - 10 + 97) as char
  }

  lemma DigitBack(c: nat)
    requires c < 36
    ensures DigitVal(DigitChar(c)) == c && DigitChar(c) != '-'
    ensures c < 10 ==> '0' <= DigitChar(c) <= '9' && (DigitChar(c) == '0' <==> c == 0)
    ensures c >= 10 ==> 'a' <= DigitChar(c) <= 'z'
  {
  }
}
