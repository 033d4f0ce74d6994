/** Printing assembly lines so that lab5/y64asm.c reads them back.

    The printer takes the text that follows as an argument, so that each token is printed
    in front of a rest and each parser lemma says: what was printed is read and the rest
    is left.  Mnemonics and registers are matched by prefixes in table order, which is
    right because no name begins a later one. */
module AsmPrint {
  import opened Bits
  import opened DigitChars
  import opened Wrappers
  import opened Words
  import opened Asm
  import opened AsmText

  // ----- the printer; `tail` is what follows

  /** Numbers in hexadecimal or decimal; zero displacements left out or not. */
  datatype Style = Style(hex: bool, bare: bool)

  /** The bases numbers are printed in. */
  type Base = b: nat | b == 10 || b == 16 witness 10

  type DigitOf = d: nat | d < 16

  function Digits(base: Base, n: nat): (s: string)
    ensures s != []
    decreases n
  {
    if n < base then [DigitChar(n)] else
      assert if base == 10 then n / base == n / 10 else n / base == n / 16;
      Digits(base, n / base) + [DigitChar(n % base)]
  }

  function Unsigned(v: Word): (n: nat)
    ensures n < TWO_64
  {
    if v < 0 then v + TWO_64 else v
  }

  function PrintNumber(v: Word, style: Style, tail: string): string {
    if style.hex then "0x" + (Digits(16, Unsigned(v)) + tail)
    else if v < 0 then "-" + (Digits(10, -(v as int)) + tail)
    else Digits(10, v) + tail
  }

  function PrintReg(r: Reg, tail: string): string {
    RegName(r) + tail
  }

  function PrintImm(op: Operand, style: Style, tail: string): string {
    match op
    case Imm(v) => "$" + PrintNumber(v, style, tail)
    case Label(n) => n + tail
  }

  function PrintData(op: Operand, style: Style, tail: string): string {
    match op
    case Imm(v) => PrintNumber(v, style, tail)
    case Label(n) => n + tail
  }

  function PrintMem(disp: Word, base: Reg, style: Style, tail: string): string {
    var reg := "(" + PrintReg(base, ")" + tail);
    if disp == 0 && style.bare then reg else PrintNumber(disp, style, reg)
  }

  function PrintArgs(inst: Inst, args: Args, style: Style, tail: string): string
    requires Fits(inst, args)
  {
    match args
    case NoArgs => tail
    case Regs(ra, rb) => " " + PrintReg(ra, ", " + PrintReg(rb, tail))
    case OneReg(ra) => " " + PrintReg(ra, tail)
    case ImmReg(op, rb) => " " + PrintImm(op, style, ", " + PrintReg(rb, tail))
    case MemReg(disp, base, reg) => " " + PrintMem(disp, base, style, ", " + PrintReg(reg, tail))
    case RegMem(reg, disp, base) => " " + PrintReg(reg, ", " + PrintMem(disp, base, style, tail))
    case Dest(op) => " " + PrintImm(op, style, tail)
    case Data(op) => " " + PrintData(op, style, tail)
    case Amount(v) => " " + PrintNumber(v, style, tail)
  }

  function PrintStmt(st: Stmt, style: Style, tail: string): string
    requires Fits(st.Inst(), st.args)
  {
    Name(st.row) + PrintArgs(st.Inst(), st.args, style, tail)
  }

  function PrintLine(l: Line, style: Style, tail: string): string
    requires l.stmt.Some? ==> Fits(l.stmt.value.Inst(), l.stmt.value.args)
  {
    var body := if l.stmt.Some? then PrintStmt(l.stmt.value, style, tail) else tail;
    match l.defines
    case None => body
    case Some(n) => n + (": " + body)
  }

  // ----- which names can be printed

  predicate BlankFree(s: string) { forall i | 0 <= i < |s| :: !IsBlank(s[i]) }

  /** A name the parser takes whole as an operand. */
  predicate Referable(n: string) {
    n != [] && IsLetter(n[0]) && BlankFree(n) && forall i | 0 <= i < |n| :: n[i] != ','
  }

  /** A name the parser takes whole before a colon. */
  predicate Definable(n: string) {
    BlankFree(n) && forall i | 0 <= i < |n| :: n[i] != '#' && n[i] != ':'
  }

  predicate Printable(l: Line) {
    && (l.defines.Some? ==> Definable(l.defines.value))
    && (l.stmt.Some? && Target(l.stmt.value).Some? ==> Referable(Target(l.stmt.value).value))
  }

  /** Anything may follow a line after a blank. */
  predicate Trailing(tail: string) { tail == [] || IsBlank(tail[0]) }

  /** What may follow a number. */
  predicate Stops(tail: string) {
    tail == [] || !(IsDigit(tail[0]) || IsHex(tail[0]) || tail[0] == 'X')
  }

  // ----- the table is safe to match by prefixes

  predicate Plain(name: string) {
    |name| >= 2 && forall i | 0 <= i < |name| :: !IsBlank(name[i]) && name[i] != ':' && name[i] != '#'
  }

  lemma RowNames(k: RowIndex)
    ensures Plain(Name(k))
  {
    hide Name, Plain;
    FirstNames(k);
    SecondNames(k);
    ThirdNames(k);
    FourthNames(k);
    DirectiveNames(k);
  }

  lemma FirstNames(k: RowIndex)
    ensures k < 6 ==> Plain(Name(k))
  {
  }

  lemma SecondNames(k: RowIndex)
    ensures 6 <= k < 12 ==> Plain(Name(k))
  {
  }

  lemma ThirdNames(k: RowIndex)
    ensures 12 <= k < 20 ==> Plain(Name(k))
  {
  }

  lemma FourthNames(k: RowIndex)
    ensures 20 <= k < 27 ==> Plain(Name(k))
  {
  }

  lemma DirectiveNames(k: RowIndex)
    ensures 27 <= k ==> Plain(Name(k))
  {
  }

  ghost predicate Differ(a: string, b: string) {
    |a| > |b| || exists i :: 0 <= i < |a| && a[i] != b[i]
  }

  /** The two differ at the first, second or fifth character. */
  predicate EarlyDifference(a: string, b: string) {
    |a| >= 2 && |a| <= |b| && (a[0] != b[0] || a[1] != b[1] || (|a| > 4 && a[4] != b[4]))
  }

  lemma FirstRows(j: RowIndex, k: RowIndex)
    ensures j < 12 && j < k ==> |Name(j)| > |Name(k)| || EarlyDifference(Name(j), Name(k))
  {
  }

  lemma LaterRows(j: RowIndex, k: RowIndex)
    ensures 12 <= j < k ==> |Name(j)| > |Name(k)| || EarlyDifference(Name(j), Name(k))
  {
  }

  /** No mnemonic begins a later one: each differs from those after it, or is longer. */
  lemma PrefixSafe(j: RowIndex, k: RowIndex)
    requires j < k
    ensures Differ(Name(j), Name(k))
  {
    hide Name;
    FirstRows(j, k);
    LaterRows(j, k);
    var a, b := Name(j), Name(k);
    assert EarlyDifference(a, b) ==> a[0] != b[0] || a[1] != b[1] || a[4] != b[4];
  }

  lemma {:induction false} FindsRow(k: RowIndex, rest: string, j: nat)
    requires j <= k && Trailing(rest)
    ensures FindRow(Name(k) + rest, j) == Some(k)
    decreases k - j
  {
    hide Name;
    if j < k {
      PrefixSafe(j, k);
      RowNames(j);
      NotPrefix(Name(j), Name(k), rest);
      FindsRow(k, rest, j + 1);
    }
  }

  lemma NotPrefix(a: string, b: string, rest: string)
    requires Differ(a, b) && Plain(a) && Trailing(rest)
    ensures !(a <= b + rest)
  {
    if |a| <= |b| {
      var i :| 0 <= i < |a| && a[i] != b[i];
      assert (b + rest)[i] == b[i];
    } else if rest != [] {
      assert (b + rest)[|b|] == rest[0];
    }
  }

  lemma RegsDiffer(j: Reg, k: Reg)
    requires j < k
    ensures var a, b := RegName(j), RegName(k);
            |a| >= 3 && |b| >= 3 && (a[2] != b[2] || (|a| == 4 && |b| == 4 && a[3] != b[3]))
  {
  }

  lemma {:induction false} FindsReg(k: Reg, rest: string, j: nat)
    requires j <= k
    ensures FindReg(RegName(k) + rest, j) == Some(k)
    decreases k - j
  {
    hide RegName;
    if j < k {
      RegsDiffer(j, k);
      var s := RegName(k) + rest;
      assert s[2] == RegName(k)[2] && (|RegName(k)| == 4 ==> s[3] == RegName(k)[3]);
      FindsReg(k, rest, j + 1);
    }
  }

  // ----- tokens come back

  lemma Cut(a: string, b: string)
    ensures (a + b)[..|a|] == a && (a + b)[|a|..] == b
  {
  }

  /** Nothing is skipped in front of a character that is not blank. */
  lemma NoSkip(s: string)
    ensures s == [] || !IsBlank(s[0]) ==> SkipBlank(s) == s
  {
  }

  lemma OneBlank(s: string)
    ensures SkipBlank(" " + s) == SkipBlank(s)
  {
    Cut(" ", s);
  }

  lemma RegBack(r: Reg, tail: string)
    ensures ParseReg(PrintReg(r, tail)) == Some((r, tail)) && ParseReg(" " + PrintReg(r, tail)) == Some((r, tail))
    ensures PrintReg(r, tail) != [] && PrintReg(r, tail)[0] == '%'
  {
    RegStart(r);
    hide RegName;
    var s := PrintReg(r, tail);
    assert s[0] == RegName(r)[0];
    NoSkip(s);
    OneBlank(s);
    FindsReg(r, tail, 0);
    Cut(RegName(r), tail);
  }

  lemma RegStart(r: Reg)
    ensures |RegName(r)| > 0 && RegName(r)[0] == '%'
  {
  }

  lemma DelimBack(c: char, tail: string)
    requires !IsBlank(c)
    ensures ParseDelim([c] + tail, c) == Some(tail)
  {
    NoSkip([c] + tail);
    Cut([c], tail);
  }

  lemma CommaBack(tail: string)
    ensures ParseDelim(", " + tail, ',') == Some(" " + tail)
  {
    assert ", " + tail == [','] + (" " + tail);
    DelimBack(',', " " + tail);
  }

  lemma {:induction false} SymbolEnds(n: string, tail: string)
    requires BlankFree(n) && (forall i | 0 <= i < |n| :: n[i] != ',')
    requires Trailing(tail) || tail[0] == ','
    ensures SymbolLength(n + tail) == |n|
  {
    if n == [] {
      assert n + tail == tail;
    } else {
      assert (n + tail)[1..] == n[1..] + tail;
      SymbolEnds(n[1..], tail);
    }
  }

  lemma SymbolBack(n: string, tail: string)
    requires Referable(n) && (Trailing(tail) || tail[0] == ',')
    ensures SkipBlank(n + tail) == n + tail && Head(n + tail) == n[0]
    ensures ParseSymbol(n + tail) == Some((n, tail))
  {
    var s := n + tail;
    assert s[0] == n[0];
    NoSkip(s);
    SymbolEnds(n, tail);
    Cut(n, tail);
  }

  lemma {:induction false} LabelEnds(n: string, tail: string)
    requires Definable(n)
    ensures LabelLength(n + (":" + tail)) == Some(|n|)
  {
    hide LabelLength;
    var s := n + (":" + tail);
    LabelStep(s);
    if n == [] {
      assert s == ":" + tail && s[0] == ':';
    } else {
      assert s[0] == n[0] && s[1..] == n[1..] + (":" + tail);
      LabelEnds(n[1..], tail);
    }
  }

  // ----- numbers come back

  lemma NotBlank(d: DigitOf)
    ensures DigitVal(DigitChar(d)) == d && !IsBlank(DigitChar(d))
    ensures d < 10 ==> '0' <= DigitChar(d) <= '9' && (DigitChar(d) == '0' <==> d == 0)
  {
    hide DigitVal, DigitChar;
    DigitBack(d);
  }

  lemma {:induction false} DigitsBack(base: Base, n: nat)
    ensures Number(base, Digits(base, n)) == n
    decreases n
  {
    hide DigitChar, DigitVal;
    var s := Digits(base, n);
    if n < base {
      NotBlank(n);
      assert s[..0] == [];
    } else {
      assert if base == 10 then n / base == n / 10 && n % base == n % 10 else n / base == n / 16 && n % base == n % 16;
      DigitsBack(base, n / base);
      NotBlank(n % base);
      assert s[..|s| - 1] == Digits(base, n / base);
    }
  }

  /** All are digits of the base, and the first is not zero but in zero itself. */
  lemma {:induction false} DigitsShape(base: Base, n: nat)
    ensures forall c | c in Digits(base, n) :: DigitVal(c) < base
    ensures var c := Digits(base, n)[0]; c == '0' ==> n == 0
    ensures n == 0 ==> Digits(base, n) == "0"
    decreases n
  {
    hide DigitVal;
    if n < base {
      NotBlank(n);
    } else {
      assert if base == 10 then n / base == n / 10 && n % base == n % 10 else n / base == n / 16 && n % base == n % 16;
      DigitsShape(base, n / base);
      NotBlank(n % base);
    }
  }

  lemma {:induction false} RunEnds(base: nat, s: string, tail: string)
    requires forall c | c in s :: DigitVal(c) < base
    requires tail == [] || DigitVal(tail[0]) >= base
    ensures DigitRun(base, s + tail) == |s|
  {
    hide DigitVal;
    if s == [] {
      assert s + tail == tail;
    } else {
      assert s[0] in s;
      assert (s + tail)[1..] == s[1..] + tail;
      RunEnds(base, s[1..], tail);
    }
  }

  lemma StopsDigits(tail: string, base: nat)
    requires Stops(tail) && base <= 16
    ensures tail == [] || DigitVal(tail[0]) >= base
    ensures SkipDigits(tail) == tail
  {
  }

  /** Digits without a sign or prefix. */
  lemma DecimalBack(n: nat, tail: string)
    requires n < TWO_64 && Stops(tail)
    ensures var s := Digits(10, n) + tail;
            Head(s) != '-' && Head(s) != '+' && '0' <= Head(s) <= '9' && Strtoul(s) == (n, tail)
  {
    hide DigitVal, Digits, Number, DigitRun;
    var d := Digits(10, n);
    var s := d + tail;
    DigitsShape(10, n);
    assert s[0] == d[0] && d[0] in d;
    DigitIsDecimal(d[0]);
    StopsDigits(tail, 10);
    StopsDigits(tail, 8);
    if n == 0 {
      ZeroRadix(tail);
      assert DigitVal('0') < 8 by { NotBlank(0); ZeroChar(); }
      RunEnds(8, "0", tail);
      NumberZero();
    } else {
      assert Radix(s) == 10;
      RunEnds(10, d, tail);
      DigitsBack(10, n);
    }
    Cut(d, tail);
  }

  lemma ZeroChar()
    ensures DigitChar(0) == '0'
  {
  }

  lemma DigitIsDecimal(c: char)
    ensures DigitVal(c) < 10 ==> '0' <= c <= '9'
  {
  }

  lemma NumberZero()
    ensures Number(8, "0") == 0
  {
    assert "0"[..0] == [];
  }

  lemma ZeroRadix(tail: string)
    requires Stops(tail)
    ensures Radix("0" + tail) == 8
  {
    var s := "0" + tail;
    if tail != [] { assert s[1] == tail[0]; }
  }

  lemma MinusBack(n: nat, tail: string)
    requires 0 < n < TWO_64 && Stops(tail)
    ensures Strtoul("-" + (Digits(10, n) + tail)) == (TWO_64 - n, tail)
  {
    hide DigitVal, Digits, Number, DigitRun;
    var d := Digits(10, n);
    var t := d + tail;
    Cut("-", t);
    DigitsShape(10, n);
    assert t[0] == d[0] && d[0] in d;
    StopsDigits(tail, 10);
    assert Radix(t) == 10;
    RunEnds(10, d, tail);
    DigitsBack(10, n);
    Cut(d, tail);
  }

  lemma HexBack(n: nat, tail: string)
    requires n < TWO_64 && Stops(tail)
    ensures Strtoul("0x" + (Digits(16, n) + tail)) == (n, tail)
  {
    hide DigitVal, Digits, Number, DigitRun;
    var d := Digits(16, n);
    var t := "0x" + (d + tail);
    Cut("0x", d + tail);
    DigitsShape(16, n);
    assert t[0] == '0' && t[1] == 'x' && t[2] == d[0] && d[0] in d;
    StopsDigits(tail, 16);
    RunEnds(16, d, tail);
    DigitsBack(16, n);
    Cut(d, tail);
  }

  lemma UnsignedBack(v: Word)
    ensures Wrap(Unsigned(v)) == v && (v < 0 ==> Wrap(TWO_64 - (-(v as int))) == v)
  {
    WrapWord(v, 1);
    WrapWord(v, 0);
  }

  /** Every word printed in either base reads back, whatever sign it has. */
  lemma NumberBack(v: Word, style: Style, tail: string)
    requires Stops(tail)
    ensures var s := PrintNumber(v, style, tail);
            s != [] && IsDigit(s[0]) && SkipBlank(s) == s && ParseDigit(s) == Some((v, tail))
    ensures ParseDigit(" " + PrintNumber(v, style, tail)) == Some((v, tail))
  {
    hide Digits, Strtoul, Wrap;
    var s := PrintNumber(v, style, tail);
    UnsignedBack(v);
    StopsDigits(tail, 10);
    if style.hex {
      HexBack(Unsigned(v), tail);
    } else if v < 0 {
      MinusBack(-(v as int), tail);
    } else {
      DecimalBack(v, tail);
    }
    NoSkip(s);
    OneBlank(s);
  }

  // ----- operands come back

  lemma ImmBack(op: Operand, style: Style, tail: string)
    requires op.Label? ==> Referable(op.name)
    requires Trailing(tail) || tail[0] == ','
    ensures ParseImm(" " + PrintImm(op, style, tail)) == Some((op, tail))
  {
    hide PrintNumber, ParseDigit, ParseSymbol, SymbolLength;
    var s := PrintImm(op, style, tail);
    OneBlank(s);
    match op
    case Imm(v) =>
      NumberBack(v, style, tail);
      Cut("$", PrintNumber(v, style, tail));
      NoSkip(s);
    case Label(n) =>
      SymbolBack(n, tail);
      NotDollar(n);
  }

  lemma NotDollar(n: string)
    ensures Referable(n) ==> n[0] != '$' && !IsDigit(n[0])
  {
  }

  lemma DataBack(op: Operand, style: Style, tail: string)
    requires op.Label? ==> Referable(op.name)
    requires Trailing(tail)
    ensures ParseData(" " + PrintData(op, style, tail)) == Some((op, tail))
  {
    hide PrintNumber, ParseDigit, ParseSymbol, SymbolLength;
    OneBlank(PrintData(op, style, tail));
    match op
    case Imm(v) => NumberBack(v, style, tail);
    case Label(n) =>
      SymbolBack(n, tail);
      NotDollar(n);
  }

  lemma MemBack(disp: Word, base: Reg, style: Style, tail: string)
    ensures ParseMem(" " + PrintMem(disp, base, style, tail)) == Some(((disp, base), tail))
  {
    hide PrintNumber, ParseDigit, PrintReg, ParseReg;
    var s := PrintMem(disp, base, style, tail);
    var reg := "(" + PrintReg(base, ")" + tail);
    OneBlank(s);
    RegBack(base, ")" + tail);
    Cut("(", PrintReg(base, ")" + tail));
    Cut(")", tail);
    assert ParseBase(reg, disp) == Some(((disp, base), tail));
    if disp == 0 && style.bare {
      NoSkip(s);
    } else {
      NumberBack(disp, style, reg);
    }
  }

  lemma ArgsBack(st: Stmt, style: Style, tail: string)
    requires Fits(st.Inst(), st.args) && Trailing(tail)
    requires Target(st).Some? ==> Referable(Target(st).value)
    ensures ParseArgs(st.Inst(), PrintArgs(st.Inst(), st.args, style, tail)) == Some(st.args)
  {
    hide PrintNumber, ParseDigit, PrintReg, ParseReg, ParseDelim, PrintMem, ParseMem, PrintImm, ParseImm;
    hide PrintData, ParseData, Referable, Row;
    match st.args
    case NoArgs =>
    case Regs(ra, rb) =>
      RegBack(ra, ", " + PrintReg(rb, tail));
      CommaBack(PrintReg(rb, tail));
      RegBack(rb, tail);
    case OneReg(ra) => RegBack(ra, tail);
    case ImmReg(op, rb) =>
      ImmBack(op, style, ", " + PrintReg(rb, tail));
      CommaBack(PrintReg(rb, tail));
      RegBack(rb, tail);
    case MemReg(disp, base, reg) =>
      MemBack(disp, base, style, ", " + PrintReg(reg, tail));
      CommaBack(PrintReg(reg, tail));
      RegBack(reg, tail);
    case RegMem(reg, disp, base) =>
      RegBack(reg, ", " + PrintMem(disp, base, style, tail));
      CommaBack(PrintMem(disp, base, style, tail));
      MemBack(disp, base, style, tail);
    case Dest(op) => ImmBack(op, style, tail);
    case Data(op) => DataBack(op, style, tail);
    case Amount(v) =>
      TrailingStops(tail);
      NumberBack(v, style, tail);
  }

  lemma TrailingStops(tail: string)
    ensures Trailing(tail) ==> Stops(tail)
  {
  }

  // ----- lines come back

  lemma ArgsStart(inst: Inst, args: Args, style: Style, tail: string)
    requires Fits(inst, args) && Trailing(tail)
    ensures Trailing(PrintArgs(inst, args, style, tail))
  {
    hide PrintNumber, PrintReg, PrintMem, PrintImm, PrintData;
  }

  lemma StmtBack(st: Stmt, style: Style, tail: string)
    requires ValidStmt(st) && Trailing(tail)
    requires Target(st).Some? ==> Referable(Target(st).value)
    ensures ParseStmt(PrintStmt(st, style, tail)) == Some(Some(st))
    ensures SkipBlank(" " + PrintStmt(st, style, tail)) == SkipBlank(PrintStmt(st, style, tail))
    ensures SkipBlank(PrintStmt(st, style, tail)) == PrintStmt(st, style, tail)
    ensures LabelLength(PrintStmt(st, style, tail)).None? && Head(PrintStmt(st, style, tail)) != '#'
  {
    hide Name, PrintArgs, ParseArgs, FindRow;
    var k := st.row;
    var rest := PrintArgs(st.Inst(), st.args, style, tail);
    ArgsStart(st.Inst(), st.args, style, tail);
    ArgsBack(st, style, tail);
    RowNames(k);
    FindsRow(k, rest, 0);
    Cut(Name(st.row), rest);
    var s := PrintStmt(st, style, tail);
    assert s[0] == Name(st.row)[0];
    NoSkip(s);
    OneBlank(s);
    NoLabel(Name(st.row), rest);
  }

  /** A mnemonic is not taken for a label. */
  lemma {:induction false} NoLabel(name: string, rest: string)
    requires (forall i | 0 <= i < |name| :: !IsBlank(name[i]) && name[i] != ':' && name[i] != '#') && Trailing(rest)
    ensures LabelLength(name + rest).None?
  {
    if name == [] {
      assert name + rest == rest;
    } else {
      assert (name + rest)[1..] == name[1..] + rest;
      NoLabel(name[1..], rest);
    }
  }

  /** parse_line reads back every printable line with a statement, in either number base,
      with or without a label, whatever follows it. */
  lemma LineBack(l: Line, style: Style, tail: string)
    requires ValidLine(l) && Printable(l) && l.stmt.Some? && Trailing(tail)
    ensures ParseLine(PrintLine(l, style, tail)) == Some(l)
  {
    hide PrintStmt, ParseStmt, LabelLength, SkipBlank;
    var st := l.stmt.value;
    var body := PrintStmt(st, style, tail);
    StmtBack(st, style, tail);
    match l.defines
    case None =>
    case Some(n) => LabelledBack(n, body);
  }

  lemma LabelledBack(n: string, body: string)
    requires Definable(n) && SkipBlank(" " + body) == SkipBlank(body) == body
    ensures var s := n + (": " + body);
            && SkipBlank(s) == s && s[0] != '#'
            && ParseLabel(s) == Some((n, " " + body))
            && ParseStmt(" " + body) == ParseStmt(body)
  {
    hide LabelLength, FindRow, ParseArgs;
    var s := n + (": " + body);
    assert ": " + body == ":" + (" " + body);
    LabelEnds(n, " " + body);
    assert s[0] == if n == [] then ':' else n[0];
    NoSkip(s);
    Cut(n, ":" + (" " + body));
    assert s[|n| + 1..] == " " + body;
  }

  /** A line that only defines a label reads back too. */
  lemma LabelOnlyBack(n: string, style: Style)
    requires Definable(n)
    ensures ParseLine(PrintLine(Line(Some(n), None), style, "")) == Some(Line(Some(n), None))
  {
    hide LabelLength, FindRow;
    var s := n + ": ";
    assert PrintLine(Line(Some(n), None), style, "") == s && s == n + (":" + " ");
    LabelEnds(n, " ");
    assert s[0] == if n == [] then ':' else n[0];
    NoSkip(s);
    Cut(n, ":" + " ");
    assert s[|n| + 1..] == " ";
    OneBlank("");
    assert " " + "" == " ";
    FindsNone(0);
  }

  lemma {:induction false} FindsNone(k: nat)
    requires k <= ROWS
    ensures FindRow("", k).None?
    decreases ROWS - k
  {
    hide Name;
    if k < ROWS {
      RowNames(k);
      FindsNone(k + 1);
    }
  }

  ghost predicate AllPrintable(ls: seq<Line>) {
    forall k {:trigger ls[k]} | 0 <= k < |ls| :: ValidLine(ls[k]) && Printable(ls[k])
  }

  ghost function PrintAll(ls: seq<Line>, style: Style): (texts: seq<string>)
    requires AllPrintable(ls)
    ensures |texts| == |ls|
  {
    if ls == [] then [] else
      var l := ls[|ls| - 1];
      assert ValidLine(l);
      PrintAll(ls[..|ls| - 1], style) + [PrintLine(l, style, "")]
  }

  lemma PrintMore(p: seq<Line>, l: Line, style: Style)
    requires AllPrintable(p + [l])
    ensures AllPrintable(p) && ValidLine(l) && Printable(l)
    ensures PrintAll(p + [l], style) == PrintAll(p, style) + [PrintLine(l, style, "")]
  {
    hide PrintLine, ValidLine, Printable;
    var ls := p + [l];
    assert ls[..|p|] == p && ls[|p|] == l;
    forall k | 0 <= k < |p| ensures ValidLine(p[k]) && Printable(p[k]) { assert p[k] == ls[k]; }
  }

  lemma ParseMore(texts: seq<string>, t: string)
    requires ParseAll(texts).Some? && ParseLine(t).Some?
    ensures ParseAll(texts + [t]) == Some(ParseAll(texts).value + [ParseLine(t).value])
  {
    hide ParseLine;
    assert (texts + [t])[..|texts|] == texts;
  }

  /** A whole program printed is read back line by line. */
  lemma {:induction false} ProgramBack(ls: seq<Line>, style: Style)
    requires AllPrintable(ls)
    ensures ParseAll(PrintAll(ls, style)) == Some(ls)
    decreases |ls|
  {
    if ls != [] {
      hide ParseLine, PrintLine, Printable, ValidLine, ParseAll, PrintAll, AllPrintable;
      var p, l := ls[..|ls| - 1], ls[|ls| - 1];
      assert ls == p + [l];
      PrintMore(p, l, style);
      ProgramBack(p, style);
      OneLineBack(l, style);
      ParseMore(PrintAll(p, style), PrintLine(l, style, ""));
    }
  }

  lemma OneLineBack(l: Line, style: Style)
    requires ValidLine(l) && Printable(l)
    ensures ParseLine(PrintLine(l, style, "")) == Some(l)
  {
    hide ParseLine;
    if l.stmt.Some? {
      LineBack(l, style, "");
    } else if l.defines.Some? {
      LabelOnlyBack(l.defines.value, style);
    } else {
      EmptyBack();
    }
  }

  lemma EmptyBack()
    ensures ParseLine("") == Some(Line(None, None))
  {
    hide FindRow;
    FindsNone(0);
  }
}
