/** The language lab5/y64asm.c accepts, mnemonic by mnemonic, as texts and bytes. */
module AsmBytes {
  import opened Wrappers
  import opened Words
  import opened Bits
  import opened DigitChars
  import Align
  import opened Asm
  import opened AsmText
  import opened AsmPrint

  // ----- texts

  /** The registers in the order of their numbers. */
  function RegText(r: Reg): string {
    ["%rax", "%rcx", "%rdx", "%rbx", "%rsp", "%rbp", "%rsi", "%rdi",
     "%r8", "%r9", "%r10", "%r11", "%r12", "%r13", "%r14"][r]
  }

  function NumberText(v: Word, style: Style): string {
    PrintNumber(v, style, "")
  }

  function TwoRegs(a: Reg, b: Reg): string {
    " " + RegText(a) + ", " + RegText(b)
  }

  function ImmText(op: Operand, style: Style): string {
    match op
    case Imm(v) => "$" + NumberText(v, style)
    case Label(n) => n
  }

  function DataText(op: Operand, style: Style): string {
    match op
    case Imm(v) => NumberText(v, style)
    case Label(n) => n
  }

  /** D(%base), where a displacement of zero may be left out. */
  function MemText(disp: Word, base: Reg, style: Style): string {
    (if disp == 0 && style.bare then "" else NumberText(disp, style)) + "(" + RegText(base) + ")"
  }

  ghost predicate Parses(text: string, st: Stmt) {
    ParseLine(text) == Some(Line(None, Some(st)))
  }

  /** parse_line reads the text as a statement, and with this symbol table it has these codes. */
  ghost predicate Encodes(text: string, tab: seq<Symbol>, codes: seq<Byte>) {
    && ParseLine(text).Some? && ParseLine(text).value.defines.None? && ParseLine(text).value.stmt.Some?
    && ValidStmt(ParseLine(text).value.stmt.value) && Codes(ParseLine(text).value.stmt.value, tab) == codes
  }

  // ----- they are what the printer prints

  lemma RegTexts(r: Reg)
    ensures RegText(r) == RegName(r)
  {
    if r < 8 { FirstRegs(r); } else { LaterRegs(r); }
  }

  lemma FirstRegs(r: Reg)
    ensures r < 8 ==> RegText(r) == RegName(r)
  {
  }

  lemma LaterRegs(r: Reg)
    ensures 8 <= r ==> RegText(r) == RegName(r)
  {
  }

  lemma NumberTexts(v: Word, style: Style, tail: string)
    ensures PrintNumber(v, style, tail) == NumberText(v, style) + tail
  {
    hide Digits;
  }

  function ArgText(args: Args, style: Style): string {
    match args
    case NoArgs => ""
    case Regs(ra, rb) => " " + RegText(ra) + ", " + RegText(rb)
    case OneReg(ra) => " " + RegText(ra)
    case ImmReg(op, rb) => " " + ImmText(op, style) + ", " + RegText(rb)
    case MemReg(disp, base, reg) => " " + MemText(disp, base, style) + ", " + RegText(reg)
    case RegMem(reg, disp, base) => " " + RegText(reg) + ", " + MemText(disp, base, style)
    case Dest(op) => " " + ImmText(op, style)
    case Data(op) => " " + DataText(op, style)
    case Amount(v) => " " + NumberText(v, style)
  }

  lemma MemTexts(disp: Word, base: Reg, style: Style, tail: string)
    ensures PrintMem(disp, base, style, tail) == MemText(disp, base, style) + tail
  {
    hide PrintNumber, RegText, RegName;
    RegTexts(base);
    NumberTexts(disp, style, "(" + PrintReg(base, ")" + tail));
  }

  lemma ImmTexts(op: Operand, style: Style, tail: string)
    ensures PrintImm(op, style, tail) == ImmText(op, style) + tail
  {
    hide PrintNumber;
    if op.Imm? { NumberTexts(op.value, style, tail); }
  }

  lemma Joined(a: string, b: string, c: string, d: string)
    ensures a + (b + (c + d)) == a + b + c + d
  {
  }

  lemma ArgTexts(inst: Inst, args: Args, style: Style)
    requires Fits(inst, args)
    ensures PrintArgs(inst, args, style, "") == ArgText(args, style)
  {
    hide PrintNumber, RegText, RegName, PrintMem, MemText, PrintImm, ImmText;
    match args
    case Regs(ra, rb) => RegTexts(ra); RegTexts(rb);
    case OneReg(ra) => RegTexts(ra);
    case ImmReg(op, rb) =>
      RegTexts(rb);
      assert PrintReg(rb, "") == RegText(rb);
      ImmTexts(op, style, ", " + RegText(rb));
      Joined(" ", ImmText(op, style), ", ", RegText(rb));
    case MemReg(disp, base, reg) =>
      RegTexts(reg);
      assert PrintReg(reg, "") == RegText(reg);
      MemTexts(disp, base, style, ", " + RegText(reg));
      Joined(" ", MemText(disp, base, style), ", ", RegText(reg));
    case RegMem(reg, disp, base) =>
      RegTexts(reg);
      MemTexts(disp, base, style, "");
    case Dest(op) => ImmTexts(op, style, "");
    case _ =>
  }

  /** Reading a row's name with fitting operands behind it. */
  lemma RowText(k: RowIndex, args: Args, style: Style)
    requires Fits(Row(k), args)
    requires Target(Stmt(k, args)).Some? ==> Referable(Target(Stmt(k, args)).value)
    ensures Parses(Name(k) + ArgText(args, style), Stmt(k, args))
  {
    hide Name, Row, ArgText, PrintArgs, ParseLine, Referable;
    LineBack(Line(None, Some(Stmt(k, args))), style, "");
    ArgTexts(Row(k), args, style);
  }

  lemma HasCodes(text: string, st: Stmt, tab: seq<Symbol>)
    requires Parses(text, st) && ValidStmt(st)
    ensures Encodes(text, tab, Codes(st, tab))
  {
    hide ParseLine, Codes, Fits;
  }

  ghost predicate Usable(op: Operand) {
    op.Label? ==> Referable(op.name)
  }

  // ----- mnemonics

  lemma PlainRow(k: RowIndex, text: string)
    requires (k == 0 && text == "nop") || (k == 1 && text == "halt") || (k == 24 && text == "ret")
    ensures Parses(text, Stmt(k, NoArgs))
  {
    hide Parses;
    RowText(k, NoArgs, Style(false, false));
    assert text == Name(k) + "";
  }

  function Operation(i: nat): string
    requires i < 4
  {
    ["addq", "subq", "andq", "xorq"][i]
  }

  lemma OperationRow(i: nat, a: Reg, b: Reg)
    requires i < 4
    ensures Parses(Operation(i) + TwoRegs(a, b), Stmt(12 + i, Regs(a, b)))
  {
    hide Parses, RegText;
    RowText(12 + i, Regs(a, b), Style(false, false));
    assert Name(12 + i) == Operation(i);
  }

  /** Moves: always, and on conditions 1 to 6. */
  function Move(i: nat): string
    requires i < 7
  {
    ["rrmovq", "cmovle", "cmovl", "cmove", "cmovne", "cmovge", "cmovg"][i]
  }

  lemma MoveRow(i: nat, a: Reg, b: Reg)
    requires i < 7
    ensures Parses(Move(i) + TwoRegs(a, b), Stmt(2 + i, Regs(a, b)))
  {
    hide Parses, RegText;
    RowText(2 + i, Regs(a, b), Style(false, false));
    assert Name(2 + i) == Move(i);
  }

  /** Jumps: always, and on conditions 1 to 6. */
  function Jump(i: nat): string
    requires i < 7
  {
    ["jmp", "jle", "jl", "je", "jne", "jge", "jg"][i]
  }

  lemma JumpRow(i: nat, op: Operand, style: Style)
    requires i < 7 && Usable(op)
    ensures Parses(Jump(i) + (" " + ImmText(op, style)), Stmt(16 + i, Dest(op)))
  {
    hide Parses, ImmText;
    RowText(16 + i, Dest(op), style);
    assert Name(16 + i) == Jump(i);
  }

  lemma CallRow(op: Operand, style: Style)
    requires Usable(op)
    ensures Parses("call" + (" " + ImmText(op, style)), Stmt(23, Dest(op)))
  {
    hide Parses, ImmText;
    RowText(23, Dest(op), style);
  }

  lemma PushRow(a: Reg)
    ensures Parses("pushq" + (" " + RegText(a)), Stmt(25, OneReg(a)))
  {
    hide Parses, RegText;
    RowText(25, OneReg(a), Style(false, false));
  }

  lemma PopRow(a: Reg)
    ensures Parses("popq" + (" " + RegText(a)), Stmt(26, OneReg(a)))
  {
    hide Parses, RegText;
    RowText(26, OneReg(a), Style(false, false));
  }

  lemma ImmediateRow(op: Operand, b: Reg, style: Style)
    requires Usable(op)
    ensures Parses("irmovq" + (" " + ImmText(op, style) + ", " + RegText(b)), Stmt(9, ImmReg(op, b)))
  {
    hide Parses, RegText, ImmText;
    RowText(9, ImmReg(op, b), style);
  }

  lemma StoreRow(a: Reg, disp: Word, base: Reg, style: Style)
    ensures Parses("rmmovq" + (" " + RegText(a) + ", " + MemText(disp, base, style)), Stmt(10, RegMem(a, disp, base)))
  {
    hide Parses, RegText, MemText;
    RowText(10, RegMem(a, disp, base), style);
  }

  lemma LoadRow(a: Reg, disp: Word, base: Reg, style: Style)
    ensures Parses("mrmovq" + (" " + MemText(disp, base, style) + ", " + RegText(a)), Stmt(11, MemReg(disp, base, a)))
  {
    hide Parses, RegText, MemText;
    RowText(11, MemReg(disp, base, a), style);
  }

  /** Data of 1, 2, 4 and 8 bytes. */
  function Datum(i: nat): string
    requires i < 4
  {
    [".byte", ".word", ".long", ".quad"][i]
  }

  lemma DatumRow(i: nat, op: Operand, style: Style)
    requires i < 4 && Usable(op)
    ensures Parses(Datum(i) + (" " + DataText(op, style)), Stmt(27 + i, Data(op)))
  {
    hide Parses, DataText;
    RowText(27 + i, Data(op), style);
    assert Name(27 + i) == Datum(i);
  }

  // ----- and their bytes

  lemma Packed(hi: nat, lo: nat)
    requires hi < 16 && lo < 16
    ensures HPack(hi, lo) == 16 * hi + lo
  {
  }

  /** halt, nop and ret are single bytes. */
  lemma PlainBytes(tab: seq<Symbol>)
    ensures Encodes("halt", tab, [0x00]) && Encodes("nop", tab, [0x10]) && Encodes("ret", tab, [0x90])
  {
    hide Parses, Encodes, HPack;
    Packed(0, 0);
    Packed(1, 0);
    Packed(9, 0);
    PlainRow(0, "nop");
    PlainRow(1, "halt");
    PlainRow(24, "ret");
    HasCodes("nop", Stmt(0, NoArgs), tab);
    HasCodes("halt", Stmt(1, NoArgs), tab);
    HasCodes("ret", Stmt(24, NoArgs), tab);
  }

  lemma OperationBytes(i: nat, a: Reg, b: Reg, tab: seq<Symbol>)
    requires i < 4
    ensures Encodes(Operation(i) + TwoRegs(a, b), tab, [0x60 + i, 16 * a + b])
  {
    hide Parses, Encodes, TwoRegs, Operation, HPack;
    OperationRow(i, a, b);
    Packed(6, i);
    Packed(a, b);
    HasCodes(Operation(i) + TwoRegs(a, b), Stmt(12 + i, Regs(a, b)), tab);
  }

  lemma MoveBytes(i: nat, a: Reg, b: Reg, tab: seq<Symbol>)
    requires i < 7
    ensures Encodes(Move(i) + TwoRegs(a, b), tab, [0x20 + i, 16 * a + b])
  {
    hide Parses, Encodes, TwoRegs, Move, HPack;
    MoveRow(i, a, b);
    Packed(2, i);
    Packed(a, b);
    HasCodes(Move(i) + TwoRegs(a, b), Stmt(2 + i, Regs(a, b)), tab);
  }

  lemma JumpBytes(i: nat, op: Operand, style: Style, tab: seq<Symbol>)
    requires i < 7 && Usable(op)
    ensures Encodes(Jump(i) + (" " + ImmText(op, style)), tab, [0x70 + i] + Low(Value(op, tab), 8))
  {
    hide Parses, Encodes, ImmText, Jump, Low, Value, HPack;
    Packed(7, i);
    JumpRow(i, op, style);
    HasCodes(Jump(i) + (" " + ImmText(op, style)), Stmt(16 + i, Dest(op)), tab);
  }

  lemma CallBytes(op: Operand, style: Style, tab: seq<Symbol>)
    requires Usable(op)
    ensures Encodes("call" + (" " + ImmText(op, style)), tab, [0x80] + Low(Value(op, tab), 8))
  {
    hide Parses, Encodes, ImmText, Low, Value, HPack;
    Packed(8, 0);
    CallRow(op, style);
    HasCodes("call" + (" " + ImmText(op, style)), Stmt(23, Dest(op)), tab);
  }

  lemma StackBytes(a: Reg, tab: seq<Symbol>)
    ensures Encodes("pushq" + (" " + RegText(a)), tab, [0xA0, 16 * a + 15])
    ensures Encodes("popq" + (" " + RegText(a)), tab, [0xB0, 16 * a + 15])
  {
    hide Parses, Encodes, RegText, HPack;
    Packed(10, 0);
    Packed(11, 0);
    Packed(a, 15);
    PushRow(a);
    PopRow(a);
    HasCodes("pushq" + (" " + RegText(a)), Stmt(25, OneReg(a)), tab);
    HasCodes("popq" + (" " + RegText(a)), Stmt(26, OneReg(a)), tab);
  }

  lemma ImmediateBytes(op: Operand, b: Reg, style: Style, tab: seq<Symbol>)
    requires Usable(op)
    ensures Encodes("irmovq" + (" " + ImmText(op, style) + ", " + RegText(b)), tab,
                    [0x30, 0xF0 + b] + Low(Value(op, tab), 8))
  {
    hide Parses, Encodes, RegText, ImmText, Low, Value, HPack;
    Packed(3, 0);
    Packed(15, b);
    ImmediateRow(op, b, style);
    HasCodes("irmovq" + (" " + ImmText(op, style) + ", " + RegText(b)), Stmt(9, ImmReg(op, b)), tab);
  }

  lemma MemoryBytes(a: Reg, disp: Word, base: Reg, style: Style, tab: seq<Symbol>)
    ensures Encodes("rmmovq" + (" " + RegText(a) + ", " + MemText(disp, base, style)), tab,
                    [0x40, 16 * a + base] + Low(disp, 8))
    ensures Encodes("mrmovq" + (" " + MemText(disp, base, style) + ", " + RegText(a)), tab,
                    [0x50, 16 * a + base] + Low(disp, 8))
  {
    hide Parses, Encodes, RegText, MemText, Low, HPack;
    Packed(4, 0);
    Packed(5, 0);
    Packed(a, base);
    StoreRow(a, disp, base, style);
    LoadRow(a, disp, base, style);
    HasCodes("rmmovq" + (" " + RegText(a) + ", " + MemText(disp, base, style)), Stmt(10, RegMem(a, disp, base)), tab);
    HasCodes("mrmovq" + (" " + MemText(disp, base, style) + ", " + RegText(a)), Stmt(11, MemReg(disp, base, a)), tab);
  }

  /** The data directives take 1, 2, 4 and 8 bytes, the low ones of the value. */
  lemma DatumBytes(i: nat, op: Operand, style: Style, tab: seq<Symbol>)
    requires i < 4 && Usable(op)
    ensures Encodes(Datum(i) + (" " + DataText(op, style)), tab, Low(Value(op, tab), [1, 2, 4, 8][i]))
  {
    hide Parses, Encodes, DataText, Datum, Low, Value;
    DatumRow(i, op, style);
    HasCodes(Datum(i) + (" " + DataText(op, style)), Stmt(27 + i, Data(op)), tab);
  }

  // ----- characters

  lemma SmallLetters(c: char)
    ensures 'a' <= c <= 'm' <==> c in "abcdefghijklm"
    ensures 'n' <= c <= 'z' <==> c in "nopqrstuvwxyz"
  {
    if 'a' <= c <= 'm' { assert "abcdefghijklm"[c as int - 'a' as int] == c; }
    if 'n' <= c <= 'z' { assert "nopqrstuvwxyz"[c as int - 'n' as int] == c; }
  }

  lemma CapitalLetters(c: char)
    ensures 'A' <= c <= 'M' <==> c in "ABCDEFGHIJKLM"
    ensures 'N' <= c <= 'Z' <==> c in "NOPQRSTUVWXYZ"
  {
    if 'A' <= c <= 'M' { assert "ABCDEFGHIJKLM"[c as int - 'A' as int] == c; }
    if 'N' <= c <= 'Z' { assert "NOPQRSTUVWXYZ"[c as int - 'N' as int] == c; }
  }

  /** The classes of characters, written out. */
  lemma LettersAre(c: char)
    ensures IsLetter(c) <==>
            || c in "abcdefghijklm" || c in "nopqrstuvwxyz"
            || c in "ABCDEFGHIJKLM" || c in "NOPQRSTUVWXYZ"
  {
    SmallLetters(c);
    CapitalLetters(c);
  }

  lemma NumeralsAre(c: char)
    ensures IsBlank(c) <==> c in " \t"
    ensures IsDigit(c) <==> c in "0123456789-+"
  {
    if '0' <= c <= '9' { assert "0123456789-+"[c as int - '0' as int] == c; }
  }

  lemma HexesAre(c: char)
    ensures IsHex(c) <==> c in "abcdefABCDEFx"
  {
    if 'a' <= c <= 'f' { assert "abcdefABCDEFx"[c as int - 'a' as int] == c; }
    if 'A' <= c <= 'F' { assert "abcdefABCDEFx"[c as int - 'A' as int + 6] == c; }
  }

  // ----- texts that are no statements

  /** A comment, and a text that begins with no mnemonic and defines no label, count as empty. */
  lemma NoStatement(text: string)
    ensures text != [] && text[0] == '#' ==> ParseLine(text) == Some(Line(None, None))
    ensures (forall k: RowIndex :: !(Name(k) <= SkipBlank(text))) && LabelLength(SkipBlank(text)).None? ==>
              ParseLine(text) == Some(Line(None, None))
  {
    hide Name, LabelLength;
    SkipTwice(text);
  }

  lemma {:induction false} SkipTwice(text: string)
    ensures SkipBlank(SkipBlank(text)) == SkipBlank(text)
  {
    if text != [] && IsBlank(text[0]) { SkipTwice(text[1..]); }
  }

  /** An operation without a register behind it is an error. */
  lemma RegisterMissing(i: nat, rest: string)
    requires i < 4 && (rest == [] || (rest[0] != '%' && !IsBlank(rest[0])))
    ensures ParseLine(Operation(i) + (" " + rest)).None?
  {
    hide Name, LabelLength;
    var s := Operation(i) + (" " + rest);
    OperationIs(i);
    RowNames(12 + i);
    FindsRow(12 + i, " " + rest, 0);
    NoLabel(Operation(i), " " + rest);
    assert s[0] == Operation(i)[0];
    NoSkip(s);
    Cut(Operation(i), " " + rest);
    OneBlank(rest);
    NoSkip(rest);
  }

  lemma OperationIs(i: nat)
    requires i < 4
    ensures Operation(i) == Name(12 + i) && Row(12 + i).icode == 6 && |Operation(i)| == 4
  {
  }

  // ----- what numerals denote

  lemma DigitsAre(i: nat)
    requires i < 16
    ensures DigitVal("0123456789abcdef"[i]) == DigitVal("0123456789ABCDEF"[i]) == i
  {
  }

  function Power(base: nat, n: nat): nat {
    if n == 0 then 1 else base * Power(base, n - 1)
  }

  /** A digit in front counts as often as the base to the number of digits behind it. */
  lemma {:induction false} LeadingDigit(base: nat, c: char, s: string)
    ensures Number(base, [c] + s) == Times(DigitVal(c), Power(base, |s|)) + Number(base, s)
  {
    hide DigitVal;
    var t := [c] + s;
    if s == [] {
      assert t[..0] == [] && t[0] == c;
    } else {
      var u := s[..|s| - 1];
      assert t[..|t| - 1] == [c] + u;
      LeadingDigit(base, c, u);
      Shift(base, DigitVal(c), Power(base, |u|), Number(base, u));
    }
  }

  lemma Shift(base: nat, d: nat, p: nat, n: nat)
    ensures base * (Times(d, p) + n) == Times(d, base * p) + base * n
  {
  }

  // ----- the address counter

  /** The address after a line with this text. */
  function After(a: Tables, text: string): Option<int> {
    match ParseLine(text)
    case None => None
    case Some(l) =>
      match AddLine(a, l)
      case None => None
      case Some(t) => Some(t.vmaddr)
  }

  /** Codes move it on by their number. */
  lemma CodesAdvance(a: Tables, text: string, tab: seq<Symbol>, codes: seq<Byte>)
    requires Encodes(text, tab, codes) && codes != []
    ensures After(a, text) == Some(a.vmaddr + |codes|)
  {
    hide ParseLine, Codes, Raw;
    TableLength(ParseLine(text).value.stmt.value, tab);
  }

  /** .pos sets it; .align refuses 0 and otherwise, from an address that is not negative, goes
      to the least multiple at or above it. */
  lemma DirectivesMove(a: Tables, v: Word, style: Style)
    ensures After(a, ".pos" + (" " + NumberText(v, style))) == Some(v)
    ensures var r := After(a, ".align" + (" " + NumberText(v, style)));
            && (v == 0 ==> r.None?)
            && (v > 0 && a.vmaddr >= 0 ==> r.Some? && Align.LeastMultiple(r.value, a.vmaddr, v))
  {
    hide ParseLine, NumberText, Align.AlignUp, Align.LeastMultiple;
    RowText(31, Amount(v), style);
    RowText(32, Amount(v), style);
    if v != 0 { Align.AlignUpIff(a.vmaddr, v); }
  }
}
