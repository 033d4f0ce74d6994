/** What parse_line of lab5/y64asm.c reads in a text.

    The parsers are functions from a text to what they find at its start and the text
    behind it.  Names are found in their tables by prefix alone, numbers are what strtoul
    makes of the text, and a line may define a label before its statement. */
module AsmText {
  import opened Bits
  import opened DigitChars
  import opened Wrappers
  import opened Words
  import opened Y86
  import opened Asm

  // A string is what follows the C pointer; its end stands for the terminating zero.

  type Parsed<T> = Option<(T, string)>

  // ----- characters

  predicate IsDigit(c: char) { '0' <= c <= '9' || c == '-' || c == '+' }

  predicate IsLetter(c: char) { 'a' <= c <= 'z' || 'A' <= c <= 'Z' }

  predicate IsHex(c: char) { 'a' <= c <= 'f' || 'A' <= c <= 'F' || c == 'x' }

  predicate IsBlank(c: char) { c == ' ' || c == '\t' }

  /** The character at the pointer. */
  function Head(s: string): char { if s == [] then '\0' else s[0] }

  function SkipBlank(s: string): string {
    if s != [] && IsBlank(s[0]) then SkipBlank(s[1..]) else s
  }

  // ----- mnemonics and registers

  /** find_instr, from row k on: the first whose name begins the text. */
  function FindRow(s: string, k: nat): (r: Option<RowIndex>)
    requires k <= ROWS
    ensures r.Some? ==> Name(r.value) <= s
    decreases ROWS - k
  {
    if k == ROWS then None
    else if Name(k) <= s then Some(k)
    else FindRow(s, k + 1)
  }

  /** reg_table[k].name */
  function RegName(k: Reg): string {
    if k == 0 then "%rax"
    else if k == 1 then "%rcx"
    else if k == 2 then "%rdx"
    else if k == 3 then "%rbx"
    else if k == 4 then "%rsp"
    else if k == 5 then "%rbp"
    else if k == 6 then "%rsi"
    else if k == 7 then "%rdi"
    else if k == 8 then "%r8"
    else if k == 9 then "%r9"
    else if k == 10 then "%r10"
    else if k == 11 then "%r11"
    else if k == 12 then "%r12"
    else if k == 13 then "%r13"
    else "%r14"
  }

  /** find_register */
  function FindReg(s: string, k: nat): (r: Option<Reg>)
    requires k <= NO_REG
    ensures r.Some? ==> RegName(r.value) <= s
    decreases NO_REG - k
  {
    if k == NO_REG then None
    else if RegName(k) <= s then Some(k)
    else FindReg(s, k + 1)
  }

  // ----- numbers: strtoul with base 0

  /** How many leading characters are digits in the base. */
  function DigitRun(base: nat, s: string): (n: nat)
    ensures n <= |s|
  {
    if s != [] && DigitVal(s[0]) < base then 1 + DigitRun(base, s[1..]) else 0
  }

  function Number(base: nat, s: string): nat {
    if s == [] then 0 else base * Number(base, s[..|s| - 1]) + DigitVal(s[|s| - 1])
  }

  function Radix(s: string): nat {
    if |s| > 2 && s[0] == '0' && (s[1] == 'x' || s[1] == 'X') && DigitVal(s[2]) < 16 then 16
    else if s != [] && s[0] == '0' then 8
    else 10
  }

  /** The number and what follows it; without digits nothing is consumed. */
  function Strtoul(s: string): (nat, string) {
    var signed := s != [] && (s[0] == '-' || s[0] == '+');
    var t := if signed then s[1..] else s;
    var base := Radix(t);
    var u := if base == 16 then t[2..] else t;
    var n := DigitRun(base, u);
    if n == 0 then (0, s) else
      var v := Number(base, u[..n]);
      (if v >= TWO_64 then TWO_64 - 1
       else if signed && s[0] == '-' && v > 0 then TWO_64 - v
       else v, u[n..])
  }

  function SkipDigits(s: string): string {
    if s != [] && (IsDigit(s[0]) || IsHex(s[0])) then SkipDigits(s[1..]) else s
  }

  // ----- tokens

  function ParseInstr(s: string): Parsed<RowIndex> {
    var t := SkipBlank(s);
    match FindRow(t, 0)
    case None => None
    case Some(k) => Some((k, t[|Name(k)|..]))
  }

  function ParseDelim(s: string, delim: char): Option<string> {
    var t := SkipBlank(s);
    if t != [] && t[0] == delim then Some(t[1..]) else None
  }

  function ParseReg(s: string): Parsed<Reg> {
    var t := SkipBlank(s);
    if Head(t) != '%' then None else
      match FindReg(t, 0)
      case None => None
      case Some(k) => Some((k, t[|RegName(k)|..]))
  }

  /** The length of a symbol: up to a blank, a comma or the end. */
  function SymbolLength(s: string): (n: nat)
    ensures n <= |s|
  {
    if s == [] || IsBlank(s[0]) || s[0] == ',' then 0 else 1 + SymbolLength(s[1..])
  }

  function ParseSymbol(s: string): Parsed<string> {
    var t := SkipBlank(s);
    if !IsLetter(Head(t)) then None else
      Some((t[..SymbolLength(t)], t[SymbolLength(t)..]))
  }

  function ParseDigit(s: string): Parsed<Word> {
    var t := SkipBlank(s);
    if !IsDigit(Head(t)) then None else
      var r := Strtoul(t);
      Some((Wrap(r.0), SkipDigits(r.1)))
  }

  function ToImm(r: Parsed<Word>): Parsed<Operand> {
    match r
    case None => None
    case Some((v, rest)) => Some((Imm(v), rest))
  }

  function ToLabel(r: Parsed<string>): Parsed<Operand> {
    match r
    case None => None
    case Some((n, rest)) => Some((Label(n), rest))
  }

  function ParseImm(s: string): Parsed<Operand> {
    var t := SkipBlank(s);
    if Head(t) == '$' && t != [] then ToImm(ParseDigit(t[1..]))
    else if IsLetter(Head(t)) then ToLabel(ParseSymbol(t))
    else None
  }

  function ParseData(s: string): Parsed<Operand> {
    var t := SkipBlank(s);
    if IsDigit(Head(t)) then ToImm(ParseDigit(t))
    else if IsLetter(Head(t)) then ToLabel(ParseSymbol(t))
    else None
  }

  /** "(%reg)" */
  function ParseBase(s: string, disp: Word): Parsed<(Word, Reg)> {
    if s == [] || s[0] != '(' then None else
      match ParseReg(s[1..])
      case None => None
      case Some((r, rest)) => if rest == [] || rest[0] != ')' then None else Some(((disp, r), rest[1..]))
  }

  function ParseMem(s: string): Parsed<(Word, Reg)> {
    var t := SkipBlank(s);
    if IsDigit(Head(t)) then
      match ParseDigit(t)
      case None => None
      case Some((v, rest)) => ParseBase(rest, v)
    else ParseBase(t, 0)
  }

  /** How far a label goes: to the colon; None when a blank, a # or the end comes first. */
  function LabelLength(s: string): (r: Option<nat>)
    ensures r.Some? ==> r.value < |s|
  {
    if s == [] || IsBlank(s[0]) || s[0] == '#' then None
    else if s[0] == ':' then Some(0)
    else
      match LabelLength(s[1..])
      case None => None
      case Some(n) => Some(n + 1)
  }

  lemma LabelStep(s: string)
    ensures LabelLength(s) ==
            if s == [] || IsBlank(s[0]) || s[0] == '#' then None
            else if s[0] == ':' then Some(0)
            else match LabelLength(s[1..]) { case None => None case Some(n) => Some(n + 1) }
  {
  }

  function ParseLabel(s: string): Parsed<string> {
    var t := SkipBlank(s);
    match LabelLength(t)
    case None => None
    case Some(n) => Some((t[..n], t[n + 1..]))
  }

  // ----- lines

  function ParseRegs(s: string): Option<Args> {
    match ParseReg(s)
    case None => None
    case Some((ra, t)) =>
      match ParseDelim(t, ',')
      case None => None
      case Some(u) =>
        match ParseReg(u)
        case None => None
        case Some((rb, _)) => Some(Regs(ra, rb))
  }

  function ParseImmReg(s: string): Option<Args> {
    match ParseImm(s)
    case None => None
    case Some((op, t)) =>
      match ParseDelim(t, ',')
      case None => None
      case Some(u) =>
        match ParseReg(u)
        case None => None
        case Some((rb, _)) => Some(ImmReg(op, rb))
  }

  function ParseMemReg(s: string): Option<Args> {
    match ParseMem(s)
    case None => None
    case Some(((disp, base), t)) =>
      match ParseDelim(t, ',')
      case None => None
      case Some(u) =>
        match ParseReg(u)
        case None => None
        case Some((reg, _)) => Some(MemReg(disp, base, reg))
  }

  function ParseRegMem(s: string): Option<Args> {
    match ParseReg(s)
    case None => None
    case Some((reg, t)) =>
      match ParseDelim(t, ',')
      case None => None
      case Some(u) =>
        match ParseMem(u)
        case None => None
        case Some(((disp, base), _)) => Some(RegMem(reg, disp, base))
  }

  /** The switch of parse_line. */
  function ParseArgs(inst: Inst, s: string): Option<Args> {
    if inst.icode in {I_NOP, I_HALT, I_RET} then Some(NoArgs)
    else if inst.icode in {I_RRMOVQ, I_ALU} then ParseRegs(s)
    else if inst.icode in {I_PUSHQ, I_POPQ} then
      match ParseReg(s) { case None => None case Some((ra, _)) => Some(OneReg(ra)) }
    else if inst.icode == I_IRMOVQ then ParseImmReg(s)
    else if inst.icode == I_MRMOVQ then ParseMemReg(s)
    else if inst.icode == I_RMMOVQ then ParseRegMem(s)
    else if inst.icode in {I_JMP, I_CALL} then
      match ParseImm(s) { case None => None case Some((op, _)) => Some(Dest(op)) }
    else if inst.icode == I_DIRECTIVE && inst.fun == D_DATA then
      match ParseData(s) { case None => None case Some((op, _)) => Some(Data(op)) }
    else if inst.icode == I_DIRECTIVE && (inst.fun == D_POS || inst.fun == D_ALIGN) then
      match ParseDigit(s) { case None => None case Some((v, _)) => Some(Amount(v)) }
    else None
  }

  function ParseStmt(s: string): Option<Option<Stmt>> {
    match ParseInstr(s)
    case None => Some(None)
    case Some((row, t)) =>
      match ParseArgs(Row(row), t)
      case None => None
      case Some(args) => Some(Some(Stmt(row, args)))
  }

  /** What parse_line makes of a line, None being TYPE_ERR. */
  function ParseLine(text: string): Option<Line> {
    var s := SkipBlank(text);
    if s != [] && s[0] == '#' then Some(Line(None, None)) else
      var l := ParseLabel(s);
      match ParseStmt(if l.Some? then l.value.1 else s)
      case None => None
      case Some(stmt) => Some(Line(if l.Some? then Some(l.value.0) else None, stmt))
  }

  /** Only statements the table and the operand rules allow come out. */
  lemma ParsedIsValid(text: string)
    requires ParseLine(text).Some?
    ensures ValidLine(ParseLine(text).value)
  {
    hide Row, SkipBlank, ParseImm, ParseData, ParseMem, ParseLabel, ParseDigit, ParseDelim, ParseReg;
    var s := SkipBlank(text);
    if !(s != [] && s[0] == '#') {
      var l := ParseLabel(s);
      var t := if l.Some? then l.value.1 else s;
      if ParseInstr(t).Some? {
        ArgsFit(Row(ParseInstr(t).value.0), ParseInstr(t).value.1);
      }
    }
  }

  lemma ArgsFit(inst: Inst, s: string)
    requires ParseArgs(inst, s).Some?
    ensures Fits(inst, ParseArgs(inst, s).value)
  {
    hide SkipBlank, ParseImm, ParseData, ParseDigit, ParseDelim;
  }

  /** All lines of a source file; None when one does not parse. */
  function ParseAll(texts: seq<string>): (r: Option<seq<Line>>)
    ensures r.Some? ==> |r.value| == |texts|
  {
    if texts == [] then Some([]) else
      match ParseAll(texts[..|texts| - 1])
      case None => None
      case Some(ls) =>
        match ParseLine(texts[|texts| - 1])
        case None => None
        case Some(l) => Some(ls + [l])
  }

  lemma {:induction false} ParsedAllValid(texts: seq<string>)
    requires ParseAll(texts).Some?
    ensures forall k {:trigger ParseAll(texts).value[k]} | 0 <= k < |texts| :: ValidLine(ParseAll(texts).value[k])
  {
    if texts != [] {
      ParsedAllValid(texts[..|texts| - 1]);
      ParsedIsValid(texts[|texts| - 1]);
    }
  }
}
