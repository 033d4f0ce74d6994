/** The tables of lab5/y64asm.c and what the assembler makes of a list of parsed lines.

    An instruction is a row of the table and its operands; assembling is a fold over the
    lines that keeps the address counter, the symbols, the references to labels and the
    codes.  Relocation and the binary file are functions of these tables. */
module Asm {
  import opened Wrappers
  import opened Words
  import opened Y86
  import Align

  const I_DIRECTIVE := 12
  const D_DATA := 0
  const D_POS := 1
  const D_ALIGN := 2
  const NO_REG: nat := 15

  // ----- the instruction table

  /** HPACK */
  function HPack(hi: nat, lo: nat): Byte {
    hi % 16 * 16 + lo % 16
  }

  lemma Unpacked(hi: nat, lo: nat)
    requires hi < 16 && lo < 16
    ensures High(HPack(hi, lo)) == hi && LowNibble(HPack(hi, lo)) == lo
  {
  }

  /** An entry of the table but for its name. */
  datatype Inst = Inst(icode: nat, fun: nat, bytes: nat) {
    function Code(): Byte { HPack(icode, fun) }
  }

  const ROWS: nat := 33

  type RowIndex = k: nat | k < ROWS

  /** A register the assembler knows. */
  type Reg = r: nat | r < NO_REG

  /** instr_set[k] */
  function Row(k: RowIndex): Inst {
    if k == 0 then Inst(I_NOP, 0, 1)
    else if k == 1 then Inst(I_HALT, 0, 1)
    else if k == 2 then Inst(I_RRMOVQ, 0, 2)
    else if k == 3 then Inst(I_RRMOVQ, C_LE, 2)
    else if k == 4 then Inst(I_RRMOVQ, C_L, 2)
    else if k == 5 then Inst(I_RRMOVQ, C_E, 2)
    else if k == 6 then Inst(I_RRMOVQ, C_NE, 2)
    else if k == 7 then Inst(I_RRMOVQ, C_GE, 2)
    else if k == 8 then Inst(I_RRMOVQ, C_G, 2)
    else if k == 9 then Inst(I_IRMOVQ, 0, 10)
    else if k == 10 then Inst(I_RMMOVQ, 0, 10)
    else if k == 11 then Inst(I_MRMOVQ, 0, 10)
    else if k == 12 then Inst(I_ALU, A_ADD, 2)
    else if k == 13 then Inst(I_ALU, A_SUB, 2)
    else if k == 14 then Inst(I_ALU, A_AND, 2)
    else if k == 15 then Inst(I_ALU, A_XOR, 2)
    else if k == 16 then Inst(I_JMP, C_YES, 9)
    else if k == 17 then Inst(I_JMP, C_LE, 9)
    else if k == 18 then Inst(I_JMP, C_L, 9)
    else if k == 19 then Inst(I_JMP, C_E, 9)
    else if k == 20 then Inst(I_JMP, C_NE, 9)
    else if k == 21 then Inst(I_JMP, C_GE, 9)
    else if k == 22 then Inst(I_JMP, C_G, 9)
    else if k == 23 then Inst(I_CALL, 0, 9)
    else if k == 24 then Inst(I_RET, 0, 1)
    else if k == 25 then Inst(I_PUSHQ, 0, 2)
    else if k == 26 then Inst(I_POPQ, 0, 2)
    else if k == 27 then Inst(I_DIRECTIVE, D_DATA, 1)
    else if k == 28 then Inst(I_DIRECTIVE, D_DATA, 2)
    else if k == 29 then Inst(I_DIRECTIVE, D_DATA, 4)
    else if k == 30 then Inst(I_DIRECTIVE, D_DATA, 8)
    else if k == 31 then Inst(I_DIRECTIVE, D_POS, 0)
    else Inst(I_DIRECTIVE, D_ALIGN, 0)
  }

  /** instr_set[k].name */
  function Name(k: RowIndex): string {
    if k == 0 then "nop"
    else if k == 1 then "halt"
    else if k == 2 then "rrmovq"
    else if k == 3 then "cmovle"
    else if k == 4 then "cmovl"
    else if k == 5 then "cmove"
    else if k == 6 then "cmovne"
    else if k == 7 then "cmovge"
    else if k == 8 then "cmovg"
    else if k == 9 then "irmovq"
    else if k == 10 then "rmmovq"
    else if k == 11 then "mrmovq"
    else if k == 12 then "addq"
    else if k == 13 then "subq"
    else if k == 14 then "andq"
    else if k == 15 then "xorq"
    else if k == 16 then "jmp"
    else if k == 17 then "jle"
    else if k == 18 then "jl"
    else if k == 19 then "je"
    else if k == 20 then "jne"
    else if k == 21 then "jge"
    else if k == 22 then "jg"
    else if k == 23 then "call"
    else if k == 24 then "ret"
    else if k == 25 then "pushq"
    else if k == 26 then "popq"
    else if k == 27 then ".byte"
    else if k == 28 then ".word"
    else if k == 29 then ".long"
    else if k == 30 then ".quad"
    else if k == 31 then ".pos"
    else ".align"
  }

  // ----- parsed lines

  datatype Operand = Imm(value: Word) | Label(name: string)

  datatype Args =
    | NoArgs
    | Regs(ra: Reg, rb: Reg)
    | OneReg(ra: Reg)
    | ImmReg(op: Operand, rb: Reg)
    | MemReg(disp: Word, base: Reg, reg: Reg)
    | RegMem(reg: Reg, disp: Word, base: Reg)
    | Dest(op: Operand)
    | Data(op: Operand)
    | Amount(value: Word)

  /** A row of the table with operands. */
  datatype Stmt = Stmt(row: RowIndex, args: Args) {
    function Inst(): Inst { Row(row) }
  }

  /** Comments and lines without a known instruction have neither part. */
  datatype Line = Line(defines: Option<string>, stmt: Option<Stmt>)

  /** The operands parse_line reads for each kind of instruction. */
  predicate Fits(inst: Inst, args: Args) {
    var hi, lo := inst.icode, inst.fun;
    match args
    case NoArgs => hi in {I_NOP, I_HALT, I_RET}
    case Regs(_, _) => hi in {I_RRMOVQ, I_ALU}
    case OneReg(_) => hi in {I_PUSHQ, I_POPQ}
    case ImmReg(_, _) => hi == I_IRMOVQ
    case MemReg(_, _, _) => hi == I_MRMOVQ
    case RegMem(_, _, _) => hi == I_RMMOVQ
    case Dest(_) => hi in {I_JMP, I_CALL}
    case Data(_) => hi == I_DIRECTIVE && lo == D_DATA
    case Amount(_) => hi == I_DIRECTIVE && (lo == D_POS || lo == D_ALIGN)
  }

  predicate ValidStmt(st: Stmt) {
    Fits(st.Inst(), st.args)
  }

  predicate ValidLine(l: Line) {
    l.stmt.Some? ==> ValidStmt(l.stmt.value)
  }

  /** The label a statement refers to. */
  function Target(st: Stmt): Option<string> {
    match st.args
    case ImmReg(Label(n), _) => Some(n)
    case Dest(Label(n)) => Some(n)
    case Data(Label(n)) => Some(n)
    case _ => None
  }

  // ----- encoding

  datatype Symbol = Symbol(name: string, addr: int)

  function FindSymbol(tab: seq<Symbol>, name: string): Option<int> {
    if tab == [] then None
    else if tab[0].name == name then Some(tab[0].addr)
    else FindSymbol(tab[1..], name)
  }

  /** What an operand stands for; unresolved labels are zero for the time being. */
  function Value(op: Operand, tab: seq<Symbol>): int {
    match op
    case Imm(v) => v
    case Label(n) => var r := FindSymbol(tab, n); if r.Some? then r.value else 0
  }

  /** The bytes a statement stands for, given what its label does. */
  function Codes(st: Stmt, tab: seq<Symbol>): seq<Byte> {
    var code := st.Inst().Code();
    match st.args
    case NoArgs => [code]
    case Regs(ra, rb) => [code, HPack(ra, rb)]
    case OneReg(ra) => [code, HPack(ra, NO_REG)]
    case ImmReg(op, rb) => [code, HPack(NO_REG, rb)] + Low(Value(op, tab), 8)
    case MemReg(disp, base, reg) => [code, HPack(reg, base)] + Low(disp, 8)
    case RegMem(reg, disp, base) => [code, HPack(reg, base)] + Low(disp, 8)
    case Dest(op) => [code] + Low(Value(op, tab), 8)
    case Data(op) => Low(Value(op, tab), st.Inst().bytes)
    case Amount(_) => []
  }

  /** What parse_line leaves in the line's code buffer: like Codes, with zeros for a
      label, except that a .quad of a label still starts with the table's code. */
  function Raw(st: Stmt): seq<Byte> {
    if st.args.Data? && st.args.op.Label? && st.Inst().bytes > 0 then
      Low(0, st.Inst().bytes)[0 := st.Inst().Code()]
    else Codes(st, [])
  }

  function Length(icode: nat): nat {
    if icode in {I_NOP, I_HALT, I_RET} then 1
    else if icode in {I_RRMOVQ, I_ALU, I_PUSHQ, I_POPQ} then 2
    else if icode in {I_JMP, I_CALL} then 9
    else 10
  }

  lemma TableRow(k: RowIndex)
    ensures var i := Row(k);
            && i.icode <= I_DIRECTIVE && i.fun < 16
            && (i.icode != I_DIRECTIVE ==> i.bytes == Length(i.icode))
            && (i.icode == I_DIRECTIVE ==> (i.fun == D_DATA <==> i.bytes > 0))
  {
  }

  /** The table's length is the number of bytes emitted. */
  lemma TableLength(st: Stmt, tab: seq<Symbol>)
    requires ValidStmt(st)
    ensures |Raw(st)| == |Codes(st, tab)| == st.Inst().bytes
    ensures st.args.Amount? <==> st.Inst().bytes == 0
  {
    hide Low, Row, Value;
    TableRow(st.row);
  }

  // ----- one line after another

  datatype Reloc = Reloc(line: nat, name: string)

  /** bin_t: the address and codes of a line; `ins` tells TYPE_INS from TYPE_COMM. */
  datatype Bin = Bin(ins: bool, addr: int, codes: seq<Byte>)

  datatype Tables = Tables(vmaddr: int, symtab: seq<Symbol>, reltab: seq<Reloc>, lines: seq<Bin>)

  const START := Tables(0, [], [], [])

  /** Where a statement met at vmaddr goes; None for a division by zero. */
  function Placed(vmaddr: int, st: Stmt): Option<int> {
    match st.args
    case Amount(v) =>
      if st.Inst().fun == D_POS then Some(v)
      else if v == 0 then None
      else Some(Align.AlignUp(vmaddr, v))
    case _ => Some(vmaddr)
  }

  function AddLabel(a: Tables, defines: Option<string>): Option<Tables> {
    match defines
    case None => Some(a)
    case Some(n) =>
      if FindSymbol(a.symtab, n).Some? then None
      else Some(a.(symtab := a.symtab + [Symbol(n, a.vmaddr)]))
  }

  /** The entry a line gets in the list of lines. */
  function BinOf(addr: int, l: Line): Bin {
    match l.stmt
    case None => Bin(l.defines.Some?, if l.defines.Some? then addr else 0, [])
    case Some(st) => Bin(true, addr, Raw(st))
  }

  function RelocsOf(k: nat, st: Stmt): seq<Reloc> {
    match Target(st)
    case None => []
    case Some(n) => [Reloc(k, n)]
  }

  function AddStmt(a: Tables, l: Line): Option<Tables> {
    match l.stmt
    case None => Some(a.(lines := a.lines + [BinOf(a.vmaddr, l)]))
    case Some(st) =>
      match Placed(a.vmaddr, st)
      case None => None
      case Some(addr) =>
        Some(Tables(addr + |Raw(st)|, a.symtab, a.reltab + RelocsOf(|a.lines|, st), a.lines + [BinOf(addr, l)]))
  }

  /** parse_line's effect on the tables. */
  function AddLine(a: Tables, l: Line): Option<Tables> {
    match AddLabel(a, l.defines)
    case None => None
    case Some(b) => AddStmt(b, l)
  }

  function Assemble(ls: seq<Line>): Option<Tables> {
    if ls == [] then Some(START) else
      match Assemble(ls[..|ls| - 1])
      case None => None
      case Some(a) => AddLine(a, ls[|ls| - 1])
  }

  // ----- relocation

  function PatchLine(b: Bin, value: int): Bin
    requires |b.codes| >= 8
  {
    b.(codes := Patch(b.codes, |b.codes| - 8, Low(value, 8)))
  }

  /** Every relocated line has a field of 8 bytes. */
  ghost predicate Patchable(lines: seq<Bin>, rel: seq<Reloc>) {
    forall j {:trigger rel[j]} | 0 <= j < |rel| :: rel[j].line < |lines| && |lines[rel[j].line].codes| >= 8
  }

  function Relocate(lines: seq<Bin>, rel: seq<Reloc>, tab: seq<Symbol>): (r: Option<seq<Bin>>)
    requires Patchable(lines, rel)
    ensures r.Some? ==> |r.value| == |lines|
    ensures r.Some? ==> forall k | 0 <= k < |lines| :: |r.value[k].codes| == |lines[k].codes|
  {
    if rel == [] then Some(lines) else
      var last := rel[|rel| - 1];
      assert rel[|rel| - 1] == last;
      assert Patchable(lines, rel[..|rel| - 1]) by { PatchablePrefix(lines, rel); }
      match Relocate(lines, rel[..|rel| - 1], tab)
      case None => None
      case Some(x) =>
        match FindSymbol(tab, last.name)
        case None => None
        case Some(addr) => Some(x[last.line := PatchLine(x[last.line], addr)])
  }

  lemma PatchablePrefix(lines: seq<Bin>, rel: seq<Reloc>)
    requires Patchable(lines, rel) && rel != []
    ensures Patchable(lines, rel[..|rel| - 1])
  {
    forall j | 0 <= j < |rel| - 1 ensures rel[j].line < |lines| && |lines[rel[j].line].codes| >= 8 {
      assert rel[..|rel| - 1][j] == rel[j];
    }
  }

  // ----- the binary file

  function Padded(file: seq<Byte>, n: nat): (r: seq<Byte>)
    ensures |r| == if |file| < n then n else |file|
    ensures forall i: nat | i < |r| :: r[i] == if i < |file| then file[i] else 0
  {
    if |file| >= n then file else file + seq(n - |file|, _ => 0)
  }

  /** fseek and fwrite. */
  function WriteAt(file: seq<Byte>, addr: nat, codes: seq<Byte>): seq<Byte> {
    if codes == [] then file else Patch(Padded(file, addr + |codes|), addr, codes)
  }

  /** binfile: None when a seek before the start of the file fails. */
  function Written(lines: seq<Bin>): Option<seq<Byte>> {
    if lines == [] then Some([]) else
      var b := lines[|lines| - 1];
      match Written(lines[..|lines| - 1])
      case None => None
      case Some(file) =>
        if !b.ins then Some(file)
        else if b.addr < 0 then None
        else Some(WriteAt(file, b.addr, b.codes))
  }
}
