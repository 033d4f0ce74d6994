/** What the texts of the Y86-64 language do in the simulators, mnemonic by mnemonic.

    A text is read by the parser of lab5/y64asm.c, its codes lie in memory at the pc, and
    lab4/y64sim.c and lab6/sim/misc/isa.c each take a step.  The effects are written out
    on the registers by number, the memory and the pc. */
module AsmMeaning {
  import opened Bits
  import opened Wrappers
  import opened Words
  import opened SimMemory
  import opened Y86
  import opened Asm
  import opened AsmText
  import opened AsmPrint
  import opened AsmBytes
  import opened AsmRun
  import Y64Sim
  import Isa
  import SimAgree

  /** The fifteen registers. */
  function Values(s: State): Regs15 {
    seq(REG_NONE, i requires 0 <= i => RegVal(s.regs, i))
  }

  ghost predicate Leaves(o: Outcome, pc: int, regs: seq<Word>, mem: seq<Byte>) {
    o.0 == AOK && o.1.pc == pc && Values(o.1) == regs && o.1.mem == mem
  }

  /** Both simulators take a step to the same pc, registers and memory ... */
  ghost predicate BothStep(s: State, pc: int, regs: seq<Word>, mem: seq<Byte>) {
    Leaves(Y64Sim.Nexti(s), pc, regs, mem) && Leaves(Isa.StepState(s), pc, regs, mem)
  }

  /** ... or both report a bad address. */
  predicate BothStop(s: State) {
    Y64Sim.Nexti(s).0 == ADR && Isa.StepState(s).0 == ADR
  }

  /** The text is a statement and its codes lie at the pc. */
  ghost predicate AtPc(s: State, text: string, tab: seq<Symbol>) {
    && RegFile(s.regs)
    && ParseLine(text).Some? && ParseLine(text).value.stmt.Some? && ValidStmt(ParseLine(text).value.stmt.value)
    && Holds(s.mem, s.pc, Codes(ParseLine(text).value.stmt.value, tab))
  }

  // ----- from statements to both simulators

  lemma Viewed(s: State)
    requires RegFile(s.regs)
    ensures Matches(s, Sym(s.pc, Values(s), s.mem, s.cc))
  {
    hide RegVal;
  }

  lemma ViewIs(s: State, t: Sym)
    requires Matches(s, t)
    ensures Values(s) == t.regs
  {
    hide RegVal;
  }

  /** Assembled codes are strict encodings. */
  lemma CodesStrict(s: State, st: Stmt, tab: seq<Symbol>)
    requires Instruction(st) && Holds(s.mem, s.pc, Codes(st, tab))
    ensures SimAgree.Strict(s)
  {
    hide Codes, Y64Sim.Fetch, Isa.Fetch, Holds, Row, Word64;
    FetchDecodes(s.mem, s.pc, st, tab);
    SimAgree.FetchesAgree(s.mem, s.pc);
  }

  lemma IsaFetches(s: State, st: Stmt, tab: seq<Symbol>)
    requires Instruction(st) && Holds(s.mem, s.pc, Codes(st, tab))
    ensures Isa.Fetch(s.mem, s.pc).Some? && SimAgree.SameFetch(Decoded(st, tab, s.pc), Isa.Fetch(s.mem, s.pc).value)
  {
    hide Codes, Y64Sim.Fetch, Isa.Fetch, Holds, Row, Word64, SimAgree.SameFetch;
    FetchDecodes(s.mem, s.pc, st, tab);
    SimAgree.FetchesAgree(s.mem, s.pc);
  }

  /** Where nexti finds an address outside memory, so does step_state. */
  lemma StopsAlike(s: State, st: Stmt, tab: seq<Symbol>)
    requires RegFile(s.regs) && Instruction(st) && Holds(s.mem, s.pc, Codes(st, tab)) && Y64Sim.Nexti(s).0 == ADR
    ensures Isa.StepState(s).0 == ADR
  {
    hide Codes, Y64Sim.Fetch, Isa.Fetch, Y64Sim.Execute, Isa.Execute, Holds, Row, Word64, Decoded;
    FetchDecodes(s.mem, s.pc, st, tab);
    IsaFetches(s, st, tab);
    AddressesAlike(s, Decoded(st, tab, s.pc), Isa.Fetch(s.mem, s.pc).value);
  }

  lemma AddressesAlike(s: State, f: Y64Sim.Fetched, g: Isa.Fetched)
    requires SimAgree.SameFetch(f, g) && Y64Sim.Execute(s, f).0 == ADR
    ensures Isa.Execute(s, g).0 == ADR
  {
    hide RegVal, WithReg, Wrap, ComputeAlu, Y64Sim.ComputeCC, Isa.ComputeCC, Y64Sim.CondDoit, Isa.CondHolds;
  }

  /** Both do what the statement means. */
  lemma Effect(s: State, st: Stmt, tab: seq<Symbol>)
    requires RegFile(s.regs) && ValidStmt(st) && Executable(st) && Holds(s.mem, s.pc, Codes(st, tab))
    ensures var e := Exec(st, s.pc + Length(st.Inst().icode), tab, Sym(s.pc, Values(s), s.mem, s.cc));
            && Y64Sim.Nexti(s).0 == e.0
            && (e.0 == AOK ==> BothStep(s, e.1.pc, e.1.regs, e.1.mem))
            && (e.0 == ADR ==> BothStop(s))
  {
    hide Exec, Codes, Values, Y64Sim.Nexti, Isa.StepState, RegsMatch, Row, Holds, SimAgree.Strict;
    var t := Sym(s.pc, Values(s), s.mem, s.cc);
    Viewed(s);
    TableInstruction(st);
    StepMatches(s, t, st, tab);
    CodesStrict(s, st, tab);
    SimAgree.SimulatorsAgree(s);
    var n := Y64Sim.Nexti(s);
    if n.0 == ADR { StopsAlike(s, st, tab); }
    if n.0 == AOK {
      ViewIs(n.1, Exec(st, s.pc + st.Inst().bytes, tab, t).1);
      SameView(n.1, Isa.StepState(s).1);
    }
  }

  lemma SameView(s: State, t: State)
    ensures s.regs == t.regs ==> Values(s) == Values(t)
  {
  }

  lemma ReadHere(s: State, text: string, tab: seq<Symbol>, st: Stmt)
    requires AtPc(s, text, tab) && Parses(text, st)
    ensures RegFile(s.regs) && ValidStmt(st) && Holds(s.mem, s.pc, Codes(st, tab))
  {
    hide ParseLine, Codes, Holds, ValidStmt;
  }

  // ----- words in memory

  ghost predicate InMemory(m: seq<Byte>, addr: int) {
    0 <= addr && addr + 8 <= |m|
  }

  /** The eight bytes of v lie at addr. */
  ghost predicate WordAt(m: seq<Byte>, addr: int, v: Word) {
    InMemory(m, addr) && m[addr..addr + 8] == Low(v, 8)
  }

  ghost function Stored(m: seq<Byte>, addr: int, v: Word): seq<Byte>
    requires InMemory(m, addr)
  {
    m[..addr] + Low(v, 8) + m[addr + 8..]
  }

  lemma WordRead(m: seq<Byte>, addr: int) returns (v: Word)
    ensures GetWord(m, addr).None? <==> !InMemory(m, addr)
    ensures InMemory(m, addr) ==> WordAt(m, addr, v) && GetWord(m, addr) == Some(v)
  {
    hide Low;
    v := if GetWord(m, addr).Some? then GetWord(m, addr).value else 0;
    GetWordIff(m, addr, v);
  }

  // ----- conditions and operations

  /** The conditions in the order of their numbers. */
  predicate Condition(i: nat, cc: Byte)
    requires i < 7
  {
    var z, l := ZF(cc) == 1, SF(cc) != OF(cc);
    [true, l || z, l, z, !z, !l, !l && !z][i]
  }

  lemma ConditionIs(i: nat, cc: Byte)
    requires i < 7
    ensures Y64Sim.CondDoit(cc, i) == Isa.CondHolds(cc, i) == Condition(i, cc)
  {
    hide Y64Sim.CondDoit, Isa.CondHolds, ZF, SF, OF;
    SimAgree.SameConditions(cc, i);
    Isa.CondTable(cc, i);
  }

  /** What the operations make of %a and %b. */
  ghost predicate Result(i: nat, x: Word, y: Word, v: Word)
    requires i < 4
  {
    if i == 0 then (v - (x + y)) % TWO_64 == 0
    else if i == 1 then (v - (y - x)) % TWO_64 == 0
    else if i == 2 then forall k: nat :: BitOf(v, k) == 1 <==> BitOf(x, k) == 1 && BitOf(y, k) == 1
    else forall k: nat :: BitOf(v, k) == 1 <==> BitOf(x, k) != BitOf(y, k)
  }

  lemma ResultIs(i: nat, x: Word, y: Word)
    requires i < 4
    ensures Result(i, x, y, ComputeAlu(i, x, y))
  {
    hide ComputeAlu, BitOf;
    AluSums(x, y);
    var v := ComputeAlu(i, x, y);
    if i == 2 {
      forall k: nat ensures BitOf(v, k) == 1 <==> BitOf(x, k) == 1 && BitOf(y, k) == 1 { AluBits(x, y, k); }
    } else if i == 3 {
      forall k: nat ensures BitOf(v, k) == 1 <==> BitOf(x, k) != BitOf(y, k) { AluBits(x, y, k); }
    }
  }

  // ----- the effect of each mnemonic

  lemma NopRuns(s: State, tab: seq<Symbol>)
    requires AtPc(s, "nop", tab)
    ensures BothStep(s, s.pc + 1, Values(s), s.mem)
  {
    hide AtPc, Parses, Holds, Codes, BothStop, BothStep, Values;
    PlainRow(0, "nop");
    ReadHere(s, "nop", tab, Stmt(0, NoArgs));
    Effect(s, Stmt(0, NoArgs), tab);
  }

  /** The rows of the operations, moves and jumps. */
  lemma RowsAre(i: nat)
    ensures i < 4 ==> Row(12 + i) == Inst(I_ALU, i, 2)
    ensures i < 7 ==> Row(2 + i) == Inst(I_RRMOVQ, i, 2) && Row(16 + i) == Inst(I_JMP, i, 9)
  {
  }

  lemma OperationRuns(s: State, i: nat, a: Reg, b: Reg, tab: seq<Symbol>) returns (v: Word)
    requires i < 4 && AtPc(s, Operation(i) + TwoRegs(a, b), tab)
    ensures Result(i, Values(s)[a], Values(s)[b], v)
    ensures BothStep(s, s.pc + 2, Values(s)[b := v], s.mem)
  {
    hide AtPc, Parses, Holds, Codes, BothStop, BothStep, Values, Result, ComputeAlu, Operation, TwoRegs, Row;
    RowsAre(i);
    var st := Stmt(12 + i, Regs(a, b));
    OperationRow(i, a, b);
    ReadHere(s, Operation(i) + TwoRegs(a, b), tab, st);
    Effect(s, st, tab);
    v := ComputeAlu(i, Values(s)[a], Values(s)[b]);
    ResultIs(i, Values(s)[a], Values(s)[b]);
  }

  lemma MoveRuns(s: State, i: nat, a: Reg, b: Reg, tab: seq<Symbol>)
    requires i < 7 && AtPc(s, Move(i) + TwoRegs(a, b), tab)
    ensures BothStep(s, s.pc + 2, if Condition(i, s.cc) then Values(s)[b := Values(s)[a]] else Values(s), s.mem)
  {
    hide AtPc, Parses, Holds, Codes, BothStop, BothStep, Values, Condition, Y64Sim.CondDoit, Move, TwoRegs, Row;
    RowsAre(i);
    var st := Stmt(2 + i, Regs(a, b));
    MoveRow(i, a, b);
    ReadHere(s, Move(i) + TwoRegs(a, b), tab, st);
    Effect(s, st, tab);
    ConditionIs(i, s.cc);
  }

  /** Operands are words, labels addresses modulo 2^64. */
  lemma ImmediateRuns(s: State, op: Operand, b: Reg, style: Style, tab: seq<Symbol>)
    requires Usable(op) && AtPc(s, "irmovq" + (" " + ImmText(op, style) + ", " + RegText(b)), tab)
    ensures BothStep(s, s.pc + 10, Values(s)[b := Wrap(Value(op, tab))], s.mem)
  {
    hide AtPc, Parses, Holds, Codes, BothStop, BothStep, Values, Wrap, Value, RegText, ImmText;
    var st := Stmt(9, ImmReg(op, b));
    ImmediateRow(op, b, style);
    ReadHere(s, "irmovq" + (" " + ImmText(op, style) + ", " + RegText(b)), tab, st);
    Effect(s, st, tab);
  }

  lemma StoreRuns(s: State, a: Reg, disp: Word, base: Reg, style: Style, tab: seq<Symbol>)
    requires AtPc(s, "rmmovq" + (" " + RegText(a) + ", " + MemText(disp, base, style)), tab)
    ensures var addr := Wrap(disp + Values(s)[base]);
            if InMemory(s.mem, addr) then BothStep(s, s.pc + 10, Values(s), Stored(s.mem, addr, Values(s)[a]))
            else BothStop(s)
  {
    hide AtPc, Parses, Holds, Codes, BothStop, BothStep, Values, Wrap, RegText, MemText, Low;
    var st := Stmt(10, RegMem(a, disp, base));
    StoreRow(a, disp, base, style);
    ReadHere(s, "rmmovq" + (" " + RegText(a) + ", " + MemText(disp, base, style)), tab, st);
    Effect(s, st, tab);
  }

  lemma LoadRuns(s: State, a: Reg, disp: Word, base: Reg, style: Style, tab: seq<Symbol>) returns (v: Word)
    requires AtPc(s, "mrmovq" + (" " + MemText(disp, base, style) + ", " + RegText(a)), tab)
    ensures var addr := Wrap(disp + Values(s)[base]);
            if InMemory(s.mem, addr) then WordAt(s.mem, addr, v) && BothStep(s, s.pc + 10, Values(s)[a := v], s.mem)
            else BothStop(s)
  {
    hide AtPc, Parses, Holds, Codes, BothStop, BothStep, Values, Wrap, RegText, MemText, Low, GetWord, InMemory, WordAt;
    var st := Stmt(11, MemReg(disp, base, a));
    LoadRow(a, disp, base, style);
    ReadHere(s, "mrmovq" + (" " + MemText(disp, base, style) + ", " + RegText(a)), tab, st);
    Effect(s, st, tab);
    v := WordRead(s.mem, Wrap(disp + Values(s)[base]));
  }

  lemma JumpRuns(s: State, i: nat, op: Operand, style: Style, tab: seq<Symbol>)
    requires i < 7 && Usable(op) && AtPc(s, Jump(i) + (" " + ImmText(op, style)), tab)
    ensures BothStep(s, if Condition(i, s.cc) then Wrap(Value(op, tab)) else s.pc + 9, Values(s), s.mem)
  {
    hide AtPc, Parses, Holds, Codes, BothStop, BothStep, Values, Wrap, Value, ImmText, Condition, Y64Sim.CondDoit, Jump,
      Row;
    RowsAre(i);
    var st := Stmt(16 + i, Dest(op));
    JumpRow(i, op, style);
    ReadHere(s, Jump(i) + (" " + ImmText(op, style)), tab, st);
    Effect(s, st, tab);
    ConditionIs(i, s.cc);
  }

  /** The stack pointer is %rsp, register 4: it moves down by 8 and the word goes there. */
  ghost predicate Pushes(s: State, v: Word, pc: int) {
    var rsp := Wrap(Values(s)[4] as int - 8);
    if InMemory(s.mem, rsp) then BothStep(s, pc, Values(s)[4 := rsp], Stored(s.mem, rsp, v)) else BothStop(s)
  }

  lemma CallRuns(s: State, op: Operand, style: Style, tab: seq<Symbol>)
    requires Usable(op) && AtPc(s, "call" + (" " + ImmText(op, style)), tab)
    ensures Pushes(s, Wrap(s.pc + 9), Wrap(Value(op, tab)))
  {
    hide AtPc, Parses, Holds, Codes, BothStop, BothStep, Values, Wrap, Value, ImmText, Low;
    var st := Stmt(23, Dest(op));
    CallRow(op, style);
    ReadHere(s, "call" + (" " + ImmText(op, style)), tab, st);
    Effect(s, st, tab);
  }

  lemma PushRuns(s: State, a: Reg, tab: seq<Symbol>)
    requires AtPc(s, "pushq" + (" " + RegText(a)), tab)
    ensures Pushes(s, Values(s)[a], s.pc + 2)
  {
    hide AtPc, Parses, Holds, Codes, BothStop, BothStep, Values, Wrap, RegText, Low;
    var st := Stmt(25, OneReg(a));
    PushRow(a);
    ReadHere(s, "pushq" + (" " + RegText(a)), tab, st);
    Effect(s, st, tab);
  }

  /** The word at %rsp, which then moves up by 8. */
  ghost predicate Pops(s: State, v: Word, pc: int, regs: seq<Word>) {
    if InMemory(s.mem, Values(s)[4]) then WordAt(s.mem, Values(s)[4], v) && BothStep(s, pc, regs, s.mem)
    else BothStop(s)
  }

  lemma PopRuns(s: State, a: Reg, tab: seq<Symbol>) returns (v: Word)
    requires AtPc(s, "popq" + (" " + RegText(a)), tab)
    ensures Pops(s, v, s.pc + 2, Values(s)[4 := Wrap(Values(s)[4] as int + 8)][a := v])
  {
    hide AtPc, Parses, Holds, Codes, BothStop, BothStep, Values, Wrap, RegText, Low, GetWord, InMemory, WordAt;
    var st := Stmt(26, OneReg(a));
    PopRow(a);
    ReadHere(s, "popq" + (" " + RegText(a)), tab, st);
    Effect(s, st, tab);
    v := WordRead(s.mem, Values(s)[4]);
  }

  lemma RetRuns(s: State, tab: seq<Symbol>) returns (v: Word)
    requires AtPc(s, "ret", tab)
    ensures Pops(s, v, v, Values(s)[4 := Wrap(Values(s)[4] as int + 8)])
  {
    hide AtPc, Parses, Holds, Codes, BothStop, BothStep, Values, Wrap, Low, GetWord, InMemory, WordAt;
    PlainRow(24, "ret");
    ReadHere(s, "ret", tab, Stmt(24, NoArgs));
    Effect(s, Stmt(24, NoArgs), tab);
    v := WordRead(s.mem, Values(s)[4]);
  }

  // ----- halting, and the flags of step_state

  lemma HaltRuns(s: State, tab: seq<Symbol>)
    requires AtPc(s, "halt", tab)
    ensures Y64Sim.Nexti(s) == Isa.StepState(s) == (HLT, s)
  {
    hide AtPc, Parses, Holds, Codes, Y64Sim.Nexti, Isa.Fetch;
    PlainRow(1, "halt");
    ReadHere(s, "halt", tab, Stmt(1, NoArgs));
    TableInstruction(Stmt(1, NoArgs));
    IsaFetches(s, Stmt(1, NoArgs), tab);
    SimAgree.HaltsAlike(s);
  }

  /** After an operation, with x and y in its registers, step_state leaves v and these flags. */
  lemma IsaOperates(s: State, i: nat, a: Reg, b: Reg, tab: seq<Symbol>)
    requires i < 4 && AtPc(s, Operation(i) + TwoRegs(a, b), tab)
    ensures var x, y, t := Values(s)[a], Values(s)[b], Isa.StepState(s);
            t == (AOK, State(s.pc + 2, WithReg(s.regs, b, ComputeAlu(i, x, y)), s.mem, Isa.ComputeCC(i, x, y)))
  {
    hide AtPc, Parses, Holds, Codes, Isa.Fetch, ComputeAlu, Operation, TwoRegs, Isa.ComputeCC, WithReg, RegVal;
    var st := Stmt(12 + i, Regs(a, b));
    OperationRow(i, a, b);
    ReadHere(s, Operation(i) + TwoRegs(a, b), tab, st);
    TableInstruction(st);
    IsaFetches(s, st, tab);
  }

  lemma FlagsOf(i: nat, x: Word, y: Word)
    requires i < 4
    ensures var cc, v := Isa.ComputeCC(i, x, y), ComputeAlu(i, x, y);
            && ZF(cc) == Bit(v == 0) && SF(cc) == Bit(v < 0)
            && OF(cc) == Bit((i == 0 && !(-TWO_63 <= x + y < TWO_63)) || (i == 1 && !(-TWO_63 <= y - x < TWO_63)))
  {
    hide ComputeAlu, ZF, SF, OF, PackCC;
    var v := ComputeAlu(i, x, y);
    Unpack(v == 0, v < 0, Isa.Overflows(i, x, y, v));
    Isa.OverflowIsExact(x, y);
  }

  /** The flags say whether the result is zero, whether it is negative, and whether the true
      sum or difference is not a word; the logical operations clear the last. */
  lemma OperationFlags(s: State, i: nat, a: Reg, b: Reg, tab: seq<Symbol>)
    requires i < 4 && AtPc(s, Operation(i) + TwoRegs(a, b), tab)
    ensures var x, y := Values(s)[a], Values(s)[b];
            var t := Isa.StepState(s).1;
            && ZF(t.cc) == Bit(Values(t)[b] == 0)
            && SF(t.cc) == Bit(Values(t)[b] < 0)
            && OF(t.cc) == Bit((i == 0 && !(-TWO_63 <= x + y < TWO_63)) || (i == 1 && !(-TWO_63 <= y - x < TWO_63)))
  {
    hide AtPc, ComputeAlu, Operation, TwoRegs, ZF, SF, OF, Isa.ComputeCC, WithReg, RegVal, Isa.StepState;
    var x, y := Values(s)[a], Values(s)[b];
    Rooms(s, Operation(i) + TwoRegs(a, b), tab);
    IsaOperates(s, i, a, b, tab);
    FlagsOf(i, x, y);
    RegGetSet(s.regs, b, ComputeAlu(i, x, y), b);
  }

  lemma Rooms(s: State, text: string, tab: seq<Symbol>)
    ensures AtPc(s, text, tab) ==> RegFile(s.regs)
  {
  }

  /** Outside memory both report a bad address, and from D0 on a bad instruction. */
  lemma BadBytes(s: State)
    ensures !(0 <= s.pc < |s.mem|) ==> Y64Sim.Nexti(s) == Isa.StepState(s) == (ADR, s)
    ensures 0 <= s.pc < |s.mem| && s.mem[s.pc] >= 0xD0 ==> Y64Sim.Nexti(s) == Isa.StepState(s) == (INS, s)
  {
    if 0 <= s.pc < |s.mem| && s.mem[s.pc] >= 0xD0 { assert High(s.mem[s.pc]) >= 13; }
  }

  // ----- the instruction that only step_state has

  lemma IaddqFetched(m: seq<Byte>, pc: int, b: Reg, v: Word)
    requires Holds(m, pc, [0xC0, 0xF0 + b] + Low(v, 8))
    ensures Isa.Fetch(m, pc) == Some(Isa.Fetched(I_IADDQ, 0, true, 15, b, true, v, pc + 10))
    ensures Y64Sim.Fetch(m, pc) == Some(Y64Sim.Fetched(I_IADDQ, 0, REG_NONE, REG_NONE, 0, pc + 1))
  {
    hide GetWord, Low;
    var h := [0xC0, 0xF0 + b];
    HoldsParts(m, pc, h, Low(v, 8));
    assert GetByte(m, pc + 0) == Some(h[0]) && GetByte(m, pc + 1) == Some(h[1]);
    GetWordIff(m, pc + 2, v);
  }

  /** iaddq $v, %b has no mnemonic; as bytes step_state adds v to %b and sets the flags as for
      a sum, while nexti refuses it. */
  lemma IaddqRuns(s: State, b: Reg, v: Word)
    requires RegFile(s.regs) && Holds(s.mem, s.pc, [0xC0, 0xF0 + b] + Low(v, 8))
    ensures Y64Sim.Nexti(s) == (INS, s)
    ensures var y, t := Values(s)[b], Isa.StepState(s).1;
            && Leaves(Isa.StepState(s), s.pc + 10, Values(s)[b := Values(t)[b]], s.mem)
            && Result(0, v, y, Values(t)[b])
            && ZF(t.cc) == Bit(Values(t)[b] == 0) && SF(t.cc) == Bit(Values(t)[b] < 0)
            && OF(t.cc) == Bit(!(-TWO_63 <= v + y < TWO_63))
  {
    hide Isa.Fetch, Y64Sim.Fetch, Holds, ComputeAlu, ZF, SF, OF, Isa.ComputeCC, WithReg, RegVal, Result, Wrap,
      RegsMatch;
    var y := Values(s)[b];
    IaddqFetched(s.mem, s.pc, b, v);
    SumIs(v, y);
    ResultIs(0, v, y);
    FlagsOf(0, v, y);
    Viewed(s);
    WriteMatches(s.regs, Values(s), b, Wrap(y + v));
    ViewIs(Isa.StepState(s).1, Sym(s.pc + 10, Values(s)[b := Wrap(y + v)], s.mem, Isa.ComputeCC(A_ADD, v, y)));
  }

  lemma SumIs(x: Word, y: Word)
    ensures ComputeAlu(A_ADD, x, y) == Wrap(y + x)
  {
  }

  // ----- comparing and jumping

  /** How condition i compares y with x. */
  predicate Compares(i: nat, y: int, x: int)
    requires i < 7
  {
    [true, y <= x, y < x, y == x, y != x, y >= x, y > x][i]
  }

  lemma ComparesIs(i: nat, x: Word, y: Word)
    requires i < 7
    ensures Condition(i, Isa.ComputeCC(A_SUB, x, y)) == Compares(i, y, x)
  {
    hide Isa.ComputeCC, Condition, Isa.CondHolds;
    Isa.FlagsDecideOrder(x, y);
    ConditionIs(i, Isa.ComputeCC(A_SUB, x, y));
  }

  /** "subq %a, %b" and then "jle" jumps exactly when %b was at most %a as an integer, and so
      on for every jump, also where the difference wraps around. */
  lemma CompareAndJump(s: State, a: Reg, b: Reg, i: nat, op: Operand, style: Style, tab: seq<Symbol>)
    requires AtPc(s, Operation(1) + TwoRegs(a, b), tab)
    requires i < 7 && Usable(op) && AtPc(s.(pc := s.pc + 2), Jump(i) + (" " + ImmText(op, style)), tab)
    ensures var o := Isa.Run(s, 2);
            && o.0 == AOK
            && o.1.pc == if Compares(i, Values(s)[b], Values(s)[a]) then Wrap(Value(op, tab)) else s.pc + 11
  {
    hide Operation, TwoRegs, Isa.ComputeCC, Isa.StepState, WithReg, RegVal, Wrap, Value, ImmText, Jump, Compares,
      Condition, ParseLine, Holds, Codes, ComputeAlu;
    var t := Isa.StepState(s).1;
    IsaOperates(s, 1, a, b, tab);
    JumpRuns(t, i, op, style, tab);
    ComparesIs(i, Values(s)[a], Values(s)[b]);
    TwoSteps(s);
  }

  /** The conditional moves decide likewise. */
  lemma CompareAndMove(s: State, a: Reg, b: Reg, i: nat, c: Reg, d: Reg, tab: seq<Symbol>)
    requires AtPc(s, Operation(1) + TwoRegs(a, b), tab)
    requires i < 7 && AtPc(s.(pc := s.pc + 2), Move(i) + TwoRegs(c, d), tab)
    ensures var o, r := Isa.Run(s, 2), Values(Isa.StepState(s).1);
            && o.0 == AOK && o.1.pc == s.pc + 4
            && Values(o.1) == if Compares(i, Values(s)[b], Values(s)[a]) then r[d := r[c]] else r
  {
    hide Operation, TwoRegs, Isa.ComputeCC, Isa.StepState, WithReg, RegVal, Move, Compares, Condition, ParseLine, Holds,
      Codes, ComputeAlu;
    var t := Isa.StepState(s).1;
    IsaOperates(s, 1, a, b, tab);
    MoveRuns(t, i, c, d, tab);
    ComparesIs(i, Values(s)[a], Values(s)[b]);
    TwoSteps(s);
  }

  lemma TwoSteps(s: State)
    ensures Isa.StepState(s).0 == AOK ==> Isa.Run(s, 2) == Isa.StepState(Isa.StepState(s).1)
  {
    hide Isa.StepState;
    SimAgree.OneStep(Isa.StepState(s).1);
  }
}
