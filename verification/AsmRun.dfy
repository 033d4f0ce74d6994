/** The assembler and the simulator together: nexti on the emitted image runs the
    assembly program.

    Programs have a meaning of their own, on a machine that knows registers by number and
    no encodings, with labels standing for addresses.  The simulator fetches back what was
    encoded, so that each of its steps is a step of the program; and as long as stores
    spare the code it stays that way. */
module AsmRun {
  import opened Wrappers
  import opened Words
  import opened SimMemory
  import opened Y86
  import opened Asm
  import opened AsmLayout
  import Y64Sim

  // ----- what assembly programs mean

  type Regs15 = r: seq<Word> | |r| == REG_NONE witness seq(REG_NONE, _ => 0)

  /** A machine that knows registers by number and no encodings. */
  datatype Sym = Sym(pc: int, regs: Regs15, mem: seq<Byte>, cc: Byte)

  predicate Executable(st: Stmt) {
    st.Inst().icode != I_DIRECTIVE
  }

  /** The value of an operand as a word. */
  function Word64(op: Operand, tab: seq<Symbol>): Word {
    Wrap(Value(op, tab))
  }

  function Push(t: Sym, v: Word, pc: int): (Status, Sym)
  {
    var rsp := Wrap(t.regs[RSP] as int - 8);
    match SetWord(t.mem, rsp, v)
    case None => (ADR, t)
    case Some(m) => (AOK, Sym(pc, t.regs[RSP := rsp], m, t.cc))
  }

  function ExecNoArgs(icode: nat, next: int, t: Sym): (Status, Sym)
  {
    if icode == I_HALT then (HLT, t)
    else if icode == I_NOP then (AOK, t.(pc := next))
    else
      match GetWord(t.mem, t.regs[RSP])
      case None => (ADR, t)
      case Some(v) => (AOK, t.(pc := v, regs := t.regs[RSP := Wrap(t.regs[RSP] as int + 8)]))
  }

  function ExecRegs(icode: nat, fun: nat, ra: Reg, rb: Reg, next: int, t: Sym): (Status, Sym)
  {
    var a, b := t.regs[ra], t.regs[rb];
    if icode == I_RRMOVQ then
      (AOK, t.(pc := next, regs := if Y64Sim.CondDoit(t.cc, fun) then t.regs[rb := a] else t.regs))
    else
      var v := ComputeAlu(fun, a, b);
      (AOK, t.(pc := next, regs := t.regs[rb := v], cc := Y64Sim.ComputeCC(fun, a, b, v)))
  }

  function ExecOneReg(icode: nat, ra: Reg, next: int, t: Sym): (Status, Sym)
  {
    if icode == I_PUSHQ then Push(t, t.regs[ra], next) else
      match GetWord(t.mem, t.regs[RSP])
      case None => (ADR, t)
      case Some(v) => (AOK, t.(pc := next, regs := t.regs[RSP := Wrap(t.regs[RSP] as int + 8)][ra := v]))
  }

  /** One statement; `next` is the address after it. */
  function Exec(st: Stmt, next: int, tab: seq<Symbol>, t: Sym): (Status, Sym)
    requires Fits(st.Inst(), st.args)
  {
    match st.args
    case NoArgs => ExecNoArgs(st.Inst().icode, next, t)
    case Regs(ra, rb) => ExecRegs(st.Inst().icode, st.Inst().fun, ra, rb, next, t)
    case OneReg(ra) => ExecOneReg(st.Inst().icode, ra, next, t)
    case ImmReg(op, rb) => (AOK, t.(pc := next, regs := t.regs[rb := Word64(op, tab)]))
    case MemReg(disp, base, reg) =>
      (match GetWord(t.mem, Wrap(disp + t.regs[base]))
       case None => (ADR, t)
       case Some(v) => (AOK, t.(pc := next, regs := t.regs[reg := v])))
    case RegMem(reg, disp, base) =>
      (match SetWord(t.mem, Wrap(disp + t.regs[base]), t.regs[reg])
       case None => (ADR, t)
       case Some(m) => (AOK, t.(pc := next, mem := m)))
    case Dest(op) =>
      if st.Inst().icode == I_CALL then Push(t, Wrap(next), Word64(op, tab))
      else (AOK, t.(pc := if Y64Sim.CondDoit(t.cc, st.Inst().fun) then Word64(op, tab) else next))
    case _ => (INS, t)
  }

  // ----- fetching what was assembled

  function Decoded(st: Stmt, tab: seq<Symbol>, pc: int): Y64Sim.Fetched {
    var i, f := st.Inst().icode, st.Inst().fun;
    match st.args
    case Regs(ra, rb) => Y64Sim.Fetched(i, f, ra, rb, 0, pc + 2)
    case OneReg(ra) => Y64Sim.Fetched(i, f, ra, REG_NONE, 0, pc + 2)
    case ImmReg(op, rb) => Y64Sim.Fetched(i, f, REG_NONE, rb, Word64(op, tab), pc + 2)
    case MemReg(disp, base, reg) => Y64Sim.Fetched(i, f, reg, base, disp, pc + 2)
    case RegMem(reg, disp, base) => Y64Sim.Fetched(i, f, reg, base, disp, pc + 2)
    case Dest(op) => Y64Sim.Fetched(i, f, REG_NONE, REG_NONE, Word64(op, tab), pc + 1)
    case _ => Y64Sim.Fetched(i, f, REG_NONE, REG_NONE, 0, pc + 1)
  }

  ghost predicate Holds(m: seq<Byte>, at: int, s: seq<Byte>) {
    0 <= at && at + |s| <= |m| && m[at..at + |s|] == s
  }

  lemma HoldsParts(m: seq<Byte>, at: int, s: seq<Byte>, u: seq<Byte>)
    requires Holds(m, at, s + u)
    ensures Holds(m, at, s) && Holds(m, at + |s|, u)
    ensures forall i: nat | i < |s| :: GetByte(m, at + i) == Some(s[i])
  {
    var w := m[at..at + |s + u|];
    assert w[..|s|] == s && w[|s|..] == u;
    assert m[at..at + |s|] == w[..|s|];
    assert m[at + |s|..at + |s| + |u|] == w[|s|..];
    forall i: nat | i < |s| ensures GetByte(m, at + i) == Some(s[i]) {
      assert w[i] == m[at + i];
    }
  }

  lemma HoldsWord(m: seq<Byte>, at: int, v: int)
    requires Holds(m, at, Low(v, 8))
    ensures GetWord(m, at) == Some(Wrap(v))
  {
    hide Low, Join, Wrap;
    JoinEight(v);
  }

  /** An instruction with the operands and the length its code calls for. */
  predicate Instruction(st: Stmt) {
    var i := st.Inst();
    Fits(i, st.args) && i.icode < I_DIRECTIVE && i.fun < 16 && i.bytes == Length(i.icode)
  }

  /** Such are all that the table allows. */
  lemma TableInstruction(st: Stmt)
    requires ValidStmt(st) && Executable(st)
    ensures Instruction(st)
  {
    hide Row;
    TableRow(st.row);
  }

  /** nexti fetches the instruction that was encoded. */
  lemma FetchDecodes(m: seq<Byte>, pc: int, st: Stmt, tab: seq<Symbol>)
    requires Instruction(st) && Holds(m, pc, Codes(st, tab))
    ensures Y64Sim.Fetch(m, pc) == Some(Decoded(st, tab, pc))
  {
    hide Row;
    match st.args
    case Dest(op) => FetchDest(m, pc, st, Value(op, tab));
    case ImmReg(op, rb) => FetchLong(m, pc, st.Inst(), REG_NONE, rb, Value(op, tab));
    case MemReg(disp, base, reg) => FetchLong(m, pc, st.Inst(), reg, base, disp);
    case RegMem(reg, disp, base) => FetchLong(m, pc, st.Inst(), reg, base, disp);
    case Regs(ra, rb) => FetchShort(m, pc, st.Inst(), ra, rb);
    case OneReg(ra) => FetchShort(m, pc, st.Inst(), ra, REG_NONE);
    case NoArgs => FetchOne(m, pc, st.Inst());
    case _ =>
  }

  lemma FetchOne(m: seq<Byte>, pc: int, i: Inst)
    requires i.icode < 16 && i.fun < 16 && !Y64Sim.NeedsRegs(i.icode) && !Y64Sim.NeedsImm(i.icode)
    requires Holds(m, pc, [i.Code()])
    ensures Y64Sim.Fetch(m, pc) == Some(Y64Sim.Fetched(i.icode, i.fun, REG_NONE, REG_NONE, 0, pc + 1))
  {
    hide HPack, High, LowNibble;
    Unpacked(i.icode, i.fun);
    assert [i.Code()] + [] == [i.Code()];
    HoldsParts(m, pc, [i.Code()], []);
    assert GetByte(m, pc + 0) == Some(i.Code());
  }

  lemma FetchShort(m: seq<Byte>, pc: int, i: Inst, ra: nat, rb: nat)
    requires i.icode < 16 && i.fun < 16 && ra < 16 && rb < 16
    requires Y64Sim.NeedsRegs(i.icode) && !Y64Sim.NeedsImm(i.icode)
    requires Holds(m, pc, [i.Code(), HPack(ra, rb)])
    ensures Y64Sim.Fetch(m, pc) == Some(Y64Sim.Fetched(i.icode, i.fun, ra, rb, 0, pc + 2))
  {
    hide HPack, High, LowNibble;
    Unpacked(i.icode, i.fun);
    Unpacked(ra, rb);
    var s := [i.Code(), HPack(ra, rb)];
    assert s + [] == s;
    HoldsParts(m, pc, s, []);
    assert GetByte(m, pc + 0) == Some(s[0]) && GetByte(m, pc + 1) == Some(s[1]);
  }

  lemma FetchLong(m: seq<Byte>, pc: int, i: Inst, ra: nat, rb: nat, v: int)
    requires i.icode < 16 && i.fun < 16 && ra < 16 && rb < 16
    requires Y64Sim.NeedsRegs(i.icode) && Y64Sim.NeedsImm(i.icode)
    requires Holds(m, pc, [i.Code(), HPack(ra, rb)] + Low(v, 8))
    ensures Y64Sim.Fetch(m, pc) == Some(Y64Sim.Fetched(i.icode, i.fun, ra, rb, Wrap(v), pc + 2))
  {
    hide HPack, High, LowNibble, GetWord, Low, Wrap;
    Unpacked(i.icode, i.fun);
    Unpacked(ra, rb);
    var s := [i.Code(), HPack(ra, rb)];
    HoldsParts(m, pc, s, Low(v, 8));
    assert GetByte(m, pc + 0) == Some(s[0]) && GetByte(m, pc + 1) == Some(s[1]);
    HoldsWord(m, pc + 2, v);
  }

  lemma FetchDest(m: seq<Byte>, pc: int, st: Stmt, v: int)
    requires st.Inst().icode < 16 && st.Inst().fun < 16
    requires !Y64Sim.NeedsRegs(st.Inst().icode) && Y64Sim.NeedsImm(st.Inst().icode)
    requires Holds(m, pc, [st.Inst().Code()] + Low(v, 8))
    ensures Y64Sim.Fetch(m, pc) ==
            Some(Y64Sim.Fetched(st.Inst().icode, st.Inst().fun, REG_NONE, REG_NONE, Wrap(v), pc + 1))
  {
    hide HPack, High, LowNibble, GetWord, Low, Wrap;
    Unpacked(st.Inst().icode, st.Inst().fun);
    var s := [st.Inst().Code()];
    HoldsParts(m, pc, s, Low(v, 8));
    assert GetByte(m, pc + 0) == Some(s[0]);
    HoldsWord(m, pc + 1, v);
  }

  // ----- one step

  ghost predicate RegsMatch(r: seq<Byte>, regs: seq<Word>) {
    RegFile(r) && |regs| == REG_NONE && forall i: nat {:trigger RegVal(r, i)} | i < REG_NONE :: RegVal(r, i) == regs[i]
  }

  ghost predicate Matches(s: State, t: Sym) {
    s.pc == t.pc && s.mem == t.mem && s.cc == t.cc && RegsMatch(s.regs, t.regs)
  }

  ghost predicate OutcomesMatch(n: Outcome, e: (Status, Sym)) {
    n.0 == e.0 && (n.0 == AOK ==> Matches(n.1, e.1))
  }

  lemma WriteMatches(r: seq<Byte>, regs: seq<Word>, id: nat, v: Word)
    requires RegsMatch(r, regs) && id < REG_NONE
    ensures RegsMatch(WithReg(r, id, v), regs[id := v])
  {
    hide RegVal, WithReg;
    forall i: nat | i < REG_NONE ensures RegVal(WithReg(r, id, v), i) == regs[id := v][i] {
      RegGetSet(r, id, v, i);
    }
  }

  lemma MovesMatch(s: State, t: Sym, st: Stmt, tab: seq<Symbol>, pc: int)
    requires Matches(s, t) && Fits(st.Inst(), st.args) && pc == s.pc
    requires st.args.Regs? || st.args.ImmReg? || st.args.MemReg? || st.args.RegMem?
    ensures OutcomesMatch(Y64Sim.Execute(s, Decoded(st, tab, pc)), Exec(st, pc + Length(st.Inst().icode), tab, t))
  {
    hide RegVal, WithReg, RegsMatch, GetWord, SetWord, ComputeAlu, Wrap, Word64, Y64Sim.ComputeCC, Y64Sim.CondDoit;
    match st.args
    case Regs(ra, rb) =>
      Reads(s.regs, t.regs, ra);
      Reads(s.regs, t.regs, rb);
      WriteMatches(s.regs, t.regs, rb, t.regs[ra]);
      WriteMatches(s.regs, t.regs, rb, ComputeAlu(st.Inst().fun, t.regs[ra], t.regs[rb]));
    case ImmReg(op, rb) =>
      Reads(s.regs, t.regs, rb);
      WriteMatches(s.regs, t.regs, rb, Word64(op, tab));
    case MemReg(disp, base, reg) =>
      Reads(s.regs, t.regs, base);
      Reads(s.regs, t.regs, reg);
      var v := GetWord(t.mem, Wrap(disp + t.regs[base]));
      if v.Some? { WriteMatches(s.regs, t.regs, reg, v.value); }
    case RegMem(reg, disp, base) =>
      Reads(s.regs, t.regs, base);
      Reads(s.regs, t.regs, reg);
  }

  lemma Reads(r: seq<Byte>, regs: seq<Word>, i: nat)
    requires RegsMatch(r, regs) && i < REG_NONE
    ensures |regs| == REG_NONE && RegVal(r, i) == regs[i]
  {
    hide RegVal;
  }

  lemma JumpsMatch(s: State, t: Sym, st: Stmt, tab: seq<Symbol>, pc: int)
    requires Matches(s, t) && Fits(st.Inst(), st.args) && pc == s.pc && (st.args.NoArgs? || st.args.Dest?)
    ensures OutcomesMatch(Y64Sim.Execute(s, Decoded(st, tab, pc)), Exec(st, pc + Length(st.Inst().icode), tab, t))
  {
    hide RegVal, WithReg, RegsMatch, GetWord, SetWord, Wrap, Word64, Y64Sim.CondDoit;
    Reads(s.regs, t.regs, RSP);
    var rsp: int := t.regs[RSP];
    WriteMatches(s.regs, t.regs, RSP, Wrap(rsp - 8));
    WriteMatches(s.regs, t.regs, RSP, Wrap(rsp + 8));
  }

  lemma StackMatches(s: State, t: Sym, st: Stmt, tab: seq<Symbol>, pc: int)
    requires Matches(s, t) && Fits(st.Inst(), st.args) && pc == s.pc && st.args.OneReg?
    ensures OutcomesMatch(Y64Sim.Execute(s, Decoded(st, tab, pc)), Exec(st, pc + Length(st.Inst().icode), tab, t))
  {
    hide RegVal, WithReg, RegsMatch, GetWord, SetWord, Wrap;
    var ra := st.args.ra;
    Reads(s.regs, t.regs, RSP);
    Reads(s.regs, t.regs, ra);
    var rsp: int := t.regs[RSP];
    if st.Inst().icode == I_PUSHQ {
      WrapBack(rsp, 8);
      WriteMatches(s.regs, t.regs, RSP, Wrap(rsp - 8));
      Reads(WithReg(s.regs, RSP, Wrap(rsp - 8)), t.regs[RSP := Wrap(rsp - 8)], ra);
    } else {
      var v := GetWord(t.mem, rsp);
      if v.Some? {
        WriteMatches(s.regs, t.regs, ra, v.value);
        WriteMatches(WithReg(s.regs, ra, v.value), t.regs[ra := v.value], RSP, Wrap(rsp + 8));
        assert ra != RSP ==> t.regs[ra := v.value][RSP := Wrap(rsp + 8)] == t.regs[RSP := Wrap(rsp + 8)][ra := v.value];
        assert t.regs[RSP := Wrap(rsp + 8)][RSP := v.value] == t.regs[RSP := v.value];
      }
    }
  }

  /** Where memory holds the codes of a statement at the pc, nexti does what the statement
      means, and the pc moves on by the table's length. */
  lemma StepMatches(s: State, t: Sym, st: Stmt, tab: seq<Symbol>)
    requires Matches(s, t) && Instruction(st) && Holds(s.mem, s.pc, Codes(st, tab))
    ensures OutcomesMatch(Y64Sim.Nexti(s), Exec(st, t.pc + st.Inst().bytes, tab, t))
  {
    hide Y64Sim.Fetch, Y64Sim.Execute, Exec, Codes, Row, Decoded, OutcomesMatch;
    FetchDecodes(s.mem, s.pc, st, tab);
    match st.args
    case NoArgs => JumpsMatch(s, t, st, tab, s.pc);
    case Dest(_) => JumpsMatch(s, t, st, tab, s.pc);
    case OneReg(_) => StackMatches(s, t, st, tab, s.pc);
    case Regs(_, _) => MovesMatch(s, t, st, tab, s.pc);
    case ImmReg(_, _) => MovesMatch(s, t, st, tab, s.pc);
    case MemReg(_, _, _) => MovesMatch(s, t, st, tab, s.pc);
    case RegMem(_, _, _) => MovesMatch(s, t, st, tab, s.pc);
    case _ =>
  }

  // ----- whole runs

  /** The line whose instruction lies at pc. */
  function LineOf(r: seq<Bin>, ls: seq<Line>, pc: int): Option<Stmt>
    requires |r| == |ls|
  {
    if ls == [] then None
    else if ls[0].stmt.Some? && Executable(ls[0].stmt.value) && r[0].addr == pc then ls[0].stmt
    else LineOf(r[1..], ls[1..], pc)
  }

  /** The address a statement stores to. */
  function StoreAt(st: Stmt, t: Sym): Option<Word>
    requires Fits(st.Inst(), st.args)
  {
    match st.args
    case RegMem(_, disp, base) => Some(Wrap(disp + t.regs[base]))
    case OneReg(_) => if st.Inst().icode == I_PUSHQ then Some(Wrap(t.regs[RSP] as int - 8)) else None
    case Dest(_) => if st.Inst().icode == I_CALL then Some(Wrap(t.regs[RSP] as int - 8)) else None
    case _ => None
  }

  ghost predicate Apart(a: Option<Word>, b: Bin) {
    a.Some? ==> a.value + 8 <= b.addr || b.addr + |b.codes| <= a.value
  }

  /** A statement's store does not touch the code bytes of any instruction. */
  ghost predicate Spares(r: seq<Bin>, ls: seq<Line>, a: Option<Word>)
    requires |r| == |ls|
  {
    forall k {:trigger ls[k]} | 0 <= k < |ls| && ls[k].stmt.Some? && Executable(ls[k].stmt.value) :: Apart(a, r[k])
  }

  /** Memory holds the codes of every instruction. */
  ghost predicate CodeIn(m: seq<Byte>, r: seq<Bin>, ls: seq<Line>)
    requires |r| == |ls|
  {
    forall k {:trigger ls[k]} | 0 <= k < |ls| && ls[k].stmt.Some? && Executable(ls[k].stmt.value) ::
      Holds(m, r[k].addr, r[k].codes)
  }

  /** All lines hold the codes of their statements. */
  ghost predicate Coded(r: seq<Bin>, ls: seq<Line>, tab: seq<Symbol>) {
    && |r| == |ls| && ValidLines(ls)
    && forall k {:trigger ls[k]} | 0 <= k < |ls| && ls[k].stmt.Some? :: r[k].codes == Codes(ls[k].stmt.value, tab)
  }

  lemma {:induction false} LineOfIs(r: seq<Bin>, ls: seq<Line>, pc: int) returns (k: nat)
    requires |r| == |ls| && LineOf(r, ls, pc).Some?
    ensures k < |ls| && ls[k].stmt == LineOf(r, ls, pc) && Executable(ls[k].stmt.value) && r[k].addr == pc
  {
    if ls[0].stmt.Some? && Executable(ls[0].stmt.value) && r[0].addr == pc {
      k := 0;
    } else {
      k := LineOfIs(r[1..], ls[1..], pc);
      k := k + 1;
    }
  }

  lemma LineValid(r: seq<Bin>, ls: seq<Line>, tab: seq<Symbol>, pc: int) returns (k: nat)
    requires Coded(r, ls, tab) && LineOf(r, ls, pc).Some?
    ensures k < |ls| && ls[k].stmt == LineOf(r, ls, pc) && r[k].addr == pc
    ensures ValidStmt(LineOf(r, ls, pc).value) && Executable(LineOf(r, ls, pc).value)
    ensures r[k].codes == Codes(LineOf(r, ls, pc).value, tab)
  {
    hide Codes, ValidStmt;
    k := LineOfIs(r, ls, pc);
    assert ValidLine(ls[k]);
  }

  /** The program run for up to n steps, until it halts or fails. */
  ghost function SymRun(r: seq<Bin>, ls: seq<Line>, tab: seq<Symbol>, t: Sym, n: nat): (Status, Sym)
    requires Coded(r, ls, tab)
    decreases n
  {
    if n == 0 then (AOK, t) else
      match LineOf(r, ls, t.pc)
      case None => (INS, t)
      case Some(st) =>
        if !Fits(st.Inst(), st.args) then (INS, t) else
          var o := Exec(st, t.pc + st.Inst().bytes, tab, t);
          if o.0 != AOK then o else SymRun(r, ls, tab, o.1, n - 1)
  }

  /** On that run control only meets instructions, and stores spare the code. */
  ghost predicate Proper(r: seq<Bin>, ls: seq<Line>, tab: seq<Symbol>, t: Sym, n: nat)
    requires Coded(r, ls, tab)
    decreases n
  {
    n == 0 ||
      match LineOf(r, ls, t.pc)
      case None => false
      case Some(st) =>
        && Fits(st.Inst(), st.args)
        && Spares(r, ls, StoreAt(st, t))
        && var o := Exec(st, t.pc + st.Inst().bytes, tab, t); o.0 == AOK ==> Proper(r, ls, tab, o.1, n - 1)
  }

  /** A statement changes memory at most where it stores. */
  lemma ExecStores(st: Stmt, next: int, tab: seq<Symbol>, t: Sym)
    requires Fits(st.Inst(), st.args)
    ensures var a, m := StoreAt(st, t), Exec(st, next, tab, t).1.mem;
            m == t.mem || (a.Some? && exists v: Word :: SetWord(t.mem, a.value, v) == Some(m))
  {
    hide SetWord, GetWord, Wrap, ComputeAlu, Y64Sim.ComputeCC, Y64Sim.CondDoit, Word64;
    var a, m := StoreAt(st, t), Exec(st, next, tab, t).1.mem;
    match st.args
    case RegMem(reg, _, _) =>
      assert m == t.mem || SetWord(t.mem, a.value, t.regs[reg]) == Some(m);
    case OneReg(ra) =>
      assert m == t.mem || (a.Some? && SetWord(t.mem, a.value, t.regs[ra]) == Some(m));
    case Dest(_) =>
      assert m == t.mem || (a.Some? && SetWord(t.mem, a.value, Wrap(next)) == Some(m));
    case _ =>
  }

  lemma StoreSpares(m: seq<Byte>, a: int, v: Word, b: Bin)
    requires SetWord(m, a, v).Some? && Holds(m, b.addr, b.codes) && (a + 8 <= b.addr || b.addr + |b.codes| <= a)
    ensures Holds(SetWord(m, a, v).value, b.addr, b.codes)
  {
    hide Low, Patch;
    var x := SetWord(m, a, v).value;
    assert x[b.addr..b.addr + |b.codes|] == m[b.addr..b.addr + |b.codes|];
  }

  lemma CodeStays(r: seq<Bin>, ls: seq<Line>, tab: seq<Symbol>, st: Stmt, next: int, t: Sym)
    requires Coded(r, ls, tab) && Fits(st.Inst(), st.args)
    requires CodeIn(t.mem, r, ls) && Spares(r, ls, StoreAt(st, t))
    ensures CodeIn(Exec(st, next, tab, t).1.mem, r, ls)
  {
    hide Exec, StoreAt, Holds, SetWord, Codes;
    ExecStores(st, next, tab, t);
    var a, m := StoreAt(st, t), Exec(st, next, tab, t).1.mem;
    if m != t.mem {
      var v: Word :| SetWord(t.mem, a.value, v) == Some(m);
      forall k | 0 <= k < |ls| && ls[k].stmt.Some? && Executable(ls[k].stmt.value)
        ensures Holds(m, r[k].addr, r[k].codes)
      {
        StoreSpares(t.mem, a.value, v, r[k]);
      }
    }
  }

  /** Every run of the simulator on memory that holds the code is a run of the program. */
  lemma {:induction false} RunsMatch(r: seq<Bin>, ls: seq<Line>, tab: seq<Symbol>, s: State, t: Sym, n: nat)
    requires Coded(r, ls, tab) && Matches(s, t) && CodeIn(s.mem, r, ls) && Proper(r, ls, tab, t, n)
    ensures OutcomesMatch(Y64Sim.Run(s, n), SymRun(r, ls, tab, t, n))
    decreases n
  {
    hide Exec, StoreAt, Holds, Codes, LineOf, Matches, Y64Sim.Nexti, Spares, CodeIn;
    if n > 0 {
      var st := LineOf(r, ls, t.pc).value;
      var next := t.pc + st.Inst().bytes;
      StepFrom(r, ls, tab, s, t);
      var o := Exec(st, next, tab, t);
      if o.0 == AOK {
        CodeStays(r, ls, tab, st, next, t);
        SameMem(Y64Sim.Nexti(s).1, o.1);
        RunsMatch(r, ls, tab, Y64Sim.Nexti(s).1, o.1, n - 1);
      }
    }
  }

  lemma SameMem(s: State, t: Sym)
    requires Matches(s, t)
    ensures s.mem == t.mem && s.pc == t.pc
  {
  }

  lemma StepFrom(r: seq<Bin>, ls: seq<Line>, tab: seq<Symbol>, s: State, t: Sym)
    requires Coded(r, ls, tab) && Matches(s, t) && CodeIn(s.mem, r, ls) && LineOf(r, ls, t.pc).Some?
    ensures var st := LineOf(r, ls, t.pc).value;
            && Fits(st.Inst(), st.args) && CodeIn(t.mem, r, ls)
            && OutcomesMatch(Y64Sim.Nexti(s), Exec(st, t.pc + st.Inst().bytes, tab, t))
  {
    hide Exec, Holds, Codes, LineOf, RegsMatch, Y64Sim.Nexti, Fits;
    var _ := LineValid(r, ls, tab, t.pc);
    TableInstruction(LineOf(r, ls, t.pc).value);
    StepMatches(s, t, LineOf(r, ls, t.pc).value, tab);
  }

  // ----- from the source program to the run

  /** load_binfile; it also refuses a file that fills the memory exactly. */
  function Loaded(file: seq<Byte>, len: nat): Option<seq<Byte>> {
    if |file| >= len then None else Some(file + seq(len - |file|, _ => 0))
  }

  /** The machines start alike. */
  lemma StartMatches(m: seq<Byte>)
    ensures Matches(State(0, seq(128, _ => 0), m, PackCC(true, false, false)),
                    Sym(0, seq(REG_NONE, _ => 0), m, PackCC(true, false, false)))
  {
    hide Wrap, Join;
    var regs: seq<Byte> := seq(128, _ => 0);
    forall i: nat | i < REG_NONE ensures RegVal(regs, i) == 0 {
      ZeroWord(regs[i * 8..i * 8 + 8]);
      ZeroWraps();
    }
  }

  lemma ZeroWraps()
    ensures Wrap(0) == 0
  {
  }

  lemma LoadedHolds(file: seq<Byte>, len: nat, b: Bin)
    requires Loaded(file, len).Some? && Shows(file, b) && b.ins && b.codes != []
    ensures Holds(Loaded(file, len).value, b.addr, b.codes)
  {
    var m := Loaded(file, len).value;
    assert m[b.addr..b.addr + |b.codes|] == file[b.addr..b.addr + |b.codes|];
  }

  lemma LoadedCode(r: seq<Bin>, ls: seq<Line>, tab: seq<Symbol>, file: seq<Byte>, len: nat)
    requires Coded(r, ls, tab) && ShowsAll(file, r) && Loaded(file, len).Some?
    requires forall k {:trigger ls[k]} | 0 <= k < |ls| && ls[k].stmt.Some? :: r[k].ins
    ensures CodeIn(Loaded(file, len).value, r, ls)
  {
    hide Codes, Shows, Holds, Loaded;
    forall k | 0 <= k < |ls| && ls[k].stmt.Some? && Executable(ls[k].stmt.value)
      ensures Holds(Loaded(file, len).value, r[k].addr, r[k].codes)
    {
      assert ValidLine(ls[k]);
      NotEmpty(ls[k].stmt.value, tab);
      assert Shows(file, r[k]);
      LoadedHolds(file, len, r[k]);
    }
  }

  lemma NotEmpty(st: Stmt, tab: seq<Symbol>)
    requires ValidStmt(st) && Executable(st)
    ensures Codes(st, tab) != []
  {
    hide Row;
    TableRow(st.row);
    TableLength(st, tab);
  }

  /** Relocating changes neither addresses nor lengths. */
  lemma FinalExtents(r: seq<Bin>, lines: seq<Bin>, ls: seq<Line>, tab: seq<Symbol>)
    requires ValidLines(ls) && AllFinal(r, lines, ls, tab)
    requires forall k {:trigger ls[k]} | 0 <= k < |ls| :: lines[k] == BinOf(lines[k].addr, ls[k])
    ensures Coded(r, ls, tab)
    ensures forall k {:trigger r[k]} | 0 <= k < |r| ::
              r[k].ins == lines[k].ins && r[k].addr == lines[k].addr && |r[k].codes| == |lines[k].codes|
  {
    hide Codes, Raw;
    forall k | 0 <= k < |r|
      ensures r[k].ins == lines[k].ins && r[k].addr == lines[k].addr && |r[k].codes| == |lines[k].codes|
    {
      assert ValidLine(ls[k]) && lines[k] == BinOf(lines[k].addr, ls[k]);
      if ls[k].stmt.Some? { TableLength(ls[k].stmt.value, tab); }
    }
    forall k | 0 <= k < |ls| && ls[k].stmt.Some? ensures r[k].codes == Codes(ls[k].stmt.value, tab) {
      assert r[k] == Final(lines[k], ls[k], tab);
    }
  }

  /** A program that assembles, relocates, is written and loads: its lines as emitted. */
  ghost predicate Built(ls: seq<Line>, r: seq<Bin>, m: seq<Byte>) {
    && ValidLines(ls) && Wide(ls) && Assemble(ls).Some?
    && var a := Assemble(ls).value;
    && Patchable(a.lines, a.reltab) && Relocate(a.lines, a.reltab, a.symtab) == Some(r)
    && Written(r).Some? && Loaded(Written(r).value, |m|) == Some(m)
  }

  lemma BuiltHolds(ls: seq<Line>, r: seq<Bin>, m: seq<Byte>)
    requires Built(ls, r, m) && Agreeing(r)
    ensures Coded(r, ls, Assemble(ls).value.symtab) && CodeIn(m, r, ls)
  {
    hide Codes, Raw, Relocate, Written, Loaded, Assemble, Coded, CodeIn, Vm;
    var a := Assemble(ls).value;
    Relocated(ls, a.symtab);
    forall k | 0 <= k < |ls|
      ensures a.lines[k] == BinOf(a.lines[k].addr, ls[k]) && (ls[k].stmt.Some? ==> a.lines[k].ins)
    {
      LineIs(ls, k);
      BinAddr(Addr(Vm(ls, k), ls[k]).value, ls[k]);
    }
    FinalExtents(r, a.lines, ls, a.symtab);
    FileShowsLines(r);
    forall k | 0 <= k < |ls| && ls[k].stmt.Some? ensures r[k].ins {
      assert a.lines[k] == BinOf(a.lines[k].addr, ls[k]);
    }
    LoadedCode(r, ls, a.symtab, Written(r).value, |m|);
  }

  /** The lines of a program that only moves forward do not conflict. */
  lemma ForwardAgrees(ls: seq<Line>, r: seq<Bin>, m: seq<Byte>)
    requires Built(ls, r, m) && Forward(ls)
    ensures Agreeing(r)
  {
    hide Codes, Raw, Relocate, Written, Loaded, Assemble, Forward, Vm;
    var a := Assemble(ls).value;
    Relocated(ls, a.symtab);
    OrderedIff(ls);
    forall k | 0 <= k < |ls| ensures a.lines[k] == BinOf(a.lines[k].addr, ls[k]) {
      LineIs(ls, k);
      BinAddr(Addr(Vm(ls, k), ls[k]).value, ls[k]);
    }
    FinalExtents(r, a.lines, ls, a.symtab);
    forall i: nat, k: nat | i < k < |r| ensures Before(r[i], r[k]) { assert Before(a.lines[i], a.lines[k]); }
    OrderedAgree(r);
  }

  lemma BinAddr(addr: int, l: Line)
    ensures BinOf(addr, l) == BinOf(BinOf(addr, l).addr, l) && (l.stmt.Some? ==> BinOf(addr, l).ins)
  {
    hide Raw;
  }

  /** Assembled without conflicting lines, loaded and started, the simulator
      runs the program with its labels standing for line addresses, for any number of
      steps, as long as the program stays on its instructions and stores nothing over them. */
  lemma AssembledProgramRuns(ls: seq<Line>, r: seq<Bin>, m: seq<Byte>, n: nat)
    requires Built(ls, r, m) && Agreeing(r)
    ensures Coded(r, ls, Assemble(ls).value.symtab)
    ensures var tab, cc := Assemble(ls).value.symtab, PackCC(true, false, false);
            var s, t := State(0, seq(128, _ => 0), m, cc), Sym(0, seq(REG_NONE, _ => 0), m, cc);
            Proper(r, ls, tab, t, n) ==> OutcomesMatch(Y64Sim.Run(s, n), SymRun(r, ls, tab, t, n))
  {
    hide Coded, Matches, Agreeing, Y64Sim.Run, SymRun, Proper, OutcomesMatch, Assemble, Relocate, Written, Loaded;
    var tab, cc := Assemble(ls).value.symtab, PackCC(true, false, false);
    var s, t := State(0, seq(128, _ => 0), m, cc), Sym(0, seq(REG_NONE, _ => 0), m, cc);
    BuiltHolds(ls, r, m);
    StartMatches(m);
    assert Matches(s, t);
    if Proper(r, ls, tab, t, n) { RunsMatch(r, ls, tab, s, t, n); }
  }
}
