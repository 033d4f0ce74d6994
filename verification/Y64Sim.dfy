/** lab4/y64sim.c: the instruction-set simulator nexti. */
module Y64Sim {
  import opened Bits
  import opened Words
  import opened Wrappers
  import opened SimMemory
  import opened Y86

  // ----- condition codes and conditions

  /** The C conversion (int) of a word. */
  function Int32(v: Word): int {
    (v + 0x8000_0000) % 0x1_0000_0000 - 0x8000_0000
  }

  predicate Overflows(op: nat, a: Word, b: Word, val: Word) {
    (op == A_ADD || op == A_SUB) && ((a > 0 && b > 0 && val < 0) || (a < 0 && b < 0 && val > 0))
  }

  function ComputeCC(op: nat, a: Word, b: Word, val: Word): Byte {
    PackCC(val == 0, Int32(val) < 0, Overflows(op, a, b, val))
  }

  function CondDoit(cc: Byte, cond: nat): bool {
    if cond == C_YES then true
    else if cond == C_LE then BitOr(BitXor(SF(cc), OF(cc)), ZF(cc)) != 0
    else if cond == C_L then BitXor(SF(cc), OF(cc)) != 0
    else if cond == C_E then ZF(cc) != 0
    else if cond == C_NE then ZF(cc) == 0
    else if cond == C_GE then BitXor(SF(cc), OF(cc)) == 0
    else if cond == C_G then BitAnd(Bit(BitXor(SF(cc), OF(cc)) == 0), Bit(ZF(cc) == 0)) != 0
    else false
  }

  // ----- fetching

  /** An instruction as fetched; `next` follows the register byte. */
  datatype Fetched = Fetched(icode: nat, ifun: nat, ra: nat, rb: nat, imm: Word, next: int)

  predicate NeedsRegs(icode: nat) {
    icode in {I_RRMOVQ, I_IRMOVQ, I_RMMOVQ, I_MRMOVQ, I_ALU, I_PUSHQ, I_POPQ}
  }

  predicate NeedsImm(icode: nat) {
    icode in {I_IRMOVQ, I_MRMOVQ, I_RMMOVQ, I_CALL, I_JMP}
  }

  predicate NormReg(id: nat) { id < REG_NONE }

  function FetchImm(m: seq<Byte>, f: Fetched): Option<Fetched> {
    if !NeedsImm(f.icode) then Some(f) else
      match GetWord(m, f.next)
      case None => None
      case Some(v) => Some(f.(imm := v))
  }

  function Fetch(m: seq<Byte>, pc: int): Option<Fetched> {
    match GetByte(m, pc)
    case None => None
    case Some(c) =>
      if !NeedsRegs(High(c)) then
        FetchImm(m, Fetched(High(c), LowNibble(c), REG_NONE, REG_NONE, 0, pc + 1))
      else
        match GetByte(m, pc + 1)
        case None => None
        case Some(r) => FetchImm(m, Fetched(High(c), LowNibble(c), High(r), LowNibble(r), 0, pc + 2))
  }

  // ----- executing

  function Rrmovq(s: State, f: Fetched): Outcome {
    if !NormReg(f.ra) || !NormReg(f.rb) then (INS, s) else
      (AOK, s.(pc := s.pc + 2,
               regs := if CondDoit(s.cc, f.ifun) then WithReg(s.regs, f.rb, RegVal(s.regs, f.ra)) else s.regs))
  }

  function Irmovq(s: State, f: Fetched): Outcome {
    if f.ra != REG_NONE || !NormReg(f.rb) then (INS, s) else
      (AOK, s.(pc := s.pc + 10, regs := WithReg(s.regs, f.rb, f.imm)))
  }

  function Rmmovq(s: State, f: Fetched): Outcome {
    if !NormReg(f.ra) || !NormReg(f.rb) then (INS, s) else
      match SetWord(s.mem, Wrap(f.imm + RegVal(s.regs, f.rb)), RegVal(s.regs, f.ra))
      case None => (ADR, s)
      case Some(m) => (AOK, s.(pc := s.pc + 10, mem := m))
  }

  function Mrmovq(s: State, f: Fetched): Outcome {
    if !NormReg(f.ra) || !NormReg(f.rb) then (INS, s) else
      match GetWord(s.mem, Wrap(f.imm + RegVal(s.regs, f.rb)))
      case None => (ADR, s)
      case Some(v) => (AOK, s.(pc := s.pc + 10, regs := WithReg(s.regs, f.ra, v)))
  }

  function Alu(s: State, f: Fetched): Outcome {
    if !NormReg(f.ra) || !NormReg(f.rb) then (INS, s) else
      var a, b := RegVal(s.regs, f.ra), RegVal(s.regs, f.rb);
      var res := ComputeAlu(f.ifun, a, b);
      (AOK, s.(pc := s.pc + 2, regs := WithReg(s.regs, f.rb, res), cc := ComputeCC(f.ifun, a, b, res)))
  }

  function Jmp(s: State, f: Fetched): Outcome {
    (AOK, s.(pc := if CondDoit(s.cc, f.ifun) then f.imm else f.next + 8))
  }

  function Call(s: State, f: Fetched): Outcome {
    var rsp := Wrap(RegVal(s.regs, RSP) - 8);
    PushTo(s, rsp, Wrap(f.next + 8), f.imm)
  }

  function Ret(s: State): Outcome {
    var rsp := RegVal(s.regs, RSP);
    match GetWord(s.mem, rsp)
    case None => (ADR, s)
    case Some(v) => (AOK, s.(pc := v, regs := WithReg(s.regs, RSP, Wrap(rsp + 8))))
  }

  function Pushq(s: State, f: Fetched): Outcome {
    if !NormReg(f.ra) || f.rb != REG_NONE then (INS, s) else
      var rsp := Wrap(RegVal(s.regs, RSP) - 8);
      var v := if f.ra == RSP then Wrap(rsp + 8) else RegVal(WithReg(s.regs, RSP, rsp), f.ra);
      PushTo(s, rsp, v, s.pc + 2)
  }

  function Popq(s: State, f: Fetched): Outcome {
    if !NormReg(f.ra) || f.rb != REG_NONE then (INS, s) else
      var rsp := RegVal(s.regs, RSP);
      match GetWord(s.mem, rsp)
      case None => (ADR, s)
      case Some(v) =>
        var r := WithReg(s.regs, f.ra, v);
        (AOK, s.(pc := s.pc + 2, regs := if f.ra == RSP then r else WithReg(r, RSP, Wrap(rsp + 8))))
  }

  function Execute(s: State, f: Fetched): Outcome {
    if f.icode == I_HALT then (HLT, s)
    else if f.icode == I_NOP then (AOK, s.(pc := f.next))
    else if f.icode == I_RRMOVQ then Rrmovq(s, f)
    else if f.icode == I_IRMOVQ then Irmovq(s, f)
    else if f.icode == I_RMMOVQ then Rmmovq(s, f)
    else if f.icode == I_MRMOVQ then Mrmovq(s, f)
    else if f.icode == I_ALU then Alu(s, f)
    else if f.icode == I_JMP then Jmp(s, f)
    else if f.icode == I_CALL then Call(s, f)
    else if f.icode == I_RET then Ret(s)
    else if f.icode == I_PUSHQ then Pushq(s, f)
    else if f.icode == I_POPQ then Popq(s, f)
    else (INS, s)
  }

  function Nexti(s: State): Outcome {
    match Fetch(s.mem, s.pc)
    case None => (ADR, s)
    case Some(f) => Execute(s, f)
  }

  /** The loop of main. */
  function Run(s: State, n: nat): Outcome
    decreases n
  {
    if n == 0 then (AOK, s) else
      var o := Nexti(s);
      if o.0 != AOK then o else Run(o.1, n - 1)
  }

  // ----- the simulator itself

  method FetchNext(sim: Machine) returns (r0: Option<Fetched>)
    ensures r0 == Fetch(sim.m.data[..], sim.pc)
  {
    var c := sim.m.GetByteVal(sim.pc);
    if c.None? { return None; }
    var f := Fetched(High(c.value), LowNibble(c.value), REG_NONE, REG_NONE, 0, sim.pc + 1);
    if NeedsRegs(f.icode) {
      var ab := sim.m.GetByteVal(f.next);
      if ab.None? { return None; }
      f := f.(ra := High(ab.value), rb := LowNibble(ab.value), next := sim.pc + 2);
    }
    if NeedsImm(f.icode) {
      var imm := sim.m.GetWordVal(f.next);
      if imm.None? { return None; }
      f := f.(imm := imm.value);
    }
    return Some(f);
  }

  method MoveRegister(sim: Machine, f: Fetched) returns (st: Status)
    requires sim.Valid()
    modifies sim, sim.r.data
    ensures (st, sim.Snapshot()) == Rrmovq(old(sim.Snapshot()), f)
  {
    if !NormReg(f.ra) || !NormReg(f.rb) { return INS; }
    if CondDoit(sim.cc, f.ifun) {
      var v := sim.r.GetRegVal(f.ra);
      sim.r.SetRegVal(f.rb, v);
    }
    sim.pc := sim.pc + 2;
    return AOK;
  }

  method MoveImmediate(sim: Machine, f: Fetched) returns (st: Status)
    requires sim.Valid()
    modifies sim, sim.r.data
    ensures (st, sim.Snapshot()) == Irmovq(old(sim.Snapshot()), f)
  {
    if f.ra != REG_NONE || !NormReg(f.rb) { return INS; }
    sim.r.SetRegVal(f.rb, f.imm);
    sim.pc := sim.pc + 10;
    return AOK;
  }

  method Store(sim: Machine, f: Fetched) returns (st: Status)
    requires sim.Valid()
    modifies sim, sim.m.data
    ensures (st, sim.Snapshot()) == Rmmovq(old(sim.Snapshot()), f)
  {
    hide Wrap, SetWord, RegVal;
    if !NormReg(f.ra) || !NormReg(f.rb) { return INS; }
    var base: int := sim.r.GetRegVal(f.rb);
    var v := sim.r.GetRegVal(f.ra);
    var ok := sim.m.SetWordVal(Wrap(f.imm + base), v);
    if !ok { return ADR; }
    sim.pc := sim.pc + 10;
    return AOK;
  }

  method Load(sim: Machine, f: Fetched) returns (st: Status)
    requires sim.Valid()
    modifies sim, sim.r.data
    ensures (st, sim.Snapshot()) == Mrmovq(old(sim.Snapshot()), f)
  {
    hide Wrap, GetWord, WithReg, RegVal;
    if !NormReg(f.ra) || !NormReg(f.rb) { return INS; }
    var base: int := sim.r.GetRegVal(f.rb);
    var v := sim.m.GetWordVal(Wrap(f.imm + base));
    if v.None? { return ADR; }
    sim.r.SetRegVal(f.ra, v.value);
    sim.pc := sim.pc + 10;
    return AOK;
  }

  method Operate(sim: Machine, f: Fetched) returns (st: Status)
    requires sim.Valid()
    modifies sim, sim.r.data
    ensures (st, sim.Snapshot()) == Alu(old(sim.Snapshot()), f)
  {
    hide Wrap, RegVal, WithReg, ComputeAlu, ComputeCC;
    if !NormReg(f.ra) || !NormReg(f.rb) { return INS; }
    var a := sim.r.GetRegVal(f.ra);
    var b := sim.r.GetRegVal(f.rb);
    var res := ComputeAlu(f.ifun, a, b);
    sim.cc := ComputeCC(f.ifun, a, b, res);
    sim.r.SetRegVal(f.rb, res);
    sim.pc := sim.pc + 2;
    return AOK;
  }

  method CallAddress(sim: Machine, f: Fetched) returns (st: Status)
    requires sim.Valid()
    modifies sim, sim.r.data, sim.m.data
    ensures (st, sim.Snapshot()) == Call(old(sim.Snapshot()), f)
  {
    hide Wrap, SetWord, WithReg, RegVal;
    var rsp: int := sim.r.GetRegVal(RSP);
    rsp := Wrap(rsp - 8);
    sim.r.SetRegVal(RSP, rsp);
    st := sim.StoreTop(rsp, Wrap(f.next + 8), f.imm);
  }

  method Return(sim: Machine) returns (st: Status)
    requires sim.Valid()
    modifies sim, sim.r.data
    ensures (st, sim.Snapshot()) == Ret(old(sim.Snapshot()))
  {
    hide Wrap, GetWord, WithReg, RegVal;
    var rsp: int := sim.r.GetRegVal(RSP);
    var v := sim.m.GetWordVal(rsp);
    if v.None? { return ADR; }
    sim.r.SetRegVal(RSP, Wrap(rsp + 8));
    sim.pc := v.value;
    return AOK;
  }

  method Push(sim: Machine, f: Fetched) returns (st: Status)
    requires sim.Valid()
    modifies sim, sim.r.data, sim.m.data
    ensures (st, sim.Snapshot()) == Pushq(old(sim.Snapshot()), f)
  {
    hide Wrap, SetWord, WithReg, RegVal;
    if !NormReg(f.ra) || f.rb != REG_NONE { return INS; }
    var rsp: int := sim.r.GetRegVal(RSP);
    rsp := Wrap(rsp - 8);
    sim.r.SetRegVal(RSP, rsp);
    var v := Wrap(rsp + 8);
    if f.ra != RSP { v := sim.r.GetRegVal(f.ra); }
    st := sim.StoreTop(rsp, v, sim.pc + 2);
  }

  method Pop(sim: Machine, f: Fetched) returns (st: Status)
    requires sim.Valid()
    modifies sim, sim.r.data
    ensures (st, sim.Snapshot()) == Popq(old(sim.Snapshot()), f)
  {
    hide Wrap, GetWord, WithReg, RegVal;
    if !NormReg(f.ra) || f.rb != REG_NONE { return INS; }
    var rsp: int := sim.r.GetRegVal(RSP);
    var v := sim.m.GetWordVal(rsp);
    if v.None? { return ADR; }
    sim.r.SetRegVal(f.ra, v.value);
    if f.ra != RSP { sim.r.SetRegVal(RSP, Wrap(rsp + 8)); }
    sim.pc := sim.pc + 2;
    return AOK;
  }

  /** Executes one instruction. */
  method Step(sim: Machine) returns (st: Status)
    requires sim.Valid()
    modifies sim, sim.r.data, sim.m.data
    ensures (st, sim.Snapshot()) == Nexti(old(sim.Snapshot()))
  {
    var o := FetchNext(sim);
    if o.None? { return ADR; }
    var f := o.value;
    if f.icode == I_HALT { return HLT; }
    if f.icode == I_NOP {
      sim.pc := f.next;
      return AOK;
    }
    if f.icode == I_RRMOVQ {
      st := MoveRegister(sim, f);
    } else if f.icode == I_IRMOVQ {
      st := MoveImmediate(sim, f);
    } else if f.icode == I_RMMOVQ {
      st := Store(sim, f);
    } else if f.icode == I_MRMOVQ {
      st := Load(sim, f);
    } else if f.icode == I_ALU {
      st := Operate(sim, f);
    } else if f.icode == I_JMP {
      sim.pc := if CondDoit(sim.cc, f.ifun) then f.imm else f.next + 8;
      st := AOK;
    } else if f.icode == I_CALL {
      st := CallAddress(sim, f);
    } else if f.icode == I_RET {
      st := Return(sim);
    } else if f.icode == I_PUSHQ {
      st := Push(sim, f);
    } else if f.icode == I_POPQ {
      st := Pop(sim, f);
    } else {
      st := INS;
    }
  }
}
