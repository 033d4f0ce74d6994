/** lab6/sim/misc/isa.c: the instruction-set simulator step_state and its flags. */
module Isa {
  import opened Bits
  import opened Words
  import opened Wrappers
  import opened SimMemory
  import opened Y86

  // ----- condition codes and conditions

  predicate Overflows(op: nat, a: Word, b: Word, val: Word) {
    if op == A_ADD then (a < 0) == (b < 0) && (val < 0) != (a < 0)
    else if op == A_SUB then (a > 0) == (b < 0) && (val < 0) != (b < 0)
    else false
  }

  function ComputeCC(op: nat, a: Word, b: Word): Byte {
    var val := ComputeAlu(op, a, b);
    PackCC(val == 0, val < 0, Overflows(op, a, b, val))
  }

  function CondHolds(cc: Byte, cond: nat): bool {
    var zf, sf, of := ZF(cc), SF(cc), OF(cc);
    if cond == C_YES then true
    else if cond == C_LE then BitOr(BitXor(sf, of), zf) != 0
    else if cond == C_L then BitXor(sf, of) != 0
    else if cond == C_E then zf != 0
    else if cond == C_NE then BitXor(zf, 1) != 0
    else if cond == C_GE then BitXor(BitXor(sf, of), 1) != 0
    else if cond == C_G then BitAnd(BitXor(BitXor(sf, of), 1), BitXor(zf, 1)) != 0
    else false
  }

  /** The conditions as Boolean functions of the flags. */
  lemma CondTable(cc: Byte, cond: nat)
    ensures CondHolds(cc, cond) ==
            var z, l := ZF(cc) == 1, SF(cc) != OF(cc);
            if cond == C_YES then true
            else if cond == C_LE then l || z
            else if cond == C_L then l
            else if cond == C_E then z
            else if cond == C_NE then !z
            else if cond == C_GE then !l
            else if cond == C_G then !l && !z
            else false
  {
    hide BitAnd, BitOr, BitXor;
    var zf, sf, of := ZF(cc), SF(cc), OF(cc);
    var l := Bit(sf != of);
    BitTables(sf, of);
    BitTables(l, zf);
    BitTables(l, 1);
    BitTables(zf, 1);
    BitTables(Bit(l != 1), Bit(zf != 1));
  }

  /** The sign of the wrapped difference, corrected by the overflow flag, is the sign of
      the true one. */
  lemma SubtractFlags(a: Word, b: Word)
    ensures var cc := ComputeCC(A_SUB, a, b);
            (ZF(cc) == 1) == (b == a) && (SF(cc) != OF(cc)) == (b < a)
  {
    hide Wrap, PackCC, ZF, SF, OF;
    var val := ComputeAlu(A_SUB, a, b);
    WrapNear(b - a);
    Unpack(val == 0, val < 0, Overflows(A_SUB, a, b, val));
  }

  /** After comparing, each condition decides the order of the operands as integers,
      also where b - a wraps around. */
  lemma FlagsDecideOrder(a: Word, b: Word)
    ensures var cc := ComputeCC(A_SUB, a, b);
            && CondHolds(cc, C_L) == (b < a)
            && CondHolds(cc, C_LE) == (b <= a)
            && CondHolds(cc, C_E) == (b == a)
            && CondHolds(cc, C_NE) == (b != a)
            && CondHolds(cc, C_GE) == (b >= a)
            && CondHolds(cc, C_G) == (b > a)
  {
    hide ComputeCC, CondHolds;
    var cc := ComputeCC(A_SUB, a, b);
    SubtractFlags(a, b);
    CondTable(cc, C_L);
    CondTable(cc, C_LE);
    CondTable(cc, C_E);
    CondTable(cc, C_NE);
    CondTable(cc, C_GE);
    CondTable(cc, C_G);
  }

  /** The overflow flag of an addition or subtraction says that the true result does not
      fit a word. */
  lemma OverflowIsExact(a: Word, b: Word)
    ensures OF(ComputeCC(A_ADD, a, b)) == Bit(!(-TWO_63 <= a + b < TWO_63))
    ensures OF(ComputeCC(A_SUB, a, b)) == Bit(!(-TWO_63 <= b - a < TWO_63))
  {
    hide Wrap, PackCC, OF;
    var s, d := ComputeAlu(A_ADD, a, b), ComputeAlu(A_SUB, a, b);
    WrapNear(a + b);
    WrapNear(b - a);
    Unpack(s == 0, s < 0, Overflows(A_ADD, a, b, s));
    Unpack(d == 0, d < 0, Overflows(A_SUB, a, b, d));
  }

  // ----- fetching

  /** The fields of an instruction; a byte or word that cannot be read leaves its field
      at zero and `ok1` or `okc` false. */
  datatype Fetched = Fetched(hi0: nat, lo0: nat, ok1: bool, hi1: nat, lo1: nat, okc: bool, cval: Word, ftpc: int)

  predicate NeedRegids(hi0: nat) {
    hi0 in {I_RRMOVQ, I_ALU, I_PUSHQ, I_POPQ, I_IRMOVQ, I_RMMOVQ, I_MRMOVQ, I_IADDQ}
  }

  predicate NeedImm(hi0: nat) {
    hi0 in {I_IRMOVQ, I_RMMOVQ, I_MRMOVQ, I_JMP, I_CALL, I_IADDQ}
  }

  predicate RegValid(id: nat) { id < REG_NONE }

  function FetchRegids(m: seq<Byte>, f: Fetched): Fetched {
    if !NeedRegids(f.hi0) then f else
      match GetByte(m, f.ftpc)
      case None => f.(ok1 := false, hi1 := 0, lo1 := 0, ftpc := f.ftpc + 1)
      case Some(r) => f.(hi1 := High(r), lo1 := LowNibble(r), ftpc := f.ftpc + 1)
  }

  function FetchImm(m: seq<Byte>, f: Fetched): Fetched {
    if !NeedImm(f.hi0) then f else
      match GetWord(m, f.ftpc)
      case None => f.(okc := false, ftpc := f.ftpc + 8)
      case Some(v) => f.(cval := v, ftpc := f.ftpc + 8)
  }

  function Fetch(m: seq<Byte>, pc: int): Option<Fetched> {
    match GetByte(m, pc)
    case None => None
    case Some(c) =>
      Some(FetchImm(m, FetchRegids(m,
        Fetched(High(c), LowNibble(c), true, REG_NONE, REG_NONE, true, 0, pc + 1))))
  }

  // ----- executing

  function Rrmovq(s: State, f: Fetched): Outcome {
    if !f.ok1 then (ADR, s)
    else if !RegValid(f.hi1) || !RegValid(f.lo1) then (INS, s)
    else
      var val := RegVal(s.regs, f.hi1);
      (AOK, s.(pc := f.ftpc, regs := if CondHolds(s.cc, f.lo0) then WithReg(s.regs, f.lo1, val) else s.regs))
  }

  function Irmovq(s: State, f: Fetched): Outcome {
    if !f.ok1 then (ADR, s)
    else if !f.okc || !RegValid(f.lo1) then (INS, s)
    else (AOK, s.(pc := f.ftpc, regs := WithReg(s.regs, f.lo1, f.cval)))
  }

  function Address(s: State, f: Fetched): Word {
    if RegValid(f.lo1) then Wrap(f.cval + RegVal(s.regs, f.lo1)) else f.cval
  }

  function Rmmovq(s: State, f: Fetched): Outcome {
    if !f.ok1 then (ADR, s)
    else if !f.okc || !RegValid(f.hi1) then (INS, s)
    else
      match SetWord(s.mem, Address(s, f), RegVal(s.regs, f.hi1))
      case None => (ADR, s)
      case Some(m) => (AOK, s.(pc := f.ftpc, mem := m))
  }

  function Mrmovq(s: State, f: Fetched): Outcome {
    if !f.ok1 then (ADR, s)
    else if !f.okc || !RegValid(f.hi1) then (INS, s)
    else
      match GetWord(s.mem, Address(s, f))
      case None => (ADR, s)
      case Some(v) => (AOK, s.(pc := f.ftpc, regs := WithReg(s.regs, f.hi1, v)))
  }

  function Alu(s: State, f: Fetched): Outcome {
    if !f.ok1 then (ADR, s) else
      var a, b := RegVal(s.regs, f.hi1), RegVal(s.regs, f.lo1);
      (AOK, s.(pc := f.ftpc, regs := WithReg(s.regs, f.lo1, ComputeAlu(f.lo0, a, b)), cc := ComputeCC(f.lo0, a, b)))
  }

  function Jmp(s: State, f: Fetched): Outcome {
    if !f.ok1 || !f.okc then (ADR, s) else
      (AOK, s.(pc := if CondHolds(s.cc, f.lo0) then f.cval else f.ftpc))
  }

  function Call(s: State, f: Fetched): Outcome {
    if !f.ok1 || !f.okc then (ADR, s) else
      PushTo(s, Wrap(RegVal(s.regs, RSP) - 8), Wrap(f.ftpc), f.cval)
  }

  function Ret(s: State): Outcome {
    var dval := RegVal(s.regs, RSP);
    match GetWord(s.mem, dval)
    case None => (ADR, s)
    case Some(v) => (AOK, s.(pc := v, regs := WithReg(s.regs, RSP, Wrap(dval + 8))))
  }

  function Pushq(s: State, f: Fetched): Outcome {
    if !f.ok1 then (ADR, s)
    else if !RegValid(f.hi1) then (INS, s)
    else PushTo(s, Wrap(RegVal(s.regs, RSP) - 8), RegVal(s.regs, f.hi1), f.ftpc)
  }

  function Popq(s: State, f: Fetched): Outcome {
    if !f.ok1 then (ADR, s)
    else if !RegValid(f.hi1) then (INS, s)
    else
      var dval := RegVal(s.regs, RSP);
      var t := s.(regs := WithReg(s.regs, RSP, Wrap(dval + 8)));
      match GetWord(s.mem, dval)
      case None => (ADR, t)
      case Some(v) => (AOK, t.(pc := f.ftpc, regs := WithReg(t.regs, f.hi1, v)))
  }

  function Iaddq(s: State, f: Fetched): Outcome {
    if !f.ok1 then (ADR, s)
    else if !f.okc || !RegValid(f.lo1) then (INS, s)
    else
      var b := RegVal(s.regs, f.lo1);
      (AOK, s.(pc := f.ftpc, regs := WithReg(s.regs, f.lo1, Wrap(b + f.cval)), cc := ComputeCC(A_ADD, f.cval, b)))
  }

  function Execute(s: State, f: Fetched): Outcome {
    if f.hi0 == I_NOP then (AOK, s.(pc := f.ftpc))
    else if f.hi0 == I_HALT then (HLT, s)
    else if f.hi0 == I_RRMOVQ then Rrmovq(s, f)
    else if f.hi0 == I_IRMOVQ then Irmovq(s, f)
    else if f.hi0 == I_RMMOVQ then Rmmovq(s, f)
    else if f.hi0 == I_MRMOVQ then Mrmovq(s, f)
    else if f.hi0 == I_ALU then Alu(s, f)
    else if f.hi0 == I_JMP then Jmp(s, f)
    else if f.hi0 == I_CALL then Call(s, f)
    else if f.hi0 == I_RET then Ret(s)
    else if f.hi0 == I_PUSHQ then Pushq(s, f)
    else if f.hi0 == I_POPQ then Popq(s, f)
    else if f.hi0 == I_IADDQ then Iaddq(s, f)
    else (INS, s)
  }

  function StepState(s: State): Outcome {
    match Fetch(s.mem, s.pc)
    case None => (ADR, s)
    case Some(f) => Execute(s, f)
  }

  /** step_state again and again, until it stops. */
  function Run(s: State, n: nat): Outcome
    decreases n
  {
    if n == 0 then (AOK, s) else
      var o := StepState(s);
      if o.0 != AOK then o else Run(o.1, n - 1)
  }

  // ----- the simulator itself

  method FetchNext(s: Machine) returns (r: Option<Fetched>)
    ensures r == Fetch(s.m.data[..], s.pc)
  {
    hide GetWord;
    var c := s.m.GetByteVal(s.pc);
    if c.None? { return None; }
    var f := Fetched(High(c.value), LowNibble(c.value), true, REG_NONE, REG_NONE, true, 0, s.pc + 1);
    if NeedRegids(f.hi0) {
      var b := s.m.GetByteVal(f.ftpc);
      var byte1 := if b.Some? then b.value else 0;
      f := f.(ok1 := b.Some?, hi1 := High(byte1), lo1 := LowNibble(byte1), ftpc := f.ftpc + 1);
    }
    if NeedImm(f.hi0) {
      var v := s.m.GetWordVal(f.ftpc);
      f := f.(okc := v.Some?, cval := if v.Some? then v.value else 0, ftpc := f.ftpc + 8);
    }
    return Some(f);
  }

  method MoveRegister(s: Machine, f: Fetched) returns (st: Status)
    requires s.Valid()
    modifies s, s.r.data
    ensures (st, s.Snapshot()) == Rrmovq(old(s.Snapshot()), f)
  {
    hide WithReg, RegVal, CondHolds;
    if !f.ok1 { return ADR; }
    if !RegValid(f.hi1) { return INS; }
    if !RegValid(f.lo1) { return INS; }
    var val := s.r.GetRegVal(f.hi1);
    if CondHolds(s.cc, f.lo0) { s.r.SetRegVal(f.lo1, val); }
    s.pc := f.ftpc;
    return AOK;
  }

  method MoveImmediate(s: Machine, f: Fetched) returns (st: Status)
    requires s.Valid()
    modifies s, s.r.data
    ensures (st, s.Snapshot()) == Irmovq(old(s.Snapshot()), f)
  {
    hide WithReg, RegVal;
    if !f.ok1 { return ADR; }
    if !f.okc { return INS; }
    if !RegValid(f.lo1) { return INS; }
    s.r.SetRegVal(f.lo1, f.cval);
    s.pc := f.ftpc;
    return AOK;
  }

  method Store(s: Machine, f: Fetched) returns (st: Status)
    requires s.Valid()
    modifies s, s.m.data
    ensures (st, s.Snapshot()) == Rmmovq(old(s.Snapshot()), f)
  {
    hide Wrap, SetWord, RegVal;
    if !f.ok1 { return ADR; }
    if !f.okc { return INS; }
    if !RegValid(f.hi1) { return INS; }
    var cval: int := f.cval;
    if RegValid(f.lo1) {
      var base: int := s.r.GetRegVal(f.lo1);
      cval := Wrap(cval + base);
    }
    var val := s.r.GetRegVal(f.hi1);
    var ok := s.m.SetWordVal(cval, val);
    if !ok { return ADR; }
    s.pc := f.ftpc;
    return AOK;
  }

  method Load(s: Machine, f: Fetched) returns (st: Status)
    requires s.Valid()
    modifies s, s.r.data
    ensures (st, s.Snapshot()) == Mrmovq(old(s.Snapshot()), f)
  {
    hide Wrap, GetWord, WithReg, RegVal;
    if !f.ok1 { return ADR; }
    if !f.okc { return INS; }
    if !RegValid(f.hi1) { return INS; }
    var cval: int := f.cval;
    if RegValid(f.lo1) {
      var base: int := s.r.GetRegVal(f.lo1);
      cval := Wrap(cval + base);
    }
    var val := s.m.GetWordVal(cval);
    if val.None? { return ADR; }
    s.r.SetRegVal(f.hi1, val.value);
    s.pc := f.ftpc;
    return AOK;
  }

  method Operate(s: Machine, f: Fetched) returns (st: Status)
    requires s.Valid()
    modifies s, s.r.data
    ensures (st, s.Snapshot()) == Alu(old(s.Snapshot()), f)
  {
    hide WithReg, RegVal, ComputeAlu, ComputeCC;
    if !f.ok1 { return ADR; }
    var a := s.r.GetRegVal(f.hi1);
    var b := s.r.GetRegVal(f.lo1);
    s.r.SetRegVal(f.lo1, ComputeAlu(f.lo0, a, b));
    s.cc := ComputeCC(f.lo0, a, b);
    s.pc := f.ftpc;
    return AOK;
  }

  method AddImmediate(s: Machine, f: Fetched) returns (st: Status)
    requires s.Valid()
    modifies s, s.r.data
    ensures (st, s.Snapshot()) == Iaddq(old(s.Snapshot()), f)
  {
    hide Wrap, WithReg, RegVal, ComputeAlu, ComputeCC;
    if !f.ok1 { return ADR; }
    if !f.okc { return INS; }
    if !RegValid(f.lo1) { return INS; }
    var b: int := s.r.GetRegVal(f.lo1);
    s.r.SetRegVal(f.lo1, Wrap(b + f.cval));
    s.cc := ComputeCC(A_ADD, f.cval, b);
    s.pc := f.ftpc;
    return AOK;
  }

  method CallAddress(s: Machine, f: Fetched) returns (st: Status)
    requires s.Valid()
    modifies s, s.r.data, s.m.data
    ensures (st, s.Snapshot()) == Call(old(s.Snapshot()), f)
  {
    hide Wrap, SetWord, WithReg, RegVal;
    if !f.ok1 { return ADR; }
    if !f.okc { return ADR; }
    var val: int := s.r.GetRegVal(RSP);
    val := Wrap(val - 8);
    s.r.SetRegVal(RSP, val);
    st := s.StoreTop(val, Wrap(f.ftpc), f.cval);
  }

  method Return(s: Machine) returns (st: Status)
    requires s.Valid()
    modifies s, s.r.data
    ensures (st, s.Snapshot()) == Ret(old(s.Snapshot()))
  {
    hide Wrap, GetWord, WithReg, RegVal;
    var dval: int := s.r.GetRegVal(RSP);
    var val := s.m.GetWordVal(dval);
    if val.None? { return ADR; }
    s.r.SetRegVal(RSP, Wrap(dval + 8));
    s.pc := val.value;
    return AOK;
  }

  method Push(s: Machine, f: Fetched) returns (st: Status)
    requires s.Valid()
    modifies s, s.r.data, s.m.data
    ensures (st, s.Snapshot()) == Pushq(old(s.Snapshot()), f)
  {
    hide Wrap, SetWord, WithReg, RegVal;
    if !f.ok1 { return ADR; }
    if !RegValid(f.hi1) { return INS; }
    var val := s.r.GetRegVal(f.hi1);
    var dval: int := s.r.GetRegVal(RSP);
    dval := Wrap(dval - 8);
    s.r.SetRegVal(RSP, dval);
    st := s.StoreTop(dval, val, f.ftpc);
  }

  method Pop(s: Machine, f: Fetched) returns (st: Status)
    requires s.Valid()
    modifies s, s.r.data
    ensures (st, s.Snapshot()) == Popq(old(s.Snapshot()), f)
  {
    hide Wrap, GetWord, WithReg, RegVal;
    if !f.ok1 { return ADR; }
    if !RegValid(f.hi1) { return INS; }
    var dval: int := s.r.GetRegVal(RSP);
    s.r.SetRegVal(RSP, Wrap(dval + 8));
    var val := s.m.GetWordVal(dval);
    if val.None? { return ADR; }
    s.r.SetRegVal(f.hi1, val.value);
    s.pc := f.ftpc;
    return AOK;
  }

  /** Executes one instruction. */
  method Step(s: Machine) returns (st: Status)
    requires s.Valid()
    modifies s, s.r.data, s.m.data
    ensures (st, s.Snapshot()) == StepState(old(s.Snapshot()))
  {
    hide Fetch, Rrmovq, Irmovq, Rmmovq, Mrmovq, Alu, Call, Ret, Pushq, Popq, Iaddq, CondHolds;
    var o := FetchNext(s);
    if o.None? { return ADR; }
    var f := o.value;
    if f.hi0 == I_NOP {
      s.pc := f.ftpc;
      return AOK;
    }
    if f.hi0 == I_HALT { return HLT; }
    if f.hi0 == I_RRMOVQ {
      st := MoveRegister(s, f);
    } else if f.hi0 == I_IRMOVQ {
      st := MoveImmediate(s, f);
    } else if f.hi0 == I_RMMOVQ {
      st := Store(s, f);
    } else if f.hi0 == I_MRMOVQ {
      st := Load(s, f);
    } else if f.hi0 == I_ALU {
      st := Operate(s, f);
    } else if f.hi0 == I_JMP {
      if !f.ok1 || !f.okc { return ADR; }
      s.pc := if CondHolds(s.cc, f.lo0) then f.cval else f.ftpc;
      st := AOK;
    } else if f.hi0 == I_CALL {
      st := CallAddress(s, f);
    } else if f.hi0 == I_RET {
      st := Return(s);
    } else if f.hi0 == I_PUSHQ {
      st := Push(s, f);
    } else if f.hi0 == I_POPQ {
      st := Pop(s, f);
    } else if f.hi0 == I_IADDQ {
      st := AddImmediate(s, f);
    } else {
      st := INS;
    }
  }
}
