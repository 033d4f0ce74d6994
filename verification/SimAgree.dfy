/** Where the simulators of lab4/y64sim.c and lab6/sim/misc/isa.c agree, in steps and runs.

    They fetch the same fields, but nexti checks encodings more strictly, step_state knows
    one instruction more, and they treat the stack pointer in different orders.  The proof
    goes by kinds of instructions; each lemma leaves out of sight what the simulators
    share. */
module SimAgree {
  import opened Bits
  import opened Words
  import opened Wrappers
  import opened SimMemory
  import opened Y86
  import Y64Sim
  import Isa

  /** What nexti asks of an encoding beyond what step_state does. */
  predicate StrictEncoding(icode: nat, ra: nat, rb: nat) {
    && icode != I_IADDQ
    && (icode == I_IRMOVQ ==> ra == REG_NONE)
    && (icode == I_RMMOVQ || icode == I_MRMOVQ ==> rb != REG_NONE)
    && (icode == I_ALU ==> ra != REG_NONE && rb != REG_NONE)
    && (icode == I_PUSHQ || icode == I_POPQ ==> rb == REG_NONE)
  }

  /** The instruction step_state is about to execute is encoded that way. */
  predicate Strict(s: State) {
    match Isa.Fetch(s.mem, s.pc)
    case None => false
    case Some(g) => StrictEncoding(g.hi0, g.hi1, g.lo1)
  }

  predicate AtAlu(s: State) {
    GetByte(s.mem, s.pc).Some? && High(GetByte(s.mem, s.pc).value) == I_ALU
  }

  predicate SameBut(cc: bool, s: State, t: State) {
    s.pc == t.pc && s.regs == t.regs && s.mem == t.mem && (cc ==> s.cc == t.cc)
  }

  /** How the outcomes of nexti and step_state compare; `alu` excuses the flags. */
  predicate Agree(n: Outcome, t: Outcome, strict: bool, alu: bool) {
    && (n.0 == AOK <==> t.0 == AOK && strict)
    && (n.0 == AOK ==> SameBut(!alu, n.1, t.1))
  }

  predicate SameFetch(f: Y64Sim.Fetched, g: Isa.Fetched) {
    && g.hi0 == f.icode && g.lo0 == f.ifun && g.hi1 == f.ra && g.lo1 == f.rb
    && g.ok1 && g.okc && g.cval == f.imm
    && g.ftpc == f.next + (if Y64Sim.NeedsImm(f.icode) then 8 else 0)
  }

  lemma FetchesAgree(m: seq<Byte>, pc: int)
    ensures var n, t := Y64Sim.Fetch(m, pc), Isa.Fetch(m, pc);
            && (n.Some? ==> t.Some? && (n.value.icode != I_IADDQ ==> SameFetch(n.value, t.value)))
            && (t.Some? && n.None? && t.value.hi0 != I_IADDQ ==> !t.value.ok1 || !t.value.okc)
            && (t.Some? && n.Some? ==> n.value.icode == t.value.hi0)
  {
    hide GetWord;
  }

  /** An instruction whose bytes cannot all be read succeeds in neither. */
  lemma PartialFails(s: State, g: Isa.Fetched)
    requires Isa.Fetch(s.mem, s.pc) == Some(g) && (!g.ok1 || !g.okc)
    ensures Isa.Execute(s, g).0 != AOK
  {
    hide Y86.PushTo, GetWord, SetWord, RegVal, WithReg, ComputeAlu, Wrap;
    hide Isa.CondHolds, Isa.ComputeCC, Isa.Popq, Isa.Ret;
    assert Isa.NeedRegids(g.hi0) || Isa.NeedImm(g.hi0);
    if g.hi0 == I_POPQ { assert Isa.Popq(s, g).0 != AOK by { PopPartial(s, g); } }
  }

  lemma PopPartial(s: State, g: Isa.Fetched)
    requires !g.ok1
    ensures Isa.Popq(s, g).0 != AOK
  {
  }

  lemma SameConditions(cc: Byte, cond: nat)
    ensures Y64Sim.CondDoit(cc, cond) == Isa.CondHolds(cc, cond)
  {
    hide BitAnd, BitOr, BitXor, Isa.CondHolds;
    var zf, sf, of := ZF(cc), SF(cc), OF(cc);
    Isa.CondTable(cc, cond);
    BitTables(sf, of);
    BitTables(Bit(sf != of), zf);
    BitTables(Bit(sf == of), Bit(zf == 0));
  }

  lemma MovesAgree(s: State, f: Y64Sim.Fetched, g: Isa.Fetched)
    requires SameFetch(f, g) && I_RRMOVQ <= f.icode <= I_MRMOVQ
    requires f.next == s.pc + 2 && f.ra <= REG_NONE && f.rb <= REG_NONE
    ensures Agree(Y64Sim.Execute(s, f), Isa.Execute(s, g), StrictEncoding(g.hi0, g.hi1, g.lo1), false)
  {
    hide GetWord, SetWord, RegVal, WithReg, Isa.CondHolds, Y64Sim.CondDoit, Wrap;
    SameConditions(s.cc, f.ifun);
  }

  lemma AluAgrees(s: State, f: Y64Sim.Fetched, g: Isa.Fetched)
    requires SameFetch(f, g) && f.icode == I_ALU
    requires f.next == s.pc + 2 && f.ra <= REG_NONE && f.rb <= REG_NONE
    ensures Agree(Y64Sim.Execute(s, f), Isa.Execute(s, g), StrictEncoding(g.hi0, g.hi1, g.lo1), true)
  {
    hide RegVal, WithReg, ComputeAlu, Isa.ComputeCC, Y64Sim.ComputeCC;
  }

  lemma JumpsAgree(s: State, f: Y64Sim.Fetched, g: Isa.Fetched)
    requires SameFetch(f, g) && I_JMP <= f.icode <= I_RET
    ensures Agree(Y64Sim.Execute(s, f), Isa.Execute(s, g), StrictEncoding(g.hi0, g.hi1, g.lo1), false)
  {
    hide PushTo, GetWord, RegVal, WithReg, Isa.CondHolds, Y64Sim.CondDoit, Wrap;
    SameConditions(s.cc, f.ifun);
  }

  /** nexti recomputes the %rsp it pushes; step_state read it before. */
  lemma PushAgrees(s: State, f: Y64Sim.Fetched, g: Isa.Fetched)
    requires RegFile(s.regs) && SameFetch(f, g) && f.icode == I_PUSHQ
    requires f.next == s.pc + 2 && f.ra <= REG_NONE && f.rb <= REG_NONE
    ensures Agree(Y64Sim.Execute(s, f), Isa.Execute(s, g), StrictEncoding(g.hi0, g.hi1, g.lo1), false)
  {
    hide PushTo, RegVal, WithReg, Wrap;
    var rsp: int := RegVal(s.regs, RSP);
    WrapBack(rsp, 8);
    RegGetSet(s.regs, RSP, Wrap(rsp - 8), f.ra);
  }

  /** The two write %rsp and the popped register in opposite orders. */
  lemma PopAgrees(s: State, f: Y64Sim.Fetched, g: Isa.Fetched)
    requires RegFile(s.regs) && SameFetch(f, g) && f.icode == I_POPQ
    requires f.next == s.pc + 2 && f.ra <= REG_NONE && f.rb <= REG_NONE
    ensures Agree(Y64Sim.Execute(s, f), Isa.Execute(s, g), StrictEncoding(g.hi0, g.hi1, g.lo1), false)
  {
    hide GetWord, RegVal, WithReg, Wrap;
    var rsp: int := RegVal(s.regs, RSP);
    var v := GetWord(s.mem, rsp);
    if f.ra < REG_NONE && v.Some? {
      RegSetSet(s.regs, RSP, Wrap(rsp + 8), f.ra, v.value);
    }
  }

  lemma FetchShape(m: seq<Byte>, pc: int)
    requires Y64Sim.Fetch(m, pc).Some?
    ensures var f := Y64Sim.Fetch(m, pc).value;
            && GetByte(m, pc).Some? && f.icode == High(GetByte(m, pc).value) && f.ra <= REG_NONE && f.rb <= REG_NONE
            && f.next == pc + (if Y64Sim.NeedsRegs(f.icode) then 2 else 1)
  {
    hide GetWord;
  }

  lemma ExecutionsAgree(s: State, f: Y64Sim.Fetched, g: Isa.Fetched)
    requires RegFile(s.regs) && SameFetch(f, g) && f.ra <= REG_NONE && f.rb <= REG_NONE
    requires f.next == s.pc + if Y64Sim.NeedsRegs(f.icode) then 2 else 1
    ensures Agree(Y64Sim.Execute(s, f), Isa.Execute(s, g), StrictEncoding(g.hi0, g.hi1, g.lo1), f.icode == I_ALU)
  {
    if I_RRMOVQ <= f.icode <= I_MRMOVQ {
      MovesAgree(s, f, g);
    } else if f.icode == I_ALU {
      AluAgrees(s, f, g);
    } else if I_JMP <= f.icode <= I_RET {
      JumpsAgree(s, f, g);
    } else if f.icode == I_PUSHQ {
      PushAgrees(s, f, g);
    } else if f.icode == I_POPQ {
      PopAgrees(s, f, g);
    }
  }

  /** nexti succeeds exactly when step_state does on a strict encoding, and then they
      leave the same pc, registers, memory and, except after an ALU instruction, flags. */
  lemma SimulatorsAgree(s: State)
    requires RegFile(s.regs)
    ensures var n, t := Y64Sim.Nexti(s), Isa.StepState(s);
            && (n.0 == AOK <==> t.0 == AOK && Strict(s))
            && (n.0 == AOK ==> SameBut(!AtAlu(s), n.1, t.1))
  {
    hide Y64Sim.Fetch, Isa.Fetch, Y64Sim.Execute, Isa.Execute;
    FetchesAgree(s.mem, s.pc);
    var n, t := Y64Sim.Fetch(s.mem, s.pc), Isa.Fetch(s.mem, s.pc);
    if n.Some? {
      FetchShape(s.mem, s.pc);
      if n.value.icode == I_IADDQ {
        assert Y64Sim.Execute(s, n.value).0 == INS by { NoIaddq(s, n.value); }
      } else {
        ExecutionsAgree(s, n.value, t.value);
      }
    } else if t.Some? && t.value.hi0 != I_IADDQ {
      PartialFails(s, t.value);
    }
  }

  lemma NoIaddq(s: State, f: Y64Sim.Fetched)
    requires f.icode == I_IADDQ
    ensures Y64Sim.Execute(s, f).0 == INS
  {
  }

  /** 60 F0, an addq from no register: step_state adds 0 and nexti rejects it. */
  lemma AgreementExample(regs: seq<Byte>, cc: Byte)
    requires RegFile(regs)
    ensures var s := State(0, regs, [0x60, 0xF0], cc); Isa.StepState(s).0 == AOK && Y64Sim.Nexti(s).0 != AOK
  {
    hide RegVal, WithReg, ComputeAlu, Isa.ComputeCC, Y64Sim.Execute, GetWord;
    var s := State(0, regs, [0x60, 0xF0], cc);
    SimulatorsAgree(s);
    assert !Strict(s);
  }

  // ----- the flags, and whole runs

  /** The operands on which the flag rules of the two agree. nexti takes the sign from bit
      31, misses the overflow of the least word added to itself and of a subtraction, and
      sees one where operands of equal sign are subtracted from each other. */
  predicate FlagsAgree(op: nat, a: Word, b: Word) {
    && (Y64Sim.Int32(ComputeAlu(op, a, b)) < 0 <==> ComputeAlu(op, a, b) < 0)
    && (op == A_ADD ==> !(a == -TWO_63 && b == -TWO_63))
    && (op == A_SUB ==> -TWO_63 <= b - a < TWO_63 && !(0 < b < a) && !(a < b < 0))
  }

  lemma FlagsAgreeIff(op: nat, a: Word, b: Word)
    ensures Y64Sim.ComputeCC(op, a, b, ComputeAlu(op, a, b)) == Isa.ComputeCC(op, a, b) <==> FlagsAgree(op, a, b)
  {
    hide Wrap, PackCC, Y64Sim.Int32;
    var v := ComputeAlu(op, a, b);
    WrapNear(a + b);
    WrapNear(b - a);
    PackSame(v == 0, Y64Sim.Int32(v) < 0, Y64Sim.Overflows(op, a, b, v), v < 0, Isa.Overflows(op, a, b, v));
    if op == A_ADD {
      AddOverflows(a, b, v);
    } else if op == A_SUB {
      SubOverflows(a, b, v);
    }
  }

  lemma AddOverflows(a: Word, b: Word, v: Word)
    requires v == if a + b >= TWO_63 then a + b - TWO_64 else if a + b < -TWO_63 then a + b + TWO_64 else a + b
    ensures Y64Sim.Overflows(A_ADD, a, b, v) == Isa.Overflows(A_ADD, a, b, v) <==> !(a == -TWO_63 && b == -TWO_63)
  {
  }

  lemma SubOverflows(a: Word, b: Word, v: Word)
    requires v == if b - a >= TWO_63 then b - a - TWO_64 else if b - a < -TWO_63 then b - a + TWO_64 else b - a
    ensures Y64Sim.Overflows(A_SUB, a, b, v) == Isa.Overflows(A_SUB, a, b, v) <==>
            -TWO_63 <= b - a < TWO_63 && !(0 < b < a) && !(a < b < 0)
  {
  }

  lemma PackSame(z: bool, s: bool, o: bool, s2: bool, o2: bool)
    ensures PackCC(z, s, o) == PackCC(z, s2, o2) <==> s == s2 && o == o2
  {
  }

  /** After comparing 1 with 2, "less" holds in step_state and not in nexti. */
  lemma FlagsExample()
    ensures Isa.CondHolds(Isa.ComputeCC(A_SUB, 2, 1), C_L)
    ensures !Y64Sim.CondDoit(Y64Sim.ComputeCC(A_SUB, 2, 1, ComputeAlu(A_SUB, 2, 1)), C_L)
  {
    hide PackCC, ZF, SF, OF, Isa.CondHolds, Isa.ComputeCC;
    Isa.FlagsDecideOrder(2, 1);
    assert ComputeAlu(A_SUB, 2, 1) == -1;
    Unpack(false, true, true);
    assert BitXor(1, 1) == 0;
  }

  /** The ALU instruction at the pc has such operands. */
  predicate AluConforms(s: State) {
    match Isa.Fetch(s.mem, s.pc)
    case None => true
    case Some(g) => g.hi0 == I_ALU ==> FlagsAgree(g.lo0, RegVal(s.regs, g.hi1), RegVal(s.regs, g.lo1))
  }

  /** What step_state is about to do, nexti does as well: it halts, or it succeeds on a
      strict encoding and, in the ALU, on operands of which both make the same flags. */
  predicate StepConforms(s: State) {
    var t := Isa.StepState(s).0;
    t == HLT || (t == AOK && Strict(s) && AluConforms(s))
  }

  predicate Proceeds(o: Outcome) {
    o.0 == AOK || o.0 == HLT
  }

  lemma StepsEqualIff(s: State)
    requires RegFile(s.regs)
    ensures Y64Sim.Nexti(s) == Isa.StepState(s) && Proceeds(Isa.StepState(s)) <==> StepConforms(s)
  {
    hide Y64Sim.Fetch, Isa.Fetch, Y64Sim.Execute, Isa.Execute, FlagsAgree;
    SimulatorsAgree(s);
    HaltsAlike(s);
    if Y64Sim.Nexti(s).0 == AOK && Isa.StepState(s).0 == AOK { SameStep(s); }
  }

  /** Both halt at the same instructions and leave the state alone. */
  lemma HaltsAlike(s: State)
    ensures Isa.StepState(s).0 == HLT ==> Isa.StepState(s) == Y64Sim.Nexti(s) == (HLT, s)
  {
    hide GetWord, SetWord, RegVal, WithReg, ComputeAlu, Isa.CondHolds, Isa.ComputeCC, Wrap;
  }

  lemma SameStep(s: State)
    requires RegFile(s.regs) && Y64Sim.Nexti(s).0 == AOK && Isa.StepState(s).0 == AOK
    ensures Y64Sim.Nexti(s) == Isa.StepState(s) <==> AluConforms(s)
  {
    hide Y64Sim.Fetch, Isa.Fetch, Y64Sim.Execute, Isa.Execute, FlagsAgree;
    SimulatorsAgree(s);
    FetchesAgree(s.mem, s.pc);
    FetchShape(s.mem, s.pc);
    IsaShape(s.mem, s.pc);
    var f, g := Y64Sim.Fetch(s.mem, s.pc).value, Isa.Fetch(s.mem, s.pc).value;
    if g.hi0 == I_ALU { AluFlags(s, f, g); }
  }

  lemma IsaShape(m: seq<Byte>, pc: int)
    ensures Isa.Fetch(m, pc).Some? ==>
              GetByte(m, pc).Some? && Isa.Fetch(m, pc).value.hi0 == High(GetByte(m, pc).value)
  {
    hide GetWord;
  }

  lemma AluFlags(s: State, f: Y64Sim.Fetched, g: Isa.Fetched)
    requires SameFetch(f, g) && g.hi0 == I_ALU
    requires Y64Sim.Execute(s, f).0 == AOK && Isa.Execute(s, g).0 == AOK
    ensures Y64Sim.Execute(s, f).1.cc == Isa.Execute(s, g).1.cc <==>
            FlagsAgree(g.lo0, RegVal(s.regs, g.hi1), RegVal(s.regs, g.lo1))
  {
    hide RegVal, WithReg, ComputeAlu, Isa.ComputeCC, Y64Sim.ComputeCC, FlagsAgree;
    FlagsAgreeIff(g.lo0, RegVal(s.regs, g.hi1), RegVal(s.regs, g.lo1));
  }

  /** Every step of a run conforms. */
  predicate Conforms(s: State, n: nat)
    decreases n
  {
    n == 0 || (StepConforms(s) && (Isa.StepState(s).0 == AOK ==> Conforms(Isa.StepState(s).1, n - 1)))
  }

  /** After each of up to n steps both are in the same state, flags included, and have
      neither failed. */
  ghost predicate Lockstep(s: State, n: nat) {
    forall k: nat {:trigger Isa.Run(s, k)} | k <= n :: Y64Sim.Run(s, k) == Isa.Run(s, k) && Proceeds(Isa.Run(s, k))
  }

  lemma RegsStay(s: State)
    requires RegFile(s.regs)
    ensures RegFile(Isa.StepState(s).1.regs)
  {
    hide GetWord, SetWord, RegVal, ComputeAlu, Isa.CondHolds, Isa.ComputeCC, Wrap, Isa.Fetch;
  }

  /** Two runs from one state stay the same, step by step and with all flags, exactly as
      long as every step conforms. */
  lemma {:induction false} RunsAgreeIff(s: State, n: nat)
    requires RegFile(s.regs)
    ensures Lockstep(s, n) <==> Conforms(s, n)
    decreases n
  {
    hide Y64Sim.Nexti, Isa.StepState, StepConforms;
    if n > 0 {
      StepsEqualIff(s);
      RegsStay(s);
      var t := Isa.StepState(s);
      if t.0 == AOK { RunsAgreeIff(t.1, n - 1); }
      LockstepStep(s, n);
    }
  }

  lemma LockstepStep(s: State, n: nat)
    requires n > 0
    ensures var t := Isa.StepState(s);
            Lockstep(s, n) <==> Y64Sim.Nexti(s) == t && Proceeds(t) && (t.0 == AOK ==> Lockstep(t.1, n - 1))
  {
    hide Y64Sim.Nexti, Isa.StepState;
    var t := Isa.StepState(s);
    OneStep(s);
    if Lockstep(s, n) {
      assert Y64Sim.Run(s, 1) == Isa.Run(s, 1);
      if t.0 == AOK {
        forall k: nat | k <= n - 1 ensures Y64Sim.Run(t.1, k) == Isa.Run(t.1, k) && Proceeds(Isa.Run(t.1, k)) {
          assert Isa.Run(s, k + 1) == Isa.Run(t.1, k);
        }
      }
    }
    if Y64Sim.Nexti(s) == t && Proceeds(t) && (t.0 == AOK ==> Lockstep(t.1, n - 1)) {
      forall k: nat | k <= n ensures Y64Sim.Run(s, k) == Isa.Run(s, k) && Proceeds(Isa.Run(s, k)) {
        if k > 0 && t.0 == AOK { assert Isa.Run(s, k) == Isa.Run(t.1, k - 1); }
      }
    }
  }

  lemma OneStep(s: State)
    ensures Y64Sim.Run(s, 1) == Y64Sim.Nexti(s) && Isa.Run(s, 1) == Isa.StepState(s)
  {
    hide Y64Sim.Nexti, Isa.StepState;
  }
}
