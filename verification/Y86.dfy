/** What the two Y86-64 simulators share: instruction codes, statuses, machine states and
    the condition-code byte. */
module Y86 {
  import opened Bits
  import opened Words
  import opened SimMemory

  const I_HALT := 0
  const I_NOP := 1
  const I_RRMOVQ := 2
  const I_IRMOVQ := 3
  const I_RMMOVQ := 4
  const I_MRMOVQ := 5
  const I_ALU := 6
  const I_JMP := 7
  const I_CALL := 8
  const I_RET := 9
  const I_PUSHQ := 10
  const I_POPQ := 11
  const I_IADDQ := 12

  const A_ADD := 0
  const A_SUB := 1
  const A_AND := 2
  const A_XOR := 3

  const C_YES := 0
  const C_LE := 1
  const C_L := 2
  const C_E := 3
  const C_NE := 4
  const C_GE := 5
  const C_G := 6

  datatype Status = AOK | HLT | ADR | INS

  datatype State = State(pc: int, regs: seq<Byte>, mem: seq<Byte>, cc: Byte)

  type Outcome = (Status, State)

  function High(b: Byte): nat { b / 16 }

  function LowNibble(b: Byte): nat { b % 16 }

  // ----- condition codes

  function PackCC(z: bool, s: bool, o: bool): Byte {
    4 * Bit(z) + 2 * Bit(s) + Bit(o)
  }

  function ZF(cc: Byte): int { cc / 4 % 2 }

  function SF(cc: Byte): int { cc / 2 % 2 }

  function OF(cc: Byte): int { cc % 2 }

  lemma Unpack(z: bool, s: bool, o: bool)
    ensures ZF(PackCC(z, s, o)) == Bit(z) && SF(PackCC(z, s, o)) == Bit(s) && OF(PackCC(z, s, o)) == Bit(o)
  {
  }

  lemma BitTables(x: int, y: int)
    requires x in {0, 1} && y in {0, 1}
    ensures BitXor(x, y) == Bit(x != y)
    ensures BitAnd(x, y) == Bit(x == 1 && y == 1)
    ensures BitOr(x, y) == Bit(x == 1 || y == 1)
  {
    assert BitXor(0, 0) == 0 && BitAnd(0, 0) == 0 && BitOr(0, 0) == 0;
  }

  // ----- the ALU, written alike in both simulators

  function ComputeAlu(op: nat, a: Word, b: Word): Word {
    if op == A_ADD then Wrap(a + b)
    else if op == A_SUB then Wrap(b - a)
    else if op == A_AND then (Pow63(); BitwiseFits(63, a, b); BitAnd(a, b))
    else if op == A_XOR then (Pow63(); BitwiseFits(63, a, b); BitXor(a, b))
    else 0
  }

  /** Sums and differences are right modulo 2^64 ... */
  lemma AluSums(a: Word, b: Word)
    ensures (ComputeAlu(A_ADD, a, b) - (a + b)) % TWO_64 == 0
    ensures (ComputeAlu(A_SUB, a, b) - (b - a)) % TWO_64 == 0
  {
    WrapNear(a + b);
    WrapNear(b - a);
  }

  /** ... and the logical operations work on each of the 64 bits. */
  lemma AluBits(a: Word, b: Word, i: nat)
    ensures BitOf(ComputeAlu(A_AND, a, b), i) == 1 <==> BitOf(a, i) == 1 && BitOf(b, i) == 1
    ensures BitOf(ComputeAlu(A_XOR, a, b), i) == 1 <==> BitOf(a, i) != BitOf(b, i)
  {
    hide BitAnd, BitXor, BitOf;
    Pow63();
    OperatorBits(a, b, i);
  }

  // ----- pushing, the tail of calls and pushes in both simulators

  function PushTo(s: State, rsp: Word, v: Word, next: int): Outcome {
    var t := s.(regs := WithReg(s.regs, RSP, rsp));
    match SetWord(s.mem, rsp, v)
    case None => (ADR, t)
    case Some(m) => (AOK, t.(pc := next, mem := m))
  }

  /** y64sim_t and state_rec: the structures have the same fields. */
  class Machine {
    var pc: int
    const r: Mem
    const m: Mem
    var cc: Byte

    ghost predicate Valid()
      reads this, r, m
    {
      r.data != m.data
    }

    ghost function Snapshot(): State
      reads this, r, m, r.data, m.data
    {
      State(pc, r.data[..], m.data[..], cc)
    }

    /** Both machines start with cleared registers and memory and only ZF set. */
    constructor (len: nat)
      ensures Valid() && fresh(r.data) && fresh(m.data) && pc == 0 && cc == PackCC(true, false, false)
      ensures m.data.Length == (len + 31) / 32 * 32 && RegFile(r.data[..])
      ensures forall id: nat :: RegVal(r.data[..], id) == 0
    {
      r := new Mem(15 * 8);
      m := new Mem(len);
      pc := 0;
      cc := PackCC(true, false, false);
      new;
      forall id: nat ensures RegVal(r.data[..], id) == 0 {
        if id < REG_NONE { ZeroWord(r.data[..][id * 8..id * 8 + 8]); }
      }
    }

    /** Stores v where %rsp already points. */
    method StoreTop(rsp: Word, v: Word, next: int) returns (st: Status)
      requires Valid()
      modifies `pc, m.data
      ensures (st, Snapshot()) == match SetWord(old(Snapshot()).mem, rsp, v)
              case None => (ADR, old(Snapshot()))
              case Some(m) => (AOK, old(Snapshot()).(pc := next, mem := m))
    {
      var ok := m.SetWordVal(rsp, v);
      if !ok { return ADR; }
      pc := next;
      return AOK;
    }
  }

  lemma {:induction false} ZeroWord(s: seq<Byte>)
    requires forall i | 0 <= i < |s| :: s[i] == 0
    ensures Join(s) == 0
  {
    if s != [] { ZeroWord(s[1..]); }
  }
}
