/** The byte memories of the simulators: lab4/y64sim.c and lab6/sim/misc/isa.c declare
    the same accessors under two names. */
module SimMemory {
  import opened Bits
  import opened Words
  import opened Wrappers

  const REG_NONE: nat := 15
  const RSP: nat := 4

  /** get_reg_val: registers are words of a small memory. */
  function RegVal(r: seq<Byte>, id: nat): Word {
    if id >= REG_NONE then 0 else
      match GetWord(r, id * 8)
      case None => 0
      case Some(v) => v
  }

  /** set_reg_val */
  function WithReg(r: seq<Byte>, id: nat, v: Word): (s: seq<Byte>)
    ensures |s| == |r|
  {
    if id >= REG_NONE then r else
      match SetWord(r, id * 8, v)
      case None => r
      case Some(s) => s
  }

  /** A register file of at least fifteen words. */
  ghost predicate RegFile(r: seq<Byte>) {
    |r| >= 8 * REG_NONE
  }

  lemma RegGetSet(r: seq<Byte>, id: nat, v: Word, other: nat)
    requires RegFile(r) && id < REG_NONE
    ensures RegVal(WithReg(r, id, v), other) == if other == id then v else RegVal(r, other)
  {
    SetGet(r, id * 8, v);
    if other != id { SetFrame(r, id * 8, v, other * 8); }
  }

  /** Writes to different registers commute; of two to the same the later wins. */
  lemma RegSetSet(r: seq<Byte>, a: nat, v: Word, b: nat, w: Word)
    requires RegFile(r) && a < REG_NONE && b < REG_NONE
    ensures WithReg(WithReg(r, a, v), b, w) == if a == b then WithReg(r, b, w) else WithReg(WithReg(r, b, w), a, v)
  {
    SetSet(r, a * 8, v, b * 8, w);
  }

  class Mem {
    const data: array<Byte>

    constructor (len: nat)
      ensures fresh(data) && data.Length == (len + 31) / 32 * 32
      ensures forall i | 0 <= i < data.Length :: data[i] == 0
    {
      data := new Byte[(len + 31) / 32 * 32](_ => 0);
    }

    method GetByteVal(addr: int) returns (r: Option<Byte>)
      ensures r == GetByte(data[..], addr)
    {
      if addr < 0 || addr >= data.Length { return None; }
      return Some(data[addr]);
    }

    /** The bytes are collected by shifting and or-ing; the pattern is then a word. */
    method GetWordVal(addr: int) returns (r: Option<Word>)
      ensures r == GetWord(data[..], addr)
    {
      if addr < 0 || addr + 8 > data.Length { return None; }
      var val := 0;
      for i := 0 to 8
        invariant val == Join(data[addr..addr + i])
      {
        JoinAppend(data[addr..addr + i], data[addr + i]);
        OrAdds(8 * i, val, data[addr + i]);
        assert data[addr..addr + i] + [data[addr + i]] == data[addr..addr + i + 1];
        val := BitOr(val, Times(data[addr + i], Pow2(8 * i)));
      }
      assert data[..][addr..addr + 8] == data[addr..addr + 8];
      return Some(Wrap(val));
    }

    method WriteBytes(addr: nat, w: Word)
      requires addr + 8 <= data.Length
      modifies data
      ensures data[..] == Patch(old(data[..]), addr, Low(w, 8))
    {
      hide Low, Patch;
      var val: int := w;
      ghost var bytes, before := Low(w, 8), data[..];
      for i := 0 to 8
        invariant bytes[i..] == Low(val, 8 - i)
        invariant data[..] == Patch(before, addr, bytes[..i])
      {
        LowHead(val, 8 - i);
        assert bytes[i] == bytes[i..][0] && bytes[i + 1..] == bytes[i..][1..];
        PatchStep(before, addr, bytes, i);
        data[addr + i] := val % 256;
        assert data[..] == Patch(before, addr, bytes[..i])[addr + i := bytes[i]];
        val := val / 256;
      }
      assert bytes[..8] == bytes;
    }

    method SetWordVal(addr: int, w: Word) returns (ok: bool)
      modifies data
      ensures match SetWord(old(data[..]), addr, w)
              case None => !ok && data[..] == old(data[..])
              case Some(m) => ok && data[..] == m
    {
      if addr < 0 || addr + 8 > data.Length { return false; }
      WriteBytes(addr, w);
      return true;
    }

    method GetRegVal(id: nat) returns (v: Word)
      ensures v == RegVal(data[..], id)
    {
      if id >= REG_NONE { return 0; }
      var r := GetWordVal(id * 8);
      return if r.Some? then r.value else 0;
    }

    method SetRegVal(id: nat, v: Word)
      modifies data
      ensures data[..] == WithReg(old(data[..]), id, v)
    {
      if id < REG_NONE {
        var _ := SetWordVal(id * 8, v);
      }
    }
  }
}
