/** lab5/y64asm.c as it runs.

    The address counter, the symbol and relocation tables and the list of lines are
    fields that the methods update in place; each method leaves them as the functions of
    Asm say. */
module Assembler {
  import opened Wrappers
  import opened Words
  import opened Asm
  import Align
  import AsmReader
  import AsmText

  // ----- bytes from nibbles

  /** v >> k, an arithmetic shift. */
  function Shr(v: int, k: nat): int
    decreases k
  {
    if k == 0 then v else Shr(v / 2, k - 1)
  }

  lemma {:induction false} ShrShr(v: int, a: nat, b: nat)
    ensures Shr(Shr(v, a), b) == Shr(v, a + b)
    decreases a
  {
    if a > 0 { ShrShr(v / 2, a - 1, b); }
  }

  lemma ShrNibble(v: int)
    ensures Shr(v, 4) == v / 16 && Shr(v, 8) == v / 256
  {
    assert Shr(v, 4) == v / 2 / 2 / 2 / 2 && v / 2 / 2 / 2 / 2 == v / 16;
    ShrShr(v, 4, 4);
    var w := v / 16;
    assert Shr(w, 4) == w / 2 / 2 / 2 / 2 && w / 2 / 2 / 2 / 2 == w / 16;
    assert w / 16 == v / 256;
  }

  lemma PackByte(x: int)
    ensures HPack(x / 16 % 16, x % 16) == x % 256
  {
    var q, r := x / 256, x % 256;
    assert x == 256 * q + r;
    assert x / 16 == 16 * q + r / 16 && x % 16 == r % 16;
    assert x / 16 % 16 == r / 16;
    assert r == 16 * (r / 16) + r % 16;
  }

  /** The byte the C expression HPACK(v >> (8i + 4), v >> 8i) packs. */
  lemma {:induction false} NibblesAreByte(v: int, n: nat, i: nat)
    requires i < n
    ensures HPack(Shr(v, 8 * i + 4) % 16, Shr(v, 8 * i) % 16) == Low(v, n)[i]
    decreases i
  {
    hide Shr, HPack, Low;
    LowHead(v, n);
    if i == 0 {
      ShrNibble(v);
      ShrZero(v);
      PackByte(v);
    } else {
      NibblesAreByte(v / 256, n - 1, i - 1);
      ShrNibble(v);
      ShrShr(v, 8, 8 * (i - 1) + 4);
      ShrShr(v, 8, 8 * (i - 1));
    }
  }

  lemma ShrZero(v: int)
    ensures Shr(v, 0) == v
  {
  }

  /** The loops that write a value into a line's codes. */
  method WriteValue(before: seq<Byte>, at: nat, v: int, n: nat) returns (codes: seq<Byte>)
    requires at + n <= |before|
    ensures codes == Patch(before, at, Low(v, n))
  {
    hide Shr, HPack, Low, Patch;
    codes := before;
    ghost var bytes := Low(v, n);
    for i := 0 to n
      invariant codes == Patch(before, at, bytes[..i])
    {
      NibblesAreByte(v, n, i);
      PatchStep(before, at, bytes, i);
      codes := codes[at + i := HPack(Shr(v, 8 * i + 4) % 16, Shr(v, 8 * i) % 16)];
    }
    assert bytes[..n] == bytes;
  }

  // ----- encoding one statement

  /** The code buffer after parse_line's switch. */
  method Encode(st: Stmt) returns (codes: seq<Byte>)
    requires ValidStmt(st)
    ensures codes == Raw(st)
  {
    hide Low, Patch, HPack, Row;
    TableLength(st, []);
    LowZero(st.Inst().bytes);
    codes := seq(st.Inst().bytes, _ => 0);
    if st.Inst().bytes > 0 { codes := codes[0 := st.Inst().Code()]; }
    match st.args
    case NoArgs =>
    case Regs(ra, rb) => codes := codes[1 := HPack(ra, rb)];
    case OneReg(ra) => codes := codes[1 := HPack(ra, NO_REG)];
    case ImmReg(op, rb) =>
      LowZero(8);
      if op.Imm? { codes := WriteValue(codes, 2, op.value, 8); }
      codes := codes[1 := HPack(NO_REG, rb)];
    case MemReg(disp, base, reg) =>
      codes := codes[1 := HPack(reg, base)];
      codes := WriteValue(codes, 2, disp, 8);
    case RegMem(reg, disp, base) =>
      codes := codes[1 := HPack(reg, base)];
      codes := WriteValue(codes, 2, disp, 8);
    case Dest(op) =>
      LowZero(8);
      if op.Imm? { codes := WriteValue(codes, 1, op.value, 8); }
    case Data(op) =>
      if op.Imm? { codes := WriteValue(codes, 0, op.value, st.Inst().bytes); }
    case Amount(_) =>
  }

  lemma {:induction false} LowZero(n: nat)
    ensures Low(0, n) == seq(n, _ => 0)
  {
    if n > 0 {
      LowZero(n - 1);
      assert [0] + seq(n - 1, _ => 0) == seq(n, _ => 0);
    }
  }

  // ----- the program

  class Program {
    var vmaddr: int
    var symtab: seq<Symbol>
    var reltab: seq<Reloc>
    var lines: seq<Bin>

    ghost function Contents(): Tables
      reads this
    {
      Tables(vmaddr, symtab, reltab, lines)
    }

    constructor ()
      ensures Contents() == START
    {
      vmaddr, symtab, reltab, lines := 0, [], [], [];
    }

    /** find_symbol */
    method Find(name: string) returns (r: Option<int>)
      ensures r == FindSymbol(symtab, name)
    {
      var k := 0;
      while k < |symtab|
        invariant 0 <= k <= |symtab| && FindSymbol(symtab, name) == FindSymbol(symtab[k..], name)
      {
        assert symtab[k..][1..] == symtab[k + 1..];
        if symtab[k].name == name { return Some(symtab[k].addr); }
        k := k + 1;
      }
      return None;
    }

    /** add_symbol: refuses a name that is there already. */
    method AddSymbol(name: string) returns (ok: bool)
      modifies `symtab
      ensures match AddLabel(old(Contents()), Some(name))
              case None => !ok && Contents() == old(Contents())
              case Some(a) => ok && Contents() == a
    {
      var r := Find(name);
      if r.Some? { return false; }
      symtab := symtab + [Symbol(name, vmaddr)];
      return true;
    }

    /** Moves the address counter and chooses the line's address. */
    method Place(st: Stmt, bytes: nat) returns (r: Option<int>)
      requires ValidStmt(st) && bytes == st.Inst().bytes
      modifies `vmaddr
      ensures r == Placed(old(vmaddr), st)
      ensures r.Some? ==> vmaddr == r.value + bytes
    {
      TableLength(st, []);
      if st.args.Amount? {
        if st.Inst().fun == D_POS {
          vmaddr := st.args.value;
        } else {
          if st.args.value == 0 { return None; }
          vmaddr := Align.AlignUp(vmaddr, st.args.value);
        }
        return Some(vmaddr);
      }
      r := Some(vmaddr);
      vmaddr := vmaddr + bytes;
    }

    /** parse_line, once the line has been read. */
    method ParseLine(l: Line) returns (ok: bool)
      requires ValidLine(l)
      modifies this
      ensures ok <==> AddLine(old(Contents()), l).Some?
      ensures ok ==> Contents() == AddLine(old(Contents()), l).value
    {
      hide Raw, FindSymbol, Placed;
      if l.defines.Some? {
        ok := AddSymbol(l.defines.value);
        if !ok { return; }
      }
      if l.stmt.None? {
        lines := lines + [Bin(l.defines.Some?, if l.defines.Some? then vmaddr else 0, [])];
        return true;
      }
      var st := l.stmt.value;
      TableLength(st, []);
      var addr := Place(st, st.Inst().bytes);
      if addr.None? { return false; }
      var codes := Encode(st);
      var target := Target(st);
      if target.Some? { reltab := reltab + [Reloc(|lines|, target.value)]; }
      lines := lines + [Bin(true, addr.value, codes)];
      return true;
    }

    /** parse_line */
    method ReadLine(text: string) returns (ok: bool)
      modifies this
      ensures match AsmText.ParseLine(text)
              case None => !ok
              case Some(l) =>
                && (ok <==> AddLine(old(Contents()), l).Some?)
                && (ok ==> Contents() == AddLine(old(Contents()), l).value)
    {
      hide AsmText.ParseLine, AddLine;
      var l := AsmReader.ReadLine(text);
      if l.None? { return false; }
      AsmText.ParsedIsValid(text);
      ok := ParseLine(l.value);
    }

    /** assemble: it fails at the first line that does not parse or repeats a label. */
    method AssembleAll(texts: seq<string>) returns (ok: bool)
      requires Contents() == START
      modifies this
      ensures var ls := AsmText.ParseAll(texts);
              && (ok <==> ls.Some? && Assemble(ls.value).Some?)
              && (ok ==> Contents() == Assemble(ls.value).value)
    {
      hide AddLine, AsmText.ParseLine;
      for k := 0 to |texts|
        invariant AsmText.ParseAll(texts[..k]).Some?
        invariant Assemble(AsmText.ParseAll(texts[..k]).value) == Some(Contents())
      {
        assert texts[..k + 1][..k] == texts[..k];
        ok := ReadLine(texts[k]);
        ghost var ls := AsmText.ParseAll(texts[..k]).value;
        ghost var l := AsmText.ParseLine(texts[k]);
        assert l.Some? ==> (ls + [l.value])[..k] == ls;
        if !ok {
          StuckText(texts, k + 1);
          return;
        }
      }
      assert texts[..|texts|] == texts;
      return true;
    }

    /** relocate; the lines are left patched up to an unknown name. */
    method RelocateAll() returns (ok: bool)
      requires Patchable(lines, reltab)
      modifies `lines
      ensures ok <==> Relocate(old(lines), reltab, symtab).Some?
      ensures ok ==> lines == Relocate(old(lines), reltab, symtab).value
    {
      hide Low, Patch, FindSymbol, Patchable, Relocate;
      ghost var before := lines;
      RelocateNone(before, symtab);
      assert reltab[..0] == [];
      for j := 0 to |reltab|
        invariant Patchable(before, reltab[..j]) && Relocate(before, reltab[..j], symtab) == Some(lines)
      {
        RelocateNext(before, reltab, symtab, j);
        var rel := reltab[j];
        var addr := Find(rel.name);
        if addr.None? {
          StuckReloc(before, reltab, symtab, j + 1);
          return false;
        }
        var b := lines[rel.line];
        var codes := WriteValue(b.codes, |b.codes| - 8, addr.value, 8);
        lines := lines[rel.line := b.(codes := codes)];
      }
      assert reltab[..|reltab|] == reltab;
      return true;
    }

    /** binfile */
    method BinFile() returns (r: Option<seq<Byte>>)
      ensures r == Written(lines)
    {
      hide WriteAt;
      var file: seq<Byte> := [];
      for k := 0 to |lines|
        invariant Written(lines[..k]) == Some(file)
      {
        assert lines[..k + 1][..k] == lines[..k];
        if lines[k].ins {
          if lines[k].addr < 0 {
            StuckFile(lines, k + 1);
            return None;
          }
          file := WriteAt(file, lines[k].addr, lines[k].codes);
        }
      }
      assert lines[..|lines|] == lines;
      return Some(file);
    }
  }

  ghost predicate Stuck(texts: seq<string>) {
    AsmText.ParseAll(texts).None? || Assemble(AsmText.ParseAll(texts).value).None?
  }

  lemma {:induction false} StuckText(texts: seq<string>, k: nat)
    requires k <= |texts| && Stuck(texts[..k])
    ensures Stuck(texts)
    decreases |texts|
  {
    hide AddLine, AsmText.ParseLine;
    if k < |texts| {
      var p := texts[..|texts| - 1];
      assert p[..k] == texts[..k];
      StuckText(p, k);
      if AsmText.ParseAll(texts).Some? {
        assert AsmText.ParseAll(texts).value[..|p|] == AsmText.ParseAll(p).value;
      }
    } else {
      assert texts[..k] == texts;
    }
  }

  lemma PatchablePart(lines: seq<Bin>, rel: seq<Reloc>, j: nat)
    requires j <= |rel| && Patchable(lines, rel)
    ensures Patchable(lines, rel[..j])
  {
    forall i | 0 <= i < j ensures rel[..j][i].line < |lines| && |lines[rel[..j][i].line].codes| >= 8 {
      assert rel[..j][i] == rel[i];
    }
  }

  lemma RelocateNone(lines: seq<Bin>, tab: seq<Symbol>)
    ensures Patchable(lines, []) && Relocate(lines, [], tab) == Some(lines)
  {
  }

  lemma RelocateNext(lines: seq<Bin>, rel: seq<Reloc>, tab: seq<Symbol>, j: nat)
    requires j < |rel| && Patchable(lines, rel)
    ensures Patchable(lines, rel[..j]) && Patchable(lines, rel[..j + 1]) && rel[j].line < |lines|
    ensures match Relocate(lines, rel[..j], tab)
            case None => true
            case Some(x) =>
              && |x| == |lines| && |x[rel[j].line].codes| >= 8
              && Relocate(lines, rel[..j + 1], tab) ==
                 match FindSymbol(tab, rel[j].name) {
                   case None => None
                   case Some(addr) => Some(x[rel[j].line := PatchLine(x[rel[j].line], addr)])
                 }
  {
    hide FindSymbol, Low, Patch;
    PatchablePart(lines, rel, j);
    PatchablePart(lines, rel, j + 1);
    assert rel[..j + 1][..j] == rel[..j] && rel[..j + 1][j] == rel[j];
  }

  lemma {:induction false} StuckReloc(lines: seq<Bin>, rel: seq<Reloc>, tab: seq<Symbol>, j: nat)
    requires j <= |rel| && Patchable(lines, rel) && Patchable(lines, rel[..j]) && Relocate(lines, rel[..j], tab).None?
    ensures Relocate(lines, rel, tab).None?
    decreases |rel|
  {
    if j < |rel| {
      assert rel[..|rel| - 1][..j] == rel[..j];
      PatchablePrefix(lines, rel);
      StuckReloc(lines, rel[..|rel| - 1], tab, j);
    } else {
      assert rel[..j] == rel;
    }
  }

  lemma {:induction false} StuckFile(lines: seq<Bin>, k: nat)
    requires k <= |lines| && Written(lines[..k]).None?
    ensures Written(lines).None?
    decreases |lines|
  {
    if k < |lines| {
      assert lines[..|lines| - 1][..k] == lines[..k];
      StuckFile(lines[..|lines| - 1], k);
    } else {
      assert lines[..k] == lines;
    }
  }
}
