/** The token parsers of lab5/y64asm.c as they run.

    Each method moves a pointer along the text of a line, as its C function does, and
    reports what the function of the same token in AsmText makes of the text from the
    pointer on. */
module AsmReader {
  import opened Wrappers
  import opened Words
  import opened Y86
  import opened Asm
  import opened AsmText

  /** SKIP_BLANK */
  method Skip(text: string, p: nat) returns (q: nat)
    requires p <= |text|
    ensures p <= q <= |text| && text[q..] == SkipBlank(text[p..])
  {
    q := p;
    while q < |text| && IsBlank(text[q])
      invariant p <= q <= |text| && SkipBlank(text[q..]) == SkipBlank(text[p..])
    {
      assert text[q..][1..] == text[q + 1..];
      q := q + 1;
    }
  }

  /** strncmp(name, text + p, |name|) == 0 */
  method Begins(name: string, text: string, p: nat) returns (r: bool)
    requires p <= |text|
    ensures r <==> name <= text[p..]
  {
    var i := 0;
    while i < |name|
      invariant 0 <= i <= |name| && p + i <= |text| && name[..i] == text[p..p + i]
    {
      if p + i == |text| || text[p + i] != name[i] {
        assert p + i < |text| ==> text[p..][i] == text[p + i];
        return false;
      }
      i := i + 1;
    }
    assert text[p..][..|name|] == text[p..p + |name|];
    return true;
  }

  /** find_instr */
  method FindInstr(text: string, p: nat) returns (r: Option<RowIndex>)
    requires p <= |text|
    ensures r == FindRow(text[p..], 0)
  {
    hide Name;
    for i: nat := 0 to ROWS
      invariant FindRow(text[p..], 0) == FindRow(text[p..], i)
    {
      var b := Begins(Name(i), text, p);
      if b { return Some(i); }
    }
    return None;
  }

  /** find_register */
  method FindRegister(text: string, p: nat) returns (r: Option<Reg>)
    requires p <= |text|
    ensures r == FindReg(text[p..], 0)
  {
    hide RegName;
    for i: nat := 0 to NO_REG
      invariant FindReg(text[p..], 0) == FindReg(text[p..], i)
    {
      var b := Begins(RegName(i), text, p);
      if b { return Some(i); }
    }
    return None;
  }

  /** The outcome a parser reports: its value and how far the pointer has moved. */
  ghost predicate Reads<T>(spec: Parsed<T>, text: string, r: Option<T>, q: nat) {
    match spec
    case None => r.None?
    case Some((v, rest)) => r == Some(v) && q <= |text| && text[q..] == rest
  }

  /** parse_instr */
  method ReadInstr(text: string, p: nat) returns (r: Option<RowIndex>, q: nat)
    requires p <= |text|
    ensures Reads(ParseInstr(text[p..]), text, r, q)
  {
    hide Name, SkipBlank, FindRow;
    q := Skip(text, p);
    var k := FindInstr(text, q);
    if k.None? { return None, q; }
    var n := |Name(k.value)|;
    assert text[q..][n..] == text[q + n..];
    return k, q + n;
  }

  /** parse_delim */
  method ReadDelim(text: string, p: nat, delim: char) returns (ok: bool, q: nat)
    requires p <= |text|
    ensures match ParseDelim(text[p..], delim)
            case None => !ok
            case Some(rest) => ok && q <= |text| && text[q..] == rest
  {
    hide SkipBlank;
    q := Skip(text, p);
    if q < |text| && text[q] == delim {
      assert text[q..][1..] == text[q + 1..];
      return true, q + 1;
    }
    return false, q;
  }

  /** parse_reg */
  method ReadReg(text: string, p: nat) returns (r: Option<Reg>, q: nat)
    requires p <= |text|
    ensures Reads(ParseReg(text[p..]), text, r, q)
  {
    hide RegName, SkipBlank, FindReg;
    q := Skip(text, p);
    if q == |text| || text[q] != '%' { return None, q; }
    var k := FindRegister(text, q);
    if k.None? { return None, q; }
    var n := |RegName(k.value)|;
    assert text[q..][n..] == text[q + n..];
    return k, q + n;
  }

  /** parse_symbol */
  method ReadSymbol(text: string, p: nat) returns (r: Option<string>, q: nat)
    requires p <= |text|
    ensures Reads(ParseSymbol(text[p..]), text, r, q)
  {
    hide SkipBlank;
    var s := Skip(text, p);
    if s == |text| || !IsLetter(text[s]) { return None, s; }
    q := s;
    while q < |text| && !IsBlank(text[q]) && text[q] != ','
      invariant s <= q <= |text| && SymbolLength(text[s..]) == q - s + SymbolLength(text[q..])
    {
      assert text[q..][1..] == text[q + 1..];
      q := q + 1;
    }
    assert text[s..][..q - s] == text[s..q] && text[s..][q - s..] == text[q..];
    return Some(text[s..q]), q;
  }

  /** What strtoul leaves is the end of the text. */
  lemma StrtoulRest(s: string)
    ensures var rest := Strtoul(s).1; |rest| <= |s| && rest == s[|s| - |rest|..]
  {
    hide Number;
  }

  /** parse_digit */
  method ReadDigit(text: string, p: nat) returns (r: Option<Word>, q: nat)
    requires p <= |text|
    ensures Reads(ParseDigit(text[p..]), text, r, q)
  {
    hide SkipBlank, Strtoul, Wrap;
    q := Skip(text, p);
    if q == |text| || !IsDigit(text[q]) { return None, q; }
    var n := Strtoul(text[q..]);
    StrtoulRest(text[q..]);
    assert text[q..][|text| - q - |n.1|..] == text[|text| - |n.1|..];
    q := |text| - |n.1|;
    ghost var start := q;
    while q < |text| && (IsDigit(text[q]) || IsHex(text[q]))
      invariant start <= q <= |text| && SkipDigits(text[start..]) == SkipDigits(text[q..])
    {
      assert text[q..][1..] == text[q + 1..];
      q := q + 1;
    }
    return Some(Wrap(n.0)), q;
  }

  /** parse_imm */
  method ReadImm(text: string, p: nat) returns (r: Option<Operand>, q: nat)
    requires p <= |text|
    ensures Reads(ParseImm(text[p..]), text, r, q)
  {
    hide SkipBlank, ParseDigit, ParseSymbol;
    var s := Skip(text, p);
    if s < |text| && text[s] == '$' {
      assert text[s..][1..] == text[s + 1..];
      var v, e := ReadDigit(text, s + 1);
      if v.Some? { return Some(Imm(v.value)), e; }
    } else if s < |text| && IsLetter(text[s]) {
      var n, e := ReadSymbol(text, s);
      if n.Some? { return Some(Label(n.value)), e; }
    }
    return None, s;
  }

  /** parse_data */
  method ReadData(text: string, p: nat) returns (r: Option<Operand>, q: nat)
    requires p <= |text|
    ensures Reads(ParseData(text[p..]), text, r, q)
  {
    hide SkipBlank, ParseDigit, ParseSymbol;
    var s := Skip(text, p);
    if s < |text| && IsDigit(text[s]) {
      var v, e := ReadDigit(text, s);
      if v.Some? { return Some(Imm(v.value)), e; }
    } else if s < |text| && IsLetter(text[s]) {
      var n, e := ReadSymbol(text, s);
      if n.Some? { return Some(Label(n.value)), e; }
    }
    return None, s;
  }

  method ReadBase(text: string, p: nat, disp: Word) returns (r: Option<(Word, Reg)>, q: nat)
    requires p <= |text|
    ensures Reads(ParseBase(text[p..], disp), text, r, q)
  {
    hide ParseReg;
    if p == |text| || text[p] != '(' { return None, p; }
    assert text[p..][1..] == text[p + 1..];
    var reg, e := ReadReg(text, p + 1);
    if reg.None? || e >= |text| || text[e] != ')' { return None, p; }
    assert text[e..][1..] == text[e + 1..];
    return Some((disp, reg.value)), e + 1;
  }

  /** parse_mem */
  method ReadMem(text: string, p: nat) returns (r: Option<(Word, Reg)>, q: nat)
    requires p <= |text|
    ensures Reads(ParseMem(text[p..]), text, r, q)
  {
    hide SkipBlank, ParseDigit, ParseBase;
    var s := Skip(text, p);
    if s < |text| && IsDigit(text[s]) {
      var v, e := ReadDigit(text, s);
      if v.None? { return None, s; }
      r, q := ReadBase(text, e, v.value);
    } else {
      r, q := ReadBase(text, s, 0);
    }
  }

  /** parse_label */
  method ReadLabel(text: string, p: nat) returns (r: Option<string>, q: nat)
    requires p <= |text|
    ensures Reads(ParseLabel(text[p..]), text, r, q)
  {
    hide SkipBlank, LabelLength;
    var s := Skip(text, p);
    q := s;
    while q < |text| && !IsBlank(text[q]) && text[q] != '#'
      invariant s <= q <= |text|
      invariant LabelLength(text[s..]) ==
                match LabelLength(text[q..]) { case None => None case Some(n) => Some(q - s + n) }
    {
      LabelStep(text[q..]);
      if text[q] == ':' {
        assert text[s..][..q - s] == text[s..q] && text[s..][q - s + 1..] == text[q + 1..];
        return Some(text[s..q]), q + 1;
      }
      assert text[q..][1..] == text[q + 1..];
      q := q + 1;
    }
    LabelStep(text[q..]);
    return None, s;
  }

  // ----- operands and lines

  /** register, comma, register */
  method ReadRegs(text: string, p: nat) returns (r: Option<Args>)
    requires p <= |text|
    ensures r == ParseRegs(text[p..])
  {
    hide ParseReg, ParseDelim;
    var ra, q := ReadReg(text, p);
    if ra.None? { return None; }
    var ok, u := ReadDelim(text, q, ',');
    if !ok { return None; }
    var rb, e := ReadReg(text, u);
    if rb.None? { return None; }
    return Some(Regs(ra.value, rb.value));
  }

  /** immediate, comma, register */
  method ReadImmReg(text: string, p: nat) returns (r: Option<Args>)
    requires p <= |text|
    ensures r == ParseImmReg(text[p..])
  {
    hide ParseReg, ParseDelim, ParseImm;
    var op, q := ReadImm(text, p);
    if op.None? { return None; }
    var ok, u := ReadDelim(text, q, ',');
    if !ok { return None; }
    var rb, e := ReadReg(text, u);
    if rb.None? { return None; }
    return Some(ImmReg(op.value, rb.value));
  }

  /** memory, comma, register */
  method ReadMemReg(text: string, p: nat) returns (r: Option<Args>)
    requires p <= |text|
    ensures r == ParseMemReg(text[p..])
  {
    hide ParseReg, ParseDelim, ParseMem;
    var m, q := ReadMem(text, p);
    if m.None? { return None; }
    var ok, u := ReadDelim(text, q, ',');
    if !ok { return None; }
    var rb, e := ReadReg(text, u);
    if rb.None? { return None; }
    return Some(MemReg(m.value.0, m.value.1, rb.value));
  }

  /** register, comma, memory */
  method ReadRegMem(text: string, p: nat) returns (r: Option<Args>)
    requires p <= |text|
    ensures r == ParseRegMem(text[p..])
  {
    hide ParseReg, ParseDelim, ParseMem;
    var ra, q := ReadReg(text, p);
    if ra.None? { return None; }
    var ok, u := ReadDelim(text, q, ',');
    if !ok { return None; }
    var m, e := ReadMem(text, u);
    if m.None? { return None; }
    return Some(RegMem(ra.value, m.value.0, m.value.1));
  }

  method ReadArgs(inst: Inst, text: string, p: nat) returns (r: Option<Args>)
    requires p <= |text|
    ensures r == ParseArgs(inst, text[p..])
  {
    hide ParseRegs, ParseReg, ParseImmReg, ParseMemReg, ParseRegMem, ParseImm, ParseData, ParseDigit;
    if inst.icode in {I_NOP, I_HALT, I_RET} {
      return Some(NoArgs);
    } else if inst.icode in {I_RRMOVQ, I_ALU} {
      r := ReadRegs(text, p);
    } else if inst.icode in {I_PUSHQ, I_POPQ} {
      var ra, _ := ReadReg(text, p);
      return if ra.Some? then Some(OneReg(ra.value)) else None;
    } else if inst.icode == I_IRMOVQ {
      r := ReadImmReg(text, p);
    } else if inst.icode == I_MRMOVQ {
      r := ReadMemReg(text, p);
    } else if inst.icode == I_RMMOVQ {
      r := ReadRegMem(text, p);
    } else if inst.icode in {I_JMP, I_CALL} {
      var op, _ := ReadImm(text, p);
      return if op.Some? then Some(Dest(op.value)) else None;
    } else if inst.icode == I_DIRECTIVE && inst.fun == D_DATA {
      var op, _ := ReadData(text, p);
      return if op.Some? then Some(Data(op.value)) else None;
    } else if inst.icode == I_DIRECTIVE && (inst.fun == D_POS || inst.fun == D_ALIGN) {
      var v, _ := ReadDigit(text, p);
      return if v.Some? then Some(Amount(v.value)) else None;
    } else {
      return None;
    }
  }

  /** The reading half of parse_line. */
  method ReadLine(text: string) returns (r: Option<Line>)
    ensures r == AsmText.ParseLine(text)
  {
    hide SkipBlank, ParseLabel, ParseInstr, ParseArgs;
    assert text[0..] == text;
    var p := Skip(text, 0);
    if p < |text| && text[p] == '#' { return Some(Line(None, None)); }
    var defined, q := ReadLabel(text, p);
    if defined.None? { q := p; }
    var row, e := ReadInstr(text, q);
    if row.None? { return Some(Line(defined, None)); }
    var args := ReadArgs(Row(row.value), text, e);
    if args.None? { return None; }
    return Some(Line(defined, Some(Stmt(row.value, args.value))));
  }
}
