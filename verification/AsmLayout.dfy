/** What assembling and relocating a whole program yields: when it succeeds, where labels
    and lines lie and which bytes they hold. */
module AsmLayout {
  import opened Wrappers
  import opened Words
  import opened Asm

  // ----- prefixes

  lemma AssembleStep(ls: seq<Line>, k: nat)
    requires k < |ls|
    ensures Assemble(ls[..k + 1]) ==
            match Assemble(ls[..k]) { case None => None case Some(a) => AddLine(a, ls[k]) }
  {
    assert ls[..k + 1][..k] == ls[..k];
  }

  /** Prefixes assemble to prefixes of the tables. */
  lemma {:induction false} AssemblePrefix(ls: seq<Line>, k: nat)
    requires k <= |ls| && Assemble(ls).Some?
    ensures Assemble(ls[..k]).Some?
    ensures Assemble(ls[..k]).value.symtab <= Assemble(ls).value.symtab
    ensures Assemble(ls[..k]).value.lines <= Assemble(ls).value.lines
    ensures |Assemble(ls[..k]).value.lines| == k
    decreases |ls|
  {
    if k == |ls| {
      assert ls[..k] == ls;
      if k > 0 { AssemblePrefix(ls[..k - 1], k - 1); assert ls[..k - 1][..k - 1] == ls[..k - 1]; }
    } else {
      var p := ls[..|ls| - 1];
      AssemblePrefix(p, k);
      assert p[..k] == ls[..k];
    }
  }

  /** The address counter when line k is reached. */
  function Vm(ls: seq<Line>, k: nat): int
    requires k <= |ls| && Assemble(ls).Some?
  {
    AssemblePrefix(ls, k);
    Assemble(ls[..k]).value.vmaddr
  }

  function Addr(vm: int, l: Line): Option<int> {
    if l.stmt.None? then Some(vm) else Placed(vm, l.stmt.value)
  }

  lemma LineIs(ls: seq<Line>, k: nat)
    requires k < |ls| && Assemble(ls).Some?
    ensures |Assemble(ls).value.lines| == |ls|
    ensures Addr(Vm(ls, k), ls[k]).Some?
    ensures Assemble(ls).value.lines[k] == BinOf(Addr(Vm(ls, k), ls[k]).value, ls[k])
    ensures Vm(ls, k + 1) == Addr(Vm(ls, k), ls[k]).value + |Assemble(ls).value.lines[k].codes|
  {
    hide Raw, Placed, Assemble;
    AssemblePrefix(ls, |ls|);
    assert ls[..|ls|] == ls;
    AssemblePrefix(ls, k);
    AssemblePrefix(ls, k + 1);
    AssembleStep(ls, k);
  }

  // ----- labels

  ghost predicate Defines(ls: seq<Line>, k: nat, n: string) {
    k < |ls| && ls[k].defines == Some(n)
  }

  ghost predicate DistinctLabels(ls: seq<Line>) {
    forall i: nat, k: nat, n: string {:trigger Defines(ls, i, n), Defines(ls, k, n)}
      | Defines(ls, i, n) && Defines(ls, k, n) :: i == k
  }

  ghost predicate NoZeroAlign(ls: seq<Line>) {
    forall k {:trigger ls[k]} | 0 <= k < |ls| :: Addr(0, ls[k]).Some?
  }

  lemma {:induction false} FindAppend(tab: seq<Symbol>, s: Symbol, n: string)
    ensures FindSymbol(tab + [s], n) ==
            if FindSymbol(tab, n).Some? then FindSymbol(tab, n)
            else if s.name == n then Some(s.addr) else None
  {
    if tab != [] {
      assert (tab + [s])[1..] == tab[1..] + [s];
      FindAppend(tab[1..], s, n);
    }
  }

  /** The symbol table holds each label with the address counter at its line, and no
      other name. */
  lemma {:induction false} LabelAddress(ls: seq<Line>, n: string)
    requires Assemble(ls).Some?
    ensures match FindSymbol(Assemble(ls).value.symtab, n)
            case Some(addr) => exists k: nat :: Defines(ls, k, n) && addr == Vm(ls, k)
            case None => forall k: nat :: !Defines(ls, k, n)
    decreases |ls|
  {
    if ls != [] {
      var m := |ls| - 1;
      var p := ls[..m];
      var a, b := Assemble(p).value, Assemble(ls).value;
      LabelAddress(p, n);
      assert b.symtab == match ls[m].defines { case None => a.symtab case Some(d) => a.symtab + [Symbol(d, a.vmaddr)] };
      if ls[m].defines.Some? { FindAppend(a.symtab, Symbol(ls[m].defines.value, a.vmaddr), n); }
      if FindSymbol(a.symtab, n).Some? {
        var k: nat :| Defines(p, k, n) && FindSymbol(a.symtab, n).value == Vm(p, k);
        assert p[..k] == ls[..k];
        assert Defines(ls, k, n);
      } else {
        forall k: nat | Defines(ls, k, n) ensures k == m {
          if k < m { assert Defines(p, k, n); }
        }
        if ls[m].defines == Some(n) { assert Defines(ls, m, n); }
      }
    }
  }

  /** A program assembles exactly when no label is defined twice and nothing is aligned
      to a multiple of zero. */
  lemma {:induction false} AssemblesIff(ls: seq<Line>)
    ensures Assemble(ls).Some? <==> DistinctLabels(ls) && NoZeroAlign(ls)
    decreases |ls|
  {
    if ls != [] {
      var p, l := ls[..|ls| - 1], ls[|ls| - 1];
      assert ls == p + [l];
      AssemblesIff(p);
      AlignAppend(p, l);
      LabelsAppend(p, l);
      if Assemble(p).Some? && l.defines.Some? {
        LabelAddress(p, l.defines.value);
      }
      StepSucceeds(ls);
    }
  }

  lemma StepSucceeds(ls: seq<Line>)
    requires ls != []
    ensures var p, l := ls[..|ls| - 1], ls[|ls| - 1];
            Assemble(ls).Some? <==>
              && Assemble(p).Some? && Addr(0, l).Some?
              && (l.defines.Some? ==> FindSymbol(Assemble(p).value.symtab, l.defines.value).None?)
  {
    hide FindSymbol;
  }

  lemma AlignAppend(p: seq<Line>, l: Line)
    ensures NoZeroAlign(p + [l]) <==> NoZeroAlign(p) && Addr(0, l).Some?
  {
    var ls := p + [l];
    assert ls[|p|] == l;
    forall k | 0 <= k < |p| ensures ls[k] == p[k] {
    }
    if NoZeroAlign(ls) {
      forall k | 0 <= k < |p| ensures Addr(0, p[k]).Some? {
        assert Addr(0, ls[k]).Some?;
      }
    }
  }

  lemma LabelsAppend(p: seq<Line>, l: Line)
    ensures DistinctLabels(p + [l]) <==>
            DistinctLabels(p) && (l.defines.Some? ==> forall k: nat :: !Defines(p, k, l.defines.value))
  {
    var ls, m := p + [l], |p|;
    forall k: nat, n: string ensures Defines(ls, k, n) <==> Defines(p, k, n) || (k == m && l.defines == Some(n)) {
    }
    if DistinctLabels(ls) {
      forall i: nat, k: nat, n: string | Defines(p, i, n) && Defines(p, k, n) ensures i == k {
        assert Defines(ls, i, n) && Defines(ls, k, n);
      }
      if l.defines.Some? {
        var n := l.defines.value;
        forall k: nat ensures !Defines(p, k, n) {
          assert Defines(ls, m, n);
          assert Defines(p, k, n) ==> Defines(ls, k, n);
        }
      }
    }
  }

  // ----- relocation

  /** Only fields of eight bytes refer to labels. */
  ghost predicate Wide(ls: seq<Line>) {
    forall k {:trigger ls[k]} | 0 <= k < |ls| && ls[k].stmt.Some? && Target(ls[k].stmt.value).Some? ::
      ls[k].stmt.value.Inst().bytes >= 8
  }

  ghost predicate ValidLines(ls: seq<Line>) {
    forall k {:trigger ls[k]} | 0 <= k < |ls| :: ValidLine(ls[k])
  }

  /** Every label referred to is in the table. */
  ghost predicate Resolved(ls: seq<Line>, tab: seq<Symbol>) {
    forall k {:trigger ls[k]} | 0 <= k < |ls| && ls[k].stmt.Some? && Target(ls[k].stmt.value).Some? ::
      FindSymbol(tab, Target(ls[k].stmt.value).value).Some?
  }

  /** The entry of a line once its label is known. */
  function Final(b: Bin, l: Line, tab: seq<Symbol>): Bin {
    if l.stmt.None? then b else b.(codes := Codes(l.stmt.value, tab))
  }

  ghost predicate AllFinal(r: seq<Bin>, lines: seq<Bin>, ls: seq<Line>, tab: seq<Symbol>) {
    |r| == |lines| == |ls| && forall k {:trigger r[k]} | 0 <= k < |r| :: r[k] == Final(lines[k], ls[k], tab)
  }

  lemma {:induction false} RelocateExtra(lines: seq<Bin>, b: Bin, rel: seq<Reloc>, tab: seq<Symbol>)
    requires Patchable(lines, rel)
    ensures Patchable(lines + [b], rel)
    ensures Relocate(lines + [b], rel, tab) ==
            match Relocate(lines, rel, tab) { case None => None case Some(x) => Some(x + [b]) }
    decreases |rel|
  {
    assert Patchable(lines + [b], rel);
    if rel != [] {
      PatchablePrefix(lines, rel);
      RelocateExtra(lines, b, rel[..|rel| - 1], tab);
      var last := rel[|rel| - 1];
      var r := Relocate(lines, rel[..|rel| - 1], tab);
      if r.Some? && FindSymbol(tab, last.name).Some? {
        var v := FindSymbol(tab, last.name).value;
        assert last.line < |lines|;
        assert (r.value + [b])[last.line := PatchLine(r.value[last.line], v)] ==
               r.value[last.line := PatchLine(r.value[last.line], v)] + [b];
      }
    }
  }

  /** Patching fills exactly the label field. */
  lemma PatchedIsCodes(st: Stmt, tab: seq<Symbol>, addr: int)
    requires ValidStmt(st) && Target(st).Some? && FindSymbol(tab, Target(st).value) == Some(addr)
    requires st.Inst().bytes >= 8
    ensures |Raw(st)| >= 8 && Patch(Raw(st), |Raw(st)| - 8, Low(addr, 8)) == Codes(st, tab)
  {
    hide Low, Patch, FindSymbol;
    TableLength(st, tab);
    if st.args.Data? { DataBytes(st); }
    assert Patch(Raw(st), |Raw(st)| - 8, Low(addr, 8)) == Codes(st, tab);
  }

  lemma DataBytes(st: Stmt)
    requires ValidStmt(st) && st.args.Data?
    ensures st.Inst().bytes <= 8
  {
    var k: nat :| k < ROWS && Row(k) == st.Inst();
  }

  lemma RawIsCodes(st: Stmt, tab: seq<Symbol>)
    requires Target(st).None?
    ensures Raw(st) == Codes(st, tab)
  {
  }

  /** relocate succeeds exactly when every label referred to is defined, and then every
      line holds its codes with the label's address in the label field, and no other
      byte has changed, wherever the label stands. */
  ghost predicate RelocatesRight(ls: seq<Line>, a: Tables, tab: seq<Symbol>) {
    && |a.lines| == |ls| && Patchable(a.lines, a.reltab)
    && var r := Relocate(a.lines, a.reltab, tab);
    && (r.Some? <==> Resolved(ls, tab))
    && (r.Some? ==> AllFinal(r.value, a.lines, ls, tab))
  }

  lemma {:induction false} Relocated(ls: seq<Line>, tab: seq<Symbol>)
    requires Assemble(ls).Some? && ValidLines(ls) && Wide(ls)
    ensures RelocatesRight(ls, Assemble(ls).value, tab)
    decreases |ls|
  {
    if ls != [] {
      var p, l := ls[..|ls| - 1], ls[|ls| - 1];
      assert ls == p + [l];
      hide RelocatesRight;
      assert ValidLines(p) && Wide(p);
      Relocated(p, tab);
      RelocatedStep(p, Assemble(p).value, l, Assemble(ls).value, tab);
    } else {
      assert RelocatesRight([], START, tab);
    }
  }

  lemma RelocatedStep(p: seq<Line>, a: Tables, l: Line, b: Tables, tab: seq<Symbol>)
    requires RelocatesRight(p, a, tab) && AddLine(a, l) == Some(b)
    requires ValidLine(l) && Wide([l])
    ensures RelocatesRight(p + [l], b, tab)
  {
    hide Raw, Codes, Low, Placed, FindSymbol, Relocate, AllFinal, Resolved, Patchable;
    var bin := b.lines[|p|];
    assert b.lines == a.lines + [bin];
    RelocateExtra(a.lines, bin, a.reltab, tab);
    ResolvedAppend(p, l, tab);
    assert [l][0] == l;
    if l.stmt.None? || Target(l.stmt.value).None? {
      assert b.reltab == a.reltab;
      if l.stmt.Some? { RawIsCodes(l.stmt.value, tab); }
      var r := Relocate(a.lines, a.reltab, tab);
      if r.Some? { AllFinalAppend(r.value, a.lines, p, bin, bin, l, tab); }
    } else {
      assert b.reltab == a.reltab + [Reloc(|p|, Target(l.stmt.value).value)];
      LabelledStep(p, a, l, bin, tab);
    }
  }

  /** A line that refers to a label: its relocation is the last. */
  lemma LabelledStep(p: seq<Line>, a: Tables, l: Line, bin: Bin, tab: seq<Symbol>)
    requires RelocatesRight(p, a, tab) && Patchable(a.lines + [bin], a.reltab)
    requires Relocate(a.lines + [bin], a.reltab, tab) ==
             match Relocate(a.lines, a.reltab, tab) { case None => None case Some(x) => Some(x + [bin]) }
    requires ValidLine(l) && l.stmt.Some? && Target(l.stmt.value).Some? && l.stmt.value.Inst().bytes >= 8
    requires bin == BinOf(bin.addr, l)
    ensures var rel := a.reltab + [Reloc(|p|, Target(l.stmt.value).value)];
            RelocatesRight(p + [l], Tables(0, [], rel, a.lines + [bin]), tab)
  {
    hide Raw, Codes, Low, Placed, FindSymbol, AllFinal, Resolved, Patchable;
    var st := l.stmt.value;
    var n := Target(st).value;
    var lines, rel := a.lines + [bin], a.reltab + [Reloc(|p|, n)];
    TableLength(st, tab);
    ResolvedAppend(p, l, tab);
    PatchableAppend(lines, a.reltab, Reloc(|p|, n));
    assert rel[..|a.reltab|] == a.reltab && rel[|rel| - 1] == Reloc(|p|, n);
    var r := Relocate(a.lines, a.reltab, tab);
    if r.Some? && FindSymbol(tab, n).Some? {
      var v := FindSymbol(tab, n).value;
      PatchedIsCodes(st, tab, v);
      AllFinalAppend(r.value, a.lines, p, PatchLine(bin, v), bin, l, tab);
      assert (r.value + [bin])[|p| := PatchLine(bin, v)] == r.value + [PatchLine(bin, v)];
    }
  }

  lemma PatchableAppend(lines: seq<Bin>, rel: seq<Reloc>, last: Reloc)
    requires Patchable(lines, rel) && last.line < |lines| && |lines[last.line].codes| >= 8
    ensures Patchable(lines, rel + [last])
  {
    var all := rel + [last];
    forall j | 0 <= j < |all| ensures all[j].line < |lines| && |lines[all[j].line].codes| >= 8 {
      if j < |rel| { assert all[j] == rel[j]; }
    }
  }

  lemma ResolvedAppend(p: seq<Line>, l: Line, tab: seq<Symbol>)
    ensures Resolved(p + [l], tab) <==>
            Resolved(p, tab) &&
            (l.stmt.Some? && Target(l.stmt.value).Some? ==> FindSymbol(tab, Target(l.stmt.value).value).Some?)
  {
    var ls := p + [l];
    assert ls[|p|] == l;
    if Resolved(ls, tab) {
      forall k | 0 <= k < |p| && p[k].stmt.Some? && Target(p[k].stmt.value).Some?
        ensures FindSymbol(tab, Target(p[k].stmt.value).value).Some?
      {
        assert ls[k] == p[k];
      }
    }
  }

  lemma AllFinalAppend(x: seq<Bin>, lines: seq<Bin>, ls: seq<Line>, y: Bin, b: Bin, l: Line, tab: seq<Symbol>)
    requires AllFinal(x, lines, ls, tab) && y == Final(b, l, tab)
    ensures AllFinal(x + [y], lines + [b], ls + [l], tab)
  {
    forall k | 0 <= k < |x| + 1 ensures (x + [y])[k] == Final((lines + [b])[k], (ls + [l])[k], tab) {
      if k < |x| { assert x[k] == Final(lines[k], ls[k], tab); }
    }
  }

  /** Every reference to a label is in the relocation table. */
  lemma {:induction false} HasReloc(ls: seq<Line>, k: nat) returns (j: nat)
    requires Assemble(ls).Some? && k < |ls| && ls[k].stmt.Some? && Target(ls[k].stmt.value).Some?
    ensures |Assemble(ls).value.lines| == |ls|
    ensures j < |Assemble(ls).value.reltab| && Assemble(ls).value.reltab[j].line == k
    decreases |ls|
  {
    hide Raw, Placed;
    var p := ls[..|ls| - 1];
    AssemblePrefix(ls, |ls| - 1);
    if k == |ls| - 1 {
      j := |Assemble(p).value.reltab|;
    } else {
      j := HasReloc(p, k);
    }
  }

  /** relocate writes eight bytes that end with the line's codes: it stays inside them for
      every line exactly when no label stands in a .byte, .word or .long. */
  lemma PatchableIff(ls: seq<Line>)
    requires Assemble(ls).Some? && ValidLines(ls)
    ensures Patchable(Assemble(ls).value.lines, Assemble(ls).value.reltab) <==> Wide(ls)
  {
    hide Raw, Assemble, Placed, AllFinal, Resolved;
    var a := Assemble(ls).value;
    if Wide(ls) { Relocated(ls, a.symtab); }
    if Patchable(a.lines, a.reltab) {
      forall k | 0 <= k < |ls| && ls[k].stmt.Some? && Target(ls[k].stmt.value).Some?
        ensures ls[k].stmt.value.Inst().bytes >= 8
      {
        var j := HasReloc(ls, k);
        assert |a.lines[a.reltab[j].line].codes| >= 8;
        LineIs(ls, k);
        assert ValidLine(ls[k]);
        TableLength(ls[k].stmt.value, a.symtab);
      }
    }
  }

  /** assemble and relocate together: they leave every label operand's value equal to the
      address counter at the one line that defines the label, before or after. */
  lemma LabelsResolve(ls: seq<Line>)
    requires Assemble(ls).Some? && ValidLines(ls) && Wide(ls)
    ensures var tab := Assemble(ls).value.symtab;
            && RelocatesRight(ls, Assemble(ls).value, tab)
            && DistinctLabels(ls)
            && forall k: nat, n: string {:trigger Defines(ls, k, n)} | Defines(ls, k, n) ::
                 Value(Label(n), tab) == Vm(ls, k) && FindSymbol(tab, n).Some?
    ensures Resolved(ls, Assemble(ls).value.symtab) <==>
            forall k {:trigger ls[k]} | 0 <= k < |ls| && ls[k].stmt.Some? && Target(ls[k].stmt.value).Some? ::
              exists j: nat :: Defines(ls, j, Target(ls[k].stmt.value).value)
  {
    hide RelocatesRight, Vm, FindSymbol, Assemble;
    var tab := Assemble(ls).value.symtab;
    Relocated(ls, tab);
    AssemblesIff(ls);
    forall k: nat, n: string | Defines(ls, k, n)
      ensures Value(Label(n), tab) == Vm(ls, k) && FindSymbol(tab, n).Some?
    {
      LabelAddress(ls, n);
    }
    forall k | 0 <= k < |ls| && ls[k].stmt.Some? && Target(ls[k].stmt.value).Some?
      ensures FindSymbol(tab, Target(ls[k].stmt.value).value).Some? <==>
              exists j: nat :: Defines(ls, j, Target(ls[k].stmt.value).value)
    {
      LabelAddress(ls, Target(ls[k].stmt.value).value);
    }
  }

  // ----- extents

  ghost predicate Covers(b: Bin, p: int) {
    b.ins && b.addr <= p < b.addr + |b.codes|
  }

  ghost predicate Before(b: Bin, c: Bin) {
    b.ins && c.ins ==> b.addr + |b.codes| <= c.addr
  }

  /** The extents of the lines are disjoint and in order. */
  ghost predicate Ordered(lines: seq<Bin>) {
    forall i: nat, k: nat {:trigger Before(lines[i], lines[k])} | i < k < |lines| :: Before(lines[i], lines[k])
  }

  /** Where two lines lie on the same bytes they have the same codes there. */
  ghost predicate Agree(b: Bin, c: Bin) {
    forall p: int {:trigger Covers(b, p)} | Covers(b, p) && Covers(c, p) :: b.codes[p - b.addr] == c.codes[p - c.addr]
  }

  /** In any order, no line has a byte that another line wants otherwise. */
  ghost predicate Agreeing(lines: seq<Bin>) {
    forall i: nat, k: nat {:trigger Agree(lines[i], lines[k])} | i < k < |lines| :: Agree(lines[i], lines[k])
  }

  lemma OrderedAgree(lines: seq<Bin>)
    requires Ordered(lines)
    ensures Agreeing(lines)
  {
    forall i: nat, k: nat | i < k < |lines| ensures Agree(lines[i], lines[k]) { assert Before(lines[i], lines[k]); }
  }

  ghost predicate Started(ls: seq<Line>, k: nat) {
    exists i: nat :: i < k && i < |ls| && (ls[i].stmt.Some? || ls[i].defines.Some?)
  }

  /** No .pos or .align but the first thing in the program moves the address counter back. */
  ghost predicate Forward(ls: seq<Line>)
    requires Assemble(ls).Some?
  {
    forall k: nat {:trigger Vm(ls, k)} | k < |ls| && ls[k].stmt.Some? && Started(ls, k) ::
      Placed(Vm(ls, k), ls[k].stmt.value).Some? && Vm(ls, k) <= Placed(Vm(ls, k), ls[k].stmt.value).value
  }

  /** The last line that is not a comment ends at the address counter. */
  lemma {:induction false} LastEnds(ls: seq<Line>, k: nat) returns (i: nat)
    requires Assemble(ls).Some? && k <= |ls| == |Assemble(ls).value.lines| && Started(ls, k)
    ensures i < k && var b := Assemble(ls).value.lines[i]; b.ins && b.addr + |b.codes| == Vm(ls, k)
  {
    hide Raw, Placed, Assemble, Vm;
    var j: nat :| j < k && j < |ls| && (ls[j].stmt.Some? || ls[j].defines.Some?);
    LineIs(ls, k - 1);
    if ls[k - 1].stmt.Some? || ls[k - 1].defines.Some? {
      i := k - 1;
    } else {
      assert j < k - 1;
      i := LastEnds(ls, k - 1);
    }
  }

  /** While it moves forward every line ends at or before the address counter. */
  lemma {:induction false} EndsBefore(ls: seq<Line>, i: nat, k: nat)
    requires Assemble(ls).Some? && i < k <= |ls| == |Assemble(ls).value.lines| && Forward(ls)
    ensures var b := Assemble(ls).value.lines[i]; b.ins ==> b.addr + |b.codes| <= Vm(ls, k)
    decreases k
  {
    hide Raw, Placed, Assemble, Vm;
    LineIs(ls, k - 1);
    if i < k - 1 {
      EndsBefore(ls, i, k - 1);
      LineIs(ls, i);
      if ls[k - 1].stmt.Some? && Assemble(ls).value.lines[i].ins { assert Started(ls, k - 1); }
    }
  }

  /** Line extents are disjoint and ordered exactly when no directive after the first
      line of the program moves back. */
  lemma OrderedIff(ls: seq<Line>)
    requires Assemble(ls).Some?
    ensures Ordered(Assemble(ls).value.lines) <==> Forward(ls)
  {
    hide Raw, Placed, Assemble, Vm;
    var lines := Assemble(ls).value.lines;
    AssemblePrefix(ls, |ls|);
    assert ls[..|ls|] == ls;
    if Forward(ls) {
      forall i: nat, k: nat | i < k < |lines| ensures Before(lines[i], lines[k]) {
        OrderedPair(ls, i, k);
      }
    }
    if Ordered(lines) {
      forall k: nat | k < |ls| && ls[k].stmt.Some? && Started(ls, k)
        ensures Placed(Vm(ls, k), ls[k].stmt.value).Some? && Vm(ls, k) <= Placed(Vm(ls, k), ls[k].stmt.value).value
      {
        LineIs(ls, k);
        var i := LastEnds(ls, k);
        assert Before(lines[i], lines[k]);
      }
    }
  }

  lemma OrderedPair(ls: seq<Line>, i: nat, k: nat)
    requires Assemble(ls).Some? && i < k < |ls| == |Assemble(ls).value.lines| && Forward(ls)
    ensures Before(Assemble(ls).value.lines[i], Assemble(ls).value.lines[k])
  {
    hide Raw, Placed, Assemble, Vm;
    var lines := Assemble(ls).value.lines;
    EndsBefore(ls, i, k);
    LineIs(ls, k);
    LineIs(ls, i);
    if lines[i].ins && ls[k].stmt.Some? { assert Started(ls, k); }
  }

  // ----- the binary file

  ghost predicate NoneNegative(lines: seq<Bin>) {
    forall k {:trigger lines[k]} | 0 <= k < |lines| :: lines[k].ins ==> lines[k].addr >= 0
  }

  /** The file shows the codes of a line at its address. */
  ghost predicate Shows(file: seq<Byte>, b: Bin) {
    b.ins && b.codes != [] ==>
      0 <= b.addr && b.addr + |b.codes| <= |file| && file[b.addr..b.addr + |b.codes|] == b.codes
  }

  ghost predicate ShowsAll(file: seq<Byte>, lines: seq<Bin>) {
    forall k {:trigger lines[k]} | 0 <= k < |lines| :: Shows(file, lines[k])
  }

  /** Bytes no line covers are zero, and the file ends with a line. */
  ghost predicate NothingElse(file: seq<Byte>, lines: seq<Bin>) {
    && (forall p: nat
          | p < |file| && (forall k {:trigger lines[k]} | 0 <= k < |lines| :: !Covers(lines[k], p)) :: file[p] == 0)
    && (file == [] || exists k :: 0 <= k < |lines| && lines[k].ins && lines[k].addr + |lines[k].codes| == |file|)
  }

  lemma WriteKeeps(file: seq<Byte>, b: Bin, c: Bin)
    requires Shows(file, b) && c.ins && 0 <= c.addr && Agree(b, c)
    ensures Shows(WriteAt(file, c.addr, c.codes), b) && Shows(WriteAt(file, c.addr, c.codes), c)
  {
    hide Patch, Padded;
    var f := WriteAt(file, c.addr, c.codes);
    if b.ins && b.codes != [] {
      forall i: nat | i < |b.codes| ensures f[b.addr..b.addr + |b.codes|][i] == b.codes[i] {
        var p := b.addr + i;
        assert Covers(b, p) && file[b.addr..b.addr + |b.codes|][i] == file[p];
        if Covers(c, p) { assert f[c.addr..c.addr + |c.codes|][p - c.addr] == c.codes[p - c.addr]; }
      }
    }
    if c.codes != [] {
      assert f[c.addr..c.addr + |c.codes|] == c.codes;
    }
  }

  /** A file can only show lines that agree. */
  lemma ShownAgree(file: seq<Byte>, lines: seq<Bin>)
    requires ShowsAll(file, lines)
    ensures Agreeing(lines)
  {
    forall i: nat, k: nat | i < k < |lines| ensures Agree(lines[i], lines[k]) {
      var b, c := lines[i], lines[k];
      assert Shows(file, b) && Shows(file, c);
      forall p: int | Covers(b, p) && Covers(c, p) ensures b.codes[p - b.addr] == c.codes[p - c.addr] {
        assert file[b.addr..b.addr + |b.codes|][p - b.addr] == file[p] == file[c.addr..c.addr + |c.codes|][p - c.addr];
      }
    }
  }

  lemma WriteZeros(file: seq<Byte>, lines: seq<Bin>, c: Bin)
    requires NothingElse(file, lines) && c.ins && 0 <= c.addr
    ensures NothingElse(WriteAt(file, c.addr, c.codes), lines + [c])
  {
    hide Patch, Padded;
    var f, all := WriteAt(file, c.addr, c.codes), lines + [c];
    forall p: nat | p < |f| && (forall k | 0 <= k < |all| :: !Covers(all[k], p)) ensures f[p] == 0 {
      assert !Covers(all[|lines|], p);
      forall k | 0 <= k < |lines| ensures !Covers(lines[k], p) {
        assert all[k] == lines[k];
      }
    }
    FileEnds(file, lines, c);
  }

  lemma FileEnds(file: seq<Byte>, lines: seq<Bin>, c: Bin)
    requires NothingElse(file, lines) && c.ins && 0 <= c.addr
    ensures var f, all := WriteAt(file, c.addr, c.codes), lines + [c];
            f == [] || exists k :: 0 <= k < |all| && all[k].ins && all[k].addr + |all[k].codes| == |f|
  {
    hide Patch, Padded;
    var f, all := WriteAt(file, c.addr, c.codes), lines + [c];
    if f != [] {
      if |f| == |file| {
        var k :| 0 <= k < |lines| && lines[k].ins && lines[k].addr + |lines[k].codes| == |file|;
        assert all[k] == lines[k];
      } else {
        assert all[|lines|] == c;
      }
    }
  }

  /** The binary file can be written exactly when no line lies below address 0; it has
      zeros in the gaps and nothing after the last line, and every line's codes at its
      address exactly when lines that overlap agree. */
  lemma {:induction false} FileShowsLines(lines: seq<Bin>)
    ensures Written(lines).Some? <==> NoneNegative(lines)
    ensures Written(lines).Some? ==> NothingElse(Written(lines).value, lines)
    ensures Written(lines).Some? ==> (ShowsAll(Written(lines).value, lines) <==> Agreeing(lines))
    decreases |lines|
  {
    if lines != [] {
      hide Shows, NothingElse, WriteAt;
      var p, b := lines[..|lines| - 1], lines[|lines| - 1];
      assert lines == p + [b];
      FileShowsLines(p);
      assert NoneNegative(lines) <==> NoneNegative(p) && (b.ins ==> b.addr >= 0) by { NegativeAppend(p, b); }
      if Written(p).Some? {
        var file := Written(p).value;
        if b.ins && b.addr >= 0 {
          WriteZeros(file, p, b);
          if Agreeing(lines) { ShowsAppend(file, p, b); }
        } else if !b.ins {
          CommentAppend(file, p, b);
        }
      }
      if Written(lines).Some? && ShowsAll(Written(lines).value, lines) { ShownAgree(Written(lines).value, lines); }
    }
  }

  lemma NegativeAppend(p: seq<Bin>, b: Bin)
    ensures NoneNegative(p + [b]) <==> NoneNegative(p) && (b.ins ==> b.addr >= 0)
  {
    var all := p + [b];
    assert all[|p|] == b;
    if NoneNegative(all) {
      forall k | 0 <= k < |p| ensures p[k].ins ==> p[k].addr >= 0 { assert all[k] == p[k]; }
    }
  }

  lemma AgreeingPrefix(p: seq<Bin>, b: Bin)
    requires Agreeing(p + [b])
    ensures Agreeing(p)
    ensures forall k {:trigger p[k]} | 0 <= k < |p| :: Agree(p[k], b)
  {
    var all := p + [b];
    forall i: nat, k: nat | i < k < |p| ensures Agree(p[i], p[k]) {
      assert Agree(all[i], all[k]);
    }
    forall k | 0 <= k < |p| ensures Agree(p[k], b) {
      assert Agree(all[k], all[|p|]);
    }
  }

  lemma ShowsAppend(file: seq<Byte>, p: seq<Bin>, b: Bin)
    requires Agreeing(p + [b]) && b.ins && b.addr >= 0 && (Agreeing(p) ==> ShowsAll(file, p))
    ensures ShowsAll(WriteAt(file, b.addr, b.codes), p + [b])
  {
    hide Shows, WriteAt;
    AgreeingPrefix(p, b);
    var f, all := WriteAt(file, b.addr, b.codes), p + [b];
    forall k | 0 <= k < |all| ensures Shows(f, all[k]) {
      if k < |p| {
        assert all[k] == p[k];
        WriteKeeps(file, p[k], b);
      } else {
        EmptyShows(file);
        WriteKeeps(file, Bin(false, 0, []), b);
      }
    }
  }

  lemma EmptyShows(file: seq<Byte>)
    ensures Shows(file, Bin(false, 0, []))
  {
  }

  lemma CommentAppend(file: seq<Byte>, p: seq<Bin>, b: Bin)
    requires NothingElse(file, p) && !b.ins
    ensures NothingElse(file, p + [b])
    ensures Agreeing(p + [b]) && (Agreeing(p) ==> ShowsAll(file, p)) ==> ShowsAll(file, p + [b])
  {
    var all := p + [b];
    forall q: nat | q < |file| && (forall k | 0 <= k < |all| :: !Covers(all[k], q)) ensures file[q] == 0 {
      forall k | 0 <= k < |p| ensures !Covers(p[k], q) { assert all[k] == p[k]; }
    }
    if file != [] {
      var k :| 0 <= k < |p| && p[k].ins && p[k].addr + |p[k].codes| == |file|;
      assert all[k] == p[k];
    }
    if Agreeing(all) && (Agreeing(p) ==> ShowsAll(file, p)) {
      AgreeingPrefix(p, b);
      forall k | 0 <= k < |all| ensures Shows(file, all[k]) {
        if k < |p| { assert all[k] == p[k]; }
      }
    }
  }
}
