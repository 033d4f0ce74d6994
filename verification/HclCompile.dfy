/** The C tokens gen_expr emits parse, under C's precedence, to an expression with the value of the HCL one. */
module HclCompile {
  import opened Bits
  import opened CExpr
  import opened Hcl
  import Words
  import opened Wrappers

  // ----- what should be emitted

  predicate LiteralOne(e: Expr) {
    e.Num? && !e.num.neg && Decimal(e.num.digits) == 1
  }

  function Tokens(e: Expr): seq<Token>
    decreases e, 0
  {
    match e
    case Var(x) => [LP, Text(x), RP]
    case Num(n) => NumTokens(n)
    case Not(a) => [Bang] + Tokens(a)
    case And(a, b) => [LP] + (Tokens(a) + [Amp] + Tokens(b)) + [RP]
    case Or(a, b) => [LP] + (Tokens(a) + [Bar] + Tokens(b)) + [RP]
    case Comp(r, a, b) => [LP] + (Tokens(a) + [RelOp(r)] + Tokens(b)) + [RP]
    case In(a, s) => [LP] + SetTokens(Tokens(a), s) + [RP]
    case Case(arms) => [LP] + ArmTokens(arms) + [RP]
  }

  function SetTokens(ta: seq<Token>, s: seq<Expr>): seq<Token>
    decreases s, 1
  {
    if s == [] then []
    else if |s| == 1 then ta + [RelOp(EQ)] + Tokens(s[0])
    else (ta + [RelOp(EQ)] + Tokens(s[0])) + [BarBar] + SetTokens(ta, s[1..])
  }

  function ArmTokens(arms: seq<Arm>): seq<Token>
    decreases arms, 1
  {
    if arms == [] then [Number([0])] else
      var a := arms[0];
      assert a.cond < a && a.value < a;
      if LiteralOne(a.cond) then Tokens(a.value)
      else (Tokens(a.cond) + [Ques] + Tokens(a.value)) + [Colon] + ArmTokens(arms[1..])
  }

  // ----- when it is emitted

  /** The numeral 0, as the default of a case list is written. */
  const DEFAULT := Num(Numeral(false, [0]))

  /** Taken for an arm of a case list, the expression would be the arm `1 : 0`. */
  predicate ZeroArm(e: Expr) {
    match e
    case And(a, b) => LiteralOne(a) && b == DEFAULT
    case Or(a, b) => LiteralOne(a) && b == DEFAULT
    case Comp(_, a, b) => LiteralOne(a) && b == DEFAULT
    case In(a, s) => LiteralOne(a) && s != [] && s[0] == DEFAULT
    case Case(arms) => arms != [] && LiteralOne(arms[0].cond) && arms[0].value == DEFAULT
    case _ => false
  }

  /** A case list among the elements of a set shares its links with the set's list; it
      comes out whole only when it has a single arm and what follows adds nothing. */
  predicate ElementOk(e: Expr, rest: seq<Expr>) {
    e.Case? ==> |e.arms| == 1 && (rest == [] || LiteralOne(e.arms[0].cond) || ZeroArm(rest[0]))
  }

  /** Every set in the emitted part has only such elements, if it has any. */
  predicate Safe(e: Expr)
    decreases e, 0
  {
    match e
    case Var(_) => true
    case Num(_) => true
    case Not(a) => Safe(a)
    case And(a, b) => Safe(a) && Safe(b)
    case Or(a, b) => Safe(a) && Safe(b)
    case Comp(_, a, b) => Safe(a) && Safe(b)
    case In(a, s) => s == [] || (Safe(a) && SafeSet(s))
    case Case(arms) => arms != [] && SafeArms(arms)
  }

  predicate SafeSet(s: seq<Expr>)
    decreases s, 1
  {
    s == [] || (ElementOk(s[0], s[1..]) && Safe(s[0]) && SafeSet(s[1..]))
  }

  predicate SafeArms(arms: seq<Arm>)
    decreases arms, 1
  {
    arms == [] ||
    (var a := arms[0];
     assert a.cond < a && a.value < a;
     if LiteralOne(a.cond) then Safe(a.value) else Safe(a.cond) && Safe(a.value) && SafeArms(arms[1..]))
  }

  lemma {:induction false} ConcatAssoc(a: Node, b: Node, c: Node)
    ensures Concat(Concat(a, b), c) == Concat(a, Concat(b, c))
  {
    if a.Node? { ConcatAssoc(a.next, b, c); }
  }

  lemma {:induction false} ConcatNull(a: Node)
    ensures Concat(a, Null) == a
  {
    if a.Node? { ConcatNull(a.next); }
  }

  lemma {:induction false} ListFromFront(s: seq<Expr>)
    requires s != []
    ensures BuildList(s) == Concat(Build(s[0]), BuildList(s[1..]))
  {
    var n := |s| - 1;
    if n == 0 {
      assert BuildList(s[..0]) == Null;
      ConcatNull(Build(s[0]));
    } else {
      ListFromFront(s[..n]);
      assert s[..n][1..] == s[1..][..n - 1];
      ConcatAssoc(Build(s[0]), BuildList(s[..n][1..]), Build(s[n]));
    }
  }

  function ArmNode(a: Arm): (n: Node)
    ensures n.Node?
  {
    NewNode(N_CASE, false, SOther, Build(a.cond), Build(a.value))
  }

  lemma {:induction false} ArmsFromFront(arms: seq<Arm>)
    requires arms != []
    ensures ArmNode(arms[0]).Node? && BuildArms(arms) == ArmNode(arms[0]).(next := BuildArms(arms[1..]))
  {
    var n := |arms| - 1;
    if n == 0 {
      assert BuildArms(arms[..0]) == Null;
    } else {
      ArmsFromFront(arms[..n]);
      assert arms[..n][1..] == arms[1..][..n - 1];
    }
  }

  lemma OneIsOne(e: Expr)
    ensures (e.Case? ==> e.arms != []) ==> (IsOne(Build(e)) <==> LiteralOne(e))
    ensures (e.Case? ==> e.arms != []) ==> Build(e).Node?
  {
    if e.Case? && e.arms != [] { ArmsFromFront(e.arms); }
  }

  lemma NoElements(a: Expr)
    ensures Gen(Build(In(a, []))) == Some([LP, RP]) && Tokens(In(a, [])) == [LP, RP]
  {
    var n := Build(In(a, []));
    assert n.arg2 == BuildList([]) == Null;
    assert GenSet(n.arg1, n.arg2) == Some([]);
    assert [LP] + [] + [RP] == [LP, RP];
  }

  /** For a safe expression gen_expr emits just what it should. */
  lemma {:induction false} Emits(e: Expr)
    requires Safe(e)
    ensures Gen(Build(e)) == Some(Tokens(e))
    decreases e, 0
  {
    hide GenSet, GenArms, SetTokens, ArmTokens;
    match e
    case Var(_) =>
    case Num(_) =>
    case Not(a) => Emits(a); assert [] + [Bang] + Tokens(a) == [Bang] + Tokens(a);
    case And(a, b) => Emits(a); Emits(b);
    case Or(a, b) => Emits(a); Emits(b);
    case Comp(_, a, b) => Emits(a); Emits(b);
    case In(a, s) => if s == [] { NoElements(a); } else { Emits(a); EmitsSet(Build(a), Tokens(a), s); }
    case Case(arms) => EmitsArms(arms); ArmsFromFront(arms);
  }

  lemma {:induction false} EmitsArms(arms: seq<Arm>)
    requires SafeArms(arms)
    ensures GenArms(BuildArms(arms)) == Some(ArmTokens(arms))
    decreases arms, 1
  {
    if arms != [] {
      var a := arms[0];
      assert a.cond < a && a.value < a;
      ArmsFromFront(arms);
      OneIsOne(a.cond);
      Emits(a.value);
      if !LiteralOne(a.cond) {
        Emits(a.cond);
        EmitsArms(arms[1..]);
      }
    }
  }

  lemma {:induction false} EmitsSet(na: Node, ta: seq<Token>, s: seq<Expr>)
    requires Gen(na) == Some(ta) && SafeSet(s)
    ensures GenSet(na, BuildList(s)) == Some(SetTokens(ta, s))
    decreases s, 1
  {
    if s != [] {
      ListFromFront(s);
      var x := BuildList(s[1..]);
      Emits(s[0]);
      OneIsOne(s[0]);
      if |s| > 1 { ZeroArmEmits(s[1], BuildList(s[2..])); NextLinks(s); }
      SingleNode(s[0], x, s[1..]);
      if |s| > 1 {
        assert SafeSet(s[1..]) && s[1..][0] == s[1];
        ListFromFront(s[1..]);
        OneIsOne(s[1]);
        assert x.Node?;
        EmitsSet(na, ta, s[1..]);
      }
    }
  }

  lemma NextLinks(s: seq<Expr>)
    requires |s| > 1
    ensures BuildList(s[1..]) == Concat(Build(s[1]), BuildList(s[2..]))
  {
    ListFromFront(s[1..]);
    assert s[1..][0] == s[1] && s[1..][1..] == s[2..];
  }

  /** Linked behind an arm, such an expression emits just the default. */
  lemma ZeroArmEmits(e: Expr, x: Node)
    ensures ZeroArm(e) ==> Concat(Build(e), x).Node? && GenArms(Concat(Build(e), x)) == Some([Number([0])])
  {
    hide Gen, Concat, BuildList;
    if ZeroArm(e) {
      match e
      case And(a, b) => TwoArgs(Build(e), x);
      case Or(a, b) => TwoArgs(Build(e), x);
      case Comp(_, a, b) => TwoArgs(Build(e), x);
      case In(a, s) =>
        ListFromFront(s);
        TwoArgs(Build(e), x);
        HeadIgnoresNext(DEFAULT, BuildList(s[1..]));
        OneIsOne(a);
      case Case(arms) =>
        ArmsFromFront(arms);
        ConcatHead(ArmNode(arms[0]).(next := BuildArms(arms[1..])), x);
        OneIsOne(arms[0].cond);
      case _ =>
    }
    DefaultEmits();
    match e
    case And(a, b) => OneIsOne(a);
    case Or(a, b) => OneIsOne(a);
    case Comp(_, a, b) => OneIsOne(a);
    case _ =>
  }

  lemma DefaultEmits()
    ensures Gen(Build(DEFAULT)) == Some([Number([0])])
  {
  }

  lemma ConcatHead(n: Node, x: Node)
    ensures n.Node? ==> Concat(n, x) == n.(next := Concat(n.next, x))
  {
  }

  lemma TwoArgs(n: Node, x: Node)
    ensures n.Node? ==> Concat(n, x).Node? && Concat(n, x).arg1 == n.arg1 && Concat(n, x).arg2 == n.arg2
  {
  }

  /** Only case lists look at what follows their node. */
  lemma HeadIgnoresNext(e: Expr, x: Node)
    requires !e.Case?
    ensures Build(e).Node? && Concat(Build(e), x) == Build(e).(next := x)
    ensures Gen(Concat(Build(e), x)) == Gen(Build(e))
  {
  }

  /** An element is one node, and linking it in does not change what it emits. */
  lemma SingleNode(e: Expr, x: Node, rest: seq<Expr>)
    requires ElementOk(e, rest) && (rest == [] ==> x == Null)
    requires rest != [] && ZeroArm(rest[0]) ==> x.Node? && GenArms(x) == Some([Number([0])])
    ensures Build(e).Node? && Concat(Build(e), x) == Build(e).(next := x)
    ensures Gen(Build(e).(next := x)) == Gen(Build(e))
  {
    hide Gen, GenArms, Build, IsOne, ZeroArm;
    if !e.Case? {
      HeadIgnoresNext(e, x);
    } else {
      SingleArm(e);
      var n := Build(e);
      assert Concat(Null, x) == x;
      LastArm(n, x);
      GenCase(n);
      GenCase(n.(next := x));
    }
  }

  lemma SingleArm(e: Expr)
    requires e.Case? && |e.arms| == 1
    ensures var n := Build(e);
            n.Node? && n.kind == N_CASE && n.next.Null? && (IsOne(n.arg1) <==> LiteralOne(e.arms[0].cond))
  {
    ArmsFromFront(e.arms);
    assert BuildArms(e.arms[1..]) == Null;
    OneIsOne(e.arms[0].cond);
  }

  lemma LastArm(n: Node, x: Node)
    requires n.Node? && n.next.Null? && (IsOne(n.arg1) || x.Null? || GenArms(x) == Some([Number([0])]))
    ensures GenArms(n.(next := x)) == GenArms(n)
  {
    hide Gen, IsOne;
    assert GenArms(Null) == Some([Number([0])]);
  }

  lemma GenCase(n: Node)
    ensures n.Node? && n.kind == N_CASE ==> Gen(n) == Parens(GenArms(n))
  {
  }

  // ----- what it parses to

  function Tree(e: Expr): CTree
    decreases e, 0
  {
    match e
    case Var(x) => CText(x)
    case Num(n) => if n.neg then CNeg(CNum(n.digits)) else CNum(n.digits)
    case Not(a) => CNot(Tree(a))
    case And(a, b) => CBin(Amp, Tree(a), Tree(b))
    case Or(a, b) => CBin(Bar, Tree(a), Tree(b))
    case Comp(r, a, b) => CBin(RelOp(r), Tree(a), Tree(b))
    case In(a, s) => if s == [] then CNum([0]) else SetTree(CBin(RelOp(EQ), Tree(a), Tree(s[0])), Tree(a), s[1..])
    case Case(arms) => ArmTree(arms)
  }

  /** An || chain, left-associative, of comparisons with each element. */
  function SetTree(acc: CTree, ta: CTree, s: seq<Expr>): CTree
    decreases s, 1
  {
    if s == [] then acc
    else SetTree(CBin(BarBar, acc, CBin(RelOp(EQ), ta, Tree(s[0]))), ta, s[1..])
  }

  function ArmTree(arms: seq<Arm>): CTree
    decreases arms, 1
  {
    if arms == [] then CNum([0]) else
      var a := arms[0];
      assert a.cond < a && a.value < a;
      if LiteralOne(a.cond) then Tree(a.value) else CCond(Tree(a.cond), Tree(a.value), ArmTree(arms[1..]))
  }

  /** Sets are not empty in the emitted part. */
  predicate Full(e: Expr)
    decreases e, 0
  {
    match e
    case Var(_) => true
    case Num(_) => true
    case Not(a) => Full(a)
    case And(a, b) => Full(a) && Full(b)
    case Or(a, b) => Full(a) && Full(b)
    case Comp(_, a, b) => Full(a) && Full(b)
    case In(a, s) => Full(a) && s != [] && forall i | 0 <= i < |s| :: Full(s[i])
    case Case(arms) => forall i | 0 <= i < |arms| :: Full(arms[i].cond) && Full(arms[i].value)
  }

  ghost predicate OperandAt(ts: seq<Token>, t: CTree, r: seq<Token>) {
    ParseUnary(ts + r) == Some((t, r))
  }

  /** Whatever follows, `ts` parses as one operand, `t`. */
  ghost predicate Operand(ts: seq<Token>, t: CTree) {
    forall r {:trigger OperandAt(ts, t, r)} :: OperandAt(ts, t, r)
  }

  predicate Ends(r: seq<Token>) {
    r != [] && Level(r[0]) == -1
  }

  /** An operand before a token that is no operator. */
  lemma Alone(ts: seq<Token>, t: CTree, r: seq<Token>)
    requires Operand(ts, t) && Ends(r)
    ensures ParseBin(0, ts + r) == Some((t, r))
    ensures r[0] != Ques ==> ParseCond(ts + r) == Some((t, r))
  {
    assert OperandAt(ts, t, r);
    Lift(TIGHTEST, 0, ts + r, t, r);
  }

  /** Two operands around an operator. */
  lemma Pair(ta: seq<Token>, a: CTree, op: Token, tb: seq<Token>, b: CTree, r: seq<Token>, loose: nat)
    requires Operand(ta, a) && Operand(tb, b) && 0 <= Level(op) && loose <= Level(op) && Stops(loose, r)
    ensures ParseBin(loose, (ta + [op] + tb) + r) == Some((CBin(op, a, b), r))
  {
    assert OperandAt(ta, a, [op] + (tb + r)) && OperandAt(tb, b, r);
    Binary(ta + ([op] + (tb + r)), a, op, tb + r, b, r, loose);
    assert (ta + [op] + tb) + r == ta + ([op] + (tb + r));
  }

  /** What parses whole inside parentheses is an operand. */
  lemma Paren(ts: seq<Token>, t: CTree)
    requires forall r :: ParseCond(ts + ([RP] + r)) == Some((t, [RP] + r))
    ensures Operand([LP] + ts + [RP], t)
  {
    forall r ensures OperandAt([LP] + ts + [RP], t, r) {
      assert ([LP] + ts + [RP] + r)[1..] == ts + ([RP] + r);
      assert ([RP] + r)[1..] == r;
    }
  }

  lemma ParenPair(ta: seq<Token>, a: CTree, op: Token, tb: seq<Token>, b: CTree)
    requires Operand(ta, a) && Operand(tb, b) && 0 <= Level(op)
    ensures Operand([LP] + (ta + [op] + tb) + [RP], CBin(op, a, b))
  {
    forall r ensures ParseCond((ta + [op] + tb) + ([RP] + r)) == Some((CBin(op, a, b), [RP] + r)) {
      Pair(ta, a, op, tb, b, [RP] + r, 0);
    }
    Paren(ta + [op] + tb, CBin(op, a, b));
  }

  lemma Negated(ta: seq<Token>, a: CTree)
    requires Operand(ta, a)
    ensures Operand([Bang] + ta, CNot(a)) && Operand([Minus] + ta, CNeg(a))
  {
    forall r ensures OperandAt([Bang] + ta, CNot(a), r) && OperandAt([Minus] + ta, CNeg(a), r) {
      assert OperandAt(ta, a, r);
      assert ([Bang] + ta + r)[1..] == ta + r && ([Minus] + ta + r)[1..] == ta + r;
    }
  }

  lemma Leaves(x: string, digits: seq<nat>)
    ensures Operand([Text(x)], CText(x)) && Operand([Number(digits)], CNum(digits))
  {
    forall r ensures OperandAt([Text(x)], CText(x), r) && OperandAt([Number(digits)], CNum(digits), r) {
      assert ([Text(x)] + r)[1..] == r && ([Number(digits)] + r)[1..] == r;
    }
  }

  lemma ParenOperand(ts: seq<Token>, t: CTree)
    requires Operand(ts, t)
    ensures Operand([LP] + ts + [RP], t)
  {
    forall r ensures ParseCond(ts + ([RP] + r)) == Some((t, [RP] + r)) { Alone(ts, t, [RP] + r); }
    Paren(ts, t);
  }

  /** c ? v : n */
  lemma Ternary(tc: seq<Token>, c: CTree, tv: seq<Token>, v: CTree, tn: seq<Token>, n: CTree, r: seq<Token>)
    requires Operand(tc, c) && Operand(tv, v) && ParseCond(tn + r) == Some((n, r))
    ensures ParseCond((tc + [Ques] + tv) + [Colon] + tn + r) == Some((CCond(c, v, n), r))
  {
    var r3 := [Colon] + (tn + r);
    var r2 := [Ques] + (tv + r3);
    Alone(tc, c, r2);
    Alone(tv, v, r3);
    assert r2[1..] == tv + r3 && r3[1..] == tn + r;
    assert (tc + [Ques] + tv) + [Colon] + tn + r == tc + r2;
  }

  ghost predicate Parsable(e: Expr) {
    Operand(Tokens(e), Tree(e))
  }

  lemma {:induction false} ReparsesArms(arms: seq<Arm>, r: seq<Token>)
    requires forall i | 0 <= i < |arms| :: Parsable(arms[i].cond) && Parsable(arms[i].value)
    ensures ParseCond(ArmTokens(arms) + ([RP] + r)) == Some((ArmTree(arms), [RP] + r))
  {
    if arms == [] {
      Leaves("", [0]);
      Alone([Number([0])], CNum([0]), [RP] + r);
    } else {
      var a := arms[0];
      assert Parsable(a.cond) && Parsable(a.value);
      if LiteralOne(a.cond) {
        Alone(Tokens(a.value), Tree(a.value), [RP] + r);
      } else {
        ReparsesArms(arms[1..], r);
        Ternary(Tokens(a.cond), Tree(a.cond), Tokens(a.value), Tree(a.value),
                ArmTokens(arms[1..]), ArmTree(arms[1..]), [RP] + r);
      }
    }
  }

  /** What follows the first comparison of a set. */
  function AfterFirst(ta: seq<Token>, s: seq<Expr>, r: seq<Token>): seq<Token>
    requires s != []
  {
    if |s| == 1 then r else [BarBar] + (SetTokens(ta, s[1..]) + r)
  }

  lemma SetTokensSplit(ta: seq<Token>, s: seq<Expr>, r: seq<Token>)
    requires s != []
    ensures SetTokens(ta, s) + r == (ta + [RelOp(EQ)] + Tokens(s[0])) + AfterFirst(ta, s, r)
  {
    var x := ta + [RelOp(EQ)] + Tokens(s[0]);
    if |s| > 1 {
      assert x + [BarBar] + SetTokens(ta, s[1..]) + r == x + ([BarBar] + (SetTokens(ta, s[1..]) + r));
    }
  }

  lemma FirstComparison(ta: seq<Token>, a: CTree, s: seq<Expr>, r: seq<Token>)
    requires Operand(ta, a) && s != [] && Parsable(s[0]) && Ends(r)
    ensures ParseBin(1, SetTokens(ta, s) + r) == Some((CBin(RelOp(EQ), a, Tree(s[0])), AfterFirst(ta, s, r)))
  {
    SetTokensSplit(ta, s, r);
    Pair(ta, a, RelOp(EQ), Tokens(s[0]), Tree(s[0]), AfterFirst(ta, s, r), 1);
  }

  lemma {:induction false} OtherComparisons(acc: CTree, ta: seq<Token>, a: CTree, s: seq<Expr>, r: seq<Token>)
    requires Operand(ta, a) && Ends(r) && s != [] && forall i | 0 <= i < |s| :: Parsable(s[i])
    ensures ParseTail(0, acc, AfterFirst(ta, s, r)) == Some((SetTree(acc, a, s[1..]), r))
    decreases |s|
  {
    if |s| > 1 {
      var t := s[1..];
      var x := CBin(BarBar, acc, CBin(RelOp(EQ), a, Tree(t[0])));
      assert AfterFirst(ta, s, r)[1..] == SetTokens(ta, t) + r;
      FirstComparison(ta, a, t, r);
      OtherComparisons(x, ta, a, t, r);
    }
  }

  lemma ReparsesSet(ta: seq<Token>, a: CTree, s: seq<Expr>, r: seq<Token>)
    requires Operand(ta, a) && s != [] && forall i | 0 <= i < |s| :: Parsable(s[i])
    ensures ParseCond(SetTokens(ta, s) + ([RP] + r))
            == Some((SetTree(CBin(RelOp(EQ), a, Tree(s[0])), a, s[1..]), [RP] + r))
  {
    FirstComparison(ta, a, s, [RP] + r);
    OtherComparisons(CBin(RelOp(EQ), a, Tree(s[0])), ta, a, s, [RP] + r);
  }

  /** Every expression's tokens parse, as one operand, to its tree. */
  lemma {:induction false} Reparses(e: Expr)
    requires Full(e)
    ensures Parsable(e)
    decreases e
  {
    match e
    case Var(x) => Leaves(x, []); ParenOperand([Text(x)], CText(x));
      assert [LP] + [Text(x)] + [RP] == [LP, Text(x), RP];
    case Num(n) => Leaves("", n.digits); Negated([Number(n.digits)], CNum(n.digits));
      assert [Minus] + [Number(n.digits)] == [Minus, Number(n.digits)];
    case Not(a) => Reparses(a); Negated(Tokens(a), Tree(a));
    case And(a, b) => Reparses(a); Reparses(b); ParenPair(Tokens(a), Tree(a), Amp, Tokens(b), Tree(b));
    case Or(a, b) => Reparses(a); Reparses(b); ParenPair(Tokens(a), Tree(a), Bar, Tokens(b), Tree(b));
    case Comp(q, a, b) => Reparses(a); Reparses(b); ParenPair(Tokens(a), Tree(a), RelOp(q), Tokens(b), Tree(b));
    case In(a, s) => ReparsesIn(a, s);
    case Case(arms) => ReparsesCase(arms, e);
  }

  lemma {:induction false} ReparsesIn(a: Expr, s: seq<Expr>)
    requires Full(In(a, s))
    ensures Parsable(In(a, s))
    decreases In(a, s), 0
  {
    Reparses(a);
    forall i | 0 <= i < |s| ensures Parsable(s[i]) { Reparses(s[i]); }
    var t := SetTree(CBin(RelOp(EQ), Tree(a), Tree(s[0])), Tree(a), s[1..]);
    forall r ensures ParseCond(SetTokens(Tokens(a), s) + ([RP] + r)) == Some((t, [RP] + r)) {
      ReparsesSet(Tokens(a), Tree(a), s, r);
    }
    Paren(SetTokens(Tokens(a), s), t);
  }

  lemma {:induction false} ReparsesCase(arms: seq<Arm>, e: Expr)
    requires e == Case(arms) && Full(e)
    ensures Parsable(e)
    decreases e, 0
  {
    forall i | 0 <= i < |arms| ensures Parsable(arms[i].cond) && Parsable(arms[i].value) {
      assert arms[i].cond < arms[i] && arms[i].value < arms[i];
      Reparses(arms[i].cond);
      Reparses(arms[i].value);
    }
    forall r ensures ParseCond(ArmTokens(arms) + ([RP] + r)) == Some((ArmTree(arms), [RP] + r)) {
      ReparsesArms(arms, r);
    }
    Paren(ArmTokens(arms), ArmTree(arms));
  }

  // ----- and what that means

  /** Boolean signals carry 0 or 1. */
  ghost predicate ZeroOne(env: Env, sig: Sig) {
    forall x | x in sig && sig[x] :: env(x) in {0, 1}
  }

  /** C reads a numeral as HCL does unless a leading zero makes it octal and it is at
      least 8, or no `long long` holds it. */
  predicate Plain(n: Numeral) {
    (|n.digits| <= 1 || n.digits[0] != 0 || Decimal(n.digits) < 8) && Decimal(n.digits) < Words.TWO_63
  }

  ghost predicate Digits(d: seq<nat>) {
    forall i | 0 <= i < |d| :: d[i] < 10
  }

  lemma {:induction false} OctalFacts(d: seq<nat>)
    requires Digits(d)
    ensures Octal(d).Some? ==> Octal(d).value <= Decimal(d)
    ensures Octal(d) == Some(Decimal(d)) <==> Decimal(d) < 8
  {
    if d != [] { OctalFacts(d[..|d| - 1]); }
  }

  lemma PlainIff(n: Numeral)
    requires Digits(n.digits)
    ensures Constant(n.digits) == Some(Decimal(n.digits)) <==> Plain(n)
  {
    OctalFacts(n.digits);
  }

  /** 010 is ten in HCL and eight in the C it becomes. */
  lemma OctalExample(env: Env)
    ensures Eval(Num(Numeral(false, [0, 1, 0])), env) == 10
    ensures EvalC(Tree(Num(Numeral(false, [0, 1, 0]))), env) == Some(8)
  {
    var d: seq<nat> := [0, 1, 0];
    assert d[..2] == [0, 1] && d[..2][..1] == [0] && d[..2][..1][..0] == [];
    assert Octal([]) == Some(0) && Octal([0]) == Some(0) && Octal([0, 1]) == Some(1) && Octal(d) == Some(8);
    assert Decimal([]) == 0 && Decimal([0]) == 0 && Decimal([0, 1]) == 1 && Decimal(d) == 10;
  }

  lemma NextDigit(d: seq<nat>, k: nat)
    requires k < |d|
    ensures Decimal(d[..k + 1]) == 10 * Decimal(d[..k]) + d[k]
  {
    assert d[..k + 1][..k] == d[..k];
  }

  lemma FourDigits(d: seq<nat>, k: nat)
    requires k + 4 <= |d|
    ensures Decimal(d[..k + 4]) == 10000 * Decimal(d[..k]) + 1000 * d[k] + 100 * d[k + 1] + 10 * d[k + 2] + d[k + 3]
  {
    NextDigit(d, k);
    NextDigit(d, k + 1);
    NextDigit(d, k + 2);
    NextDigit(d, k + 3);
  }

  lemma NoDigits(d: seq<nat>)
    ensures Decimal(d[..0]) == 0 && d[..|d|] == d
  {
  }

  const TWO_TO_63: seq<nat> := [9, 2, 2, 3, 3, 7, 2, 0, 3, 6, 8, 5, 4, 7, 7, 5, 8, 0, 8]

  lemma TwoTo63()
    ensures Decimal(TWO_TO_63) == Words.TWO_63
  {
    hide Decimal;
    var d := TWO_TO_63;
    NoDigits(d);
    NextDigit(d, 0);
    NextDigit(d, 1);
    NextDigit(d, 2);
    FourDigits(d, 3);
    FourDigits(d, 7);
    FourDigits(d, 11);
    FourDigits(d, 15);
  }

  /** 2^63 is a number in HCL and no constant in the C it becomes. */
  lemma TooLargeExample(env: Env)
    ensures Eval(Num(Numeral(false, TWO_TO_63)), env) == Words.TWO_63
    ensures EvalC(Tree(Num(Numeral(false, TWO_TO_63))), env).None?
  {
    hide Decimal;
    TwoTo63();
  }

  /** All numerals of the emitted part are plain. */
  predicate PlainNums(e: Expr)
    decreases e, 0
  {
    match e
    case Var(_) => true
    case Num(n) => Plain(n) && forall i | 0 <= i < |n.digits| :: n.digits[i] < 10
    case Not(a) => PlainNums(a)
    case And(a, b) => PlainNums(a) && PlainNums(b)
    case Or(a, b) => PlainNums(a) && PlainNums(b)
    case Comp(_, a, b) => PlainNums(a) && PlainNums(b)
    case In(a, s) => PlainNums(a) && forall i | 0 <= i < |s| :: PlainNums(s[i])
    case Case(arms) => PlainArms(arms)
  }

  predicate PlainArms(arms: seq<Arm>)
    decreases arms, 1
  {
    arms == [] ||
    (var a := arms[0];
     assert a.cond < a && a.value < a;
     if LiteralOne(a.cond) then PlainNums(a.value) else PlainNums(a.cond) && PlainNums(a.value) && PlainArms(arms[1..]))
  }

  /** What check_arg accepts as Boolean is 0 or 1. */
  lemma BoolValue(e: Expr, sig: Sig, env: Env)
    requires ZeroOne(env, sig) && CheckArg(Build(e), true, sig)
    ensures Eval(e, env) in {0, 1}
  {
    match e
    case Num(n) => assert Decimal(ZERO.digits) == 0 && Decimal(ONE.digits) == 1;
    case Case(arms) => if arms != [] { ArmsFromFront(arms); }
    case _ =>
  }

  ghost predicate Meant(e: Expr, env: Env) {
    EvalC(Tree(e), env) == Some(Eval(e, env))
  }

  lemma {:induction false} SetValue(acc: CTree, b: bool, ta: CTree, v: int, s: seq<Expr>, env: Env)
    requires EvalC(acc, env) == Some(Bit(b)) && EvalC(ta, env) == Some(v)
    requires forall i | 0 <= i < |s| :: Meant(s[i], env)
    ensures EvalC(SetTree(acc, ta, s), env) == Some(Bit(b || exists i :: 0 <= i < |s| && v == Eval(s[i], env)))
    decreases |s|
  {
    if s != [] {
      assert Meant(s[0], env);
      var hit := v == Eval(s[0], env);
      SetValue(CBin(BarBar, acc, CBin(RelOp(EQ), ta, Tree(s[0]))), b || hit, ta, v, s[1..], env);
      var rest := exists i :: 0 <= i < |s[1..]| && v == Eval(s[1..][i], env);
      if rest {
        var i :| 0 <= i < |s[1..]| && v == Eval(s[1..][i], env);
        assert v == Eval(s[i + 1], env);
      }
      if exists i :: 0 <= i < |s| && v == Eval(s[i], env) {
        var i :| 0 <= i < |s| && v == Eval(s[i], env);
        if i > 0 { assert v == Eval(s[1..][i - 1], env); }
      }
    }
  }

  lemma MeantNum(n: Numeral, env: Env)
    requires PlainNums(Num(n))
    ensures Meant(Num(n), env)
  {
    PlainIff(n);
  }

  lemma MeantAnd(a: Expr, b: Expr, sig: Sig, env: Env)
    requires ZeroOne(env, sig) && CheckArg(Build(a), true, sig) && CheckArg(Build(b), true, sig)
    requires Meant(a, env) && Meant(b, env)
    ensures Meant(And(a, b), env)
  {
    BoolValue(a, sig, env);
    BoolValue(b, sig, env);
    OperateAnd(Eval(a, env), Eval(b, env));
  }

  lemma MeantOr(a: Expr, b: Expr, sig: Sig, env: Env)
    requires ZeroOne(env, sig) && CheckArg(Build(a), true, sig) && CheckArg(Build(b), true, sig)
    requires Meant(a, env) && Meant(b, env)
    ensures Meant(Or(a, b), env)
  {
    BoolValue(a, sig, env);
    BoolValue(b, sig, env);
    OperateOr(Eval(a, env), Eval(b, env));
  }

  /** The C expression has the value of the HCL expression. */
  lemma {:induction false} Means(e: Expr, sig: Sig, env: Env)
    requires Checked(e, sig) && ZeroOne(env, sig) && PlainNums(e)
    ensures Meant(e, env)
    decreases e, 0
  {
    match e
    case Var(_) =>
    case Num(n) => MeantNum(n, env);
    case Not(a) => Means(a, sig, env);
    case And(a, b) => Means(a, sig, env); Means(b, sig, env); MeantAnd(a, b, sig, env);
    case Or(a, b) => Means(a, sig, env); Means(b, sig, env); MeantOr(a, b, sig, env);
    case Comp(_, a, b) => Means(a, sig, env); Means(b, sig, env);
    case In(a, s) => MeansIn(a, s, sig, env);
    case Case(arms) => MeansArms(arms, sig, env);
  }

  lemma {:induction false} MeansIn(a: Expr, s: seq<Expr>, sig: Sig, env: Env)
    requires Checked(In(a, s), sig) && ZeroOne(env, sig) && PlainNums(In(a, s))
    ensures Meant(In(a, s), env)
    decreases In(a, s), -1
  {
    Means(a, sig, env);
    forall i | 0 <= i < |s| ensures Meant(s[i], env) { Means(s[i], sig, env); }
    var v := Eval(a, env);
    assert Meant(s[0], env);
    SetValue(CBin(RelOp(EQ), Tree(a), Tree(s[0])), v == Eval(s[0], env), Tree(a), v, s[1..], env);
    if exists i :: 0 <= i < |s| && v == Eval(s[i], env) {
      var i :| 0 <= i < |s| && v == Eval(s[i], env);
      if i > 0 { assert v == Eval(s[1..][i - 1], env); }
    }
    if i :| 0 <= i < |s[1..]| && v == Eval(s[1..][i], env) {
      assert v == Eval(s[i + 1], env);
    }
  }

  lemma {:induction false} MeansArms(arms: seq<Arm>, sig: Sig, env: Env)
    requires ZeroOne(env, sig) && PlainArms(arms)
    requires forall i | 0 <= i < |arms| :: Checked(arms[i].cond, sig) && Checked(arms[i].value, sig)
    ensures EvalC(ArmTree(arms), env) == Some(EvalArms(arms, env))
    decreases arms, 1
  {
    if arms != [] {
      var a := arms[0];
      assert a.cond < a && a.value < a;
      Means(a.value, sig, env);
      if !LiteralOne(a.cond) {
        Means(a.cond, sig, env);
        MeansArms(arms[1..], sig, env);
      }
    }
  }

  lemma CheckedFull(e: Expr, sig: Sig)
    requires Checked(e, sig)
    ensures Full(e)
  {
    match e
    case Not(a) => CheckedFull(a, sig);
    case And(a, b) => CheckedFull(a, sig); CheckedFull(b, sig);
    case Or(a, b) => CheckedFull(a, sig); CheckedFull(b, sig);
    case Comp(_, a, b) => CheckedFull(a, sig); CheckedFull(b, sig);
    case In(a, s) =>
      CheckedFull(a, sig);
      forall i | 0 <= i < |s| ensures Full(s[i]) { CheckedFull(s[i], sig); }
    case Case(arms) =>
      forall i | 0 <= i < |arms| ensures Full(arms[i].cond) && Full(arms[i].value) {
        assert arms[i].cond < arms[i] && arms[i].value < arms[i];
        CheckedFull(arms[i].cond, sig);
        CheckedFull(arms[i].value, sig);
      }
    case _ =>
  }

  /** For an expression the parser's checks accept, whose sets hold no case list that
      would be lost or come out otherwise and whose numerals are plain, what gen_expr emits
      is one C expression, and on 0/1 Boolean signals its value is the HCL value. */
  lemma CompilationPreservesMeaning(e: Expr, sig: Sig, env: Env)
    requires Checked(e, sig) && ZeroOne(env, sig) && Safe(e) && PlainNums(e)
    ensures Gen(Build(e)).Some?
    ensures ParseCond(Gen(Build(e)).value + [Semi]) == Some((Tree(e), [Semi]))
    ensures EvalC(Tree(e), env) == Some(Eval(e, env))
  {
    CheckedFull(e, sig);
    Emits(e);
    Reparses(e);
    Alone(Tokens(e), Tree(e), [Semi]);
    Means(e, sig, env);
  }

  // ----- where it does not

  /** A case list and what is left of it after one arm, two arms, ... */
  function Suffixes(arms: seq<Arm>): seq<Expr> {
    if arms == [] then [] else [Case(arms)] + Suffixes(arms[1..])
  }

  predicate AllArmsSafe(arms: seq<Arm>) {
    forall i | 0 <= i < |arms| :: Safe(arms[i].cond) && Safe(arms[i].value)
  }

  lemma {:induction false} AllAreSafe(arms: seq<Arm>)
    requires AllArmsSafe(arms)
    ensures SafeArms(arms)
  {
    if arms != [] {
      assert Safe(arms[0].cond) && Safe(arms[0].value);
      AllAreSafe(arms[1..]);
    }
  }

  lemma {:induction false} ArmListEmits(na: Node, ta: seq<Token>, arms: seq<Arm>)
    requires Gen(na) == Some(ta) && arms != [] && AllArmsSafe(arms)
    ensures GenSet(na, BuildArms(arms)) == Some(SetTokens(ta, Suffixes(arms)))
    decreases |arms|
  {
    AllAreSafe(arms);
    Emits(Case(arms));
    ArmsFromFront(arms);
    var t := Suffixes(arms);
    assert t[0] == Case(arms) && t[1..] == Suffixes(arms[1..]);
    if |arms| > 1 {
      ArmListEmits(na, ta, arms[1..]);
      ArmsFromFront(arms[1..]);
      assert Suffixes(arms[1..]) != [];
    } else {
      assert BuildArms(arms[1..]) == Null;
    }
  }

  lemma OneElement(e: Expr)
    ensures BuildList([e]) == Build(e)
  {
    ListFromFront([e]);
    assert BuildList([e][1..]) == Null;
    ConcatNull(Build(e));
  }

  lemma GenIn(a: Expr, s: seq<Expr>)
    ensures Gen(Build(In(a, s))) == Parens(GenSet(Build(a), BuildList(s)))
  {
    hide GenSet, BuildList;
  }

  /** A case list as the element of a set is emitted as if the set held each of its
      suffixes ... */
  lemma CaseElementEmits(a: Expr, arms: seq<Arm>)
    requires Safe(a) && AllArmsSafe(arms)
    ensures Gen(Build(In(a, [Case(arms)]))) == Some(Tokens(In(a, Suffixes(arms))))
  {
    OneElement(Case(arms));
    GenIn(a, [Case(arms)]);
    if arms == [] {
      NoElements(a);
      GenIn(a, []);
      assert Build(Case([])) == BuildList([]);
    } else {
      hide Gen, GenSet, SetTokens, BuildArms, AllArmsSafe, Suffixes;
      Emits(a);
      ArmListEmits(Build(a), Tokens(a), arms);
    }
  }

  /** ... so it is emitted right exactly when it has a single arm. */
  lemma CaseElementIff(a: Expr, arms: seq<Arm>)
    requires Safe(a) && AllArmsSafe(arms)
    ensures Gen(Build(In(a, [Case(arms)]))) == Some(Tokens(In(a, [Case(arms)]))) <==> |arms| == 1
  {
    CaseElementEmits(a, arms);
    var s, t := [Case(arms)], Suffixes(arms);
    if arms == [] {
      NoElements(a);
      assert |SetTokens(Tokens(a), s)| > 0;
    } else if |arms| == 1 {
      assert Suffixes(arms[1..]) == [] && t == s;
    } else {
      assert t == s + Suffixes(arms[1..]);
      assert Suffixes(arms[1..]) != [];
      assert t[0] == s[0];
      MoreTokens(Tokens(a), s, t);
    }
  }

  lemma MoreTokens(ta: seq<Token>, s: seq<Expr>, t: seq<Expr>)
    requires |s| == 1 && |t| > 1 && s[0] == t[0]
    ensures |SetTokens(ta, t)| > |SetTokens(ta, s)|
  {
  }

  const TWO := Num(Numeral(false, [2]))

  /** [ b : 1; 1 : 2; ] */
  const CHOICE: seq<Arm> := [Arm(Var("b"), Num(ONE)), Arm(Num(ONE), TWO)]

  lemma OneDigit(d: nat)
    ensures Decimal([d]) == d
  {
    assert [d][..0] == [];
  }

  lemma ExampleValues(env: Env)
    requires env("a") == 2 && env("b") == 1
    ensures Eval(In(Var("a"), [Case(CHOICE)]), env) == 0
    ensures Eval(In(Var("a"), [Case(CHOICE), Case(CHOICE[1..])]), env) == 1
  {
    var s := [Case(CHOICE), Case(CHOICE[1..])];
    OneDigit(1);
    OneDigit(2);
    assert Eval(Num(ONE), env) == 1 && Eval(TWO, env) == 2;
    assert Eval(Var("b"), env) == 1 && CHOICE[0] == Arm(Var("b"), Num(ONE));
    assert Eval(CHOICE[0].cond, env) != 0 && Eval(CHOICE[0].value, env) == 1;
    assert EvalArms(CHOICE, env) == 1;
    assert CHOICE[1..][0] == CHOICE[1];
    assert EvalArms(CHOICE[1..], env) == 2;
    assert Eval(s[1], env) == 2;
  }

  /** With b true, a in { [ b : 1; 1 : 2; ] } asks whether a is 1; the C that is emitted
      for it is also true of 2. */
  lemma CaseElementExample(env: Env)
    requires env("a") == 2 && env("b") == 1
    ensures var e, t := In(Var("a"), [Case(CHOICE)]), Tree(In(Var("a"), Suffixes(CHOICE)));
            && Eval(e, env) == 0 && Gen(Build(e)).Some?
            && ParseCond(Gen(Build(e)).value + [Semi]) == Some((t, [Semi])) && EvalC(t, env) == Some(1)
  {
    var x := In(Var("a"), Suffixes(CHOICE));
    ExampleValues(env);
    assert Suffixes([]) == [] && CHOICE[1..][1..] == [];
    assert Suffixes(CHOICE[1..]) == [Case(CHOICE[1..])];
    assert Suffixes(CHOICE) == [Case(CHOICE), Case(CHOICE[1..])];
    CaseElementEmits(Var("a"), CHOICE);
    ExampleChecked();
    CheckedFull(x, map["a" := false, "b" := true]);
    Reparses(x);
    Alone(Tokens(x), Tree(x), [Semi]);
    Means(x, map["a" := false, "b" := true], env);
  }

  lemma ExampleChecked()
    ensures AllArmsSafe(CHOICE)
    ensures var x := In(Var("a"), Suffixes(CHOICE));
            Checked(x, map["a" := false, "b" := true]) && PlainNums(x)
  {
    var r := CHOICE[1..];
    assert Suffixes([]) == [] && r[1..] == [] && r[0] == CHOICE[1];
    assert Suffixes(r) == [Case(r)];
    assert Suffixes(CHOICE) == [Case(CHOICE), Case(r)];
    assert PlainNums(Num(ONE)) && PlainNums(TWO);
    assert PlainArms(r);
    assert PlainArms(CHOICE);
  }
}
