/** Which HCL expressions gen_expr emits as intended: exactly the safe ones. */
module HclExact {
  import opened CExpr
  import opened Hcl
  import opened HclCompile
  import opened Wrappers

  // ----- case lists without arms

  /** [ ], a case list the grammar allows and for which the parser has no node. */
  const NOTHING := Case([])

  /** The expression without such case lists among the elements of its sets. */
  function Purged(e: Expr): Expr
    decreases e, 0
  {
    match e
    case Var(_) => e
    case Num(_) => e
    case Not(a) => Not(Purged(a))
    case And(a, b) => And(Purged(a), Purged(b))
    case Or(a, b) => Or(Purged(a), Purged(b))
    case Comp(r, a, b) => Comp(r, Purged(a), Purged(b))
    case In(a, s) => In(Purged(a), PurgedSet(s))
    case Case(arms) => Case(PurgedArms(arms))
  }

  function PurgedSet(s: seq<Expr>): seq<Expr>
    decreases s, 1
  {
    if s == [] then [] else (if s[0] == NOTHING then [] else [Purged(s[0])]) + PurgedSet(s[1..])
  }

  function PurgedArms(arms: seq<Arm>): (r: seq<Arm>)
    ensures |r| == |arms|
    decreases arms, 1
  {
    if arms == [] then [] else
      var a := arms[0];
      assert a.cond < a && a.value < a;
      [Arm(Purged(a.cond), Purged(a.value))] + PurgedArms(arms[1..])
  }

  /** The parser builds the same nodes for both. */
  lemma {:induction false} SameNodes(e: Expr)
    ensures Build(Purged(e)) == Build(e)
    decreases e, 0
  {
    hide BuildList, BuildArms;
    match e
    case Var(_) =>
    case Num(_) =>
    case Not(a) => SameNodes(a);
    case And(a, b) => SameNodes(a); SameNodes(b);
    case Or(a, b) => SameNodes(a); SameNodes(b);
    case Comp(_, a, b) => SameNodes(a); SameNodes(b);
    case In(a, s) => SameNodes(a); SameList(s);
    case Case(arms) => SameArms(arms);
  }

  lemma {:induction false} SameList(s: seq<Expr>)
    ensures BuildList(PurgedSet(s)) == BuildList(s)
    decreases s, 1
  {
    if s != [] {
      hide Purged;
      var t := PurgedSet(s[1..]);
      ListFromFront(s);
      SameList(s[1..]);
      if s[0] == NOTHING {
        assert Build(NOTHING) == Null && PurgedSet(s) == t;
      } else {
        SameNodes(s[0]);
        ListFromFront([Purged(s[0])] + t);
        assert ([Purged(s[0])] + t)[1..] == t;
      }
    }
  }

  lemma {:induction false} SameArms(arms: seq<Arm>)
    ensures BuildArms(PurgedArms(arms)) == BuildArms(arms)
    decreases arms, 1
  {
    if arms != [] {
      hide Purged;
      var a, t := arms[0], PurgedArms(arms[1..]);
      assert a.cond < a && a.value < a;
      ArmsFromFront(arms);
      SameNodes(a.cond);
      SameNodes(a.value);
      SameArms(arms[1..]);
      ArmsFromFront([Arm(Purged(a.cond), Purged(a.value))] + t);
      assert ([Arm(Purged(a.cond), Purged(a.value))] + t)[1..] == t;
    }
  }

  lemma {:induction false} ListAppend(s: seq<Expr>, t: seq<Expr>)
    ensures BuildList(s + t) == Concat(BuildList(s), BuildList(t))
  {
    if s == [] {
      assert [] + t == t;
    } else {
      ListAppend(s[1..], t);
      ListFromFront(s);
      ListFromFront(s + t);
      assert (s + t)[1..] == s[1..] + t;
      ConcatAssoc(Build(s[0]), BuildList(s[1..]), BuildList(t));
    }
  }

  /** An element [ ] leaves no trace on the list of its set. */
  lemma Dropped(s: seq<Expr>, t: seq<Expr>)
    ensures BuildList(s + [NOTHING] + t) == BuildList(s + t)
  {
    ListAppend(s + [NOTHING], t);
    ListAppend(s, [NOTHING]);
    ListAppend(s, t);
    ListFromFront([NOTHING]);
    assert BuildList([NOTHING][1..]) == Null && Build(NOTHING) == Null;
    ConcatNull(BuildList(s));
  }

  ghost predicate Member(v: int, s: seq<Expr>, env: Env) {
    exists i :: 0 <= i < |s| && v == Eval(s[i], env)
  }

  lemma MemberAppend(v: int, s: seq<Expr>, t: seq<Expr>, env: Env)
    ensures Member(v, s + t, env) <==> Member(v, s, env) || Member(v, t, env)
  {
    var u := s + t;
    if i :| 0 <= i < |u| && v == Eval(u[i], env) {
      assert if i < |s| then v == Eval(s[i], env) else v == Eval(t[i - |s|], env);
    }
    if i :| 0 <= i < |s| && v == Eval(s[i], env) { assert v == Eval(u[i], env); }
    if i :| 0 <= i < |t| && v == Eval(t[i], env) { assert v == Eval(u[|s| + i], env); }
  }

  /** Losing it changes the value exactly when 0 is looked up and no other element is 0. */
  lemma DroppedIff(a: Expr, s: seq<Expr>, t: seq<Expr>, env: Env)
    ensures Eval(In(a, s + [NOTHING] + t), env) == Eval(In(a, s + t), env)
            <==> Eval(a, env) != 0 || Member(0, s + t, env)
  {
    var v := Eval(a, env);
    MemberAppend(v, s + [NOTHING], t, env);
    MemberAppend(v, s, [NOTHING], env);
    MemberAppend(v, s, t, env);
    assert Eval(NOTHING, env) == 0;
    assert Member(v, [NOTHING], env) <==> v == 0 by { assert [NOTHING][0] == NOTHING; }
    assert forall u :: Eval(In(a, u), env) == 1 <==> Member(v, u, env);
  }

  /** A set of nothing else is emitted as (), which is no C expression. */
  lemma NothingLeft(a: Expr, r: seq<Token>)
    ensures Gen(Build(In(a, [NOTHING]))) == Some([LP, RP]) && ParseCond([LP, RP] + r).None?
  {
    var none: seq<Expr> := [];
    Dropped(none, none);
    assert none + [NOTHING] + none == [NOTHING] && none + none == none;
    NoElements(a);
    var ts := [LP, RP] + r;
    assert ts[1..][0] == RP;
    assert ParseUnary(ts[1..]).None?;
    NoOperand(ts[1..]);
    NoOperand(ts);
  }

  lemma NoOperand(ts: seq<Token>)
    requires ParseUnary(ts).None?
    ensures ParseCond(ts).None?
  {
    assert ParseBin(5, ts).None?;
    assert ParseBin(4, ts).None?;
    assert ParseBin(3, ts).None?;
    assert ParseBin(2, ts).None?;
    assert ParseBin(1, ts).None?;
  }

  lemma DroppedFirst(e: Expr)
    ensures BuildList([NOTHING, e]) == BuildList([e])
  {
    Dropped([], [e]);
    assert [] + [NOTHING] + [e] == [NOTHING, e] && [] + [e] == [e];
  }

  lemma SameSet(a: Expr, s: seq<Expr>, t: seq<Expr>)
    requires BuildList(s) == BuildList(t)
    ensures Build(In(a, s)) == Build(In(a, t))
  {
  }

  lemma DroppedChecks()
    ensures var sig, one := map["a" := false], [Num(ONE)];
            && Checked(In(Var("a"), [NOTHING] + one), sig) && Checked(In(Var("a"), one), sig)
            && Safe(In(Var("a"), one)) && PlainNums(In(Var("a"), one))
  {
    hide Build, BuildList;
    var sig, one := map["a" := false], [Num(ONE)];
    VarNode();
    assert one[1..] == [] && SafeSet(one[1..]) && Safe(one[0]);
    OneDigit(1);
    assert PlainNums(one[0]);
    assert Checked(one[0], sig) && Checked(NOTHING, sig);
  }

  lemma VarNode()
    ensures CheckArg(Build(Var("a")), false, map["a" := false]) && CheckChain(Build(Var("a")), false, map["a" := false])
  {
  }

  lemma DroppedValues(env: Env)
    requires env("a") == 0
    ensures Eval(In(Var("a"), [NOTHING] + [Num(ONE)]), env) == 1 && Eval(In(Var("a"), [Num(ONE)]), env) == 0
  {
    var s := [NOTHING] + [Num(ONE)];
    assert s[0] == NOTHING && Eval(s[0], env) == 0;
    OneDigit(1);
  }

  /** a in { [ ], 1 } is true of 0, the C that is emitted for it is not. */
  lemma DroppedExample(env: Env)
    requires env("a") == 0
    ensures var e, t := In(Var("a"), [NOTHING, Num(ONE)]), Tree(In(Var("a"), [Num(ONE)]));
            && Checked(e, map["a" := false])
            && Eval(e, env) == 1 && Gen(Build(e)).Some?
            && ParseCond(Gen(Build(e)).value + [Semi]) == Some((t, [Semi])) && EvalC(t, env) == Some(0)
  {
    hide Checked, Safe, PlainNums, Eval, Tree, ZeroArm;
    var one := [Num(ONE)];
    var x := In(Var("a"), one);
    DroppedFirst(Num(ONE));
    assert [NOTHING] + one == [NOTHING, Num(ONE)];
    SameSet(Var("a"), [NOTHING, Num(ONE)], one);
    DroppedValues(env);
    DroppedChecks();
    CompilationPreservesMeaning(x, map["a" := false], env);
  }

  // ----- expressions of whose sets nothing is lost

  /** No set of the emitted part has [ ] among its elements. */
  predicate Solid(e: Expr)
    decreases e, 0
  {
    match e
    case Var(_) => true
    case Num(_) => true
    case Not(a) => Solid(a)
    case And(a, b) => Solid(a) && Solid(b)
    case Or(a, b) => Solid(a) && Solid(b)
    case Comp(_, a, b) => Solid(a) && Solid(b)
    case In(a, s) => s == [] || (Solid(a) && SolidSet(s))
    case Case(arms) => SolidArms(arms)
  }

  predicate SolidSet(s: seq<Expr>)
    decreases s, 1
  {
    s == [] || (s[0] != NOTHING && Solid(s[0]) && SolidSet(s[1..]))
  }

  predicate SolidArms(arms: seq<Arm>)
    decreases arms, 1
  {
    arms == [] ||
    (var a := arms[0];
     assert a.cond < a && a.value < a;
     if LiteralOne(a.cond) then Solid(a.value) else Solid(a.cond) && Solid(a.value) && SolidArms(arms[1..]))
  }

  // ----- nothing is emitted shorter than intended

  ghost predicate AtLeast(o: Option<seq<Token>>, n: nat) {
    o.Some? ==> |o.value| >= n
  }

  lemma GenNotEmpty(n: Node)
    ensures AtLeast(Gen(n), 1)
  {
  }

  lemma ArmsNotEmpty(n: Node)
    ensures AtLeast(GenArms(n), 1)
  {
    hide Gen;
    if n.Node? { GenNotEmpty(n.arg2); }
  }

  /** The head of an expression's nodes, whatever is linked behind them. */
  lemma Head(e: Expr, x: Node)
    requires e != NOTHING
    ensures Concat(Build(e), x).Node?
    ensures !e.Case? ==> Concat(Build(e), x).next == x && Gen(Concat(Build(e), x)) == Gen(Build(e))
    ensures e.Case? ==>
              var a, n := e.arms[0], Concat(Build(e), x);
              && n.next == Concat(BuildArms(e.arms[1..]), x) && n.arg1 == Build(a.cond) && n.arg2 == Build(a.value)
              && Gen(n) == Parens(GenArms(n))
  {
    hide Gen, GenArms;
    if e.Case? {
      ArmsFromFront(e.arms);
      var n := ArmNode(e.arms[0]).(next := BuildArms(e.arms[1..]));
      ConcatHead(n, x);
      GenCase(Concat(n, x));
    } else {
      HeadIgnoresNext(e, x);
    }
  }

  lemma CondOne(e: Expr)
    ensures IsOne(Build(e)) <==> LiteralOne(e)
    ensures Build(e).Node? <==> e != NOTHING
  {
    OneIsOne(e);
    assert Build(NOTHING) == Null;
  }

  /** An expression emits at least its intended tokens, whatever is linked behind it. */
  lemma {:induction false} Lower(e: Expr, x: Node)
    requires Solid(e) && e != NOTHING
    ensures AtLeast(Gen(Concat(Build(e), x)), |Tokens(e)|)
    decreases e, 0
  {
    hide GenArms, GenSet, SetTokens, ArmTokens;
    Head(e, x);
    match e
    case Var(_) =>
    case Num(_) =>
    case Not(a) => LowerAlone(a);
    case And(a, b) => LowerAlone(a); LowerAlone(b);
    case Or(a, b) => LowerAlone(a); LowerAlone(b);
    case Comp(_, a, b) => LowerAlone(a); LowerAlone(b);
    case In(a, s) => if s != [] { LowerAlone(a); } LowerSet(a, s);
    case Case(arms) => LowerArms(arms, x); ArmsShape(arms, x);
  }

  lemma ArmsShape(arms: seq<Arm>, x: Node)
    requires arms != []
    ensures Concat(BuildArms(arms), x).Node?
  {
    ArmsFromFront(arms);
  }

  lemma {:induction false} LowerAlone(e: Expr)
    requires Solid(e)
    ensures AtLeast(Gen(Build(e)), |Tokens(e)|)
    decreases e, 1
  {
    if e == NOTHING {
      assert Build(NOTHING) == Null;
    } else {
      Lower(e, Null);
      ConcatNull(Build(e));
    }
  }

  lemma {:induction false} LowerArms(arms: seq<Arm>, x: Node)
    requires SolidArms(arms)
    ensures AtLeast(GenArms(Concat(BuildArms(arms), x)), |ArmTokens(arms)|)
    decreases arms, 1
  {
    hide Gen, Tokens;
    if arms == [] {
      ArmsNotEmpty(x);
    } else {
      var a := arms[0];
      assert a.cond < a && a.value < a;
      ArmsFromFront(arms);
      ConcatHead(ArmNode(a).(next := BuildArms(arms[1..])), x);
      CondOne(a.cond);
      LowerAlone(a.value);
      if !LiteralOne(a.cond) {
        LowerAlone(a.cond);
        LowerArms(arms[1..], x);
      }
    }
  }

  /** Comparisons with the nodes of z come on top of those with the nodes of w. */
  lemma {:induction false} Skipped(na: Node, z: Node, w: Node, n: nat)
    requires AtLeast(GenSet(na, w), n) && w.Node?
    ensures AtLeast(GenSet(na, Concat(z, w)), if z.Node? then n + 1 else n)
  {
    hide Gen;
    if z.Node? {
      Skipped(na, z.next, w, n);
      assert Concat(z, w).next == Concat(z.next, w) && Concat(z, w).next.Node?;
    }
  }

  lemma {:induction false} LowerSet(a: Expr, s: seq<Expr>)
    requires SolidSet(s) && (s != [] ==> AtLeast(Gen(Build(a)), |Tokens(a)|))
    ensures AtLeast(GenSet(Build(a), BuildList(s)), |SetTokens(Tokens(a), s)|)
    decreases s, 1
  {
    hide Gen, Tokens;
    if s != [] {
      ListFromFront(s);
      CondOne(a);
      var w := BuildList(s[1..]);
      Lower(s[0], w);
      Head(s[0], w);
      LowerSet(a, s[1..]);
      if s[0].Case? && w.Node? {
        Skipped(Build(a), BuildArms(s[0].arms[1..]), w, |SetTokens(Tokens(a), s[1..])|);
      }
      ListNull(s[1..]);
    }
  }

  lemma ListNull(s: seq<Expr>)
    requires SolidSet(s)
    ensures s == [] <==> BuildList(s).Null?
  {
    if s != [] {
      ListFromFront(s);
      Head(s[0], BuildList(s[1..]));
    }
  }

  // ----- what equal tokens imply

  lemma SameParts(a: seq<Token>, t: seq<Token>, b: seq<Token>, c: seq<Token>, d: seq<Token>)
    requires a + t + b == c + t + d && |a| >= |c| && |b| >= |d|
    ensures a == c && b == d
  {
    assert |a| == |c|;
    assert a == (a + t + b)[..|a|] && c == (c + t + d)[..|c|];
    assert b == (a + t + b)[|a| + |t|..] && d == (c + t + d)[|c| + |t|..];
  }

  lemma Inside(a: seq<Token>, b: seq<Token>)
    requires [LP] + a + [RP] == [LP] + b + [RP]
    ensures a == b
  {
    assert a == ([LP] + a + [RP])[1..|a| + 1] && b == ([LP] + b + [RP])[1..|b| + 1];
  }

  lemma {:induction false} OnlyIf(e: Expr)
    requires Solid(e) && Gen(Build(e)) == Some(Tokens(e))
    ensures Safe(e)
    decreases e, 0
  {
    hide GenArms, GenSet, SetTokens, ArmTokens;
    match e
    case Var(_) =>
    case Num(_) =>
    case Not(a) =>
      var g, t := Gen(Build(a)).value, Tokens(a);
      assert g == ([] + [Bang] + g)[1..] && t == ([Bang] + t)[1..];
      OnlyIf(a);
    case And(a, b) => OnlyPair(a, Amp, b); OnlyIf(a); OnlyIf(b);
    case Or(a, b) => OnlyPair(a, Bar, b); OnlyIf(a); OnlyIf(b);
    case Comp(r, a, b) => OnlyPair(a, RelOp(r), b); OnlyIf(a); OnlyIf(b);
    case In(a, s) =>
      if s != [] {
        Inside(GenSet(Build(a), BuildList(s)).value, SetTokens(Tokens(a), s));
        SubjectAlone(a, s);
        OnlyIf(a);
        OnlySet(a, s);
      }
    case Case(arms) =>
      assert Build(NOTHING) == Null;
      ArmsShape(arms, Null);
      ConcatNull(BuildArms(arms));
      GenCase(Build(e));
      Head(e, Null);
      Inside(GenArms(BuildArms(arms)).value, ArmTokens(arms));
      OnlyArms(arms);
  }

  lemma OnlyPair(a: Expr, op: Token, b: Expr)
    requires Solid(a) && Solid(b)
    requires Parens(Glue(Gen(Build(a)), [op], Gen(Build(b)))) == Some([LP] + (Tokens(a) + [op] + Tokens(b)) + [RP])
    ensures Gen(Build(a)) == Some(Tokens(a)) && Gen(Build(b)) == Some(Tokens(b))
  {
    hide Gen, Tokens;
    LowerAlone(a);
    LowerAlone(b);
    var g, h := Gen(Build(a)).value, Gen(Build(b)).value;
    Inside(g + [op] + h, Tokens(a) + [op] + Tokens(b));
    SameParts(g, [op], h, Tokens(a), Tokens(b));
  }

  lemma {:induction false} OnlyArms(arms: seq<Arm>)
    requires SolidArms(arms) && GenArms(BuildArms(arms)) == Some(ArmTokens(arms))
    ensures SafeArms(arms)
    decreases arms, 1
  {
    hide Gen, Tokens;
    if arms != [] {
      var a := arms[0];
      assert a.cond < a && a.value < a;
      ArmsFromFront(arms);
      CondOne(a.cond);
      if LiteralOne(a.cond) {
        OnlyIf(a.value);
      } else {
        LowerAlone(a.cond);
        LowerAlone(a.value);
        LowerArms(arms[1..], Null);
        ConcatNull(BuildArms(arms[1..]));
        var c, v, n := Gen(Build(a.cond)).value, Gen(Build(a.value)).value, GenArms(BuildArms(arms[1..])).value;
        SameParts(c + [Ques] + v, [Colon], n, Tokens(a.cond) + [Ques] + Tokens(a.value), ArmTokens(arms[1..]));
        SameParts(c, [Ques], v, Tokens(a.cond), Tokens(a.value));
        OnlyIf(a.cond);
        OnlyIf(a.value);
        OnlyArms(arms[1..]);
      }
    }
  }

  /** When a set comes out as intended, so do the value that is looked up, the first
      element in its place and the comparisons behind it; and no node lies in between. */
  lemma SetParts(a: Expr, s: seq<Expr>)
    requires Solid(a) && SolidSet(s) && s != []
    requires GenSet(Build(a), BuildList(s)) == Some(SetTokens(Tokens(a), s))
    ensures var w := BuildList(s[1..]);
            && Gen(Build(a)) == Some(Tokens(a))
            && Gen(Concat(Build(s[0]), w)) == Some(Tokens(s[0]))
            && (s[1..] != [] ==> GenSet(Build(a), w) == Some(SetTokens(Tokens(a), s[1..])))
            && (s[0].Case? ==> |s[0].arms| == 1)
  {
    hide Gen, Tokens;
    ListFromFront(s);
    CondOne(a);
    var w := BuildList(s[1..]);
    LowerAlone(a);
    Lower(s[0], w);
    Head(s[0], w);
    LowerSet(a, s[1..]);
    ListNull(s[1..]);
    var na, n := Build(a), Concat(Build(s[0]), w);
    var ga, g := Gen(na).value, Gen(n).value;
    var ta, t := Tokens(a), Tokens(s[0]);
    if s[0].Case? {
      ArmsLeft(s[0].arms);
      if w.Node? { Skipped(na, BuildArms(s[0].arms[1..]), w, |SetTokens(ta, s[1..])|); }
    }
    if n.next.Null? {
      SameParts(ga, [RelOp(EQ)], g, ta, t);
    } else {
      SetLonger(na, n.next, ta, s, ga + [RelOp(EQ)] + g, ta + [RelOp(EQ)] + t);
      SameParts(ga, [RelOp(EQ)], g, ta, t);
    }
  }

  lemma ArmsLeft(arms: seq<Arm>)
    requires arms != []
    ensures BuildArms(arms[1..]).Null? <==> |arms| == 1
  {
    if |arms| > 1 { ArmsFromFront(arms[1..]); }
  }

  lemma SetLonger(na: Node, rest: Node, ta: seq<Token>, s: seq<Expr>, g: seq<Token>, t: seq<Token>)
    requires s != [] && rest.Node? && GenSet(na, rest).Some? && |g| >= |t|
    requires g + [BarBar] + GenSet(na, rest).value ==
             if |s| == 1 then t else t + [BarBar] + SetTokens(ta, s[1..])
    requires |s| > 1 ==> |GenSet(na, rest).value| >= |SetTokens(ta, s[1..])|
    ensures |s| > 1 && g == t && GenSet(na, rest).value == SetTokens(ta, s[1..])
  {
    hide GenSet, SetTokens;
    var r := GenSet(na, rest).value;
    assert |g + [BarBar] + r| == |g| + 1 + |r|;
    if |s| > 1 {
      SameParts(g, [BarBar], r, t, SetTokens(ta, s[1..]));
    }
  }

  lemma SubjectAlone(a: Expr, s: seq<Expr>)
    requires Solid(a) && SolidSet(s) && s != []
    requires GenSet(Build(a), BuildList(s)) == Some(SetTokens(Tokens(a), s))
    ensures Gen(Build(a)) == Some(Tokens(a))
  {
    SetParts(a, s);
  }

  lemma {:induction false} OnlySet(a: Expr, s: seq<Expr>)
    requires Solid(a) && SolidSet(s)
    requires GenSet(Build(a), BuildList(s)) == Some(SetTokens(Tokens(a), s))
    ensures SafeSet(s)
    decreases s, 1
  {
    hide Gen, Tokens, GenSet, SetTokens;
    if s != [] {
      SetParts(a, s);
      var w := BuildList(s[1..]);
      Head(s[0], w);
      if s[0].Case? {
        OneArm(s[0], s[1..]);
        var arm := s[0].arms[0];
        assert arm in s[0].arms && arm.cond < arm && arm.value < arm;
        if !LiteralOne(arm.cond) { OnlyIf(arm.cond); }
        OnlyIf(arm.value);
        SafeOne(s[0]);
      } else {
        OnlyIf(s[0]);
      }
      if s[1..] == [] {
        assert SafeSet(s[1..]);
      } else {
        OnlySet(a, s[1..]);
      }
    }
  }

  lemma SafeOne(e: Expr)
    requires e.Case? && |e.arms| == 1 && Safe(e.arms[0].value)
    requires !LiteralOne(e.arms[0].cond) ==> Safe(e.arms[0].cond)
    ensures Safe(e)
  {
    assert e.arms[1..] == [] && SafeArms(e.arms[1..]);
    assert e.arms[0].cond < e.arms[0] && e.arms[0].value < e.arms[0];
  }

  /** A case list of one arm that comes out as intended in front of `rest`. */
  lemma OneArm(e: Expr, rest: seq<Expr>)
    requires Solid(e) && e.Case? && |e.arms| == 1 && SolidSet(rest)
    requires Gen(Concat(Build(e), BuildList(rest))) == Some(Tokens(e))
    ensures var a := e.arms[0];
            && Solid(a.value) && (!LiteralOne(a.cond) ==> Solid(a.cond))
            && Gen(Build(a.value)) == Some(Tokens(a.value))
            && (!LiteralOne(a.cond) ==> Gen(Build(a.cond)) == Some(Tokens(a.cond)))
            && ElementOk(e, rest)
  {
    hide Gen;
    var a, w := e.arms[0], BuildList(rest);
    Head(e, w);
    var n := Concat(Build(e), w);
    assert BuildArms(e.arms[1..]) == Null && n.next == w;
    CondOne(a.cond);
    Inside(GenArms(n).value, ArmTokens(e.arms));
    if !LiteralOne(a.cond) {
      assert ArmTokens(e.arms[1..]) == [Number([0])];
      ArmsNotEmpty(w);
      LowerAlone(a.cond);
      LowerAlone(a.value);
      var c, v, r := Gen(Build(a.cond)).value, Gen(Build(a.value)).value, GenArms(w).value;
      SameParts(c + [Ques] + v, [Colon], r, Tokens(a.cond) + [Ques] + Tokens(a.value), [Number([0])]);
      SameParts(c, [Ques], v, Tokens(a.cond), Tokens(a.value));
      if rest != [] {
        ListFromFront(rest);
        OnlyZeroArm(rest[0], BuildList(rest[1..]));
      }
    }
  }

  lemma OnlyDefault(e: Expr, x: Node)
    requires e != NOTHING && Gen(Concat(Build(e), x)) == Some([Number([0])])
    ensures e == DEFAULT
  {
    hide GenArms, GenSet;
    Head(e, x);
  }

  lemma OnlyDefaultAlone(e: Expr)
    requires Gen(Build(e)) == Some([Number([0])])
    ensures e == DEFAULT
  {
    hide Gen;
    NullEmitsNothing();
    CondOne(e);
    ConcatNull(Build(e));
    OnlyDefault(e, Null);
  }

  /** What adds nothing behind an arm is an expression of the kinds listed. */
  lemma OnlyZeroArm(e: Expr, x: Node)
    requires e != NOTHING && Solid(e) && GenArms(Concat(Build(e), x)) == Some([Number([0])])
    ensures ZeroArm(e)
  {
    hide Gen, Concat;
    Head(e, x);
    var n := Concat(Build(e), x);
    GenNotEmpty(n.arg1);
    GenNotEmpty(n.arg2);
    ArmsNotEmpty(n.next);
    assert IsOne(n.arg1) && Gen(n.arg2) == Some([Number([0])]);
    TwoArgs(Build(e), x);
    match e
    case And(a, b) => CondOne(a); OnlyDefaultAlone(b);
    case Or(a, b) => CondOne(a); OnlyDefaultAlone(b);
    case Comp(_, a, b) => CondOne(a); OnlyDefaultAlone(b);
    case In(a, s) =>
      CondOne(a);
      NullEmitsNothing();
      assert s == [] ==> BuildList(s) == Null;
      ListFromFront(s);
      OnlyDefault(s[0], BuildList(s[1..]));
    case Case(arms) => CondOne(arms[0].cond); OnlyDefaultAlone(arms[0].value);
    case Not(_) => NullEmitsNothing();
    case _ =>
  }

  lemma NullEmitsNothing()
    ensures Gen(Null).None?
  {
  }

  // ----- exactly the safe ones

  lemma {:induction false} SafeIsSolid(e: Expr)
    requires Safe(e)
    ensures Solid(e)
    decreases e, 0
  {
    match e
    case Var(_) =>
    case Num(_) =>
    case Not(a) => SafeIsSolid(a);
    case And(a, b) => SafeIsSolid(a); SafeIsSolid(b);
    case Or(a, b) => SafeIsSolid(a); SafeIsSolid(b);
    case Comp(_, a, b) => SafeIsSolid(a); SafeIsSolid(b);
    case In(a, s) => if s != [] { SafeIsSolid(a); SafeSetIsSolid(s); }
    case Case(arms) => SafeArmsAreSolid(arms);
  }

  lemma {:induction false} SafeSetIsSolid(s: seq<Expr>)
    requires SafeSet(s)
    ensures SolidSet(s)
    decreases s, 1
  {
    if s != [] {
      SafeIsSolid(s[0]);
      SafeSetIsSolid(s[1..]);
    }
  }

  lemma {:induction false} SafeArmsAreSolid(arms: seq<Arm>)
    requires SafeArms(arms)
    ensures SolidArms(arms)
    decreases arms, 1
  {
    if arms != [] {
      var a := arms[0];
      assert a.cond < a && a.value < a;
      SafeIsSolid(a.value);
      if !LiteralOne(a.cond) {
        SafeIsSolid(a.cond);
        SafeArmsAreSolid(arms[1..]);
      }
    }
  }

  /** For every expression: it loses no element and gen_expr emits the intended tokens if
      and only if it is safe. */
  lemma EmittedIff(e: Expr)
    ensures Solid(e) && Gen(Build(e)) == Some(Tokens(e)) <==> Safe(e)
  {
    hide Gen, Tokens, Safe, Build, Solid;
    if Safe(e) {
      Emits(e);
      SafeIsSolid(e);
    } else if Solid(e) && Gen(Build(e)) == Some(Tokens(e)) {
      OnlyIf(e);
    }
  }

  lemma {:induction false} PurgedIsSolid(e: Expr)
    ensures Solid(Purged(e))
    decreases e, 0
  {
    hide SolidSet, SolidArms;
    match e
    case Var(_) =>
    case Num(_) =>
    case Not(a) => PurgedIsSolid(a);
    case And(a, b) => PurgedIsSolid(a); PurgedIsSolid(b);
    case Or(a, b) => PurgedIsSolid(a); PurgedIsSolid(b);
    case Comp(_, a, b) => PurgedIsSolid(a); PurgedIsSolid(b);
    case In(a, s) => PurgedIsSolid(a); PurgedSetIsSolid(s);
    case Case(arms) => PurgedArmsAreSolid(arms);
  }

  lemma {:induction false} PurgedSetIsSolid(s: seq<Expr>)
    ensures SolidSet(PurgedSet(s))
    decreases s, 1
  {
    hide Solid;
    if s != [] {
      var t := PurgedSet(s[1..]);
      PurgedSetIsSolid(s[1..]);
      if s[0] == NOTHING {
        assert PurgedSet(s) == t;
      } else {
        PurgedIsSolid(s[0]);
        assert ([Purged(s[0])] + t)[1..] == t;
      }
    }
  }

  lemma {:induction false} PurgedArmsAreSolid(arms: seq<Arm>)
    ensures SolidArms(PurgedArms(arms))
    decreases arms, 1
  {
    hide Solid, Purged;
    if arms != [] {
      var a, t := arms[0], PurgedArms(arms[1..]);
      assert a.cond < a && a.value < a;
      PurgedIsSolid(a.cond);
      PurgedIsSolid(a.value);
      PurgedArmsAreSolid(arms[1..]);
      assert PurgedArms(arms)[1..] == t;
    }
  }

  /** What the parser loses is all that [ ] elements change: for every expression, gen_expr
      emits the tokens of the purged one if and only if that one is safe. */
  lemma PurgedEmittedIff(e: Expr)
    ensures Gen(Build(e)) == Some(Tokens(Purged(e))) <==> Safe(Purged(e))
  {
    hide Gen, Tokens, Safe, Build, Solid, Purged;
    SameNodes(e);
    PurgedIsSolid(e);
    EmittedIff(Purged(e));
  }

  lemma LiteralPurged(e: Expr)
    ensures LiteralOne(Purged(e)) <==> LiteralOne(e)
  {
  }

  /** Purging leaves a solid expression's tokens alone and takes some of every other's. */
  lemma {:induction false} PurgedTokens(e: Expr)
    ensures |Tokens(Purged(e))| <= |Tokens(e)|
    ensures if Solid(e) then Tokens(Purged(e)) == Tokens(e) else |Tokens(Purged(e))| < |Tokens(e)|
    decreases e, 0
  {
    hide SetTokens, ArmTokens, SolidSet, SolidArms, PurgedSet, PurgedArms;
    match e
    case Var(_) =>
    case Num(_) =>
    case Not(a) => PurgedTokens(a);
    case And(a, b) => PurgedTokens(a); PurgedTokens(b);
    case Or(a, b) => PurgedTokens(a); PurgedTokens(b);
    case Comp(_, a, b) => PurgedTokens(a); PurgedTokens(b);
    case In(a, s) => PurgedTokens(a); PurgedSetTokens(Tokens(Purged(a)), Tokens(a), s);
    case Case(arms) => PurgedArmTokens(arms);
  }

  lemma SetLength(ta: seq<Token>, s: seq<Expr>)
    ensures |SetTokens(ta, s)| ==
              if s == [] then 0
              else |ta| + 1 + |Tokens(s[0])| + (if s[1..] == [] then 0 else 1 + |SetTokens(ta, s[1..])|)
  {
    hide Tokens;
  }

  lemma {:induction false} PurgedSetTokens(tp: seq<Token>, ta: seq<Token>, s: seq<Expr>)
    requires tp == ta || |tp| < |ta|
    ensures |SetTokens(tp, PurgedSet(s))| <= |SetTokens(ta, s)|
    ensures if s == [] || (tp == ta && SolidSet(s)) then SetTokens(tp, PurgedSet(s)) == SetTokens(ta, s)
            else |SetTokens(tp, PurgedSet(s))| < |SetTokens(ta, s)|
    decreases s, 1
  {
    hide Tokens, Solid, Purged;
    if s != [] {
      var p, t := Purged(s[0]), PurgedSet(s[1..]);
      PurgedSetTokens(tp, ta, s[1..]);
      SetLength(ta, s);
      SetLength(tp, [p] + t);
      if s[0] == NOTHING {
        assert PurgedSet(s) == t;
      } else {
        PurgedTokens(s[0]);
        var u := [p] + t;
        assert PurgedSet(s) == u && u[1..] == t && u[0] == p;
        assert s[1..] == [] ==> t == [] && SolidSet(s[1..]);
      }
    }
  }

  lemma {:induction false} PurgedArmTokens(arms: seq<Arm>)
    ensures |ArmTokens(PurgedArms(arms))| <= |ArmTokens(arms)|
    ensures if SolidArms(arms) then ArmTokens(PurgedArms(arms)) == ArmTokens(arms)
            else |ArmTokens(PurgedArms(arms))| < |ArmTokens(arms)|
    decreases arms, 1
  {
    hide Tokens, Solid, Purged;
    if arms != [] {
      var a, t := arms[0], PurgedArms(arms[1..]);
      assert a.cond < a && a.value < a;
      LiteralPurged(a.cond);
      PurgedTokens(a.cond);
      PurgedTokens(a.value);
      PurgedArmTokens(arms[1..]);
      var u := [Arm(Purged(a.cond), Purged(a.value))] + t;
      assert PurgedArms(arms) == u && u[1..] == t;
    }
  }

  /** When that is what is emitted, it is what should be exactly if no element was lost. */
  lemma SolidIff(e: Expr)
    requires Safe(Purged(e))
    ensures Gen(Build(e)) == Some(Tokens(e)) <==> Solid(e)
  {
    hide Gen, Tokens, Safe, Build, Solid, Purged;
    PurgedEmittedIff(e);
    PurgedTokens(e);
  }

  /** [ 1 : 0; 1 : 0; ] */
  const TWICE: seq<Arm> := [Arm(Num(ONE), DEFAULT), Arm(Num(ONE), DEFAULT)]

  lemma TwiceTokens(ta: seq<Token>)
    ensures AllArmsSafe(TWICE)
    ensures SetTokens(ta, Suffixes(TWICE)) == SetTokens(ta, [NOTHING, Case(TWICE)])
  {
    var rest := TWICE[1..];
    OneDigit(1);
    assert rest[0] == TWICE[1] && rest[1..] == [] && Suffixes([]) == [];
    assert Suffixes(rest) == [Case(rest)];
    assert Suffixes(TWICE) == [Case(TWICE), Case(rest)];
    assert ArmTokens(TWICE) == ArmTokens(rest) == ArmTokens([]) == [Number([0])];
    assert Tokens(Case(TWICE)) == Tokens(Case(rest)) == Tokens(NOTHING);
    assert Suffixes(TWICE)[1..] == [Case(rest)];
    assert [NOTHING, Case(TWICE)][1..] == [Case(TWICE)];
  }

  lemma NothingFirst(a: Expr, s: seq<Expr>)
    requires s != [] && s[0] == NOTHING
    ensures !Safe(In(a, s)) && !Solid(In(a, s))
  {
  }

  /** An element lost and another that comes out twice can make up for each other: the
      tokens alone do not tell that the expression was taken apart. */
  lemma LuckyExample(a: Expr)
    requires Safe(a)
    ensures var e := In(a, [NOTHING, Case(TWICE)]); Gen(Build(e)) == Some(Tokens(e)) && !Safe(e) && !Solid(e)
  {
    hide Gen, Tokens, Build, BuildList, Safe, Solid, Suffixes, SetTokens, AllArmsSafe;
    NothingFirst(a, [NOTHING, Case(TWICE)]);
    DroppedFirst(Case(TWICE));
    SameSet(a, [NOTHING, Case(TWICE)], [Case(TWICE)]);
    TwiceTokens(Tokens(a));
    CaseElementEmits(a, TWICE);
    SetOnly(a, Suffixes(TWICE), [NOTHING, Case(TWICE)]);
  }

  lemma SetOnly(a: Expr, s: seq<Expr>, t: seq<Expr>)
    requires SetTokens(Tokens(a), s) == SetTokens(Tokens(a), t)
    ensures Tokens(In(a, s)) == Tokens(In(a, t))
  {
  }
}
