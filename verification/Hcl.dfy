/** lab6/sim/misc/node.c: HCL expressions, the linked nodes the parser builds from them
    and the C tokens gen_expr emits for those. */
module Hcl {
  import opened Bits
  import opened Wrappers

  // ----- HCL expressions, as the grammar of hcl.y derives them

  datatype Rel = EQ | NE | LT | LE | GT | GE

  /** A NUM token: an optional minus sign and decimal digits. */
  datatype Numeral = Numeral(neg: bool, digits: seq<nat>)

  const ZERO := Numeral(false, [0])
  const ONE := Numeral(false, [1])

  datatype Arm = Arm(cond: Expr, value: Expr)

  datatype Expr =
    | Var(name: string)
    | Num(num: Numeral)
    | Not(arg: Expr)
    | And(left: Expr, right: Expr)
    | Or(left: Expr, right: Expr)
    | Comp(rel: Rel, left: Expr, right: Expr)
    | In(elem: Expr, set_: seq<Expr>)
    | Case(arms: seq<Arm>)

  function Decimal(digits: seq<nat>): nat {
    if digits == [] then 0 else 10 * Decimal(digits[..|digits| - 1]) + digits[|digits| - 1]
  }

  function Signed(neg: bool, n: int): int {
    if neg then -n else n
  }

  function Holds(rel: Rel, x: int, y: int): bool {
    match rel
    case EQ => x == y
    case NE => x != y
    case LT => x < y
    case LE => x <= y
    case GT => x > y
    case GE => x >= y
  }

  /** Less grows step by step from nothing being less than itself, and gives the other relations. */
  lemma RelationsAre(x: int, y: int)
    ensures !Holds(LT, x, x) && (Holds(LT, x, y + 1) <==> Holds(LT, x, y) || x == y)
    ensures Holds(GT, x, y) <==> Holds(LT, y, x)
    ensures Holds(LE, x, y) <==> !Holds(GT, x, y)
    ensures Holds(GE, x, y) <==> !Holds(LT, x, y)
    ensures Holds(EQ, x, y) <==> Holds(LE, x, y) && Holds(GE, x, y)
    ensures Holds(NE, x, y) <==> !Holds(EQ, x, y)
  {
  }

  type Env = string -> int

  /** The value of an HCL expression: a case list is the value of its first true arm,
      or 0. */
  function Eval(e: Expr, env: Env): int
    decreases e, 0
  {
    match e
    case Var(x) => env(x)
    case Num(n) => Signed(n.neg, Decimal(n.digits))
    case Not(a) => Bit(Eval(a, env) == 0)
    case And(a, b) => Bit(Eval(a, env) != 0 && Eval(b, env) != 0)
    case Or(a, b) => Bit(Eval(a, env) != 0 || Eval(b, env) != 0)
    case Comp(r, a, b) => Bit(Holds(r, Eval(a, env), Eval(b, env)))
    case In(a, s) => Bit(exists i :: 0 <= i < |s| && Eval(a, env) == Eval(s[i], env))
    case Case(arms) => EvalArms(arms, env)
  }

  function EvalArms(arms: seq<Arm>, env: Env): int
    decreases arms, 1
  {
    if arms == [] then 0 else
      var a := arms[0];
      assert a.cond < a && a.value < a;
      if Eval(a.cond, env) != 0 then Eval(a.value, env) else EvalArms(arms[1..], env)
  }

  // ----- the nodes

  datatype Sval = SName(name: string) | SNum(num: Numeral) | SRel(rel: Rel) | SOther

  datatype Kind = N_VAR | N_NUM | N_AND | N_OR | N_NOT | N_COMP | N_ELE | N_CASE

  /** A node and, through `next`, the rest of the list it is on. */
  datatype Node =
    | Null
    | Node(kind: Kind, isbool: bool, sval: Sval, arg1: Node, arg2: Node, next: Node)

  function NewNode(kind: Kind, isbool: bool, sval: Sval, arg1: Node, arg2: Node): Node {
    Node(kind, isbool, sval, arg1, arg2, Null)
  }

  /** Links n2 behind the last node of n1. */
  function Concat(n1: Node, n2: Node): Node {
    if n1.Null? then n2 else n1.(next := Concat(n1.next, n2))
  }

  /** The nodes the parser's actions build. */
  function Build(e: Expr): Node
    decreases e, 0
  {
    match e
    case Var(x) => NewNode(N_VAR, false, SName(x), Null, Null)
    case Num(n) => NewNode(N_NUM, false, SNum(n), Null, Null)
    case Not(a) => NewNode(N_NOT, true, SOther, Build(a), Null)
    case And(a, b) => NewNode(N_AND, true, SOther, Build(a), Build(b))
    case Or(a, b) => NewNode(N_OR, true, SOther, Build(a), Build(b))
    case Comp(r, a, b) => NewNode(N_COMP, true, SRel(r), Build(a), Build(b))
    case In(a, s) => NewNode(N_ELE, true, SOther, Build(a), BuildList(s))
    case Case(arms) => BuildArms(arms)
  }

  /** exprlist: each expression is concatenated behind those before it. */
  function BuildList(s: seq<Expr>): Node
    decreases s, 1
  {
    if s == [] then Null else Concat(BuildList(s[..|s| - 1]), Build(s[|s| - 1]))
  }

  function BuildArms(arms: seq<Arm>): Node
    decreases arms, 1
  {
    if arms == [] then Null else
      var a := arms[|arms| - 1];
      assert a.cond < a && a.value < a;
      Concat(BuildArms(arms[..|arms| - 1]), NewNode(N_CASE, false, SOther, Build(a.cond), Build(a.value)))
  }

  // ----- check_arg

  /** Which variables are declared, and whether as Boolean. */
  type Sig = map<string, bool>

  predicate CheckArg(n: Node, wantbool: bool, sig: Sig) {
    if n.Null? then false
    else if n.kind == N_VAR then n.sval.SName? && n.sval.name in sig && sig[n.sval.name] == wantbool
    else if n.kind == N_NUM then wantbool ==> n.sval.SNum? && n.sval.num in {ZERO, ONE}
    else n.isbool == wantbool
  }

  predicate CheckChain(n: Node, wantbool: bool, sig: Sig) {
    n.Null? || (CheckArg(n, wantbool, sig) && CheckChain(n.next, wantbool, sig))
  }

  /** All checks the make_* functions make while the parser builds the expression, the
      variables of set elements, which are not checked, being declared. Nothing is checked
      of a case list without arms, or of the elements of a set. */
  predicate Checked(e: Expr, sig: Sig)
    decreases e, 0
  {
    match e
    case Var(x) => x in sig
    case Num(_) => true
    case Not(a) => Checked(a, sig) && CheckArg(Build(a), true, sig)
    case And(a, b) =>
      Checked(a, sig) && Checked(b, sig) && CheckArg(Build(a), true, sig) && CheckArg(Build(b), true, sig)
    case Or(a, b) =>
      Checked(a, sig) && Checked(b, sig) && CheckArg(Build(a), true, sig) && CheckArg(Build(b), true, sig)
    case Comp(_, a, b) =>
      Checked(a, sig) && Checked(b, sig) && CheckArg(Build(a), false, sig) && CheckArg(Build(b), false, sig)
    case In(a, s) =>
      && Checked(a, sig) && CheckArg(Build(a), false, sig) && CheckChain(Build(a), false, sig)
      && s != [] && forall i | 0 <= i < |s| :: Checked(s[i], sig)
    case Case(arms) =>
      forall i | 0 <= i < |arms| ::
        && Checked(arms[i].cond, sig) && Checked(arms[i].value, sig)
        && CheckArg(Build(arms[i].cond), true, sig) && CheckArg(Build(arms[i].value), false, sig)
  }

  // ----- gen_expr

  datatype Token =
    | LP | RP | Text(name: string) | Number(digits: seq<nat>) | Minus | Bang | Amp | Bar | BarBar
    | RelOp(rel: Rel) | Ques | Colon | Semi

  function NumTokens(n: Numeral): seq<Token> {
    if n.neg then [Minus, Number(n.digits)] else [Number(n.digits)]
  }

  function Size(n: Node): nat {
    if n.Null? then 0 else 1 + Size(n.arg1) + Size(n.arg2) + Size(n.next)
  }

  /** A literal 1 as the condition of a case arm. */
  predicate IsOne(n: Node) {
    n.Node? && n.kind == N_NUM && n.sval.SNum? && !n.sval.num.neg && Decimal(n.sval.num.digits) == 1
  }

  function Glue(a: Option<seq<Token>>, t: seq<Token>, b: Option<seq<Token>>): Option<seq<Token>> {
    if a.Some? && b.Some? then Some(a.value + t + b.value) else None
  }

  function Parens(a: Option<seq<Token>>): Option<seq<Token>> {
    if a.Some? then Some([LP] + a.value + [RP]) else None
  }

  /** The tokens gen_expr emits for a node, or None when it follows a null pointer. */
  function Gen(n: Node): Option<seq<Token>>
    decreases Size(n), 1
  {
    if n.Null? then None else
      match n.kind
      case N_VAR => if n.sval.SName? then Some([LP, Text(n.sval.name), RP]) else None
      case N_NUM => if n.sval.SNum? then Some(NumTokens(n.sval.num)) else None
      case N_AND => Parens(Glue(Gen(n.arg1), [Amp], Gen(n.arg2)))
      case N_OR => Parens(Glue(Gen(n.arg1), [Bar], Gen(n.arg2)))
      case N_NOT => Glue(Some([]), [Bang], Gen(n.arg1))
      case N_COMP => if n.sval.SRel? then Parens(Glue(Gen(n.arg1), [RelOp(n.sval.rel)], Gen(n.arg2))) else None
      case N_ELE => Parens(GenSet(n.arg1, n.arg2))
      case N_CASE => Parens(GenArms(n))
  }

  /** The loop over the elements of a set: one comparison for each node on the list. */
  function GenSet(a: Node, ele: Node): Option<seq<Token>>
    decreases Size(a) + Size(ele), 0
  {
    if ele.Null? then Some([]) else
      SizePositive(a, ele);
      var first := if a.Null? then None else Glue(Gen(a), [RelOp(EQ)], Gen(ele));
      if ele.next.Null? then first else Glue(first, [BarBar], GenSet(a, ele.next))
  }

  lemma SizePositive(a: Node, ele: Node)
    requires ele.Node?
    ensures Size(a) < Size(a) + Size(ele) && (a.Node? ==> Size(ele) < Size(a) + Size(ele))
    ensures Size(ele.next) < Size(ele)
  {
  }

  /** The loop over the arms of a case list; a literal 1 ends it, else 0 is the default. */
  function GenArms(ele: Node): Option<seq<Token>>
    decreases Size(ele), 0
  {
    if ele.Null? then Some([Number([0])])
    else if ele.arg1.Null? then None
    else if IsOne(ele.arg1) then Gen(ele.arg2)
    else Glue(Glue(Gen(ele.arg1), [Ques], Gen(ele.arg2)), [Colon], GenArms(ele.next))
  }

  // ----- gen_expr as it runs, on an output that grows

  class Emitter {
    var out: seq<Token>

    constructor ()
      ensures out == []
    {
      out := [];
    }

    method Print(ts: seq<Token>)
      modifies this
      ensures out == old(out) + ts
    {
      out := out + ts;
    }

    method GenExpr(n: Node)
      requires Gen(n).Some?
      modifies this
      ensures out == old(out) + Gen(n).value
      decreases Size(n), 1
    {
      hide GenSet, GenArms;
      match n.kind {
        case N_VAR => Print([LP, Text(n.sval.name), RP]);
        case N_NUM => Print(NumTokens(n.sval.num));
        case N_AND => GenPair(n.arg1, Amp, n.arg2, Size(n));
        case N_OR => GenPair(n.arg1, Bar, n.arg2, Size(n));
        case N_NOT => Print([Bang]); GenExpr(n.arg1); assert [] + [Bang] == [Bang];
        case N_COMP => GenPair(n.arg1, RelOp(n.sval.rel), n.arg2, Size(n));
        case N_ELE =>
          Print([LP]);
          GenElements(n.arg1, n.arg2);
          Print([RP]);
        case N_CASE =>
          Print([LP]);
          GenCase(n);
          Print([RP]);
      }
    }

    method GenPair(a: Node, op: Token, b: Node, ghost bound: nat)
      requires Gen(a).Some? && Gen(b).Some? && Size(a) < bound && Size(b) < bound
      modifies this
      ensures out == old(out) + ([LP] + (Gen(a).value + [op] + Gen(b).value) + [RP])
      decreases bound, 0
    {
      ghost var o := out;
      Print([LP]);
      GenExpr(a);
      Print([op]);
      GenExpr(b);
      Print([RP]);
      Regroup(o, [LP], Gen(a).value, [op], Gen(b).value, [RP]);
    }

    method GenElements(a: Node, list: Node)
      requires GenSet(a, list).Some?
      modifies this
      ensures out == old(out) + GenSet(a, list).value
      decreases Size(a) + Size(list), 0
    {
      var ele := list;
      while !ele.Null?
        invariant GenSet(a, ele).Some? && Size(ele) <= Size(list)
        invariant out + GenSet(a, ele).value == old(out) + GenSet(a, list).value
        decreases Size(ele)
      {
        SetStep(out, a, ele);
        SizePositive(a, ele);
        GenExpr(a);
        Print([RelOp(EQ)]);
        GenExpr(ele);
        if !ele.next.Null? {
          Print([BarBar]);
        }
        ele := ele.next;
      }
    }

    method GenCase(list: Node)
      requires GenArms(list).Some?
      modifies this
      ensures out == old(out) + GenArms(list).value
      decreases Size(list), 0
    {
      var done := false;
      var ele := list;
      while !ele.Null? && !done
        invariant !done ==> GenArms(ele).Some? && Size(ele) <= Size(list)
        invariant out + (if done then [] else GenArms(ele).value) == old(out) + GenArms(list).value
        decreases Size(ele)
      {
        if IsOne(ele.arg1) {
          GenExpr(ele.arg2);
          done := true;
        } else {
          ArmStep(out, ele);
          GenExpr(ele.arg1);
          Print([Ques]);
          GenExpr(ele.arg2);
          Print([Colon]);
        }
        ele := ele.next;
      }
      if !done {
        Print([Number([0])]);
      }
    }
  }

  lemma Regroup(o: seq<Token>, a: seq<Token>, b: seq<Token>, c: seq<Token>, d: seq<Token>, e: seq<Token>)
    ensures o + a + b + c + d + e == o + (a + (b + c + d) + e)
  {
  }

  lemma SetStep(o: seq<Token>, a: Node, ele: Node)
    requires ele.Node? && GenSet(a, ele).Some?
    ensures Gen(a).Some? && Gen(ele).Some? && GenSet(a, ele.next).Some?
    ensures var x := o + Gen(a).value + [RelOp(EQ)] + Gen(ele).value;
            o + GenSet(a, ele).value == (if ele.next.Null? then x else x + [BarBar]) + GenSet(a, ele.next).value
  {
    var f := Gen(a).value + [RelOp(EQ)] + Gen(ele).value;
    assert o + f == o + Gen(a).value + [RelOp(EQ)] + Gen(ele).value;
    if !ele.next.Null? {
      assert o + (f + [BarBar] + GenSet(a, ele.next).value) == o + f + [BarBar] + GenSet(a, ele.next).value;
    }
  }

  lemma ArmStep(o: seq<Token>, ele: Node)
    requires ele.Node? && GenArms(ele).Some? && !IsOne(ele.arg1)
    ensures Gen(ele.arg1).Some? && Gen(ele.arg2).Some? && GenArms(ele.next).Some?
    ensures o + GenArms(ele).value
            == o + Gen(ele.arg1).value + [Ques] + Gen(ele.arg2).value + [Colon] + GenArms(ele.next).value
  {
    Regroup(o, [], Gen(ele.arg1).value, [Ques], Gen(ele.arg2).value, [Colon] + GenArms(ele.next).value);
  }
}
