/** The checks of lab6/sim/misc/node.c as a type system of HCL expressions. */
module HclTyping {
  import opened Hcl

  /** What an expression may be used as: a variable as it was declared, 0 and 1 as both and other
      numbers as integers, an operation as Boolean, and a case list with an arm as an integer. */
  predicate Typed(e: Expr, bool_: bool, sig: Sig) {
    match e
    case Var(x) => x in sig && sig[x] == bool_
    case Num(n) => !bool_ || n == Numeral(false, [0]) || n == Numeral(false, [1])
    case Case(arms) => arms != [] && !bool_
    case _ => bool_
  }

  /** The nodes of a case list: one for each arm. */
  lemma {:induction false} ArmNodes(arms: seq<Arm>, sig: Sig)
    ensures BuildArms(arms).Null? <==> arms == []
    ensures arms != [] ==> BuildArms(arms).kind == N_CASE && !BuildArms(arms).isbool
    ensures CheckChain(BuildArms(arms), false, sig)
  {
    if arms != [] {
      var a := arms[|arms| - 1];
      assert a.cond < a && a.value < a;
      ArmNodes(arms[..|arms| - 1], sig);
      ChainEnd(BuildArms(arms[..|arms| - 1]), NewNode(N_CASE, false, SOther, Build(a.cond), Build(a.value)), sig);
    }
  }

  lemma {:induction false} ChainEnd(list: Node, last: Node, sig: Sig)
    requires CheckChain(list, false, sig) && last.Node? && CheckChain(last, false, sig)
    ensures CheckChain(Concat(list, last), false, sig) && Concat(list, last).Node?
    ensures list.Node? ==> Concat(list, last).kind == list.kind && Concat(list, last).isbool == list.isbool
  {
    if list.Node? { ChainEnd(list.next, last, sig); }
  }

  /** check_arg, which looks at the first node only, accepts exactly what the type allows. */
  lemma CheckArgIff(e: Expr, bool_: bool, sig: Sig)
    ensures CheckArg(Build(e), bool_, sig) <==> Typed(e, bool_, sig)
  {
    if e.Case? { ArmNodes(e.arms, sig); }
  }

  /** The loop of make_ele over the whole list never finds more. */
  lemma ChainToo(e: Expr, sig: Sig)
    ensures CheckArg(Build(e), false, sig) ==> CheckChain(Build(e), false, sig)
  {
    if e.Case? { ArmNodes(e.arms, sig); }
  }

  /** Operands of the right types throughout, elements of sets excepted. */
  predicate WellTyped(e: Expr, sig: Sig)
    decreases e, 0
  {
    match e
    case Var(x) => x in sig
    case Num(_) => true
    case Not(a) => WellTyped(a, sig) && Typed(a, true, sig)
    case And(a, b) => WellTyped(a, sig) && WellTyped(b, sig) && Typed(a, true, sig) && Typed(b, true, sig)
    case Or(a, b) => WellTyped(a, sig) && WellTyped(b, sig) && Typed(a, true, sig) && Typed(b, true, sig)
    case Comp(_, a, b) => WellTyped(a, sig) && WellTyped(b, sig) && Typed(a, false, sig) && Typed(b, false, sig)
    case In(a, s) =>
      WellTyped(a, sig) && Typed(a, false, sig) && s != [] && forall i | 0 <= i < |s| :: WellTyped(s[i], sig)
    case Case(arms) =>
      forall i | 0 <= i < |arms| ::
        && WellTyped(arms[i].cond, sig) && WellTyped(arms[i].value, sig)
        && Typed(arms[i].cond, true, sig) && Typed(arms[i].value, false, sig)
  }

  /** The parser's checks pass exactly for the well-typed expressions. */
  lemma {:induction false} CheckedIff(e: Expr, sig: Sig)
    ensures Checked(e, sig) <==> WellTyped(e, sig)
    decreases e
  {
    hide CheckArg, Typed, Build, CheckChain;
    match e
    case Var(_) =>
    case Num(_) =>
    case Not(a) =>
      CheckedIff(a, sig);
      CheckArgIff(a, true, sig);
    case And(a, b) => PairIff(a, b, true, sig); CheckedIff(a, sig); CheckedIff(b, sig);
    case Or(a, b) => PairIff(a, b, true, sig); CheckedIff(a, sig); CheckedIff(b, sig);
    case Comp(_, a, b) => PairIff(a, b, false, sig); CheckedIff(a, sig); CheckedIff(b, sig);
    case In(a, s) =>
      CheckedIff(a, sig);
      CheckArgIff(a, false, sig);
      ChainToo(a, sig);
      forall i | 0 <= i < |s| ensures Checked(s[i], sig) <==> WellTyped(s[i], sig) { CheckedIff(s[i], sig); }
    case Case(arms) =>
      forall i | 0 <= i < |arms|
        ensures Checked(arms[i].cond, sig) <==> WellTyped(arms[i].cond, sig)
        ensures Checked(arms[i].value, sig) <==> WellTyped(arms[i].value, sig)
        ensures CheckArg(Build(arms[i].cond), true, sig) <==> Typed(arms[i].cond, true, sig)
        ensures CheckArg(Build(arms[i].value), false, sig) <==> Typed(arms[i].value, false, sig)
      {
        var a := arms[i];
        assert a.cond < a && a.value < a;
        CheckedIff(a.cond, sig);
        CheckedIff(a.value, sig);
        CheckArgIff(a.cond, true, sig);
        CheckArgIff(a.value, false, sig);
      }
  }

  lemma PairIff(a: Expr, b: Expr, bool_: bool, sig: Sig)
    ensures CheckArg(Build(a), bool_, sig) <==> Typed(a, bool_, sig)
    ensures CheckArg(Build(b), bool_, sig) <==> Typed(b, bool_, sig)
  {
    CheckArgIff(a, bool_, sig);
    CheckArgIff(b, bool_, sig);
  }
}
