/** The C expressions that HCL code turns into: their grammar, as a precedence parser over
    tokens, and their values. */
module CExpr {
  import opened Bits
  import opened Hcl
  import Words
  import opened Wrappers

  datatype CTree =
    | CText(name: string)          // the quoted C text of a declared signal
    | CNum(digits: seq<nat>)
    | CNeg(arg: CTree)
    | CNot(arg: CTree)
    | CBin(op: Token, left: CTree, right: CTree)
    | CCond(cond: CTree, yes: CTree, no: CTree)

  // ----- parsing

  /** Precedence of a binary operator, loosest first; -1 for other tokens. */
  function Level(t: Token): int {
    match t
    case BarBar => 0
    case Bar => 1
    case Amp => 2
    case RelOp(r) => if r.EQ? || r.NE? then 3 else 4
    case _ => -1
  }

  /** The precedence of C: || binds less than |, that less than &, then come == and != and
      then the four orders. */
  lemma Precedences(r: Rel)
    ensures Level(BarBar) < Level(Bar) < Level(Amp) < Level(RelOp(EQ)) == Level(RelOp(NE)) < Level(RelOp(LT)) < TIGHTEST
    ensures r in {LT, LE, GT, GE} ==> Level(RelOp(r)) == Level(RelOp(LT))
  {
  }

  const TIGHTEST: nat := 5

  type Parse = Option<(CTree, seq<Token>)>

  /** conditional-expression */
  function ParseCond(ts: seq<Token>): (r: Parse)
    ensures r.Some? ==> |r.value.1| < |ts|
    decreases |ts|, 9
  {
    match ParseBin(0, ts)
    case None => None
    case Some((c, rest)) =>
      if rest == [] || rest[0] != Ques then Some((c, rest)) else
        match ParseCond(rest[1..])
        case None => None
        case Some((y, rest2)) =>
          if rest2 == [] || rest2[0] != Colon then None else
            match ParseCond(rest2[1..])
            case None => None
            case Some((n, rest3)) => Some((CCond(c, y, n), rest3))
  }

  /** A chain of operands and left-associative operators of one level. */
  function ParseBin(level: nat, ts: seq<Token>): (r: Parse)
    requires level <= TIGHTEST
    ensures r.Some? ==> |r.value.1| < |ts|
    decreases |ts|, 7 - level
  {
    if level == TIGHTEST then ParseUnary(ts) else
      match ParseBin(level + 1, ts)
      case None => None
      case Some((t, rest)) => ParseTail(level, t, rest)
  }

  function ParseTail(level: nat, acc: CTree, ts: seq<Token>): (r: Parse)
    requires level < TIGHTEST
    ensures r.Some? ==> |r.value.1| <= |ts|
    decreases |ts|, 8
  {
    if ts == [] || Level(ts[0]) != level then Some((acc, ts)) else
      match ParseBin(level + 1, ts[1..])
      case None => None
      case Some((t, rest)) => ParseTail(level, CBin(ts[0], acc, t), rest)
  }

  /** unary-expression and primary-expression */
  function ParseUnary(ts: seq<Token>): (r: Parse)
    ensures r.Some? ==> |r.value.1| < |ts|
    decreases |ts|, 0
  {
    if ts == [] then None else
      match ts[0]
      case Bang => (match ParseUnary(ts[1..]) case None => None case Some((t, rest)) => Some((CNot(t), rest)))
      case Minus => (match ParseUnary(ts[1..]) case None => None case Some((t, rest)) => Some((CNeg(t), rest)))
      case Text(x) => Some((CText(x), ts[1..]))
      case Number(d) => Some((CNum(d), ts[1..]))
      case LP =>
        (match ParseCond(ts[1..])
         case None => None
         case Some((t, rest)) => if rest == [] || rest[0] != RP then None else Some((t, rest[1..])))
      case _ => None
  }

  // ----- values

  /** Octal digits, when they are. */
  function Octal(digits: seq<nat>): Option<nat> {
    if digits == [] then Some(0) else
      var d := digits[|digits| - 1];
      match Octal(digits[..|digits| - 1])
      case None => None
      case Some(n) => if d < 8 then Some(8 * n + d) else None
  }

  /** A C integer constant: a leading 0 makes it octal, and a `long long` has to hold it. */
  function Constant(digits: seq<nat>): Option<nat> {
    var n := if |digits| > 1 && digits[0] == 0 then Octal(digits) else Some(Decimal(digits));
    if n.Some? && n.value >= Words.TWO_63 then None else n
  }

  function Operate(op: Token, x: int, y: int): Option<int> {
    match op
    case BarBar => Some(Bit(x != 0 || y != 0))
    case Bar => Some(BitOr(x, y))
    case Amp => Some(BitAnd(x, y))
    case RelOp(r) => Some(Bit(Holds(r, x, y)))
    case _ => None
  }

  function EvalC(t: CTree, env: Env): Option<int> {
    match t
    case CText(x) => Some(env(x))
    case CNum(d) => (match Constant(d) case None => None case Some(n) => Some(n))
    case CNeg(a) => (match EvalC(a, env) case None => None case Some(x) => Some(-x))
    case CNot(a) => (match EvalC(a, env) case None => None case Some(x) => Some(Bit(x == 0)))
    case CBin(op, a, b) =>
      var x, y := EvalC(a, env), EvalC(b, env);
      if x.None? || y.None? then None else Operate(op, x.value, y.value)
    case CCond(c, y, n) =>
      (match EvalC(c, env)
       case None => None
       case Some(x) => if x != 0 then EvalC(y, env) else EvalC(n, env))
  }

  // ----- how unary operands combine

  /** Nothing of `level` or tighter continues the expression at `r`. */
  predicate Stops(level: nat, r: seq<Token>) {
    r == [] || Level(r[0]) < level
  }

  /** What parses at a level parses at every looser level, when it stops there. */
  lemma {:induction false} Lift(tight: nat, loose: nat, ts: seq<Token>, t: CTree, r: seq<Token>)
    requires loose <= tight <= TIGHTEST && ParseBin(tight, ts) == Some((t, r)) && Stops(loose, r)
    ensures ParseBin(loose, ts) == Some((t, r))
    decreases tight - loose
  {
    if loose < tight { Lift(tight, loose + 1, ts, t, r); }
  }

  /** Two operands around an operator. */
  lemma Binary(ts: seq<Token>, a: CTree, op: Token, us: seq<Token>, b: CTree, r: seq<Token>, loose: nat)
    requires 0 <= Level(op) && loose <= Level(op) && Stops(loose, r)
    requires ParseUnary(ts) == Some((a, [op] + us)) && ParseUnary(us) == Some((b, r))
    ensures ParseBin(loose, ts) == Some((CBin(op, a, b), r))
  {
    var k := Level(op);
    assert ([op] + us)[1..] == us;
    Lift(TIGHTEST, k + 1, ts, a, [op] + us);
    Lift(TIGHTEST, k + 1, us, b, r);
    assert ParseTail(k, CBin(op, a, b), r) == Some((CBin(op, a, b), r));
    assert ParseBin(k, ts) == Some((CBin(op, a, b), r));
    Lift(k, loose, ts, CBin(op, a, b), r);
  }

  lemma BothBits()
    ensures BitAnd(1, 1) == 1 && BitOr(1, 1) == 1
  {
    assert BitAnd(0, 0) == 0 && BitOr(0, 0) == 0;
  }

  /** On bits, & is and ... */
  lemma OperateAnd(x: int, y: int)
    requires x in {0, 1} && y in {0, 1}
    ensures Operate(Amp, x, y) == Some(Bit(x != 0 && y != 0))
  {
    BothBits();
  }

  /** ... and | is or. */
  lemma OperateOr(x: int, y: int)
    requires x in {0, 1} && y in {0, 1}
    ensures Operate(Bar, x, y) == Some(Bit(x != 0 || y != 0))
  {
    BothBits();
  }
}
