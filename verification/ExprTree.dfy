/** Arithmetic expressions as trees over scalar integer variables: the meaning of a
    tree, and its text with as few parentheses as the precedence table allows. */
module ExprTree {
  import opened Options
  import opened Int64
  import opened ExprMachine

  datatype UnOp = LogicalNot | BitNot | Negate | Affirm

  datatype Expr =
    | Const(n: word)
    | Var(x: string)
    | PreStepped(x: string, up: bool)
    | PostStepped(x: string, up: bool)
    | Prefix(u: UnOp, e: Expr)
    | Infix(op: BinOp, l: Expr, r: Expr)
    | AndAlso(l: Expr, r: Expr)
    | OrElse(l: Expr, r: Expr)
    | Choice(c: Expr, t: Expr, f: Expr)
    | Assign(x: string, e: Expr)
    | Update(x: string, aop: BinOp, e: Expr)
    | Sequence(l: Expr, r: Expr)
    | Paren(e: Expr)

  /** The op= forms that exist; everything else about a tree is unrestricted. */
  predicate WellFormed(e: Expr) {
    match e
    case Prefix(_, e1) => WellFormed(e1)
    case Infix(_, l, r) => WellFormed(l) && WellFormed(r)
    case AndAlso(l, r) => WellFormed(l) && WellFormed(r)
    case OrElse(l, r) => WellFormed(l) && WellFormed(r)
    case Choice(c, t, f) => WellFormed(c) && WellFormed(t) && WellFormed(f)
    case Assign(_, e1) => WellFormed(e1)
    case Update(_, op, e1) => Assignable(op) && WellFormed(e1)
    case Sequence(l, r) => WellFormed(l) && WellFormed(r)
    case Paren(e1) => WellFormed(e1)
    case _ => true
  }

  // ----- text -----

  function Level(e: Expr): (k: nat)
    ensures k <= PRIMARY
  {
    match e
    case Prefix(_, _) => UNARY
    case Infix(op, _, _) => OpLevel(op)
    case AndAlso(_, _) => LAND
    case OrElse(_, _) => LOR
    case Choice(_, _, _) => COND
    case Assign(_, _) => ASSIGN
    case Update(_, _, _) => ASSIGN
    case Sequence(_, _) => COMMA
    case _ => PRIMARY
  }

  function UnToken(u: UnOp): (t: Token)
    ensures IsUnary(t)
  {
    match u
    case LogicalNot => Not
    case BitNot => Bnot
    case Negate => Bin(Minus)
    case Affirm => Bin(Plus)
  }

  /** The text of e where an expression of level k is expected. */
  function Print(e: Expr, k: nat): (ts: seq<Token>)
    ensures |ts| > 0
    decreases e, 1
  {
    if Level(e) < k then [LPar] + Body(e) + [RPar] else Body(e)
  }

  function Body(e: Expr): (ts: seq<Token>)
    ensures |ts| > 0
    decreases e, 0
  {
    match e
    case Const(n) => [Num(n)]
    case Var(x) => [Str(x)]
    case PreStepped(x, up) => [if up then PreInc else PreDec, Str(x)]
    case PostStepped(x, up) => [Str(x), if up then PostInc else PostDec]
    case Prefix(u, e1) => [UnToken(u)] + Print(e1, UNARY)
    case Infix(op, l, r) => Print(l, LeftLevel(OpLevel(op))) + [Bin(op)] + Print(r, OperandLevel(OpLevel(op)))
    case AndAlso(l, r) => Print(l, LAND) + [Land] + Print(r, BOR)
    case OrElse(l, r) => Print(l, LOR) + [Lor] + Print(r, LAND)
    case Choice(c, t, f) => Print(c, LOR) + [Ques] + Print(t, COMMA) + [Col] + Print(f, COND)
    case Assign(x, e1) => [Str(x), Eq] + Print(e1, ASSIGN)
    case Update(x, op, e1) => [Str(x), OpAssign(op)] + Print(e1, ASSIGN)
    case Sequence(l, r) => Print(l, COMMA) + [Comma] + Print(r, ASSIGN)
    case Paren(e1) => [LPar] + Print(e1, COMMA) + [RPar]
  }

  /** Left operands keep their own level and right operands go one tighter, except that
      `**` associates to the right. */
  function LeftLevel(k: nat): nat { if k == POWER then UNARY else k }

  // ----- meaning -----

  /** Variables hold integers; an unset variable counts as 0. */
  type Env = map<string, word>

  function Get(m: Env, x: string): word { if x in m then m[x] else 0 }

  datatype Meaning = Value(v: word, m: Env) | Error(error: ExprMachine.Error, m: Env)

  function ApplyPrefix(u: UnOp, v: word): word {
    match u
    case LogicalNot => FromBool(v == 0)
    case BitNot => Complement(v)
    case Negate => Wrap(0 - v)
    case Affirm => v
  }

  /** Binary operators in 64-bit wraparound; quotients truncate toward zero. */
  function ApplyInfix(op: BinOp, a: word, b: word, m: Env): Meaning {
    match op
    case Bor => Value(Bits(BitOr, a, b), m)
    case Bxor => Value(Bits(BitXor, a, b), m)
    case Band => Value(Bits(BitAnd, a, b), m)
    case EqEq => Value(FromBool(a == b), m)
    case Neq => Value(FromBool(a != b), m)
    case Leq => Value(FromBool(a <= b), m)
    case Geq => Value(FromBool(b <= a), m)
    case Lt => Value(FromBool(a < b), m)
    case Gt => Value(FromBool(b < a), m)
    case Lsh => Value(Shl(a, b), m)
    case Rsh => Value(Shr(a, b), m)
    case Plus => Value(Wrap(a + b), m)
    case Minus => Value(Wrap(a - b), m)
    case Mul => Value(Wrap(a * b), m)
    case Div => if b == 0 then Error(DivisionByZero, m) else Value(Wrap(TruncDiv(a, b)), m)
    case Mod => if b == 0 then Error(DivisionByZero, m) else Value(Wrap(TruncMod(a, b)), m)
    case Power => if b < 0 then Error(NegativeExponent, m) else Value(Wrap(Pow(a, b)), m)
  }

  /** The meaning of a tree, left to right, evaluating only the operands that
      `&&`, `||` and `?:` select. */
  function Eval(e: Expr, m: Env): Meaning {
    match e
    case Const(n) => Value(n, m)
    case Var(x) => Value(Get(m, x), m)
    case PreStepped(x, up) => var v := Stepped(Get(m, x), up); Value(v, m[x := v])
    case PostStepped(x, up) => Value(Get(m, x), m[x := Stepped(Get(m, x), up)])
    case Prefix(u, e1) =>
      (match Eval(e1, m)
       case Error(er, m1) => Error(er, m1)
       case Value(v, m1) => Value(ApplyPrefix(u, v), m1))
    case Infix(op, l, r) =>
      (match Eval(l, m)
       case Error(er, m1) => Error(er, m1)
       case Value(a, m1) =>
         match Eval(r, m1)
         case Error(er, m2) => Error(er, m2)
         case Value(b, m2) => ApplyInfix(op, a, b, m2))
    case AndAlso(l, r) =>
      (match Eval(l, m)
       case Error(er, m1) => Error(er, m1)
       case Value(a, m1) => if a == 0 then Value(0, m1) else Truth(Eval(r, m1)))
    case OrElse(l, r) =>
      (match Eval(l, m)
       case Error(er, m1) => Error(er, m1)
       case Value(a, m1) => if a != 0 then Value(1, m1) else Truth(Eval(r, m1)))
    case Choice(c, t, f) =>
      (match Eval(c, m)
       case Error(er, m1) => Error(er, m1)
       case Value(a, m1) => if a != 0 then Eval(t, m1) else Eval(f, m1))
    case Assign(x, e1) => Store(x, Eval(e1, m))
    case Update(x, op, e1) =>
      (match Eval(e1, m)
       case Error(er, m1) => Error(er, m1)
       case Value(b, m1) => Store(x, ApplyInfix(op, Get(m, x), b, m1)))
    case Sequence(l, r) =>
      (match Eval(l, m)
       case Error(er, m1) => Error(er, m1)
       case Value(_, m1) => Eval(r, m1))
    case Paren(e1) => Eval(e1, m)
  }

  function Truth(r: Meaning): Meaning {
    if r.Value? then Value(FromBool(r.v != 0), r.m) else r
  }

  function Store(x: string, r: Meaning): Meaning {
    if r.Value? then Value(r.v, r.m[x := r.v]) else r
  }

  // ----- operands that are parsed but not evaluated -----

  /** The evaluator's own meaning.  With `skip`, every variable reads as 0, a zero
      divisor counts as 1 and nothing is assigned; but a negative exponent is still
      an error.  An operand that is not selected is run in this way. */
  function Run(e: Expr, m: Env, skip: bool): Meaning
    decreases e, 2
  {
    match e
    case Const(n) => Value(n, m)
    case Var(x) => Value(Read(m, x, skip), m)
    case PreStepped(x, up) =>
      var v := Stepped(Read(m, x, skip), up); Value(v, Write(m, x, v, skip))
    case PostStepped(x, up) =>
      var v := Read(m, x, skip); Value(v, Write(m, x, Stepped(v, up), skip))
    case Prefix(u, e1) => MapPrefix(u, Run(e1, m, skip))
    case Infix(op, l, r) => RunInfix(e, m, skip)
    case AndAlso(l, r) => RunLogical(e, m, skip)
    case OrElse(l, r) => RunLogical(e, m, skip)
    case Choice(c, t, f) => RunChoice(e, m, skip)
    case Assign(x, e1) => MapAssign(Eq, x, 0, Run(e1, m, skip), skip)
    case Update(x, op, e1) => MapAssign(OpAssign(op), x, Read(m, x, skip), Run(e1, m, skip), skip)
    case Sequence(l, r) => RunSequence(e, m, skip)
    case Paren(e1) => Run(e1, m, skip)
  }

  function MapPrefix(u: UnOp, r: Meaning): Meaning {
    if r.Value? then Value(ApplyPrefix(u, r.v), r.m) else r
  }

  function RunInfix(e: Expr, m: Env, skip: bool): Meaning
    requires e.Infix?
    decreases e, 1
  {
    var x := Run(e.l, m, skip);
    if x.Error? then x else MapInfix(e.op, x, Run(e.r, x.m, skip), skip)
  }

  function MapInfix(op: BinOp, x: Meaning, y: Meaning, skip: bool): Meaning
    requires x.Value?
  {
    if y.Value? then ApplyInfix(op, x.v, if skip then Divisor(op, y.v) else y.v, y.m) else y
  }

  function RunLogical(e: Expr, m: Env, skip: bool): Meaning
    requires e.AndAlso? || e.OrElse?
    decreases e, 1
  {
    var t := if e.AndAlso? then Land else Lor;
    var x := Run(e.l, m, skip);
    if x.Error? then x else MapLogical(t, x, Run(e.r, x.m, skip || SkipsMore(TokenLevel(t), x.v)))
  }

  function MapLogical(t: Token, x: Meaning, y: Meaning): Meaning
    requires x.Value?
  {
    if y.Error? then y
    else if t == Land then Value(FromBool(x.v != 0 && y.v != 0), y.m)
    else Value(FromBool(x.v != 0 || y.v != 0), y.m)
  }

  function RunChoice(e: Expr, m: Env, skip: bool): Meaning
    requires e.Choice?
    decreases e, 1
  {
    var x := Run(e.c, m, skip);
    if x.Error? then x else Branches(e, x.v, x.m, skip)
  }

  /** The branches of `?:` once the condition is known to be a: both are run, one skipping. */
  function Branches(e: Expr, a: word, m: Env, skip: bool): Meaning
    requires e.Choice?
    decreases e, 0
  {
    var x := Run(e.t, m, skip || a == 0);
    if x.Error? then x else Pick(a, x.v, Run(e.f, x.m, skip || a != 0))
  }

  function Pick(a: word, b: word, y: Meaning): Meaning {
    if y.Error? then y else Value(if a != 0 then b else y.v, y.m)
  }

  /** x = ..., or x op= ... on the old value a, once the right side means y. */
  function MapAssign(t: Token, x: string, a: word, y: Meaning, skip: bool): Meaning {
    if y.Error? then y
    else if !t.OpAssign? then Value(y.v, Write(y.m, x, y.v, skip))
    else
      var z := ApplyInfix(t.aop, a, if skip then Divisor(t.aop, y.v) else y.v, y.m);
      if z.Error? then z else Value(z.v, Write(z.m, x, z.v, skip))
  }

  function RunSequence(e: Expr, m: Env, skip: bool): Meaning
    requires e.Sequence?
    decreases e, 1
  {
    var x := Run(e.l, m, skip);
    if x.Error? then x else Run(e.r, x.m, skip)
  }

  function Read(m: Env, x: string, skip: bool): word { if skip then 0 else Get(m, x) }

  function Write(m: Env, x: string, v: word, skip: bool): Env { if skip then m else m[x := v] }

  // ----- what a skipped operand comes to -----

  /** The value of e when every name reads as 0 and every zero divisor as 1. */
  function Zeroed(e: Expr): word {
    match e
    case Const(n) => n
    case Var(_) => 0
    case PreStepped(_, up) => Stepped(0, up)
    case PostStepped(_, _) => 0
    case Prefix(u, e1) => ApplyPrefix(u, Zeroed(e1))
    case Infix(op, l, r) => Patched(op, Zeroed(l), Zeroed(r))
    case AndAlso(l, r) => FromBool(Zeroed(l) != 0 && Zeroed(r) != 0)
    case OrElse(l, r) => FromBool(Zeroed(l) != 0 || Zeroed(r) != 0)
    case Choice(c, t, f) => if Zeroed(c) != 0 then Zeroed(t) else Zeroed(f)
    case Assign(_, e1) => Zeroed(e1)
    case Update(_, op, e1) => Patched(op, 0, Zeroed(e1))
    case Sequence(_, r) => Zeroed(r)
    case Paren(e1) => Zeroed(e1)
  }

  /** An operator where dividing by 0 is dividing by 1: the quotient is a, the remainder 0. */
  function Patched(op: BinOp, a: word, b: word): word {
    if op == Div && b == 0 then a
    else if op == Mod && b == 0 then 0
    else if op == Power && b < 0 then 0
    else ApplyInfix(op, a, b, map[]).v
  }

  /** Some `**` in e has a right operand that is negative when every name reads as 0 and
      every zero divisor as 1. */
  predicate Explosive(e: Expr) {
    match e
    case Prefix(_, e1) => Explosive(e1)
    case Infix(op, l, r) => Explosive(l) || Explosive(r) || (op == Power && Zeroed(r) < 0)
    case AndAlso(l, r) => Explosive(l) || Explosive(r)
    case OrElse(l, r) => Explosive(l) || Explosive(r)
    case Choice(c, t, f) => Explosive(c) || Explosive(t) || Explosive(f)
    case Assign(_, e1) => Explosive(e1)
    case Update(_, op, e1) => Explosive(e1) || (op == Power && Zeroed(e1) < 0)
    case Sequence(l, r) => Explosive(l) || Explosive(r)
    case Paren(e1) => Explosive(e1)
    case _ => false
  }

  /** What skipping e should come to. */
  function Skipped(e: Expr, m: Env): Meaning {
    if Explosive(e) then Error(NegativeExponent, m) else Value(Zeroed(e), m)
  }

  /** Skipping assigns nothing, divides by nothing and does not look at the variables; it
      fails exactly at a negative exponent. */
  lemma {:induction false} SkipIsInert(e: Expr, m: Env)
    ensures Run(e, m, true) == Skipped(e, m)
  {
    match e
    case Prefix(u, e1) => SkipIsInert(e1, m);
    case Infix(op, l, r) => SkipIsInert(l, m); SkipIsInert(r, m); InfixInert(e, m);
    case AndAlso(l, r) => SkipIsInert(l, m); SkipIsInert(r, m); LogicalInert(e, m);
    case OrElse(l, r) => SkipIsInert(l, m); SkipIsInert(r, m); LogicalInert(e, m);
    case Choice(c, t, f) => SkipIsInert(c, m); SkipIsInert(t, m); SkipIsInert(f, m); ChoiceInert(e, m);
    case Assign(x, e1) => SkipIsInert(e1, m);
    case Update(x, op, e1) => SkipIsInert(e1, m); PatchedIs(op, 0, Zeroed(e1), m);
    case Sequence(l, r) => SkipIsInert(l, m); SkipIsInert(r, m);
    case Paren(e1) => SkipIsInert(e1, m);
    case _ =>
  }

  lemma PatchedIs(op: BinOp, a: word, b: word, m: Env)
    ensures ApplyInfix(op, a, Divisor(op, b), m) ==
            if op == Power && b < 0 then Error(NegativeExponent, m) else Value(Patched(op, a, b), m)
  {
    assert TruncDiv(a, 1) == a && TruncMod(a, 1) == 0;
  }

  lemma InfixInert(e: Expr, m: Env)
    requires e.Infix? && Run(e.l, m, true) == Skipped(e.l, m) && Run(e.r, m, true) == Skipped(e.r, m)
    ensures Run(e, m, true) == Skipped(e, m)
  {
    assert Run(e, m, true) == RunInfix(e, m, true);
    PatchedIs(e.op, Zeroed(e.l), Zeroed(e.r), m);
  }

  lemma LogicalInert(e: Expr, m: Env)
    requires e.AndAlso? || e.OrElse?
    requires Run(e.l, m, true) == Skipped(e.l, m) && Run(e.r, m, true) == Skipped(e.r, m)
    ensures Run(e, m, true) == Skipped(e, m)
  {
    assert Run(e, m, true) == RunLogical(e, m, true);
  }

  lemma ChoiceInert(e: Expr, m: Env)
    requires e.Choice? && Run(e.c, m, true) == Skipped(e.c, m)
    requires Run(e.t, m, true) == Skipped(e.t, m) && Run(e.f, m, true) == Skipped(e.f, m)
    ensures Run(e, m, true) == Skipped(e, m)
  {
    assert Run(e, m, true) == RunChoice(e, m, true);
    BranchesInert(e, Zeroed(e.c), m);
  }

  /** Skipped branches: the condition only chooses a value that is not used. */
  lemma BranchesInert(e: Expr, a: word, m: Env)
    requires e.Choice? && Run(e.t, m, true) == Skipped(e.t, m) && Run(e.f, m, true) == Skipped(e.f, m)
    ensures Branches(e, a, m, true) ==
            if Explosive(e.t) || Explosive(e.f) then Error(NegativeExponent, m)
            else Value(if a != 0 then Zeroed(e.t) else Zeroed(e.f), m)
  {
  }

  // ----- where the evaluator and the meaning part -----

  /** The variables when an operand is to be skipped, if it is explosive. */
  function Balk(e: Expr, m: Env): Option<Env> { if Explosive(e) then Some(m) else None }

  /** The variables at the moment evaluating e in m first comes to skip an explosive operand,
      if it ever does. */
  function Stumble(e: Expr, m: Env): Option<Env>
    decreases e, 1
  {
    match e
    case Prefix(_, e1) => Stumble(e1, m)
    case Infix(_, l, r) =>
      if Stumble(l, m).Some? then Stumble(l, m)
      else if Eval(l, m).Error? then None
      else Stumble(r, Eval(l, m).m)
    case AndAlso(l, r) =>
      if Stumble(l, m).Some? then Stumble(l, m)
      else if Eval(l, m).Error? then None
      else if Eval(l, m).v == 0 then Balk(r, Eval(l, m).m)
      else Stumble(r, Eval(l, m).m)
    case OrElse(l, r) =>
      if Stumble(l, m).Some? then Stumble(l, m)
      else if Eval(l, m).Error? then None
      else if Eval(l, m).v != 0 then Balk(r, Eval(l, m).m)
      else Stumble(r, Eval(l, m).m)
    case Choice(c, t, f) =>
      if Stumble(c, m).Some? then Stumble(c, m)
      else if Eval(c, m).Error? then None
      else StumbleBranch(e, Eval(c, m).v, Eval(c, m).m)
    case Assign(_, e1) => Stumble(e1, m)
    case Update(_, _, e1) => Stumble(e1, m)
    case Sequence(l, r) =>
      if Stumble(l, m).Some? then Stumble(l, m)
      else if Eval(l, m).Error? then None
      else Stumble(r, Eval(l, m).m)
    case Paren(e1) => Stumble(e1, m)
    case _ => None
  }

  /** Of the branches of `?:`, the first is read first, whichever is skipped. */
  function StumbleBranch(e: Expr, a: word, m: Env): Option<Env>
    requires e.Choice?
    decreases e, 0
  {
    if a == 0 then (if Explosive(e.t) then Some(m) else Stumble(e.f, m))
    else if Stumble(e.t, m).Some? then Stumble(e.t, m)
    else if Eval(e.t, m).Error? then None
    else Balk(e.f, Eval(e.t, m).m)
  }

  /** No operand that evaluating e in m skips is explosive. */
  predicate SkipsSafely(e: Expr, m: Env) { Stumble(e, m).None? }

  /** The evaluator's outcome: the meaning of the tree, or the error of a skipped operand. */
  function Observed(r: Meaning, stumble: Option<Env>): Meaning {
    if stumble.Some? then Error(NegativeExponent, stumble.value) else r
  }

  ghost predicate Agrees(e: Expr, m: Env) { Run(e, m, false) == Observed(Eval(e, m), Stumble(e, m)) }

  /** The evaluator follows the tree's meaning up to the first explosive operand it skips,
      and stops there with a negative exponent and the variables as they are then. */
  lemma {:induction false} RunIsEval(e: Expr, m: Env)
    ensures Agrees(e, m)
  {
    match e
    case Prefix(u, e1) => RunIsEval(e1, m);
    case Infix(op, l, r) => RunIsEval(l, m); RunIsEval(r, Eval(l, m).m); InfixAgrees(e, m);
    case AndAlso(l, r) => RunIsEval(l, m); RunIsEval(r, Eval(l, m).m); AndAgrees(e, m);
    case OrElse(l, r) => RunIsEval(l, m); RunIsEval(r, Eval(l, m).m); OrAgrees(e, m);
    case Choice(c, t, f) =>
      RunIsEval(c, m); RunIsEval(t, Eval(c, m).m); RunIsEval(f, Eval(c, m).m); ChoiceAgrees(e, m);
    case Assign(x, e1) => RunIsEval(e1, m);
    case Update(x, op, e1) => RunIsEval(e1, m);
    case Sequence(l, r) => RunIsEval(l, m); RunIsEval(r, Eval(l, m).m); SequenceAgrees(e, m);
    case Paren(e1) => RunIsEval(e1, m);
    case _ =>
  }

  /** So the two agree if and only if no skipped operand is explosive, or the tree itself
      means that same error with those same variables. */
  lemma RunIsEvalIff(e: Expr, m: Env)
    ensures Run(e, m, false) == Eval(e, m) <==>
            SkipsSafely(e, m) || Eval(e, m) == Error(NegativeExponent, Stumble(e, m).value)
  {
    RunIsEval(e, m);
  }

  lemma InfixAgrees(e: Expr, m: Env)
    requires e.Infix? && Agrees(e.l, m) && Agrees(e.r, Eval(e.l, m).m)
    ensures Agrees(e, m)
  {
    assert Run(e, m, false) == RunInfix(e, m, false);
  }

  lemma AndAgrees(e: Expr, m: Env)
    requires e.AndAlso? && Agrees(e.l, m) && Agrees(e.r, Eval(e.l, m).m)
    ensures Agrees(e, m)
  {
    var x := Eval(e.l, m);
    assert Run(e, m, false) == RunLogical(e, m, false);
    if x.Value? && x.v == 0 {
      SkipIsInert(e.r, x.m);
    }
  }

  lemma OrAgrees(e: Expr, m: Env)
    requires e.OrElse? && Agrees(e.l, m) && Agrees(e.r, Eval(e.l, m).m)
    ensures Agrees(e, m)
  {
    var x := Eval(e.l, m);
    assert Run(e, m, false) == RunLogical(e, m, false);
    if x.Value? && x.v != 0 {
      SkipIsInert(e.r, x.m);
    }
  }

  lemma ChoiceAgrees(e: Expr, m: Env)
    requires e.Choice? && Agrees(e.c, m) && Agrees(e.t, Eval(e.c, m).m) && Agrees(e.f, Eval(e.c, m).m)
    ensures Agrees(e, m)
  {
    var x := Eval(e.c, m);
    if x.Value? {
      BranchesAgree(e, x.v, x.m);
    }
    assert Run(e, m, false) == RunChoice(e, m, false);
  }

  lemma BranchesAgree(e: Expr, a: word, m: Env)
    requires e.Choice? && Agrees(e.t, m) && Agrees(e.f, m)
    ensures Branches(e, a, m, false) ==
            Observed(if a != 0 then Eval(e.t, m) else Eval(e.f, m), StumbleBranch(e, a, m))
  {
    if a == 0 {
      SkipIsInert(e.t, m);
    } else if Eval(e.t, m).Value? {
      SkipIsInert(e.f, Eval(e.t, m).m);
    }
  }

  lemma SequenceAgrees(e: Expr, m: Env)
    requires e.Sequence? && Agrees(e.l, m) && Agrees(e.r, Eval(e.l, m).m)
    ensures Agrees(e, m)
  {
    assert Run(e, m, false) == RunSequence(e, m, false);
  }

  /** `0 && 2 ** -1` has the value 0, yet the evaluator reports a negative exponent. */
  lemma SkippedExponentStillFails(m: Env)
    ensures var e := AndAlso(Const(0), Infix(Power, Const(2), Prefix(Negate, Const(1))));
            Eval(e, m) == Value(0, m) && Run(e, m, false) == Error(NegativeExponent, m)
  {
    RunIsEval(AndAlso(Const(0), Infix(Power, Const(2), Prefix(Negate, Const(1)))), m);
    assert Zeroed(Prefix(Negate, Const(1))) == -1;
  }

  /** What the evaluator makes of the variables when Eval's environment is m: m's text. */
  function Text(m: Env): ExprMachine.Store {
    map x | x in m :: Itos(m[x])
  }
}
