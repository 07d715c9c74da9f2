/** The arithmetic evaluator as a function on its global state: the token reader,
    the sixteen levels of the recursive descent, and the re-entrant evaluation of
    variables, whose values are themselves expression text. */
module ExprMachine {
  import opened Folding
  import opened Int64

  // ----- tokens and state -----

  datatype BinOp =
    | Bor | Bxor | Band | EqEq | Neq | Leq | Geq | Lt | Gt
    | Lsh | Rsh | Plus | Minus | Mul | Div | Mod | Power

  datatype Token =
    | End
    | Num(n: word)
    | Str(name: string)
    | Bin(op: BinOp)
    | Land | Lor
    | Eq
    | OpAssign(aop: BinOp)
    | Ques | Col | Comma
    | Not | Bnot
    | LPar | RPar
    | PreInc | PreDec | PostInc | PostDec

  datatype Error =
    | RecursionLevelExceeded
    | AssignmentToNonVariable
    | DivisionByZero
    | ExpressionExpected
    | ColonExpected
    | NegativeExponent
    | IdentifierExpected
    | MissingParen
    | OperandExpected
    | SyntaxError
    | BadAssignOperator

  /** Variables hold expression text; at this level, text is a token sequence. */
  type Store = map<string, seq<Token>>

  /** The globals of the evaluator.  `lasttok` is only ever asked what kind of
      token it is, so the assignments lasttok = NUM become Num(0). */
  datatype State = State(
    toks: seq<Token>, tp: nat,
    curtok: Token, lasttok: Token,
    tokval: word, tokstr: string,
    noeval: nat, depth: nat, store: Store)

  /** A longjmp carries the error out together with the variables as they are then. */
  datatype Outcome = Ok(val: word, s: State) | Fail(error: Error, store: Store)

  const MAX_EXPR_RECURSION_LEVEL: nat := 1024

  /** The precedence levels, one per function of the source from expcomma to exp0. */
  const COMMA: nat := 0
  const ASSIGN: nat := 1
  const COND: nat := 2
  const LOR: nat := 3
  const LAND: nat := 4
  const BOR: nat := 5
  const BXOR: nat := 6
  const BAND: nat := 7
  const EQUALITY: nat := 8
  const RELATION: nat := 9
  const SHIFT: nat := 10
  const ADDITIVE: nat := 11
  const MULTIPLICATIVE: nat := 12
  const POWER: nat := 13
  const UNARY: nat := 14
  const PRIMARY: nat := 15

  function OpLevel(op: BinOp): (k: nat)
    ensures BOR <= k <= POWER
  {
    match op
    case Bor => BOR
    case Bxor => BXOR
    case Band => BAND
    case EqEq => EQUALITY
    case Neq => EQUALITY
    case Leq => RELATION
    case Geq => RELATION
    case Lt => RELATION
    case Gt => RELATION
    case Lsh => SHIFT
    case Rsh => SHIFT
    case Plus => ADDITIVE
    case Minus => ADDITIVE
    case Mul => MULTIPLICATIVE
    case Div => MULTIPLICATIVE
    case Mod => MULTIPLICATIVE
    case Power => POWER
  }

  // ----- arithmetic as the loops of the source perform it -----

  function FromBool(b: bool): word { if b then 1 else 0 }

  /** val1 op val2, after the loops' treatment of zero divisors and of INTMAX_MIN / -1:
      a zero divisor reaching this point has already been replaced by 1. */
  function Combine(op: BinOp, a: word, b: word): word
    requires op != Power
    requires (op == Div || op == Mod) ==> b != 0
  {
    match op
    case Bor => Bits(BitOr, a, b)
    case Bxor => Bits(BitXor, a, b)
    case Band => Bits(BitAnd, a, b)
    case EqEq => FromBool(a == b)
    case Neq => FromBool(a != b)
    case Leq => FromBool(a <= b)
    case Geq => FromBool(a >= b)
    case Lt => FromBool(a < b)
    case Gt => FromBool(a > b)
    case Lsh => Shl(a, b)
    case Rsh => Shr(a, b)
    case Plus => Wrap(a + b)
    case Minus => Wrap(a - b)
    case Mul => Wrap(a * b)
    case Div =>
      if a == INTMAX_MIN && b == -1 then INTMAX_MIN
      else TruncDivInRange(a, b); TruncDiv(a, b)
    case Mod =>
      if a == INTMAX_MIN && b == -1 then 0
      else TruncDivInRange(a, b); TruncMod(a, b)
  }

  /** The divisor actually used: suppressed evaluation replaces 0 by 1. */
  function Divisor(op: BinOp, b: word): word {
    if (op == Div || op == Mod) && b == 0 then 1 else b
  }

  // ----- the text of an integer -----

  /** What itos writes and the reader reads back: an optional minus sign and a
      decimal numeral.  The numeral 9223372036854775808 wraps to INTMAX_MIN. */
  function Itos(v: word): seq<Token> {
    if v < 0 then [Bin(Minus), Num(Wrap(0 - v))] else [Num(v)]
  }

  // ----- reading tokens -----

  function TokenAt(s: State, i: nat): Token {
    if i < |s.toks| then s.toks[i] else End
  }

  /** Tokens not yet consumed, the current one included. */
  function Rem(s: State): nat {
    (if s.tp <= |s.toks| then |s.toks| - s.tp else 0) + (if s.curtok == End then 0 else 1)
  }

  /** What every function of the evaluator keeps: the text, the recursion depth, and
      the no-evaluation counter; and when that counter is raised, the variables. */
  ghost predicate Keeps(s: State, r: Outcome) {
    && (r.Ok? ==>
          && r.s.toks == s.toks && r.s.depth == s.depth && r.s.noeval == s.noeval
          && Rem(r.s) <= Rem(s)
          && (s.noeval > 0 ==> r.s.store == s.store))
    && (r.Fail? ==> s.noeval > 0 ==> r.store == s.store && r.error != DivisionByZero)
  }

  /** The state subexpr starts from, once pushexp has saved the old one. */
  function Enter(s: State, text: seq<Token>): State {
    State(text, 0, End, End, 0, "", s.noeval, s.depth + 1, s.store)
  }

  /** subexpr: evaluate text in a fresh context; popexp then restores everything but the store. */
  function SubExpr(s: State, text: seq<Token>): (r: Outcome)
    requires s.depth <= MAX_EXPR_RECURSION_LEVEL
    ensures Keeps(s, r)
    ensures r.Ok? ==> r.s == s.(store := r.s.store)
    decreases MAX_EXPR_RECURSION_LEVEL - s.depth, Rem(s), 0
  {
    if text == [] then Ok(0, s)
    else if s.depth >= MAX_EXPR_RECURSION_LEVEL then Fail(RecursionLevelExceeded, s.store)
    else
      match ReadTok(Enter(s, text))
      case Fail(e, m) => Fail(e, m)
      case Ok(_, s1) =>
        SubResult(s, Parse(COMMA, s1))
  }

  /** The end of subexpr: all of the text must have been read. */
  function SubResult(s: State, r: Outcome): Outcome {
    if r.Fail? then r
    else if r.s.curtok != End then Fail(SyntaxError, r.s.store)
    else Ok(r.val, s.(store := r.s.store))
  }

  /** expr_streval: the value of a variable; 0 without looking when evaluation is off. */
  function StrEval(s: State, name: string): (r: Outcome)
    requires s.depth <= MAX_EXPR_RECURSION_LEVEL
    ensures Keeps(s, r)
    ensures r.Ok? ==> r.s == s.(store := r.s.store)
    decreases MAX_EXPR_RECURSION_LEVEL - s.depth, Rem(s), 1
  {
    if s.noeval > 0 then Ok(0, s)
    else if name in s.store then SubExpr(s, s.store[name])
    else Ok(0, s)
  }

  /** readtok.  A name is looked up as it is read, unless an `=` follows it. */
  function ReadTok(s: State): (r: Outcome)
    requires s.depth <= MAX_EXPR_RECURSION_LEVEL
    ensures Keeps(s, r)
    ensures r.Ok? && s.curtok != End ==> Rem(r.s) < Rem(s)
    decreases MAX_EXPR_RECURSION_LEVEL - s.depth, Rem(s), 2
  {
    var t := TokenAt(s, s.tp);
    if t.Str? && LooksUp(s) then NameOutcome(s, StrEval(s.(tokstr := t.name), t.name))
    else Ok(0, PlainNext(s))
  }

  /** A name is evaluated unless an assignment follows it. */
  predicate LooksUp(s: State) {
    s.lasttok == PreInc || s.lasttok == PreDec || TokenAt(s, s.tp + 1) != Eq
  }

  /** The state after a token that is not looked up. */
  function PlainNext(s: State): State {
    var t := TokenAt(s, s.tp);
    if t == End then s.(lasttok := s.curtok, curtok := End)
    else
      var s1 := if t.Str? then s.(tokval := 0, tokstr := t.name) else if t.Num? then s.(tokval := t.n) else s;
      s1.(lasttok := s.curtok, curtok := t, tp := s.tp + 1)
  }

  /** The state after a name that has been evaluated to r. */
  function NameOutcome(s: State, r: Outcome): Outcome {
    if r.Fail? then r
    else Ok(0, r.s.(tokval := r.val, lasttok := s.curtok, curtok := TokenAt(s, s.tp), tp := s.tp + 1))
  }

  // ----- the recursive descent -----

  /** Level k: an operand of level k + 1 followed by whatever level k does with it. */
  function Parse(k: nat, s: State): (r: Outcome)
    requires k <= PRIMARY && s.depth <= MAX_EXPR_RECURSION_LEVEL
    ensures Keeps(s, r)
    decreases MAX_EXPR_RECURSION_LEVEL - s.depth, Rem(s), 8 + 2 * (PRIMARY - k)
  {
    if k == PRIMARY then Primary(s)
    else if k == UNARY then Unary(s)
    else
      match Parse(k + 1, s)
      case Fail(e, m) => Fail(e, m)
      case Ok(v, s1) => Tail(k, v, s1)
  }

  /** What level k does after its first operand v: nothing unless the current token
      belongs to the level, otherwise the body of its loop. */
  function Tail(k: nat, v: word, s: State): (r: Outcome)
    requires k <= POWER && s.depth <= MAX_EXPR_RECURSION_LEVEL
    ensures Keeps(s, r)
    decreases MAX_EXPR_RECURSION_LEVEL - s.depth, Rem(s), 7 + 2 * (PRIMARY - k)
  {
    if TokenLevel(s.curtok) != k then Ok(v, s)
    else if k == ASSIGN then TailAssign(v, s)
    else if k == COND then TailCond(v, s)
    else TailLoop(k, v, s)
  }

  /** The second operand is decided by the first, so || and && raise noeval before reading it. */
  predicate SkipsMore(k: nat, v: word) { (k == LOR && v != 0) || (k == LAND && v == 0) }

  /** One iteration of a loop, and the rest of it. */
  function TailLoop(k: nat, v: word, s: State): (r: Outcome)
    requires k <= POWER && k != ASSIGN && k != COND && s.depth <= MAX_EXPR_RECURSION_LEVEL
    requires TokenLevel(s.curtok) == k
    ensures Keeps(s, r)
    decreases MAX_EXPR_RECURSION_LEVEL - s.depth, Rem(s), 3
  {
    match ReadTok(s.(noeval := s.noeval + if SkipsMore(k, v) then 1 else 0))
    case Fail(e, m) => Fail(e, m)
    case Ok(_, s1) =>
      match Parse(OperandLevel(k), s1)
      case Fail(e, m) => Fail(e, m)
      case Ok(v2, s2) => Fold(k, v, s.curtok, v2, s2.(noeval := s.noeval))
  }

  /** The loop body of level k once both operands of token t are known, and the loop again. */
  function Fold(k: nat, v: word, t: Token, v2: word, s: State): (r: Outcome)
    requires k <= POWER && k != ASSIGN && k != COND && s.depth <= MAX_EXPR_RECURSION_LEVEL
    requires TokenLevel(t) == k
    ensures Keeps(s, r)
    decreases MAX_EXPR_RECURSION_LEVEL - s.depth, Rem(s), 40
  {
    if k == COMMA then Tail(k, v2, s)
    else if k == LOR then Tail(k, FromBool(v != 0 || v2 != 0), s.(lasttok := Lor))
    else if k == LAND then Tail(k, FromBool(v != 0 && v2 != 0), s.(lasttok := Land))
    else if k == POWER then
      var s1 := s.(lasttok := Num(0));
      if v2 == 0 then Ok(1, s1)
      else if v2 < 0 then Fail(NegativeExponent, s1.store)
      else Tail(k, WrapPower(v, v2), s1)
    else if (t.op == Div || t.op == Mod) && v2 == 0 && s.noeval == 0 then Fail(DivisionByZero, s.store)
    else if t.op == Mod && v == INTMAX_MIN && v2 == -1 then Tail(k, 0, s)
    else Tail(k, Combine(t.op, v, Divisor(t.op, v2)), s.(lasttok := Num(0)))
  }

  /** The level whose function acts on token t, or 16 when none does. */
  function TokenLevel(t: Token): nat {
    if t.Bin? then OpLevel(t.op)
    else if t == Comma then COMMA
    else if t.Eq? || t.OpAssign? then ASSIGN
    else if t == Ques then COND
    else if t == Lor then LOR
    else if t == Land then LAND
    else 16
  }

  /** Right operands sit one level tighter, except after `**`, which associates to the right. */
  function OperandLevel(k: nat): nat
    requires k <= POWER
  {
    if k == POWER then POWER else k + 1
  }

  /** expassign after its left side: the last token read must have been a name. */
  function TailAssign(v: word, s: State): (r: Outcome)
    requires s.depth <= MAX_EXPR_RECURSION_LEVEL
    requires s.curtok.Eq? || s.curtok.OpAssign?
    ensures Keeps(s, r)
    decreases MAX_EXPR_RECURSION_LEVEL - s.depth, Rem(s), 3
  {
    if !s.lasttok.Str? then Fail(AssignmentToNonVariable, s.store)
    else
      match ReadTok(s)
      case Fail(e, m) => Fail(e, m)
      case Ok(_, s1) =>
        match Parse(ASSIGN, s1)
        case Fail(e, m) => Fail(e, m)
        case Ok(v2, s2) => AssignResult(v, s, v2, s2)
  }

  /** The assignment itself, s being the state at its operator. */
  function AssignResult(v: word, s: State, v2: word, s2: State): Outcome
    requires s.curtok.Eq? || s.curtok.OpAssign?
  {
    if s.curtok.Eq? then Ok(v2, Bind(s2, s.tokstr, v2).(tokstr := ""))
    else
      var op := s.curtok.aop;
      if !Assignable(op) then Fail(BadAssignOperator, s2.store)
      else if (op == Div || op == Mod) && v2 == 0 && s2.noeval == 0 then Fail(DivisionByZero, s2.store)
      else
        var w := Combine(op, v, Divisor(op, v2));
        Ok(w, Bind(s2, s.tokstr, w).(tokstr := ""))
  }

  /** The operators that have an op= form. */
  predicate Assignable(op: BinOp) {
    op in {Mul, Div, Mod, Plus, Minus, Lsh, Rsh, Band, Bor, Bxor}
  }

  /** expr_bind_variable under the noeval guard. */
  function Bind(s: State, name: string, v: word): State {
    if s.noeval == 0 then s.(store := s.store[name := Itos(v)]) else s
  }

  /** expcond after its condition v.  The first token of each branch is read before
      noeval is raised for that branch. */
  function TailCond(v: word, s: State): (r: Outcome)
    requires s.depth <= MAX_EXPR_RECURSION_LEVEL
    requires s.curtok.Ques?
    ensures Keeps(s, r)
    decreases MAX_EXPR_RECURSION_LEVEL - s.depth, Rem(s), 3
  {
    match ReadTok(s)
    case Fail(e, m) => Fail(e, m)
    case Ok(_, s1) =>
      if s1.curtok == End || s1.curtok == Col then Fail(ExpressionExpected, s1.store)
      else
        match Parse(COMMA, s1.(noeval := s.noeval + if v == 0 then 1 else 0))
        case Fail(e, m) => Fail(e, m)
        case Ok(v1, s2) =>
          if s2.curtok != Col then Fail(ColonExpected, s2.store)
          else SecondBranch(v, v1, s2.(noeval := s.noeval))
  }

  /** expcond from the colon on, with condition v and the first branch's value v1. */
  function SecondBranch(v: word, v1: word, s: State): (r: Outcome)
    requires s.depth <= MAX_EXPR_RECURSION_LEVEL
    requires s.curtok.Col?
    ensures Keeps(s, r)
    decreases MAX_EXPR_RECURSION_LEVEL - s.depth, Rem(s), 3
  {
    match ReadTok(s)
    case Fail(e, m) => Fail(e, m)
    case Ok(_, s1) =>
      if s1.curtok == End then Fail(ExpressionExpected, s1.store)
      else SecondResult(v, v1, s, Parse(COND, s1.(noeval := s.noeval + if v != 0 then 1 else 0)))
  }

  /** The end of expcond: the branch selected, and noeval as before. */
  function SecondResult(v: word, v1: word, s: State, r: Outcome): Outcome {
    if r.Fail? then r else Ok(if v != 0 then v1 else r.val, r.s.(noeval := s.noeval, lasttok := Ques))
  }

  predicate IsUnary(t: Token) {
    t == Not || t == Bnot || t == Bin(Minus) || t == Bin(Plus)
  }

  function ApplyUnary(t: Token, v: word): word
    requires IsUnary(t)
  {
    if t == Not then FromBool(v == 0)
    else if t == Bnot then Complement(v)
    else if t == Bin(Minus) then Wrap(0 - v)
    else v
  }

  /** exp1 */
  function Unary(s: State): (r: Outcome)
    requires s.depth <= MAX_EXPR_RECURSION_LEVEL
    ensures Keeps(s, r)
    decreases MAX_EXPR_RECURSION_LEVEL - s.depth, Rem(s), 6
  {
    if IsUnary(s.curtok) then
      match ReadTok(s)
      case Fail(e, m) => Fail(e, m)
      case Ok(_, s1) =>
        match Unary(s1)
        case Fail(e, m) => Fail(e, m)
        case Ok(v, s2) => Ok(ApplyUnary(s.curtok, v), s2.(lasttok := Num(0)))
    else Primary(s)
  }

  /** exp0 */
  function Primary(s: State): (r: Outcome)
    requires s.depth <= MAX_EXPR_RECURSION_LEVEL
    ensures Keeps(s, r)
    decreases MAX_EXPR_RECURSION_LEVEL - s.depth, Rem(s), 5
  {
    if s.curtok == PreInc then PreStep(s, true)
    else if s.curtok == PreDec then PreStep(s, false)
    else if s.curtok == LPar then Parens(s)
    else if s.curtok.Str? && TokenAt(s, s.tp) == PostInc then PostStep(s, true)
    else if s.curtok.Str? && TokenAt(s, s.tp) == PostDec then PostStep(s, false)
    else if s.curtok.Num? || s.curtok.Str? then Finish(s.tokval, s)
    else Fail(OperandExpected, s.store)
  }

  function Parens(s: State): (r: Outcome)
    requires s.depth <= MAX_EXPR_RECURSION_LEVEL
    requires s.curtok == LPar
    ensures Keeps(s, r)
    decreases MAX_EXPR_RECURSION_LEVEL - s.depth, Rem(s), 4
  {
    match ReadTok(s)
    case Fail(e, m) => Fail(e, m)
    case Ok(_, s1) =>
      match Parse(COMMA, s1)
      case Fail(e, m) => Fail(e, m)
      case Ok(v, s2) =>
        if s2.curtok != RPar then Fail(MissingParen, s2.store)
        else Finish(v, s2)
  }

  /** Read past the operand just evaluated. */
  function Finish(v: word, s: State): (r: Outcome)
    requires s.depth <= MAX_EXPR_RECURSION_LEVEL
    ensures Keeps(s, r)
    decreases MAX_EXPR_RECURSION_LEVEL - s.depth, Rem(s), 3
  {
    match ReadTok(s)
    case Fail(e, m) => Fail(e, m)
    case Ok(_, s1) => Ok(v, s1)
  }

  function Stepped(v: word, up: bool): word { if up then Wrap(v + 1) else Wrap(v - 1) }

  function PreStep(s: State, up: bool): (r: Outcome)
    requires s.depth <= MAX_EXPR_RECURSION_LEVEL
    requires s.curtok == PreInc || s.curtok == PreDec
    ensures Keeps(s, r)
    decreases MAX_EXPR_RECURSION_LEVEL - s.depth, Rem(s), 4
  {
    match ReadTok(s.(lasttok := s.curtok))
    case Fail(e, m) => Fail(e, m)
    case Ok(_, s1) =>
      if !s1.curtok.Str? then Fail(IdentifierExpected, s1.store)
      else Finish(Stepped(s1.tokval, up), PreState(s1, up))
  }

  function PreState(s: State, up: bool): State {
    Bind(s, s.tokstr, Stepped(s.tokval, up)).(curtok := Num(0))
  }

  /** The name is followed by ++ or --; both tokens are consumed. */
  function PostStep(s: State, up: bool): (r: Outcome)
    requires s.depth <= MAX_EXPR_RECURSION_LEVEL
    requires s.curtok.Str?
    requires s.tp < |s.toks|
    ensures Keeps(s, r)
    decreases MAX_EXPR_RECURSION_LEVEL - s.depth, Rem(s), 4
  {
    Finish(s.tokval, PostState(s, up))
  }

  function PostState(s: State, up: bool): State {
    Bind(s, s.tokstr, Stepped(s.tokval, up)).(tp := s.tp + 1, lasttok := s.curtok, curtok := Num(0))
  }

  /** evalexp on the text of an expression, with a number of contexts already saved. */
  function EvalExpAt(text: seq<Token>, store: Store, depth: nat): Outcome
    requires depth <= MAX_EXPR_RECURSION_LEVEL
  {
    SubExpr(State([], 0, End, End, 0, "", 0, depth, store), text)
  }

  /** evalexp from the top level. */
  function EvalExp(text: seq<Token>, store: Store): Outcome { EvalExpAt(text, store, 0) }

  // ----- single steps of the functions above -----

  lemma TailStops(k: nat, v: word, s: State)
    requires k <= POWER && s.depth <= MAX_EXPR_RECURSION_LEVEL && TokenLevel(s.curtok) != k
    ensures Tail(k, v, s) == Ok(v, s)
  {
  }

  lemma TailLoops(k: nat, a: word, s: State)
    requires k <= POWER && k != ASSIGN && k != COND && s.depth <= MAX_EXPR_RECURSION_LEVEL
    requires TokenLevel(s.curtok) == k
    ensures Tail(k, a, s) == TailLoop(k, a, s)
  {
  }

  lemma LoopFolds(k: nat, a: word, s: State, s1: State, b: word, s2: State)
    requires k <= POWER && k != ASSIGN && k != COND && s.depth <= MAX_EXPR_RECURSION_LEVEL
    requires TokenLevel(s.curtok) == k && s1.depth == s.depth
    requires ReadTok(s.(noeval := s.noeval + if SkipsMore(k, a) then 1 else 0)) == Ok(0, s1)
    requires Parse(OperandLevel(k), s1) == Ok(b, s2)
    ensures TailLoop(k, a, s) == Fold(k, a, s.curtok, b, s2.(noeval := s.noeval))
  {
  }

  lemma LoopFails(k: nat, a: word, s: State, s1: State, er: Error, n: Store)
    requires k <= POWER && k != ASSIGN && k != COND && s.depth <= MAX_EXPR_RECURSION_LEVEL
    requires TokenLevel(s.curtok) == k && s1.depth == s.depth
    requires ReadTok(s.(noeval := s.noeval + if SkipsMore(k, a) then 1 else 0)) == Ok(0, s1)
    requires Parse(OperandLevel(k), s1) == Fail(er, n)
    ensures TailLoop(k, a, s) == Fail(er, n)
  {
  }

  lemma SubRuns(top: State, text: seq<Token>, s1: State)
    requires top.depth < MAX_EXPR_RECURSION_LEVEL && text != [] && s1.depth <= MAX_EXPR_RECURSION_LEVEL
    requires ReadTok(Enter(top, text)) == Ok(0, s1)
    ensures SubExpr(top, text) ==
            match Parse(COMMA, s1)
            case Fail(e, n) => Fail(e, n)
            case Ok(v, s2) => if s2.curtok != End then Fail(SyntaxError, s2.store) else Ok(v, top.(store := s2.store))
  {
  }

  lemma ParensYield(s: State, s1: State, v: word, s2: State, s': State)
    requires s.depth <= MAX_EXPR_RECURSION_LEVEL && s.curtok == LPar && ReadTok(s) == Ok(0, s1)
    requires Parse(COMMA, s1) == Ok(v, s2) && s2.curtok == RPar && ReadTok(s2) == Ok(0, s')
    ensures Parens(s) == Ok(v, s')
  {
    assert Finish(v, s2) == Ok(v, s');
  }

  lemma ParensFail(s: State, s1: State, er: Error, n: Store)
    requires s.depth <= MAX_EXPR_RECURSION_LEVEL && s.curtok == LPar && ReadTok(s) == Ok(0, s1)
    requires Parse(COMMA, s1) == Fail(er, n)
    ensures Parens(s) == Fail(er, n)
  {
  }

  lemma FinishYields(v: word, s: State, s': State)
    requires s.depth <= MAX_EXPR_RECURSION_LEVEL && ReadTok(s) == Ok(0, s')
    ensures Finish(v, s) == Ok(v, s')
  {
  }

  lemma AssignFails(a: word, s1: State, s2: State, er: Error, n: Store)
    requires s1.depth <= MAX_EXPR_RECURSION_LEVEL && (s1.curtok.Eq? || s1.curtok.OpAssign?) && s1.lasttok.Str?
    requires ReadTok(s1) == Ok(0, s2) && s2.depth == s1.depth && Parse(ASSIGN, s2) == Fail(er, n)
    ensures TailAssign(a, s1) == Fail(er, n)
  {
  }
}
