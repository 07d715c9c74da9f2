/** The precedence table of the arithmetic operators, written out, and the text of a tree by
    that table: the evaluator gives the text the meaning of the tree. */
module Precedence {
  import opened Int64
  import opened Folding
  import opened Options
  import opened ExprMachine
  import opened ExprTree
  import opened ExprParse

  /** The operators between operands, loosest first.  Signs, `!` and `~` bind tighter than all
      of these, and `++` and `--` tighter still. */
  const TABLE: seq<set<Token>> := [
    {Comma},
    {Eq, OpAssign(Mul), OpAssign(Div), OpAssign(Mod), OpAssign(Plus), OpAssign(Minus), OpAssign(Lsh), OpAssign(Rsh),
     OpAssign(Band), OpAssign(Bxor), OpAssign(Bor)},
    {Ques},
    {Lor},
    {Land},
    {Bin(Bor)},
    {Bin(Bxor)},
    {Bin(Band)},
    {Bin(EqEq), Bin(Neq)},
    {Bin(Leq), Bin(Geq), Bin(Lt), Bin(Gt)},
    {Bin(Lsh), Bin(Rsh)},
    {Bin(Plus), Bin(Minus)},
    {Bin(Mul), Bin(Div), Bin(Mod)},
    {Bin(Power)}
  ]

  /** The place of an operator in the table; the length of the table if it is not there. */
  function Rank(t: Token): (i: nat)
    ensures i <= |TABLE| && (i < |TABLE| ==> t in TABLE[i])
    ensures forall j :: 0 <= j < i ==> t !in TABLE[j]
  {
    RankFrom(t, 0)
  }

  function RankFrom(t: Token, i: nat): (r: nat)
    requires i <= |TABLE|
    ensures i <= r <= |TABLE| && (r < |TABLE| ==> t in TABLE[r])
    ensures forall j :: i <= j < r ==> t !in TABLE[j]
    decreases |TABLE| - i
  {
    if i == |TABLE| || t in TABLE[i] then i else RankFrom(t, i + 1)
  }

  // ----- text by the table -----

  /** The operator of a tree that has operands to its left and right. */
  function Operator(e: Expr): Token
    requires e.Infix? || e.AndAlso? || e.OrElse? || e.Sequence?
  {
    if e.Infix? then Bin(e.op) else if e.AndAlso? then Land else if e.OrElse? then Lor else Comma
  }

  function Strength(e: Expr): nat {
    match e
    case Prefix(_, _) => |TABLE|
    case Infix(_, _, _) => Rank(Operator(e))
    case AndAlso(_, _) => Rank(Operator(e))
    case OrElse(_, _) => Rank(Operator(e))
    case Sequence(_, _) => Rank(Operator(e))
    case Choice(_, _, _) => Rank(Ques)
    case Assign(_, _) => Rank(Eq)
    case Update(_, _, _) => Rank(Eq)
    case _ => |TABLE| + 1
  }

  function Enclosed(ts: seq<Token>, needed: bool): seq<Token> { if needed then [LPar] + ts + [RPar] else ts }

  function Sign(u: UnOp): Token {
    match u
    case LogicalNot => Not
    case BitNot => Bnot
    case Negate => Bin(Minus)
    case Affirm => Bin(Plus)
  }

  /** Parentheses only where the table would group otherwise.  Operators of one line group to
      the left, but `**`, `?:` and assignments to the right. */
  function Written(e: Expr): (ts: seq<Token>)
    decreases e, 1
  {
    match e
    case Const(n) => [Num(n)]
    case Var(x) => [Str(x)]
    case PreStepped(x, up) => [if up then PreInc else PreDec, Str(x)]
    case PostStepped(x, up) => [Str(x), if up then PostInc else PostDec]
    case Prefix(u, e1) => [Sign(u)] + Enclosed(Written(e1), Strength(e1) < |TABLE|)
    case Infix(_, _, _) => WrittenBinary(e)
    case AndAlso(_, _) => WrittenBinary(e)
    case OrElse(_, _) => WrittenBinary(e)
    case Sequence(_, _) => WrittenBinary(e)
    case Choice(c, t, f) =>
      Enclosed(Written(c), Strength(c) <= Rank(Ques)) + [Ques] + Written(t) + [Col]
      + Enclosed(Written(f), Strength(f) < Rank(Ques))
    case Assign(x, e1) => [Str(x), Eq] + Enclosed(Written(e1), Strength(e1) < Rank(Eq))
    case Update(x, op, e1) => [Str(x), OpAssign(op)] + Enclosed(Written(e1), Strength(e1) < Rank(Eq))
    case Paren(e1) => [LPar] + Written(e1) + [RPar]
  }

  function WrittenBinary(e: Expr): seq<Token>
    requires e.Infix? || e.AndAlso? || e.OrElse? || e.Sequence?
    decreases e, 0
  {
    var t := Operator(e);
    var left := Strength(e.l) < Rank(t) || (Strength(e.l) == Rank(t) && t == Bin(Power));
    var right := Strength(e.r) < Rank(t) || (Strength(e.r) == Rank(t) && t != Bin(Power));
    Enclosed(Written(e.l), left) + [t] + Enclosed(Written(e.r), right)
  }

  // ----- the evaluator's levels are those of the table -----

  /** The operators of line i belong to level i of the evaluator. */
  lemma LineIsLevel(t: Token, i: nat)
    requires i < |TABLE| && t in TABLE[i]
    ensures TokenLevel(t) == i && (t.OpAssign? ==> Assignable(t.aop))
  {
    if i < 5 {
      assert t in {Comma, Eq, OpAssign(Mul), OpAssign(Div), OpAssign(Mod), OpAssign(Plus), OpAssign(Minus),
                   OpAssign(Lsh), OpAssign(Rsh), OpAssign(Band), OpAssign(Bxor), OpAssign(Bor), Ques, Lor, Land};
    } else {
      assert t.Bin?;
    }
  }

  lemma OperatorLine(op: BinOp)
    ensures Bin(op) in TABLE[OpLevel(op)]
  {
    match op
    case Bor => case Bxor => case Band => case EqEq => case Neq => case Leq => case Geq => case Lt => case Gt =>
    case Lsh => case Rsh => case Plus => case Minus => case Mul => case Div => case Mod => case Power =>
  }

  lemma RankIs(t: Token, i: nat)
    requires i < |TABLE| && t in TABLE[i]
    ensures Rank(t) == TokenLevel(t) == i
  {
    LineIsLevel(t, i);
    LineIsLevel(t, Rank(t));
  }

  lemma RanksOfOperators(op: BinOp)
    ensures Rank(Bin(op)) == OpLevel(op)
  {
    OperatorLine(op);
    RankIs(Bin(op), OpLevel(op));
  }

  /** The assignment operators are those of the table. */
  lemma AssignmentLine(op: BinOp)
    ensures Assignable(op) <==> OpAssign(op) in TABLE[1]
  {
    if OpAssign(op) in TABLE[1] {
      LineIsLevel(OpAssign(op), 1);
    }
  }

  lemma RanksOfOthers()
    ensures Rank(Comma) == COMMA && Rank(Eq) == ASSIGN && Rank(Ques) == COND && Rank(Lor) == LOR && Rank(Land) == LAND
  {
    RankIs(Comma, COMMA);
    RankIs(Eq, ASSIGN);
    RankIs(Ques, COND);
    RankIs(Lor, LOR);
    RankIs(Land, LAND);
  }

  lemma StrengthIsLevel(e: Expr)
    ensures Strength(e) == Level(e)
  {
    RanksOfOthers();
    if e.Infix? {
      RanksOfOperators(e.op);
    }
  }

  lemma {:induction false} WrittenIsPrint(e: Expr)
    ensures Written(e) == Print(e, COMMA)
    decreases e, 1
  {
    RanksOfOthers();
    match e
    case Prefix(_, e1) => OperandText(e1, POWER);
    case Infix(_, _, _) => BinaryIsBody(e);
    case AndAlso(_, _) => BinaryIsBody(e);
    case OrElse(_, _) => BinaryIsBody(e);
    case Sequence(_, _) => BinaryIsBody(e);
    case Choice(c, t, f) => OperandText(c, COND); WrittenIsPrint(t); OperandText(f, COND);
    case Assign(_, e1) => OperandText(e1, ASSIGN);
    case Update(_, _, e1) => OperandText(e1, ASSIGN);
    case Paren(e1) => WrittenIsPrint(e1);
    case _ =>
  }

  lemma {:induction false} BinaryIsBody(e: Expr)
    requires e.Infix? || e.AndAlso? || e.OrElse? || e.Sequence?
    ensures Written(e) == Print(e, COMMA)
    decreases e, 0
  {
    var k := Level(e);
    SideText(e.l, k, k == POWER);
    SideText(e.r, k, k != POWER);
    StrengthIsLevel(e);
    BodyText(e);
    WrittenText(e);
  }

  lemma BodyText(e: Expr)
    requires e.Infix? || e.AndAlso? || e.OrElse? || e.Sequence?
    ensures var k := Level(e);
            k <= POWER && (k == POWER <==> Operator(e) == Bin(Power))
            && Print(e, COMMA) == Print(e.l, if k == POWER then k + 1 else k) + [Operator(e)]
                                  + Print(e.r, if k == POWER then k else k + 1)
  {
    assert Print(e, COMMA) == Body(e);
  }

  lemma WrittenText(e: Expr)
    requires e.Infix? || e.AndAlso? || e.OrElse? || e.Sequence?
    ensures var t := Operator(e); var k := Strength(e);
            Written(e) == Enclosed(Written(e.l), Strength(e.l) < k || (Strength(e.l) == k && t == Bin(Power))) + [t]
                          + Enclosed(Written(e.r), Strength(e.r) < k || (Strength(e.r) == k && t != Bin(Power)))
  {
    assert Written(e) == WrittenBinary(e);
  }

  /** An operand of an operator of level k; tight, if it may not be of that level itself. */
  lemma {:induction false} SideText(e: Expr, k: nat, tight: bool)
    requires k <= POWER
    ensures Print(e, if tight then k + 1 else k) ==
            Enclosed(Written(e), Strength(e) < k || (Strength(e) == k && tight))
    decreases e, 3
  {
    OperandText(e, k);
  }

  /** An operand of an operator of level k, with parentheses or without. */
  lemma {:induction false} OperandText(e: Expr, k: nat)
    requires k <= POWER
    ensures Print(e, k) == Enclosed(Written(e), Strength(e) < k)
    ensures Print(e, k + 1) == Enclosed(Written(e), Strength(e) < k || Strength(e) == k)
    decreases e, 2
  {
    WrittenIsPrint(e);
    StrengthIsLevel(e);
    assert Print(e, COMMA) == Body(e);
  }

  // ----- the evaluator follows the table -----

  /** Evaluating the text, with integer variables m, comes to the meaning of the tree, or to
      the error of the first explosive operand skipped. */
  ghost predicate Means(text: seq<Token>, e: Expr, m: Env) {
    forall z: nat {:trigger Show(z)} :: Show(z) ==>
      Delivers(EvalExp(text, Text(m)), Observed(Eval(e, m), Stumble(e, m)))
  }

  /** Every tree, with any parentheses added: its text by the table has its meaning. */
  lemma WrittenMeans(e: Expr, m: Env)
    requires WellFormed(e)
    ensures Means(Written(e), e, m)
  {
    WrittenIsPrint(e);
    EvaluatorIsCorrect(e, m);
  }

  /** The same, unfolded: the outcome is the tree's value or error and its variables, if and
      only if no explosive operand is skipped or the tree means that very error. */
  lemma TableDecides(e: Expr, m: Env)
    requires WellFormed(e)
    ensures SkipsSafely(e, m) ==> Delivers(EvalExp(Written(e), Text(m)), Eval(e, m))
    ensures !SkipsSafely(e, m) ==>
              EvalExp(Written(e), Text(m)) == Fail(NegativeExponent, Text(Stumble(e, m).value))
    ensures Delivers(EvalExp(Written(e), Text(m)), Eval(e, m)) <==>
            SkipsSafely(e, m) || Eval(e, m) == Error(NegativeExponent, Stumble(e, m).value)
  {
    WrittenIsPrint(e);
    EvaluatorIsCorrect(e, m);
  }

  // ----- texts, piece by piece -----

  /** ts is the text of e; its first and last operators are of the line k or later ones. */
  ghost predicate Spells(e: Expr, ts: seq<Token>, k: nat) {
    WellFormed(e) && Strength(e) >= k && forall z: nat {:trigger Show(z)} :: Show(z) ==> ts == Written(e)
  }

  lemma SpellsMeans(e: Expr, ts: seq<Token>, m: Env)
    requires Spells(e, ts, 0)
    ensures Means(ts, e, m)
  {
    WrittenMeans(e, m);
    assert Show(0);
  }

  /** An operator between two operands. */
  predicate Binary(t: Token) { t.Bin? || t == Land || t == Lor || t == Comma }

  function Join(t: Token, a: Expr, b: Expr): (e: Expr)
    requires Binary(t)
    ensures WellFormed(a) && WellFormed(b) ==> WellFormed(e)
  {
    if t.Bin? then Infix(t.op, a, b) else if t == Land then AndAlso(a, b) else if t == Lor then OrElse(a, b)
    else Sequence(a, b)
  }

  /** The operands of an operator: the left one may be of its line, of `**` the right one. */
  lemma JoinSpells(t: Token, a: Expr, ta: seq<Token>, b: Expr, tb: seq<Token>)
    requires Binary(t)
    requires Spells(a, ta, if t == Bin(Power) then Rank(t) + 1 else Rank(t))
    requires Spells(b, tb, if t == Bin(Power) then Rank(t) else Rank(t) + 1)
    ensures Spells(Join(t, a, b), ta + [t] + tb, Rank(t))
  {
    var e := Join(t, a, b);
    assert Operator(e) == t && e.l == a && e.r == b;
    assert Written(e) == WrittenBinary(e);
    assert Show(0);
  }

  lemma SignSpells(v: UnOp, a: Expr, ta: seq<Token>)
    requires Spells(a, ta, |TABLE|)
    ensures Spells(Prefix(v, a), [Sign(v)] + ta, |TABLE|)
  {
    assert Show(0);
  }

  lemma ChoiceSpells(a: Expr, ta: seq<Token>, b: Expr, tb: seq<Token>, c: Expr, tc: seq<Token>)
    requires Spells(a, ta, Rank(Ques) + 1) && Spells(b, tb, 0) && Spells(c, tc, Rank(Ques))
    ensures Spells(Choice(a, b, c), ta + [Ques] + tb + [Col] + tc, Rank(Ques))
  {
    assert Show(0);
  }

  /** x = a, or x op= a. */
  function Store(x: string, op: Token, a: Expr): Expr
    requires op.Eq? || op.OpAssign?
  {
    if op.Eq? then Assign(x, a) else Update(x, op.aop, a)
  }

  lemma StoreSpells(x: string, op: Token, a: Expr, ta: seq<Token>)
    requires op in TABLE[1] && Spells(a, ta, Rank(Eq))
    ensures (op.Eq? || op.OpAssign?) && Spells(Store(x, op, a), [Str(x), op] + ta, Rank(Eq))
  {
    LineIsLevel(op, 1);
    assert Show(0);
  }

  // ----- which operator is applied first -----

  /** a is a number, a variable, an increment, or anything in parentheses, and ta its text. */
  ghost predicate Operand(a: Expr, ta: seq<Token>) { Spells(a, ta, |TABLE| + 1) }

  lemma Operands(n: word, x: string, up: bool, e: Expr)
    ensures Operand(Const(n), [Num(n)]) && Operand(Var(x), [Str(x)])
    ensures Operand(PreStepped(x, up), [if up then PreInc else PreDec, Str(x)])
    ensures Operand(PostStepped(x, up), [Str(x), if up then PostInc else PostDec])
    ensures WellFormed(e) ==> Operand(Paren(e), [LPar] + Written(e) + [RPar])
  {
  }

  /** t comes in an earlier line than u: it binds less tightly. */
  ghost predicate Looser(t: Token, u: Token) {
    exists i, j :: 0 <= i < j < |TABLE| && t in TABLE[i] && u in TABLE[j]
  }

  lemma LooserIs(t: Token, u: Token)
    requires Binary(t) && Binary(u)
    ensures Looser(t, u) <==> Rank(t) < Rank(u)
  {
    BinaryRank(t);
    BinaryRank(u);
    if i, j :| 0 <= i < j < |TABLE| && t in TABLE[i] && u in TABLE[j] {
      RankIs(t, i);
      RankIs(u, j);
    }
  }

  lemma BinaryRank(t: Token)
    requires Binary(t)
    ensures Rank(t) < |TABLE| && (Rank(t) == Rank(Bin(Power)) <==> t == Bin(Power))
    ensures t != Comma ==> Rank(t) > Rank(Ques) > Rank(Eq) > Rank(Comma)
  {
    RanksOfOthers();
    RanksOfOperators(Power);
    if t.Bin? {
      RanksOfOperators(t.op);
    }
  }

  /** `a t b u c`, for any two operators: the one that binds tighter is applied first; if
      neither does, the left one, but the right one of two `**`. */
  lemma TwoOperators(t: Token, u: Token, a: Expr, ta: seq<Token>, b: Expr, tb: seq<Token>, c: Expr, tc: seq<Token>,
          m: Env)
    requires Binary(t) && Binary(u) && Operand(a, ta) && Operand(b, tb) && Operand(c, tc)
    ensures Means(ta + [t] + tb + [u] + tc,
                  if Looser(t, u) || (t == Bin(Power) && u == Bin(Power)) then Join(t, a, Join(u, b, c))
                  else Join(u, Join(t, a, b), c),
                  m)
  {
    LooserIs(t, u);
    BinaryRank(t);
    BinaryRank(u);
    if Looser(t, u) || (t == Bin(Power) && u == Bin(Power)) {
      JoinSpells(u, b, tb, c, tc);
      JoinSpells(t, a, ta, Join(u, b, c), tb + [u] + tc);
      Regroup(ta + [t], tb, [u], tc);
      SpellsMeans(Join(t, a, Join(u, b, c)), ta + [t] + tb + [u] + tc, m);
    } else {
      JoinSpells(t, a, ta, b, tb);
      JoinSpells(u, Join(t, a, b), ta + [t] + tb, c, tc);
      SpellsMeans(Join(u, Join(t, a, b), c), ta + [t] + tb + [u] + tc, m);
    }
  }

  /** Signs, `!` and `~` come before every operator, on either side. */
  lemma SignsFirst(v: UnOp, t: Token, a: Expr, ta: seq<Token>, b: Expr, tb: seq<Token>, m: Env)
    requires Binary(t) && Operand(a, ta) && Operand(b, tb)
    ensures Means(([Sign(v)] + ta) + [t] + tb, Join(t, Prefix(v, a), b), m)
    ensures Means(ta + [t] + ([Sign(v)] + tb), Join(t, a, Prefix(v, b)), m)
  {
    BinaryRank(t);
    SignSpells(v, a, ta);
    SignSpells(v, b, tb);
    JoinSpells(t, Prefix(v, a), [Sign(v)] + ta, b, tb);
    JoinSpells(t, a, ta, Prefix(v, b), [Sign(v)] + tb);
    SpellsMeans(Join(t, Prefix(v, a), b), ([Sign(v)] + ta) + [t] + tb, m);
    SpellsMeans(Join(t, a, Prefix(v, b)), ta + [t] + ([Sign(v)] + tb), m);
  }

  /** `a t b ? c : d`: the condition takes in every operator but the comma. */
  lemma ConditionTakes(t: Token, a: Expr, ta: seq<Token>, b: Expr, tb: seq<Token>, c: Expr, tc: seq<Token>, d: Expr,
          td: seq<Token>, m: Env)
    requires Binary(t) && Operand(a, ta) && Operand(b, tb) && Operand(c, tc) && Operand(d, td)
    ensures Means(ta + [t] + tb + [Ques] + tc + [Col] + td,
                  if t == Comma then Sequence(a, Choice(b, c, d)) else Choice(Join(t, a, b), c, d), m)
  {
    BinaryRank(t);
    RanksOfOthers();
    if t == Comma {
      ChoiceSpells(b, tb, c, tc, d, td);
      JoinSpells(t, a, ta, Choice(b, c, d), tb + [Ques] + tc + [Col] + td);
      Regroup5(ta + [t], tb, [Ques], tc, [Col], td);
      SpellsMeans(Sequence(a, Choice(b, c, d)), ta + [t] + tb + [Ques] + tc + [Col] + td, m);
    } else {
      JoinSpells(t, a, ta, b, tb);
      ChoiceSpells(Join(t, a, b), ta + [t] + tb, c, tc, d, td);
      SpellsMeans(Choice(Join(t, a, b), c, d), ta + [t] + tb + [Ques] + tc + [Col] + td, m);
    }
  }

  /** `a ? b t c : d`: what stands between `?` and `:` takes in every operator. */
  lemma BetweenTakes(t: Token, a: Expr, ta: seq<Token>, b: Expr, tb: seq<Token>, c: Expr, tc: seq<Token>, d: Expr,
          td: seq<Token>, m: Env)
    requires Binary(t) && Operand(a, ta) && Operand(b, tb) && Operand(c, tc) && Operand(d, td)
    ensures Means(ta + [Ques] + (tb + [t] + tc) + [Col] + td, Choice(a, Join(t, b, c), d), m)
  {
    BinaryRank(t);
    RanksOfOthers();
    JoinSpells(t, b, tb, c, tc);
    ChoiceSpells(a, ta, Join(t, b, c), tb + [t] + tc, d, td);
    SpellsMeans(Choice(a, Join(t, b, c), d), ta + [Ques] + (tb + [t] + tc) + [Col] + td, m);
  }

  /** `a ? b : c t d`: so does what follows the colon, but for the comma. */
  lemma AlternativeTakes(t: Token, a: Expr, ta: seq<Token>, b: Expr, tb: seq<Token>, c: Expr, tc: seq<Token>, d: Expr,
          td: seq<Token>, m: Env)
    requires Binary(t) && Operand(a, ta) && Operand(b, tb) && Operand(c, tc) && Operand(d, td)
    ensures Means(ta + [Ques] + tb + [Col] + (tc + [t] + td),
                  if t == Comma then Sequence(Choice(a, b, c), d) else Choice(a, b, Join(t, c, d)), m)
  {
    BinaryRank(t);
    RanksOfOthers();
    if t == Comma {
      ChoiceSpells(a, ta, b, tb, c, tc);
      JoinSpells(t, Choice(a, b, c), ta + [Ques] + tb + [Col] + tc, d, td);
      Regroup(ta + [Ques] + tb + [Col], tc, [t], td);
      SpellsMeans(Sequence(Choice(a, b, c), d), ta + [Ques] + tb + [Col] + (tc + [t] + td), m);
    } else {
      JoinSpells(t, c, tc, d, td);
      ChoiceSpells(a, ta, b, tb, Join(t, c, d), tc + [t] + td);
      SpellsMeans(Choice(a, b, Join(t, c, d)), ta + [Ques] + tb + [Col] + (tc + [t] + td), m);
    }
  }

  /** `x op a t b`: an assignment takes in every operator but the comma. */
  lemma AssignmentTakes(x: string, op: Token, t: Token, a: Expr, ta: seq<Token>, b: Expr, tb: seq<Token>, m: Env)
    requires op in TABLE[1] && Binary(t) && Operand(a, ta) && Operand(b, tb)
    ensures op.Eq? || op.OpAssign?
    ensures Means([Str(x), op] + (ta + [t] + tb),
                  if t == Comma then Sequence(Store(x, op, a), b) else Store(x, op, Join(t, a, b)), m)
  {
    BinaryRank(t);
    RanksOfOthers();
    LineIsLevel(op, 1);
    if t == Comma {
      StoreSpells(x, op, a, ta);
      JoinSpells(t, Store(x, op, a), [Str(x), op] + ta, b, tb);
      Regroup([Str(x), op], ta, [t], tb);
      SpellsMeans(Sequence(Store(x, op, a), b), [Str(x), op] + (ta + [t] + tb), m);
    } else {
      JoinSpells(t, a, ta, b, tb);
      StoreSpells(x, op, Join(t, a, b), ta + [t] + tb);
      SpellsMeans(Store(x, op, Join(t, a, b)), [Str(x), op] + (ta + [t] + tb), m);
    }
  }

  /** Assignments group to the right, and take in a whole conditional. */
  lemma AssignmentsNest(x: string, y: string, op: Token, op': Token, a: Expr, ta: seq<Token>, b: Expr, tb: seq<Token>,
          c: Expr, tc: seq<Token>, m: Env)
    requires op in TABLE[1] && op' in TABLE[1] && Operand(a, ta) && Operand(b, tb) && Operand(c, tc)
    ensures (op.Eq? || op.OpAssign?) && (op'.Eq? || op'.OpAssign?)
    ensures Means([Str(x), op] + ([Str(y), op'] + ta), Store(x, op, Store(y, op', a)), m)
    ensures Means([Str(x), op] + (ta + [Ques] + tb + [Col] + tc), Store(x, op, Choice(a, b, c)), m)
  {
    RanksOfOthers();
    LineIsLevel(op, 1);
    LineIsLevel(op', 1);
    StoreSpells(y, op', a, ta);
    StoreSpells(x, op, Store(y, op', a), [Str(y), op'] + ta);
    SpellsMeans(Store(x, op, Store(y, op', a)), [Str(x), op] + ([Str(y), op'] + ta), m);
    ChoiceSpells(a, ta, b, tb, c, tc);
    StoreSpells(x, op, Choice(a, b, c), ta + [Ques] + tb + [Col] + tc);
    SpellsMeans(Store(x, op, Choice(a, b, c)), [Str(x), op] + (ta + [Ques] + tb + [Col] + tc), m);
  }

  /** Conditionals group to the right, and may hold an assignment between `?` and `:`. */
  lemma ConditionalsNest(x: string, op: Token, a: Expr, ta: seq<Token>, b: Expr, tb: seq<Token>, c: Expr,
          tc: seq<Token>, d: Expr, td: seq<Token>, e: Expr, te: seq<Token>, m: Env)
    requires op in TABLE[1] && Operand(a, ta) && Operand(b, tb) && Operand(c, tc) && Operand(d, td) && Operand(e, te)
    ensures op.Eq? || op.OpAssign?
    ensures Means(ta + [Ques] + tb + [Col] + (tc + [Ques] + td + [Col] + te), Choice(a, b, Choice(c, d, e)), m)
    ensures Means(ta + [Ques] + ([Str(x), op] + tb) + [Col] + tc, Choice(a, Store(x, op, b), c), m)
  {
    RanksOfOthers();
    LineIsLevel(op, 1);
    ChoiceSpells(c, tc, d, td, e, te);
    ChoiceSpells(a, ta, b, tb, Choice(c, d, e), tc + [Ques] + td + [Col] + te);
    SpellsMeans(Choice(a, b, Choice(c, d, e)), ta + [Ques] + tb + [Col] + (tc + [Ques] + td + [Col] + te), m);
    StoreSpells(x, op, b, tb);
    ChoiceSpells(a, ta, Store(x, op, b), [Str(x), op] + tb, c, tc);
    SpellsMeans(Choice(a, Store(x, op, b), c), ta + [Ques] + ([Str(x), op] + tb) + [Col] + tc, m);
  }

  lemma Regroup(a: seq<Token>, b: seq<Token>, c: seq<Token>, d: seq<Token>)
    ensures a + (b + c + d) == a + b + c + d
  {
  }

  lemma Regroup5(p: seq<Token>, a: seq<Token>, b: seq<Token>, c: seq<Token>, d: seq<Token>, e: seq<Token>)
    ensures p + (a + b + c + d + e) == (p + a) + b + c + d + e
  {
  }
}
