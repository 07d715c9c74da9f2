/** Running the evaluator on the text of a tree gives the tree's meaning: the
    precedence and associativity table is what the recursive descent implements.

    Lemmas about trees and lemmas about the machine are kept apart.  The equations
    that mention the machine stand under the trigger `Show`, so that proofs about
    trees carry them along without unfolding the evaluator. */
module ExprParse {
  import opened Folding
  import opened Int64
  import opened ExprMachine
  import opened ExprTree

  // ----- what a state has still to read -----

  function Stream(s: State): seq<Token>
    requires s.tp <= |s.toks|
  {
    if s.curtok == End then [] else [s.curtok] + s.toks[s.tp..]
  }

  /** Between tokens, with integer variables m and room to evaluate one of them. */
  ghost predicate Ready(s: State, m: Env) {
    && s.tp <= |s.toks| && End !in s.toks && s.store == Text(m) && s.depth < MAX_EXPR_RECURSION_LEVEL
    && (s.curtok.Str? ==> s.tokstr == s.curtok.name)
  }

  /** The operand under the cursor has been looked up. */
  ghost predicate Loaded(s: State, m: Env)
    requires s.tp <= |s.toks|
  {
    && (s.curtok.Num? ==> s.tokval == s.curtok.n)
    && (s.curtok.Str? && TokenAt(s, s.tp) != Eq ==> s.tokval == Read(m, s.curtok.name, s.noeval > 0))
  }

  /** s' differs from s only in having read on, with variables m'. */
  ghost predicate Arrived(s: State, s': State, m': Env, rest: seq<Token>) {
    && Ready(s', m') && Stream(s') == rest
    && s'.toks == s.toks && s'.depth == s.depth && s'.noeval == s.noeval
  }

  ghost predicate Moved(s: State, s': State, m: Env) {
    Ready(s', m) && s'.toks == s.toks && s'.depth == s.depth && s'.noeval == s.noeval
  }

  // ----- an integer's text reads back as the integer -----

  /** Parsing level k at s gives v and s'; the equation is in view where Show(0) is. */
  ghost predicate Gives(k: nat, s: State, v: word, s': State) {
    && k <= UNARY && s.depth <= MAX_EXPR_RECURSION_LEVEL
    && forall z: nat {:trigger Show(z)} :: Show(z) ==> Parse(k, s) == Ok(v, s')
  }

  /** A value that levels k..j do not want passes through them unchanged. */
  lemma Climb(k: nat, j: nat, v: word, s: State, s': State)
    requires k <= j <= UNARY && s.depth <= MAX_EXPR_RECURSION_LEVEL
    requires Parse(j, s) == Ok(v, s')
    requires TokenLevel(s'.curtok) < k || TokenLevel(s'.curtok) >= j
    ensures Parse(k, s) == Ok(v, s')
  {
    ClimbUp(k, j, v, s, s');
    assert Show(0);
  }

  lemma {:induction false} ClimbUp(k: nat, j: nat, v: word, s: State, s': State)
    requires k <= j && Gives(j, s, v, s')
    requires TokenLevel(s'.curtok) < k || TokenLevel(s'.curtok) >= j
    ensures Gives(k, s, v, s')
    decreases j - k
  {
    if k < j {
      ClimbUp(k + 1, j, v, s, s');
      ClimbOne(k, v, s, s');
    }
  }

  lemma ClimbOne(k: nat, v: word, s: State, s': State)
    requires k < UNARY && Gives(k + 1, s, v, s') && TokenLevel(s'.curtok) != k
    ensures Gives(k, s, v, s')
  {
    assert Show(0);
  }

  lemma NumberOperand(s: State)
    requires s.depth <= MAX_EXPR_RECURSION_LEVEL && s.curtok.Num? && TokenAt(s, s.tp) == End
    ensures Unary(s) == Ok(s.tokval, s.(lasttok := s.curtok, curtok := End))
  {
    EndOfText(s);
    assert Unary(s) == Primary(s) == Finish(s.tokval, s);
  }

  lemma EndOfText(s: State)
    requires s.depth <= MAX_EXPR_RECURSION_LEVEL && TokenAt(s, s.tp) == End
    ensures ReadTok(s) == Ok(0, s.(lasttok := s.curtok, curtok := End))
    ensures Finish(s.tokval, s) == Ok(s.tokval, s.(lasttok := s.curtok, curtok := End))
  {
    assert PlainNext(s) == s.(lasttok := s.curtok, curtok := End);
  }

  /** Every word, INTMAX_MIN included, stored as text evaluates to itself. */
  lemma ReadsBack(s: State, v: word)
    requires s.depth < MAX_EXPR_RECURSION_LEVEL
    ensures SubExpr(s, Itos(v)) == Ok(v, s)
  {
    var s1 := FirstOf(s, v);
    var s2 := NumberText(s1, v);
    SubRuns(s, Itos(v), s1);
  }

  lemma NumberText(s1: State, v: word) returns (s2: State)
    requires s1.depth <= MAX_EXPR_RECURSION_LEVEL && s1.toks == Itos(v) && s1.tp == 1 && s1.curtok == Itos(v)[0]
    requires v >= 0 ==> s1.tokval == v
    ensures Parse(COMMA, s1) == Ok(v, s2) && s2.curtok == End && s2.store == s1.store
  {
    s2 := OperandOf(s1, v);
    Climb(COMMA, UNARY, v, s1, s2);
  }

  lemma OperandOf(s1: State, v: word) returns (s2: State)
    requires s1.depth <= MAX_EXPR_RECURSION_LEVEL && s1.toks == Itos(v) && s1.tp == 1 && s1.curtok == Itos(v)[0]
    requires v >= 0 ==> s1.tokval == v
    ensures Parse(UNARY, s1) == Ok(v, s2) && s2.curtok == End && s2.store == s1.store
  {
    if v < 0 {
      NegatedOperand(s1, v);
    } else {
      NumberOperand(s1);
    }
    s2 := Unary(s1).s;
  }

  lemma FirstOf(s: State, v: word) returns (s1: State)
    requires s.depth < MAX_EXPR_RECURSION_LEVEL
    ensures s1 == Enter(s, Itos(v)).(tp := 1, curtok := Itos(v)[0], tokval := if v < 0 then 0 else v)
    ensures ReadTok(Enter(s, Itos(v))) == Ok(0, s1)
  {
    s1 := ReadTok(Enter(s, Itos(v))).s;
  }

  lemma NegatedOperand(s1: State, v: word)
    requires s1.depth <= MAX_EXPR_RECURSION_LEVEL && v < 0
    requires s1.toks == Itos(v) && s1.tp == 1 && s1.curtok == Bin(Minus)
    ensures Unary(s1).Ok? && Unary(s1).val == v && Unary(s1).s.curtok == End
    ensures Unary(s1).s == s1.(tp := 2, curtok := End, lasttok := Num(0), tokval := Wrap(0 - v))
  {
    var s2 := s1.(tp := 2, lasttok := s1.curtok, curtok := Num(Wrap(0 - v)), tokval := Wrap(0 - v));
    assert ReadTok(s1) == Ok(0, s2);
    NumberOperand(s2);
    assert Wrap(0 - Wrap(0 - v)) == v;
  }

  /** A looked-up name takes its integer value and leaves the variables alone. */
  lemma LookUp(s: State, m: Env, x: string)
    requires s.store == Text(m) && s.depth < MAX_EXPR_RECURSION_LEVEL
    ensures StrEval(s, x) == Ok(Read(m, x, s.noeval > 0), s)
  {
    if s.noeval == 0 && x in m {
      ReadsBack(s, m[x]);
    }
  }

  // ----- reading one token -----

  ghost predicate Reads(s: State, s': State)
    requires s.depth <= MAX_EXPR_RECURSION_LEVEL
  {
    forall z: nat {:trigger Show(z)} :: Show(z) ==> ReadTok(s) == Ok(0, s')
  }

  lemma ReadNext(s: State, m: Env) returns (s': State)
    requires Ready(s, m)
    ensures Reads(s, s') && Arrived(s, s', m, s.toks[s.tp..]) && Loaded(s', m)
    ensures s'.lasttok == s.curtok && (!s'.curtok.Str? ==> s'.tokstr == s.tokstr)
  {
    if s.tp < |s.toks| {
      assert s.toks[s.tp..] == [s.toks[s.tp]] + s.toks[s.tp + 1..];
      if s.toks[s.tp].Str? {
        LookUp(s.(tokstr := s.toks[s.tp].name), m, s.toks[s.tp].name);
      }
    }
    s' := ReadTok(s).s;
  }

  lemma Peek(s: State, t: Token, rest: seq<Token>)
    requires s.tp <= |s.toks| && Stream(s) == [t] + rest
    ensures s.curtok == t && s.toks[s.tp..] == rest
    ensures TokenAt(s, s.tp) == if rest == [] then End else rest[0]
    ensures rest != [] ==> s.toks[s.tp + 1..] == rest[1..]
  {
    assert s.curtok == Stream(s)[0];
    assert s.toks[s.tp..] == Stream(s)[1..];
  }

  /** Reading past the first token t of the remaining text. */
  lemma Advance(s: State, m: Env, t: Token, rest: seq<Token>) returns (s': State)
    requires Ready(s, m) && Stream(s) == [t] + rest
    ensures s.curtok == t && Reads(s, s') && Arrived(s, s', m, rest) && Loaded(s', m)
    ensures s'.lasttok == t && (!s'.curtok.Str? ==> s'.tokstr == s.tokstr)
    ensures TokenAt(s, s.tp) == if rest == [] then End else rest[0]
  {
    Peek(s, t, rest);
    s' := ReadNext(s, m);
  }

  // ----- text of a tree, in front of any text that does not continue it -----

  /** The text after an expression of level k must not belong to it: no operator that
      binds tighter, and none that groups to the right at the same level. */
  ghost predicate Follows(k: nat, rest: seq<Token>) {
    rest != [] ==>
      || rest[0] == Col || rest[0] == RPar
      || (&& TokenLevel(rest[0]) <= k && TokenLevel(rest[0]) != ASSIGN
          && (rest[0] == Ques ==> k >= LOR)
          && (rest[0] == Bin(Power) ==> k >= UNARY))
  }

  /** Level k having v in hand. */
  function Rest(k: nat, v: word, s: State): Outcome
    requires s.depth <= MAX_EXPR_RECURSION_LEVEL
  {
    if k <= POWER then Tail(k, v, s) else Ok(v, s)
  }

  /** Level k, started in s, comes to have a value in hand as the meaning r says: it
      fails as r does, or reaches rest in state s' holding v.  An operand whose first
      token was looked up before evaluation was switched off has an unknown value,
      which is never used. */
  ghost predicate Parsed(r: Meaning, k: nat, s: State, m: Env, rest: seq<Token>, v: word, s': State)
    requires k <= PRIMARY && Ready(s, m)
  {
    && (r.Value? ==> Arrived(s, s', r.m, rest) && (Loaded(s, m) ==> v == r.v))
    && forall z: nat {:trigger Show(z)} :: Show(z) ==>
         Parse(k, s) == if r.Error? then Fail(r.error, Text(r.m)) else Rest(k, v, s')
  }

  ghost predicate Before(e: Expr, k: nat, s: State, m: Env, rest: seq<Token>)
    requires k <= PRIMARY
  {
    && WellFormed(e) && Ready(s, m) && Stream(s) == Print(e, k) + rest && Follows(k, rest)
    && (s.noeval == 0 ==> Loaded(s, m))
  }

  lemma {:induction false} ParsePrint(e: Expr, k: nat, s: State, m: Env, rest: seq<Token>) returns (v: word, s': State)
    requires k <= PRIMARY && Before(e, k, s, m, rest)
    ensures Parsed(Run(e, m, s.noeval > 0), k, s, m, rest, v, s')
    decreases e, if Level(e) < k then 1 else 0, PRIMARY - k, 2
  {
    if Level(e) == k {
      v, s' := ParseBody(e, s, m, rest);
    } else if k == PRIMARY {
      v, s' := ParseParens(e, s, m, rest);
    } else {
      BeforeNext(e, k, s, m, rest);
      v, s' := ParsePrint(e, k + 1, s, m, rest);
      if k == UNARY {
        NotUnary(e, s, m, rest);
        StepUpUnary(Run(e, m, s.noeval > 0), s, m, rest, v, s');
      } else {
        StepUp(Run(e, m, s.noeval > 0), k, s, m, rest, v, s');
      }
    }
  }

  /** Both levels want the same text: both with parentheses or both without. */
  lemma BeforeNext(e: Expr, k: nat, s: State, m: Env, rest: seq<Token>)
    requires k < PRIMARY && Level(e) != k && Before(e, k, s, m, rest)
    ensures Before(e, k + 1, s, m, rest)
  {
  }

  /** The expression is not of level k, so level k only hands its operand on. */
  lemma StepUp(r: Meaning, k: nat, s: State, m: Env, rest: seq<Token>, v: word, s': State)
    requires k < UNARY && Ready(s, m) && Follows(k, rest)
    requires Parsed(r, k + 1, s, m, rest, v, s')
    ensures Parsed(r, k, s, m, rest, v, s')
  {
    assert Show(0);
    if r.Value? && k < POWER {
      TailStops(k + 1, v, s');
    }
  }

  lemma StepUpUnary(r: Meaning, s: State, m: Env, rest: seq<Token>, v: word, s': State)
    requires Ready(s, m) && !IsUnary(s.curtok)
    requires Parsed(r, PRIMARY, s, m, rest, v, s')
    ensures Parsed(r, UNARY, s, m, rest, v, s')
  {
    assert Show(0);
  }

  lemma NotUnary(e: Expr, s: State, m: Env, rest: seq<Token>)
    requires Level(e) != UNARY && Before(e, UNARY, s, m, rest)
    ensures !IsUnary(s.curtok)
  {
    assert s.curtok == Stream(s)[0] == Print(e, UNARY)[0];
    if Level(e) > UNARY {
      assert e.Const? || e.Var? || e.PreStepped? || e.PostStepped? || e.Paren?;
      assert Print(e, UNARY) == Body(e);
    }
  }

  lemma ParseParens(e: Expr, s: State, m: Env, rest: seq<Token>) returns (v: word, s': State)
    requires Level(e) < PRIMARY && Before(e, PRIMARY, s, m, rest)
    ensures Parsed(Run(e, m, s.noeval > 0), PRIMARY, s, m, rest, v, s')
    decreases e, 1, 0, 0
  {
    assert Print(e, PRIMARY) == [LPar] + Print(e, COMMA) + [RPar];
    assert Stream(s) == [LPar] + (Print(e, COMMA) + ([RPar] + rest));
    var s1 := Advance(s, m, LPar, Print(e, COMMA) + ([RPar] + rest));
    v, s' := ParsePrint(e, COMMA, s1, m, [RPar] + rest);
    s' := CloseParens(Run(e, m, s.noeval > 0), s, m, rest, s1, v, s');
  }

  lemma CloseParens(r: Meaning, s: State, m: Env, rest: seq<Token>, s1: State, v: word, s2: State)
      returns (s': State)
    requires Ready(s, m) && s.curtok == LPar && Reads(s, s1)
    requires Moved(s, s1, m) && Loaded(s1, m)
    requires Parsed(r, COMMA, s1, m, [RPar] + rest, v, s2)
    ensures Parsed(r, PRIMARY, s, m, rest, v, s')
  {
    s' := s;
    if r.Value? {
      s' := Advance(s2, r.m, RPar, rest);
      ParensClosed(r, s, m, rest, s1, v, s2, s');
    } else {
      assert Show(0);
      PrimaryParens(s);
      ParensFail(s, s1, r.error, Text(r.m));
    }
  }

  lemma ParensClosed(r: Meaning, s: State, m: Env, rest: seq<Token>, s1: State, v: word, s2: State, s': State)
    requires r.Value? && Ready(s, m) && s.curtok == LPar && Reads(s, s1) && Moved(s, s1, m) && Loaded(s1, m)
    requires Parsed(r, COMMA, s1, m, [RPar] + rest, v, s2) && s2.curtok == RPar
    requires Reads(s2, s') && Arrived(s2, s', r.m, rest)
    ensures Parsed(r, PRIMARY, s, m, rest, v, s')
  {
    assert Show(0);
    PrimaryParens(s);
    TailStops(COMMA, v, s2);
    ParensYield(s, s1, v, s2, s');
  }

  lemma PrimaryParens(s: State)
    requires s.depth <= MAX_EXPR_RECURSION_LEVEL && s.curtok == LPar
    ensures Parse(PRIMARY, s) == Parens(s)
  {
    assert Primary(s) == Parens(s);
  }

  lemma ParseBody(e: Expr, s: State, m: Env, rest: seq<Token>) returns (v: word, s': State)
    requires Before(e, Level(e), s, m, rest)
    ensures Parsed(Run(e, m, s.noeval > 0), Level(e), s, m, rest, v, s')
    decreases e, 0, PRIMARY - Level(e), 1
  {
    match e
    case Const(n) => v, s' := ParseOperand(e, s, m, rest);
    case Var(x) => v, s' := ParseOperand(e, s, m, rest);
    case PreStepped(x, up) => v, s' := ParsePreStepped(e, s, m, rest);
    case PostStepped(x, up) => v, s' := ParsePostStepped(e, s, m, rest);
    case Prefix(u, e1) => v, s' := ParsePrefix(e, s, m, rest);
    case Infix(op, l, r) => v, s' := ParseInfix(e, s, m, rest);
    case AndAlso(l, r) => v, s' := ParseLogical(e, s, m, rest);
    case OrElse(l, r) => v, s' := ParseLogical(e, s, m, rest);
    case Choice(c, t, f) => v, s' := ParseChoice(e, s, m, rest);
    case Assign(x, e1) => v, s' := ParseAssign(e, s, m, rest);
    case Update(x, op, e1) => v, s' := ParseAssign(e, s, m, rest);
    case Sequence(l, r) => v, s' := ParseSequence(e, s, m, rest);
    case Paren(e1) => v, s' := ParseGroup(e, s, m, rest);
  }

  /** Parentheses that are part of the tree. */
  lemma ParseGroup(e: Expr, s: State, m: Env, rest: seq<Token>) returns (v: word, s': State)
    requires e.Paren? && Before(e, PRIMARY, s, m, rest)
    ensures Parsed(Run(e, m, s.noeval > 0), PRIMARY, s, m, rest, v, s')
    decreases e, 0, 0, 0
  {
    TextOf(e, rest);
    var s1 := Advance(s, m, LPar, Print(e.e, COMMA) + ([RPar] + rest));
    v, s' := ParsePrint(e.e, COMMA, s1, m, [RPar] + rest);
    s' := CloseParens(Run(e.e, m, s.noeval > 0), s, m, rest, s1, v, s');
  }

  // ----- unfolding one layer of a tree -----

  /** The text of a tree, bracketed the way it is read. */
  function Unfolded(e: Expr, rest: seq<Token>): seq<Token> {
    match e
    case Const(n) => [Num(n)] + rest
    case Var(x) => [Str(x)] + rest
    case PreStepped(x, up) => [if up then PreInc else PreDec] + ([Str(x)] + rest)
    case PostStepped(x, up) => [Str(x)] + ([if up then PostInc else PostDec] + rest)
    case Prefix(u, e1) => [UnToken(u)] + (Print(e1, UNARY) + rest)
    case Infix(op, l, r) => Joined(l, LeftLevel(OpLevel(op)), Bin(op), r, OperandLevel(OpLevel(op)), rest)
    case AndAlso(l, r) => Joined(l, LAND, Land, r, BOR, rest)
    case OrElse(l, r) => Joined(l, LOR, Lor, r, LAND, rest)
    case Choice(c, t, f) => Print(c, LOR) + ([Ques] + (Print(t, COMMA) + ([Col] + (Print(f, COND) + rest))))
    case Assign(x, e1) => [Str(x)] + ([Eq] + (Print(e1, ASSIGN) + rest))
    case Update(x, op, e1) => [Str(x)] + ([OpAssign(op)] + (Print(e1, ASSIGN) + rest))
    case Sequence(l, r) => Joined(l, COMMA, Comma, r, ASSIGN, rest)
    case Paren(e1) => [LPar] + (Print(e1, COMMA) + ([RPar] + rest))
  }

  function Joined(l: Expr, j: nat, t: Token, r: Expr, i: nat, rest: seq<Token>): seq<Token> {
    Print(l, j) + ([t] + (Print(r, i) + rest))
  }

  lemma TextOf(e: Expr, rest: seq<Token>)
    ensures Print(e, Level(e)) + rest == Unfolded(e, rest)
  {
    if e.Infix? || e.AndAlso? || e.OrElse? || e.Sequence? {
      JoinedText(e, rest);
    } else if e.Choice? {
      ChoiceText(e, rest);
    } else {
      LeadingText(e, rest);
    }
  }

  lemma JoinedText(e: Expr, rest: seq<Token>)
    requires e.Infix? || e.AndAlso? || e.OrElse? || e.Sequence?
    ensures Body(e) + rest == Unfolded(e, rest)
  {
    var k := Level(e);
    var t := if e.Infix? then Bin(e.op) else if e.AndAlso? then Land else if e.OrElse? then Lor else Comma;
    Rejoin(Print(e.l, LeftLevel(k)), t, Print(e.r, OperandLevel(k)), rest);
  }

  lemma ChoiceText(e: Expr, rest: seq<Token>)
    requires e.Choice?
    ensures Body(e) + rest == Unfolded(e, rest)
  {
    Rejoin(Print(e.c, LOR) + [Ques] + Print(e.t, COMMA), Col, Print(e.f, COND), rest);
    Rejoin(Print(e.c, LOR), Ques, Print(e.t, COMMA), [Col] + (Print(e.f, COND) + rest));
  }

  lemma LeadingText(e: Expr, rest: seq<Token>)
    requires !e.Infix? && !e.AndAlso? && !e.OrElse? && !e.Sequence? && !e.Choice?
    ensures Body(e) + rest == Unfolded(e, rest)
  {
    match e
    case Prefix(u, e1) => Rejoin([], UnToken(u), Print(e1, UNARY), rest);
    case Paren(e1) => Rejoined(Print(e1, COMMA), rest);
    case Assign(x, e1) => Rejoin2(Str(x), Eq, Print(e1, ASSIGN), rest);
    case Update(x, op, e1) => Rejoin2(Str(x), OpAssign(op), Print(e1, ASSIGN), rest);
    case PreStepped(x, up) => Rejoin2(if up then PreInc else PreDec, Str(x), [], rest);
    case PostStepped(x, up) => Rejoin2(Str(x), if up then PostInc else PostDec, [], rest);
    case _ =>
  }

  lemma Rejoined(b: seq<Token>, rest: seq<Token>)
    ensures ([LPar] + b + [RPar]) + rest == [LPar] + (b + ([RPar] + rest))
  {
  }

  lemma Rejoin2(t: Token, u: Token, b: seq<Token>, rest: seq<Token>)
    ensures ([t, u] + b) + rest == [t] + ([u] + (b + rest))
    ensures [t, u] + rest == [t] + ([u] + rest)
  {
  }

  lemma Rejoin(a: seq<Token>, t: Token, b: seq<Token>, rest: seq<Token>)
    ensures (a + [t] + b) + rest == a + ([t] + (b + rest))
  {
  }

  lemma RunOf(e: Expr, m: Env, q: bool)
    ensures e.Infix? ==> Run(e, m, q) == RunInfix(e, m, q)
    ensures e.AndAlso? || e.OrElse? ==> Run(e, m, q) == RunLogical(e, m, q)
    ensures e.Choice? ==> Run(e, m, q) == RunChoice(e, m, q)
    ensures e.Sequence? ==> Run(e, m, q) == RunSequence(e, m, q)
  {
  }

  // ----- operands -----

  lemma ParseOperand(e: Expr, s: State, m: Env, rest: seq<Token>) returns (v: word, s': State)
    requires (e.Const? || e.Var?) && Before(e, PRIMARY, s, m, rest)
    ensures Parsed(Run(e, m, s.noeval > 0), PRIMARY, s, m, rest, v, s')
  {
    var t := if e.Const? then Num(e.n) else Str(e.x);
    TextOf(e, rest);
    s' := Advance(s, m, t, rest);
    v := s.tokval;
    OperandUp(s, s');
  }

  lemma OperandUp(s: State, s': State)
    requires s.depth <= MAX_EXPR_RECURSION_LEVEL && (s.curtok.Num? || s.curtok.Str?) && Reads(s, s')
    requires TokenAt(s, s.tp) != PostInc && TokenAt(s, s.tp) != PostDec
    ensures forall z: nat {:trigger Show(z)} :: Show(z) ==> Parse(PRIMARY, s) == Ok(s.tokval, s')
  {
    assert Show(0);
    PrimaryFinish(s);
    FinishYields(s.tokval, s, s');
  }

  lemma PrimaryFinish(s: State)
    requires s.depth <= MAX_EXPR_RECURSION_LEVEL && (s.curtok.Num? || s.curtok.Str?)
    requires TokenAt(s, s.tp) != PostInc && TokenAt(s, s.tp) != PostDec
    ensures Parse(PRIMARY, s) == Finish(s.tokval, s)
  {
    assert Primary(s) == Finish(s.tokval, s);
  }

  lemma TextUpdate(m: Env, x: string, v: word)
    ensures Text(m[x := v]) == Text(m)[x := Itos(v)]
  {
  }

  /** The store after a guarded assignment. */
  lemma BindText(s: State, m: Env, x: string, v: word)
    requires s.store == Text(m)
    ensures Bind(s, x, v) == s.(store := Text(Write(m, x, v, s.noeval > 0)))
  {
    TextUpdate(m, x, v);
  }

  lemma ParsePreStepped(e: Expr, s: State, m: Env, rest: seq<Token>) returns (v: word, s': State)
    requires e.PreStepped? && Before(e, PRIMARY, s, m, rest)
    ensures Parsed(Run(e, m, s.noeval > 0), PRIMARY, s, m, rest, v, s')
  {
    var t := if e.up then PreInc else PreDec;
    TextOf(e, rest);
    Peek(s, t, [Str(e.x)] + rest);
    var s1 := Advance(s.(lasttok := t), m, t, [Str(e.x)] + rest);
    v, s' := StepName(e.x, e.up, s, s1, m, rest);
  }

  lemma StepName(x: string, up: bool, s: State, s1: State, m: Env, rest: seq<Token>) returns (v: word, s': State)
    requires Ready(s, m) && s.curtok == (if up then PreInc else PreDec) && Follows(PRIMARY, rest)
    requires Reads(s.(lasttok := s.curtok), s1) && Moved(s, s1, m) && Loaded(s1, m) && Stream(s1) == [Str(x)] + rest
    ensures var w := Stepped(Read(m, x, s.noeval > 0), up);
            Parsed(Value(w, Write(m, x, w, s.noeval > 0)), PRIMARY, s, m, rest, v, s')
  {
    Peek(s1, Str(x), rest);
    v := Stepped(s1.tokval, up);
    BindText(s1, m, x, v);
    var s2 := Bind(s1, x, v).(curtok := Num(0));
    s' := Advance(s2, Write(m, x, v, s.noeval > 0), Num(0), rest);
    PreUp(x, up, s, s1, s2, s');
  }

  lemma PreUp(x: string, up: bool, s: State, s1: State, s2: State, s': State)
    requires s.depth < MAX_EXPR_RECURSION_LEVEL && s.curtok == (if up then PreInc else PreDec)
    requires Reads(s.(lasttok := s.curtok), s1) && s1.depth == s.depth
    requires s1.curtok == Str(x) && s1.tokstr == x
    requires s2 == Bind(s1, x, Stepped(s1.tokval, up)).(curtok := Num(0)) && Reads(s2, s')
    ensures forall z: nat {:trigger Show(z)} :: Show(z) ==> Parse(PRIMARY, s) == Ok(Stepped(s1.tokval, up), s')
  {
    assert Show(0);
    PrimaryPre(s, up);
    PreYields(x, up, s, s1, s2, s');
  }

  lemma PrimaryPre(s: State, up: bool)
    requires s.depth <= MAX_EXPR_RECURSION_LEVEL && s.curtok == (if up then PreInc else PreDec)
    ensures Parse(PRIMARY, s) == PreStep(s, up)
  {
    assert Primary(s) == PreStep(s, up);
  }

  lemma PreYields(x: string, up: bool, s: State, s1: State, s2: State, s': State)
    requires s.depth < MAX_EXPR_RECURSION_LEVEL && s.curtok == (if up then PreInc else PreDec)
    requires ReadTok(s.(lasttok := s.curtok)) == Ok(0, s1) && s1.depth == s.depth
    requires s1.curtok == Str(x) && s1.tokstr == x
    requires s2 == Bind(s1, x, Stepped(s1.tokval, up)).(curtok := Num(0)) && ReadTok(s2) == Ok(0, s')
    ensures PreStep(s, up) == Ok(Stepped(s1.tokval, up), s')
  {
    FinishYields(Stepped(s1.tokval, up), s2, s');
  }

  lemma ParsePostStepped(e: Expr, s: State, m: Env, rest: seq<Token>) returns (v: word, s': State)
    requires e.PostStepped? && Before(e, PRIMARY, s, m, rest)
    ensures Parsed(Run(e, m, s.noeval > 0), PRIMARY, s, m, rest, v, s')
  {
    var t := if e.up then PostInc else PostDec;
    TextOf(e, rest);
    v, s' := NameStep(e.x, e.up, s, m, rest);
  }

  lemma NameStep(x: string, up: bool, s: State, m: Env, rest: seq<Token>) returns (v: word, s': State)
    requires Ready(s, m) && (s.noeval == 0 ==> Loaded(s, m))
    requires Stream(s) == [Str(x)] + ([if up then PostInc else PostDec] + rest)
    ensures var w := Read(m, x, s.noeval > 0);
            Parsed(Value(w, Write(m, x, Stepped(w, up), s.noeval > 0)), PRIMARY, s, m, rest, v, s')
  {
    Peek(s, Str(x), [if up then PostInc else PostDec] + rest);
    v := s.tokval;
    var w := Stepped(v, up);
    BindText(s, m, x, w);
    var s2 := Bind(s, x, w).(tp := s.tp + 1, lasttok := s.curtok, curtok := Num(0));
    s' := Advance(s2, Write(m, x, w, s.noeval > 0), Num(0), rest);
    PostUp(x, up, s, s2, s');
  }

  lemma PostUp(x: string, up: bool, s: State, s2: State, s': State)
    requires s.depth < MAX_EXPR_RECURSION_LEVEL && s.curtok == Str(x) && s.tokstr == x
    requires TokenAt(s, s.tp) == (if up then PostInc else PostDec)
    requires s2 == Bind(s, x, Stepped(s.tokval, up)).(tp := s.tp + 1, lasttok := s.curtok, curtok := Num(0))
    requires Reads(s2, s')
    ensures forall z: nat {:trigger Show(z)} :: Show(z) ==> Parse(PRIMARY, s) == Ok(s.tokval, s')
  {
    assert Show(0);
    PrimaryPost(s, up);
    PostYields(up, s, s2, s');
  }

  lemma PrimaryPost(s: State, up: bool)
    requires s.depth < MAX_EXPR_RECURSION_LEVEL && s.curtok.Str?
    requires TokenAt(s, s.tp) == if up then PostInc else PostDec
    ensures Parse(PRIMARY, s) == PostStep(s, up)
  {
    assert Primary(s) == PostStep(s, up);
  }

  lemma PostYields(up: bool, s: State, s2: State, s': State)
    requires s.depth < MAX_EXPR_RECURSION_LEVEL && s.curtok.Str? && s.tp < |s.toks|
    requires s2 == Bind(s, s.tokstr, Stepped(s.tokval, up)).(tp := s.tp + 1, lasttok := s.curtok, curtok := Num(0))
    requires ReadTok(s2) == Ok(0, s')
    ensures PostStep(s, up) == Ok(s.tokval, s')
  {
    FinishYields(s.tokval, s2, s');
  }

  lemma ParsePrefix(e: Expr, s: State, m: Env, rest: seq<Token>) returns (v: word, s': State)
    requires e.Prefix? && Before(e, UNARY, s, m, rest)
    ensures Parsed(Run(e, m, s.noeval > 0), UNARY, s, m, rest, v, s')
    decreases e, 0, 0, 0
  {
    TextOf(e, rest);
    var s1 := Advance(s, m, UnToken(e.u), Print(e.e, UNARY) + rest);
    v, s' := ParsePrint(e.e, UNARY, s1, m, rest);
    PrefixUp(Run(e.e, m, s.noeval > 0), e.u, s, m, rest, s1, v, s');
    v := ApplyPrefix(e.u, v);
    s' := s'.(lasttok := Num(0));
  }

  lemma PrefixUp(r: Meaning, u: UnOp, s: State, m: Env, rest: seq<Token>, s1: State, v: word, s2: State)
    requires Ready(s, m) && s.curtok == UnToken(u) && Reads(s, s1)
    requires Moved(s, s1, m) && Loaded(s1, m)
    requires Parsed(r, UNARY, s1, m, rest, v, s2)
    ensures Parsed(MapPrefix(u, r), UNARY, s, m, rest, ApplyPrefix(u, v), s2.(lasttok := Num(0)))
  {
    assert Show(0);
  }

  // ----- the loops -----

  /** The second operand of level k is read without being evaluated. */
  predicate Skips(k: nat, a: word, s: State) { s.noeval > 0 || SkipsMore(k, a) }

  /** The loop of level k, at its token with a in hand, reads a second operand meaning r. */
  ghost predicate Folded(r: Meaning, k: nat, a: word, s: State, rest: seq<Token>, b: word, s': State)
    requires k <= POWER && k != ASSIGN && k != COND
    requires s.depth < MAX_EXPR_RECURSION_LEVEL && TokenLevel(s.curtok) == k
  {
    && (r.Value? ==> b == r.v && Arrived(s, s', r.m, rest))
    && forall z: nat {:trigger Show(z)} :: Show(z) ==>
         Tail(k, a, s) == if r.Error? then Fail(r.error, Text(r.m))
                          else if s'.depth == s.depth then Fold(k, a, s.curtok, b, s') else Ok(b, s')
  }

  lemma TailStep(k: nat, a: word, s: State, m: Env, t: Token, r: Expr, rest: seq<Token>) returns (b: word, s': State)
    requires k <= POWER && k != ASSIGN && k != COND
    requires Ready(s, m) && WellFormed(r) && TokenLevel(t) == k && Follows(k, rest)
    requires s.curtok == t && Stream(s) == [t] + (Print(r, OperandLevel(k)) + rest)
    ensures Folded(Run(r, m, Skips(k, a, s)), k, a, s, rest, b, s')
    decreases r, 2, 0, 0
  {
    var s0 := s.(noeval := s.noeval + if SkipsMore(k, a) then 1 else 0);
    var s1 := Advance(s0, m, t, Print(r, OperandLevel(k)) + rest);
    b, s' := ParsePrint(r, OperandLevel(k), s1, m, rest);
    s' := FoldOperand(Run(r, m, Skips(k, a, s)), k, a, s, m, rest, s1, b, s');
  }

  lemma FoldOperand(r: Meaning, k: nat, a: word, s: State, m: Env, rest: seq<Token>, s1: State, b: word, s2: State)
      returns (s': State)
    requires k <= POWER && k != ASSIGN && k != COND
    requires Ready(s, m) && TokenLevel(s.curtok) == k && Follows(k, rest)
    requires var s0 := s.(noeval := s.noeval + if SkipsMore(k, a) then 1 else 0);
             Reads(s0, s1) && Moved(s0, s1, m) && Loaded(s1, m)
    requires Parsed(r, OperandLevel(k), s1, m, rest, b, s2)
    ensures Folded(r, k, a, s, rest, b, s')
  {
    s' := s2.(noeval := s.noeval);
    if r.Value? {
      OperandFolds(r, k, a, s, m, rest, s1, b, s2);
    } else {
      assert Show(0);
      TailLoops(k, a, s);
      LoopFails(k, a, s, s1, r.error, Text(r.m));
    }
  }

  lemma OperandFolds(r: Meaning, k: nat, a: word, s: State, m: Env, rest: seq<Token>, s1: State, b: word, s2: State)
    requires k <= POWER && k != ASSIGN && k != COND
    requires r.Value? && Ready(s, m) && TokenLevel(s.curtok) == k && Follows(k, rest)
    requires var s0 := s.(noeval := s.noeval + if SkipsMore(k, a) then 1 else 0);
             Reads(s0, s1) && Moved(s0, s1, m) && Loaded(s1, m)
    requires Parsed(r, OperandLevel(k), s1, m, rest, b, s2)
    ensures Folded(r, k, a, s, rest, b, s2.(noeval := s.noeval))
  {
    assert Show(0);
    TailLoops(k, a, s);
    TailStops(OperandLevel(k), b, s2);
    LoopFolds(k, a, s, s1, b, s2);
  }

  // ----- binary operators -----

  /** The loop body computes the operator of the tree. */
  ghost predicate Computes(z: Meaning, op: BinOp, a: word, b: word, s: State, s': State)
    requires s.depth <= MAX_EXPR_RECURSION_LEVEL
  {
    s' == s.(lasttok := s'.lasttok) && s'.depth == s.depth &&
    match z
    case Error(er, _) => Fold(OpLevel(op), a, Bin(op), b, s) == Fail(er, s.store)
    case Value(w, _) => Fold(OpLevel(op), a, Bin(op), b, s) == Rest(OpLevel(op), w, s')
  }

  lemma FoldInfix(op: BinOp, a: word, b: word, s: State, m: Env) returns (s': State)
    requires s.depth <= MAX_EXPR_RECURSION_LEVEL && s.curtok != Bin(Power)
    ensures Computes(ApplyInfix(op, a, if s.noeval > 0 then Divisor(op, b) else b, m), op, a, b, s, s')
  {
    if op == Div || op == Mod {
      s' := FoldDivision(op, a, b, s, m);
    } else if op == Power {
      s' := FoldPower(a, b, s, m);
    } else {
      s' := s.(lasttok := Num(0));
      CombineIsApply(op, a, b, m);
    }
  }

  lemma CombineIsApply(op: BinOp, a: word, b: word, m: Env)
    requires op != Div && op != Mod && op != Power
    ensures ApplyInfix(op, a, b, m) == Value(Combine(op, a, b), m)
  {
  }

  lemma FoldPower(a: word, b: word, s: State, m: Env) returns (s': State)
    requires s.depth <= MAX_EXPR_RECURSION_LEVEL && s.curtok != Bin(Power)
    ensures Computes(ApplyInfix(Power, a, b, m), Power, a, b, s, s')
  {
    s' := s.(lasttok := Num(0));
    if b == 0 {
      assert Pow(a, 0) == 1;
      TailStops(POWER, 1, s');
    }
  }

  lemma FoldDivision(op: BinOp, a: word, b: word, s: State, m: Env) returns (s': State)
    requires op == Div || op == Mod
    requires s.depth <= MAX_EXPR_RECURSION_LEVEL
    ensures Computes(ApplyInfix(op, a, if s.noeval > 0 then Divisor(op, b) else b, m), op, a, b, s, s')
  {
    s' := s.(lasttok := Num(0));
    if b != 0 || s.noeval > 0 {
      DivisionIsApply(op, a, Divisor(op, b), m);
      if op == Mod && a == INTMAX_MIN && b == -1 {
        s' := s;
      }
    }
  }

  lemma DivisionIsApply(op: BinOp, a: word, d: word, m: Env)
    requires (op == Div || op == Mod) && d != 0
    ensures ApplyInfix(op, a, d, m) == Value(Combine(op, a, d), m)
  {
    if a == INTMAX_MIN && d == -1 {
      assert Wrap(TruncDiv(INTMAX_MIN, -1)) == INTMAX_MIN;
    } else {
      TruncDivInRange(a, d);
    }
  }

  lemma ParseInfix(e: Expr, s: State, m: Env, rest: seq<Token>) returns (v: word, s': State)
    requires e.Infix? && Before(e, OpLevel(e.op), s, m, rest)
    ensures Parsed(Run(e, m, s.noeval > 0), OpLevel(e.op), s, m, rest, v, s')
    decreases e, 0, 0, 0
  {
    var q, k, t := s.noeval > 0, OpLevel(e.op), Bin(e.op);
    var j := LeftLevel(k);
    var right := Print(e.r, OperandLevel(k)) + rest;
    TextOf(e, rest);
    RunOf(e, m, q);
    var a, s1 := ParsePrint(e.l, j, s, m, [t] + right);
    v, s' := 0, s;
    var x := Run(e.l, m, q);
    if x.Error? {
      InfixFails(e.op, x, s, m, [t] + right, a, s1, rest, v, s');
    } else {
      Peek(s1, t, right);
      var b, s2 := TailStep(k, a, s1, x.m, t, e.r, rest);
      v, s' := InfixUp(e.op, x, Run(e.r, x.m, q), s, m, rest, a, s1, b, s2);
    }
  }

  lemma InfixFails(op: BinOp, x: Meaning, s: State, m: Env, right: seq<Token>, a: word, s1: State, rest: seq<Token>,
          v: word, s': State)
    requires x.Error? && Ready(s, m)
    requires Parsed(x, LeftLevel(OpLevel(op)), s, m, right, a, s1)
    ensures Parsed(x, OpLevel(op), s, m, rest, v, s')
  {
    assert Show(0);
  }

  lemma InfixHead(op: BinOp, x: Meaning, s: State, m: Env, a: word, s1: State)
    requires x.Value? && Ready(s, m) && Ready(s1, x.m)
    requires Parsed(x, LeftLevel(OpLevel(op)), s, m, Stream(s1), a, s1)
    ensures Parse(OpLevel(op), s) == Tail(OpLevel(op), a, s1)
  {
    assert Show(0);
  }

  lemma InfixUp(op: BinOp, x: Meaning, y: Meaning, s: State, m: Env, rest: seq<Token>, a: word, s1: State, b: word,
          s2: State)
    returns (v: word, s': State)
    requires x.Value? && Ready(s, m) && Ready(s1, x.m) && Follows(OpLevel(op), rest)
    requires Parsed(x, LeftLevel(OpLevel(op)), s, m, Stream(s1), a, s1)
    requires s1.curtok == Bin(op) && Folded(y, OpLevel(op), a, s1, rest, b, s2)
    ensures Parsed(MapInfix(op, x, y, s.noeval > 0), OpLevel(op), s, m, rest, v, s')
  {
    v, s' := 0, s;
    var q := s.noeval > 0;
    InfixHead(op, x, s, m, a, s1);
    assert Show(0);
    if y.Value? {
      assert s2.curtok == if rest == [] then End else rest[0];
      InfixVerdict(op, a, x.v, b, y.m, q);
      s' := FoldInfix(op, a, b, s2, y.m);
      var z := ApplyInfix(op, a, if q then Divisor(op, b) else b, y.m);
      if z.Value? {
        v := z.v;
      }
    }
  }

  /** Whether an operator fails does not depend on its left operand. */
  lemma InfixVerdict(op: BinOp, a: word, a': word, b: word, m: Env, q: bool)
    ensures var c := if q then Divisor(op, b) else b;
            var z, z' := ApplyInfix(op, a, c, m), ApplyInfix(op, a', c, m);
            z.m == m == z'.m && (z.Error? <==> z'.Error?) && (z.Error? ==> z == z')
  {
  }

  // ----- && and || -----

  lemma ParseLogical(e: Expr, s: State, m: Env, rest: seq<Token>) returns (v: word, s': State)
    requires (e.AndAlso? || e.OrElse?) && Before(e, Level(e), s, m, rest)
    ensures Parsed(Run(e, m, s.noeval > 0), Level(e), s, m, rest, v, s')
    decreases e, 0, 0, 0
  {
    var k, t := Level(e), if e.AndAlso? then Land else Lor;
    var right := Print(e.r, k + 1) + rest;
    TextOf(e, rest);
    RunOf(e, m, s.noeval > 0);
    var a, s1 := ParsePrint(e.l, k, s, m, [t] + right);
    v, s' := 0, s;
    var x := Run(e.l, m, s.noeval > 0);
    if x.Value? {
      Peek(s1, t, right);
      var b, s2 := TailStep(k, a, s1, x.m, t, e.r, rest);
      v, s' := LogicalUp(t, x, Run(e.r, x.m, Skips(k, a, s1)), s, m, rest, a, s1, b, s2);
    }
  }

  lemma LogicalUp(t: Token, x: Meaning, y: Meaning, s: State, m: Env, rest: seq<Token>, a: word, s1: State, b: word,
          s2: State)
    returns (v: word, s': State)
    requires (t == Land || t == Lor) && x.Value? && Ready(s, m) && Ready(s1, x.m)
    requires Parsed(x, TokenLevel(t), s, m, Stream(s1), a, s1)
    requires s1.curtok == t && Folded(y, TokenLevel(t), a, s1, rest, b, s2)
    ensures Parsed(MapLogical(t, x, y), TokenLevel(t), s, m, rest, v, s')
  {
    v := if t == Land then FromBool(a != 0 && b != 0) else FromBool(a != 0 || b != 0);
    s' := s2.(lasttok := t);
    assert Show(0);
  }

  // ----- comma -----

  lemma ParseSequence(e: Expr, s: State, m: Env, rest: seq<Token>) returns (v: word, s': State)
    requires e.Sequence? && Before(e, COMMA, s, m, rest)
    ensures Parsed(Run(e, m, s.noeval > 0), COMMA, s, m, rest, v, s')
    decreases e, 0, 0, 0
  {
    var right := Print(e.r, ASSIGN) + rest;
    TextOf(e, rest);
    RunOf(e, m, s.noeval > 0);
    var a, s1 := ParsePrint(e.l, COMMA, s, m, [Comma] + right);
    v, s' := 0, s;
    var x := Run(e.l, m, s.noeval > 0);
    if x.Value? {
      Peek(s1, Comma, right);
      v, s' := TailStep(COMMA, a, s1, x.m, Comma, e.r, rest);
      SequenceUp(x, Run(e.r, x.m, s.noeval > 0), s, m, rest, a, s1, v, s');
    }
  }

  lemma SequenceUp(x: Meaning, y: Meaning, s: State, m: Env, rest: seq<Token>, a: word, s1: State, b: word, s2: State)
    requires x.Value? && Ready(s, m) && Ready(s1, x.m)
    requires Parsed(x, COMMA, s, m, Stream(s1), a, s1)
    requires s1.curtok == Comma && Folded(y, COMMA, a, s1, rest, b, s2)
    ensures Parsed(y, COMMA, s, m, rest, b, s2)
  {
    assert Show(0);
  }

  // ----- ?: -----

  /** Which branch an unused condition would select changes only an unused value. */
  lemma ChoiceMeaning(e: Expr, m: Env, q: bool, a: word)
    requires e.Choice? && Run(e.c, m, q).Value? && (q || a == Run(e.c, m, q).v)
    ensures var x := Run(e.c, m, q);
            var r, b := Run(e, m, q), Branches(e, a, x.m, q);
            && (a == x.v ==> r == b)
            && (r.Error? <==> b.Error?) && (r.Error? ==> r == b) && r.m == b.m
  {
    assert Run(e, m, q) == RunChoice(e, m, q);
    var x := Run(e.c, m, q);
    if q {
      SkipIsInert(e.t, x.m);
      SkipIsInert(e.f, x.m);
      BranchesInert(e, a, x.m);
      BranchesInert(e, x.v, x.m);
    }
  }

  ghost predicate Branched(r: Meaning, a: word, s: State, rest: seq<Token>, v: word, s': State)
    requires s.curtok == Ques && s.depth <= MAX_EXPR_RECURSION_LEVEL
  {
    && (r.Value? ==> Arrived(s, s', r.m, rest) && v == r.v)
    && forall z: nat {:trigger Show(z)} :: Show(z) ==>
         TailCond(a, s) == if r.Error? then Fail(r.error, Text(r.m)) else Ok(v, s')
  }

  ghost predicate SecondBranched(r: Meaning, a: word, b: word, s: State, rest: seq<Token>, v: word, s': State)
    requires s.curtok == Col && s.depth <= MAX_EXPR_RECURSION_LEVEL
  {
    && (r.Value? ==> Arrived(s, s', r.m, rest) && v == r.v)
    && forall z: nat {:trigger Show(z)} :: Show(z) ==>
         SecondBranch(a, b, s) == if r.Error? then Fail(r.error, Text(r.m)) else Ok(v, s')
  }

  lemma ParseChoice(e: Expr, s: State, m: Env, rest: seq<Token>) returns (v: word, s': State)
    requires e.Choice? && Before(e, COND, s, m, rest)
    ensures Parsed(Run(e, m, s.noeval > 0), COND, s, m, rest, v, s')
    decreases e, 0, 1, 0
  {
    var q := s.noeval > 0;
    var branches := Print(e.t, COMMA) + ([Col] + (Print(e.f, COND) + rest));
    TextOf(e, rest);
    RunOf(e, m, q);
    var a, s1 := ParsePrint(e.c, LOR, s, m, [Ques] + branches);
    v, s' := 0, s;
    var x := Run(e.c, m, q);
    if x.Error? {
      ChoiceFails(x, s, m, [Ques] + branches, a, s1, rest, v, s');
    } else {
      Peek(s1, Ques, branches);
      v, s' := ParseBranches(e, a, s1, x.m, rest);
      ChoiceUp(x, Branches(e, a, x.m, q), s, m, rest, a, s1, v, s');
      ChoiceMeaning(e, m, q, a);
      Reparse(Run(e, m, q), Branches(e, a, x.m, q), COND, s, m, rest, v, s');
    }
  }

  lemma ChoiceFails(x: Meaning, s: State, m: Env, right: seq<Token>, a: word, s1: State, rest: seq<Token>, v: word,
          s': State)
    requires x.Error? && Ready(s, m) && Parsed(x, LOR, s, m, right, a, s1)
    ensures Parsed(x, COND, s, m, rest, v, s')
  {
    assert Show(0);
  }

  lemma ChoiceUp(x: Meaning, r: Meaning, s: State, m: Env, rest: seq<Token>, a: word, s1: State, v: word, s': State)
    requires x.Value? && Ready(s, m) && Ready(s1, x.m) && s1.curtok == Ques && Follows(COND, rest)
    requires Parsed(x, LOR, s, m, Stream(s1), a, s1)
    requires Branched(r, a, s1, rest, v, s')
    ensures Parsed(r, COND, s, m, rest, v, s')
  {
    assert Show(0);
    TailStops(LOR, a, s1);
    if r.Value? {
      TailStops(COND, v, s');
    }
  }

  /** The two branches, one of them skipped. */
  lemma ParseBranches(e: Expr, a: word, s: State, m: Env, rest: seq<Token>) returns (v: word, s': State)
    requires e.Choice? && WellFormed(e) && Ready(s, m) && s.curtok == Ques && Follows(COND, rest)
    requires Stream(s) == [Ques] + (Print(e.t, COMMA) + ([Col] + (Print(e.f, COND) + rest)))
    ensures Branched(Branches(e, a, m, s.noeval > 0), a, s, rest, v, s')
    decreases e, 0, 0, 0
  {
    var t, f := e.t, e.f;
    var q := s.noeval > 0;
    var falsePart := [Col] + (Print(f, COND) + rest);
    var s1 := Advance(s, m, Ques, Print(t, COMMA) + falsePart);
    FirstToken(t, COMMA);
    assert s1.curtok == Stream(s1)[0] == Print(t, COMMA)[0];
    var s2 := s1.(noeval := s.noeval + if a == 0 then 1 else 0);
    var b, s3 := ParsePrint(t, COMMA, s2, m, falsePart);
    v, s' := b, s;
    var x := Run(t, m, q || a == 0);
    var y := x;
    if x.Value? {
      Peek(s3, Col, Print(f, COND) + rest);
      y := Run(f, x.m, q || a != 0);
      v, s' := ParseFalse(f, a, b, s3.(noeval := s.noeval), x.m, rest);
    }
    BranchesUp(x, y, a, s, m, rest, s1, b, s3, falsePart, v, s');
  }

  lemma BranchesUp(x: Meaning, y: Meaning, a: word, s: State, m: Env, rest: seq<Token>, s1: State, b: word, s3: State,
          falsePart: seq<Token>, v: word, s': State)
    requires Ready(s, m) && s.curtok == Ques && Reads(s, s1)
    requires Moved(s, s1, m) && Loaded(s1, m) && s1.curtok != End && s1.curtok != Col
    requires Parsed(x, COMMA, s1.(noeval := s.noeval + if a == 0 then 1 else 0), m, falsePart, b, s3)
    requires x.Value? ==> s3.curtok == Col && SecondBranched(Pick(a, b, y), a, b, s3.(noeval := s.noeval), rest, v, s')
    ensures Branched(if x.Error? then x else Pick(a, x.v, y), a, s, rest, v, s')
  {
    assert Show(0);
    if x.Value? {
      TailStops(COMMA, b, s3);
      assert a != 0 ==> b == x.v;
    }
  }

  lemma ParseFalse(f: Expr, a: word, b: word, s: State, m: Env, rest: seq<Token>) returns (v: word, s': State)
    requires WellFormed(f) && Ready(s, m) && s.curtok == Col && Follows(COND, rest)
    requires Stream(s) == [Col] + (Print(f, COND) + rest)
    ensures SecondBranched(Pick(a, b, Run(f, m, s.noeval > 0 || a != 0)), a, b, s, rest, v, s')
    decreases f, 2, 0, 0
  {
    var s1 := Advance(s, m, Col, Print(f, COND) + rest);
    FirstToken(f, COND);
    assert s1.curtok == Stream(s1)[0] == Print(f, COND)[0];
    v, s' := ParsePrint(f, COND, s1.(noeval := s.noeval + if a != 0 then 1 else 0), m, rest);
    FalseUp(Run(f, m, s.noeval > 0 || a != 0), a, b, s, m, rest, s1, v, s');
    v := if a != 0 then b else v;
    s' := s'.(noeval := s.noeval, lasttok := Ques);
  }

  lemma FalseUp(y: Meaning, a: word, b: word, s: State, m: Env, rest: seq<Token>, s1: State, d: word, s4: State)
    requires Ready(s, m) && s.curtok == Col && Reads(s, s1) && Follows(COND, rest)
    requires Moved(s, s1, m) && Loaded(s1, m) && s1.curtok != End
    requires Parsed(y, COND, s1.(noeval := s.noeval + if a != 0 then 1 else 0), m, rest, d, s4)
    ensures SecondBranched(Pick(a, b, y), a, b, s, rest, if a != 0 then b else d,
                           s4.(noeval := s.noeval, lasttok := Ques))
  {
    assert Show(0);
    if y.Value? {
      TailStops(COND, d, s4);
    }
  }

  lemma {:induction false} FirstToken(e: Expr, k: nat)
    ensures Print(e, k)[0] != End && Print(e, k)[0] != Col
    decreases e
  {
    match e
    case Infix(op, l, r) => FirstToken(l, if op == Power then UNARY else OpLevel(op));
    case AndAlso(l, r) => FirstToken(l, LAND);
    case OrElse(l, r) => FirstToken(l, LOR);
    case Choice(c, t, f) => FirstToken(c, LOR);
    case Sequence(l, r) => FirstToken(l, COMMA);
    case _ =>
  }

  // ----- assignment -----

  lemma ParseAssign(e: Expr, s: State, m: Env, rest: seq<Token>) returns (v: word, s': State)
    requires (e.Assign? || e.Update?) && Before(e, ASSIGN, s, m, rest)
    ensures Parsed(Run(e, m, s.noeval > 0), ASSIGN, s, m, rest, v, s')
    decreases e, 0, 0, 0
  {
    var q, t := s.noeval > 0, if e.Assign? then Eq else OpAssign(e.aop);
    TextOf(e, rest);
    Peek(s, Str(e.x), [t] + (Print(e.e, ASSIGN) + rest));
    v, s' := ParseAssignment(e.x, t, e.e, s, m, rest);
    AssignMeaning(e, m, q, s.tokval);
    Reparse(Run(e, m, q), MapAssign(t, e.x, s.tokval, Run(e.e, m, q), q), ASSIGN, s, m, rest, v, s');
  }

  lemma ParseAssignment(x: string, t: Token, e: Expr, s: State, m: Env, rest: seq<Token>) returns (v: word, s': State)
    requires t.Eq? || (t.OpAssign? && Assignable(t.aop))
    requires WellFormed(e) && Ready(s, m) && Follows(ASSIGN, rest)
    requires Stream(s) == [Str(x)] + ([t] + (Print(e, ASSIGN) + rest))
    ensures Parsed(MapAssign(t, x, s.tokval, Run(e, m, s.noeval > 0), s.noeval > 0), ASSIGN, s, m, rest, v, s')
    decreases e, 2, 0, 0
  {
    var right := Print(e, ASSIGN) + rest;
    var s1 := Advance(s, m, Str(x), [t] + right);
    var s2 := Advance(s1, m, t, right);
    var b, s3 := ParsePrint(e, ASSIGN, s2, m, rest);
    v, s' := AssignUp(Run(e, m, s.noeval > 0), x, s, m, rest, s1, s2, b, s3);
  }

  /** A meaning may be exchanged for one that differs at most in an unused value. */
  lemma Reparse(r: Meaning, b: Meaning, k: nat, s: State, m: Env, rest: seq<Token>, v: word, s': State)
    requires k <= PRIMARY && Ready(s, m) && Parsed(b, k, s, m, rest, v, s')
    requires (r.Error? <==> b.Error?) && (r.Error? ==> r == b) && r.m == b.m && (Loaded(s, m) ==> r == b)
    ensures Parsed(r, k, s, m, rest, v, s')
  {
  }

  /** An unused old value changes only an unused result. */
  lemma AssignMeaning(e: Expr, m: Env, q: bool, a: word)
    requires e.Assign? || e.Update?
    ensures var r := Run(e, m, q);
            var b := MapAssign(if e.Assign? then Eq else OpAssign(e.aop), e.x, a, Run(e.e, m, q), q);
            && (e.Assign? || a == Read(m, e.x, q) ==> r == b)
            && (r.Error? <==> b.Error?) && (r.Error? ==> r == b) && (q ==> r.m == b.m)
  {
    var y := Run(e.e, m, q);
    if y.Value? && e.Update? {
      InfixVerdict(e.aop, a, Read(m, e.x, q), y.v, y.m, q);
    }
  }

  /** A name in front of an assignment operator passes every level down to expassign. */
  lemma NameLeft(s: State, s1: State)
    requires s.depth < MAX_EXPR_RECURSION_LEVEL && s.curtok.Str? && Reads(s, s1) && s1.depth == s.depth
    requires TokenLevel(TokenAt(s, s.tp)) == ASSIGN && TokenLevel(s1.curtok) == ASSIGN
    ensures forall z: nat {:trigger Show(z)} :: Show(z) ==> Parse(ASSIGN, s) == TailAssign(s.tokval, s1)
  {
    OperandUp(s, s1);
    assert Show(0);
    Climb(COND, UNARY, s.tokval, s, s1);
  }

  /** expassign, at its operator in s1 with old value a, means r and ends like s3. */
  ghost predicate Assigned(r: Meaning, a: word, s1: State, v: word, s3: State, s': State)
    requires s1.depth <= MAX_EXPR_RECURSION_LEVEL && (s1.curtok.Eq? || s1.curtok.OpAssign?)
  {
    && (r.Value? ==> v == r.v && s' == s3.(store := Text(r.m), tokstr := ""))
    && forall z: nat {:trigger Show(z)} :: Show(z) ==>
         TailAssign(a, s1) == if r.Error? then Fail(r.error, Text(r.m)) else Ok(v, s')
  }

  lemma AssignUp(y: Meaning, x: string, s: State, m: Env, rest: seq<Token>, s1: State, s2: State, b: word, s3: State)
      returns (v: word, s': State)
    requires Ready(s, m) && s.curtok == Str(x) && TokenLevel(TokenAt(s, s.tp)) == ASSIGN
    requires s1.curtok.Eq? || (s1.curtok.OpAssign? && Assignable(s1.curtok.aop))
    requires Reads(s, s1) && Moved(s, s1, m) && s1.lasttok.Str? && s1.tokstr == x
    requires Reads(s1, s2) && Moved(s1, s2, m) && Loaded(s2, m) && Follows(ASSIGN, rest)
    requires Parsed(y, ASSIGN, s2, m, rest, b, s3)
    ensures Parsed(MapAssign(s1.curtok, x, s.tokval, y, s.noeval > 0), ASSIGN, s, m, rest, v, s')
  {
    NameLeft(s, s1);
    var r := MapAssign(s1.curtok, x, s.tokval, y, s.noeval > 0);
    if y.Value? {
      v, s' := AssignValue(y, x, s.tokval, m, rest, s1, s2, b, s3);
      AssignConcludes(r, s, m, rest, s1, v, s3, s');
    } else {
      v, s' := b, s3;
      AssignError(y, s, m, rest, s1, s2, b, s3);
    }
  }

  lemma AssignValue(y: Meaning, x: string, a: word, m: Env, rest: seq<Token>, s1: State, s2: State, b: word, s3: State)
      returns (v: word, s': State)
    requires y.Value? && Follows(ASSIGN, rest) && Ready(s1, m) && s1.lasttok.Str? && s1.tokstr == x
    requires s1.curtok.Eq? || (s1.curtok.OpAssign? && Assignable(s1.curtok.aop))
    requires Reads(s1, s2) && Moved(s1, s2, m) && Loaded(s2, m)
    requires Parsed(y, ASSIGN, s2, m, rest, b, s3)
    ensures s3.curtok == if rest == [] then End else rest[0]
    ensures Assigned(MapAssign(s1.curtok, x, a, y, s1.noeval > 0), a, s1, v, s3, s')
  {
    assert s3.curtok == if rest == [] then End else rest[0];
    TailStops(ASSIGN, b, s3);
    assert Show(0);
    v, s' := AssignFold(y.m, x, a, s1, s2, b, s3);
    assert y == Value(b, y.m);
  }

  lemma AssignConcludes(r: Meaning, s: State, m: Env, rest: seq<Token>, s1: State, v: word, s3: State, s': State)
    requires Ready(s, m) && TokenLevel(s3.curtok) != ASSIGN && !s3.curtok.Str?
    requires s3.tp <= |s3.toks| && End !in s3.toks && Stream(s3) == rest
    requires s3.toks == s.toks && s3.depth == s.depth && s3.noeval == s.noeval
    requires s1.depth == s.depth && (s1.curtok.Eq? || s1.curtok.OpAssign?)
    requires forall z: nat {:trigger Show(z)} :: Show(z) ==> Parse(ASSIGN, s) == TailAssign(s.tokval, s1)
    requires Assigned(r, s.tokval, s1, v, s3, s')
    ensures Parsed(r, ASSIGN, s, m, rest, v, s')
  {
    assert Show(0);
    if r.Value? {
      TailStops(ASSIGN, v, s');
    }
  }

  lemma AssignError(y: Meaning, s: State, m: Env, rest: seq<Token>, s1: State, s2: State, b: word, s3: State)
    requires y.Error? && Ready(s, m) && Moved(s, s1, m) && s1.lasttok.Str? && (s1.curtok.Eq? || s1.curtok.OpAssign?)
    requires forall z: nat {:trigger Show(z)} :: Show(z) ==> Parse(ASSIGN, s) == TailAssign(s.tokval, s1)
    requires Reads(s1, s2) && Moved(s1, s2, m)
    requires Parsed(y, ASSIGN, s2, m, rest, b, s3)
    ensures Parsed(y, ASSIGN, s, m, rest, b, s3)
  {
    assert Show(0);
    AssignFails(s.tokval, s1, s2, y.error, Text(y.m));
  }

  lemma AssignFold(m: Env, x: string, a: word, s1: State, s2: State, b: word, s3: State) returns (v: word, s': State)
    requires s1.depth < MAX_EXPR_RECURSION_LEVEL && s1.lasttok.Str? && s1.tokstr == x && s2.depth == s1.depth
    requires s1.curtok.Eq? || (s1.curtok.OpAssign? && Assignable(s1.curtok.aop))
    requires ReadTok(s1) == Ok(0, s2) && Parse(ASSIGN, s2) == Ok(b, s3)
    requires s3.store == Text(m) && s3.noeval == s1.noeval
    ensures match MapAssign(s1.curtok, x, a, Value(b, m), s1.noeval > 0)
            case Error(er, m1) => TailAssign(a, s1) == Fail(er, Text(m1)) && s' == s3
            case Value(w, m1) =>
              v == w && TailAssign(a, s1) == Ok(v, s') && s' == s3.(store := Text(m1), tokstr := "")
  {
    var q, t := s1.noeval > 0, s1.curtok;
    v, s' := b, s3;
    if t.OpAssign? {
      UpdateVerdict(t.aop, a, b, m, q);
      var z := ApplyInfix(t.aop, a, if q then Divisor(t.aop, b) else b, m);
      if z.Error? {
        return;
      }
      v := z.v;
    }
    BindText(s3, m, x, v);
    s' := Bind(s3, x, v).(tokstr := "");
  }

  /** The switch of expassign computes the operator of the tree. */
  lemma UpdateVerdict(op: BinOp, a: word, b: word, m: Env, q: bool)
    requires Assignable(op)
    ensures match ApplyInfix(op, a, if q then Divisor(op, b) else b, m)
            case Error(er, m1) => m1 == m && er == DivisionByZero && (op == Div || op == Mod) && b == 0 && !q
            case Value(w, m1) =>
              m1 == m && !((op == Div || op == Mod) && b == 0 && !q) && w == Combine(op, a, Divisor(op, b))
  {
    if op == Div || op == Mod {
      if q || b != 0 {
        DivisionIsApply(op, a, Divisor(op, b), m);
      }
    } else {
      CombineIsApply(op, a, b, m);
    }
  }

  // ----- the theorem -----

  lemma {:induction false} PrintHasNoEnd(e: Expr, k: nat)
    ensures End !in Print(e, k)
    decreases e
  {
    match e
    case Prefix(u, e1) => PrintHasNoEnd(e1, UNARY);
    case Infix(op, l, r) =>
      PrintHasNoEnd(l, if op == Power then UNARY else OpLevel(op));
      PrintHasNoEnd(r, OperandLevel(OpLevel(op)));
    case AndAlso(l, r) => PrintHasNoEnd(l, LAND); PrintHasNoEnd(r, BOR);
    case OrElse(l, r) => PrintHasNoEnd(l, LOR); PrintHasNoEnd(r, LAND);
    case Choice(c, t, f) => PrintHasNoEnd(c, LOR); PrintHasNoEnd(t, COMMA); PrintHasNoEnd(f, COND);
    case Assign(x, e1) => PrintHasNoEnd(e1, ASSIGN);
    case Update(x, op, e1) => PrintHasNoEnd(e1, ASSIGN);
    case Sequence(l, r) => PrintHasNoEnd(l, COMMA); PrintHasNoEnd(r, ASSIGN);
    case Paren(e1) => PrintHasNoEnd(e1, COMMA);
    case _ =>
  }

  /** evalexp on the minimally parenthesised text of e, with integer variables m. */
  lemma EvalPrint(e: Expr, m: Env)
    requires WellFormed(e)
    ensures Delivers(EvalExp(Print(e, COMMA), Text(m)), Run(e, m, false))
  {
    PrintHasNoEnd(e, COMMA);
    var top := State([], 0, End, End, 0, "", 0, 0, Text(m));
    var s0 := Enter(top, Print(e, COMMA));
    var s1 := ReadNext(s0, m);
    assert Stream(s1) == Print(e, COMMA) + [];
    var v, s2 := ParsePrint(e, COMMA, s1, m, []);
    EvalUp(Run(e, m, false), top, Print(e, COMMA), m, s1, v, s2);
  }

  lemma EvalUp(r: Meaning, top: State, text: seq<Token>, m: Env, s1: State, v: word, s2: State)
    requires top.depth < MAX_EXPR_RECURSION_LEVEL && text != []
    requires Ready(s1, m) && Reads(Enter(top, text), s1) && Loaded(s1, m)
    requires Parsed(r, COMMA, s1, m, [], v, s2)
    ensures Delivers(SubExpr(top, text), r)
  {
    assert Show(0);
    if r.Value? {
      TailStops(COMMA, v, s2);
    }
    SubRuns(top, text, s1);
  }

  /** The evaluator's outcome is the meaning r: the same error with the same variables,
      or the same value with the same variables. */
  ghost predicate Delivers(out: Outcome, r: Meaning) {
    match r
    case Error(er, m1) => out == Fail(er, Text(m1))
    case Value(v, m1) => out.Ok? && out.val == v && out.s.store == Text(m1)
  }

  /** Different variables have different texts. */
  lemma TextInjective(m: Env, n: Env)
    requires Text(m) == Text(n)
    ensures m == n
  {
    forall x | x in m ensures x in n && m[x] == n[x] {
      assert x in Text(m) && Itos(m[x]) == Text(n)[x] == Itos(n[x]);
      ItosInjective(m[x], n[x]);
    }
    forall x | x in n ensures x in m {
      assert x in Text(n);
    }
  }

  lemma ItosInjective(v: word, w: word)
    requires Itos(v) == Itos(w)
    ensures v == w
  {
    assert Itos(v)[|Itos(v)| - 1] == Itos(w)[|Itos(w)| - 1];
  }

  lemma DeliversOne(out: Outcome, r: Meaning, q: Meaning)
    requires Delivers(out, r) && Delivers(out, q)
    ensures r == q
  {
    TextInjective(r.m, q.m);
  }

  /** The main result, for every tree and every integer store.  The evaluator returns the
      tree's left-to-right meaning and final store if it never skips an explosive operand;
      if it does, it stops there with the variables as they are then. */
  lemma EvaluatorIsCorrect(e: Expr, m: Env)
    requires WellFormed(e)
    ensures var out := EvalExp(Print(e, COMMA), Text(m));
            && (SkipsSafely(e, m) ==> Delivers(out, Eval(e, m)))
            && (!SkipsSafely(e, m) ==> out == Fail(NegativeExponent, Text(Stumble(e, m).value)))
            && (Delivers(out, Eval(e, m)) <==>
                  SkipsSafely(e, m) || Eval(e, m) == Error(NegativeExponent, Stumble(e, m).value))
  {
    EvalPrint(e, m);
    RunIsEval(e, m);
    var out := EvalExp(Print(e, COMMA), Text(m));
    if Delivers(out, Eval(e, m)) {
      DeliversOne(out, Eval(e, m), Run(e, m, false));
    }
  }
}
