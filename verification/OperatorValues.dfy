/** What each operator computes, from the text to the value. */
module OperatorValues {
  import opened Int64
  import opened Options
  import opened Folding
  import opened ExprMachine
  import opened ExprTree
  import opened ExprParse
  import opened Precedence

  /** Evaluating the text, with integer variables m, comes to r. */
  ghost predicate Comes(text: seq<Token>, m: Env, r: Meaning) {
    forall z: nat {:trigger Show(z)} :: Show(z) ==> Delivers(EvalExp(text, Text(m)), r)
  }

  ghost predicate Yields(text: seq<Token>, m: Env, v: word, n: Env) { Comes(text, m, ExprTree.Value(v, n)) }

  ghost predicate Fails(text: seq<Token>, m: Env, error: ExprMachine.Error) { Comes(text, m, Error(error, m)) }

  lemma ComesTo(e: Expr, text: seq<Token>, m: Env)
    requires Spells(e, text, 0) && Stumble(e, m) == None
    ensures Comes(text, m, Eval(e, m))
  {
    SpellsMeans(e, text, m);
    assert Show(0);
  }

  function Between(a: word, op: BinOp, b: word): seq<Token> { [Num(a), Bin(op), Num(b)] }

  lemma BetweenMeans(a: word, op: BinOp, b: word, m: Env)
    ensures Comes(Between(a, op, b), m, ApplyInfix(op, a, b, m))
  {
    BetweenSpells(a, op, b);
    BetweenEval(a, op, b, m);
    ComesTo(Infix(op, Const(a), Const(b)), Between(a, op, b), m);
  }

  lemma BetweenSpells(a: word, op: BinOp, b: word)
    ensures Spells(Infix(op, Const(a), Const(b)), Between(a, op, b), 0)
  {
    Operands(a, "", true, Const(a));
    Operands(b, "", true, Const(b));
    BinaryRank(Bin(op));
    JoinSpells(Bin(op), Const(a), [Num(a)], Const(b), [Num(b)]);
    assert [Num(a)] + [Bin(op)] + [Num(b)] == Between(a, op, b);
  }

  lemma BetweenEval(a: word, op: BinOp, b: word, m: Env)
    ensures var e := Infix(op, Const(a), Const(b));
            Eval(e, m) == ApplyInfix(op, a, b, m) && Stumble(e, m) == None
  {
    assert Eval(Const(a), m) == ExprTree.Value(a, m) && Eval(Const(b), m) == ExprTree.Value(b, m);
    assert Stumble(Const(a), m) == None && Stumble(Const(b), m) == None;
  }

  lemma Equalities(a: word, b: word, m: Env)
    ensures Yields(Between(a, EqEq, b), m, if a == b then 1 else 0, m)
    ensures Yields(Between(a, Neq, b), m, if a == b then 0 else 1, m)
  {
    BetweenMeans(a, EqEq, b, m);
    BetweenMeans(a, Neq, b, m);
  }

  lemma Comparisons(a: word, b: word, m: Env)
    ensures Yields(Between(a, Lt, b), m, if a < b then 1 else 0, m)
    ensures Yields(Between(a, Geq, b), m, if a < b then 0 else 1, m)
    ensures Yields(Between(a, Gt, b), m, if b < a then 1 else 0, m)
    ensures Yields(Between(a, Leq, b), m, if b < a then 0 else 1, m)
  {
    Less(a, b, m);
    Greater(a, b, m);
  }

  lemma Less(a: word, b: word, m: Env)
    ensures Yields(Between(a, Lt, b), m, if a < b then 1 else 0, m)
    ensures Yields(Between(a, Geq, b), m, if a < b then 0 else 1, m)
  {
    BetweenMeans(a, Lt, b, m);
    BetweenMeans(a, Geq, b, m);
  }

  lemma Greater(a: word, b: word, m: Env)
    ensures Yields(Between(a, Gt, b), m, if b < a then 1 else 0, m)
    ensures Yields(Between(a, Leq, b), m, if b < a then 0 else 1, m)
  {
    BetweenMeans(a, Gt, b, m);
    BetweenMeans(a, Leq, b, m);
  }

  lemma Sums(a: word, b: word, m: Env)
    ensures Yields(Between(a, Plus, b), m, Wrap(a + b), m)
    ensures Yields(Between(a, Minus, b), m, Wrap(a - b), m)
  {
    BetweenMeans(a, Plus, b, m);
    BetweenMeans(a, Minus, b, m);
  }

  lemma Products(a: word, b: word, m: Env)
    ensures Yields(Between(a, Mul, b), m, Wrap(a * b), m)
  {
    BetweenMeans(a, Mul, b, m);
  }

  lemma Powers(a: word, b: word, m: Env)
    ensures if b >= 0 then Yields(Between(a, Power, b), m, Wrap(Pow(a, b)), m)
            else Fails(Between(a, Power, b), m, NegativeExponent)
  {
    BetweenMeans(a, Power, b, m);
  }

  /** The quotient is truncated; INTMAX_MIN / -1 wraps to INTMAX_MIN, with the remainder 0. */
  lemma Quotients(a: word, b: word, m: Env)
    ensures b == 0 ==> Fails(Between(a, Div, b), m, DivisionByZero) && Fails(Between(a, Mod, b), m, DivisionByZero)
    ensures b != 0 ==>
              && Yields(Between(a, Div, b), m, Wrap(TruncDiv(a, b)), m)
              && INTMAX_MIN <= TruncMod(a, b) <= INTMAX_MAX && Yields(Between(a, Mod, b), m, TruncMod(a, b), m)
  {
    BetweenMeans(a, Div, b, m);
    BetweenMeans(a, Mod, b, m);
    if b != 0 {
      TruncDivLaw(a, b);
      if !(a == INTMAX_MIN && b == -1) {
        TruncDivInRange(a, b);
      }
    }
  }

  /** Bit by bit: and, or, exclusive or. */
  lemma BitOperators(a: word, b: word, m: Env) returns (and: word, or: word, xor: word)
    ensures Yields(Between(a, Band, b), m, and, m)
    ensures Yields(Between(a, Bor, b), m, or, m)
    ensures Yields(Between(a, Bxor, b), m, xor, m)
    ensures forall i {:trigger Bit(and, i)} :: 0 <= i < 64 ==> Bit(and, i) == (Bit(a, i) && Bit(b, i))
    ensures forall i {:trigger Bit(or, i)} :: 0 <= i < 64 ==> Bit(or, i) == (Bit(a, i) || Bit(b, i))
    ensures forall i {:trigger Bit(xor, i)} :: 0 <= i < 64 ==> Bit(xor, i) == (Bit(a, i) != Bit(b, i))
  {
    and, or, xor := Bits(BitAnd, a, b), Bits(BitOr, a, b), Bits(BitXor, a, b);
    BetweenMeans(a, Band, b, m);
    BetweenMeans(a, Bor, b, m);
    BetweenMeans(a, Bxor, b, m);
    forall i | 0 <= i < 64
      ensures Bit(and, i) == (Bit(a, i) && Bit(b, i))
      ensures Bit(or, i) == (Bit(a, i) || Bit(b, i))
      ensures Bit(xor, i) == (Bit(a, i) != Bit(b, i))
    {
      BitsDigit(a, b, i);
    }
  }

  /** Bit by bit, for counts from 0 to 63: to the left, zeros come in; to the right, the sign. */
  lemma Shifts(a: word, n: word, m: Env) returns (left: word, right: word)
    requires 0 <= n < 64
    ensures Yields(Between(a, Lsh, n), m, left, m)
    ensures Yields(Between(a, Rsh, n), m, right, m)
    ensures forall i {:trigger Bit(left, i)} :: 0 <= i < 64 ==> Bit(left, i) == (i >= n && Bit(a, i - n))
    ensures forall i {:trigger Bit(right, i)} :: 0 <= i < 64 ==>
              Bit(right, i) == if i + n < 64 then Bit(a, i + n) else a < 0
  {
    left, right := Shl(a, n), Shr(a, n);
    BetweenMeans(a, Lsh, n, m);
    BetweenMeans(a, Rsh, n, m);
    forall i | 0 <= i < 64
      ensures Bit(left, i) == (i >= n && Bit(a, i - n))
      ensures Bit(right, i) == if i + n < 64 then Bit(a, i + n) else a < 0
    {
      ShlDigit(a, n, i);
      ShrDigit(a, n, i);
    }
  }

  lemma Signs(a: word, m: Env)
    ensures Yields([Not, Num(a)], m, if a == 0 then 1 else 0, m)
    ensures Yields([Bnot, Num(a)], m, -1 - a, m)
    ensures Yields([Bin(Minus), Num(a)], m, Wrap(0 - a), m)
    ensures Yields([Bin(Plus), Num(a)], m, a, m)
  {
    SignMeans(LogicalNot, a, m);
    SignMeans(BitNot, a, m);
    SignMeans(Negate, a, m);
    SignMeans(Affirm, a, m);
  }

  lemma SignMeans(u: UnOp, a: word, m: Env)
    ensures Yields([Sign(u), Num(a)], m, ApplyPrefix(u, a), m)
  {
    Operands(a, "", true, Const(a));
    SignSpells(u, Const(a), [Num(a)]);
    assert [Sign(u)] + [Num(a)] == [Sign(u), Num(a)];
    assert Eval(Const(a), m) == ExprTree.Value(a, m) && Stumble(Const(a), m) == None;
    ComesTo(Prefix(u, Const(a)), [Sign(u), Num(a)], m);
  }

  /** `++` and `--` add or take 1, around the end of the range if need be; before the name they
      give the new value, after it the old one. */
  lemma Steps(x: string, m: Env)
    ensures var v := if x in m then m[x] else 0;
            var w: word := if v == INTMAX_MAX then INTMAX_MIN else v + 1;
            Yields([PreInc, Str(x)], m, w, m[x := w]) && Yields([Str(x), PostInc], m, v, m[x := w])
    ensures var v := if x in m then m[x] else 0;
            var w: word := if v == INTMAX_MIN then INTMAX_MAX else v - 1;
            Yields([PreDec, Str(x)], m, w, m[x := w]) && Yields([Str(x), PostDec], m, v, m[x := w])
  {
    StepMeans(x, true, m);
    StepMeans(x, false, m);
  }

  lemma StepMeans(x: string, up: bool, m: Env)
    ensures var v := Get(m, x); var w := Stepped(v, up);
            && Yields([if up then PreInc else PreDec, Str(x)], m, w, m[x := w])
            && Yields([Str(x), if up then PostInc else PostDec], m, v, m[x := w])
  {
    Operands(0, x, up, Const(0));
    ComesTo(PreStepped(x, up), [if up then PreInc else PreDec, Str(x)], m);
    ComesTo(PostStepped(x, up), [Str(x), if up then PostInc else PostDec], m);
  }
}
