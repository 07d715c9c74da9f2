/** Texts that are not expressions: where the evaluator stops, with which error, and with the
    variables as they are then. */
module Rejections {
  import opened Folding
  import opened Int64
  import opened Options
  import opened ExprMachine
  import opened ExprTree
  import opened ExprParse
  import opened Precedence

  /** The text fails as r does, and with error er if r does not. */
  ghost predicate Refused(text: seq<Token>, m: Env, r: Meaning, er: ExprMachine.Error) {
    EvalExp(text, Text(m)) == Fail(Either(r, er), Text(r.m))
  }

  function Top(m: Env): State { State([], 0, End, End, 0, "", 0, 0, Text(m)) }

  /** The state after the first token of a text. */
  lemma Begin(text: seq<Token>, m: Env) returns (s: State)
    requires text != [] && End !in text
    ensures Ready(s, m) && Loaded(s, m) && Stream(s) == text && s.noeval == 0
    ensures ExprParse.Reads(Enter(Top(m), text), s)
  {
    s := ReadNext(Enter(Top(m), text), m);
    assert text[0..] == text;
  }

  // ----- failures go up through all levels -----

  ghost predicate FailsAt(k: nat, s: State, er: ExprMachine.Error, n: Env) {
    && k <= PRIMARY && s.depth <= MAX_EXPR_RECURSION_LEVEL
    && forall z: nat {:trigger Show(z)} :: Show(z) ==> Parse(k, s) == Fail(er, Text(n))
  }

  lemma {:induction false} FailsUp(k: nat, s: State, er: ExprMachine.Error, n: Env)
    requires FailsAt(k, s, er, n) && (k == PRIMARY ==> !IsUnary(s.curtok))
    ensures FailsAt(COMMA, s, er, n)
    decreases k
  {
    if k > 0 {
      FailsOnce(k, s, er, n);
      FailsUp(k - 1, s, er, n);
    }
  }

  lemma FailsOnce(k: nat, s: State, er: ExprMachine.Error, n: Env)
    requires k > 0 && FailsAt(k, s, er, n) && (k == PRIMARY ==> !IsUnary(s.curtok))
    ensures FailsAt(k - 1, s, er, n)
  {
    assert Show(0);
    if k == PRIMARY {
      assert Parse(UNARY, s) == Unary(s) == Primary(s);
    }
  }

  lemma FailsAll(k: nat, text: seq<Token>, m: Env, s: State, r: Meaning, er: ExprMachine.Error)
    requires text != [] && Ready(s, m) && ExprParse.Reads(Enter(Top(m), text), s)
    requires FailsAt(k, s, Either(r, er), r.m) && (k == PRIMARY ==> !IsUnary(s.curtok))
    ensures Refused(text, m, r, er)
  {
    FailsUp(k, s, Either(r, er), r.m);
    assert Show(0);
    SubRuns(Top(m), text, s);
  }

  /** The error of r if it has one, and otherwise er. */
  function Either(r: Meaning, er: ExprMachine.Error): ExprMachine.Error { if r.Error? then r.error else er }

  /** What a tree comes to where its text is met. */
  function Outcome(e: Expr, m: Env): Meaning { Observed(Eval(e, m), Stumble(e, m)) }

  // ----- parentheses and colons -----

  /** A close parenthesis or a colon after an expression. */
  lemma StrayClose(e: Expr, m: Env, t: Token)
    requires WellFormed(e) && (t == RPar || t == Col)
    ensures Refused(Written(e) + [t], m, Outcome(e, m), SyntaxError)
  {
    WrittenIsPrint(e);
    PrintHasNoEnd(e, COMMA);
    RunIsEval(e, m);
    var text := Print(e, COMMA) + [t];
    var s := Begin(text, m);
    var v, s' := ParsePrint(e, COMMA, s, m, [t]);
    StrayUp(Outcome(e, m), text, m, s, [t], v, s');
  }

  lemma StrayUp(r: Meaning, text: seq<Token>, m: Env, s: State, rest: seq<Token>, v: word, s': State)
    requires text != [] && Ready(s, m) && ExprParse.Reads(Enter(Top(m), text), s)
    requires Parsed(r, COMMA, s, m, rest, v, s') && rest != [] && (rest[0] == RPar || rest[0] == Col)
    ensures Refused(text, m, r, SyntaxError)
  {
    assert Show(0);
    if r.Value? {
      assert s'.curtok == Stream(s')[0];
      TailStops(COMMA, v, s');
    }
    SubRuns(Top(m), text, s);
  }

  /** An open parenthesis that is not closed. */
  lemma MissingClose(e: Expr, m: Env)
    requires WellFormed(e)
    ensures Refused([LPar] + Written(e), m, Outcome(e, m), MissingParen)
  {
    WrittenIsPrint(e);
    PrintHasNoEnd(e, COMMA);
    RunIsEval(e, m);
    var text, r := [LPar] + Print(e, COMMA), Outcome(e, m);
    var s := Begin(text, m);
    var s1 := Advance(s, m, LPar, Print(e, COMMA));
    assert Stream(s1) == Print(e, COMMA) + [];
    var v, s' := ParsePrint(e, COMMA, s1, m, []);
    Unclosed(r, m, s, s1, v, s');
    FailsAll(PRIMARY, text, m, s, r, MissingParen);
  }

  lemma Unclosed(r: Meaning, m: Env, s: State, s1: State, v: word, s': State)
    requires Ready(s, m) && s.curtok == LPar && ExprParse.Reads(s, s1) && Moved(s, s1, m) && Loaded(s1, m)
    requires Parsed(r, COMMA, s1, m, [], v, s')
    ensures FailsAt(PRIMARY, s, Either(r, MissingParen), r.m)
  {
    assert Show(0);
    PrimaryParens(s);
    if r.Value? {
      TailStops(COMMA, v, s');
      assert s'.curtok == End;
    } else {
      ParensFail(s, s1, r.error, Text(r.m));
    }
  }

  // ----- operands that are missing -----

  lemma {:induction false} NothingThere(k: nat, s: State, m: Env)
    requires k <= PRIMARY && Ready(s, m) && s.curtok == End
    ensures FailsAt(k, s, OperandExpected, m)
    decreases PRIMARY - k
  {
    if k == PRIMARY {
      assert Parse(PRIMARY, s) == Primary(s) == Fail(OperandExpected, s.store);
    } else {
      NothingThere(k + 1, s, m);
      FailsOnce(k + 1, s, OperandExpected, m);
    }
  }

  /** An operator with nothing after it. */
  lemma MissingOperand(l: Expr, tl: seq<Token>, op: BinOp, m: Env)
    requires Spells(l, tl, if op == Power then Rank(Bin(op)) + 1 else Rank(Bin(op)))
    ensures Refused(tl + [Bin(op)], m, Outcome(l, m), OperandExpected)
  {
    var k := OpLevel(op);
    LeftIsPrint(l, tl, op);
    PrintHasNoEnd(l, LeftLevel(k));
    RunIsEval(l, m);
    var text, r := tl + [Bin(op)], Outcome(l, m);
    var s := Begin(text, m);
    OperatorFails(l, op, m, s);
    FailsAll(k, text, m, s, r, OperandExpected);
  }

  lemma LeftIsPrint(l: Expr, tl: seq<Token>, op: BinOp)
    requires Spells(l, tl, if op == Power then Rank(Bin(op)) + 1 else Rank(Bin(op)))
    ensures tl == Print(l, LeftLevel(OpLevel(op)))
  {
    var k := OpLevel(op);
    RanksOfOperators(op);
    SideText(l, k, k == POWER);
    assert Show(0);
  }

  lemma OperatorFails(l: Expr, op: BinOp, m: Env, s: State)
    requires WellFormed(l) && Ready(s, m) && Loaded(s, m) && s.noeval == 0
    requires Stream(s) == Print(l, LeftLevel(OpLevel(op))) + [Bin(op)]
    ensures var r := Run(l, m, false); FailsAt(OpLevel(op), s, Either(r, OperandExpected), r.m)
  {
    var k, r := OpLevel(op), Run(l, m, false);
    var v, s1 := ParsePrint(l, LeftLevel(k), s, m, [Bin(op)]);
    if r.Value? {
      Peek(s1, Bin(op), []);
      var s2 := Advance(s1, r.m, Bin(op), []);
      NothingThere(OperandLevel(k), s2, r.m);
      OperatorEnds(r, op, m, s, v, s1, s2);
    } else {
      OperandFails(r, op, m, s, v, s1);
    }
  }

  lemma OperandFails(r: Meaning, op: BinOp, m: Env, s: State, v: word, s1: State)
    requires r.Error? && Ready(s, m) && Parsed(r, LeftLevel(OpLevel(op)), s, m, [Bin(op)], v, s1)
    ensures FailsAt(OpLevel(op), s, r.error, r.m)
  {
    var k := OpLevel(op);
    assert FailsAt(LeftLevel(k), s, r.error, r.m) by {
      assert Show(0);
    }
    if k == POWER {
      FailsOnce(UNARY, s, r.error, r.m);
    }
  }

  lemma OperatorEnds(r: Meaning, op: BinOp, m: Env, s: State, v: word, s1: State, s2: State)
    requires r.Value? && Ready(s, m) && Parsed(r, LeftLevel(OpLevel(op)), s, m, [Bin(op)], v, s1)
    requires s1.curtok == Bin(op) && ExprParse.Reads(s1, s2) && Moved(s1, s2, r.m) && s2.curtok == End
    requires FailsAt(OperandLevel(OpLevel(op)), s2, OperandExpected, r.m)
    ensures FailsAt(OpLevel(op), s, OperandExpected, r.m)
  {
    var k := OpLevel(op);
    assert Show(0);
    TailLoops(k, v, s1);
    LoopFails(k, v, s1, s2, OperandExpected, Text(r.m));
  }

  // ----- conditionals -----

  /** A condition and a question mark with nothing after it, or only a colon. */
  lemma MissingBranch(c: Expr, tc: seq<Token>, rest: seq<Token>, m: Env)
    requires Spells(c, tc, Rank(Ques) + 1) && (rest == [] || rest == [Col])
    ensures Refused(tc + [Ques] + rest, m, Outcome(c, m), ExpressionExpected)
  {
    ConditionIsPrint(c, tc);
    PrintHasNoEnd(c, LOR);
    RunIsEval(c, m);
    var text, r := tc + [Ques] + rest, Outcome(c, m);
    assert text == Print(c, LOR) + ([Ques] + rest);
    var s := Begin(text, m);
    var v, s1 := ParsePrint(c, LOR, s, m, [Ques] + rest);
    if r.Value? {
      Peek(s1, Ques, rest);
      var s2 := Advance(s1, r.m, Ques, rest);
      BranchMissing(r, m, s, [Ques] + rest, v, s1, s2);
    } else {
      ConditionFails(r, m, s, [Ques] + rest, v, s1);
    }
    FailsAll(COND, text, m, s, r, ExpressionExpected);
  }

  lemma ConditionIsPrint(c: Expr, tc: seq<Token>)
    requires Spells(c, tc, Rank(Ques) + 1)
    ensures tc == Print(c, LOR)
  {
    RanksOfOthers();
    SideText(c, COND, true);
    assert Show(0);
  }

  lemma ConditionFails(r: Meaning, m: Env, s: State, rest: seq<Token>, v: word, s1: State)
    requires r.Error? && Ready(s, m) && Parsed(r, LOR, s, m, rest, v, s1)
    ensures FailsAt(COND, s, r.error, r.m)
  {
    assert FailsAt(LOR, s, r.error, r.m) by {
      assert Show(0);
    }
    FailsOnce(LOR, s, r.error, r.m);
  }

  lemma BranchMissing(r: Meaning, m: Env, s: State, rest: seq<Token>, v: word, s1: State, s2: State)
    requires r.Value? && Ready(s, m) && Parsed(r, LOR, s, m, rest, v, s1)
    requires s1.curtok == Ques && ExprParse.Reads(s1, s2) && Moved(s1, s2, r.m)
    requires s2.curtok == End || s2.curtok == Col
    ensures FailsAt(COND, s, ExpressionExpected, r.m)
  {
    assert Show(0);
    TailStops(LOR, v, s1);
    assert TailCond(v, s1) == Fail(ExpressionExpected, s2.store);
  }

  /** A condition and one branch, without a colon.  The branch is skipped if the condition is 0. */
  lemma MissingColon(c: Expr, tc: seq<Token>, e: Expr, m: Env)
    requires Spells(c, tc, Rank(Ques) + 1) && WellFormed(e)
    ensures var r := Outcome(c, m);
            Refused(tc + [Ques] + Written(e), m, if r.Error? then r else Run(e, r.m, r.v == 0), ColonExpected)
  {
    ConditionIsPrint(c, tc);
    WrittenIsPrint(e);
    PrintHasNoEnd(c, LOR);
    PrintHasNoEnd(e, COMMA);
    RunIsEval(c, m);
    var text, r := tc + [Ques] + Written(e), Outcome(c, m);
    assert text == Print(c, LOR) + ([Ques] + (Print(e, COMMA) + []));
    var s := Begin(text, m);
    ColonFails(c, e, m, s);
    FailsAll(COND, text, m, s, if r.Error? then r else Run(e, r.m, r.v == 0), ColonExpected);
  }

  lemma ColonFails(c: Expr, e: Expr, m: Env, s: State)
    requires WellFormed(c) && WellFormed(e) && Ready(s, m) && Loaded(s, m) && s.noeval == 0
    requires Stream(s) == Print(c, LOR) + ([Ques] + (Print(e, COMMA) + []))
    ensures var r := Run(c, m, false);
            var q := if r.Error? then r else Run(e, r.m, r.v == 0);
            FailsAt(COND, s, Either(q, ColonExpected), q.m)
  {
    var r := Run(c, m, false);
    var v, s1 := ParsePrint(c, LOR, s, m, [Ques] + (Print(e, COMMA) + []));
    if r.Value? {
      Peek(s1, Ques, Print(e, COMMA) + []);
      var s2 := Advance(s1, r.m, Ques, Print(e, COMMA) + []);
      FirstToken(e, COMMA);
      assert s2.curtok == Stream(s2)[0] == Print(e, COMMA)[0];
      var w, s3 := ParsePrint(e, COMMA, s2.(noeval := if v == 0 then 1 else 0), r.m, []);
      ColonMissing(r, Run(e, r.m, v == 0), m, s, v, s1, s2, w, s3);
    } else {
      ConditionFails(r, m, s, [Ques] + (Print(e, COMMA) + []), v, s1);
    }
  }

  lemma ColonMissing(r: Meaning, q: Meaning, m: Env, s: State, v: word, s1: State, s2: State, w: word, s3: State)
    requires r.Value? && Ready(s, m) && s.noeval == 0 && Ready(s1, r.m) && s1.noeval == 0 && s1.curtok == Ques
    requires Parsed(r, LOR, s, m, Stream(s1), v, s1) && v == r.v
    requires ExprParse.Reads(s1, s2) && Moved(s1, s2, r.m) && s2.curtok != End && s2.curtok != Col
    requires Ready(s2.(noeval := if v == 0 then 1 else 0), r.m)
    requires Parsed(q, COMMA, s2.(noeval := if v == 0 then 1 else 0), r.m, [], w, s3)
    ensures FailsAt(COND, s, Either(q, ColonExpected), q.m)
  {
    assert Show(0);
    TailStops(LOR, v, s1);
    if q.Value? {
      TailStops(COMMA, w, s3);
    }
    assert TailCond(v, s1) == Fail(Either(q, ColonExpected), Text(q.m));
  }
}
