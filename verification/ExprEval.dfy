/** The evaluator as it runs: global token state updated in place, a stack of saved
    contexts, and errors that jump out leaving the stack to be unwound. */
module ExprEval {
  import opened Folding
  import opened Int64
  import opened ExprMachine
  import opened ExprSteps

  datatype Jump = Fine | LongJmp(error: Error)

  /** EXPR_CONTEXT.  assigntok is not part of it. */
  datatype Context = Context(
    expression: seq<Token>, tp: nat, curtok: Token, lasttok: Token, tokval: word, tokstr: string, noeval: nat)

  class Evaluator {
    var expression: seq<Token>
    var tp: nat
    var curtok: Token
    var lasttok: Token
    var assigntok: BinOp
    var tokval: word
    var tokstr: string
    var noeval: nat
    var exprStack: seq<Context>  // expr_depth is its length
    var store: Store

    ghost function Snap(): State
      reads this
    {
      State(expression, tp, curtok, lasttok, tokval, tokstr, noeval, |exprStack|, store)
    }

    /** The call came out as r.  A jump leaves the contexts pushed since on the stack. */
    ghost predicate Yields(r: Outcome, jump: Jump, val: word, saved: seq<Context>)
      reads this
    {
      match r
      case Ok(v, s) => jump.Fine? && val == v && Snap() == s && exprStack == saved
      case Fail(e, m) =>
        jump == LongJmp(e) && store == m && saved <= exprStack && |exprStack| <= MAX_EXPR_RECURSION_LEVEL
    }

    /** assigntok is a global outside the saved contexts, overwritten by every op= that
        is read, looked ahead at or evaluated inside a variable; yet whenever an op= is
        the current token between calls, assigntok is its operator. */
    ghost predicate Synced(jump: Jump)
      reads this
    {
      jump.Fine? && curtok.OpAssign? ==> assigntok == curtok.aop
    }

    constructor (variables: Store)
      ensures exprStack == [] && noeval == 0 && store == variables
    {
      expression, tp, curtok, lasttok := [], 0, End, End;
      assigntok, tokval, tokstr, noeval := Plus, 0, "", 0;
      exprStack, store := [], variables;
    }

    // ----- contexts -----

    function SaveTok(): Context
      reads this
    {
      Context(expression, tp, curtok, lasttok, tokval, tokstr, noeval)
    }

    method RestoreTok(ec: Context)
      modifies this
      ensures SaveTok() == ec
      ensures exprStack == old(exprStack) && store == old(store) && assigntok == old(assigntok)
    {
      expression, tp, curtok, lasttok := ec.expression, ec.tp, ec.curtok, ec.lasttok;
      tokval, tokstr, noeval := ec.tokval, ec.tokstr, ec.noeval;
    }

    method PushExp() returns (jump: Jump)
      requires |exprStack| <= MAX_EXPR_RECURSION_LEVEL
      modifies this`exprStack
      ensures |exprStack| <= MAX_EXPR_RECURSION_LEVEL
      ensures if old(|exprStack|) == MAX_EXPR_RECURSION_LEVEL
              then jump == LongJmp(RecursionLevelExceeded) && exprStack == old(exprStack)
              else jump == Fine && exprStack == old(exprStack) + [SaveTok()]
    {
      if |exprStack| >= MAX_EXPR_RECURSION_LEVEL {
        return LongJmp(RecursionLevelExceeded);
      }
      exprStack := exprStack + [SaveTok()];
      return Fine;
    }

    method PopExp()
      requires exprStack != []
      modifies this
      ensures var n := old(|exprStack|) - 1; exprStack == old(exprStack)[..n] && SaveTok() == old(exprStack)[n]
      ensures store == old(store) && assigntok == old(assigntok)
    {
      var context := exprStack[|exprStack| - 1];
      exprStack := exprStack[..|exprStack| - 1];
      RestoreTok(context);
    }

    /** expr_unwind: drop every saved context. */
    method Unwind()
      requires exprStack != []
      modifies this`exprStack, this`noeval
      ensures exprStack == [] && noeval == 0
    {
      exprStack := exprStack[..|exprStack| - 1];
      while |exprStack| > 0
        invariant noeval == old(noeval)
      {
        exprStack := exprStack[..|exprStack| - 1];
      }
      noeval := 0;
    }

    /** evalexp, from the top level or from inside another evaluation.  On success the whole
        context is as it was, but with evaluation on; after an error the stack is empty, the
        contexts of the other evaluation included. */
    method EvalExp(text: seq<Token>) returns (valid: bool, val: word)
      requires |exprStack| <= MAX_EXPR_RECURSION_LEVEL
      modifies this
      ensures noeval == 0 && exprStack == if valid then old(exprStack) else []
      ensures var e := EvalExpAt(text, old(store), |old(exprStack)|);
              if e.Ok? then valid && val == e.val && store == e.s.store
              else !valid && val == 0 && store == e.store
      ensures valid ==> SaveTok() == old(SaveTok()).(noeval := 0)
    {
      noeval := 0;
      ghost var s0 := Snap();
      var jump;
      ghost var r;
      jump, val, r := SubExp(text);
      assert Show(0);
      ContextFree(s0, text, old(store));
      if jump != Fine {
        expression, tokstr := [], "";
        Unwind();
        return false, 0;
      }
      return true, val;
    }

    method SubExp(text: seq<Token>) returns (jump: Jump, val: word, ghost r: Outcome)
      requires |exprStack| <= MAX_EXPR_RECURSION_LEVEL
      modifies this
      ensures IsSub(old(Snap()), text, r) && Yields(r, jump, val, old(exprStack))
      ensures jump != Fine ==> |old(exprStack)| < |exprStack| || |old(exprStack)| == MAX_EXPR_RECURSION_LEVEL
      decreases MAX_EXPR_RECURSION_LEVEL - |exprStack|, Rem(Snap()), 0, 0
    {
      ghost var s0 := Snap();
      ghost var r1, r2 := Ok(0, s0), Ok(0, s0);
      val := 0;
      if text == [] {
        SubSteps(s0, text, r1, r2);
        return Fine, 0, Ok(0, s0);
      }
      jump := PushExp();
      if jump != Fine {
        SubSteps(s0, text, r1, r2);
        r := Fail(RecursionLevelExceeded, s0.store);
        return;
      }
      jump, val, r := SubText(text, s0, old(exprStack));
    }

    /** subexpr once the old context has been saved. */
    method SubText(text: seq<Token>, ghost s0: State, ghost saved: seq<Context>)
      returns (jump: Jump, val: word, ghost r: Outcome)
      requires text != [] && |saved| < MAX_EXPR_RECURSION_LEVEL && exprStack == saved + [SaveTok()]
      requires s0 == Snap().(depth := |saved|)
      modifies this
      ensures IsSub(s0, text, r) && Yields(r, jump, val, saved)
      ensures jump != Fine ==> |saved| < |exprStack|
      decreases MAX_EXPR_RECURSION_LEVEL - |exprStack|, Rem(Enter(s0, text)), 22, 0
    {
      expression, tp := text, 0;
      curtok, lasttok := End, End;
      tokstr, tokval := "", 0;
      jump, val, r := WholeText(text, s0);
      if jump == Fine {
        assert exprStack[..|exprStack| - 1] == saved;
        PopExp();
      }
    }

    /** The whole of the current text must be one expression. */
    method WholeText(ghost text: seq<Token>, ghost s0: State) returns (jump: Jump, val: word, ghost r: Outcome)
      requires text != [] && s0.depth < MAX_EXPR_RECURSION_LEVEL && Snap() == Enter(s0, text)
      modifies this
      ensures IsSub(s0, text, r)
      ensures r.Fail? ==> Yields(r, jump, val, old(exprStack))
      ensures r.Ok? ==> jump == Fine && val == r.val && exprStack == old(exprStack) && r.s == s0.(store := store)
      decreases MAX_EXPR_RECURSION_LEVEL - |exprStack|, Rem(Snap()), 21, 0
    {
      val := 0;
      ghost var r1, r2;
      jump, r1 := ReadToken();
      r2 := r1;
      if jump == Fine {
        jump, val, r2 := ExpComma();
        if jump == Fine && curtok != End {
          jump := LongJmp(SyntaxError);
        }
      }
      SubSteps(s0, text, r1, r2);
      r := SubOutcome(s0, text, r1, r2);
    }

    method StrEvaluate(tok: string) returns (jump: Jump, val: word, ghost r: Outcome)
      requires |exprStack| <= MAX_EXPR_RECURSION_LEVEL
      modifies this
      ensures IsStr(old(Snap()), tok, r) && Yields(r, jump, val, old(exprStack))
      decreases MAX_EXPR_RECURSION_LEVEL - |exprStack|, Rem(Snap()), 1, 0
    {
      ghost var s0 := Snap();
      if noeval > 0 || tok !in store {
        StrOff(s0, tok);
        return Fine, 0, Ok(0, s0);
      }
      jump, val, r := SubExp(store[tok]);
      StrSub(s0, tok, r);
    }

    /** readtok: a name is looked up unless an assignment follows, which a second,
        non-evaluating readtok finds out. */
    method ReadToken() returns (jump: Jump, ghost r: Outcome)
      requires |exprStack| <= MAX_EXPR_RECURSION_LEVEL
      modifies this
      ensures IsRead(old(Snap()), r) && Yields(r, jump, 0, old(exprStack)) && Synced(jump)
      decreases MAX_EXPR_RECURSION_LEVEL - |exprStack|, Rem(Snap()), 2, 3 * (|expression| - tp)
    {
      ghost var s0 := Snap();
      jump := Fine;
      if tp >= |expression| || expression[tp] == End {
        PlainRead(s0);
        lasttok, curtok := curtok, End;
        return jump, Ok(0, Snap());
      }
      var t := expression[tp];
      if t.Str? {
        jump, r := ReadName(t.name);
        return;
      }
      PlainRead(s0);
      if t.Num? {
        tokval := t.n;
      } else if t.OpAssign? {
        assigntok := t.aop;
      }
      lasttok := curtok;
      curtok, tp := t, tp + 1;
      r := Ok(0, PlainNext(s0));
    }

    method ReadName(name: string) returns (jump: Jump, ghost r: Outcome)
      requires |exprStack| <= MAX_EXPR_RECURSION_LEVEL && tp < |expression| && expression[tp] == Str(name)
      modifies this
      ensures IsRead(old(Snap()), r) && Yields(r, jump, 0, old(exprStack)) && Synced(jump)
      decreases MAX_EXPR_RECURSION_LEVEL - |exprStack|, Rem(Snap()), 2, 3 * (|expression| - tp) - 1
    {
      ghost var s0 := Snap();
      tokstr := name;
      var peektok := PeekToken();
      if lasttok == PreInc || lasttok == PreDec || peektok != Eq {
        jump, r := LookUpName(name, s0);
      } else {
        r := KeepName(name, s0);
        jump := Fine;
      }
    }

    /** A name that is about to be assigned to. */
    method KeepName(name: string, ghost s0: State) returns (ghost r: Outcome)
      requires |exprStack| <= MAX_EXPR_RECURSION_LEVEL && TokenAt(s0, s0.tp) == Str(name) && !LooksUp(s0)
      requires Snap() == s0.(tokstr := name)
      modifies this`tokval, this`lasttok, this`curtok, this`tp
      ensures IsRead(s0, r) && Yields(r, Fine, 0, old(exprStack)) && Synced(Fine)
    {
      PlainRead(s0);
      r := Ok(0, PlainNext(s0));
      tokval, lasttok := 0, curtok;
      curtok, tp := Str(name), tp + 1;
    }

    method LookUpName(name: string, ghost s0: State) returns (jump: Jump, ghost r: Outcome)
      requires |exprStack| <= MAX_EXPR_RECURSION_LEVEL && TokenAt(s0, s0.tp) == Str(name) && LooksUp(s0)
      requires Snap() == s0.(tokstr := name)
      modifies this
      ensures IsRead(s0, r) && Yields(r, jump, 0, old(exprStack)) && Synced(jump)
      decreases MAX_EXPR_RECURSION_LEVEL - |exprStack|, Rem(Snap()), 1, 1
    {
      ghost var v;
      var val;
      jump, val, v := StrEvaluate(name);
      NameRead(s0, v);
      r := NameOutcome(s0, v);
      if jump == Fine {
        tokval, lasttok := val, curtok;
        curtok, tp := Str(name), tp + 1;
      }
    }

    /** The token after the name at the cursor, read with evaluation off; everything but
        assigntok is put back. */
    method PeekToken() returns (peektok: Token)
      requires |exprStack| <= MAX_EXPR_RECURSION_LEVEL && tp < |expression| && expression[tp].Str?
      modifies this
      ensures Snap() == old(Snap()) && exprStack == old(exprStack)
      ensures peektok == TokenAt(old(Snap()), old(tp) + 1)
      decreases MAX_EXPR_RECURSION_LEVEL - |exprStack|, Rem(Snap()), 2, 3 * (|expression| - tp) - 2
    {
      var ec := SaveTok();
      tokstr, noeval, curtok := "", 1, expression[tp];
      tp := tp + 1;
      ghost var peeked := Snap();
      ghost var ahead;
      var jump;
      jump, ahead := ReadToken();
      LookAhead(peeked, ahead);
      peektok := curtok;
      RestoreTok(ec);
    }

    // ----- the levels -----

    method ExpComma() returns (jump: Jump, val: word, ghost r: Outcome)
      requires |exprStack| <= MAX_EXPR_RECURSION_LEVEL
      modifies this
      ensures IsParse(COMMA, old(Snap()), r) && Yields(r, jump, val, old(exprStack)) && Synced(jump)
      decreases MAX_EXPR_RECURSION_LEVEL - |exprStack|, Rem(Snap()), 20, 0
    {
      ghost var s0 := Snap();
      jump, val, r := ExpAssign();
      Start(COMMA, s0, r);
      if jump != Fine {
        return;
      }
      while curtok == Comma
        invariant jump == Fine && exprStack == old(exprStack) && Synced(jump)
        invariant Reaches(COMMA, s0, val, Snap())
        decreases Rem(Snap())
      {
        var val2;
        jump, val2, r := SecondOperand(COMMA, val, s0);
        if jump != Fine {
          return;
        }
        AfterComma(s0, val, val2, Snap());
        val := val2;
      }
      Stop(COMMA, s0, val, Snap());
      r := Ok(val, Snap());
    }

    method ExpAssign() returns (jump: Jump, val: word, ghost r: Outcome)
      requires |exprStack| <= MAX_EXPR_RECURSION_LEVEL
      modifies this
      ensures IsParse(ASSIGN, old(Snap()), r) && Yields(r, jump, val, old(exprStack)) && Synced(jump)
      decreases MAX_EXPR_RECURSION_LEVEL - |exprStack|, Rem(Snap()), 19, 0
    {
      ghost var s0 := Snap();
      jump, val, r := ExpCond();
      Start(ASSIGN, s0, r);
      if jump != Fine {
        return;
      }
      if !curtok.Eq? && !curtok.OpAssign? {
        Stop(ASSIGN, s0, val, Snap());
        return;
      }
      jump, val, r := AssignPart(val, s0);
    }

    /** expassign from its operator on. */
    method AssignPart(lvalue: word, ghost s0: State) returns (jump: Jump, val: word, ghost r: Outcome)
      requires |exprStack| <= MAX_EXPR_RECURSION_LEVEL && (curtok.Eq? || curtok.OpAssign?)
      requires Reaches(ASSIGN, s0, lvalue, Snap()) && Synced(Fine)
      modifies this
      ensures IsParse(ASSIGN, s0, r) && Yields(r, jump, val, old(exprStack)) && Synced(jump)
      decreases MAX_EXPR_RECURSION_LEVEL - |exprStack|, Rem(Snap()), 18, 1
    {
      ghost var s := Snap();
      ghost var r1, r2 := Ok(0, s), Ok(0, s);
      if !lasttok.Str? {
        AssignSteps(s0, lvalue, s, r1, r2);
        return LongJmp(AssignmentToNonVariable), 0, AssignOutcome(lvalue, s, r1, r2);
      }
      var special, op, lhs := curtok.OpAssign?, assigntok, tokstr;
      val := 0;
      jump, r1 := ReadToken();
      if jump == Fine {
        jump, val, r2 := ExpAssign();
      }
      AssignSteps(s0, lvalue, s, r1, r2);
      r := AssignOutcome(lvalue, s, r1, r2);
      if jump == Fine {
        jump, val := AssignValue(lvalue, special, op, lhs, val, s);
      }
    }

    /** The value assigned, and the assignment. */
    method AssignValue(lvalue: word, special: bool, op: BinOp, lhs: string, v: word, ghost s: State)
      returns (jump: Jump, val: word)
      requires (s.curtok.Eq? || s.curtok.OpAssign?) && special == s.curtok.OpAssign? && lhs == s.tokstr
      requires special ==> op == s.curtok.aop
      requires |exprStack| <= MAX_EXPR_RECURSION_LEVEL && Synced(Fine)
      modifies this`store, this`tokstr
      ensures Yields(AssignResult(lvalue, s, v, old(Snap())), jump, val, old(exprStack)) && Synced(jump)
    {
      jump, val := Fine, v;
      if special {
        if !Assignable(op) {
          return LongJmp(BadAssignOperator), 0;
        }
        if (op == Div || op == Mod) && val == 0 {
          if noeval == 0 {
            return LongJmp(DivisionByZero), 0;
          }
          val := 1;
        }
        val := Combine(op, lvalue, val);
      }
      BindVariable(lhs, val);
      tokstr := "";
    }

    /** expr_bind_variable under the noeval guard. */
    method BindVariable(lhs: string, v: word)
      modifies this`store
      ensures Snap() == Bind(old(Snap()), lhs, v)
    {
      if noeval == 0 {
        store := store[lhs := Itos(v)];
      }
    }

    method ExpCond() returns (jump: Jump, val: word, ghost r: Outcome)
      requires |exprStack| <= MAX_EXPR_RECURSION_LEVEL
      modifies this
      ensures IsParse(COND, old(Snap()), r) && Yields(r, jump, val, old(exprStack)) && Synced(jump)
      decreases MAX_EXPR_RECURSION_LEVEL - |exprStack|, Rem(Snap()), 18, 0
    {
      ghost var s0 := Snap();
      jump, val, r := ExpLor();
      Start(COND, s0, r);
      if jump != Fine {
        return;
      }
      if curtok != Ques {
        Stop(COND, s0, val, Snap());
        return;
      }
      jump, val, r := CondPart(val, s0);
    }

    /** expcond from the question mark on. */
    method CondPart(cval: word, ghost s0: State) returns (jump: Jump, val: word, ghost r: Outcome)
      requires |exprStack| <= MAX_EXPR_RECURSION_LEVEL && curtok == Ques && Reaches(COND, s0, cval, Snap())
      modifies this
      ensures IsParse(COND, s0, r) && Yields(r, jump, val, old(exprStack)) && Synced(jump)
      decreases MAX_EXPR_RECURSION_LEVEL - |exprStack|, Rem(Snap()), 17, 0
    {
      ghost var s := Snap();
      ghost var r1, r2, r3, r4;
      var val1 := 0;
      val := 0;
      jump, r1 := ReadToken();
      r2, r3, r4 := r1, r1, r1;
      if jump == Fine && (curtok == End || curtok == Col) {
        jump := LongJmp(ExpressionExpected);
      }
      if jump == Fine {
        jump, val1, r2 := Branch(COMMA, cval == 0);
      }
      if jump == Fine && curtok != Col {
        jump := LongJmp(ColonExpected);
      }
      if jump == Fine {
        jump, val, r3, r4 := FalsePart(cval, val1);
      }
      CondSteps(s0, cval, s, r1, r2, r3, r4);
      r := CondOutcome(cval, s, r1, r2, r3, r4);
    }

    /** expcond from the colon on. */
    method FalsePart(cval: word, val1: word) returns (jump: Jump, val: word, ghost r3: Outcome, ghost r4: Outcome)
      requires curtok == Col && |exprStack| <= MAX_EXPR_RECURSION_LEVEL
      modifies this
      ensures IsRead(old(Snap()), r3)
      ensures r3.Ok? && r3.s.curtok != End ==>
                IsParse(COND, r3.s.(noeval := old(noeval) + if cval != 0 then 1 else 0), r4)
      ensures Yields(SecondOutcome(cval, val1, old(Snap()), r3, r4), jump, val, old(exprStack)) && Synced(jump)
      decreases MAX_EXPR_RECURSION_LEVEL - |exprStack|, Rem(Snap()), 3, 0
    {
      val := 0;
      jump, r3 := ReadToken();
      r4 := r3;
      if jump == Fine && curtok == End {
        jump := LongJmp(ExpressionExpected);
      } else if jump == Fine {
        jump, val, r4 := Branch(COND, cval != 0);
        if jump == Fine {
          val := if cval != 0 then val1 else val;
          lasttok := Ques;
        }
      }
    }

    /** One branch of `?:`, whose first token has been read; skipped or evaluated. */
    method Branch(k: nat, skip: bool) returns (jump: Jump, val: word, ghost r: Outcome)
      requires (k == COMMA || k == COND) && |exprStack| <= MAX_EXPR_RECURSION_LEVEL
      modifies this
      ensures IsParse(k, old(Snap()).(noeval := old(noeval) + if skip then 1 else 0), r)
      ensures r.Fail? ==> Yields(r, jump, val, old(exprStack))
      ensures r.Ok? ==> jump == Fine && val == r.val && Snap() == r.s.(noeval := old(noeval))
      ensures r.Ok? ==> exprStack == old(exprStack) && Synced(jump)
      decreases MAX_EXPR_RECURSION_LEVEL - |exprStack|, Rem(Snap()), 20, 1
    {
      if skip {
        noeval := noeval + 1;
      }
      if k == COMMA {
        jump, val, r := ExpComma();
      } else {
        jump, val, r := ExpCond();
      }
      if jump == Fine && skip {
        noeval := noeval - 1;
      }
    }

    method ExpLor() returns (jump: Jump, val: word, ghost r: Outcome)
      requires |exprStack| <= MAX_EXPR_RECURSION_LEVEL
      modifies this
      ensures IsParse(LOR, old(Snap()), r) && Yields(r, jump, val, old(exprStack)) && Synced(jump)
      decreases MAX_EXPR_RECURSION_LEVEL - |exprStack|, Rem(Snap()), 17, 0
    {
      ghost var s0 := Snap();
      jump, val, r := ExpLand();
      Start(LOR, s0, r);
      if jump != Fine {
        return;
      }
      while curtok == Lor
        invariant jump == Fine && exprStack == old(exprStack) && Synced(jump)
        invariant Reaches(LOR, s0, val, Snap())
        decreases Rem(Snap())
      {
        var val2;
        jump, val2, r := SecondOperand(LOR, val, s0);
        if jump != Fine {
          return;
        }
        AfterLogical(s0, val, Lor, val2, Snap());
        val := FromBool(val != 0 || val2 != 0);
        lasttok := Lor;
      }
      Stop(LOR, s0, val, Snap());
      r := Ok(val, Snap());
    }

    method ExpLand() returns (jump: Jump, val: word, ghost r: Outcome)
      requires |exprStack| <= MAX_EXPR_RECURSION_LEVEL
      modifies this
      ensures IsParse(LAND, old(Snap()), r) && Yields(r, jump, val, old(exprStack)) && Synced(jump)
      decreases MAX_EXPR_RECURSION_LEVEL - |exprStack|, Rem(Snap()), 16, 0
    {
      ghost var s0 := Snap();
      jump, val, r := ExpBinary(BOR);
      Start(LAND, s0, r);
      if jump != Fine {
        return;
      }
      while curtok == Land
        invariant jump == Fine && exprStack == old(exprStack) && Synced(jump)
        invariant Reaches(LAND, s0, val, Snap())
        decreases Rem(Snap())
      {
        var val2;
        jump, val2, r := SecondOperand(LAND, val, s0);
        if jump != Fine {
          return;
        }
        AfterLogical(s0, val, Land, val2, Snap());
        val := FromBool(val != 0 && val2 != 0);
        lasttok := Land;
      }
      Stop(LAND, s0, val, Snap());
      r := Ok(val, Snap());
    }

    /** expbor, expbxor, expband, exp5, exp4, expshift, exp3 and exp2, which differ only
        in the operators they accept; k says which. */
    method ExpBinary(k: nat) returns (jump: Jump, val: word, ghost r: Outcome)
      requires BOR <= k <= MULTIPLICATIVE && |exprStack| <= MAX_EXPR_RECURSION_LEVEL
      modifies this
      ensures IsParse(k, old(Snap()), r) && Yields(r, jump, val, old(exprStack)) && Synced(jump)
      decreases MAX_EXPR_RECURSION_LEVEL - |exprStack|, Rem(Snap()), 5 + POWER - k, 0
    {
      ghost var s0 := Snap();
      if k == MULTIPLICATIVE {
        jump, val, r := ExpPower();
      } else {
        jump, val, r := ExpBinary(k + 1);
      }
      Start(k, s0, r);
      if jump != Fine {
        return;
      }
      while curtok.Bin? && OpLevel(curtok.op) == k
        invariant jump == Fine && exprStack == old(exprStack) && Synced(jump)
        invariant Reaches(k, s0, val, Snap())
        decreases Rem(Snap())
      {
        var op, val2 := curtok.op, 0;
        jump, val2, r := SecondOperand(k, val, s0);
        if jump != Fine {
          return;
        }
        jump, val, r := Combined(k, op, val, val2, s0);
        if jump != Fine {
          return;
        }
      }
      Stop(k, s0, val, Snap());
      r := Ok(val, Snap());
    }

    /** What the loops do with two operands.  INTMAX_MIN % -1 goes round without setting lasttok. */
    method Combined(k: nat, op: BinOp, v: word, v2: word, ghost s0: State)
      returns (jump: Jump, val: word, ghost r: Outcome)
      requires BOR <= k <= MULTIPLICATIVE && OpLevel(op) == k && Holds(k, s0, v, Bin(op), v2, Snap())
      requires |exprStack| <= MAX_EXPR_RECURSION_LEVEL && Synced(Fine)
      modifies this`lasttok
      ensures jump == Fine ==> Reaches(k, s0, val, Snap()) && Rem(Snap()) == old(Rem(Snap())) && Synced(jump)
      ensures jump != Fine ==> IsParse(k, s0, r) && Yields(r, jump, val, old(exprStack))
    {
      jump, val, r := Fine, 0, Ok(0, s0);
      AfterBinary(s0, v, op, v2, Snap());
      var divisor := v2;
      if (op == Div || op == Mod) && v2 == 0 {
        if noeval == 0 {
          return LongJmp(DivisionByZero), 0, Fail(DivisionByZero, store);
        }
        divisor := 1;
      } else if op == Mod && v == INTMAX_MIN && v2 == -1 {
        return;
      }
      val := Combine(op, v, divisor);
      lasttok := Num(0);
    }

    /** What every loop does at its operator, with v in hand: read on and evaluate the
        second operand, not really evaluating it when v already decides || or &&. */
    method SecondOperand(k: nat, v: word, ghost s0: State) returns (jump: Jump, val: word, ghost r: Outcome)
      requires Reaches(k, s0, v, Snap()) && TokenLevel(curtok) == k && k != ASSIGN && k != COND
      requires |exprStack| <= MAX_EXPR_RECURSION_LEVEL
      modifies this
      ensures jump == Fine ==> Holds(k, s0, v, old(curtok), val, Snap()) && Rem(Snap()) < old(Rem(Snap()))
      ensures jump == Fine ==> exprStack == old(exprStack) && Synced(jump)
      ensures jump != Fine ==> IsParse(k, s0, r) && Yields(r, jump, val, old(exprStack))
      decreases MAX_EXPR_RECURSION_LEVEL - |exprStack|, Rem(Snap()), 3, 0
    {
      ghost var s := Snap();
      val := 0;
      var setNoeval := SkipsMore(k, v);
      if setNoeval {
        noeval := noeval + 1;
      }
      jump, r := ReadToken();
      if jump != Fine {
        ReadFails(k, s0, v, s, r);
        return;
      }
      ghost var s1 := Snap();
      jump, val, r := Operand(OperandLevel(k));
      if jump != Fine {
        OperandFails(k, s0, v, s, s1, r);
        return;
      }
      Again(k, s0, v, s, s1, val, Snap());
      if setNoeval {
        noeval := noeval - 1;
      }
    }

    method Operand(k: nat) returns (jump: Jump, val: word, ghost r: Outcome)
      requires k in {ASSIGN, LAND, BOR, BXOR, BAND, EQUALITY, RELATION, SHIFT, ADDITIVE, MULTIPLICATIVE, POWER}
      requires |exprStack| <= MAX_EXPR_RECURSION_LEVEL
      modifies this
      ensures IsParse(k, old(Snap()), r) && Yields(r, jump, val, old(exprStack)) && Synced(jump)
      decreases MAX_EXPR_RECURSION_LEVEL - |exprStack|, Rem(Snap()), 19, 1
    {
      if k == ASSIGN {
        jump, val, r := ExpAssign();
      } else if k == LAND {
        jump, val, r := ExpLand();
      } else if k == POWER {
        jump, val, r := ExpPower();
      } else {
        jump, val, r := ExpBinary(k);
      }
    }

    method ExpPower() returns (jump: Jump, val: word, ghost r: Outcome)
      requires |exprStack| <= MAX_EXPR_RECURSION_LEVEL
      modifies this
      ensures IsParse(POWER, old(Snap()), r) && Yields(r, jump, val, old(exprStack)) && Synced(jump)
      decreases MAX_EXPR_RECURSION_LEVEL - |exprStack|, Rem(Snap()), 5, 0
    {
      ghost var s0 := Snap();
      jump, val, r := Exp1();
      Start(POWER, s0, r);
      if jump != Fine {
        return;
      }
      while curtok == Bin(Power)
        invariant jump == Fine && exprStack == old(exprStack) && Synced(jump)
        invariant Reaches(POWER, s0, val, Snap())
        decreases Rem(Snap())
      {
        var val2;
        jump, val2, r := SecondOperand(POWER, val, s0);
        if jump != Fine {
          return;
        }
        AfterPower(s0, val, val2, Snap());
        lasttok := Num(0);
        if val2 == 0 {
          return jump, 1, Ok(1, Snap());
        }
        if val2 < 0 {
          return LongJmp(NegativeExponent), 0, Fail(NegativeExponent, store);
        }
        val := IPow(val, val2);
      }
      Stop(POWER, s0, val, Snap());
      r := Ok(val, Snap());
    }

    method Exp1() returns (jump: Jump, val: word, ghost r: Outcome)
      requires |exprStack| <= MAX_EXPR_RECURSION_LEVEL
      modifies this
      ensures IsParse(UNARY, old(Snap()), r) && Yields(r, jump, val, old(exprStack)) && Synced(jump)
      decreases MAX_EXPR_RECURSION_LEVEL - |exprStack|, Rem(Snap()), 4, 0
    {
      ghost var s0 := Snap();
      var op := curtok;
      if !IsUnary(op) {
        jump, val, r := Exp0();
        UnaryPasses(s0, r);
        return;
      }
      ghost var r1, r2;
      val := 0;
      jump, r1 := ReadToken();
      r2 := r1;
      if jump == Fine {
        jump, val, r2 := Exp1();
        if jump == Fine {
          val := ApplyUnary(op, val);
          lasttok := Num(0);
        }
      }
      UnarySteps(s0, r1, r2);
      r := if r1.Fail? then r1 else if r2.Fail? then r2 else Ok(val, Snap());
    }

    method Exp0() returns (jump: Jump, val: word, ghost r: Outcome)
      requires |exprStack| <= MAX_EXPR_RECURSION_LEVEL
      modifies this
      ensures IsParse(PRIMARY, old(Snap()), r) && Yields(r, jump, val, old(exprStack)) && Synced(jump)
      decreases MAX_EXPR_RECURSION_LEVEL - |exprStack|, Rem(Snap()), 3, 5
    {
      if curtok == PreInc || curtok == PreDec {
        jump, val, r := PreStepped();
      } else if curtok == LPar {
        jump, val, r := Parenthesised();
      } else if curtok.Num? {
        ghost var s0 := Snap();
        jump, val, r := FinishOperand(tokval);
        PlainOperand(s0, r);
      } else if curtok.Str? {
        jump, val, r := Named();
      } else {
        NoOperand(Snap());
        return LongJmp(OperandExpected), 0, Fail(OperandExpected, store);
      }
    }

    /** The readtok at the end of every operand. */
    method FinishOperand(v: word) returns (jump: Jump, val: word, ghost r: Outcome)
      requires |exprStack| <= MAX_EXPR_RECURSION_LEVEL
      modifies this
      ensures IsFinish(v, old(Snap()), r) && Yields(r, jump, val, old(exprStack)) && Synced(jump)
      decreases MAX_EXPR_RECURSION_LEVEL - |exprStack|, Rem(Snap()), 3, 0
    {
      ghost var s0 := Snap();
      ghost var read;
      jump, read := ReadToken();
      Finishes(v, s0, read);
      val := v;
      r := if read.Fail? then read else Ok(v, Snap());
    }

    method PreStepped() returns (jump: Jump, val: word, ghost r: Outcome)
      requires |exprStack| <= MAX_EXPR_RECURSION_LEVEL && (curtok == PreInc || curtok == PreDec)
      modifies this
      ensures IsParse(PRIMARY, old(Snap()), r) && Yields(r, jump, val, old(exprStack)) && Synced(jump)
      decreases MAX_EXPR_RECURSION_LEVEL - |exprStack|, Rem(Snap()), 3, 4
    {
      ghost var s0 := Snap();
      var stok := curtok;
      lasttok := curtok;
      ghost var r1, r2;
      val := 0;
      jump, r1 := ReadToken();
      r2 := r1;
      if jump == Fine {
        if !curtok.Str? {
          jump := LongJmp(IdentifierExpected);
        } else {
          val := Stepped(tokval, stok == PreInc);
          BindVariable(tokstr, val);
          curtok := Num(0);
          jump, val, r2 := FinishOperand(val);
        }
      }
      PreOperand(s0, stok == PreInc, r1, r2);
      r := PreOutcome(r1, r2);
    }

    method Parenthesised() returns (jump: Jump, val: word, ghost r: Outcome)
      requires |exprStack| <= MAX_EXPR_RECURSION_LEVEL && curtok == LPar
      modifies this
      ensures IsParse(PRIMARY, old(Snap()), r) && Yields(r, jump, val, old(exprStack)) && Synced(jump)
      decreases MAX_EXPR_RECURSION_LEVEL - |exprStack|, Rem(Snap()), 3, 4
    {
      ghost var s0 := Snap();
      ghost var r1, r2, r3;
      val := 0;
      jump, r1 := ReadToken();
      r2, r3 := r1, r1;
      if jump == Fine {
        jump, val, r2 := ExpComma();
        if jump == Fine {
          if curtok != RPar {
            jump := LongJmp(MissingParen);
          } else {
            jump, val, r3 := FinishOperand(val);
          }
        }
      }
      ParenOperand(s0, r1, r2, r3);
      r := ParenOutcome(r1, r2, r3);
    }

    /** A name, which the token after it may turn into a post-increment. */
    method Named() returns (jump: Jump, val: word, ghost r: Outcome)
      requires |exprStack| <= MAX_EXPR_RECURSION_LEVEL && curtok.Str?
      modifies this
      ensures IsParse(PRIMARY, old(Snap()), r) && Yields(r, jump, val, old(exprStack)) && Synced(jump)
      decreases MAX_EXPR_RECURSION_LEVEL - |exprStack|, Rem(Snap()), 3, 4
    {
      ghost var s0 := Snap();
      val := tokval;
      var ec := SaveTok();
      tokstr, noeval := "", 1;
      ghost var peeked := Snap();
      ghost var ahead;
      jump, ahead := ReadToken();
      LookAhead(peeked, ahead);
      if curtok == PostInc || curtok == PostDec {
        jump, val, r := PostStepped(ec, s0);
      } else {
        RestoreTok(ec);
        jump, val, r := FinishOperand(val);
        PlainOperand(s0, r);
      }
    }

    /** The lookahead found `++` or `--` after the name: the name is bound, and the operator
        is not read again. */
    method PostStepped(ec: Context, ghost s0: State) returns (jump: Jump, val: word, ghost r: Outcome)
      requires |exprStack| <= MAX_EXPR_RECURSION_LEVEL && (curtok == PostInc || curtok == PostDec)
      requires s0.curtok.Str? && TokenAt(s0, s0.tp) == curtok && s0.tokval == ec.tokval == tokval
      requires s0.tokstr == ec.tokstr && s0.noeval == ec.noeval && s0.curtok == ec.curtok
      requires Snap() == s0.(tokstr := "", noeval := 1, lasttok := s0.curtok, curtok := curtok, tp := s0.tp + 1)
      modifies this
      ensures IsParse(PRIMARY, s0, r) && Yields(r, jump, val, old(exprStack)) && Synced(jump)
      decreases MAX_EXPR_RECURSION_LEVEL - |exprStack|, Rem(s0), 3, 3
    {
      var stok := curtok;
      tokstr, noeval, lasttok := ec.tokstr, ec.noeval, ec.curtok;
      BindVariable(tokstr, Stepped(ec.tokval, stok == PostInc));
      curtok := Num(0);
      assert Snap() == PostState(s0, stok == PostInc);
      jump, val, r := FinishOperand(ec.tokval);
      PostOperand(s0, stok == PostInc, r);
    }
  }

  /** The outcome of evaluating a text does not depend on the context it interrupts. */
  lemma ContextFree(s: State, text: seq<Token>, store: Store)
    requires s.depth <= MAX_EXPR_RECURSION_LEVEL && s.noeval == 0 && s.store == store
    ensures var e := EvalExpAt(text, store, s.depth);
            SubExpr(s, text) == if e.Fail? then e else Ok(e.val, s.(store := e.s.store))
  {
    assert Enter(s, text) == Enter(State([], 0, End, End, 0, "", 0, s.depth, store), text);
  }
}
