/** Outcomes of the evaluator's functions as facts about given states, and the rules
    by which the loops of the imperative evaluator compose them.  The equations
    stand under the trigger `Show`. */
module ExprSteps {
  import opened Folding
  import opened Int64
  import opened ExprMachine

  ghost predicate IsRead(s: State, r: Outcome) {
    && s.depth <= MAX_EXPR_RECURSION_LEVEL && Keeps(s, r)
    && (r.Ok? ==> r.val == 0 && (s.curtok != End ==> Rem(r.s) < Rem(s)))
    && forall z: nat {:trigger Show(z)} :: Show(z) ==> ReadTok(s) == r
  }

  ghost predicate IsParse(k: nat, s: State, r: Outcome) {
    && k <= PRIMARY && s.depth <= MAX_EXPR_RECURSION_LEVEL && Keeps(s, r)
    && forall z: nat {:trigger Show(z)} :: Show(z) ==> Parse(k, s) == r
  }

  ghost predicate IsSub(s: State, text: seq<Token>, r: Outcome) {
    && s.depth <= MAX_EXPR_RECURSION_LEVEL && Keeps(s, r)
    && (r.Ok? ==> r.s == s.(store := r.s.store))
    && forall z: nat {:trigger Show(z)} :: Show(z) ==> SubExpr(s, text) == r
  }

  ghost predicate IsStr(s: State, name: string, r: Outcome) {
    && s.depth <= MAX_EXPR_RECURSION_LEVEL && Keeps(s, r)
    && (r.Ok? ==> r.s == s.(store := r.s.store))
    && forall z: nat {:trigger Show(z)} :: Show(z) ==> StrEval(s, name) == r
  }

  /** Level k, started in s0, has v in hand in state s. */
  ghost predicate Reaches(k: nat, s0: State, v: word, s: State) {
    && k <= POWER && s0.depth <= MAX_EXPR_RECURSION_LEVEL && Keeps(s0, Ok(v, s))
    && forall z: nat {:trigger Show(z)} :: Show(z) ==> Parse(k, s0) == Tail(k, v, s)
  }

  // ----- the loops -----

  lemma Start(k: nat, s0: State, r: Outcome)
    requires k <= POWER && IsParse(k + 1, s0, r)
    ensures r.Ok? ==> Reaches(k, s0, r.val, r.s)
    ensures r.Fail? ==> IsParse(k, s0, r)
  {
    assert Show(0);
  }

  lemma Stop(k: nat, s0: State, v: word, s: State)
    requires Reaches(k, s0, v, s) && TokenLevel(s.curtok) != k
    ensures IsParse(k, s0, Ok(v, s))
  {
    assert Show(0);
    TailStops(k, v, s);
  }

  /** The state from which level k, at its token with v in hand, reads on. */
  function Raised(k: nat, v: word, s: State): State {
    s.(noeval := s.noeval + if SkipsMore(k, v) then 1 else 0)
  }

  lemma ReadFails(k: nat, s0: State, v: word, s: State, r: Outcome)
    requires Reaches(k, s0, v, s) && TokenLevel(s.curtok) == k && k != ASSIGN && k != COND
    requires IsRead(Raised(k, v, s), r) && r.Fail?
    ensures IsParse(k, s0, r)
  {
    assert Show(0);
    TailLoops(k, v, s);
    LoopReadFails(k, v, s, r);
  }

  lemma LoopReadFails(k: nat, v: word, s: State, r: Outcome)
    requires k <= POWER && k != ASSIGN && k != COND && s.depth <= MAX_EXPR_RECURSION_LEVEL
    requires TokenLevel(s.curtok) == k && r.Fail? && ReadTok(Raised(k, v, s)) == r
    ensures TailLoop(k, v, s) == r
  {
  }

  lemma OperandFails(k: nat, s0: State, v: word, s: State, s1: State, r: Outcome)
    requires Reaches(k, s0, v, s) && TokenLevel(s.curtok) == k && k != ASSIGN && k != COND
    requires IsRead(Raised(k, v, s), Ok(0, s1)) && IsParse(OperandLevel(k), s1, r) && r.Fail?
    ensures IsParse(k, s0, r)
  {
    assert Show(0);
    TailLoops(k, v, s);
    LoopFails(k, v, s, s1, r.error, r.store);
    KeepsFail(k, v, s, s1, r);
    assert Parse(k, s0) == r;
  }

  lemma KeepsFail(k: nat, v: word, s: State, s1: State, r: Outcome)
    requires Keeps(Raised(k, v, s), Ok(0, s1)) && Keeps(s1, r) && r.Fail?
    ensures Keeps(s, r)
  {
  }

  /** Level k has read both operands of token t. */
  ghost predicate Holds(k: nat, s0: State, v: word, t: Token, v2: word, s: State) {
    && k <= POWER && k != ASSIGN && k != COND && s0.depth <= MAX_EXPR_RECURSION_LEVEL
    && TokenLevel(t) == k && Keeps(s0, Ok(v2, s))
    && forall z: nat {:trigger Show(z)} :: Show(z) ==> Parse(k, s0) == Fold(k, v, t, v2, s)
  }

  lemma Again(k: nat, s0: State, v: word, s: State, s1: State, v2: word, s2: State)
    requires Reaches(k, s0, v, s) && TokenLevel(s.curtok) == k && k != ASSIGN && k != COND
    requires IsRead(Raised(k, v, s), Ok(0, s1)) && IsParse(OperandLevel(k), s1, Ok(v2, s2))
    ensures Holds(k, s0, v, s.curtok, v2, s2.(noeval := s.noeval))
    ensures Rem(s2) < Rem(s)
  {
    assert Show(0);
    TailLoops(k, v, s);
    LoopFolds(k, v, s, s1, v2, s2);
  }

  lemma AfterComma(s0: State, v: word, v2: word, s: State)
    requires Holds(COMMA, s0, v, Comma, v2, s)
    ensures Reaches(COMMA, s0, v2, s)
  {
    assert Show(0);
  }

  lemma AfterLogical(s0: State, v: word, t: Token, v2: word, s: State)
    requires (t == Lor || t == Land) && Holds(TokenLevel(t), s0, v, t, v2, s)
    ensures Reaches(TokenLevel(t), s0, FromBool(if t == Lor then v != 0 || v2 != 0 else v != 0 && v2 != 0),
                    s.(lasttok := t))
  {
    assert Show(0);
  }

  lemma AfterPower(s0: State, v: word, v2: word, s: State)
    requires Holds(POWER, s0, v, Bin(Power), v2, s)
    ensures v2 == 0 ==> IsParse(POWER, s0, Ok(1, s.(lasttok := Num(0))))
    ensures v2 < 0 ==> IsParse(POWER, s0, Fail(NegativeExponent, s.store))
    ensures v2 > 0 ==> Reaches(POWER, s0, WrapPower(v, v2), s.(lasttok := Num(0)))
  {
    assert Show(0);
  }

  lemma AfterBinary(s0: State, v: word, op: BinOp, v2: word, s: State)
    requires op != Power && Holds(OpLevel(op), s0, v, Bin(op), v2, s)
    ensures var zero := (op == Div || op == Mod) && v2 == 0;
            var k := OpLevel(op);
            if zero && s.noeval == 0 then IsParse(k, s0, Fail(DivisionByZero, s.store))
            else if op == Mod && v == INTMAX_MIN && v2 == -1 then Reaches(k, s0, 0, s)
            else Reaches(k, s0, Combine(op, v, Divisor(op, v2)), s.(lasttok := Num(0)))
  {
    assert Show(0);
  }

  // ----- expassign -----

  lemma AssignSteps(s0: State, v: word, s: State, r1: Outcome, r2: Outcome)
    requires Reaches(ASSIGN, s0, v, s) && TokenLevel(s.curtok) == ASSIGN
    requires s.lasttok.Str? ==> IsRead(s, r1)
    requires s.lasttok.Str? && r1.Ok? ==> IsParse(ASSIGN, r1.s, r2)
    ensures IsParse(ASSIGN, s0, AssignOutcome(v, s, r1, r2))
  {
    assert Show(0);
    TailAssigns(v, s);
    AssignUnfolds(v, s, r1, r2);
    AssignKeeps(s0, v, s, r1, r2);
  }

  /** What expassign does once its right side has been read (r1) and evaluated (r2). */
  function AssignOutcome(v: word, s: State, r1: Outcome, r2: Outcome): Outcome
    requires s.curtok.Eq? || s.curtok.OpAssign?
  {
    if !s.lasttok.Str? then Fail(AssignmentToNonVariable, s.store)
    else if r1.Fail? then r1
    else if r2.Fail? then r2
    else AssignResult(v, s, r2.val, r2.s)
  }

  lemma TailAssigns(v: word, s: State)
    requires s.depth <= MAX_EXPR_RECURSION_LEVEL && TokenLevel(s.curtok) == ASSIGN
    ensures Tail(ASSIGN, v, s) == TailAssign(v, s)
  {
  }

  lemma AssignUnfolds(v: word, s: State, r1: Outcome, r2: Outcome)
    requires s.depth <= MAX_EXPR_RECURSION_LEVEL && (s.curtok.Eq? || s.curtok.OpAssign?)
    requires s.lasttok.Str? ==> ReadTok(s) == r1
    requires s.lasttok.Str? && r1.Ok? ==> r1.s.depth == s.depth && Parse(ASSIGN, r1.s) == r2
    ensures TailAssign(v, s) == AssignOutcome(v, s, r1, r2)
  {
  }

  lemma AssignKeeps(s0: State, v: word, s: State, r1: Outcome, r2: Outcome)
    requires s.curtok.Eq? || s.curtok.OpAssign?
    requires Keeps(s0, Ok(v, s))
    requires s.lasttok.Str? ==> Keeps(s, r1)
    requires s.lasttok.Str? && r1.Ok? ==> Keeps(r1.s, r2)
    ensures Keeps(s0, AssignOutcome(v, s, r1, r2))
  {
  }

  // ----- expcond -----

  /** What expcond does at its question mark: r1 reads on, r2 is the first branch, r3
      reads past the colon, r4 is the second branch. */
  function CondOutcome(v: word, s: State, r1: Outcome, r2: Outcome, r3: Outcome, r4: Outcome): Outcome {
    if r1.Fail? then r1
    else if r1.s.curtok == End || r1.s.curtok == Col then Fail(ExpressionExpected, r1.s.store)
    else if r2.Fail? then r2
    else if r2.s.curtok != Col then Fail(ColonExpected, r2.s.store)
    else SecondOutcome(v, r2.val, s, r3, r4)
  }

  function SecondOutcome(v: word, v1: word, s: State, r3: Outcome, r4: Outcome): Outcome {
    if r3.Fail? then r3
    else if r3.s.curtok == End then Fail(ExpressionExpected, r3.s.store)
    else SecondResult(v, v1, s, r4)
  }

  predicate ReachesFirst(r1: Outcome) { r1.Ok? && r1.s.curtok != End && r1.s.curtok != Col }

  predicate ReachesColon(r1: Outcome, r2: Outcome) { ReachesFirst(r1) && r2.Ok? && r2.s.curtok == Col }

  predicate ReachesSecond(r1: Outcome, r2: Outcome, r3: Outcome) {
    ReachesColon(r1, r2) && r3.Ok? && r3.s.curtok != End
  }

  lemma CondSteps(s0: State, v: word, s: State, r1: Outcome, r2: Outcome, r3: Outcome, r4: Outcome)
    requires Reaches(COND, s0, v, s) && s.curtok == Ques && IsRead(s, r1)
    requires ReachesFirst(r1) ==> IsParse(COMMA, r1.s.(noeval := s.noeval + if v == 0 then 1 else 0), r2)
    requires ReachesColon(r1, r2) ==> IsRead(r2.s.(noeval := s.noeval), r3)
    requires ReachesSecond(r1, r2, r3) ==> IsParse(COND, r3.s.(noeval := s.noeval + if v != 0 then 1 else 0), r4)
    ensures IsParse(COND, s0, CondOutcome(v, s, r1, r2, r3, r4))
  {
    assert Show(0);
    TailConds(v, s);
    if ReachesColon(r1, r2) {
      SecondUnfolds(v, r2.val, r2.s.(noeval := s.noeval), r3, r4);
    }
    CondUnfolds(v, s, r1, r2, r3, r4);
    CondKeeps(s0, v, s, r1, r2, r3, r4);
  }

  lemma TailConds(v: word, s: State)
    requires s.depth <= MAX_EXPR_RECURSION_LEVEL && s.curtok == Ques
    ensures Tail(COND, v, s) == TailCond(v, s)
  {
  }

  lemma SecondUnfolds(v: word, v1: word, s: State, r3: Outcome, r4: Outcome)
    requires s.depth <= MAX_EXPR_RECURSION_LEVEL && s.curtok == Col && ReadTok(s) == r3
    requires r3.Ok? && r3.s.curtok != End ==>
               r3.s.depth == s.depth && Parse(COND, r3.s.(noeval := s.noeval + if v != 0 then 1 else 0)) == r4
    ensures SecondBranch(v, v1, s) == SecondOutcome(v, v1, s, r3, r4)
  {
  }

  lemma CondUnfolds(v: word, s: State, r1: Outcome, r2: Outcome, r3: Outcome, r4: Outcome)
    requires s.depth <= MAX_EXPR_RECURSION_LEVEL && s.curtok == Ques && ReadTok(s) == r1
    requires ReachesFirst(r1) ==>
               r1.s.depth == s.depth && Parse(COMMA, r1.s.(noeval := s.noeval + if v == 0 then 1 else 0)) == r2
    requires ReachesColon(r1, r2) ==>
               r2.s.depth == s.depth &&
               SecondBranch(v, r2.val, r2.s.(noeval := s.noeval)) == SecondOutcome(v, r2.val, s, r3, r4)
    ensures TailCond(v, s) == CondOutcome(v, s, r1, r2, r3, r4)
  {
  }

  lemma CondKeeps(s0: State, v: word, s: State, r1: Outcome, r2: Outcome, r3: Outcome, r4: Outcome)
    requires Keeps(s0, Ok(v, s)) && Keeps(s, r1)
    requires ReachesFirst(r1) ==> Keeps(r1.s.(noeval := s.noeval + if v == 0 then 1 else 0), r2)
    requires ReachesColon(r1, r2) ==> Keeps(r2.s.(noeval := s.noeval), r3)
    requires ReachesSecond(r1, r2, r3) ==> Keeps(r3.s.(noeval := s.noeval + if v != 0 then 1 else 0), r4)
    ensures Keeps(s0, CondOutcome(v, s, r1, r2, r3, r4))
  {
  }

  // ----- exp1 and exp0 -----

  lemma UnarySteps(s: State, r1: Outcome, r2: Outcome)
    requires s.depth <= MAX_EXPR_RECURSION_LEVEL && IsUnary(s.curtok) && IsRead(s, r1)
    requires r1.Ok? ==> IsParse(UNARY, r1.s, r2)
    ensures IsParse(UNARY, s, if r1.Fail? then r1 else if r2.Fail? then r2
                              else Ok(ApplyUnary(s.curtok, r2.val), r2.s.(lasttok := Num(0))))
  {
    assert Show(0);
  }

  lemma UnaryPasses(s: State, r: Outcome)
    requires !IsUnary(s.curtok) && IsParse(PRIMARY, s, r)
    ensures IsParse(UNARY, s, r)
  {
    assert Show(0);
  }

  ghost predicate IsFinish(v: word, s: State, r: Outcome) {
    && s.depth <= MAX_EXPR_RECURSION_LEVEL && Keeps(s, r)
    && forall z: nat {:trigger Show(z)} :: Show(z) ==> Finish(v, s) == r
  }

  lemma Finishes(v: word, s: State, r: Outcome)
    requires IsRead(s, r)
    ensures IsFinish(v, s, if r.Fail? then r else Ok(v, r.s))
  {
    assert Show(0);
  }

  lemma PlainOperand(s: State, r: Outcome)
    requires IsFinish(s.tokval, s, r) && (s.curtok.Num? || s.curtok.Str?)
    requires s.curtok.Str? ==> TokenAt(s, s.tp) != PostInc && TokenAt(s, s.tp) != PostDec
    ensures IsParse(PRIMARY, s, r)
  {
    assert Show(0);
    PrimaryIs(s);
  }

  lemma PostOperand(s: State, up: bool, r: Outcome)
    requires s.curtok.Str? && s.depth <= MAX_EXPR_RECURSION_LEVEL && TokenAt(s, s.tp) == if up then PostInc else PostDec
    requires IsFinish(s.tokval, PostState(s, up), r)
    ensures IsParse(PRIMARY, s, r)
  {
    assert Show(0);
    PrimaryIs(s);
    PostUnfolds(s, up);
  }

  lemma PostUnfolds(s: State, up: bool)
    requires s.curtok.Str? && s.depth <= MAX_EXPR_RECURSION_LEVEL && s.tp < |s.toks|
    ensures PostStep(s, up) == Finish(s.tokval, PostState(s, up))
  {
  }

  lemma PreOperand(s: State, up: bool, r1: Outcome, r2: Outcome)
    requires s.depth <= MAX_EXPR_RECURSION_LEVEL && s.curtok == (if up then PreInc else PreDec)
    requires IsRead(s.(lasttok := s.curtok), r1)
    requires r1.Ok? && r1.s.curtok.Str? ==> IsFinish(Stepped(r1.s.tokval, up), PreState(r1.s, up), r2)
    ensures IsParse(PRIMARY, s, PreOutcome(r1, r2))
  {
    assert Show(0);
    PrimaryIs(s);
    PreUnfolds(s, up, r1, r2);
  }

  function PreOutcome(r1: Outcome, r2: Outcome): Outcome {
    if r1.Fail? then r1 else if !r1.s.curtok.Str? then Fail(IdentifierExpected, r1.s.store) else r2
  }

  lemma PreUnfolds(s: State, up: bool, r1: Outcome, r2: Outcome)
    requires s.depth <= MAX_EXPR_RECURSION_LEVEL && s.curtok == (if up then PreInc else PreDec)
    requires ReadTok(s.(lasttok := s.curtok)) == r1
    requires r1.Ok? && r1.s.curtok.Str? ==>
               r1.s.depth == s.depth && Finish(Stepped(r1.s.tokval, up), PreState(r1.s, up)) == r2
    ensures PreStep(s, up) == PreOutcome(r1, r2)
  {
  }

  lemma ParenOperand(s: State, r1: Outcome, r2: Outcome, r3: Outcome)
    requires s.depth <= MAX_EXPR_RECURSION_LEVEL && s.curtok == LPar && IsRead(s, r1)
    requires r1.Ok? ==> IsParse(COMMA, r1.s, r2)
    requires r1.Ok? && r2.Ok? && r2.s.curtok == RPar ==> IsFinish(r2.val, r2.s, r3)
    ensures IsParse(PRIMARY, s, ParenOutcome(r1, r2, r3))
  {
    assert Show(0);
    PrimaryIs(s);
    ParensUnfold(s, r1, r2, r3);
  }

  function ParenOutcome(r1: Outcome, r2: Outcome, r3: Outcome): Outcome {
    if r1.Fail? then r1 else if r2.Fail? then r2
    else if r2.s.curtok != RPar then Fail(MissingParen, r2.s.store) else r3
  }

  lemma ParensUnfold(s: State, r1: Outcome, r2: Outcome, r3: Outcome)
    requires s.depth <= MAX_EXPR_RECURSION_LEVEL && s.curtok == LPar && ReadTok(s) == r1
    requires r1.Ok? ==> r1.s.depth == s.depth && Parse(COMMA, r1.s) == r2
    requires r1.Ok? && r2.Ok? && r2.s.curtok == RPar ==> r2.s.depth == s.depth && Finish(r2.val, r2.s) == r3
    ensures Parens(s) == ParenOutcome(r1, r2, r3)
  {
  }

  lemma NoOperand(s: State)
    requires s.depth <= MAX_EXPR_RECURSION_LEVEL
    requires s.curtok !in {PreInc, PreDec, LPar} && !s.curtok.Num? && !s.curtok.Str?
    ensures IsParse(PRIMARY, s, Fail(OperandExpected, s.store))
  {
    assert Show(0);
    PrimaryIs(s);
  }

  lemma PrimaryIs(s: State)
    requires s.depth <= MAX_EXPR_RECURSION_LEVEL
    ensures Parse(PRIMARY, s) ==
            if s.curtok == PreInc then PreStep(s, true)
            else if s.curtok == PreDec then PreStep(s, false)
            else if s.curtok == LPar then Parens(s)
            else if s.curtok.Str? && TokenAt(s, s.tp) == PostInc then PostStep(s, true)
            else if s.curtok.Str? && TokenAt(s, s.tp) == PostDec then PostStep(s, false)
            else if s.curtok.Num? || s.curtok.Str? then Finish(s.tokval, s)
            else Fail(OperandExpected, s.store)
  {
    assert Parse(PRIMARY, s) == Primary(s);
  }

  // ----- reading and re-entering -----

  /** readtok on anything but a name that is looked up. */
  lemma PlainRead(s: State)
    requires s.depth <= MAX_EXPR_RECURSION_LEVEL
    requires var t := TokenAt(s, s.tp); t.Str? ==> !LooksUp(s)
    ensures IsRead(s, Ok(0, PlainNext(s)))
  {
    assert Show(0);
  }

  lemma NameRead(s: State, r: Outcome)
    requires TokenAt(s, s.tp).Str? && LooksUp(s)
    requires IsStr(s.(tokstr := TokenAt(s, s.tp).name), TokenAt(s, s.tp).name, r)
    ensures IsRead(s, NameOutcome(s, r))
  {
    assert Show(0);
  }

  /** Looking one token ahead with evaluation off. */
  lemma LookAhead(s: State, r: Outcome)
    requires IsRead(s, r) && s.noeval > 0
    ensures r.Ok? && r.s.curtok == TokenAt(s, s.tp) && r.s.store == s.store
    ensures r.s.curtok == PostInc || r.s.curtok == PostDec ==>
              r.s == s.(lasttok := s.curtok, curtok := r.s.curtok, tp := s.tp + 1)
  {
    assert Show(0);
    var t := TokenAt(s, s.tp);
    if t.Str? {
      var s1 := s.(tokstr := t.name);
      assert StrEval(s1, t.name) == Ok(0, s1);
    }
    assert ReadTok(s).Ok?;
  }

  lemma SubSteps(s: State, text: seq<Token>, r1: Outcome, r2: Outcome)
    requires s.depth <= MAX_EXPR_RECURSION_LEVEL
    requires text != [] && s.depth < MAX_EXPR_RECURSION_LEVEL ==> IsRead(Enter(s, text), r1)
    requires text != [] && s.depth < MAX_EXPR_RECURSION_LEVEL && r1.Ok? ==> IsParse(COMMA, r1.s, r2)
    ensures IsSub(s, text, SubOutcome(s, text, r1, r2))
  {
    assert Show(0);
    SubUnfolds(s, text, r1, r2);
    assert SubExpr(s, text) == SubOutcome(s, text, r1, r2);
    assert Keeps(s, SubExpr(s, text));
    var r := SubOutcome(s, text, r1, r2);
    assert r.Ok? ==> r.s == s.(store := r.s.store);
  }

  lemma SubUnfolds(s: State, text: seq<Token>, r1: Outcome, r2: Outcome)
    requires s.depth <= MAX_EXPR_RECURSION_LEVEL
    requires text != [] && s.depth < MAX_EXPR_RECURSION_LEVEL ==> ReadTok(Enter(s, text)) == r1
    requires text != [] && s.depth < MAX_EXPR_RECURSION_LEVEL && r1.Ok? ==>
               r1.s.depth == s.depth + 1 && Parse(COMMA, r1.s) == r2
    ensures SubExpr(s, text) == SubOutcome(s, text, r1, r2)
  {
  }

  function SubOutcome(s: State, text: seq<Token>, r1: Outcome, r2: Outcome): Outcome {
    if text == [] then Ok(0, s)
    else if s.depth >= MAX_EXPR_RECURSION_LEVEL then Fail(RecursionLevelExceeded, s.store)
    else if r1.Fail? then r1
    else SubResult(s, r2)
  }

  lemma StrOff(s: State, name: string)
    requires s.depth <= MAX_EXPR_RECURSION_LEVEL && (s.noeval > 0 || name !in s.store)
    ensures IsStr(s, name, Ok(0, s))
  {
    assert Show(0);
  }

  lemma StrSub(s: State, name: string, r: Outcome)
    requires s.noeval == 0 && name in s.store && IsSub(s, s.store[name], r)
    ensures IsStr(s, name, r)
  {
    assert Show(0);
  }
}
