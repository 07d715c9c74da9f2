/** Variables whose values name other variables: a chain of them is followed to its end, up to
    the limit on nesting, and a circle of them always meets that limit. */
module References {
  import opened Folding
  import opened Int64
  import opened ExprMachine
  import opened ExprTree
  import opened ExprParse

  /** A name at the end of a text. */
  lemma NameOperand(s: State)
    requires s.depth <= MAX_EXPR_RECURSION_LEVEL && s.curtok.Str? && TokenAt(s, s.tp) == End
    ensures Unary(s) == Ok(s.tokval, s.(lasttok := s.curtok, curtok := End))
  {
    EndOfText(s);
    assert Unary(s) == Primary(s) == Finish(s.tokval, s);
  }

  /** The state in which the name that is a whole text is looked up. */
  function Inside(s: State, x: string): State { Enter(s, [Str(x)]).(tokstr := x) }

  lemma NameRead(s: State, x: string)
    requires s.depth < MAX_EXPR_RECURSION_LEVEL
    ensures ReadTok(Enter(s, [Str(x)])) == NameOutcome(Enter(s, [Str(x)]), StrEval(Inside(s, x), x))
  {
    var s0 := Enter(s, [Str(x)]);
    assert TokenAt(s0, 0) == Str(x) && LooksUp(s0);
  }

  /** A text that is one name has the value of the variable, or fails as it does. */
  lemma NameAlone(s: State, x: string, r: Outcome)
    requires s.depth < MAX_EXPR_RECURSION_LEVEL && r == StrEval(Inside(s, x), x)
    requires r.Ok? ==> r.s == Inside(s, x)
    ensures SubExpr(s, [Str(x)]) == if r.Ok? then Ok(r.val, s) else r
  {
    NameRead(s, x);
    if r.Ok? {
      var s1 := Inside(s, x).(tokval := r.val, lasttok := End, curtok := Str(x), tp := 1);
      NameOperand(s1);
      var s2 := s1.(lasttok := s1.curtok, curtok := End);
      Climb(COMMA, UNARY, r.val, s1, s2);
      SubRuns(s, [Str(x)], s1);
    }
  }

  /** Each name but the last stands for the next; the last is the number v. */
  predicate Linked(store: ExprMachine.Store, names: seq<string>, v: word) {
    && names != [] && (forall i :: 0 <= i < |names| ==> names[i] in store)
    && (forall i, j :: 0 <= i && j == i + 1 < |names| ==> store[names[i]] == [Str(names[j])])
    && store[names[|names| - 1]] == Itos(v)
  }

  lemma {:induction false} ChainFrom(s: State, names: seq<string>, i: nat, v: word)
    requires Linked(s.store, names, v) && i < |names| && s.noeval == 0 && s.depth <= MAX_EXPR_RECURSION_LEVEL
    ensures StrEval(s, names[i]) ==
            if s.depth + (|names| - i) <= 1024 then Ok(v, s) else Fail(RecursionLevelExceeded, s.store)
    decreases |names| - i
  {
    var text := s.store[names[i]];
    assert StrEval(s, names[i]) == SubExpr(s, text);
    assert text == if i == |names| - 1 then Itos(v) else [Str(names[i + 1])];
    if s.depth == MAX_EXPR_RECURSION_LEVEL {
      TooDeep(s, text);
    } else if i == |names| - 1 {
      ReadsBack(s, v);
    } else {
      var next := names[i + 1];
      ChainFrom(Inside(s, next), names, i + 1, v);
      NameAlone(s, next, StrEval(Inside(s, next), next));
    }
  }

  lemma TooDeep(s: State, text: seq<Token>)
    requires s.depth == MAX_EXPR_RECURSION_LEVEL && text != []
    ensures SubExpr(s, text) == Fail(RecursionLevelExceeded, s.store)
  {
  }

  /** A chain of up to 1023 variables has the value at its end; a longer one is an error. */
  lemma ChainLimit(store: ExprMachine.Store, names: seq<string>, v: word)
    requires Linked(store, names, v)
    ensures var out := EvalExp([Str(names[0])], store);
            if |names| <= 1023 then out.Ok? && out.val == v && out.s.store == store
            else out == Fail(RecursionLevelExceeded, store)
  {
    var top := State([], 0, End, End, 0, "", 0, 0, store);
    ChainFrom(Inside(top, names[0]), names, 0, v);
    NameAlone(top, names[0], StrEval(Inside(top, names[0]), names[0]));
  }

  /** Every one of these names stands for another one of them. */
  ghost predicate Circular(store: ExprMachine.Store, names: set<string>) {
    forall x :: x in names ==> x in store && exists y :: y in names && store[x] == [Str(y)]
  }

  lemma {:induction false} CircleFrom(s: State, names: set<string>, x: string)
    requires Circular(s.store, names) && x in names && s.noeval == 0 && s.depth <= MAX_EXPR_RECURSION_LEVEL
    ensures StrEval(s, x) == Fail(RecursionLevelExceeded, s.store)
    decreases MAX_EXPR_RECURSION_LEVEL - s.depth
  {
    var text := s.store[x];
    assert StrEval(s, x) == SubExpr(s, text);
    var y :| y in names && text == [Str(y)];
    if s.depth == MAX_EXPR_RECURSION_LEVEL {
      TooDeep(s, text);
    } else {
      CircleFrom(Inside(s, y), names, y);
      NameAlone(s, y, StrEval(Inside(s, y), y));
    }
  }

  /** Names that only stand for one another have no value; looking one up ends with an error. */
  lemma CircleFails(store: ExprMachine.Store, names: set<string>, x: string)
    requires Circular(store, names) && x in names
    ensures EvalExp([Str(x)], store) == Fail(RecursionLevelExceeded, store)
  {
    var top := State([], 0, End, End, 0, "", 0, 0, store);
    CircleFrom(Inside(top, x), names, x);
    NameAlone(top, x, StrEval(Inside(top, x), x));
  }
}
