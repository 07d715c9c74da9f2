/** Copies of commands: same shape, new addresses, same meaning. */
module Shapes {
  import opened Commands
  import opened Structured

  /** All addresses in c are below a bound. */
  predicate Below(c: Cmd, bound: nat) { c.Null? || (c.id < bound && BelowBody(c.body, bound)) }

  predicate BelowBody(b: Body, bound: nat) {
    match b
    case Simple(_) => true
    case Connect(_, first, second) => Below(first, bound) && Below(second, bound)
    case If(test, yes, no) => Below(test, bound) && Below(yes, bound) && Below(no, bound)
    case Loop(_, test, body) => Below(test, bound) && Below(body, bound)
    case For(_, body) => Below(body, bound)
    case Case(_, clauses) => BelowClauses(clauses, bound)
    case Group(cmd) => Below(cmd, bound)
  }

  predicate BelowClauses(cl: Clauses, bound: nat) {
    cl.NoClause? || (Below(cl.cmd, bound) && BelowClauses(cl.rest, bound))
  }

  /** What a command does depends on its shape alone. */
  lemma {:induction false} ShapeDecides(env: Env, c: Cmd, exempt: bool, level: nat, h: History, fuel: nat)
    ensures Sem(env, Shape(c), exempt, level, h, fuel) == Sem(env, c, exempt, level, h, fuel)
    decreases fuel, c, 2
  {
    if c.Node? {
      BodyDecides(env, c.body, Exempt(c, exempt, env.errexit), c.invert, level, h, fuel);
    }
  }

  lemma {:induction false} BodyDecides(env: Env, b: Body, e: bool, invert: bool, level: nat, h: History, fuel: nat)
    ensures SemBody(env, ShapeBody(b), e, invert, level, h, fuel) == SemBody(env, b, e, invert, level, h, fuel)
    decreases fuel, b, 1
  {
    match b
    case Simple(_) =>
    case Connect(op, first, second) =>
      ShapeDecides(env, first, e || op != Semi, level, h, fuel);
      ShapeDecides(env, second, e, level, Sem(env, first, e || op != Semi, level, h, fuel).history, fuel);
    case If(test, yes, no) =>
      ShapeDecides(env, test, true, level, h, fuel);
      var t := Sem(env, test, true, level, h, fuel);
      ShapeDecides(env, yes, e, level, t.history, fuel);
      ShapeDecides(env, no, e, level, t.history, fuel);
    case Loop(_, _, _) => LoopDecides(env, b, e, level + 1, h, SUCCESS, fuel);
    case For(list, body) => ForDecides(env, body, e, level + 1, h, SUCCESS, env.words(list, h), fuel);
    case Case(word, clauses) => CaseDecides(env, word, clauses, e, level, h, SUCCESS, fuel);
    case Group(cmd) => ShapeDecides(env, cmd, e, level, h, fuel);
  }

  lemma {:induction false} ForDecides(env: Env, body: Cmd, e: bool, level: nat, h: History, status: int, left: nat,
          fuel: nat)
    ensures SemFor(env, Shape(body), e, level, h, status, left, fuel) ==
            SemFor(env, body, e, level, h, status, left, fuel)
    decreases fuel, body, 3 + left
  {
    if left > 0 {
      ShapeDecides(env, body, e, level, h, fuel);
      var r := Sem(env, body, e, level, h, fuel);
      ForDecides(env, body, e, level, r.history, r.status, left - 1, fuel);
    }
  }

  lemma {:induction false} LoopDecides(env: Env, b: Body, e: bool, level: nat, h: History, status: int, fuel: nat)
    requires b.Loop?
    ensures SemLoop(env, ShapeBody(b), e, level, h, status, fuel) == SemLoop(env, b, e, level, h, status, fuel)
    decreases fuel, b, 0
  {
    ShapeDecides(env, b.test, true, level, h, fuel);
    var t := Sem(env, b.test, true, level, h, fuel);
    ShapeDecides(env, b.body, e, level, t.history, fuel);
    if fuel > 0 {
      var r := if t.signal.Go? then Sem(env, b.body, e, level, t.history, fuel) else t;
      LoopDecides(env, b, e, level, r.history, r.status, fuel - 1);
    }
  }

  lemma {:induction false} CaseDecides(env: Env, word: string, cl: Clauses, e: bool, level: nat, h: History,
          status: int, fuel: nat)
    ensures SemCase(env, word, ShapeClauses(cl), e, level, h, status, fuel) ==
            SemCase(env, word, cl, e, level, h, status, fuel)
    decreases fuel, cl, 1
  {
    if cl.Clause? {
      if env.matches(word, cl.pattern, h) {
        ClauseDecides(env, word, cl, e, level, h, fuel);
      } else {
        CaseDecides(env, word, cl.rest, e, level, h, status, fuel);
      }
    }
  }

  lemma {:induction false} ClauseDecides(env: Env, word: string, cl: Clauses, e: bool, level: nat, h: History,
          fuel: nat)
    requires cl.Clause?
    ensures SemClause(env, word, ShapeClauses(cl), e, level, h, fuel) == SemClause(env, word, cl, e, level, h, fuel)
    decreases fuel, cl, 0
  {
    ShapeDecides(env, cl.cmd, e, level, h, fuel);
    var r := Sem(env, cl.cmd, e, level, h, fuel);
    if cl.rest.Clause? {
      ClauseDecides(env, word, cl.rest, e, level, r.history, fuel);
    }
    CaseDecides(env, word, cl.rest, e, level, r.history, r.status, fuel);
  }

  /** Copies have the shape and the well-formedness of what they copy. */
  lemma SameShape(env: Env, c: Cmd, copy: Cmd, exempt: bool, level: nat, h: History, fuel: nat)
    requires Shape(copy) == Shape(c)
    ensures Sem(env, copy, exempt, level, h, fuel) == Sem(env, c, exempt, level, h, fuel)
  {
    ShapeDecides(env, c, exempt, level, h, fuel);
    ShapeDecides(env, copy, exempt, level, h, fuel);
  }
}
