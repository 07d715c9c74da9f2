/** Commands whose loop tests hold no `continue`: their signals never reach past the loops
    around them, and a test needs no treatment of its own. */
module QuietTests {
  import opened Commands
  import opened Structured

  /** Nothing in c can continue a loop; functions named in quiet do not either. */
  predicate NoContinue(c: Cmd, env: Env, quiet: set<string>) { c.Null? || NoContinueBody(c.body, env, quiet) }

  predicate NoContinueBody(b: Body, env: Env, quiet: set<string>) {
    match b
    case Simple(action) => action.Break? || (action.Run? && (action.name !in env.funcs || action.name in quiet))
    case Connect(_, first, second) => NoContinue(first, env, quiet) && NoContinue(second, env, quiet)
    case If(test, yes, no) => NoContinue(test, env, quiet) && NoContinue(yes, env, quiet) && NoContinue(no, env, quiet)
    case Loop(_, test, body) => NoContinue(test, env, quiet) && NoContinue(body, env, quiet)
    case For(_, body) => NoContinue(body, env, quiet)
    case Case(_, clauses) => NoContinueClauses(clauses, env, quiet)
    case Group(cmd) => NoContinue(cmd, env, quiet)
  }

  predicate NoContinueClauses(cl: Clauses, env: Env, quiet: set<string>) {
    cl.NoClause? || (NoContinue(cl.cmd, env, quiet) && NoContinueClauses(cl.rest, env, quiet))
  }

  /** Every loop test in c is free of `continue`. */
  predicate Quiet(c: Cmd, env: Env, quiet: set<string>) { c.Null? || QuietBody(c.body, env, quiet) }

  predicate QuietBody(b: Body, env: Env, quiet: set<string>) {
    match b
    case Simple(_) => true
    case Connect(_, first, second) => Quiet(first, env, quiet) && Quiet(second, env, quiet)
    case If(test, yes, no) => Quiet(test, env, quiet) && Quiet(yes, env, quiet) && Quiet(no, env, quiet)
    case Loop(_, test, body) => NoContinue(test, env, quiet) && Quiet(test, env, quiet) && Quiet(body, env, quiet)
    case For(_, body) => Quiet(body, env, quiet)
    case Case(_, clauses) => QuietClauses(clauses, env, quiet)
    case Group(cmd) => Quiet(cmd, env, quiet)
  }

  predicate QuietClauses(cl: Clauses, env: Env, quiet: set<string>) {
    cl.NoClause? || (Quiet(cl.cmd, env, quiet) && QuietClauses(cl.rest, env, quiet))
  }

  /** The same of every function. */
  ghost predicate QuietTable(env: Env, quiet: set<string>) {
    && (forall f :: f in env.funcs ==> Quiet(env.funcs[f], env, quiet))
    && (forall f :: f in env.funcs && f in quiet ==> NoContinue(env.funcs[f], env, quiet))
  }

  function Uniformly(env: Env): Env { env.(uniform := true) }

  /** The outcome r of a command is that of the uniform semantics u; its signal is for a loop
      that is there; it is no `continue` if none is in the command. */
  predicate Tame(r: Result, u: Result, level: nat, silent: bool) {
    && r == u
    && (r.signal.Breaks? || r.signal.Continues? ==> r.signal.n <= level)
    && (silent ==> !r.signal.Continues?)
  }

  lemma {:induction false} TameSem(env: Env, quiet: set<string>, c: Cmd, exempt: bool, level: nat, h: History,
          fuel: nat)
    requires QuietTable(env, quiet) && Quiet(c, env, quiet)
    ensures Tame(Sem(env, c, exempt, level, h, fuel), Sem(Uniformly(env), c, exempt, level, h, fuel), level,
                 NoContinue(c, env, quiet))
    decreases fuel, c, 2
  {
    if c.Node? {
      TameBody(env, quiet, c.body, Exempt(c, exempt, env.errexit), c.invert, level, h, fuel);
    }
  }

  lemma {:induction false} TameBody(env: Env, quiet: set<string>, b: Body, e: bool, invert: bool, level: nat,
          h: History, fuel: nat)
    requires QuietTable(env, quiet) && QuietBody(b, env, quiet)
    ensures Tame(SemBody(env, b, e, invert, level, h, fuel), SemBody(Uniformly(env), b, e, invert, level, h, fuel),
                 level, NoContinueBody(b, env, quiet))
    decreases fuel, b, 1
  {
    match b
    case Simple(action) => TameAction(env, quiet, action, e, level, h, fuel);
    case Connect(op, first, second) =>
      TameSem(env, quiet, first, e || op != Semi, level, h, fuel);
      TameSem(env, quiet, second, e, level, Sem(env, first, e || op != Semi, level, h, fuel).history, fuel);
    case If(test, yes, no) =>
      TameSem(env, quiet, test, true, level, h, fuel);
      var t := Sem(env, test, true, level, h, fuel);
      TameSem(env, quiet, yes, e, level, t.history, fuel);
      TameSem(env, quiet, no, e, level, t.history, fuel);
    case Loop(_, _, _) => TameLoop(env, quiet, b, e, level + 1, h, SUCCESS, fuel);
    case For(list, body) => TameFor(env, quiet, body, e, level + 1, h, SUCCESS, env.words(list, h), fuel);
    case Case(word, clauses) => TameCase(env, quiet, word, clauses, e, level, h, SUCCESS, fuel);
    case Group(cmd) => TameSem(env, quiet, cmd, e, level, h, fuel);
  }

  lemma {:induction false} TameAction(env: Env, quiet: set<string>, action: Action, e: bool, level: nat, h: History,
          fuel: nat)
    requires QuietTable(env, quiet)
    ensures Tame(SemAction(env, action, e, level, h, fuel), SemAction(Uniformly(env), action, e, level, h, fuel), level,
                 NoContinueBody(Simple(action), env, quiet))
    decreases fuel, action, 0
  {
    if action.Run? && action.name in env.funcs && fuel > 0 {
      TameSem(env, quiet, env.funcs[action.name], e, level, h, fuel - 1);
    }
  }

  lemma {:induction false} TameFor(env: Env, quiet: set<string>, body: Cmd, e: bool, level: nat, h: History,
          status: int, left: nat, fuel: nat)
    requires QuietTable(env, quiet) && Quiet(body, env, quiet) && level > 0
    ensures Tame(SemFor(env, body, e, level, h, status, left, fuel),
                 SemFor(Uniformly(env), body, e, level, h, status, left, fuel), level - 1, NoContinue(body, env, quiet))
    decreases fuel, body, 3 + left
  {
    if left > 0 {
      TameSem(env, quiet, body, e, level, h, fuel);
      var r := Sem(env, body, e, level, h, fuel);
      TameFor(env, quiet, body, e, level, r.history, r.status, left - 1, fuel);
    }
  }

  lemma {:induction false} TameLoop(env: Env, quiet: set<string>, b: Body, e: bool, level: nat, h: History,
          status: int, fuel: nat)
    requires QuietTable(env, quiet) && QuietBody(b, env, quiet) && b.Loop? && level > 0
    ensures Tame(SemLoop(env, b, e, level, h, status, fuel), SemLoop(Uniformly(env), b, e, level, h, status, fuel),
                 level - 1, NoContinueBody(b, env, quiet))
    decreases fuel, b, 0
  {
    TameSem(env, quiet, b.test, true, level, h, fuel);
    var t := Sem(env, b.test, true, level, h, fuel);
    if !Ended(t) && !LoopEnds(env, b.until, t) {
      TameSem(env, quiet, b.body, e, level, t.history, fuel);
      var r := if t.signal.Go? then Sem(env, b.body, e, level, t.history, fuel) else t;
      if fuel > 0 {
        TameLoop(env, quiet, b, e, level, r.history, r.status, fuel - 1);
      }
    }
  }

  lemma {:induction false} TameCase(env: Env, quiet: set<string>, word: string, cl: Clauses, e: bool, level: nat,
          h: History, status: int, fuel: nat)
    requires QuietTable(env, quiet) && QuietClauses(cl, env, quiet)
    ensures Tame(SemCase(env, word, cl, e, level, h, status, fuel),
                 SemCase(Uniformly(env), word, cl, e, level, h, status, fuel), level, NoContinueClauses(cl, env, quiet))
    decreases fuel, cl, 1
  {
    if cl.Clause? {
      if env.matches(word, cl.pattern, h) {
        TameClause(env, quiet, word, cl, e, level, h, fuel);
      } else {
        TameCase(env, quiet, word, cl.rest, e, level, h, status, fuel);
      }
    }
  }

  lemma {:induction false} TameClause(env: Env, quiet: set<string>, word: string, cl: Clauses, e: bool, level: nat,
          h: History, fuel: nat)
    requires QuietTable(env, quiet) && QuietClauses(cl, env, quiet) && cl.Clause?
    ensures Tame(SemClause(env, word, cl, e, level, h, fuel), SemClause(Uniformly(env), word, cl, e, level, h, fuel),
                 level, NoContinueClauses(cl, env, quiet))
    decreases fuel, cl, 0
  {
    TameSem(env, quiet, cl.cmd, e, level, h, fuel);
    var r := Sem(env, cl.cmd, e, level, h, fuel);
    if cl.ending == FallThrough && cl.rest.Clause? {
      TameClause(env, quiet, word, cl.rest, e, level, r.history, fuel);
    } else {
      TameCase(env, quiet, word, cl.rest, e, level, r.history, r.status, fuel);
    }
  }

  /** The condition on tests is needed: after `until continue`, outside every loop, a
      `continue` is still pending. */
  lemma PendingContinue(env: Env, i: nat, j: nat, body: Cmd, exempt: bool, h: History, fuel: nat)
    requires !env.uniform
    ensures var c := Node(i, false, Loop(true, Node(j, false, Simple(Continue(1))), body));
            Sem(env, c, exempt, 0, h, fuel).signal == Continues(1)
  {
    var test := Node(j, false, Simple(Continue(1)));
    var b := Loop(true, test, body);
    assert SemAction(env, Continue(1), true, 1, h, fuel) == Result(SUCCESS, Continues(1), h);
    var done := Finish(env, "continue", true, Result(SUCCESS, Continues(1), h));
    assert SemSimple(env, Continue(1), true, false, 1, h, fuel) == done;
    assert SemBody(env, test.body, true, false, 1, h, fuel) == done;
    assert Sem(env, test, true, 1, h, fuel) == done;
    assert SemLoop(env, b, Exempt(Node(i, false, b), exempt, env.errexit), 1, h, SUCCESS, fuel).signal == Continues(1);
  }
}
