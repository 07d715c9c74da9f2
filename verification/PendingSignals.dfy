/** Exactly when a `continue` outlives every loop: when a test ends its loop while a
    `continue` meant for all the loops there are is pending. */
module PendingSignals {
  import opened Commands
  import opened Structured

  /** The test has ended a loop at this level, and with a `continue` for every loop up to and
      including this one, which the loop does not take off. */
  predicate EndsContinuing(env: Env, until: bool, t: Result, level: nat) {
    !Ended(t) && LoopEnds(env, until, t) && t.signal == Continues(level)
  }

  // ----- such a loop is reached -----

  predicate Overruns(env: Env, c: Cmd, exempt: bool, level: nat, h: History, fuel: nat)
    decreases fuel, c, 3
  {
    c.Node? && OverrunsBody(env, c.body, Exempt(c, exempt, env.errexit), level, h, fuel)
  }

  predicate OverrunsBody(env: Env, b: Body, e: bool, level: nat, h: History, fuel: nat)
    decreases fuel, b, 2
  {
    match b
    case Simple(action) => OverrunsAction(env, action, e, level, h, fuel)
    case Connect(op, first, second) =>
      var r := Sem(env, first, e || op != Semi, level, h, fuel);
      || Overruns(env, first, e || op != Semi, level, h, fuel)
      || (r.signal.Go? && Proceeds(op, r.status) && Overruns(env, second, e, level, r.history, fuel))
    case If(test, yes, no) =>
      var r := Sem(env, test, true, level, h, fuel);
      || Overruns(env, test, true, level, h, fuel)
      || (r.signal.Go? && r.status == SUCCESS && Overruns(env, yes, e, level, r.history, fuel))
      || (r.signal.Go? && r.status != SUCCESS && Overruns(env, no, e, level, r.history, fuel))
    case Loop(_, _, _) => OverrunsLoop(env, b, e, level + 1, h, fuel)
    case For(list, body) => OverrunsFor(env, body, e, level + 1, h, env.words(list, h), fuel)
    case Case(word, clauses) => OverrunsCase(env, word, clauses, e, level, h, fuel)
    case Group(cmd) => Overruns(env, cmd, e, level, h, fuel)
  }

  predicate OverrunsAction(env: Env, action: Action, e: bool, level: nat, h: History, fuel: nat)
    decreases fuel, action, 0
  {
    action.Run? && action.name in env.funcs && fuel > 0 && Overruns(env, env.funcs[action.name], e, level, h, fuel - 1)
  }

  predicate OverrunsFor(env: Env, body: Cmd, e: bool, level: nat, h: History, left: nat, fuel: nat)
    decreases fuel, body, 4 + left
  {
    left > 0 &&
    var r := Sem(env, body, e, level, h, fuel);
    || Overruns(env, body, e, level, h, fuel)
    || (GoesOn(r.signal) && OverrunsFor(env, body, e, level, r.history, left - 1, fuel))
  }

  predicate OverrunsLoop(env: Env, b: Body, e: bool, level: nat, h: History, fuel: nat)
    requires b.Loop?
    decreases fuel, b, 1
  {
    var t := Sem(env, b.test, true, level, h, fuel);
    || Overruns(env, b.test, true, level, h, fuel)
    || EndsContinuing(env, b.until, t, level)
    || (!Ended(t) && !LoopEnds(env, b.until, t) && OverrunsRound(env, b, e, level, t, fuel))
  }

  /** The body after test t, or a later round. */
  predicate OverrunsRound(env: Env, b: Body, e: bool, level: nat, t: Result, fuel: nat)
    requires b.Loop?
    decreases fuel, b, 0
  {
    var r := if t.signal.Go? then Sem(env, b.body, e, level, t.history, fuel) else t;
    || (t.signal.Go? && Overruns(env, b.body, e, level, t.history, fuel))
    || (GoesOn(r.signal) && fuel > 0 && OverrunsLoop(env, b, e, level, r.history, fuel - 1))
  }

  predicate OverrunsCase(env: Env, word: string, cl: Clauses, e: bool, level: nat, h: History, fuel: nat)
    decreases fuel, cl, 1
  {
    cl.Clause? &&
    if env.matches(word, cl.pattern, h) then OverrunsClause(env, word, cl, e, level, h, fuel)
    else OverrunsCase(env, word, cl.rest, e, level, h, fuel)
  }

  predicate OverrunsClause(env: Env, word: string, cl: Clauses, e: bool, level: nat, h: History, fuel: nat)
    requires cl.Clause?
    decreases fuel, cl, 0
  {
    var r := Sem(env, cl.cmd, e, level, h, fuel);
    || Overruns(env, cl.cmd, e, level, h, fuel)
    || (r.signal.Go? && cl.ending == FallThrough && cl.rest.Clause?
        && OverrunsClause(env, word, cl.rest, e, level, r.history, fuel))
    || (r.signal.Go? && cl.ending == TestNext && OverrunsCase(env, word, cl.rest, e, level, r.history, fuel))
  }

  // ----- then, and only then, the signal is for more loops than there are -----

  predicate Exceeds(r: Result, level: nat) { (r.signal.Breaks? || r.signal.Continues?) && r.signal.n > level }

  predicate Exact(r: Result, level: nat, overruns: bool) { Ended(r) || (Exceeds(r, level) <==> overruns) }

  lemma {:induction false} SemExact(env: Env, c: Cmd, exempt: bool, level: nat, h: History, fuel: nat)
    ensures Exact(Sem(env, c, exempt, level, h, fuel), level, Overruns(env, c, exempt, level, h, fuel))
    decreases fuel, c, 3
  {
    if c.Node? {
      BodyExact(env, c.body, Exempt(c, exempt, env.errexit), c.invert, level, h, fuel);
    }
  }

  lemma {:induction false} BodyExact(env: Env, b: Body, e: bool, invert: bool, level: nat, h: History, fuel: nat)
    ensures Exact(SemBody(env, b, e, invert, level, h, fuel), level, OverrunsBody(env, b, e, level, h, fuel))
    decreases fuel, b, 2
  {
    match b
    case Simple(action) => ActionExact(env, action, e, level, h, fuel);
    case Connect(op, first, second) =>
      SemExact(env, first, e || op != Semi, level, h, fuel);
      SemExact(env, second, e, level, Sem(env, first, e || op != Semi, level, h, fuel).history, fuel);
    case If(test, yes, no) =>
      SemExact(env, test, true, level, h, fuel);
      var t := Sem(env, test, true, level, h, fuel);
      SemExact(env, if t.status == SUCCESS then yes else no, e, level, t.history, fuel);
    case Loop(_, _, _) => LoopExact(env, b, e, level + 1, h, SUCCESS, fuel);
    case For(list, body) => ForExact(env, body, e, level + 1, h, SUCCESS, env.words(list, h), fuel);
    case Case(word, clauses) => CaseExact(env, word, clauses, e, level, h, SUCCESS, fuel);
    case Group(cmd) => SemExact(env, cmd, e, level, h, fuel);
  }

  lemma {:induction false} ActionExact(env: Env, action: Action, e: bool, level: nat, h: History, fuel: nat)
    ensures Exact(SemAction(env, action, e, level, h, fuel), level, OverrunsAction(env, action, e, level, h, fuel))
    decreases fuel, action, 0
  {
    if action.Run? && action.name in env.funcs && fuel > 0 {
      SemExact(env, env.funcs[action.name], e, level, h, fuel - 1);
    }
  }

  lemma {:induction false} ForExact(env: Env, body: Cmd, e: bool, level: nat, h: History, status: int, left: nat,
          fuel: nat)
    requires level > 0
    ensures Exact(SemFor(env, body, e, level, h, status, left, fuel), level - 1,
                  OverrunsFor(env, body, e, level, h, left, fuel))
    decreases fuel, body, 4 + left
  {
    if left > 0 {
      SemExact(env, body, e, level, h, fuel);
      var r := Sem(env, body, e, level, h, fuel);
      ForExact(env, body, e, level, r.history, r.status, left - 1, fuel);
    }
  }

  lemma {:induction false} LoopExact(env: Env, b: Body, e: bool, level: nat, h: History, status: int, fuel: nat)
    requires b.Loop? && level > 0
    ensures Exact(SemLoop(env, b, e, level, h, status, fuel), level - 1, OverrunsLoop(env, b, e, level, h, fuel))
    decreases fuel, b, 1
  {
    SemExact(env, b.test, true, level, h, fuel);
    var t := Sem(env, b.test, true, level, h, fuel);
    if !Ended(t) && !LoopEnds(env, b.until, t) {
      RoundExact(env, b, e, level, t, fuel);
    }
  }

  lemma {:induction false} RoundExact(env: Env, b: Body, e: bool, level: nat, t: Result, fuel: nat)
    requires b.Loop? && level > 0 && Counted(t) && !Ended(t)
    ensures var r := if t.signal.Go? then Sem(env, b.body, e, level, t.history, fuel) else t;
            Exact(Round(env, b, e, level, r, fuel), level - 1,
                    Exceeds(t, level) || OverrunsRound(env, b, e, level, t, fuel))
    decreases fuel, b, 0
  {
    SemExact(env, b.body, e, level, t.history, fuel);
    var r := if t.signal.Go? then Sem(env, b.body, e, level, t.history, fuel) else t;
    if GoesOn(r.signal) && fuel > 0 {
      LoopExact(env, b, e, level, r.history, r.status, fuel - 1);
    }
  }

  lemma {:induction false} CaseExact(env: Env, word: string, cl: Clauses, e: bool, level: nat, h: History, status: int,
          fuel: nat)
    ensures Exact(SemCase(env, word, cl, e, level, h, status, fuel), level,
                  OverrunsCase(env, word, cl, e, level, h, fuel))
    decreases fuel, cl, 1
  {
    if cl.Clause? {
      if env.matches(word, cl.pattern, h) {
        ClauseExact(env, word, cl, e, level, h, fuel);
      } else {
        CaseExact(env, word, cl.rest, e, level, h, status, fuel);
      }
    }
  }

  lemma {:induction false} ClauseExact(env: Env, word: string, cl: Clauses, e: bool, level: nat, h: History, fuel: nat)
    requires cl.Clause?
    ensures Exact(SemClause(env, word, cl, e, level, h, fuel), level, OverrunsClause(env, word, cl, e, level, h, fuel))
    decreases fuel, cl, 0
  {
    SemExact(env, cl.cmd, e, level, h, fuel);
    var r := Sem(env, cl.cmd, e, level, h, fuel);
    if cl.ending == FallThrough && cl.rest.Clause? {
      ClauseExact(env, word, cl.rest, e, level, r.history, fuel);
    } else {
      CaseExact(env, word, cl.rest, e, level, r.history, r.status, fuel);
    }
  }
}
