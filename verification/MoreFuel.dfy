/** The bound on loop rounds and function calls only cuts runs short: a run that ends within
    it is the same under any larger bound. */
module MoreFuel {
  import opened Commands
  import opened Structured

  predicate Settled(r: Result, more: Result) { r.signal.OutOfFuel? || more == r }

  lemma {:induction false} SemSettled(env: Env, c: Cmd, exempt: bool, level: nat, h: History, fuel: nat, more: nat)
    requires fuel <= more
    ensures Settled(Sem(env, c, exempt, level, h, fuel), Sem(env, c, exempt, level, h, more))
    decreases fuel, c, 2
  {
    if c.Node? {
      BodySettled(env, c.body, Exempt(c, exempt, env.errexit), c.invert, level, h, fuel, more);
    }
  }

  lemma {:induction false} BodySettled(env: Env, b: Body, e: bool, invert: bool, level: nat, h: History, fuel: nat,
          more: nat)
    requires fuel <= more
    ensures Settled(SemBody(env, b, e, invert, level, h, fuel), SemBody(env, b, e, invert, level, h, more))
    decreases fuel, b, 1
  {
    match b
    case Simple(action) => ActionSettled(env, action, e, level, h, fuel, more);
    case Connect(op, first, second) =>
      SemSettled(env, first, e || op != Semi, level, h, fuel, more);
      SemSettled(env, second, e, level, Sem(env, first, e || op != Semi, level, h, fuel).history, fuel, more);
    case If(test, yes, no) =>
      SemSettled(env, test, true, level, h, fuel, more);
      var t := Sem(env, test, true, level, h, fuel);
      SemSettled(env, if t.status == SUCCESS then yes else no, e, level, t.history, fuel, more);
    case Loop(_, _, _) => LoopSettled(env, b, e, level + 1, h, SUCCESS, fuel, more);
    case For(list, body) => ForSettled(env, body, e, level + 1, h, SUCCESS, env.words(list, h), fuel, more);
    case Case(word, clauses) => CaseSettled(env, word, clauses, e, level, h, SUCCESS, fuel, more);
    case Group(cmd) => SemSettled(env, cmd, e, level, h, fuel, more);
  }

  lemma {:induction false} ActionSettled(env: Env, action: Action, e: bool, level: nat, h: History, fuel: nat,
          more: nat)
    requires fuel <= more
    ensures Settled(SemAction(env, action, e, level, h, fuel), SemAction(env, action, e, level, h, more))
    decreases fuel, action, 0
  {
    if action.Run? && action.name in env.funcs && fuel > 0 {
      SemSettled(env, env.funcs[action.name], e, level, h, fuel - 1, more - 1);
    }
  }

  lemma {:induction false} ForSettled(env: Env, body: Cmd, e: bool, level: nat, h: History, status: int, left: nat,
          fuel: nat, more: nat)
    requires fuel <= more
    ensures Settled(SemFor(env, body, e, level, h, status, left, fuel),
                    SemFor(env, body, e, level, h, status, left, more))
    decreases fuel, body, 3 + left
  {
    if left > 0 {
      SemSettled(env, body, e, level, h, fuel, more);
      var r := Sem(env, body, e, level, h, fuel);
      ForSettled(env, body, e, level, r.history, r.status, left - 1, fuel, more);
    }
  }

  lemma {:induction false} LoopSettled(env: Env, b: Body, e: bool, level: nat, h: History, status: int, fuel: nat,
          more: nat)
    requires fuel <= more && b.Loop?
    ensures Settled(SemLoop(env, b, e, level, h, status, fuel), SemLoop(env, b, e, level, h, status, more))
    decreases fuel, b, 0
  {
    SemSettled(env, b.test, true, level, h, fuel, more);
    var t := Sem(env, b.test, true, level, h, fuel);
    if !Ended(t) && !LoopEnds(env, b.until, t) {
      SemSettled(env, b.body, e, level, t.history, fuel, more);
      var r := if t.signal.Go? then Sem(env, b.body, e, level, t.history, fuel) else t;
      if fuel > 0 {
        LoopSettled(env, b, e, level, r.history, r.status, fuel - 1, more - 1);
      }
    }
  }

  lemma {:induction false} CaseSettled(env: Env, word: string, cl: Clauses, e: bool, level: nat, h: History,
          status: int, fuel: nat, more: nat)
    requires fuel <= more
    ensures Settled(SemCase(env, word, cl, e, level, h, status, fuel),
                    SemCase(env, word, cl, e, level, h, status, more))
    decreases fuel, cl, 1
  {
    if cl.Clause? {
      if env.matches(word, cl.pattern, h) {
        ClauseSettled(env, word, cl, e, level, h, fuel, more);
      } else {
        CaseSettled(env, word, cl.rest, e, level, h, status, fuel, more);
      }
    }
  }

  lemma {:induction false} ClauseSettled(env: Env, word: string, cl: Clauses, e: bool, level: nat, h: History,
          fuel: nat, more: nat)
    requires fuel <= more && cl.Clause?
    ensures Settled(SemClause(env, word, cl, e, level, h, fuel), SemClause(env, word, cl, e, level, h, more))
    decreases fuel, cl, 0
  {
    SemSettled(env, cl.cmd, e, level, h, fuel, more);
    var r := Sem(env, cl.cmd, e, level, h, fuel);
    if cl.ending == FallThrough && cl.rest.Clause? {
      ClauseSettled(env, word, cl.rest, e, level, r.history, fuel, more);
    } else {
      CaseSettled(env, word, cl.rest, e, level, r.history, r.status, fuel, more);
    }
  }
}
