/** `set -e`: the shell ends exactly at the first failing simple command whose failure is not
    ignored, and otherwise runs as it would without. */
module ErrExit {
  import opened Folding
  import opened Commands
  import opened Structured

  predicate Fatal(entry: Entry) { entry.status != SUCCESS && !entry.exempt }

  /** The first fatal entry at or after i. */
  function FirstFatal(h: History, i: nat): (k: nat)
    requires i <= |h|
    ensures i <= k <= |h| && (k < |h| ==> Fatal(h[k]))
    ensures forall m :: i <= m < k ==> !Fatal(h[m])
    decreases |h| - i
  {
    if i == |h| || Fatal(h[i]) then i else FirstFatal(h, i + 1)
  }

  predicate Extends(h: History, h': History) { |h| <= |h'| && h'[..|h|] == h }

  /** r is what becomes of the run `full`, begun at h, if the shell ends at a fatal entry. */
  ghost predicate Cut(h: History, full: Result, r: Result) {
    && !full.signal.Exits? && (r.signal.Exits? || r == full)
    && forall z: nat {:trigger Show(z)} :: Show(z) ==>
      Extends(h, full.history) && CutAt(full, r, FirstFatal(full.history, |h|))
  }

  predicate CutAt(full: Result, r: Result, k: nat)
    requires k <= |full.history|
  {
    r == if k == |full.history| then full else Result(full.history[k].status, Exits, full.history[..k + 1])
  }

  lemma FirstFatalIs(h: History, i: nat, k: nat)
    requires i <= k <= |h| && (k < |h| ==> Fatal(h[k])) && forall m :: i <= m < k ==> !Fatal(h[m])
    ensures FirstFatal(h, i) == k
  {
  }

  /** One run after another. */
  lemma CutThen(h: History, full1: Result, r1: Result, full2: Result, r2: Result)
    requires Cut(h, full1, r1) && Cut(full1.history, full2, r2)
    ensures Cut(h, full2, if r1.signal.Exits? then r1 else r2)
  {
    assert Show(0);
    var k1, k2 := FirstFatal(full1.history, |h|), FirstFatal(full2.history, |full1.history|);
    assert forall m :: 0 <= m < |full1.history| ==> full2.history[m] == full1.history[m];
    assert full2.history[..|h|] == full1.history[..|h|];
    if r1.signal.Exits? {
      FirstFatalIs(full2.history, |h|, k1);
      assert full2.history[..k1 + 1] == full1.history[..k1 + 1];
    } else {
      FirstFatalIs(full2.history, |h|, k2);
    }
  }

  /** A run that adds nothing. */
  lemma CutNothing(h: History, r: Result)
    requires r.history == h && !r.signal.Exits?
    ensures Cut(h, r, r)
  {
  }

  /** Only the history of the run matters. */
  lemma CutAgain(h: History, full: Result, r: Result, full': Result)
    requires Cut(h, full, r) && full'.history == full.history && !full'.signal.Exits?
    ensures Cut(h, full', if r.signal.Exits? then r else full')
  {
    CutNothing(full.history, full');
    CutThen(h, full, r, full', full');
  }

  function WithExit(env: Env): Env { env.(stop := true) }
  function WithoutExit(env: Env): Env { env.(stop := false) }

  /** The theorem, for every command in every context. */
  lemma {:induction false} CutSem(env: Env, c: Cmd, exempt: bool, level: nat, h: History, fuel: nat)
    ensures Cut(h, Sem(WithoutExit(env), c, exempt, level, h, fuel), Sem(WithExit(env), c, exempt, level, h, fuel))
    decreases fuel, c, 2
  {
    var full := Sem(WithoutExit(env), c, exempt, level, h, fuel);
    if c.Node? {
      var e := Exempt(c, exempt, env.errexit);
      CutBody(env, c.body, e, c.invert, level, h, fuel);
      CutAgain(h, SemBody(WithoutExit(env), c.body, e, c.invert, level, h, fuel),
              SemBody(WithExit(env), c.body, e, c.invert, level, h, fuel), full);
    } else {
      CutNothing(h, full);
    }
  }

  lemma {:induction false} CutBody(env: Env, b: Body, e: bool, invert: bool, level: nat, h: History, fuel: nat)
    ensures Cut(h, SemBody(WithoutExit(env), b, e, invert, level, h, fuel),
                SemBody(WithExit(env), b, e, invert, level, h, fuel))
    decreases fuel, b, 1
  {
    match b
    case Simple(action) =>
      CutAction(env, action, e, level, h, fuel);
      CutFinish(h, SemAction(WithoutExit(env), action, e, level, h, fuel),
              SemAction(WithExit(env), action, e, level, h, fuel), env, Name(action), e || invert);
    case Connect(op, first, second) => CutConnect(env, b, e, invert, level, h, fuel);
    case If(test, yes, no) => CutIf(env, b, e, invert, level, h, fuel);
    case Loop(_, _, _) => CutLoop(env, b, e, level + 1, h, SUCCESS, fuel);
    case For(list, body) => CutFor(env, body, e, level + 1, h, SUCCESS, env.words(list, h), fuel);
    case Case(word, clauses) => CutCase(env, word, clauses, e, level, h, SUCCESS, fuel);
    case Group(cmd) => CutSem(env, cmd, e, level, h, fuel);
  }

  lemma CutConnect(env: Env, b: Body, e: bool, invert: bool, level: nat, h: History, fuel: nat)
    requires b.Connect?
    ensures Cut(h, SemBody(WithoutExit(env), b, e, invert, level, h, fuel),
                SemBody(WithExit(env), b, e, invert, level, h, fuel))
    decreases fuel, b, 0
  {
    var e1 := e || b.op != Semi;
    CutSem(env, b.first, e1, level, h, fuel);
    var full, r := Sem(WithoutExit(env), b.first, e1, level, h, fuel), Sem(WithExit(env), b.first, e1, level, h, fuel);
    CutSem(env, b.second, e, level, full.history, fuel);
    CutThen(h, full, r, Sem(WithoutExit(env), b.second, e, level, full.history, fuel),
            Sem(WithExit(env), b.second, e, level, full.history, fuel));
  }

  lemma CutIf(env: Env, b: Body, e: bool, invert: bool, level: nat, h: History, fuel: nat)
    requires b.If?
    ensures Cut(h, SemBody(WithoutExit(env), b, e, invert, level, h, fuel),
                SemBody(WithExit(env), b, e, invert, level, h, fuel))
    decreases fuel, b, 0
  {
    CutSem(env, b.test, true, level, h, fuel);
    var full := Sem(WithoutExit(env), b.test, true, level, h, fuel);
    var r := Sem(WithExit(env), b.test, true, level, h, fuel);
    var next := if full.status == SUCCESS then b.yes else b.no;
    CutSem(env, next, e, level, full.history, fuel);
    CutThen(h, full, r, Sem(WithoutExit(env), next, e, level, full.history, fuel),
            Sem(WithExit(env), next, e, level, full.history, fuel));
  }

  /** The check after a simple command. */
  lemma CutFinish(h: History, full: Result, r: Result, env: Env, name: string, e: bool)
    requires Cut(h, full, r)
    ensures Cut(h, if Ended(full) then full else Finish(WithoutExit(env), name, e, full),
                if Ended(r) then r else Finish(WithExit(env), name, e, r))
  {
    if !Ended(full) {
      var whole := Finish(WithoutExit(env), name, e, full);
      var n := |full.history|;
      assert whole.history[..n] == full.history && whole.history[..n + 1] == whole.history;
      FirstFatalIs(whole.history, n, if Fatal(whole.history[n]) then n else n + 1);
      assert Cut(full.history, whole, Finish(WithExit(env), name, e, full));
      CutThen(h, full, r, whole, Finish(WithExit(env), name, e, full));
    }
  }

  lemma {:induction false} CutAction(env: Env, action: Action, e: bool, level: nat, h: History, fuel: nat)
    ensures Cut(h, SemAction(WithoutExit(env), action, e, level, h, fuel),
                SemAction(WithExit(env), action, e, level, h, fuel))
    decreases fuel, action, 0
  {
    var full := SemAction(WithoutExit(env), action, e, level, h, fuel);
    if action.Run? && action.name in env.funcs && fuel > 0 {
      CutSem(env, env.funcs[action.name], e, level, h, fuel - 1);
      CutAgain(h, Sem(WithoutExit(env), env.funcs[action.name], e, level, h, fuel - 1),
              Sem(WithExit(env), env.funcs[action.name], e, level, h, fuel - 1), full);
    } else {
      CutNothing(h, full);
    }
  }

  lemma {:induction false} CutFor(env: Env, body: Cmd, e: bool, level: nat, h: History, status: int, left: nat,
          fuel: nat)
    ensures Cut(h, SemFor(WithoutExit(env), body, e, level, h, status, left, fuel),
                SemFor(WithExit(env), body, e, level, h, status, left, fuel))
    decreases fuel, body, 3 + left
  {
    if left == 0 {
      CutNothing(h, Result(status, Go, h));
    } else {
      CutSem(env, body, e, level, h, fuel);
      var full, r := Sem(WithoutExit(env), body, e, level, h, fuel), Sem(WithExit(env), body, e, level, h, fuel);
      if !Ended(full) && !GoesOn(full.signal) {
        CutAgain(h, full, r, Leave(full.status, full.signal, full.history));
      }
      CutFor(env, body, e, level, full.history, full.status, left - 1, fuel);
      CutThen(h, full, r, SemFor(WithoutExit(env), body, e, level, full.history, full.status, left - 1, fuel),
              SemFor(WithExit(env), body, e, level, full.history, full.status, left - 1, fuel));
    }
  }

  lemma {:induction false} CutLoop(env: Env, b: Body, e: bool, level: nat, h: History, status: int, fuel: nat)
    requires b.Loop?
    ensures Cut(h, SemLoop(WithoutExit(env), b, e, level, h, status, fuel),
                SemLoop(WithExit(env), b, e, level, h, status, fuel))
    decreases fuel, b, 0
  {
    CutSem(env, b.test, true, level, h, fuel);
    var full := Sem(WithoutExit(env), b.test, true, level, h, fuel);
    var r := Sem(WithExit(env), b.test, true, level, h, fuel);
    if !Ended(full) && !LoopEnds(env, b.until, full) {
      if full.signal.Go? {
        CutSem(env, b.body, e, level, full.history, fuel);
        var full2 := Sem(WithoutExit(env), b.body, e, level, full.history, fuel);
        var r2 := Sem(WithExit(env), b.body, e, level, full.history, fuel);
        CutThen(h, full, r, full2, r2);
        CutRound(env, b, e, level, h, full2, if r.signal.Exits? then r else r2, fuel);
      } else {
        CutRound(env, b, e, level, h, full, r, fuel);
      }
    } else {
      CutAgain(h, full, r, SemLoop(WithoutExit(env), b, e, level, h, status, fuel));
    }
  }

  lemma {:induction false} CutRound(env: Env, b: Body, e: bool, level: nat, h: History, full: Result, r: Result,
          fuel: nat)
    requires b.Loop? && Cut(h, full, r) && Structured.Counted(full) && Structured.Counted(r)
    ensures Cut(h, Round(WithoutExit(env), b, e, level, full, fuel), Round(WithExit(env), b, e, level, r, fuel))
    decreases fuel, b, -1
  {
    if Ended(full) || !GoesOn(full.signal) || fuel == 0 {
      CutAgain(h, full, r, Round(WithoutExit(env), b, e, level, full, fuel));
    } else {
      CutLoop(env, b, e, level, full.history, full.status, fuel - 1);
      CutThen(h, full, r, SemLoop(WithoutExit(env), b, e, level, full.history, full.status, fuel - 1),
              SemLoop(WithExit(env), b, e, level, full.history, full.status, fuel - 1));
    }
  }

  lemma {:induction false} CutCase(env: Env, word: string, cl: Clauses, e: bool, level: nat, h: History, status: int,
          fuel: nat)
    ensures Cut(h, SemCase(WithoutExit(env), word, cl, e, level, h, status, fuel),
                SemCase(WithExit(env), word, cl, e, level, h, status, fuel))
    decreases fuel, cl, 1
  {
    if cl.Clause? {
      if env.matches(word, cl.pattern, h) {
        CutClause(env, word, cl, e, level, h, fuel);
      } else {
        CutCase(env, word, cl.rest, e, level, h, status, fuel);
      }
    } else {
      CutNothing(h, Result(status, Go, h));
    }
  }

  lemma {:induction false} CutClause(env: Env, word: string, cl: Clauses, e: bool, level: nat, h: History, fuel: nat)
    requires cl.Clause?
    ensures Cut(h, SemClause(WithoutExit(env), word, cl, e, level, h, fuel),
                SemClause(WithExit(env), word, cl, e, level, h, fuel))
    decreases fuel, cl, 0
  {
    CutSem(env, cl.cmd, e, level, h, fuel);
    var full, r := Sem(WithoutExit(env), cl.cmd, e, level, h, fuel), Sem(WithExit(env), cl.cmd, e, level, h, fuel);
    if cl.ending == FallThrough && cl.rest.Clause? {
      CutClause(env, word, cl.rest, e, level, full.history, fuel);
      CutThen(h, full, r, SemClause(WithoutExit(env), word, cl.rest, e, level, full.history, fuel),
              SemClause(WithExit(env), word, cl.rest, e, level, full.history, fuel));
    } else if cl.ending == TestNext {
      CutCase(env, word, cl.rest, e, level, full.history, full.status, fuel);
      CutThen(h, full, r, SemCase(WithoutExit(env), word, cl.rest, e, level, full.history, full.status, fuel),
              SemCase(WithExit(env), word, cl.rest, e, level, full.history, full.status, fuel));
    }
  }

  /** The same, spelled out for a whole script. */
  lemma EndsAtFirstFailure(env: Env, c: Cmd, fuel: nat, full: Result, r: Result)
    requires full == Sem(WithoutExit(env), c, false, 0, [], fuel) && r == Sem(WithExit(env), c, false, 0, [], fuel)
    ensures r.signal.Exits? <==> exists k :: 0 <= k < |full.history| && Fatal(full.history[k])
    ensures !r.signal.Exits? ==> r == full
    ensures r.signal.Exits? ==>
              var n := |r.history|;
              && 0 < n <= |full.history| && r.history == full.history[..n]
              && Fatal(r.history[n - 1]) && r.status == r.history[n - 1].status
              && forall m :: 0 <= m < n - 1 ==> !Fatal(r.history[m])
  {
    CutSem(env, c, false, 0, [], fuel);
    assert Show(0);
    var k := FirstFatal(full.history, 0);
    assert CutAt(full, r, k);
    if k < |full.history| {
      assert r.history == full.history[..k + 1] && r.signal == Exits;
      assert forall m :: 0 <= m < k + 1 ==> r.history[m] == full.history[m];
      assert Fatal(r.history[k]);
    }
  }
}
