/** What each kind of command does, on statuses, signals and histories: which operands run,
    in which order, whether their failures are ignored, and what becomes of their outcomes. */
module Laws {
  import opened Folding
  import opened Commands
  import opened Structured

  /** A command without `!` in front. */
  function Of(b: Body): Cmd { Node(0, false, b) }

  // ----- lists -----

  /** `a; b`, `a && b` and `a || b`.  Only the first operand of the latter two is exempt. */
  lemma ListLaw(env: Env, a: Cmd, b: Cmd, x: bool, level: nat, h: History, fuel: nat)
    ensures var r := Sem(env, a, x, level, h, fuel);
            Sem(env, Of(Connect(Semi, a, b)), x, level, h, fuel) ==
            if r.signal == Go then Sem(env, b, x, level, r.history, fuel) else r
    ensures var r := Sem(env, a, true, level, h, fuel);
            && (r.signal == Go && r.status == 0 ==>
                  && Sem(env, Of(Connect(AndAnd, a, b)), x, level, h, fuel) == Sem(env, b, x, level, r.history, fuel)
                  && Sem(env, Of(Connect(OrOr, a, b)), x, level, h, fuel) == r)
            && (r.signal == Go && r.status != 0 ==>
                  && Sem(env, Of(Connect(AndAnd, a, b)), x, level, h, fuel) == r
                  && Sem(env, Of(Connect(OrOr, a, b)), x, level, h, fuel) == Sem(env, b, x, level, r.history, fuel))
            && (r.signal != Go ==>
                  && Sem(env, Of(Connect(AndAnd, a, b)), x, level, h, fuel) == r
                  && Sem(env, Of(Connect(OrOr, a, b)), x, level, h, fuel) == r)
  {
  }

  /** Lists of one kind can be grouped either way, also under `set -e`. */
  lemma ListsAssociate(env: Env, op: Connector, a: Cmd, b: Cmd, c: Cmd, x: bool, level: nat, h: History, fuel: nat)
    ensures Sem(env, Of(Connect(op, Of(Connect(op, a, b)), c)), x, level, h, fuel) ==
            Sem(env, Of(Connect(op, a, Of(Connect(op, b, c)))), x, level, h, fuel)
  {
    var e := x || op != Semi;
    var r := Sem(env, a, e, level, h, fuel);
    ListLaw(env, a, b, e, level, h, fuel);
    ListLaw(env, Of(Connect(op, a, b)), c, x, level, h, fuel);
    ListLaw(env, a, Of(Connect(op, b, c)), x, level, h, fuel);
    ListLaw(env, b, c, x, level, r.history, fuel);
  }

  // ----- if, groups and `!` -----

  /** The test is exempt; status 0 takes the first branch, any other the second. */
  lemma IfLaw(env: Env, test: Cmd, yes: Cmd, no: Cmd, x: bool, level: nat, h: History, fuel: nat)
    ensures var t := Sem(env, test, true, level, h, fuel);
            var r := Sem(env, Of(If(test, yes, no)), x, level, h, fuel);
            && (t.signal != Go ==> r == t)
            && (t.signal == Go && t.status == 0 ==> r == Sem(env, yes, x, level, t.history, fuel))
            && (t.signal == Go && t.status != 0 ==> r == Sem(env, no, x, level, t.history, fuel))
    ensures Sem(env, Null, x, level, h, fuel) == Result(0, Go, h)
    ensures Sem(env, Of(Group(test)), x, level, h, fuel) == Sem(env, test, x, level, h, fuel)
  {
  }

  /** `! c` runs c and turns its status round.  Under `set -e` all of c is exempt. */
  lemma NotLaw(env: Env, b: Body, x: bool, level: nat, h: History, fuel: nat)
    requires env.errexit || !b.Simple?
    ensures var r := Sem(env, Of(b), x || env.errexit, level, h, fuel);
            var s := Sem(env, Node(0, true, b), x, level, h, fuel);
            && s.history == r.history && s.signal == r.signal
            && (r.signal != Exits && r.signal != OutOfFuel ==> s.status == if r.status == 0 then 1 else 0)
  {
    InvertMatters(env, b, x || env.errexit, level, h, fuel);
  }

  lemma InvertMatters(env: Env, b: Body, e: bool, level: nat, h: History, fuel: nat)
    requires e || !b.Simple?
    ensures SemBody(env, b, e, true, level, h, fuel) == SemBody(env, b, e, false, level, h, fuel)
  {
  }

  // ----- simple commands -----

  /** A command that is no function: its status, and a record that says whether the failure is
      ignored.  Under `set -e` any other failure ends the shell. */
  lemma SimpleLaw(env: Env, name: string, x: bool, level: nat, h: History, fuel: nat)
    requires name !in env.funcs
    ensures var status := env.status(name, h);
            Sem(env, Of(Simple(Run(name))), x, level, h, fuel) ==
            Result(status, if env.stop && !x && status != 0 then Exits else Go, h + [Entry(name, status, x)])
    ensures var status := env.status(name, h);
            Sem(env, Node(0, true, Simple(Run(name))), x, level, h, fuel) ==
            Result(if status == 0 then 1 else 0, Go, h + [Entry(name, status, true)])
  {
    Finished(env, Run(name), x, false, level, h, fuel);
    Finished(env, Run(name), x, true, level, h, fuel);
    Finished(env, Run(name), x || env.errexit, true, level, h, fuel);
  }

  lemma Finished(env: Env, action: Action, e: bool, invert: bool, level: nat, h: History, fuel: nat)
    ensures var r := SemAction(env, action, e, level, h, fuel);
            SemBody(env, Simple(action), e, invert, level, h, fuel) ==
            if Ended(r) then r else Finish(env, Name(action), e || invert, r)
  {
    assert SemBody(env, Simple(action), e, invert, level, h, fuel) ==
           SemSimple(env, action, e, invert, level, h, fuel);
  }

  /** A function runs its body in the context of the call, loops included; statuses that stand
      for errors in its use are made ordinary ones.  Then the call counts as a command too. */
  lemma CallLaw(env: Env, name: string, x: bool, level: nat, h: History, fuel: nat)
    requires name in env.funcs && fuel > 0
    ensures var r := Sem(env, env.funcs[name], x, level, h, fuel - 1);
            var s := Sem(env, Of(Simple(Run(name))), x, level, h, fuel);
            if r.signal == Exits || r.signal == OutOfFuel then s == r
            else
              && s.status == (if r.status <= 256 then r.status else if r.status == 258 then 2 else 1)
              && s.history == r.history + [Entry(name, s.status, x)]
              && s.signal == if env.stop && !x && s.status != 0 then Exits else r.signal
  {
    Finished(env, Run(name), x, false, level, h, fuel);
  }

  /** `break n` and `continue n`: outside loops they do nothing; a count above the number of
      loops means all of them; one below 1 fails and breaks all of them. */
  lemma BreakLaw(env: Env, n: int, x: bool, level: nat, h: History, fuel: nat)
    ensures var r := Sem(env, Of(Simple(Break(n))), x, level, h, fuel);
            && r.status == (if level > 0 && n < 1 then 1 else 0) && r.history == h + [Entry("break", r.status, x)]
            && r.signal == if level == 0 then Go
                           else if n < 1 && env.stop && !x then Exits
                           else if n < 1 || n > level then Breaks(level) else Breaks(n)
    ensures var r := Sem(env, Of(Simple(Continue(n))), x, level, h, fuel);
            && r.status == (if level > 0 && n < 1 then 1 else 0) && r.history == h + [Entry("continue", r.status, x)]
            && r.signal == if level == 0 then Go
                           else if n < 1 && env.stop && !x then Exits
                           else if n < 1 then Breaks(level)
                           else if n > level then Continues(level) else Continues(n)
  {
    Finished(env, Break(n), x, false, level, h, fuel);
    Finished(env, Continue(n), x, false, level, h, fuel);
  }

  // ----- while and until -----

  /** Rounds of a loop: each time the test lets it go on, and the body ends normally or with a
      `continue` for this loop.  ts are the outcomes of the tests, one more than rounds. */
  ghost predicate Rounds(env: Env, b: Body, x: bool, level: nat, h: History, fuel: nat, ts: seq<Result>,
          bs: seq<Result>)
  {
    && b.Loop? && |ts| == |bs| + 1 && |bs| <= fuel
    && (forall i :: 0 <= i < |ts| ==>
          ts[i] == Sem(env, b.test, true, level, Before(h, bs, i), fuel - i))
    && (forall i :: 0 <= i < |bs| ==> Passes(b, ts[i]) && bs[i] == Sem(env, b.body, x, level, ts[i].history, fuel - i))
    && (forall i :: 0 <= i < |bs| ==> bs[i].signal == Go || bs[i].signal == Continues(1))
  }

  /** The history before round i. */
  function Before(h: History, bs: seq<Result>, i: nat): History
    requires i <= |bs|
  {
    if i == 0 then h else bs[i - 1].history
  }

  /** The status before round i, if it was status before the first. */
  function Last(status: int, bs: seq<Result>, i: nat): int
    requires i <= |bs|
  {
    if i == 0 then status else bs[i - 1].status
  }

  /** The test sends a while loop on with status 0, an until loop with any other. */
  predicate Passes(b: Body, t: Result) { b.Loop? && t.signal == Go && if b.until then t.status != 0 else t.status == 0 }

  /** A loop at h with a status so far goes on as it would at h' with status'. */
  ghost predicate Comes(env: Env, b: Body, x: bool, level: nat, h: History, status: int, fuel: nat, h': History,
          status': int, fuel': nat)
  {
    b.Loop? && forall z: nat {:trigger Show(z)} :: Show(z) ==>
      SemLoop(env, b, x, level, h, status, fuel) == SemLoop(env, b, x, level, h', status', fuel')
  }

  lemma OneRound(env: Env, b: Body, x: bool, level: nat, h: History, status: int, fuel: nat, t: Result)
    requires b.Loop? && t == Sem(env, b.test, true, level, h, fuel) && Passes(b, t)
    ensures SemLoop(env, b, x, level, h, status, fuel) ==
            Round(env, b, x, level, Sem(env, b.body, x, level, t.history, fuel), fuel)
  {
  }

  lemma NextRound(env: Env, b: Body, x: bool, level: nat, h: History, status: int, fuel: nat, t: Result, r: Result)
    requires b.Loop? && t == Sem(env, b.test, true, level, h, fuel) && Passes(b, t) && fuel > 0
    requires r == Sem(env, b.body, x, level, t.history, fuel) && (r.signal == Go || r.signal == Continues(1))
    ensures Comes(env, b, x, level, h, status, fuel, r.history, r.status, fuel - 1)
  {
    OneRound(env, b, x, level, h, status, fuel, t);
  }

  lemma ComesOn(env: Env, b: Body, x: bool, level: nat, h: History, status: int, fuel: nat, h': History,
          status': int, fuel': nat, h'': History, status'': int, fuel'': nat)
    requires Comes(env, b, x, level, h, status, fuel, h', status', fuel')
    requires Comes(env, b, x, level, h', status', fuel', h'', status'', fuel'')
    ensures Comes(env, b, x, level, h, status, fuel, h'', status'', fuel'')
  {
    assert Show(0);
  }

  /** After i of its rounds a loop stands where it would with the last one's history and
      status. */
  lemma {:induction false} AfterRounds(env: Env, b: Body, x: bool, level: nat, h: History, status: int, fuel: nat,
          ts: seq<Result>, bs: seq<Result>, i: nat)
    requires Rounds(env, b, x, level, h, fuel, ts, bs) && i <= |bs|
    ensures Comes(env, b, x, level, h, status, fuel, Before(h, bs, i), Last(status, bs, i), fuel - i)
    decreases i
  {
    if i > 0 {
      var h', status', j := Before(h, bs, i - 1), Last(status, bs, i - 1), i - 1;
      AfterRounds(env, b, x, level, h, status, fuel, ts, bs, j);
      NextRound(env, b, x, level, h', status', fuel - j, ts[j], bs[j]);
      ComesOn(env, b, x, level, h, status, fuel, h', status', fuel - j, bs[j].history, bs[j].status, fuel - i);
    }
  }

  /** A loop whose test at last fails (succeeds, for until) ends normally, with the status of
      the last round, or 0 if there was none. */
  lemma LoopEnding(env: Env, b: Body, x: bool, level: nat, h: History, fuel: nat, ts: seq<Result>, bs: seq<Result>)
    requires Rounds(env, b, x, level + 1, h, fuel, ts, bs)
    requires ts[|bs|].signal == Go && !Passes(b, ts[|bs|])
    ensures Sem(env, Of(b), x, level, h, fuel) ==
            Result(Last(0, bs, |bs|), Go, ts[|bs|].history)
  {
    LoopIs(env, b, x, level, h, fuel);
    AfterRounds(env, b, x, level + 1, h, SUCCESS, fuel, ts, bs, |bs|);
    TestEnds(env, b, x, level + 1, Before(h, bs, |bs|), Last(SUCCESS, bs, |bs|), fuel - |bs|);
    assert Show(0);
  }

  lemma TestEnds(env: Env, b: Body, x: bool, level: nat, h: History, status: int, fuel: nat)
    requires b.Loop?
    ensures var t := Sem(env, b.test, true, level, h, fuel);
            t.signal == Go && !Passes(b, t) ==>
              SemLoop(env, b, x, level, h, status, fuel) == Result(status, Go, t.history)
  {
  }

  /** A body that ends with r makes its loop end with s: a signal for n loops takes this one
      off, 1 being for this loop alone, and an exit is passed on. */
  predicate Leaves(r: Result, s: Result) {
    && (r.signal == Exits ==> s == r)
    && (r.signal.Breaks? ==> s == Result(r.status, if r.signal.n <= 1 then Go else Breaks(r.signal.n - 1), r.history))
    && (r.signal.Continues? && r.signal.n > 1 ==> s == Result(r.status, Continues(r.signal.n - 1), r.history))
  }

  lemma LoopLeaving(env: Env, b: Body, x: bool, level: nat, h: History, fuel: nat, ts: seq<Result>, bs: seq<Result>)
    requires Rounds(env, b, x, level + 1, h, fuel, ts, bs) && Passes(b, ts[|bs|])
    ensures Leaves(Sem(env, b.body, x, level + 1, ts[|bs|].history, fuel - |bs|), Sem(env, Of(b), x, level, h, fuel))
  {
    LoopIs(env, b, x, level, h, fuel);
    LastRound(env, b, x, level + 1, h, fuel, ts, bs);
    LeavingRound(env, b, x, level + 1, Sem(env, b.body, x, level + 1, ts[|bs|].history, fuel - |bs|), fuel - |bs|);
  }

  /** A signal from the test.  If the status would send the loop on, it is as one from the body;
      otherwise the loop ends with the status so far, and takes itself off a `break`, but not
      off a `continue`. */
  lemma TestLeaving(env: Env, b: Body, x: bool, level: nat, h: History, fuel: nat, ts: seq<Result>, bs: seq<Result>)
    requires Rounds(env, b, x, level + 1, h, fuel, ts, bs) && !env.uniform
    ensures var t := ts[|bs|];
            var s := Sem(env, Of(b), x, level, h, fuel);
            && (t.signal == Exits ==> s == t)
            && (t.signal != Go && (t.status == 0) != b.until ==> Leaves(t, s))
            && (t.signal.Breaks? && (t.status == 0) == b.until ==>
                  s == Result(Last(0, bs, |bs|), if t.signal.n <= 1 then Go else Breaks(t.signal.n - 1), t.history))
            && (t.signal.Continues? && (t.status == 0) == b.until ==>
                  s == Result(Last(0, bs, |bs|), t.signal, t.history))
  {
    LoopIs(env, b, x, level, h, fuel);
    AfterRounds(env, b, x, level + 1, h, SUCCESS, fuel, ts, bs, |bs|);
    if ts[|bs|].signal != Go {
      TestSignals(env, b, x, level + 1, Before(h, bs, |bs|), Last(SUCCESS, bs, |bs|), fuel - |bs|, ts[|bs|]);
    }
    assert Show(0);
  }

  lemma TestSignals(env: Env, b: Body, x: bool, level: nat, h: History, status: int, fuel: nat, t: Result)
    requires b.Loop? && !env.uniform && t == Sem(env, b.test, true, level, h, fuel) && t.signal != Go
    ensures var s := SemLoop(env, b, x, level, h, status, fuel);
            && (t.signal == Exits ==> s == t)
            && ((t.status == 0) != b.until ==> Leaves(t, s))
            && (t.signal.Breaks? && (t.status == 0) == b.until ==>
                  s == Result(status, if t.signal.n <= 1 then Go else Breaks(t.signal.n - 1), t.history))
            && (t.signal.Continues? && (t.status == 0) == b.until ==> s == Result(status, t.signal, t.history))
  {
    LeavingRound(env, b, x, level, t, fuel);
  }

  lemma LoopIs(env: Env, b: Body, x: bool, level: nat, h: History, fuel: nat)
    requires b.Loop?
    ensures Sem(env, Of(b), x, level, h, fuel) == SemLoop(env, b, x, level + 1, h, SUCCESS, fuel)
  {
    assert SemBody(env, b, x, false, level, h, fuel) == SemLoop(env, b, x, level + 1, h, SUCCESS, fuel);
  }

  lemma LastRound(env: Env, b: Body, x: bool, level: nat, h: History, fuel: nat, ts: seq<Result>, bs: seq<Result>)
    requires Rounds(env, b, x, level, h, fuel, ts, bs) && Passes(b, ts[|bs|])
    ensures SemLoop(env, b, x, level, h, SUCCESS, fuel) ==
            Round(env, b, x, level, Sem(env, b.body, x, level, ts[|bs|].history, fuel - |bs|), fuel - |bs|)
  {
    AfterRounds(env, b, x, level, h, SUCCESS, fuel, ts, bs, |bs|);
    OneRound(env, b, x, level, Before(h, bs, |bs|), Last(SUCCESS, bs, |bs|), fuel - |bs|, ts[|bs|]);
    assert Show(0);
  }

  lemma LeavingRound(env: Env, b: Body, x: bool, level: nat, r: Result, fuel: nat)
    requires b.Loop? && Counted(r)
    ensures Leaves(r, Round(env, b, x, level, r, fuel))
  {
  }

  // ----- for -----

  /** The body has run once for each of bs, each time ending normally or with a `continue` for
      this loop. */
  ghost predicate Turns(env: Env, body: Cmd, x: bool, level: nat, h: History, fuel: nat, bs: seq<Result>) {
    && (forall i :: 0 <= i < |bs| ==> bs[i] == Sem(env, body, x, level, Before(h, bs, i), fuel))
    && (forall i :: 0 <= i < |bs| ==> bs[i].signal == Go || bs[i].signal == Continues(1))
  }

  lemma OneTurn(env: Env, body: Cmd, x: bool, level: nat, h: History, status: int, left: nat, fuel: nat)
    requires left > 0
    ensures var r := Sem(env, body, x, level, h, fuel);
            var s := SemFor(env, body, x, level, h, status, left, fuel);
            && (r.signal == Go || r.signal == Continues(1) ==>
                  s == SemFor(env, body, x, level, r.history, r.status, left - 1, fuel))
            && Leaves(r, s)
  {
  }

  lemma {:induction false} AfterTurns(env: Env, body: Cmd, x: bool, level: nat, h: History, status: int, left: nat,
          fuel: nat, bs: seq<Result>, i: nat)
    requires Turns(env, body, x, level, h, fuel, bs) && i <= |bs| <= left
    ensures SemFor(env, body, x, level, h, status, left, fuel) ==
            SemFor(env, body, x, level, Before(h, bs, i), Last(status, bs, i), left - i, fuel)
    decreases i
  {
    if i > 0 {
      AfterTurns(env, body, x, level, h, status, left, fuel, bs, i - 1);
      OneTurn(env, body, x, level, Before(h, bs, i - 1), Last(status, bs, i - 1), left - (i - 1), fuel);
      assert bs[i - 1] == Sem(env, body, x, level, Before(h, bs, i - 1), fuel);
    }
  }

  /** The body runs once for each word, each time after the time before; the status is that of
      the last time, or 0.  A signal for n loops ends the loop and takes it off. */
  lemma ForLaw(env: Env, list: string, body: Cmd, x: bool, level: nat, h: History, fuel: nat, bs: seq<Result>)
    requires Turns(env, body, x, level + 1, h, fuel, bs) && |bs| <= env.words(list, h)
    ensures var s := Sem(env, Of(For(list, body)), x, level, h, fuel);
            var r := Sem(env, body, x, level + 1, Before(h, bs, |bs|), fuel);
            if |bs| == env.words(list, h) then s == Result(Last(0, bs, |bs|), Go, Before(h, bs, |bs|))
            else Leaves(r, s)
  {
    var n := env.words(list, h);
    AfterTurns(env, body, x, level + 1, h, SUCCESS, n, fuel, bs, |bs|);
    if |bs| < n {
      OneTurn(env, body, x, level + 1, Before(h, bs, |bs|), Last(SUCCESS, bs, |bs|), n - |bs|, fuel);
    }
  }

  // ----- case -----

  /** None of the patterns matches. */
  predicate NoneMatches(env: Env, word: string, cl: Clauses, h: History) {
    cl.NoClause? || (!env.matches(word, cl.pattern, h) && NoneMatches(env, word, cl.rest, h))
  }

  lemma {:induction false} NoMatch(env: Env, word: string, cl: Clauses, x: bool, level: nat, h: History, status: int,
          fuel: nat)
    ensures NoneMatches(env, word, cl, h) ==>
              SemCase(env, word, cl, x, level, h, status, fuel) == Result(status, Go, h)
    ensures !NoneMatches(env, word, cl, h) ==>
              SemCase(env, word, cl, x, level, h, status, fuel) == SemCase(env, word, cl, x, level, h, SUCCESS, fuel)
    decreases cl
  {
    if cl.Clause? {
      NoMatch(env, word, cl.rest, x, level, h, status, fuel);
    }
  }

  /** Nothing runs, with status 0, if no pattern matches; a clause that does not match is as if
      it were not there. */
  lemma CaseLaw(env: Env, word: string, cl: Clauses, x: bool, level: nat, h: History, fuel: nat)
    ensures NoneMatches(env, word, cl, h) ==> Sem(env, Of(Case(word, cl)), x, level, h, fuel) == Result(0, Go, h)
    ensures cl.Clause? && !env.matches(word, cl.pattern, h) ==>
              Sem(env, Of(Case(word, cl)), x, level, h, fuel) == Sem(env, Of(Case(word, cl.rest)), x, level, h, fuel)
  {
    NoMatch(env, word, cl, x, level, h, SUCCESS, fuel);
    CaseIs(env, word, cl, x, level, h, fuel);
    if cl.Clause? {
      CaseIs(env, word, cl.rest, x, level, h, fuel);
    }
  }

  lemma CaseIs(env: Env, word: string, cl: Clauses, x: bool, level: nat, h: History, fuel: nat)
    ensures Sem(env, Of(Case(word, cl)), x, level, h, fuel) == SemCase(env, word, cl, x, level, h, SUCCESS, fuel)
  {
    assert SemBody(env, Case(word, cl), x, false, level, h, fuel) ==
           SemCase(env, word, cl, x, level, h, SUCCESS, fuel);
  }

  lemma ClauseIs(env: Env, word: string, cl: Clauses, x: bool, level: nat, h: History, fuel: nat)
    requires cl.Clause?
    ensures var r := Sem(env, cl.cmd, x, level, h, fuel);
            SemClause(env, word, cl, x, level, h, fuel) ==
            if r.signal != Go || cl.ending == Stop || cl.rest.NoClause? then r
            else if cl.ending == FallThrough then SemClause(env, word, cl.rest, x, level, r.history, fuel)
            else SemCase(env, word, cl.rest, x, level, r.history, r.status, fuel)
  {
    var r := Sem(env, cl.cmd, x, level, h, fuel);
    NoMatch(env, word, cl.rest, x, level, r.history, r.status, fuel);
  }

  /** A clause that matches, and what follows: nothing after `;;`; after `;&` the next clause,
      whatever its pattern; after `;;&` the clauses behind it, as in a new case, but with the
      status so far if none of them matches. */
  lemma MatchLaw(env: Env, word: string, cl: Clauses, x: bool, level: nat, h: History, fuel: nat)
    requires cl.Clause? && env.matches(word, cl.pattern, h)
    ensures var r := Sem(env, cl.cmd, x, level, h, fuel);
            var s := Sem(env, Of(Case(word, cl)), x, level, h, fuel);
            && (r.signal != Go || cl.ending == Stop || cl.rest.NoClause? ==> s == r)
            && (r.signal == Go && cl.ending == FallThrough && cl.rest.Clause? && cl.rest.ending == Stop ==>
                  s == Sem(env, cl.rest.cmd, x, level, r.history, fuel))
            && (r.signal == Go && cl.ending == TestNext ==>
                  s == if NoneMatches(env, word, cl.rest, r.history) then r
                       else Sem(env, Of(Case(word, cl.rest)), x, level, r.history, fuel))
    ensures var r := Sem(env, cl.cmd, x, level, h, fuel);
            r.signal == Go && cl.ending == FallThrough && cl.rest.Clause? ==>
              env.matches(word, cl.rest.pattern, r.history) ==>
              Sem(env, Of(Case(word, cl)), x, level, h, fuel) ==
              Sem(env, Of(Case(word, cl.rest)), x, level, r.history, fuel)
  {
    var r := Sem(env, cl.cmd, x, level, h, fuel);
    CaseIs(env, word, cl, x, level, h, fuel);
    ClauseIs(env, word, cl, x, level, h, fuel);
    NoMatch(env, word, cl.rest, x, level, r.history, r.status, fuel);
    CaseIs(env, word, cl.rest, x, level, r.history, fuel);
    if cl.rest.Clause? {
      ClauseIs(env, word, cl.rest, x, level, r.history, fuel);
    }
  }
}
