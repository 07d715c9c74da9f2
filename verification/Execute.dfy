/** The interpreter: `break` and `continue` are counters polled on entry to every command, and
    the exemption from `set -e` is a flag written into the tree while it runs. */
module Execute {
  import opened Commands
  import opened Structured
  import opened Shapes
  import opened CopiedTrees

  /** Whether control is still here, or has jumped to the top level. */
  datatype Flow = Running | Exited | Starved

  /** Flags are only added, to the nodes from lo to hi and to nodes made since. */
  ghost predicate Grows(flags: set<nat>, flags': set<nat>, lo: nat, hi: nat, next: nat) {
    && flags <= flags'
    && forall x :: x in flags' ==> x in flags || 2 * lo <= x < 2 * hi || 2 * next <= x
  }

  lemma GrowsTwice(f1: set<nat>, f2: set<nat>, f3: set<nat>, lo: nat, hi: nat, next: nat, lo2: nat, hi2: nat,
          next2: nat)
    requires Grows(f1, f2, lo, hi, next) && Grows(f2, f3, lo2, hi2, next2) && lo <= lo2 && hi2 <= hi && next <= next2
    ensures Grows(f1, f3, lo, hi, next)
  {
  }

  /** Flags added elsewhere do not matter. */
  lemma StillWithin(flags: set<nat>, flags': set<nat>, c: Cmd, at: nat, exempt: bool, errexit: bool, lo: nat, hi: nat,
          next: nat)
    requires Placed(c, at) && Within(flags, c, exempt, errexit) && Grows(flags, flags', lo, hi, next)
    requires at + Size(c) <= next && (at + Size(c) <= lo || hi <= at)
    ensures Within(flags', c, exempt, errexit)
  {
    WithinLess(flags, flags', c, at, exempt, errexit);
  }

  class Shell {
    const env: Env
    const base: nat
    var breaking: nat
    var continuing: nat
    var loopLevel: nat
    var lastStatus: int
    var flags: set<nat>
    var next: nat
    var history: History

    /** The function table lies below base, where no flag is ever set. */
    ghost predicate Ready()
      reads this
    {
      && env.stop == env.errexit && !env.uniform && base <= next
      && (forall f :: f in env.funcs ==> WellFormed(env.funcs[f]) && Below(env.funcs[f], base))
      && (forall x :: x in flags ==> 2 * base <= x < 2 * next)
    }

    constructor (env: Env, base: nat)
      requires env.stop == env.errexit && !env.uniform
      requires forall f :: f in env.funcs ==> WellFormed(env.funcs[f]) && Below(env.funcs[f], base)
      ensures Ready() && this.env == env && this.base == base && next == base && history == []
      ensures breaking == continuing == loopLevel == 0 && flags == {}
    {
      this.env, this.base, next := env, base, base;
      breaking, continuing, loopLevel, lastStatus, flags, history := 0, 0, 0, SUCCESS, {}, [];
    }

    /** c lies in the nodes made so far, and its flags fit the context it is to run in. */
    ghost predicate Fits(c: Cmd, exempt: bool)
      reads this
    {
      WellFormed(c) && (c.Null? || (
        && base <= c.id && c.id + Size(c) <= next && Placed(c, c.id)
        && Within(flags, c, exempt, env.errexit) && (exempt ==> Own(c) in flags)))
    }

    predicate Pending()
      reads this
    {
      breaking > 0 || continuing > 0
    }

    /** The state reached is the outcome r. */
    ghost predicate Reached(r: Result, status: int, flow: Flow)
      reads this
    {
      && history == r.history && status == r.status
      && flow == (if r.signal.Exits? then Exited else if r.signal.OutOfFuel? then Starved else Running)
      && (flow.Running? ==> breaking == (if r.signal.Breaks? then r.signal.n else 0))
      && (flow.Running? ==> continuing == (if r.signal.Continues? then r.signal.n else 0))
    }

    /** A child of the running command, at its place. */
    ghost predicate Child(c: Cmd, at: nat, exempt: bool)
      reads this
    {
      WellFormed(c) && Placed(c, at) && base <= at && at + Size(c) <= next && Within(flags, c, exempt, env.errexit)
    }

    /** The body of a node, ready to run. */
    ghost predicate Inside(c: Cmd, e: bool)
      reads this
    {
      && c.Node? && WellFormedBody(c.body) && base <= c.id && c.id + Size(c) <= next
      && PlacedBody(c.body, c.id + 1) && WithinBody(flags, c.body, e, env.errexit) && !Pending()
    }

    /** flags |= CMD_IGNORE_RETURN on a command, if there is one. */
    method Ignore(c: Cmd, ghost at: nat)
      requires Ready() && Child(c, at, true)
      modifies this`flags
      ensures Ready() && Child(c, at, true) && Fits(c, true) && Grows(old(flags), flags, at, at + Size(c), next)
    {
      if c.Node? {
        flags := flags + {Own(c)};
        WithinBodyLess(old(flags), flags, c.body, at + 1, true, env.errexit);
      }
    }

    /** Before a command runs: `!` marks it, and its mark is passed to its value. */
    method Mark(c: Cmd, ghost exempt: bool) returns (ignoreReturn: bool)
      requires Ready() && Fits(c, exempt) && c.Node? && !Pending()
      modifies this`flags
      ensures Ready() && Inside(c, ignoreReturn) && ignoreReturn == Exempt(c, exempt, env.errexit)
      ensures !c.body.Group? && !c.body.Connect? ==> (Inner(c) in flags <==> ignoreReturn)
      ensures Grows(old(flags), flags, c.id, c.id + Size(c), next)
      ensures Own(c) in flags || Inner(c) in flags ==> ignoreReturn
    {
      if env.errexit && c.invert {
        flags := flags + {Own(c)};
      }
      ignoreReturn := Own(c) in flags;
      if ignoreReturn && !c.body.Group? && !c.body.Connect? {
        flags := flags + {Inner(c)};
      }
      WithinBodyLess(old(flags), flags, c.body, c.id + 1, ignoreReturn, env.errexit);
    }

    method ExecuteCommand(c: Cmd, ghost exempt: bool, fuel: nat) returns (status: int, flow: Flow)
      requires Ready() && Fits(c, exempt)
      modifies this
      ensures Ready() && old(next) <= next && (c.Node? ==> Grows(old(flags), flags, c.id, c.id + Size(c), old(next)))
      ensures c.Null? ==> flags == old(flags) && next == old(next)
      ensures Within(flags, c, exempt, env.errexit) && (flow.Running? ==> loopLevel == old(loopLevel))
      ensures old(Pending()) ==>
                && flow == Running && status == lastStatus == old(lastStatus)
                && breaking == old(breaking) && continuing == old(continuing) && history == old(history)
      ensures !old(Pending()) ==> Reached(Sem(env, c, exempt, old(loopLevel), old(history), fuel), status, flow)
      ensures !old(Pending()) && flow.Running? && c.Node? ==> lastStatus == status
      decreases fuel, c, 4
    {
      if breaking > 0 || continuing > 0 {
        return lastStatus, Running;
      }
      if c.Null? {
        return SUCCESS, Running;
      }
      var ignoreReturn := Mark(c, exempt);
      ghost var marked := flags;
      status, flow := ExecuteBody(c, ignoreReturn, fuel);
      GrowsTwice(old(flags), marked, flags, c.id, c.id + Size(c), old(next), c.id + 1, c.id + Size(c), old(next));
      if !flow.Running? {
        return;
      }
      if c.invert {
        status := if status == SUCCESS then FAILURE else SUCCESS;
      }
      lastStatus := status;
    }

    /** Running a child, marked first if its failures are to be ignored. */
    method RunChild(c: Cmd, ghost at: nat, exempt: bool, fuel: nat) returns (status: int, flow: Flow)
      requires Ready() && Child(c, at, exempt)
      modifies this
      ensures Ready() && old(next) <= next && Grows(old(flags), flags, at, at + Size(c), old(next))
      ensures Child(c, at, exempt) && (flow.Running? ==> loopLevel == old(loopLevel))
      ensures old(Pending()) ==>
                && flow == Running && status == lastStatus == old(lastStatus)
                && breaking == old(breaking) && continuing == old(continuing) && history == old(history)
      ensures !old(Pending()) ==> Reached(Sem(env, c, exempt, old(loopLevel), old(history), fuel), status, flow)
      ensures !old(Pending()) && flow.Running? && c.Node? ==> lastStatus == status
      decreases fuel, c, 5
    {
      if exempt {
        Ignore(c, at);
      }
      ghost var marked := flags;
      status, flow := ExecuteCommand(c, exempt, fuel);
      GrowsTwice(old(flags), marked, flags, at, at + Size(c), old(next), at, at + Size(c), old(next));
    }

    method ExecuteBody(c: Cmd, e: bool, fuel: nat) returns (status: int, flow: Flow)
      requires Ready() && Inside(c, e)
      requires !c.body.Group? && !c.body.Connect? ==> (Inner(c) in flags <==> e)
      modifies this
      ensures Ready() && old(next) <= next && Grows(old(flags), flags, c.id + 1, c.id + Size(c), old(next))
      ensures WithinBody(flags, c.body, e, env.errexit) && (flow.Running? ==> loopLevel == old(loopLevel))
      ensures Reached(SemBody(env, c.body, e, c.invert, old(loopLevel), old(history), fuel), status, flow)
      decreases fuel, c, 3
    {
      match c.body
      case Simple(_) => status, flow := ExecuteSimple(c, e, fuel);
      case Connect(_, _, _) => status, flow := ExecuteConnection(c, e, fuel);
      case If(_, _, _) => status, flow := ExecuteIf(c, Inner(c) in flags, fuel);
      case Loop(_, _, _) => status, flow := ExecuteWhileOrUntil(c, Inner(c) in flags, fuel);
      case For(_, _) => status, flow := ExecuteFor(c, Inner(c) in flags, fuel);
      case Case(word, clauses) =>
        assert SizeBody(c.body) == SizeClauses(clauses);
        status, flow := ExecuteCase(word, clauses, c.id + 1, Inner(c) in flags, SUCCESS, fuel);
      case Group(cmd) =>
        assert SizeBody(c.body) == Size(cmd);
        status, flow := RunChild(cmd, c.id + 1, e, fuel);
    }

    method ExecuteConnection(c: Cmd, e: bool, fuel: nat) returns (status: int, flow: Flow)
      requires Ready() && Inside(c, e) && c.body.Connect?
      modifies this
      ensures Ready() && old(next) <= next && Grows(old(flags), flags, c.id + 1, c.id + Size(c), old(next))
      ensures WithinBody(flags, c.body, e, env.errexit) && (flow.Running? ==> loopLevel == old(loopLevel))
      ensures Reached(SemBody(env, c.body, e, c.invert, old(loopLevel), old(history), fuel), status, flow)
      decreases fuel, c, 2
    {
      var op, first, second := c.body.op, c.body.first, c.body.second;
      ghost var at, mid, end := c.id + 1, c.id + 1 + Size(first), c.id + Size(c);
      assert SizeBody(c.body) == Size(first) + Size(second);
      status, flow := RunChild(first, at, e || op != Semi, fuel);
      ghost var f1, n1 := flags, next;
      StillWithin(old(flags), f1, second, mid, e, env.errexit, at, mid, old(next));
      if !flow.Running? {
        return;
      }
      if op == Semi || (op == AndAnd && status == SUCCESS) || (op == OrOr && status != SUCCESS) {
        status, flow := RunChild(second, mid, e, fuel);
        StillWithin(f1, flags, first, at, e || op != Semi, env.errexit, mid, end, n1);
        GrowsTwice(old(flags), f1, flags, at, end, old(next), mid, end, n1);
      }
    }

    method ExecuteIf(c: Cmd, e: bool, fuel: nat) returns (status: int, flow: Flow)
      requires Ready() && Inside(c, e) && c.body.If?
      modifies this
      ensures Ready() && old(next) <= next && Grows(old(flags), flags, c.id + 1, c.id + Size(c), old(next))
      ensures WithinBody(flags, c.body, e, env.errexit) && (flow.Running? ==> loopLevel == old(loopLevel))
      ensures Reached(SemBody(env, c.body, e, c.invert, old(loopLevel), old(history), fuel), status, flow)
      decreases fuel, c, 2
    {
      var test := c.body.test;
      ghost var at, y, n := c.id + 1, c.id + 1 + Size(test), c.id + 1 + Size(test) + Size(c.body.yes);
      assert SizeBody(c.body) == Size(test) + Size(c.body.yes) + Size(c.body.no);
      status, flow := RunChild(test, at, true, fuel);
      ghost var f1, n1 := flags, next;
      StillWithin(old(flags), f1, c.body.yes, y, e, env.errexit, at, y, old(next));
      StillWithin(old(flags), f1, c.body.no, n, e, env.errexit, at, y, old(next));
      if flow.Running? {
        status, flow := RunBranch(c.body, y, e, status == SUCCESS, fuel);
        StillWithin(f1, flags, test, at, true, env.errexit, y, c.id + Size(c), n1);
        GrowsTwice(old(flags), f1, flags, at, c.id + Size(c), old(next), y, c.id + Size(c), n1);
      }
    }

    /** The branch of an if, at y or after it; nothing happens if a signal is pending. */
    method RunBranch(b: Body, ghost y: nat, e: bool, taken: bool, fuel: nat) returns (status: int, flow: Flow)
      requires Ready() && b.If? && Child(b.yes, y, e) && Child(b.no, y + Size(b.yes), e)
      modifies this
      ensures Ready() && old(next) <= next && Grows(old(flags), flags, y, y + Size(b.yes) + Size(b.no), old(next))
      ensures Child(b.yes, y, e) && Child(b.no, y + Size(b.yes), e) && (flow.Running? ==> loopLevel == old(loopLevel))
      ensures old(Pending()) ==>
                && flow == Running && status == old(lastStatus)
                && breaking == old(breaking) && continuing == old(continuing) && history == old(history)
      ensures !old(Pending()) ==>
                Reached(Sem(env, if taken then b.yes else b.no, e, old(loopLevel), old(history), fuel), status, flow)
      decreases fuel, b, 4
    {
      ghost var n, end := y + Size(b.yes), y + Size(b.yes) + Size(b.no);
      if taken {
        status, flow := RunChild(b.yes, y, e, fuel);
        StillWithin(old(flags), flags, b.no, n, e, env.errexit, y, n, old(next));
      } else {
        status, flow := RunChild(b.no, n, e, fuel);
        StillWithin(old(flags), flags, b.yes, y, e, env.errexit, n, end, old(next));
      }
    }

    method ExecuteFor(c: Cmd, e: bool, fuel: nat) returns (status: int, flow: Flow)
      requires Ready() && Inside(c, e) && c.body.For?
      modifies this
      ensures Ready() && old(next) <= next && Grows(old(flags), flags, c.id + 1, c.id + Size(c), old(next))
      ensures WithinBody(flags, c.body, e, env.errexit) && (flow.Running? ==> loopLevel == old(loopLevel))
      ensures Reached(SemBody(env, c.body, e, c.invert, old(loopLevel), old(history), fuel), status, flow)
      decreases fuel, c, 2
    {
      var body := c.body.body;
      ghost var at, end, level := c.id + 1, c.id + Size(c), loopLevel + 1;
      assert SizeBody(c.body) == Size(body);
      var words := env.words(c.body.list, history);
      loopLevel := loopLevel + 1;
      status, flow := SUCCESS, Running;
      ghost var r := SemBody(env, c.body, e, c.invert, old(loopLevel), old(history), fuel);
      assert r == SemFor(env, body, e, level, history, SUCCESS, words, fuel);
      var again := words > 0;
      while again
        invariant Ready() && old(next) <= next && Grows(old(flags), flags, at, end, old(next)) && Child(body, at, e)
        invariant flow.Running? ==> loopLevel == level
        invariant again ==> words > 0 && flow == Running && !Pending()
        invariant again ==> r == SemFor(env, body, e, level, history, status, words, fuel)
        invariant !again ==> Reached(r, status, flow)
        decreases again, words
      {
        status, flow, again := ForRound(body, at, e, status, words, fuel, old(flags), old(next), end);
        words := words - 1;
        again := again && words > 0;
      }
      if flow.Running? {
        loopLevel := loopLevel - 1;
      }
    }

    /** The body once, then the counters. */
    method ForRound(body: Cmd, ghost at: nat, e: bool, ghost status: int, ghost left: nat, fuel: nat,
            ghost f0: set<nat>, ghost n0: nat, ghost end: nat)
      returns (status': int, flow: Flow, again: bool)
      requires Ready() && body.Node? && Child(body, at, e) && left > 0 && !Pending()
      requires Grows(f0, flags, at, end, n0) && n0 <= next && end == at + Size(body)
      modifies this
      ensures Ready() && n0 <= next && Grows(f0, flags, at, end, n0) && Child(body, at, e)
      ensures flow.Running? ==> loopLevel == old(loopLevel)
      ensures again ==> flow == Running && !Pending()
      ensures var r := SemFor(env, body, e, old(loopLevel), old(history), status, left, fuel);
              if again then r == SemFor(env, body, e, old(loopLevel), history, status', left - 1, fuel)
              else Reached(r, status', flow)
      decreases fuel, body, 6
    {
      status', flow := RunChild(body, at, e, fuel);
      GrowsTwice(f0, old(flags), flags, at, end, n0, at, end, old(next));
      if !flow.Running? {
        return status', flow, false;
      }
      if breaking > 0 {
        breaking := breaking - 1;
        return status', Running, false;
      }
      if continuing > 0 {
        continuing := continuing - 1;
        if continuing > 0 {
          return status', Running, false;
        }
      }
      again := true;
    }

    method ExecuteWhileOrUntil(c: Cmd, e: bool, rounds: nat) returns (status: int, flow: Flow)
      requires Ready() && Inside(c, e) && c.body.Loop?
      modifies this
      ensures Ready() && old(next) <= next && Grows(old(flags), flags, c.id + 1, c.id + Size(c), old(next))
      ensures WithinBody(flags, c.body, e, env.errexit) && (flow.Running? ==> loopLevel == old(loopLevel))
      ensures Reached(SemBody(env, c.body, e, c.invert, old(loopLevel), old(history), rounds), status, flow)
      decreases rounds, c, 2
    {
      var b := c.body;
      var fuel: nat := rounds;
      ghost var at, end, level := c.id + 1, c.id + Size(c), loopLevel + 1;
      assert SizeBody(b) == Size(b.test) + Size(b.body);
      ghost var r := SemBody(env, b, e, c.invert, old(loopLevel), old(history), rounds);
      loopLevel := loopLevel + 1;
      status, flow := SUCCESS, Running;
      var again := true;
      while again
        invariant Ready() && old(next) <= next && Grows(old(flags), flags, at, end, old(next))
        invariant Child(b.test, at, true) && Child(b.body, at + Size(b.test), e) && fuel <= rounds
        invariant flow.Running? ==> loopLevel == level
        invariant again ==> flow == Running && !Pending() && r == SemLoop(env, b, e, level, history, status, fuel)
        invariant !again ==> Reached(r, status, flow)
        decreases again, fuel
      {
        status, flow, again := OneRound(b, at, e, status, fuel, old(flags), old(next), end);
        if again {
          if fuel == 0 {
            return SUCCESS, Starved;
          }
          fuel := fuel - 1;
        }
      }
      if flow.Running? {
        loopLevel := loopLevel - 1;
      }
    }

    /** The test and, unless it ends the loop, the body; then the counters. */
    method OneRound(b: Body, ghost at: nat, e: bool, status: int, fuel: nat, ghost f0: set<nat>, ghost n0: nat,
            ghost end: nat)
      returns (status': int, flow: Flow, again: bool)
      requires Ready() && b.Loop? && b.test.Node? && b.body.Node? && Child(b.test, at, true)
      requires Child(b.body, at + Size(b.test), e)
      requires Grows(f0, flags, at, end, n0) && n0 <= next && end == at + Size(b.test) + Size(b.body) && !Pending()
      modifies this
      ensures Ready() && n0 <= next && Grows(f0, flags, at, end, n0)
      ensures Child(b.test, at, true) && Child(b.body, at + Size(b.test), e)
      ensures flow.Running? ==> loopLevel == old(loopLevel)
      ensures again ==> flow == Running && !Pending()
      ensures again ==> SemLoop(env, b, e, old(loopLevel), old(history), status, fuel) ==
                        Round(env, b, e, old(loopLevel), Result(status', Go, history), fuel)
      ensures !again ==> Reached(SemLoop(env, b, e, old(loopLevel), old(history), status, fuel), status', flow)
      decreases fuel, b, 4
    {
      var returnValue;
      returnValue, flow := RunTest(b, at, e, fuel, f0, n0, end);
      if !flow.Running? {
        return returnValue, flow, false;
      }
      if (returnValue == SUCCESS) == b.until {
        if breaking > 0 {
          breaking := breaking - 1;
        }
        return status, Running, false;
      }
      status', flow := RunLoopBody(b, at, e, fuel, f0, n0, end);
      if !flow.Running? {
        return status', flow, false;
      }
      if breaking > 0 {
        breaking := breaking - 1;
        return status', Running, false;
      }
      if continuing > 0 {
        continuing := continuing - 1;
        if continuing > 0 {
          return status', Running, false;
        }
      }
      again := true;
    }

    method RunTest(b: Body, ghost at: nat, ghost e: bool, fuel: nat, ghost f0: set<nat>, ghost n0: nat, ghost end: nat)
      returns (status: int, flow: Flow)
      requires Ready() && b.Loop? && b.test.Node? && Child(b.test, at, true) && Child(b.body, at + Size(b.test), e)
      requires Grows(f0, flags, at, end, n0) && n0 <= next && end == at + Size(b.test) + Size(b.body) && !Pending()
      modifies this
      ensures Ready() && n0 <= next && Grows(f0, flags, at, end, n0)
      ensures Child(b.test, at, true) && Child(b.body, at + Size(b.test), e)
      ensures flow.Running? ==> loopLevel == old(loopLevel)
      ensures Reached(Sem(env, b.test, true, old(loopLevel), old(history), fuel), status, flow)
      ensures flow.Running? ==> lastStatus == status
      decreases fuel, b, 3
    {
      status, flow := RunChild(b.test, at, true, fuel);
      StillWithin(old(flags), flags, b.body, at + Size(b.test), e, env.errexit, at, at + Size(b.test), old(next));
      GrowsTwice(f0, old(flags), flags, at, end, n0, at, at + Size(b.test), old(next));
    }

    method RunLoopBody(b: Body, ghost at: nat, e: bool, fuel: nat, ghost f0: set<nat>, ghost n0: nat, ghost end: nat)
      returns (status: int, flow: Flow)
      requires Ready() && b.Loop? && b.body.Node? && Child(b.test, at, true) && Child(b.body, at + Size(b.test), e)
      requires Grows(f0, flags, at, end, n0) && n0 <= next && end == at + Size(b.test) + Size(b.body)
      modifies this
      ensures Ready() && n0 <= next && Grows(f0, flags, at, end, n0)
      ensures Child(b.test, at, true) && Child(b.body, at + Size(b.test), e)
      ensures flow.Running? ==> loopLevel == old(loopLevel)
      ensures old(Pending()) ==>
                && flow == Running && status == old(lastStatus)
                && breaking == old(breaking) && continuing == old(continuing) && history == old(history)
      ensures !old(Pending()) ==> Reached(Sem(env, b.body, e, old(loopLevel), old(history), fuel), status, flow)
      decreases fuel, b, 3
    {
      status, flow := RunChild(b.body, at + Size(b.test), e, fuel);
      StillWithin(old(flags), flags, b.test, at, true, env.errexit, at + Size(b.test), end, old(next));
      GrowsTwice(f0, old(flags), flags, at, end, n0, at + Size(b.test), end, old(next));
    }

    /** The clauses from cl on, the first of which is at `at`. */
    method ExecuteCase(word: string, cl: Clauses, ghost at: nat, e: bool, retval: int, fuel: nat)
      returns (status: int, flow: Flow)
      requires Ready() && WellFormedClauses(cl) && PlacedClauses(cl, at) && base <= at && at + SizeClauses(cl) <= next
      requires WithinClauses(flags, cl, e, env.errexit) && (Pending() ==> retval == lastStatus)
      modifies this
      ensures Ready() && old(next) <= next && Grows(old(flags), flags, at, at + SizeClauses(cl), old(next))
      ensures WithinClauses(flags, cl, e, env.errexit) && (flow.Running? ==> loopLevel == old(loopLevel))
      ensures old(Pending()) ==>
                && flow == Running && status == lastStatus == old(lastStatus)
                && breaking == old(breaking) && continuing == old(continuing) && history == old(history)
      ensures !old(Pending()) ==>
                Reached(SemCase(env, word, cl, e, old(loopLevel), old(history), retval, fuel), status, flow)
      decreases fuel, cl, 5
    {
      if cl.NoClause? {
        return retval, Running;
      }
      if env.matches(word, cl.pattern, history) {
        status, flow := ExecuteClause(word, cl, at, e, fuel);
      } else {
        status, flow := ExecuteCase(word, cl.rest, at + Size(cl.cmd), e, retval, fuel);
        StillWithin(old(flags), flags, cl.cmd, at, e, env.errexit, at + Size(cl.cmd), at + SizeClauses(cl), old(next));
      }
    }

    /** A clause that applies, and what its ending leads to. */
    method ExecuteClause(word: string, cl: Clauses, ghost at: nat, e: bool, fuel: nat) returns (status: int, flow: Flow)
      requires Ready() && cl.Clause? && WellFormedClauses(cl) && PlacedClauses(cl, at) && base <= at
            && at + SizeClauses(cl) <= next
      requires WithinClauses(flags, cl, e, env.errexit)
      modifies this
      ensures Ready() && old(next) <= next && Grows(old(flags), flags, at, at + SizeClauses(cl), old(next))
      ensures WithinClauses(flags, cl, e, env.errexit) && (flow.Running? ==> loopLevel == old(loopLevel))
      ensures old(Pending()) ==>
                && flow == Running && status == lastStatus == old(lastStatus)
                && breaking == old(breaking) && continuing == old(continuing) && history == old(history)
      ensures !old(Pending()) ==> Reached(SemClause(env, word, cl, e, old(loopLevel), old(history), fuel), status, flow)
      decreases fuel, cl, 4
    {
      ghost var mid, end := at + Size(cl.cmd), at + SizeClauses(cl);
      status, flow := RunChild(cl.cmd, at, e, fuel);
      ghost var f1, n1 := flags, next;
      WithinClausesLess(old(flags), f1, cl.rest, mid, e, env.errexit);
      if !flow.Running? {
        return;
      }
      if cl.ending == FallThrough && cl.rest.Clause? {
        status, flow := ExecuteClause(word, cl.rest, mid, e, fuel);
      } else if cl.ending == TestNext {
        status, flow := ExecuteCase(word, cl.rest, mid, e, status, fuel);
      } else {
        return;
      }
      StillWithin(f1, flags, cl.cmd, at, e, env.errexit, mid, end, n1);
      GrowsTwice(old(flags), f1, flags, at, end, old(next), mid, end, n1);
    }

    method ExecuteSimple(c: Cmd, e: bool, fuel: nat) returns (status: int, flow: Flow)
      requires Ready() && Inside(c, e) && c.body.Simple? && (Inner(c) in flags <==> e)
      modifies this
      ensures Ready() && old(next) <= next && Grows(old(flags), flags, c.id + 1, c.id + Size(c), old(next))
      ensures flow.Running? ==> loopLevel == old(loopLevel)
      ensures Reached(SemBody(env, c.body, e, c.invert, old(loopLevel), old(history), fuel), status, flow)
      decreases fuel, c, 2
    {
      status, flow := RunAction(c, Inner(c) in flags, fuel);
      if !flow.Running? {
        return;
      }
      history := history + [Entry(Name(c.body.action), status, e || c.invert)];
      if !e && !c.invert && env.errexit && status != SUCCESS {
        lastStatus := status;
        flow := Exited;
      }
    }

    method RunAction(c: Cmd, e: bool, fuel: nat) returns (status: int, flow: Flow)
      requires Ready() && c.Node? && c.body.Simple? && !Pending()
      modifies this
      ensures Ready() && old(next) <= next && Grows(old(flags), flags, 0, 0, old(next))
      ensures flow.Running? ==> loopLevel == old(loopLevel)
      ensures Reached(SemAction(env, c.body.action, e, old(loopLevel), old(history), fuel), status, flow)
      decreases fuel, c, 1
    {
      var action := c.body.action;
      flow := Running;
      if action.Break? {
        status := BreakBuiltin(action.count, e, fuel);
      } else if action.Continue? {
        status := ContinueBuiltin(action.count, e, fuel);
      } else if action.name in env.funcs {
        status, flow := ExecuteFunction(c, action.name, e, fuel);
      } else {
        status := env.status(action.name, history);
      }
    }

    method BreakBuiltin(n: int, ghost e: bool, ghost fuel: nat) returns (status: int)
      requires Ready() && !Pending()
      modifies this`breaking
      ensures Ready() && Reached(SemAction(env, Break(n), e, loopLevel, history, fuel), status, Running)
    {
      if loopLevel == 0 {
        return SUCCESS;
      }
      if n <= 0 {
        breaking := loopLevel;
        return FAILURE;
      }
      breaking := if n > loopLevel then loopLevel else n;
      return SUCCESS;
    }

    method ContinueBuiltin(n: int, ghost e: bool, ghost fuel: nat) returns (status: int)
      requires Ready() && !Pending()
      modifies this`breaking, this`continuing
      ensures Ready() && Reached(SemAction(env, Continue(n), e, loopLevel, history, fuel), status, Running)
    {
      if loopLevel == 0 {
        return SUCCESS;
      }
      if n <= 0 {
        breaking := loopLevel;
        return FAILURE;
      }
      continuing := if n > loopLevel then loopLevel else n;
      return SUCCESS;
    }

    /** A function runs a fresh copy of its body, marked if the call is exempt. */
    method ExecuteFunction(ghost c: Cmd, name: string, e: bool, fuel: nat) returns (status: int, flow: Flow)
      requires Ready() && name in env.funcs && !Pending()
      modifies this
      ensures Ready() && old(next) <= next && Grows(old(flags), flags, 0, 0, old(next))
      ensures flow.Running? ==> loopLevel == old(loopLevel)
      ensures Reached(SemAction(env, Run(name), e, old(loopLevel), old(history), fuel), status, flow)
      decreases fuel, c, 0
    {
      if fuel == 0 {
        return SUCCESS, Starved;
      }
      var at := next;
      BelowGrows(env.funcs[name], base, next);
      NoFlags(flags, env.funcs[name], base, next);
      var copy := CopyCommand(env.funcs[name]);
      WithinNone(copy, e, env.errexit);
      WithinLess({}, flags, copy, at, e, env.errexit);
      SameShape(env, env.funcs[name], copy, e, loopLevel, history, fuel - 1);
      status, flow := RunChild(copy, at, e, fuel - 1);
      if flow.Running? {
        status := if status == 258 then 2 else if status > 256 then 1 else status;
      }
    }

    /** copy_command: new nodes throughout, with the flags of the old ones. */
    method CopyCommand(c: Cmd) returns (copy: Cmd)
      requires Ready() && WellFormed(c) && Below(c, next)
      modifies this`next, this`flags
      ensures Ready() && next == old(next) + Size(c) && flags == old(flags) + CopiedFlags(old(flags), c, old(next))
      ensures WellFormed(copy) && Size(copy) == Size(c) && Shape(copy) == Shape(c) && Placed(copy, old(next))
      ensures Agree(old(flags), flags, old(next))
      decreases Size(c), 0
    {
      if c.Null? {
        return Null;
      }
      var id := next;
      next := next + 1;
      AgreeBelow(flags, c, id);
      flags := flags + NodeFlags(flags, c, id);
      SameFlagsBody(old(flags), flags, c.body, id, id + 1);
      BelowBodyGrows(c.body, id, id + 1);
      ghost var marked := flags;
      var body := CopyBody(c.body);
      AgreeTwice(old(flags), marked, flags, id, id + 1);
      copy := Node(id, c.invert, body);
    }

    method CopyBody(b: Body) returns (copy: Body)
      requires Ready() && WellFormedBody(b) && BelowBody(b, next)
      modifies this`next, this`flags
      ensures Ready() && next == old(next) + SizeBody(b) && flags == old(flags) + CopiedBody(old(flags), b, old(next))
      ensures WellFormedBody(copy) && SizeBody(copy) == SizeBody(b) && ShapeBody(copy) == ShapeBody(b)
      ensures PlacedBody(copy, old(next)) && Agree(old(flags), flags, old(next))
      decreases SizeBody(b), 5
    {
      match b
      case Simple(_) => copy := b;
      case Connect(_, _, _) => copy := CopyConnection(b);
      case If(_, _, _) => copy := CopyIf(b);
      case Loop(_, _, _) => copy := CopyLoop(b);
      case For(list, body) =>
        var c1 := CopyCommand(body);
        copy := For(list, c1);
      case Case(word, clauses) =>
        var cl := CopyClauses(clauses, old(next), old(flags));
        copy := Case(word, cl);
      case Group(cmd) =>
        var c1 := CopyCommand(cmd);
        copy := Group(c1);
    }

    method CopyConnection(b: Body) returns (copy: Body)
      requires Ready() && WellFormedBody(b) && BelowBody(b, next) && b.Connect?
      modifies this`next, this`flags
      ensures Ready() && next == old(next) + SizeBody(b) && flags == old(flags) + CopiedBody(old(flags), b, old(next))
      ensures WellFormedBody(copy) && SizeBody(copy) == SizeBody(b) && ShapeBody(copy) == ShapeBody(b)
      ensures PlacedBody(copy, old(next)) && Agree(old(flags), flags, old(next))
      decreases SizeBody(b), 4
    {
      var c1, c2 := CopyPair(b.first, b.second);
      copy := Connect(b.op, c1, c2);
    }

    method CopyLoop(b: Body) returns (copy: Body)
      requires Ready() && WellFormedBody(b) && BelowBody(b, next) && b.Loop?
      modifies this`next, this`flags
      ensures Ready() && next == old(next) + SizeBody(b) && flags == old(flags) + CopiedBody(old(flags), b, old(next))
      ensures WellFormedBody(copy) && SizeBody(copy) == SizeBody(b) && ShapeBody(copy) == ShapeBody(b)
      ensures PlacedBody(copy, old(next)) && Agree(old(flags), flags, old(next))
      decreases SizeBody(b), 4
    {
      var c1, c2 := CopyPair(b.test, b.body);
      copy := Loop(b.until, c1, c2);
    }

    method CopyIf(b: Body) returns (copy: Body)
      requires Ready() && WellFormedBody(b) && BelowBody(b, next) && b.If?
      modifies this`next, this`flags
      ensures Ready() && next == old(next) + SizeBody(b) && flags == old(flags) + CopiedBody(old(flags), b, old(next))
      ensures WellFormedBody(copy) && SizeBody(copy) == SizeBody(b) && ShapeBody(copy) == ShapeBody(b)
      ensures PlacedBody(copy, old(next)) && Agree(old(flags), flags, old(next))
      decreases SizeBody(b), 4
    {
      ghost var at := next;
      var c1, c2 := CopyPair(b.test, b.yes);
      var c3 := CopyNext(b.no, at, old(flags));
      copy := If(c1, c2, c3);
    }

    method CopyPair(a: Cmd, b: Cmd) returns (a': Cmd, b': Cmd)
      requires Ready() && WellFormed(a) && WellFormed(b) && Below(a, next) && Below(b, next)
      modifies this`next, this`flags
      ensures Ready() && next == old(next) + Size(a) + Size(b) && Agree(old(flags), flags, old(next))
      ensures var at := old(next);
              && flags == old(flags) + (CopiedFlags(old(flags), a, at) + CopiedFlags(old(flags), b, at + Size(a)))
              && Placed(a', at) && Placed(b', at + Size(a))
      ensures WellFormed(a') && Size(a') == Size(a) && Shape(a') == Shape(a)
      ensures WellFormed(b') && Size(b') == Size(b) && Shape(b') == Shape(b)
      decreases Size(a) + Size(b), 3
    {
      a' := CopyCommand(a);
      b' := CopyNext(b, old(next), old(flags));
    }

    /** Copying goes on: what is copied lies below start, where the flags are still f0. */
    method CopyNext(c: Cmd, ghost start: nat, ghost f0: set<nat>) returns (copy: Cmd)
      requires Ready() && WellFormed(c) && Below(c, start) && start <= next && Agree(f0, flags, start)
      modifies this`next, this`flags
      ensures Ready() && next == old(next) + Size(c) && flags == old(flags) + CopiedFlags(f0, c, old(next))
      ensures Agree(f0, flags, start)
      ensures WellFormed(copy) && Size(copy) == Size(c) && Shape(copy) == Shape(c) && Placed(copy, old(next))
      decreases Size(c), 1
    {
      BelowGrows(c, start, next);
      SameFlags(f0, flags, c, start, next);
      copy := CopyCommand(c);
      AgreeTwice(f0, old(flags), flags, start, old(next));
    }

    method CopyClauses(cl: Clauses, ghost start: nat, ghost f0: set<nat>) returns (copy: Clauses)
      requires Ready() && WellFormedClauses(cl) && BelowClauses(cl, start) && start <= next && Agree(f0, flags, start)
      modifies this`next, this`flags
      ensures Ready() && next == old(next) + SizeClauses(cl) && flags == old(flags) + CopiedClauses(f0, cl, old(next))
      ensures Agree(f0, flags, start)
      ensures WellFormedClauses(copy) && SizeClauses(copy) == SizeClauses(cl) && ShapeClauses(copy) == ShapeClauses(cl)
      ensures PlacedClauses(copy, old(next))
      decreases SizeClauses(cl), 2, cl
    {
      if cl.NoClause? {
        return NoClause;
      }
      var c1 := CopyNext(cl.cmd, start, f0);
      var rest := CopyClauses(cl.rest, start, f0);
      copy := Clause(cl.pattern, c1, cl.ending, rest);
    }
  }
}
