/** What commands mean, with explicit outcomes instead of counters and flags: a command ends
    normally, breaks out of or continues some number of loops, or ends the shell. */
module Structured {
  import opened Commands

  const SUCCESS: int := 0
  const FAILURE: int := 1

  /** A simple command that has run: whether its failure was ignored is part of the record. */
  datatype Entry = Entry(name: string, status: int, exempt: bool)
  type History = seq<Entry>

  /** The function table, and what is not modelled: statuses of simple commands, the number of
      words in a list, pattern matching.  `errexit` is `set -e`; `stop` says whether the shell
      ends at a failure; `uniform` treats a `continue` in a loop's test like one in its body. */
  datatype Env = Env(errexit: bool, stop: bool, uniform: bool, funcs: map<string, Cmd>,
                     status: (string, History) -> int, words: (string, History) -> nat,
                     matches: (string, string, History) -> bool)

  datatype Signal = Go | Breaks(n: nat) | Continues(n: nat) | Exits | OutOfFuel

  datatype Result = Result(status: int, signal: Signal, history: History)

  /** A status as a function returns it. */
  function FunctionStatus(status: int): int {
    if status == 258 then 2 else if status > 256 then 1 else status
  }

  function Clamp(n: int, level: nat): nat
    requires n > 0
  {
    if n > level then level else n
  }

  predicate Ended(r: Result) { r.signal.Exits? || r.signal.OutOfFuel? }

  /** The end of a loop that is left by a signal from inside. */
  function Leave(status: int, signal: Signal, h: History): Result
    requires (signal.Breaks? || signal.Continues?) && signal.n > 0
  {
    var left := if signal.n == 1 then Go else if signal.Breaks? then Breaks(signal.n - 1) else Continues(signal.n - 1);
    Result(status, left, h)
  }

  /** A signal that sends the loop on to its next round. */
  predicate GoesOn(signal: Signal) { signal.Go? || signal == Continues(1) }

  predicate Counted(r: Result) { r.signal.Breaks? || r.signal.Continues? ==> r.signal.n > 0 }

  function Sem(env: Env, c: Cmd, exempt: bool, level: nat, h: History, fuel: nat): (r: Result)
    ensures Counted(r)
    decreases fuel, c, 3
  {
    if c.Null? then Result(SUCCESS, Go, h)
    else
      var r := SemBody(env, c.body, Exempt(c, exempt, env.errexit), c.invert, level, h, fuel);
      if Ended(r) || !c.invert then r
      else r.(status := if r.status == SUCCESS then FAILURE else SUCCESS)
  }

  function SemBody(env: Env, b: Body, e: bool, invert: bool, level: nat, h: History, fuel: nat): (r: Result)
    ensures Counted(r)
    decreases fuel, b, 2
  {
    match b
    case Simple(action) => SemSimple(env, action, e, invert, level, h, fuel)
    case Connect(op, first, second) =>
      var r := Sem(env, first, e || op != Semi, level, h, fuel);
      if !r.signal.Go? || !Proceeds(op, r.status) then r
      else Sem(env, second, e, level, r.history, fuel)
    case If(test, yes, no) =>
      var r := Sem(env, test, true, level, h, fuel);
      if !r.signal.Go? then r
      else if r.status == SUCCESS then Sem(env, yes, e, level, r.history, fuel)
      else Sem(env, no, e, level, r.history, fuel)
    case Loop(_, _, _) => SemLoop(env, b, e, level + 1, h, SUCCESS, fuel)
    case For(list, body) => SemFor(env, body, e, level + 1, h, SUCCESS, env.words(list, h), fuel)
    case Case(word, clauses) => SemCase(env, word, clauses, e, level, h, SUCCESS, fuel)
    case Group(cmd) => Sem(env, cmd, e, level, h, fuel)
  }

  predicate Proceeds(op: Connector, status: int) {
    op == Semi || (op == AndAnd && status == SUCCESS) || (op == OrOr && status != SUCCESS)
  }

  /** A simple command, a builtin or a function; then the check that ends the shell. */
  function SemSimple(env: Env, action: Action, e: bool, invert: bool, level: nat, h: History, fuel: nat): (r: Result)
    ensures Counted(r)
    decreases fuel, action, 1
  {
    var r := SemAction(env, action, e, level, h, fuel);
    if Ended(r) then r else Finish(env, Name(action), e || invert, r)
  }

  function Name(action: Action): string {
    match action
    case Run(name) => name
    case Break(_) => "break"
    case Continue(_) => "continue"
  }

  function Finish(env: Env, name: string, e: bool, r: Result): Result {
    Result(r.status,
           if env.stop && !e && r.status != SUCCESS then Exits else r.signal,
           r.history + [Entry(name, r.status, e)])
  }

  function SemAction(env: Env, action: Action, e: bool, level: nat, h: History, fuel: nat): (r: Result)
    ensures Counted(r)
    decreases fuel, action, 0
  {
    match action
    case Run(name) =>
      if name !in env.funcs then Result(env.status(name, h), Go, h)
      else if fuel == 0 then Result(SUCCESS, OutOfFuel, h)
      else
        var r := Sem(env, env.funcs[name], e, level, h, fuel - 1);
        if Ended(r) then r else r.(status := FunctionStatus(r.status))
    case Break(n) =>
      if level == 0 then Result(SUCCESS, Go, h)
      else if n <= 0 then Result(FAILURE, Breaks(level), h)
      else Result(SUCCESS, Breaks(Clamp(n, level)), h)
    case Continue(n) =>
      if level == 0 then Result(SUCCESS, Go, h)
      else if n <= 0 then Result(FAILURE, Breaks(level), h)
      else Result(SUCCESS, Continues(Clamp(n, level)), h)
  }

  function SemFor(env: Env, body: Cmd, e: bool, level: nat, h: History, status: int, left: nat, fuel: nat): (r: Result)
    ensures Counted(r)
    decreases fuel, body, 4 + left
  {
    if left == 0 then Result(status, Go, h)
    else
      var r := Sem(env, body, e, level, h, fuel);
      if Ended(r) then r
      else if GoesOn(r.signal) then SemFor(env, body, e, level, r.history, r.status, left - 1, fuel)
      else Leave(r.status, r.signal, r.history)
  }

  /** One round of while or until, and the rounds after it. */
  function SemLoop(env: Env, b: Body, e: bool, level: nat, h: History, status: int, fuel: nat): (r: Result)
    requires b.Loop?
    ensures Counted(r)
    decreases fuel, b, 1
  {
    var t := Sem(env, b.test, true, level, h, fuel);
    if Ended(t) then t
    else if LoopEnds(env, b.until, t) then
      if t.signal.Breaks? then Leave(status, t.signal, t.history) else Result(status, t.signal, t.history)
    else
      Round(env, b, e, level, if t.signal.Go? then Sem(env, b.body, e, level, t.history, fuel) else t, fuel)
  }

  /** What follows the body of a loop. */
  function Round(env: Env, b: Body, e: bool, level: nat, r: Result, fuel: nat): (r': Result)
    requires b.Loop? && Counted(r)
    ensures Counted(r')
    decreases fuel, b, 0
  {
    if Ended(r) then r
    else if !GoesOn(r.signal) then Leave(r.status, r.signal, r.history)
    else if fuel == 0 then Result(SUCCESS, OutOfFuel, r.history)
    else SemLoop(env, b, e, level, r.history, r.status, fuel - 1)
  }

  /** The test's status ends the loop.  Treated uniformly, a `continue` there does not. */
  predicate LoopEnds(env: Env, until: bool, t: Result) {
    (t.status == SUCCESS) == until && !(env.uniform && t.signal.Continues?)
  }

  function SemCase(env: Env, word: string, cl: Clauses, e: bool, level: nat, h: History, status: int,
          fuel: nat): (r: Result)
    ensures Counted(r)
    decreases fuel, cl, 1
  {
    if cl.NoClause? then Result(status, Go, h)
    else if env.matches(word, cl.pattern, h) then SemClause(env, word, cl, e, level, h, fuel)
    else SemCase(env, word, cl.rest, e, level, h, status, fuel)
  }

  function SemClause(env: Env, word: string, cl: Clauses, e: bool, level: nat, h: History, fuel: nat): (r: Result)
    requires cl.Clause?
    ensures Counted(r)
    decreases fuel, cl, 0
  {
    var r := Sem(env, cl.cmd, e, level, h, fuel);
    if !r.signal.Go? then r
    else if cl.ending == FallThrough && cl.rest.Clause? then SemClause(env, word, cl.rest, e, level, r.history, fuel)
    else if cl.ending == TestNext then SemCase(env, word, cl.rest, e, level, r.history, r.status, fuel)
    else r
  }
}
