/** Parsed commands as trees of nodes with addresses, the flags set in those nodes while they
    run, and copying. */
module Commands {
  datatype Action = Run(name: string) | Break(count: int) | Continue(count: int)

  datatype Connector = Semi | AndAnd | OrOr

  /** How a case clause ends: `;;`, `;&` or `;;&`. */
  datatype Ending = Stop | FallThrough | TestNext

  /** Null is the absent command; invert is the `!` in front. */
  datatype Cmd = Null | Node(id: nat, invert: bool, body: Body)
  datatype Body =
    | Simple(action: Action)
    | Connect(op: Connector, first: Cmd, second: Cmd)
    | If(test: Cmd, yes: Cmd, no: Cmd)
    | Loop(until: bool, test: Cmd, body: Cmd)
    | For(list: string, body: Cmd)
    | Case(word: string, clauses: Clauses)
    | Group(cmd: Cmd)
  datatype Clauses = NoClause | Clause(pattern: string, cmd: Cmd, ending: Ending, rest: Clauses)

  /** Tests and loop bodies are always present. */
  predicate WellFormed(c: Cmd) { c.Null? || WellFormedBody(c.body) }

  predicate WellFormedBody(b: Body) {
    match b
    case Simple(_) => true
    case Connect(_, first, second) => WellFormed(first) && WellFormed(second)
    case If(test, yes, no) => test.Node? && WellFormed(test) && WellFormed(yes) && WellFormed(no)
    case Loop(_, test, body) => test.Node? && WellFormed(test) && body.Node? && WellFormed(body)
    case For(_, body) => body.Node? && WellFormed(body)
    case Case(_, clauses) => WellFormedClauses(clauses)
    case Group(cmd) => WellFormed(cmd)
  }

  predicate WellFormedClauses(cl: Clauses) {
    cl.NoClause? || (WellFormed(cl.cmd) && WellFormedClauses(cl.rest))
  }

  // ----- where the nodes are -----

  function Size(c: Cmd): nat { if c.Null? then 0 else 1 + SizeBody(c.body) }

  function SizeBody(b: Body): nat {
    match b
    case Simple(_) => 0
    case Connect(_, first, second) => Size(first) + Size(second)
    case If(test, yes, no) => Size(test) + Size(yes) + Size(no)
    case Loop(_, test, body) => Size(test) + Size(body)
    case For(_, body) => Size(body)
    case Case(_, clauses) => SizeClauses(clauses)
    case Group(cmd) => Size(cmd)
  }

  function SizeClauses(cl: Clauses): nat {
    if cl.NoClause? then 0 else Size(cl.cmd) + SizeClauses(cl.rest)
  }

  /** The nodes of c have the addresses from lo on, no two the same. */
  predicate Placed(c: Cmd, lo: nat) { c.Null? || (c.id == lo && PlacedBody(c.body, lo + 1)) }

  predicate PlacedBody(b: Body, lo: nat) {
    match b
    case Simple(_) => true
    case Connect(_, first, second) => Placed(first, lo) && Placed(second, lo + Size(first))
    case If(test, yes, no) =>
      Placed(test, lo) && Placed(yes, lo + Size(test)) && Placed(no, lo + Size(test) + Size(yes))
    case Loop(_, test, body) => Placed(test, lo) && Placed(body, lo + Size(test))
    case For(_, body) => Placed(body, lo)
    case Case(_, clauses) => PlacedClauses(clauses, lo)
    case Group(cmd) => Placed(cmd, lo)
  }

  predicate PlacedClauses(cl: Clauses, lo: nat) {
    cl.NoClause? || (Placed(cl.cmd, lo) && PlacedClauses(cl.rest, lo + Size(cl.cmd)))
  }

  /** The tree without its addresses. */
  function Shape(c: Cmd): Cmd { if c.Null? then Null else Node(0, c.invert, ShapeBody(c.body)) }

  function ShapeBody(b: Body): Body {
    match b
    case Simple(action) => b
    case Connect(op, first, second) => Connect(op, Shape(first), Shape(second))
    case If(test, yes, no) => If(Shape(test), Shape(yes), Shape(no))
    case Loop(until, test, body) => Loop(until, Shape(test), Shape(body))
    case For(list, body) => For(list, Shape(body))
    case Case(word, clauses) => Case(word, ShapeClauses(clauses))
    case Group(cmd) => Group(Shape(cmd))
  }

  function ShapeClauses(cl: Clauses): Clauses {
    if cl.NoClause? then cl else Clause(cl.pattern, Shape(cl.cmd), cl.ending, ShapeClauses(cl.rest))
  }

  // ----- the flags -----

  /** A node has two flag words: its own, and that of the structure its value points to. */
  function Own(c: Cmd): nat
    requires c.Node?
  {
    2 * c.id
  }

  function Inner(c: Cmd): nat
    requires c.Node?
  {
    2 * c.id + 1
  }

  /** Whether failures below c are ignored, given whether those of c are. */
  predicate Exempt(c: Cmd, exempt: bool, errexit: bool)
    requires c.Node?
  {
    exempt || (c.invert && errexit)
  }

  /** A flag is set only where the context ignores failures: tests, operands of `&&` and
      `||` but the last, and everything below `!` or an exempt command. */
  predicate Within(flags: set<nat>, c: Cmd, exempt: bool, errexit: bool) {
    c.Null? || (
      var e := Exempt(c, exempt, errexit);
      && (Own(c) in flags || Inner(c) in flags ==> e)
      && WithinBody(flags, c.body, e, errexit))
  }

  predicate WithinBody(flags: set<nat>, b: Body, e: bool, errexit: bool) {
    match b
    case Simple(_) => true
    case Connect(op, first, second) =>
      Within(flags, first, e || op != Semi, errexit) && Within(flags, second, e, errexit)
    case If(test, yes, no) =>
      Within(flags, test, true, errexit) && Within(flags, yes, e, errexit) && Within(flags, no, e, errexit)
    case Loop(_, test, body) => Within(flags, test, true, errexit) && Within(flags, body, e, errexit)
    case For(_, body) => Within(flags, body, e, errexit)
    case Case(_, clauses) => WithinClauses(flags, clauses, e, errexit)
    case Group(cmd) => Within(flags, cmd, e, errexit)
  }

  predicate WithinClauses(flags: set<nat>, cl: Clauses, e: bool, errexit: bool) {
    cl.NoClause? || (Within(flags, cl.cmd, e, errexit) && WithinClauses(flags, cl.rest, e, errexit))
  }

  /** No flag is set in the nodes from lo to hi, or only flags that were set before. */
  ghost predicate NoMore(flags: set<nat>, flags': set<nat>, lo: nat, hi: nat) {
    forall x :: 2 * lo <= x < 2 * hi && x in flags' ==> x in flags
  }

  lemma {:induction false} WithinLess(flags: set<nat>, flags': set<nat>, c: Cmd, lo: nat, exempt: bool, errexit: bool)
    requires Placed(c, lo) && Within(flags, c, exempt, errexit) && NoMore(flags, flags', lo, lo + Size(c))
    ensures Within(flags', c, exempt, errexit)
    decreases c
  {
    if c.Node? {
      WithinBodyLess(flags, flags', c.body, lo + 1, Exempt(c, exempt, errexit), errexit);
    }
  }

  lemma {:induction false} WithinBodyLess(flags: set<nat>, flags': set<nat>, b: Body, lo: nat, e: bool, errexit: bool)
    requires PlacedBody(b, lo) && WithinBody(flags, b, e, errexit) && NoMore(flags, flags', lo, lo + SizeBody(b))
    ensures WithinBody(flags', b, e, errexit)
    decreases b
  {
    match b
    case Simple(_) =>
    case Connect(op, first, second) =>
      WithinLess(flags, flags', first, lo, e || op != Semi, errexit);
      WithinLess(flags, flags', second, lo + Size(first), e, errexit);
    case If(test, yes, no) =>
      WithinLess(flags, flags', test, lo, true, errexit);
      WithinLess(flags, flags', yes, lo + Size(test), e, errexit);
      WithinLess(flags, flags', no, lo + Size(test) + Size(yes), e, errexit);
    case Loop(_, test, body) =>
      WithinLess(flags, flags', test, lo, true, errexit);
      WithinLess(flags, flags', body, lo + Size(test), e, errexit);
    case For(_, body) => WithinLess(flags, flags', body, lo, e, errexit);
    case Case(_, clauses) => WithinClausesLess(flags, flags', clauses, lo, e, errexit);
    case Group(cmd) => WithinLess(flags, flags', cmd, lo, e, errexit);
  }

  lemma {:induction false} WithinClausesLess(flags: set<nat>, flags': set<nat>, cl: Clauses, lo: nat, e: bool,
          errexit: bool)
    requires PlacedClauses(cl, lo) && WithinClauses(flags, cl, e, errexit)
    requires NoMore(flags, flags', lo, lo + SizeClauses(cl))
    ensures WithinClauses(flags', cl, e, errexit)
    decreases cl
  {
    if cl.Clause? {
      WithinLess(flags, flags', cl.cmd, lo, e, errexit);
      WithinClausesLess(flags, flags', cl.rest, lo + Size(cl.cmd), e, errexit);
    }
  }

  /** In a context that is exempt, flags may be anywhere the parent allows; a tree with no
      flags at all is within any context. */
  lemma {:induction false} WithinNone(c: Cmd, exempt: bool, errexit: bool)
    ensures Within({}, c, exempt, errexit)
    decreases c
  {
    if c.Node? {
      WithinNoneBody(c.body, Exempt(c, exempt, errexit), errexit);
    }
  }

  lemma {:induction false} WithinNoneBody(b: Body, e: bool, errexit: bool)
    ensures WithinBody({}, b, e, errexit)
    decreases b
  {
    match b
    case Simple(_) =>
    case Connect(op, first, second) =>
      WithinNone(first, e || op != Semi, errexit);
      WithinNone(second, e, errexit);
    case If(test, yes, no) =>
      WithinNone(test, true, errexit);
      WithinNone(yes, e, errexit);
      WithinNone(no, e, errexit);
    case Loop(_, test, body) =>
      WithinNone(test, true, errexit);
      WithinNone(body, e, errexit);
    case For(_, body) => WithinNone(body, e, errexit);
    case Case(_, clauses) => WithinNoneClauses(clauses, e, errexit);
    case Group(cmd) => WithinNone(cmd, e, errexit);
  }

  lemma {:induction false} WithinNoneClauses(cl: Clauses, e: bool, errexit: bool)
    ensures WithinClauses({}, cl, e, errexit)
    decreases cl
  {
    if cl.Clause? {
      WithinNone(cl.cmd, e, errexit);
      WithinNoneClauses(cl.rest, e, errexit);
    }
  }
}
