/** The flags of a copied tree, at its new addresses. */
module CopiedTrees {
  import opened Folding
  import opened Commands
  import opened Shapes

  /** The flags of one node, at a new address. */
  function NodeFlags(flags: set<nat>, c: Cmd, id: nat): set<nat>
    requires c.Node?
  {
    (if Own(c) in flags then {2 * id} else {}) + (if Inner(c) in flags then {2 * id + 1} else {})
  }

  function CopiedFlags(flags: set<nat>, c: Cmd, at: nat): set<nat> {
    if c.Null? then {} else NodeFlags(flags, c, at) + CopiedBody(flags, c.body, at + 1)
  }

  function CopiedBody(flags: set<nat>, b: Body, at: nat): set<nat> {
    match b
    case Simple(_) => {}
    case Connect(_, first, second) => CopiedFlags(flags, first, at) + CopiedFlags(flags, second, at + Size(first))
    case If(test, yes, no) =>
      CopiedFlags(flags, test, at) + CopiedFlags(flags, yes, at + Size(test))
      + CopiedFlags(flags, no, at + Size(test) + Size(yes))
    case Loop(_, test, body) => CopiedFlags(flags, test, at) + CopiedFlags(flags, body, at + Size(test))
    case For(_, body) => CopiedFlags(flags, body, at)
    case Case(_, clauses) => CopiedClauses(flags, clauses, at)
    case Group(cmd) => CopiedFlags(flags, cmd, at)
  }

  function CopiedClauses(flags: set<nat>, cl: Clauses, at: nat): set<nat> {
    if cl.NoClause? then {}
    else CopiedFlags(flags, cl.cmd, at) + CopiedClauses(flags, cl.rest, at + Size(cl.cmd))
  }

  /** Below an address two sets of flags are the same. */
  ghost predicate Agree(f: set<nat>, g: set<nat>, bound: nat) {
    forall z: nat {:trigger Show(z)} :: Show(z) ==> forall x :: 0 <= x < 2 * bound ==> (x in f <==> x in g)
  }

  lemma AgreeTwice(f: set<nat>, g: set<nat>, h: set<nat>, bound: nat, more: nat)
    requires Agree(f, g, bound) && Agree(g, h, more) && bound <= more
    ensures Agree(f, h, bound)
  {
    assert Show(0);
  }

  lemma AgreeOnNode(f: set<nat>, g: set<nat>, c: Cmd, bound: nat, at: nat)
    requires c.Node? && c.id < bound && Agree(f, g, bound)
    ensures NodeFlags(f, c, at) == NodeFlags(g, c, at)
  {
    assert Show(0);
  }

  lemma AgreeBelow(f: set<nat>, c: Cmd, at: nat)
    requires c.Node?
    ensures Agree(f, f + NodeFlags(f, c, at), at)
  {
  }

  lemma {:induction false} SameFlags(f: set<nat>, g: set<nat>, c: Cmd, bound: nat, at: nat)
    requires Below(c, bound) && Agree(f, g, bound)
    ensures CopiedFlags(f, c, at) == CopiedFlags(g, c, at)
    decreases c
  {
    if c.Node? {
      AgreeOnNode(f, g, c, bound, at);
      SameFlagsBody(f, g, c.body, bound, at + 1);
    }
  }

  lemma {:induction false} SameFlagsBody(f: set<nat>, g: set<nat>, b: Body, bound: nat, at: nat)
    requires BelowBody(b, bound) && Agree(f, g, bound)
    ensures CopiedBody(f, b, at) == CopiedBody(g, b, at)
    decreases b
  {
    match b
    case Simple(_) =>
    case Connect(_, first, second) =>
      SameFlags(f, g, first, bound, at);
      SameFlags(f, g, second, bound, at + Size(first));
    case If(test, yes, no) =>
      SameFlags(f, g, test, bound, at);
      SameFlags(f, g, yes, bound, at + Size(test));
      SameFlags(f, g, no, bound, at + Size(test) + Size(yes));
    case Loop(_, test, body) =>
      SameFlags(f, g, test, bound, at);
      SameFlags(f, g, body, bound, at + Size(test));
    case For(_, body) => SameFlags(f, g, body, bound, at);
    case Case(_, clauses) => SameFlagsClauses(f, g, clauses, bound, at);
    case Group(cmd) => SameFlags(f, g, cmd, bound, at);
  }

  lemma {:induction false} SameFlagsClauses(f: set<nat>, g: set<nat>, cl: Clauses, bound: nat, at: nat)
    requires BelowClauses(cl, bound) && Agree(f, g, bound)
    ensures CopiedClauses(f, cl, at) == CopiedClauses(g, cl, at)
    decreases cl
  {
    if cl.Clause? {
      SameFlags(f, g, cl.cmd, bound, at);
      SameFlagsClauses(f, g, cl.rest, bound, at + Size(cl.cmd));
    }
  }

  /** s holds the flags of the n nodes from lo on, moved to the nodes from at on. */
  ghost predicate Moved(f: set<nat>, s: set<nat>, lo: nat, at: nat, n: nat) {
    forall z: nat {:trigger Show(z)} :: Show(z) ==>
      forall x: int :: x in s <==> 2 * at <= x < 2 * (at + n) && x - 2 * at + 2 * lo in f
  }

  lemma MovedBoth(f: set<nat>, s: set<nat>, t: set<nat>, lo: nat, at: nat, m: nat, n: nat)
    requires Moved(f, s, lo, at, m) && Moved(f, t, lo + m, at + m, n)
    ensures Moved(f, s + t, lo, at, m + n)
  {
    assert Show(0);
  }

  lemma MovedNode(f: set<nat>, c: Cmd, at: nat)
    requires c.Node?
    ensures Moved(f, NodeFlags(f, c, at), c.id, at, 1)
  {
  }

  /** Copying moves each flag by the distance between the trees. */
  lemma CopyMovesFlags(f: set<nat>, c: Cmd, lo: nat, at: nat, x: int)
    requires Placed(c, lo)
    ensures x in CopiedFlags(f, c, at) <==> 2 * at <= x < 2 * (at + Size(c)) && x - 2 * at + 2 * lo in f
  {
    CopiesMove(f, c, lo, at);
    assert Show(0);
  }

  lemma {:induction false} CopiesMove(f: set<nat>, c: Cmd, lo: nat, at: nat)
    requires Placed(c, lo)
    ensures Moved(f, CopiedFlags(f, c, at), lo, at, Size(c))
    decreases Size(c), 0
  {
    if c.Node? {
      MovedNode(f, c, at);
      CopiesMoveBody(f, c.body, lo + 1, at + 1);
      MovedBoth(f, NodeFlags(f, c, at), CopiedBody(f, c.body, at + 1), lo, at, 1, SizeBody(c.body));
    }
  }

  lemma {:induction false} CopiesMoveBody(f: set<nat>, b: Body, lo: nat, at: nat)
    requires PlacedBody(b, lo)
    ensures Moved(f, CopiedBody(f, b, at), lo, at, SizeBody(b))
    decreases SizeBody(b), 2
  {
    match b
    case Simple(_) =>
    case Connect(_, first, second) => CopiesMovePair(f, first, second, lo, at);
    case If(test, yes, no) => CopiesMoveThree(f, test, yes, no, lo, at);
    case Loop(_, test, body) => CopiesMovePair(f, test, body, lo, at);
    case For(_, body) => CopiesMove(f, body, lo, at);
    case Case(_, clauses) => CopiesMoveClauses(f, clauses, lo, at);
    case Group(cmd) => CopiesMove(f, cmd, lo, at);
  }

  lemma {:induction false} CopiesMovePair(f: set<nat>, a: Cmd, b: Cmd, lo: nat, at: nat)
    requires Placed(a, lo) && Placed(b, lo + Size(a))
    ensures Moved(f, CopiedFlags(f, a, at) + CopiedFlags(f, b, at + Size(a)), lo, at, Size(a) + Size(b))
    decreases Size(a) + Size(b), 1, 0
  {
    CopiesMove(f, a, lo, at);
    CopiesMove(f, b, lo + Size(a), at + Size(a));
    MovedBoth(f, CopiedFlags(f, a, at), CopiedFlags(f, b, at + Size(a)), lo, at, Size(a), Size(b));
  }

  lemma {:induction false} CopiesMoveThree(f: set<nat>, a: Cmd, b: Cmd, c: Cmd, lo: nat, at: nat)
    requires Placed(a, lo) && Placed(b, lo + Size(a)) && Placed(c, lo + Size(a) + Size(b))
    ensures var s := CopiedFlags(f, a, at) + CopiedFlags(f, b, at + Size(a));
            Moved(f, s + CopiedFlags(f, c, at + Size(a) + Size(b)), lo, at, Size(a) + Size(b) + Size(c))
    decreases Size(a) + Size(b) + Size(c), 1, 1
  {
    var s, m := CopiedFlags(f, a, at) + CopiedFlags(f, b, at + Size(a)), Size(a) + Size(b);
    CopiesMovePair(f, a, b, lo, at);
    CopiesMove(f, c, lo + m, at + m);
    MovedBoth(f, s, CopiedFlags(f, c, at + m), lo, at, m, Size(c));
  }

  lemma {:induction false} CopiesMoveClauses(f: set<nat>, cl: Clauses, lo: nat, at: nat)
    requires PlacedClauses(cl, lo)
    ensures Moved(f, CopiedClauses(f, cl, at), lo, at, SizeClauses(cl))
    decreases SizeClauses(cl), 1, cl
  {
    if cl.Clause? {
      var m := Size(cl.cmd);
      CopiesMove(f, cl.cmd, lo, at);
      CopiesMoveClauses(f, cl.rest, lo + m, at + m);
      MovedBoth(f, CopiedFlags(f, cl.cmd, at), CopiedClauses(f, cl.rest, at + m), lo, at, m, SizeClauses(cl.rest));
    }
  }

  /** A tree without flags is copied without flags. */
  lemma NoFlags(flags: set<nat>, c: Cmd, bound: nat, at: nat)
    requires Below(c, bound) && forall x :: x in flags ==> x >= 2 * bound
    ensures CopiedFlags(flags, c, at) == {}
  {
    SameFlags(flags, {}, c, bound, at);
    CopiesNone(c, at);
  }

  lemma {:induction false} CopiesNone(c: Cmd, at: nat)
    ensures CopiedFlags({}, c, at) == {}
    decreases c
  {
    if c.Node? {
      CopiesNoneBody(c.body, at + 1);
    }
  }

  lemma {:induction false} CopiesNoneBody(b: Body, at: nat)
    ensures CopiedBody({}, b, at) == {}
    decreases b
  {
    match b
    case Simple(_) =>
    case Connect(_, first, second) =>
      CopiesNone(first, at);
      CopiesNone(second, at + Size(first));
    case If(test, yes, no) =>
      CopiesNone(test, at);
      CopiesNone(yes, at + Size(test));
      CopiesNone(no, at + Size(test) + Size(yes));
    case Loop(_, test, body) =>
      CopiesNone(test, at);
      CopiesNone(body, at + Size(test));
    case For(_, body) => CopiesNone(body, at);
    case Case(_, clauses) => CopiesNoneClauses(clauses, at);
    case Group(cmd) => CopiesNone(cmd, at);
  }

  lemma {:induction false} CopiesNoneClauses(cl: Clauses, at: nat)
    ensures CopiedClauses({}, cl, at) == {}
    decreases cl
  {
    if cl.Clause? {
      CopiesNone(cl.cmd, at);
      CopiesNoneClauses(cl.rest, at + Size(cl.cmd));
    }
  }

  lemma {:induction false} BelowGrows(c: Cmd, bound: nat, more: nat)
    requires Below(c, bound) && bound <= more
    ensures Below(c, more)
    decreases c
  {
    if c.Node? {
      BelowBodyGrows(c.body, bound, more);
    }
  }

  lemma {:induction false} BelowBodyGrows(b: Body, bound: nat, more: nat)
    requires BelowBody(b, bound) && bound <= more
    ensures BelowBody(b, more)
    decreases b
  {
    match b
    case Simple(_) =>
    case Connect(_, first, second) =>
      BelowGrows(first, bound, more);
      BelowGrows(second, bound, more);
    case If(test, yes, no) =>
      BelowGrows(test, bound, more);
      BelowGrows(yes, bound, more);
      BelowGrows(no, bound, more);
    case Loop(_, test, body) =>
      BelowGrows(test, bound, more);
      BelowGrows(body, bound, more);
    case For(_, body) => BelowGrows(body, bound, more);
    case Case(_, clauses) => BelowClausesGrow(clauses, bound, more);
    case Group(cmd) => BelowGrows(cmd, bound, more);
  }

  lemma {:induction false} BelowClausesGrow(cl: Clauses, bound: nat, more: nat)
    requires BelowClauses(cl, bound) && bound <= more
    ensures BelowClauses(cl, more)
    decreases cl
  {
    if cl.Clause? {
      BelowGrows(cl.cmd, bound, more);
      BelowClausesGrow(cl.rest, bound, more);
    }
  }
}
