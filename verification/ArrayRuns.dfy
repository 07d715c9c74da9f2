/** Any interleaving of operations on any number of arrays, against plain finite maps. */
module ArrayRuns {
  import opened Options
  import opened Pairs
  import opened SparseArray

  /** An operation on the a-th array made; one on an array not made yet does nothing. */
  datatype Op =
    | Create
    | Copy(a: nat)
    | Insert(a: nat, at: int, v: Value)
    | Remove(a: nat, i: int)
    | Reference(a: nat, i: int)
    | Flush(a: nat)
    | Shift(a: nat, n: int)
    | RShift(a: nat, n: int, v: Value)

  datatype Answer = Nothing | Status(rc: int) | Taken(found: bool) | Got(v: Value) | Count(n: int)

  // ----- on maps -----

  type Maps = seq<map<int, Value>>

  ghost function Step(ms: Maps, op: Op): (Maps, Answer) {
    if op.Create? then (ms + [map[]], Nothing)
    else if op.a >= |ms| then (ms, Nothing)
    else
      var m := ms[op.a];
      match op
      case Copy(a) => (ms + [m], Nothing)
      case Insert(a, i, v) => if m == map[] && i < 0 then (ms, Status(-1)) else (ms[a := m[i := v]], Status(0))
      case Remove(a, i) => (ms[a := m - {i}], Taken(i in m))
      case Reference(a, i) => (ms, Got(if i in m then m[i] else None))
      case Flush(a) => (ms[a := map[]], Nothing)
      case Shift(a, n) => (ms[a := ShiftedDown(m, n)], Nothing)
      case RShift(a, n, v) => (ms[a := ShiftedUp(m, n, v)], Count(|ShiftedUp(m, n, v)|))
  }

  /** Every right shift puts its new element, if it has one, before all others. */
  ghost predicate Orderly(ms: Maps, ops: seq<Op>)
    decreases |ops|
  {
    ops == [] || (Gentle(ms, ops[0]) && Orderly(Step(ms, ops[0]).0, ops[1..]))
  }

  ghost predicate Gentle(ms: Maps, op: Op) {
    op.RShift? && op.a < |ms| && op.n > 0 && op.v.Some? ==> forall k :: k in ms[op.a] ==> k + op.n > 0
  }

  ghost function Answers(ms: Maps, ops: seq<Op>): (r: seq<Answer>)
    decreases |ops|
  {
    if ops == [] then [] else [Step(ms, ops[0]).1] + Answers(Step(ms, ops[0]).0, ops[1..])
  }

  // ----- on sorted pairs -----

  type Tables = seq<seq<Pair>>

  ghost predicate Proper(ts: Tables) { forall k :: 0 <= k < |ts| ==> Sorted(ts[k]) }

  ghost function AsMaps(ts: Tables): (ms: Maps)
    requires Proper(ts)
    ensures |ms| == |ts| && forall k :: 0 <= k < |ts| ==> ms[k] == ToMap(ts[k])
  {
    seq(|ts|, k requires 0 <= k < |ts| => ToMap(ts[k]))
  }

  ghost function PairStep(ts: Tables, op: Op): (Tables, Answer) {
    if op.Create? then (ts + [[]], Nothing)
    else if op.a >= |ts| then (ts, Nothing)
    else
      var s := ts[op.a];
      match op
      case Copy(a) => (ts + [s], Nothing)
      case Insert(a, i, v) => if s == [] && i < 0 then (ts, Status(-1)) else (ts[a := Pairs.Insert(s, i, v)], Status(0))
      case Remove(a, i) => (ts[a := Pairs.Remove(s, i)], Taken(Found(s, i)))
      case Reference(a, i) => (ts, Got(Lookup(s, i)))
      case Flush(a) => (ts[a := []], Nothing)
      case Shift(a, n) => (ts[a := Pairs.Shift(s, n)], Nothing)
      case RShift(a, n, v) => (ts[a := Pairs.RShift(s, n, v)], Count(|Pairs.RShift(s, n, v)|))
  }

  lemma MapSize(s: seq<Pair>)
    requires Sorted(s)
    ensures |ToMap(s)| == |s|
  {
    KeysCount(s);
    assert ToMap(s).Keys == Keys(s);
  }

  lemma EmptyMap(s: seq<Pair>)
    requires Sorted(s)
    ensures ToMap(s) == map[] <==> s == []
  {
    MapSize(s);
  }

  /** The sorted pairs do what the maps do. */
  lemma PairStepIsStep(ts: Tables, op: Op)
    requires Proper(ts) && Gentle(AsMaps(ts), op)
    ensures Proper(PairStep(ts, op).0)
    ensures Step(AsMaps(ts), op) == (AsMaps(PairStep(ts, op).0), PairStep(ts, op).1)
  {
    if op.Create? {
      AppendTable(ts, []);
      assert ToMap([]) == map[];
    } else if op.a < |ts| {
      var s := ts[op.a];
      OneStep(s, op);
      match op
      case Copy(a) => AppendTable(ts, s);
      case Insert(a, i, v) =>
        EmptyMap(s);
        UpdateTable(ts, a, Pairs.Insert(s, i, v));
      case Remove(a, i) => UpdateTable(ts, a, Pairs.Remove(s, i));
      case Reference(a, i) =>
      case Flush(a) =>
        UpdateTable(ts, a, []);
        assert ToMap([]) == map[];
      case Shift(a, n) => UpdateTable(ts, a, Pairs.Shift(s, n));
      case RShift(a, n, v) => UpdateTable(ts, a, Pairs.RShift(s, n, v));
    }
  }

  lemma UpdateTable(ts: Tables, a: nat, s: seq<Pair>)
    requires Proper(ts) && a < |ts| && Sorted(s)
    ensures Proper(ts[a := s]) && AsMaps(ts[a := s]) == AsMaps(ts)[a := ToMap(s)]
  {
  }

  lemma AppendTable(ts: Tables, s: seq<Pair>)
    requires Proper(ts) && Sorted(s)
    ensures Proper(ts + [s]) && AsMaps(ts + [s]) == AsMaps(ts) + [ToMap(s)]
  {
  }

  lemma GentleIsOrdered(s: seq<Pair>, n: int, v: Value)
    requires Sorted(s) && (n > 0 && v.Some? ==> forall k :: k in ToMap(s) ==> k + n > 0)
    ensures Ordered(s, n, v)
  {
    forall k | 0 <= k < |s| && n > 0 && v.Some? ensures s[k].ind + n > 0 {
      assert s[k] in s && s[k].ind in ToMap(s);
    }
  }

  lemma OneStep(s: seq<Pair>, op: Op)
    requires Sorted(s) && (op.RShift? && op.n > 0 && op.v.Some? ==> forall k :: k in ToMap(s) ==> k + op.n > 0)
    ensures op.Insert? ==> Sorted(Pairs.Insert(s, op.at, op.v))
                           && ToMap(Pairs.Insert(s, op.at, op.v)) == ToMap(s)[op.at := op.v]
    ensures op.Remove? ==> Sorted(Pairs.Remove(s, op.i))
                           && ToMap(Pairs.Remove(s, op.i)) == ToMap(s) - {op.i}
                           && (Found(s, op.i) <==> op.i in ToMap(s))
    ensures op.Reference? ==> Lookup(s, op.i) == if op.i in ToMap(s) then ToMap(s)[op.i] else None
    ensures op.Shift? ==> Sorted(Pairs.Shift(s, op.n))
                          && ToMap(Pairs.Shift(s, op.n)) == ShiftedDown(ToMap(s), op.n)
    ensures op.RShift? ==> Ordered(s, op.n, op.v) && Sorted(Pairs.RShift(s, op.n, op.v))
                           && ToMap(Pairs.RShift(s, op.n, op.v)) == ShiftedUp(ToMap(s), op.n, op.v)
                           && |Pairs.RShift(s, op.n, op.v)| == |ShiftedUp(ToMap(s), op.n, op.v)|
  {
    match op
    case Insert(_, i, v) =>
      InsertIsMap(s, i, v);
    case Remove(_, i) =>
      RemoveIsMap(s, i);
      FoundMember(s, i);
    case Reference(_, i) => LookupIsMap(s, i);
    case Shift(_, n) =>
      ShiftKeeps(s, n);
      ShiftIsMap(s, n);
    case RShift(_, n, v) =>
      GentleIsOrdered(s, n, v);
      RShiftKeeps(s, n, v);
      RShiftIsMap(s, n, v);
      MapSize(Pairs.RShift(s, n, v));
    case Create =>
    case Copy(_) =>
    case Flush(_) =>
  }

  /** Runs that insert at non-negative indices only are orderly. */
  lemma {:induction false} NonNegativeIsOrderly(ts: Tables, ops: seq<Op>)
    requires Proper(ts) && (forall k :: 0 <= k < |ts| ==> NonNegative(ts[k]))
    requires forall i :: 0 <= i < |ops| && ops[i].Insert? ==> ops[i].at >= 0
    ensures Orderly(AsMaps(ts), ops)
    decreases |ops|
  {
    if ops != [] {
      var op := ops[0];
      GentleStep(ts, op);
      PairStepIsStep(ts, op);
      NonNegativeIsOrderly(PairStep(ts, op).0, ops[1..]);
    }
  }

  lemma GentleStep(ts: Tables, op: Op)
    requires Proper(ts) && (forall k :: 0 <= k < |ts| ==> NonNegative(ts[k])) && (op.Insert? ==> op.at >= 0)
    ensures Gentle(AsMaps(ts), op)
    ensures var ts' := PairStep(ts, op).0; forall k :: 0 <= k < |ts'| ==> NonNegative(ts'[k])
  {
    if !op.Create? && op.a < |ts| {
      var s := ts[op.a];
      if op.Shift? {
        ShiftKeeps(s, op.n);
      } else if op.RShift? {
        RShiftKeeps(s, op.n, op.v);
      }
      assert forall k :: k in ToMap(s) ==> k >= 0;
    }
  }

  // ----- on linked lists -----

  /** The handles name distinct live arrays, which hold the tables. */
  ghost predicate Hold(all: Arrays, handles: seq<Array>, ts: Tables)
    reads all, handles
  {
    && |handles| == |ts| && Distinct(handles)
    && forall k :: 0 <= k < |handles| ==> handles[k] in all.live && handles[k].pairs == ts[k]
  }

  ghost predicate Distinct(handles: seq<Array>) { forall j, k :: 0 <= j < k < |handles| ==> handles[j] != handles[k] }

  method Perform(all: Arrays, handles: seq<Array>, op: Op, ghost ts: Tables)
    returns (handles': seq<Array>, answer: Answer)
    requires all.Valid() && Hold(all, handles, ts) && Proper(ts) && Gentle(AsMaps(ts), op)
    modifies all, all.live, all.Cells()
    ensures all.Valid() && Hold(all, handles', PairStep(ts, op).0) && answer == PairStep(ts, op).1
    ensures forall a :: a in all.live ==> a in old(all.live) || fresh(a)
    ensures forall o :: o in all.Cells() ==> o in old(all.Cells()) || fresh(o)
  {
    handles', answer := handles, Nothing;
    if op.Create? {
      var a := all.Create();
      handles' := handles + [a];
      return;
    }
    if op.a >= |handles| {
      return;
    }
    var a := handles[op.a];
    if op.Copy? {
      var a1 := all.Copy(a);
      handles' := handles + [a1];
      return;
    }
    forall i | 0 <= i < |a.elems| ensures a.elems[i] in all.Cells() {
      assert a.elems[i] in a.elems;
    }
    answer := PerformOn(all, handles, a, op, ts);
  }

  /** An operation on array a. */
  method PerformOn(all: Arrays, ghost handles: seq<Array>, a: Array, op: Op, ghost ts: Tables) returns (answer: Answer)
    requires all.Valid() && Hold(all, handles, ts) && Proper(ts) && Gentle(AsMaps(ts), op)
    requires !op.Create? && !op.Copy? && op.a < |handles| && a == handles[op.a]
    modifies all, a, a.head, a.elems
    ensures all.Valid() && Hold(all, handles, PairStep(ts, op).0) && answer == PairStep(ts, op).1
    ensures all.live == old(all.live)
    ensures forall i :: 0 <= i < |a.elems| ==> a.elems[i] in old(a.elems) || fresh(a.elems[i])
  {
    answer := Nothing;
    if op.RShift? {
      GentleIsOrdered(ts[op.a], op.n, op.v);
    }
    match op
    case Insert(_, i, v) =>
      var rc := all.Insert(a, i, v);
      answer := Status(rc);
    case Remove(_, i) =>
      var ae := all.Remove(a, i);
      answer := Taken(ae != null);
    case Reference(_, i) =>
      var v := all.Reference(a, i);
      answer := Got(v);
    case Flush(_) => all.Flush(a);
    case Shift(_, n) => all.Shift(a, n);
    case RShift(_, n, v) =>
      var count := all.RShift(a, n, v);
      answer := Count(count);
  }

  /** Every answer, in any orderly run, is the one the maps give. */
  method Run(ops: seq<Op>) returns (answers: seq<Answer>)
    requires Orderly([], ops)
    ensures answers == Answers([], ops)
  {
    var all := new Arrays();
    var handles: seq<Array> := [];
    ghost var ts: Tables := [];
    answers := [];
    for i := 0 to |ops|
      invariant fresh(all) && fresh(all.live) && fresh(all.Cells())
      invariant all.Valid() && Hold(all, handles, ts) && Proper(ts)
      invariant Orderly(AsMaps(ts), ops[i..]) && answers + Answers(AsMaps(ts), ops[i..]) == Answers([], ops)
    {
      var answer;
      ghost var before := ts;
      handles, answer := Perform(all, handles, ops[i], ts);
      PairStepIsStep(before, ops[i]);
      ts := PairStep(before, ops[i]).0;
      assert ops[i..][1..] == ops[i + 1..];
      answers := answers + [answer];
    }
  }
}
