/** Strictly sorted sequences of index-value pairs, and the finite maps they stand for. */
module Pairs {
  import opened Options

  type Value = Option<string>
  datatype Pair = Pair(ind: int, value: Value)

  ghost predicate Sorted(s: seq<Pair>) { forall i, j :: 0 <= i < j < |s| ==> s[i].ind < s[j].ind }

  /** p is the first position with an index of at least i. */
  ghost predicate IsPosition(s: seq<Pair>, i: int, p: nat) {
    p <= |s| && (p < |s| ==> s[p].ind >= i) && forall k :: 0 <= k < p ==> s[k].ind < i
  }

  lemma {:induction false} PositionExists(s: seq<Pair>, i: int)
    ensures exists p: nat :: IsPosition(s, i, p)
  {
    if s == [] {
      assert IsPosition(s, i, 0);
    } else {
      var t := s[..|s| - 1];
      PositionExists(t, i);
      var p: nat :| IsPosition(t, i, p);
      assert IsPosition(s, i, if p == |t| && s[p].ind < i then |s| else p);
    }
  }

  ghost function Position(s: seq<Pair>, i: int): (p: nat)
    ensures IsPosition(s, i, p)
  {
    PositionExists(s, i);
    var p: nat :| IsPosition(s, i, p);
    p
  }

  lemma PositionIs(s: seq<Pair>, i: int, p: nat)
    requires IsPosition(s, i, p)
    ensures Position(s, i) == p
  {
  }

  ghost predicate Found(s: seq<Pair>, i: int) { Position(s, i) < |s| && s[Position(s, i)].ind == i }

  /** a[i] = v. */
  ghost function Insert(s: seq<Pair>, i: int, v: Value): seq<Pair> {
    var p := Position(s, i);
    if Found(s, i) then s[p := Pair(i, v)] else s[..p] + [Pair(i, v)] + s[p..]
  }

  ghost function Remove(s: seq<Pair>, i: int): seq<Pair> {
    var p := Position(s, i);
    if Found(s, i) then s[..p] + s[p + 1..] else s
  }

  ghost function Lookup(s: seq<Pair>, i: int): Value { if Found(s, i) then s[Position(s, i)].value else None }

  /** All indices moved by d. */
  function Renumber(s: seq<Pair>, d: int): (r: seq<Pair>)
    ensures |r| == |s| && forall k :: 0 <= k < |s| ==> r[k] == Pair(s[k].ind + d, s[k].value)
  {
    seq(|s|, k requires 0 <= k < |s| => Pair(s[k].ind + d, s[k].value))
  }

  /** The first n elements dropped, the others n places down. */
  function Shift(s: seq<Pair>, n: int): seq<Pair> {
    if n <= 0 then s else if n >= |s| then [] else Renumber(s[n..], -n)
  }

  /** All elements n places up; v, if given, at 0. */
  function RShift(s: seq<Pair>, n: int, v: Value): seq<Pair> {
    if n <= 0 then s
    else (if v.Some? then [Pair(0, v)] else []) + Renumber(s, n)
  }

  ghost predicate NonNegative(s: seq<Pair>) { forall k :: 0 <= k < |s| ==> s[k].ind >= 0 }

  /** Cutting at p keeps the order, and so does putting an index in between. */
  lemma InsertSorted(s: seq<Pair>, i: int, v: Value)
    requires Sorted(s)
    ensures Sorted(Insert(s, i, v))
  {
    var p, t := Position(s, i), Insert(s, i, v);
    if !Found(s, i) {
      forall j, k | 0 <= j < k < |t| ensures t[j].ind < t[k].ind {
        assert t[j] == (if j < p then s[j] else if j == p then Pair(i, v) else s[j - 1]);
        assert t[k] == (if k < p then s[k] else if k == p then Pair(i, v) else s[k - 1]);
      }
    }
  }

  lemma RemoveSorted(s: seq<Pair>, i: int)
    requires Sorted(s)
    ensures Sorted(Remove(s, i))
  {
    var p, t := Position(s, i), Remove(s, i);
    if Found(s, i) {
      forall j, k | 0 <= j < k < |t| ensures t[j].ind < t[k].ind {
        assert t[j] == s[if j < p then j else j + 1];
        assert t[k] == s[if k < p then k else k + 1];
      }
    }
  }

  /** With indices from 0 up, the k-th index is at least k. */
  lemma {:induction false} AtLeast(s: seq<Pair>, k: nat)
    requires Sorted(s) && NonNegative(s) && k < |s|
    ensures s[k].ind >= k
  {
    if k > 0 {
      AtLeast(s, k - 1);
    }
  }

  /** Shifting keeps indices sorted and non-negative. */
  lemma ShiftKeeps(s: seq<Pair>, n: int)
    requires Sorted(s)
    ensures Sorted(Shift(s, n)) && (NonNegative(s) ==> NonNegative(Shift(s, n)))
    ensures |Shift(s, n)| == |s| - (if n <= 0 then 0 else if n > |s| then |s| else n)
  {
    if NonNegative(s) && 0 < n < |s| {
      forall k | 0 <= k < |s| - n ensures Shift(s, n)[k].ind >= 0 {
        AtLeast(s, n + k);
      }
    }
  }

  /** A new element 0 would come before all others. */
  ghost predicate Ordered(s: seq<Pair>, n: int, v: Value) {
    n > 0 && v.Some? ==> forall k :: 0 <= k < |s| ==> s[k].ind + n > 0
  }

  /** A right shift keeps the order exactly then; with non-negative indices always. */
  lemma RShiftKeeps(s: seq<Pair>, n: int, v: Value)
    requires Sorted(s)
    ensures Sorted(RShift(s, n, v)) <==> Ordered(s, n, v)
    ensures NonNegative(s) ==> Ordered(s, n, v) && NonNegative(RShift(s, n, v))
  {
    if n > 0 && v.Some? {
      RShiftAt(s, n, v);
      var t := RShift(s, n, v);
      if Ordered(s, n, v) {
        forall i, j | 0 <= i < j < |t| ensures t[i].ind < t[j].ind {
          assert t[j].ind == s[j - 1].ind + n;
        }
      }
      if Sorted(t) {
        forall k | 0 <= k < |s| ensures s[k].ind + n > 0 {
          assert t[0].ind < t[k + 1].ind;
        }
      }
    } else if n > 0 {
      assert RShift(s, n, v) == Renumber(s, n);
    }
  }

  lemma RShiftAt(s: seq<Pair>, n: int, v: Value)
    requires n > 0 && v.Some?
    ensures var t := RShift(s, n, v);
            |t| == |s| + 1 && t[0].ind == 0 && forall k :: 1 <= k < |t| ==> t[k].ind == s[k - 1].ind + n
  {
  }

  /** A push followed by a pop. */
  lemma PushPop(s: seq<Pair>, v: string)
    ensures Shift(RShift(s, 1, Some(v)), 1) == s
  {
    var t := RShift(s, 1, Some(v));
    assert t[1..] == Renumber(s, 1);
    if |s| > 0 {
      assert Renumber(Renumber(s, 1), -1) == s;
    }
  }

  // ----- maps -----

  ghost function ToMap(s: seq<Pair>): map<int, Value>
    requires Sorted(s)
  {
    map p | p in s :: p.ind := p.value
  }

  /** The map has exactly the pairs of the sequence. */
  ghost predicate In(m: map<int, Value>, p: Pair) { p.ind in m && m[p.ind] == p.value }

  lemma MapMembers(s: seq<Pair>, p: Pair)
    requires Sorted(s)
    ensures In(ToMap(s), p) <==> p in s
  {
  }

  lemma MapIs(s: seq<Pair>, m: map<int, Value>)
    requires Sorted(s) && forall p :: p in s <==> In(m, p)
    ensures ToMap(s) == m
  {
    forall k | k in m ensures k in ToMap(s) && ToMap(s)[k] == m[k] {
      assert In(m, Pair(k, m[k]));
      MapMembers(s, Pair(k, m[k]));
    }
    forall k | k in ToMap(s) ensures k in m {
      MapMembers(s, Pair(k, ToMap(s)[k]));
      assert In(m, Pair(k, ToMap(s)[k]));
    }
  }

  lemma FoundMember(s: seq<Pair>, i: int)
    requires Sorted(s)
    ensures Found(s, i) ==> Pair(i, Lookup(s, i)) in s
    ensures !Found(s, i) ==> forall p :: p in s ==> p.ind != i
  {
    if !Found(s, i) {
      forall k | 0 <= k < |s| ensures s[k].ind != i {
        if k > Position(s, i) {
          assert s[Position(s, i)].ind < s[k].ind;
        }
      }
    }
  }

  lemma LookupIsMap(s: seq<Pair>, i: int)
    requires Sorted(s)
    ensures Lookup(s, i) == if i in ToMap(s) then ToMap(s)[i] else None
  {
    FoundMember(s, i);
  }

  lemma InsertMembers(s: seq<Pair>, i: int, v: Value)
    requires Sorted(s)
    ensures forall p :: p in Insert(s, i, v) <==> (p in s && p.ind != i) || p == Pair(i, v)
  {
    FoundMember(s, i);
    var q, t := Position(s, i), Insert(s, i, v);
    if Found(s, i) {
      assert s == s[..q] + [s[q]] + s[q + 1..];
      assert t == s[..q] + [Pair(i, v)] + s[q + 1..];
      assert forall p :: p in s[..q] + s[q + 1..] ==> p.ind != i;
    } else {
      assert s == s[..q] + s[q..];
    }
  }

  lemma InsertIsMap(s: seq<Pair>, i: int, v: Value)
    requires Sorted(s)
    ensures Sorted(Insert(s, i, v)) && ToMap(Insert(s, i, v)) == ToMap(s)[i := v]
  {
    InsertSorted(s, i, v);
    InsertMembers(s, i, v);
    forall p ensures p in Insert(s, i, v) <==> In(ToMap(s)[i := v], p) {
      MapMembers(s, p);
    }
    MapIs(Insert(s, i, v), ToMap(s)[i := v]);
  }

  lemma RemoveMembers(s: seq<Pair>, i: int)
    requires Sorted(s)
    ensures forall p :: p in Remove(s, i) <==> p in s && p.ind != i
  {
    FoundMember(s, i);
    var q := Position(s, i);
    if Found(s, i) {
      assert s == s[..q] + [s[q]] + s[q + 1..];
      assert forall p :: p in s[..q] + s[q + 1..] ==> p.ind != i;
    }
  }

  lemma RemoveIsMap(s: seq<Pair>, i: int)
    requires Sorted(s)
    ensures Sorted(Remove(s, i)) && ToMap(Remove(s, i)) == ToMap(s) - {i}
  {
    RemoveSorted(s, i);
    RemoveMembers(s, i);
    forall p ensures p in Remove(s, i) <==> In(ToMap(s) - {i}, p) {
      MapMembers(s, p);
    }
    MapIs(Remove(s, i), ToMap(s) - {i});
  }

  ghost function Raised(m: map<int, Value>, n: int): set<int> { set k | k in m :: k + n }

  /** On maps, a right shift renumbers and adds. */
  ghost function ShiftedUp(m: map<int, Value>, n: int, v: Value): map<int, Value>
  {
    var up := map k | k in Raised(m, n) :: m[k - n];
    if n <= 0 then m else if v.Some? then up[0 := v] else up
  }

  lemma RShiftIsMap(s: seq<Pair>, n: int, v: Value)
    requires Sorted(s) && Ordered(s, n, v)
    ensures Sorted(RShift(s, n, v)) && ToMap(RShift(s, n, v)) == ShiftedUp(ToMap(s), n, v)
  {
    RShiftKeeps(s, n, v);
    if n > 0 {
      var m, t := ToMap(s), RShift(s, n, v);
      forall p ensures p in t <==> In(ShiftedUp(m, n, v), p) {
        MapMembers(s, Pair(p.ind - n, p.value));
        RShiftMembers(s, n, v, p);
        ShiftedUpMembers(m, n, v, p);
        MapMembers(s, Pair(0 - n, if -n in m then m[-n] else None));
      }
      MapIs(t, ShiftedUp(m, n, v));
    }
  }

  lemma RShiftMembers(s: seq<Pair>, n: int, v: Value, p: Pair)
    requires n > 0
    ensures p in RShift(s, n, v) <==> Pair(p.ind - n, p.value) in s || (v.Some? && p == Pair(0, v))
  {
    RenumberMembers(s, n, p);
  }

  lemma ShiftedUpMembers(m: map<int, Value>, n: int, v: Value, p: Pair)
    requires n > 0
    ensures In(ShiftedUp(m, n, v), p) <==>
              if v.Some? && p.ind == 0 then p.value == v else In(m, Pair(p.ind - n, p.value))
  {
    assert p.ind - n in m ==> (p.ind - n) + n in Raised(m, n);
  }

  lemma RenumberMembers(s: seq<Pair>, d: int, p: Pair)
    ensures p in Renumber(s, d) <==> Pair(p.ind - d, p.value) in s
  {
    var r, q := Renumber(s, d), Pair(p.ind - d, p.value);
    if q in s {
      var k :| 0 <= k < |s| && s[k] == q;
      assert r[k] == p;
    }
    if p in r {
      var k :| 0 <= k < |r| && r[k] == p;
      assert s[k] == q;
    }
  }

  /** How many keys are below k. */
  ghost function Rank(m: map<int, Value>, k: int): nat { |set j | j in m && j < k| }

  /** On maps, a left shift drops the n lowest keys. */
  ghost function ShiftedDown(m: map<int, Value>, n: int): map<int, Value> {
    if n <= 0 then m else map k | k in m && Rank(m, k) >= n :: k - n := m[k]
  }

  ghost function Keys(s: seq<Pair>): set<int> { set p | p in s :: p.ind }

  lemma {:induction false} RankIs(s: seq<Pair>, k: nat)
    requires Sorted(s) && k < |s|
    ensures Rank(ToMap(s), s[k].ind) == k
  {
    var below := set j | j in ToMap(s) && j < s[k].ind;
    assert below == Keys(s[..k]) by {
      forall j | j in below ensures j in Keys(s[..k]) {
        var q :| 0 <= q < |s| && s[q].ind == j;
        assert q < k && s[..k][q] == s[q];
      }
      forall j | j in Keys(s[..k]) ensures j in below {
        var q :| 0 <= q < k && s[..k][q].ind == j;
        assert s[q] in s && s[q].ind == j;
      }
    }
    KeysCount(s[..k]);
  }

  lemma {:induction false} KeysCount(s: seq<Pair>)
    requires Sorted(s)
    ensures |Keys(s)| == |s|
  {
    if s != [] {
      var t, last := s[..|s| - 1], s[|s| - 1];
      KeysCount(t);
      assert s == t + [last];
      assert Keys(s) == Keys(t) + {last.ind};
    }
  }

  lemma ShiftIsMap(s: seq<Pair>, n: int)
    requires Sorted(s)
    ensures Sorted(Shift(s, n)) && ToMap(Shift(s, n)) == ShiftedDown(ToMap(s), n)
  {
    ShiftKeeps(s, n);
    if n > 0 {
      var m, t := ToMap(s), Shift(s, n);
      forall p ensures p in t <==> In(ShiftedDown(m, n), p) {
        var q := Pair(p.ind + n, p.value);
        MapMembers(s, q);
        ShiftedDownMembers(m, n, p);
        if q in s {
          RankMember(s, n, q);
        }
        ShiftMembers(s, n, p);
      }
      MapIs(t, ShiftedDown(m, n));
    }
  }

  lemma ShiftedDownMembers(m: map<int, Value>, n: int, p: Pair)
    requires n > 0
    ensures In(ShiftedDown(m, n), p) <==> In(m, Pair(p.ind + n, p.value)) && Rank(m, p.ind + n) >= n
  {
    var down := ShiftedDown(m, n);
    assert p.ind in down <==> p.ind + n in m && Rank(m, p.ind + n) >= n;
    assert p.ind in down ==> down[p.ind] == m[p.ind + n];
  }

  lemma ShiftMembers(s: seq<Pair>, n: int, p: Pair)
    requires n > 0
    ensures p in Shift(s, n) <==> n < |s| && Pair(p.ind + n, p.value) in s[n..]
  {
    if n < |s| {
      RenumberMembers(s[n..], -n, p);
    }
  }

  lemma RankMember(s: seq<Pair>, n: int, p: Pair)
    requires Sorted(s) && n > 0 && p in s
    ensures Rank(ToMap(s), p.ind) >= n <==> n < |s| && p in s[n..]
  {
    var k :| 0 <= k < |s| && s[k] == p;
    RankIs(s, k);
    if n <= k {
      assert s[n..][k - n] == p;
    }
  }
}
