/** Arrays as sorted circular doubly linked lists, with one roving pointer shared by all. */
module SparseArray {
  import opened Folding
  import opened Options
  import opened Pairs

  class Element {
    var ind: int
    var value: Value
    var next: Element?
    var prev: Element?
    ghost var owner: Array?

    constructor (ind: int, value: Value, ghost owner: Array?)
      ensures this.ind == ind && this.value == value && this.owner == owner
    {
      this.ind, this.value, next, prev, this.owner := ind, value, null, null, owner;
    }
  }

  /** Neighbours are linked both ways, and the ends to the head. */
  ghost predicate Chained(head: Element, es: seq<Element>)
    reads head, es
  {
    forall z: nat {:trigger Show(z)} :: Show(z) ==>
      && head.next == (if es == [] then head else es[0]) && head.prev == (if es == [] then head else es[|es| - 1])
      && (es != [] ==> es[0].prev == head && es[|es| - 1].next == head)
      && (forall i, j :: 0 <= i < j < |es| && j == i + 1 ==> es[i].next == es[j] && es[j].prev == es[i])
  }

  /** The elements hold the pairs. */
  ghost predicate Holds(a: Array, es: seq<Element>, ps: seq<Pair>)
    reads es
  {
    |es| == |ps| &&
    forall z: nat {:trigger Show(z)} :: Show(z) ==>
      forall i :: 0 <= i < |es| ==> es[i].owner == a && es[i].ind == ps[i].ind && es[i].value == ps[i].value
  }

  ghost predicate Unique(es: seq<Element>) {
    forall z: nat {:trigger Show(z)} :: Show(z) ==> forall i, j :: 0 <= i < j < |es| ==> es[i] != es[j]
  }

  lemma HoldsUnique(a: Array, es: seq<Element>, ps: seq<Pair>)
    requires Holds(a, es, ps) && Sorted(ps)
    ensures Unique(es)
  {
    assert Show(0);
  }

  lemma HoldsOne(a: Array, es: seq<Element>, ps: seq<Pair>, i: nat)
    requires Holds(a, es, ps) && i < |es|
    ensures es[i].owner == a && es[i].ind == ps[i].ind && es[i].value == ps[i].value
  {
    assert Show(0);
  }

  function Inserted<T>(s: seq<T>, k: nat, x: T): (r: seq<T>)
    requires k <= |s|
    ensures |r| == |s| + 1 && r[k] == x
    ensures forall i :: 0 <= i < k ==> r[i] == s[i]
    ensures forall i :: k < i <= |s| ==> r[i] == s[i - 1]
  {
    s[..k] + [x] + s[k..]
  }

  /** ADD_BEFORE: link new' in front of ae, which is at position k. */
  method AddBefore(ghost head: Element, ghost a: Array, ghost es: seq<Element>, ghost ps: seq<Pair>, ghost k: nat,
          ghost before: Element, ae: Element, new': Element)
    requires Chained(head, es) && Holds(a, es, ps) && Unique(es) && head !in es && new' != head && new' !in es
    requires new'.owner == a
    requires k <= |es| && ae == (if k < |es| then es[k] else head) && before == (if k > 0 then es[k - 1] else head)
    modifies ae`prev, before`next, new'`next, new'`prev
    ensures Chained(head, Inserted(es, k, new')) && head !in Inserted(es, k, new')
    ensures Holds(a, Inserted(es, k, new'), Inserted(ps, k, Pair(new'.ind, new'.value)))
  {
    assert Show(0);
    assert ae.prev == before;
    ae.prev.next := new';
    new'.prev := ae.prev;
    ae.prev := new';
    new'.next := ae;
    ghost var es' := Inserted(es, k, new');
    forall i, j | 0 <= i < j < |es'| && j == i + 1 ensures es'[i].next == es'[j] && es'[j].prev == es'[i] {
      if j < k {
        assert es'[i] == es[i] && es'[j] == es[j];
      } else if i > k {
        assert es'[i] == es[i - 1] && es'[j] == es[j - 1];
      }
    }
    HoldsInserted(a, es, ps, k, new');
  }

  lemma HoldsInserted(a: Array, es: seq<Element>, ps: seq<Pair>, k: nat, new': Element)
    requires Holds(a, es, ps) && k <= |es| && new'.owner == a
    ensures Holds(a, Inserted(es, k, new'), Inserted(ps, k, Pair(new'.ind, new'.value)))
  {
    assert Show(0);
  }

  function Removed<T>(s: seq<T>, k: nat): (r: seq<T>)
    requires k < |s|
    ensures |r| == |s| - 1
    ensures forall i :: 0 <= i < k ==> r[i] == s[i]
    ensures forall i :: k <= i < |s| - 1 ==> r[i] == s[i + 1]
  {
    s[..k] + s[k + 1..]
  }

  /** Taking ae, at position k, out of the list. */
  method Unlink(ghost head: Element, ghost a: Array, ghost es: seq<Element>, ghost ps: seq<Pair>, ghost k: nat,
          ghost before: Element, ghost after: Element, ae: Element)
    requires Chained(head, es) && Holds(a, es, ps) && Unique(es) && head !in es && k < |es| && ae == es[k]
    requires after == (if k + 1 < |es| then es[k + 1] else head) && before == (if k > 0 then es[k - 1] else head)
    modifies after`prev, before`next
    ensures Chained(head, Removed(es, k)) && Holds(a, Removed(es, k), Removed(ps, k))
    ensures ae.next == after && ae.prev == before && ae !in Removed(es, k)
  {
    assert Show(0);
    assert ae.next == after && ae.prev == before;
    ae.next.prev := ae.prev;
    ae.prev.next := ae.next;
    ghost var es' := Removed(es, k);
    forall i, j | 0 <= i < j < |es'| && j == i + 1 ensures es'[i].next == es'[j] && es'[j].prev == es'[i] {
      if j < k {
        assert es'[i] == es[i] && es'[j] == es[j];
      } else if i >= k {
        assert es'[i] == es[i + 1] && es'[j] == es[j + 1];
      }
    }
  }

  /** The first k indices are below i. */
  ghost predicate Before(ps: seq<Pair>, k: nat, i: int) { k <= |ps| && forall j :: 0 <= j < k ==> ps[j].ind < i }

  class Array {
    var maxIndex: int
    var numElements: int
    const head: Element
    ghost var elems: seq<Element>
    ghost var pairs: seq<Pair>

    /** The element at position i, with the head before the first and after the last. */
    ghost function At(i: int): Element
      reads this
    {
      if 0 <= i < |elems| then elems[i] else head
    }

    /** The list is circular, and its elements hold the pairs in order. */
    ghost predicate Linked()
      reads this, head, elems
    {
      && head !in elems && head.owner == this && head.ind == -1
      && Chained(head, elems) && Holds(this, elems, pairs) && Sorted(pairs)
    }

    ghost predicate Valid()
      reads this, head, elems
    {
      && Linked() && numElements == |pairs|
      && maxIndex == (if pairs == [] then -1 else pairs[|pairs| - 1].ind)
    }

    constructor ()
      ensures Valid() && pairs == [] && elems == [] && fresh(head)
    {
      head := new Element(-1, None, null);
      maxIndex, numElements, elems, pairs := -1, 0, [], [];
      new;
      head.next, head.prev, head.owner := head, head, this;
    }

    lemma Next(k: nat)
      requires Linked() && k < |elems|
      ensures elems[k].next == At(k + 1) && elems[k].prev == At(k - 1)
    {
      assert Show(0);
      if k + 1 < |elems| {
        assert elems[k].next == elems[k + 1];
      }
      if k > 0 {
        assert elems[k].prev == elems[k - 1];
      }
    }

    /** Putting a new element in at position k. */
    method Hook(ghost k: nat, ae: Element, new': Element)
      requires Linked() && k <= |elems| && ae == At(k) && new'.owner == this && new' != head && new' !in elems
      requires Sorted(Inserted(pairs, k, Pair(new'.ind, new'.value)))
      modifies this`numElements, this`elems, this`pairs, At(k - 1)`next, ae`prev, new'`next, new'`prev
      ensures Linked() && numElements == old(numElements) + 1
      ensures elems == Inserted(old(elems), k, new') && pairs == Inserted(old(pairs), k, Pair(new'.ind, new'.value))
    {
      HoldsUnique(this, elems, pairs);
      ghost var es, ps, before := elems, pairs, At(k - 1);
      numElements := numElements + 1;
      elems, pairs := Inserted(es, k, new'), Inserted(ps, k, Pair(new'.ind, new'.value));
      AddBefore(head, this, es, ps, k, before, ae, new');
    }

    /** Taking the element at position k out. */
    method Unhook(ghost k: nat, ae: Element)
      requires Linked() && k < |elems| && ae == elems[k] && Sorted(Removed(pairs, k))
      modifies this`numElements, this`elems, this`pairs, At(k - 1)`next, At(k + 1)`prev
      ensures Linked() && numElements == old(numElements) - 1
      ensures elems == Removed(old(elems), k) && pairs == Removed(old(pairs), k)
      ensures ae.next == old(At(k + 1)) && ae.prev == old(At(k - 1)) && ae !in elems
    {
      HoldsUnique(this, elems, pairs);
      ghost var es, ps, before, after := elems, pairs, At(k - 1), At(k + 1);
      numElements := numElements - 1;
      elems, pairs := Removed(es, k), Removed(ps, k);
      Unlink(head, this, es, ps, k, before, after, ae);
    }

    /** The first element from `start` on with an index of at least i, or the head. */
    method WalkUp(start: Element, ghost k0: nat, i: int) returns (ae: Element, ghost k: nat)
      requires Linked() && Before(pairs, k0, i) && start == At(k0)
      ensures IsPosition(pairs, i, k) && ae == At(k)
    {
      ae, k := start, k0;
      assert Show(0);
      while ae != head && ae.ind < i
        invariant Before(pairs, k, i) && ae == At(k)
        decreases |elems| - k
      {
        Next(k);
        ae, k := ae.next, k + 1;
      }
    }

    /** The first element from `start` on with index i, or the head. */
    method WalkTo(start: Element, ghost k0: nat, i: int) returns (ae: Element, ghost k: nat)
      requires Linked() && Before(pairs, k0, i) && start == At(k0)
      ensures k <= |elems| && ae == At(k)
      ensures if k < |elems| then pairs[k].ind == i else forall j :: 0 <= j < |pairs| ==> pairs[j].ind != i
    {
      ae, k := start, k0;
      assert Show(0);
      while ae != head && ae.ind != i
        invariant k <= |elems| && ae == At(k) && forall j :: 0 <= j < k ==> pairs[j].ind != i
        decreases |elems| - k
      {
        Next(k);
        ae, k := ae.next, k + 1;
      }
    }

    /** The end of the list: a new highest index. */
    method Append(new': Element)
      requires Valid() && new'.owner == this && new' != head && new' !in elems && new'.ind > maxIndex
      requires pairs == [] ==> new'.ind >= 0
      modifies this, head, elems, new'
      ensures Valid() && elems == Inserted(old(elems), |old(elems)|, new')
      ensures pairs == Insert(old(pairs), old(new'.ind), old(new'.value))
    {
      ghost var k := |elems|;
      InsertAt(pairs, k, new'.ind, new'.value);
      Hook(k, head, new');
      maxIndex := new'.ind;
    }

    /** A new index in front of the element at its position. */
    method InsertBefore(ghost k: nat, ae: Element, new': Element)
      requires Valid() && new'.owner == this && new' != head && new' !in elems
      requires IsPosition(pairs, new'.ind, k) && k < |pairs| && pairs[k].ind != new'.ind && ae == elems[k]
      modifies this, head, elems, new'
      ensures Valid() && elems == Inserted(old(elems), k, new')
      ensures pairs == Insert(old(pairs), old(new'.ind), old(new'.value))
    {
      InsertAt(pairs, k, new'.ind, new'.value);
      Hook(k, ae, new');
    }

    /** The search for the place of a new element, from start on; null if there is none. */
    method Put(start: Element, ghost k0: nat, new': Element) returns (ref: Element?)
      requires Valid() && new'.owner == this && new' != head && new' !in elems && new'.ind <= maxIndex
      requires Before(pairs, k0, new'.ind) && start == At(k0)
      modifies this, head, elems, new'
      ensures Valid() && (ref == null <==> old(pairs) == []) && (ref != null ==> ref in elems)
      ensures pairs == if ref == null then old(pairs) else Insert(old(pairs), old(new'.ind), old(new'.value))
      ensures forall e :: e in elems ==> e in old(elems) || e == new'
    {
      var ae, k := WalkUp(start, k0, new'.ind);
      if ae == head {
        return null;
      }
      HoldsOne(this, elems, pairs, k);
      if ae.ind == new'.ind {
        Replace(k, ae, new'.value);
        return ae;
      }
      InsertBefore(k, ae, new');
      return new';
    }

    /** A new value at an index that is there. */
    method Replace(ghost k: nat, ae: Element, v: Value)
      requires Valid() && k < |elems| && ae == elems[k]
      modifies this`pairs, ae`value
      ensures Valid() && pairs == Insert(old(pairs), ae.ind, v)
    {
      HoldsOne(this, elems, pairs, k);
      HoldsUnique(this, elems, pairs);
      InsertSorted(pairs, ae.ind, v);
      PositionIs(pairs, ae.ind, k);
      pairs := pairs[k := Pair(ae.ind, v)];
      ReplaceValue(head, this, elems, pairs, k, ae, v);
    }

    /** Taking out the element at position k. */
    method Delete(ghost k: nat, ae: Element, i: int)
      requires Valid() && k < |elems| && ae == elems[k] && i == pairs[k].ind && Sorted(Removed(pairs, k))
      modifies this, head, elems
      ensures Valid() && elems == Removed(old(elems), k) && pairs == Removed(old(pairs), k) && ae !in elems
      ensures ae.next == At(k) && ae.prev == At(k - 1)
    {
      assert i == maxIndex <==> k == |pairs| - 1;
      Unhook(k, ae);
      if i == maxIndex {
        MaxFrom(ae.prev);
      }
    }

    /** The search for index i, from start on, and the removal of its element. */
    method Take(start: Element, ghost k0: nat, i: int) returns (ae: Element?, ghost k: nat)
      requires Valid() && Before(pairs, k0, i) && start == At(k0)
      modifies this, head, elems
      ensures Valid() && pairs == Remove(old(pairs), i) && (ae != null <==> Found(old(pairs), i))
      ensures ae == null ==> elems == old(elems)
      ensures ae != null ==> k <= |elems| && ae.next == At(k) && ae.prev == At(k - 1)
      ensures forall e :: e in elems ==> e in old(elems)
    {
      ae, k := WalkTo(start, k0, i);
      if ae == head {
        return null, k;
      }
      RemoveAt(pairs, k);
      PositionIs(pairs, i, k);
      Delete(k, ae, i);
    }

    /** The highest index is that of the last element, or the head's. */
    method MaxFrom(last: Element)
      requires Linked() && numElements == |pairs| && last == At(|elems| - 1)
      modifies this`maxIndex
      ensures Valid()
    {
      if pairs != [] {
        HoldsOne(this, elems, pairs, |pairs| - 1);
      }
      maxIndex := last.ind;
    }

    /** array_copy. */
    method CopyOf() returns (a1: Array)
      requires Valid()
      ensures fresh(a1) && fresh(a1.head) && a1.Valid() && a1.pairs == pairs && forall i :: 0 <= i < |a1.elems| ==>
            fresh(a1.elems[i])
    {
      a1 := new Array();
      a1.maxIndex := maxIndex;
      var ae := WalkBy(0);
      ghost var k := 0;
      while ae != head
        invariant Linked() && k <= |elems| && ae == At(k)
        invariant a1.Linked() && a1.pairs == pairs[..k] && a1.numElements == k && a1.maxIndex == maxIndex
        invariant fresh(a1) && fresh(a1.head) && forall i :: 0 <= i < |a1.elems| ==> fresh(a1.elems[i])
        decreases |elems| - k
      {
        ae := CopyNext(a1, ae, k);
        k := k + 1;
      }
      assert pairs[..k] == pairs;
    }

    method CopyNext(a1: Array, ae: Element, ghost k: nat) returns (after: Element)
      requires Linked() && a1.Linked() && a1 != this && k < |elems| && ae == elems[k] && a1.pairs == pairs[..k]
      modifies a1`numElements, a1`elems, a1`pairs, a1.head, a1.elems
      ensures Linked() && a1.Linked() && after == At(k + 1) && a1.pairs == pairs[..k + 1]
            && a1.numElements == old(a1.numElements) + 1
      ensures forall i :: 0 <= i < |a1.elems| ==> a1.elems[i] in old(a1.elems) || fresh(a1.elems[i])
    {
      HoldsOne(this, elems, pairs, k);
      Next(k);
      Apart(a1, this);
      assert pairs[..k + 1] == pairs[..k] + [pairs[k]];
      after := ae.next;
      a1.AppendCopy(ae.ind, ae.value);
    }

    method AppendCopy(ind: int, value: Value)
      requires Linked() && Sorted(pairs + [Pair(ind, value)])
      modifies this`numElements, this`elems, this`pairs, head, elems
      ensures Linked() && pairs == old(pairs) + [Pair(ind, value)] && numElements == old(numElements) + 1
      ensures forall i :: 0 <= i < |elems| ==> elems[i] in old(elems) || fresh(elems[i])
    {
      var new' := new Element(ind, value, this);
      assert Inserted(pairs, |pairs|, Pair(ind, value)) == pairs + [Pair(ind, value)];
      Hook(|elems|, head, new');
    }

    /** array_flush. */
    method Flush()
      requires Linked()
      modifies this, head
      ensures Valid() && pairs == [] && elems == []
    {
      elems, pairs := [], [];
      maxIndex, numElements := -1, 0;
      head.next, head.prev := head, head;
    }

    /** The element n places on from the first, or the head. */
    method WalkBy(n: nat) returns (ae: Element)
      requires Linked()
      ensures ae == At(n)
    {
      var i := 0;
      assert Show(0);
      ae := head.next;
      while ae != head && i < n
        invariant 0 <= i <= n && i <= |elems| && ae == At(i)
        decreases |elems| - i
      {
        Next(i);
        i, ae := i + 1, ae.next;
      }
    }

    /** array_shift: the elements dropped stay behind, unlinked from this list. */
    method ShiftLeft(n: int)
      requires Valid()
      modifies this, head, elems
      ensures Valid() && pairs == Shift(old(pairs), n)
      ensures elems == (if n <= 0 then old(elems) else if n >= |old(elems)| then [] else old(elems)[n..])
    {
      if numElements == 0 || n <= 0 {
        return;
      }
      var ae := WalkBy(n);
      if ae == head {
        Flush();
      } else {
        DropFront(n, ae);
      }
    }

    /** Dropping the first n elements, ae being the next. */
    method DropFront(n: nat, ae: Element)
      requires Linked() && numElements == |pairs| && 0 < n < |elems| && ae == elems[n]
      modifies this, head, elems
      ensures Valid() && pairs == Shift(old(pairs), n) && elems == old(elems)[n..]
    {
      HoldsUnique(this, elems, pairs);
      ghost var es, ps := elems, pairs;
      numElements := numElements - n;
      elems, pairs := es[n..], Shift(ps, n);
      ShiftKeeps(ps, n);
      DropElements(head, this, es, ps, n, es[n - 1], ae);
      SetMax();
    }

    /** array_rshift: v, if given, becomes element 0; everything else moves up by n. */
    method ShiftRight(n: int, v: Value) returns (count: int)
      requires Valid() && Ordered(pairs, n, v)
      modifies this, head, elems
      ensures Valid() && pairs == RShift(old(pairs), n, v) && count == |pairs|
      ensures forall e :: e in elems ==> e in old(elems) || fresh(e)
    {
      if numElements == 0 && v.None? {
        return 0;
      }
      if n <= 0 {
        return numElements;
      }
      RShiftKeeps(pairs, n, v);
      var ae := WalkBy(0);
      if v.Some? {
        PushFront(n, v, ae);
      } else {
        Raise(n, ae);
      }
      count := numElements;
    }

    method Raise(n: int, ae: Element)
      requires Valid() && n > 0 && ae == At(0) && pairs != [] && Sorted(RShift(pairs, n, None))
      modifies this, elems
      ensures Valid() && pairs == RShift(old(pairs), n, None) && elems == old(elems)
    {
      HoldsUnique(this, elems, pairs);
      ghost var ps := pairs;
      pairs := RShift(ps, n, None);
      RaiseElements(head, this, elems, ps, n, ae);
      SetMax();
    }

    method PushFront(n: int, v: Value, ae: Element)
      requires Valid() && n > 0 && v.Some? && ae == At(0) && Sorted(RShift(pairs, n, v))
      modifies this, head, elems
      ensures Valid() && pairs == RShift(old(pairs), n, v)
      ensures forall e :: e in elems ==> e in old(elems) || fresh(e)
    {
      var new' := new Element(0, v, this);
      LinkFront(n, v, ae, new');
    }

    /** A new element of index 0 put in front of the others, which move up by n. */
    method LinkFront(n: int, v: Value, ae: Element, new': Element)
      requires Valid() && n > 0 && v.Some? && ae == At(0) && Sorted(RShift(pairs, n, v))
      requires new' != head && new' !in elems && new'.owner == this && new'.ind == 0 && new'.value == v
      modifies this, head, elems, new'
      ensures Valid() && pairs == RShift(old(pairs), n, v) && elems == Inserted(old(elems), 0, new')
    {
      HoldsUnique(this, elems, pairs);
      ghost var es, ps := elems, pairs;
      numElements := numElements + 1;
      elems, pairs := Inserted(es, 0, new'), RShift(ps, n, v);
      PushElement(head, this, es, ps, n, v, ae, new');
      assert pairs[0] == Pair(0, v);
      MaxAfterPush();
    }

    /** A value pushed onto an empty array has the highest index, 0. */
    method MaxAfterPush()
      requires Linked() && numElements == |pairs| && pairs != [] && pairs[0].ind == 0
      modifies this`maxIndex
      ensures Valid()
    {
      if numElements == 1 {
        maxIndex := 0;
      } else {
        SetMax();
      }
    }

    /** Reading the highest index off the end of the list. */
    method SetMax()
      requires Linked() && numElements == |pairs| && pairs != []
      modifies this`maxIndex
      ensures Valid()
    {
      assert Show(0);
      MaxFrom(head.prev);
    }
  }

  lemma InsertedUnique(es: seq<Element>, k: nat, x: Element)
    requires Unique(es) && k <= |es| && x !in es
    ensures Unique(Inserted(es, k, x))
  {
    assert Show(0);
  }

  lemma SuffixUnique(es: seq<Element>, n: nat)
    requires Unique(es) && n <= |es|
    ensures Unique(es[n..])
  {
    assert Show(0);
  }

  /** Slicing the first n elements out of the list. */
  method CutFront(head: Element, ghost a: Array, ghost es: seq<Element>, ghost ps: seq<Pair>, ghost n: nat,
          ghost before: Element, ae: Element)
    requires Chained(head, es) && Holds(a, es, ps) && Unique(es) && head !in es
    requires 0 < n < |es| && before == es[n - 1] && ae == es[n]
    modifies head`next, ae`prev, before`next
    ensures Chained(head, es[n..]) && Holds(a, es[n..], ps[n..])
  {
    assert Show(0);
    assert ae.prev == es[n - 1];
    ae.prev.next := null;
    head.next := ae;
    ae.prev := head;
  }

  /** The pairs from lo on moved by d. */
  function RenumberTail(ps: seq<Pair>, lo: nat, d: int): (r: seq<Pair>)
    requires lo <= |ps|
    ensures |r| == |ps|
    ensures forall i :: 0 <= i < |ps| ==> r[i] == if i < lo then ps[i] else Pair(ps[i].ind + d, ps[i].value)
  {
    seq(|ps|, i requires 0 <= i < |ps| => if i < lo then ps[i] else Pair(ps[i].ind + d, ps[i].value))
  }

  /** Moving the index of every element from position lo on. */
  method RenumberFrom(head: Element, ghost a: Array, ghost es: seq<Element>, ghost ps: seq<Pair>, ghost lo: nat,
          ghost tail: seq<Element>, start: Element, d: int)
    requires Chained(head, es) && Holds(a, es, ps) && Unique(es) && head !in es
    requires lo <= |es| && (forall i :: lo <= i < |es| ==> es[i] in tail)
    requires start == (if lo == |es| then head else es[lo])
    modifies tail`ind
    ensures Chained(head, es) && Holds(a, es, RenumberTail(ps, lo, d))
  {
    assert Show(0);
    var ae := start;
    ghost var k := lo;
    while ae != head
      invariant lo <= k <= |es| && ae == (if k < |es| then es[k] else head) && Chained(head, es)
      invariant forall i :: 0 <= i < |es| ==>
                  && es[i].owner == a && es[i].value == ps[i].value
                  && es[i].ind == ps[i].ind + if lo <= i < k then d else 0
      decreases |es| - k
    {
      ae.ind := ae.ind + d;
      if k + 1 < |es| {
        assert es[k].next == es[k + 1];
      }
      ae, k := ae.next, k + 1;
    }
  }

  /** Inserting an index that is not there, as a position. */
  lemma InsertAt(ps: seq<Pair>, k: nat, i: int, v: Value)
    requires Sorted(ps) && IsPosition(ps, i, k) && (k < |ps| ==> ps[k].ind != i)
    ensures Insert(ps, i, v) == Inserted(ps, k, Pair(i, v)) && Sorted(Insert(ps, i, v))
  {
    PositionIs(ps, i, k);
    InsertSorted(ps, i, v);
  }

  /** Removing an index that is there, as a position. */
  lemma RemoveAt(ps: seq<Pair>, k: nat)
    requires Sorted(ps) && k < |ps|
    ensures Remove(ps, ps[k].ind) == Removed(ps, k) && Sorted(Remove(ps, ps[k].ind))
  {
    PositionIs(ps, ps[k].ind, k);
    RemoveSorted(ps, ps[k].ind);
  }

  method ReplaceValue(ghost head: Element, ghost a: Array, ghost es: seq<Element>, ghost ps: seq<Pair>, ghost k: nat,
          ae: Element, v: Value)
    requires Chained(head, es) && Unique(es) && k < |es| == |ps| && ae == es[k] && ps[k] == Pair(ae.ind, v)
    requires Holds(a, es, ps[k := Pair(ae.ind, ae.value)])
    modifies ae`value
    ensures Chained(head, es) && Holds(a, es, ps)
  {
    assert Show(0);
    ae.value := v;
  }

  lemma TailIsShift(ps: seq<Pair>, n: nat)
    requires 0 < n < |ps|
    ensures RenumberTail(ps[n..], 0, 0 - n) == Shift(ps, n)
  {
  }

  lemma TailIsRShift(ps: seq<Pair>, n: int, v: Value)
    requires n > 0
    ensures RShift(ps, n, v) ==
            if v.Some? then RenumberTail(Inserted(ps, 0, Pair(0, v)), 1, n) else RenumberTail(ps, 0, n)
  {
  }

  /** Slicing out the first n elements and renumbering the rest. */
  method DropElements(head: Element, ghost a: Array, ghost es: seq<Element>, ghost ps: seq<Pair>, n: nat,
          ghost before: Element, ae: Element)
    requires Chained(head, es) && Holds(a, es, ps) && Unique(es) && head !in es
    requires 0 < n < |es| && before == es[n - 1] && ae == es[n]
    modifies head`next, es
    ensures Chained(head, es[n..]) && Holds(a, es[n..], Shift(ps, n))
  {
    CutFront(head, a, es, ps, n, before, ae);
    SuffixUnique(es, n);
    TailIsShift(ps, n);
    RenumberFrom(head, a, es[n..], ps[n..], 0, es, ae, 0 - n);
  }

  method RaiseElements(head: Element, ghost a: Array, ghost es: seq<Element>, ghost ps: seq<Pair>, n: int, ae: Element)
    requires Chained(head, es) && Holds(a, es, ps) && Unique(es) && head !in es && n > 0
          && ae == (if es == [] then head else es[0])
    modifies es`ind
    ensures Chained(head, es) && Holds(a, es, RShift(ps, n, None))
  {
    TailIsRShift(ps, n, None);
    RenumberFrom(head, a, es, ps, 0, es, ae, n);
  }

  /** Linking in a new element 0 and renumbering the rest. */
  method PushElement(head: Element, ghost a: Array, ghost es: seq<Element>, ghost ps: seq<Pair>, n: int,
          ghost v: Value, ae: Element, new': Element)
    requires Chained(head, es) && Holds(a, es, ps) && Unique(es) && head !in es && n > 0 && v.Some?
    requires new' != head && new' !in es && new'.owner == a && new'.ind == 0 && new'.value == v
          && ae == (if es == [] then head else es[0])
    modifies head, es, new'
    ensures Chained(head, Inserted(es, 0, new')) && head !in Inserted(es, 0, new')
    ensures Holds(a, Inserted(es, 0, new'), RShift(ps, n, v))
    ensures head.owner == old(head.owner) && head.ind == old(head.ind)
  {
    AddBefore(head, a, es, ps, 0, head, ae, new');
    InsertedUnique(es, 0, new');
    TailIsRShift(ps, n, v);
    RenumberFrom(head, a, Inserted(es, 0, new'), Inserted(ps, 0, Pair(0, v)), 1, es, ae, n);
  }

  /** Elements of one array are not elements of another. */
  lemma Apart(a: Array, b: Array)
    requires a.Linked() && b.Linked() && a != b
    ensures Foreign(a, b)
  {
    assert Show(0);
  }

  /** Nothing of b is part of a. */
  ghost predicate Foreign(a: Array, b: Array)
    reads a, b
  {
    && a.head != b.head && b.head !in a.elems
    && forall i :: 0 <= i < |b.elems| ==> b.elems[i] != a.head && b.elems[i] !in a.elems
  }

  /** All arrays, and the one roving pointer. */
  class Arrays {
    var lastarray: Array?
    var lastref: Element?
    ghost var live: set<Array>

    ghost function Cells(): set<object>
      reads this`live, live
    {
      (set a | a in live :: a.head) + (set a, e | a in live && e in a.elems :: e)
    }

    ghost predicate AllValid()
      reads this`live, live, Cells()
    {
      forall z: nat {:trigger Show(z)} :: Show(z) ==>
        forall a :: a in live ==> a.head in Cells() && (forall e :: e in a.elems ==> e in Cells()) && a.Valid()
    }

    ghost predicate Valid()
      reads this, live, Cells()
    {
      && AllValid() && (lastarray == null <==> lastref == null)
      && (lastarray != null ==> lastarray in live && lastref in lastarray.elems)
    }

    lemma One(a: Array)
      requires AllValid() && a in live
      ensures a.Valid()
    {
      assert Show(0);
    }

    constructor ()
      ensures Valid() && live == {}
    {
      lastarray, lastref, live := null, null, {};
    }

    /** LASTREF_START. */
    method Start(a: Array, i: int) returns (start: Element, ghost k: nat)
      requires Valid() && a in live
      ensures Before(a.pairs, k, i) && start == a.At(k)
    {
      One(a);
      if lastarray != null && a == lastarray && i >= lastref.ind {
        start := lastref;
        k :| 0 <= k < |a.elems| && a.elems[k] == start;
        HoldsOne(a, a.elems, a.pairs, k);
      } else {
        start := a.WalkBy(0);
        k := 0;
      }
    }

    /** SET_LASTREF. */
    method SetLastref(a: Array, e: Element)
      requires AllValid() && a in live && e in a.elems
      modifies this`lastarray, this`lastref
      ensures Valid() && lastarray == a
    {
      lastarray, lastref := a, e;
    }

    /** UNSET_LASTREF. */
    method UnsetLastref()
      requires AllValid()
      modifies this`lastarray, this`lastref
      ensures Valid() && lastarray == null
    {
      lastarray, lastref := null, null;
    }

    /** The roving pointer is in order if it is not at a. */
    ghost predicate RovesElsewhere(a: Array)
      reads this, live
    {
      && (lastarray == null <==> lastref == null)
      && (lastarray != null && lastarray != a ==> lastarray in live && lastref in lastarray.elems)
    }

    /** INVALIDATE_LASTREF. */
    method InvalidateLastref(a: Array)
      requires AllValid() && RovesElsewhere(a)
      modifies this`lastarray, this`lastref
      ensures Valid() && lastarray != a
    {
      if a == lastarray {
        lastarray, lastref := null, null;
      }
    }

    method Reference(a: Array, i: int) returns (v: Value)
      requires Valid() && a in live
      modifies this`lastarray, this`lastref
      ensures Valid() && v == Lookup(a.pairs, i)
    {
      One(a);
      if a.numElements == 0 || i > a.maxIndex {
        return None;
      }
      var start, k := Start(a, i);
      var ae;
      ae, k := a.WalkTo(start, k, i);
      if ae != a.head {
        HoldsOne(a, a.elems, a.pairs, k);
        PositionIs(a.pairs, i, k);
        SetLastref(a, ae);
        return ae.value;
      }
      UnsetLastref();
      return None;
    }

    /** What belongs to a belongs to no other array. */
    lemma Separate(a: Array)
      requires AllValid() && a in live
      ensures a.Valid()
      ensures forall b :: b in live && b != a ==> Foreign(a, b)
    {
      One(a);
      forall b | b in live && b != a ensures Foreign(a, b) {
        One(b);
        Apart(a, b);
      }
    }

    /** Changes to one array leave the others as they were. */
    twostate lemma Kept(a: Array)
      requires old(AllValid()) && live == old(live) && a in live && a.Valid()
      requires forall b :: b in live && b != a ==> Same(b)
      ensures AllValid()
    {
      forall b | b in live ensures b.Valid() {
        if b != a {
          StillValid(b);
        }
      }
    }

    twostate lemma StillValid(b: Array)
      requires old(AllValid()) && b in old(live) && Same(b)
      ensures b.Valid()
    {
      WasValid(b);
      var was, now := old(b.Valid()), b.Valid();
      assert was == now;
    }

    twostate lemma WasValid(b: Array)
      requires old(AllValid()) && b in old(live)
      ensures old(b.Valid())
    {
      assert Show(0);
    }

    twostate predicate Same(b: Array)
      reads b, b.head, b.elems
    {
      unchanged(b) && unchanged(b.head) && forall i :: 0 <= i < |b.elems| ==> unchanged(b.elems[i])
    }

    /** Insertion fails only at a negative index of an empty array. */
    method Insert(a: Array, i: int, v: Value) returns (rc: int)
      requires Valid() && a in live
      modifies this`lastarray, this`lastref, a, a.head, a.elems
      ensures Valid() && rc == (if old(a.pairs) == [] && i < 0 then -1 else 0)
      ensures a.pairs == if rc == 0 then Pairs.Insert(old(a.pairs), i, v) else old(a.pairs)
      ensures forall e :: e in a.elems ==> e in old(a.elems) || fresh(e)
    {
      Separate(a);
      var new' := new Element(i, v, a);
      if i > a.maxIndex {
        a.Append(new');
        Kept(a);
        SetLastref(a, new');
        return 0;
      }
      var start, k := Start(a, i);
      var ref := a.Put(start, k, new');
      Kept(a);
      if ref == null {
        InvalidateLastref(a);
        return -1;
      }
      SetLastref(a, ref);
      return 0;
    }

    /** The element removed, or null. */
    method Remove(a: Array, i: int) returns (ae: Element?)
      requires Valid() && a in live
      modifies this`lastarray, this`lastref, a, a.head, a.elems
      ensures Valid() && a.pairs == Pairs.Remove(old(a.pairs), i) && (ae != null <==> Found(old(a.pairs), i))
      ensures forall e :: e in a.elems ==> e in old(a.elems)
    {
      One(a);
      if a.numElements == 0 {
        PositionIs(a.pairs, i, 0);
        return null;
      }
      var start, k := Start(a, i);
      ae := RemoveFrom(a, start, k, i);
    }

    method RemoveFrom(a: Array, start: Element, ghost k0: nat, i: int) returns (ae: Element?)
      requires Valid() && a in live && Before(a.pairs, k0, i) && start == a.At(k0)
      modifies this`lastarray, this`lastref, a, a.head, a.elems
      ensures Valid() && a.pairs == Pairs.Remove(old(a.pairs), i) && (ae != null <==> Found(old(a.pairs), i))
      ensures forall e :: e in a.elems ==> e in old(a.elems)
    {
      Separate(a);
      ghost var k;
      ae, k := a.Take(start, k0, i);
      if ae != null {
        Kept(a);
        RoveFrom(a, ae, k);
      }
    }

    /** After ae has been taken out at position k: on to the next element, or back. */
    method RoveFrom(a: Array, ae: Element, ghost k: nat)
      requires AllValid() && RovesElsewhere(a) && a in live && a.head !in a.elems && k <= |a.elems|
            && ae.next == a.At(k) && ae.prev == a.At(k - 1)
      modifies this`lastarray, this`lastref
      ensures Valid()
    {
      if ae.next != a.head {
        SetLastref(a, ae.next);
      } else if ae.prev != a.head {
        SetLastref(a, ae.prev);
      } else {
        InvalidateLastref(a);
      }
    }

    method Flush(a: Array)
      requires Valid() && a in live
      modifies this`lastarray, this`lastref, a, a.head
      ensures Valid() && a.pairs == [] && a.elems == []
    {
      Separate(a);
      a.Flush();
      Kept(a);
      InvalidateLastref(a);
    }

    method Shift(a: Array, n: int)
      requires Valid() && a in live
      modifies this`lastarray, this`lastref, a, a.head, a.elems
      ensures Valid() && a.pairs == Pairs.Shift(old(a.pairs), n)
      ensures forall e :: e in a.elems ==> e in old(a.elems)
    {
      Separate(a);
      if a.numElements == 0 || n <= 0 {
        return;
      }
      InvalidateLastref(a);
      a.ShiftLeft(n);
      Kept(a);
      UnmovedLastref(a);
    }

    /** A roving pointer that is not at a is still in order. */
    lemma UnmovedLastref(a: Array)
      requires AllValid() && RovesElsewhere(a) && lastarray != a
      ensures Valid()
    {
    }

    method RShift(a: Array, n: int, v: Value) returns (count: int)
      requires Valid() && a in live && Ordered(a.pairs, n, v)
      modifies this`lastarray, this`lastref, a, a.head, a.elems
      ensures Valid() && a.pairs == Pairs.RShift(old(a.pairs), n, v) && count == |a.pairs|
      ensures forall e :: e in a.elems ==> e in old(a.elems) || fresh(e)
    {
      Separate(a);
      if n <= 0 {
        return if a.numElements == 0 && v.None? then 0 else a.numElements;
      }
      var wasEmpty := a.numElements == 0;
      count := a.ShiftRight(n, v);
      Kept(a);
      if wasEmpty {
        UnmovedLastref(a);
      } else {
        InvalidateLastref(a);
      }
    }

    method Create() returns (a: Array)
      requires Valid()
      modifies this`live
      ensures Valid() && live == old(live) + {a} && fresh(a) && fresh(a.head) && a.pairs == [] && a.elems == []
    {
      a := new Array();
      Welcome(a);
    }

    method Copy(a: Array) returns (a1: Array)
      requires Valid() && a in live
      modifies this`live
      ensures Valid() && live == old(live) + {a1} && fresh(a1) && fresh(a1.head) && a1.pairs == a.pairs
      ensures forall i :: 0 <= i < |a1.elems| ==> fresh(a1.elems[i])
    {
      One(a);
      a1 := a.CopyOf();
      Welcome(a1);
    }

    /** A valid new array joins the others. */
    ghost method Welcome(a: Array)
      requires Valid() && a.Valid()
      modifies this`live
      ensures Valid() && live == old(live) + {a}
    {
      forall b | b in live ensures b.Valid() {
        One(b);
      }
      live := live + {a};
      assert forall b :: b in live ==> b.Valid();
    }
  }
}
