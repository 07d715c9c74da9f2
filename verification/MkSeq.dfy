/** Sequence terms such as {1..9..2}: the arithmetic of mkseq, on 64-bit integers, with the
    element count held in a 32-bit int. */
module MkSeq {
  import opened Int64
  import opened Options

  const INT_MAX: int := 0x7fff_ffff
  const TWO32: int := 0x1_0000_0000

  // ----- what a sequence is -----

  /** The increment, turned to point from start to end. */
  function Towards(start: int, end: int, incr: int): int {
    var step := if incr == 0 then 1 else incr;
    if (start > end && step > 0) || (start < end && step < 0) then -step else step
  }

  /** How many terms start, start + step, ... there are up to end. */
  function Count(start: int, end: int, step: int): nat
    requires step != 0
  {
    Abs(end - start) / Abs(step) + 1
  }

  function Progression(start: int, step: int, count: nat): (r: seq<int>)
    ensures |r| == count && forall k :: 0 <= k < count ==> r[k] == start + k * step
  {
    seq(count, k => start + k * step)
  }

  /** n lies on the way from start to end. */
  predicate Between(start: int, n: int, end: int) { start <= n <= end || start >= n >= end }

  /** Count is right: its last term is on the way, the one after is past the end. */
  lemma CountReaches(start: int, end: int, incr: int)
    ensures var step := Towards(start, end, incr); var c := Count(start, end, step);
            && Between(start, start + (c - 1) * step, end)
            && (if step > 0 then start + c * step > end else start + c * step < end)
  {
    var step := Towards(start, end, incr);
    var d, s := Abs(end - start), Abs(step);
    var q := d / s;
    QuotientBounds(d, s);
    Signed(q, step);
    Signed(q + 1, step);
  }

  lemma QuotientBounds(d: nat, s: nat)
    requires s > 0
    ensures d / s * s <= d < (d / s + 1) * s
  {
    var q := d / s;
    assert d == q * s + d % s;
    assert (q + 1) * s == q * s + s;
  }

  lemma Signed(q: int, step: int)
    ensures q * step == if step > 0 then q * Abs(step) else -(q * Abs(step))
  {
  }

  // ----- the guards -----

  predicate AddOverflow(a: int, b: int, minv: int, maxv: int) {
    (a > 0 && b > maxv - a) || (a < 0 && b < minv - a)
  }

  predicate SubOverflow(a: int, b: int, minv: int, maxv: int) {
    (b > 0 && a < minv + b) || (b < 0 && a > maxv + b)
  }

  /** Between words the addition guard is exact. */
  lemma AddGuardExact(a: word, b: word)
    ensures AddOverflow(a, b, INTMAX_MIN, INTMAX_MAX) <==> !(INTMAX_MIN <= a + b <= INTMAX_MAX)
  {
  }

  /** sh_imaxabs, which leaves INTMAX_MIN as it is. */
  function ImaxAbs(x: word): (r: word)
    ensures r == if x == INTMAX_MIN then x else Abs(x)
  {
    if x >= 0 then x else Wrap(0 - x)
  }

  /** Conversion from intmax_t to int. */
  function ToInt(x: word): (r: int)
    ensures -INT_MAX - 1 <= r <= INT_MAX
    ensures -INT_MAX - 1 <= x <= INT_MAX ==> r == x
  {
    var low := x % TWO32;
    if low > INT_MAX then low - TWO32 else low
  }

  // ----- mkseq -----

  /** The increment mkseq steps by; None where it gives up. */
  function Increment(start: word, end: word, incr: word): (r: Option<word>)
    ensures r.Some? ==> r.value == Towards(start, end, incr) && r.value != 0
    ensures r.None? <==> start < end && incr == INTMAX_MIN
  {
    var step: word := if incr == 0 then 1 else incr;
    if start > end && step > 0 then Some(0 - step)
    else if start < end && step < 0 then (if step == INTMAX_MIN then None else Some(0 - step))
    else Some(step)
  }

  /** The number of elements, before and after it is stored in an int. */
  function Quotient(start: word, end: word, step: word): (q: word)
    requires step != 0 && !SubOverflow(end, start, INTMAX_MIN + 3, INTMAX_MAX - 2)
    ensures start == 0 && end == INTMAX_MIN ==> q < 0 || step == INTMAX_MIN
  {
    var n, d := ImaxAbs(end - start), ImaxAbs(step);
    TruncDivInRange(n, d);
    QuotientSign(n, d);
    TruncDiv(n, d)
  }

  lemma QuotientSign(n: word, d: word)
    requires d != 0 && (d > 0 || d == INTMAX_MIN)
    ensures n == INTMAX_MIN && d > 0 ==> TruncDiv(n, d) < 0
  {
    if n == INTMAX_MIN && d > 0 {
      TruncDivLaw(n, d);
      if TruncDiv(n, d) >= 0 {
        MulMono(0, TruncDiv(n, d), d);
      }
    }
  }

  lemma QuotientIsCount(start: word, end: word, step: word)
    requires step != 0 && !SubOverflow(end, start, INTMAX_MIN + 3, INTMAX_MAX - 2)
    requires !(start == 0 && end == INTMAX_MIN) || step == INTMAX_MIN
    ensures Quotient(start, end, step) + 1 == Count(start, end, step)
  {
    var n, d := end - start, Abs(step);
    if step == INTMAX_MIN {
      assert d == -INTMAX_MIN;
      if n == INTMAX_MIN {
        assert TruncDiv(INTMAX_MIN, INTMAX_MIN) == 1;
      } else {
        SmallQuotient(Abs(n), INTMAX_MIN);
      }
    }
  }

  lemma SmallQuotient(n: nat, d: int)
    requires n < Abs(d)
    ensures n / d == 0 && n / Abs(d) == 0
  {
  }

  /** A term on the way with the next one past the end is the last. */
  lemma LastTerm(start: int, end: int, incr: int, c: nat)
    requires var step := Towards(start, end, incr);
             && c > 0 && Between(start, start + (c - 1) * step, end)
             && (if step > 0 then start + c * step > end else start + c * step < end)
    ensures c == Count(start, end, Towards(start, end, incr))
  {
    var step := Towards(start, end, incr);
    var d, s := Abs(end - start), Abs(step);
    Signed(c - 1, step);
    assert c * step == (c - 1) * step + step;
    assert (c - 1) * s <= d < (c - 1) * s + s;
    DivideUnique(d, s, c - 1);
  }

  lemma DivideUnique(d: nat, s: nat, q: nat)
    requires s > 0 && q * s <= d < q * s + s
    ensures d / s == q
  {
    var p := d / s;
    assert d == p * s + d % s;
    if p < q {
      MulMono(p + 1, q, s);
    } else if q < p {
      MulMono(q + 1, p, s);
    }
  }

  /** The slots allocated are those filled exactly when the count fits. */
  lemma SlotsExact(start: word, end: word, step: word)
    requires step != 0 && !SubOverflow(end, start, INTMAX_MIN + 3, INTMAX_MAX - 2)
    requires Quotient(start, end, step) < INTMAX_MAX && ToInt(Quotient(start, end, step) + 1) <= INT_MAX - 2
    ensures ToInt(Quotient(start, end, step) + 1) == Count(start, end, step)
        <==> Count(start, end, step) <= INT_MAX - 2 && !(start == 0 && end == INTMAX_MIN && step != INTMAX_MIN)
  {
    if !(start == 0 && end == INTMAX_MIN) || step == INTMAX_MIN {
      QuotientIsCount(start, end, step);
    } else {
      var q, d := Quotient(start, end, step), Abs(step);
      assert q == 1 - Count(start, end, step);
      DivBound(-INTMAX_MIN, d);
    }
  }

  /** The distance between the ends and the number of terms are within bounds. */
  predicate Fits(start: int, end: int, incr: int) {
    && Abs(end - start) <= INTMAX_MAX - 2
    && incr != INTMAX_MIN
    && Count(start, end, Towards(start, end, incr)) <= INT_MAX - 2
  }

  /** The terms, and the number of slots allocated for them.  Every sum, difference and
      quotient formed on the way is a word: all variables are. */
  method MkSeq(start: word, end: word, incr: word) returns (result: Option<seq<int>>, slots: int)
    ensures Fits(start, end, incr) ==> result.Some?
    ensures result.Some? ==>
            var step := Towards(start, end, incr); var count := Count(start, end, step);
            && Abs(step) == (if incr == 0 then 1 else Abs(incr))
            && (start < end ==> step > 0) && (start > end ==> step < 0)
            && result.value == Progression(start, step, count)
            && (slots == count <==> count <= INT_MAX - 2 && !(start == 0 && end == INTMAX_MIN && step != INTMAX_MIN))
  {
    result, slots := None, 0;
    var increment := Increment(start, end, incr);
    if increment.None? {
      return;
    }
    var step: word := increment.value;
    if SubOverflow(end, start, INTMAX_MIN + 3, INTMAX_MAX - 2) {
      return;
    }
    var quotient := Quotient(start, end, step);
    if Fits(start, end, incr) {
      QuotientIsCount(start, end, step);
    }
    if AddOverflow(quotient, 1, INTMAX_MIN, INTMAX_MAX) {
      return;
    }
    slots := ToInt(quotient + 1);
    if slots > INT_MAX - 2 {
      return;
    }
    SlotsExact(start, end, step);
    var values := Terms(start, end, incr, step);
    result := Some(values);
  }

  lemma ProgressionGrows(start: int, step: int, count: nat, n: int)
    requires n == start + count * step
    ensures Progression(start, step, count) + [n] == Progression(start, step, count + 1)
    ensures n + step == start + (count + 1) * step
  {
  }

  /** The loop that fills the slots. */
  method Terms(start: word, end: word, ghost incr: word, step: word) returns (values: seq<int>)
    requires step == Towards(start, end, incr)
    ensures values == Progression(start, step, Count(start, end, step))
  {
    values := [];
    var n: word := start;
    ghost var i := 0;
    while true
      invariant n == start + i * step && Between(start, n, end)
      invariant values == Progression(start, step, i)
      decreases Abs(end - n)
    {
      ProgressionGrows(start, step, i, n);
      values := values + [n];
      i := i + 1;
      AddGuardExact(n, step);
      if AddOverflow(n, step, INTMAX_MIN, INTMAX_MAX) {
        break;
      }
      n := n + step;
      if (step < 0 && n < end) || (step > 0 && n > end) {
        break;
      }
    }
    LastTerm(start, end, incr, i);
  }
}
