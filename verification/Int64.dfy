/** The evaluator's integers: intmax_t with 64 bits, where every overflow wraps
    around in two's complement.  Operators are defined on mathematical integers;
    the lemmas say what each one means independently of how it is computed. */
module Int64 {
  const TWO64: int := 0x1_0000_0000_0000_0000
  const INTMAX_MAX: int := 0x7fff_ffff_ffff_ffff
  const INTMAX_MIN: int := -0x8000_0000_0000_0000

  type word = x: int | INTMAX_MIN <= x <= INTMAX_MAX

  function Excess(x: int): nat { if INTMAX_MIN <= x <= INTMAX_MAX then 0 else Abs(x) }

  /** The unique word congruent to x modulo 2^64. */
  function Wrap(x: int): (r: word)
    ensures INTMAX_MIN <= x <= INTMAX_MAX ==> r == x
    decreases Excess(x)
  {
    if x > INTMAX_MAX then Wrap(x - TWO64)
    else if x < INTMAX_MIN then Wrap(x + TWO64)
    else x
  }

  lemma {:induction false} WrapQuotient(x: int) returns (q: int)
    ensures Wrap(x) - x == q * TWO64
    decreases Excess(x)
  {
    if x > INTMAX_MAX {
      q := WrapQuotient(x - TWO64);
      q := q - 1;
    } else if x < INTMAX_MIN {
      q := WrapQuotient(x + TWO64);
      q := q + 1;
    } else {
      q := 0;
    }
  }

  lemma WrapUnique(x: int, r: word, k: int)
    requires r - x == k * TWO64
    ensures Wrap(x) == r
  {
    var q := WrapQuotient(x);
    assert Wrap(x) - r == (q - k) * TWO64;
  }

  /** Congruent integers wrap to the same word. */
  lemma WrapCongruent(x: int, y: int, k: int)
    requires x - y == k * TWO64
    ensures Wrap(x) == Wrap(y)
  {
    var q := WrapQuotient(y);
    WrapUnique(x, Wrap(y), q - k);
  }

  /** Wrapping an operand first does not change the wrapped product. */
  lemma WrapMul(x: int, y: int)
    ensures Wrap(Wrap(x) * y) == Wrap(x * y)
  {
    var q := WrapQuotient(x);
    Distribute(Wrap(x), x, y);
    assert (Wrap(x) - x) * y == (q * TWO64) * y;
    Reorder(q, TWO64, y);
    WrapCongruent(Wrap(x) * y, x * y, q * y);
  }

  lemma Distribute(x: int, y: int, z: int)
    ensures x * z - y * z == (x - y) * z
  {
  }

  lemma Reorder(x: int, y: int, z: int)
    ensures (x * y) * z == (x * z) * y
  {
  }

  // ----- division, as C truncates it -----

  function TruncDiv(a: int, b: int): int
    requires b != 0
  {
    var q := Abs(a) / Abs(b);
    if (a >= 0) == (b > 0) then q else -q
  }

  function TruncMod(a: int, b: int): int
    requires b != 0
  {
    a - b * TruncDiv(a, b)
  }

  /** The C rule: the remainder takes the dividend's sign and is smaller than
      the divisor, which together with a = bq + r fixes both. */
  lemma TruncDivLaw(a: int, b: int)
    requires b != 0
    ensures a == b * TruncDiv(a, b) + TruncMod(a, b)
    ensures 0 - Abs(b) < TruncMod(a, b) < Abs(b)
    ensures a >= 0 ==> TruncMod(a, b) >= 0
    ensures a <= 0 ==> TruncMod(a, b) <= 0
  {
    var q, r := QuotientOf(Abs(a), Abs(b));
    SignsMultiply(b, q, Abs(b) * q);
    assert b * TruncDiv(a, b) == if a >= 0 then Abs(b) * q else -(Abs(b) * q);
  }

  lemma QuotientOf(n: nat, d: nat) returns (q: int, r: nat)
    requires d > 0
    ensures q == n / d && n == d * q + r && r < d
  {
    q, r := n / d, n % d;
  }

  lemma SignsMultiply(b: int, q: int, p: int)
    requires p == Abs(b) * q
    ensures b * q == (if b > 0 then p else -p) && b * -q == if b > 0 then -p else p
  {
  }

  function Abs(x: int): nat { if x >= 0 then x else -x }

  /** Only INTMAX_MIN / -1 leaves the range. */
  lemma TruncDivInRange(a: word, b: word)
    requires b != 0 && !(a == INTMAX_MIN && b == -1)
    ensures INTMAX_MIN <= TruncDiv(a, b) <= INTMAX_MAX
    ensures INTMAX_MIN <= TruncMod(a, b) <= INTMAX_MAX
  {
    TruncDivLaw(a, b);
    DivBound(Abs(a), Abs(b));
  }

  lemma DivBound(n: nat, d: nat)
    requires d > 0
    ensures 0 <= n / d <= n && (d > 1 ==> 2 * (n / d) <= n)
  {
    var q := n / d;
    assert n == d * q + n % d;
    MulMono(1, d, q);
    if d > 1 {
      MulMono(2, d, q);
    }
  }

  lemma MulMono(x: int, y: int, z: nat)
    requires x <= y
    ensures x * z <= y * z
  {
  }

  // ----- bitwise operators, digit by digit -----

  datatype BitOp = BitAnd | BitOr | BitXor

  predicate BitTable(op: BitOp, p: bool, q: bool) {
    match op
    case BitAnd => p && q
    case BitOr => p || q
    case BitXor => p != q
  }

  function Pow2(n: nat): (r: nat)
    ensures r >= 1
  {
    if n == 0 then 1 else 2 * Pow2(n - 1)
  }

  /** The low n binary digits of a and b combined by the table of op. */
  function Bitwise(op: BitOp, a: nat, b: nat, n: nat): (r: nat)
    ensures r < Pow2(n)
  {
    if n == 0 then 0
    else 2 * Bitwise(op, a / 2, b / 2, n - 1) + (if BitTable(op, a % 2 == 1, b % 2 == 1) then 1 else 0)
  }

  function Digit(a: nat, i: nat): bool {
    if i == 0 then a % 2 == 1 else Digit(a / 2, i - 1)
  }

  lemma {:induction false} BitwiseDigit(op: BitOp, a: nat, b: nat, n: nat, i: nat)
    requires i < n
    ensures Digit(Bitwise(op, a, b, n), i) == BitTable(op, Digit(a, i), Digit(b, i))
  {
    if i > 0 {
      BitwiseDigit(op, a / 2, b / 2, n - 1, i - 1);
      assert Bitwise(op, a, b, n) / 2 == Bitwise(op, a / 2, b / 2, n - 1);
    }
  }

  /** Two's complement bit pattern of a word. */
  function Unsigned(a: word): nat { if a >= 0 then a else a + TWO64 }

  function Bits(op: BitOp, a: word, b: word): word {
    Wrap(Bitwise(op, Unsigned(a), Unsigned(b), 64))
  }

  lemma Pow2Of8()
    ensures Pow2(8) == 256
  {
    assert Pow2(4) == 16;
  }

  lemma Pow2Of64()
    ensures Pow2(64) == TWO64
  {
    Pow2Of8();
    Pow2Add(8, 8);
    Pow2Add(16, 16);
    assert Pow2(32) == 0x1_0000_0000;
    Pow2Add(32, 32);
  }

  lemma {:induction false} Pow2Add(m: nat, n: nat)
    ensures Pow2(m + n) == Pow2(m) * Pow2(n)
  {
    if m > 0 {
      Pow2Add(m - 1, n);
      assert Pow2(m + n) == 2 * Pow2((m - 1) + n);
    }
  }

  /** Bit i of the two's complement form. */
  predicate Bit(a: word, i: nat) { Digit(Unsigned(a), i) }

  /** Each of the 64 bits of a & b, a | b and a ^ b. */
  lemma BitsDigit(a: word, b: word, i: nat)
    requires i < 64
    ensures Bit(Bits(BitAnd, a, b), i) <==> Bit(a, i) && Bit(b, i)
    ensures Bit(Bits(BitOr, a, b), i) <==> Bit(a, i) || Bit(b, i)
    ensures Bit(Bits(BitXor, a, b), i) <==> Bit(a, i) != Bit(b, i)
  {
    TableDigit(BitAnd, a, b, i);
    TableDigit(BitOr, a, b, i);
    TableDigit(BitXor, a, b, i);
  }

  lemma TableDigit(op: BitOp, a: word, b: word, i: nat)
    requires i < 64
    ensures Digit(Unsigned(Bits(op, a, b)), i) == BitTable(op, Digit(Unsigned(a), i), Digit(Unsigned(b), i))
  {
    var r := Bitwise(op, Unsigned(a), Unsigned(b), 64);
    Pow2Of64();
    assert Unsigned(Wrap(r)) == r;
    BitwiseDigit(op, Unsigned(a), Unsigned(b), 64, i);
  }

  /** ~a flips every bit, and equals -a - 1. */
  function Complement(a: word): word { -1 - a }

  lemma {:induction false} DigitFlip(a: nat, n: nat, i: nat)
    requires a < Pow2(n) && i < n
    ensures Digit(Pow2(n) - 1 - a, i) == !Digit(a, i)
  {
    var m := Pow2(n) - 1 - a;
    if i > 0 {
      assert Pow2(n) == 2 * Pow2(n - 1);
      assert m / 2 == Pow2(n - 1) - 1 - a / 2;
      DigitFlip(a / 2, n - 1, i - 1);
    } else {
      assert Pow2(n) == 2 * Pow2(n - 1);
    }
  }

  lemma ComplementFlips(a: word, i: nat)
    requires i < 64
    ensures Digit(Unsigned(Complement(a)), i) == !Digit(Unsigned(a), i)
  {
    Pow2Of64();
    assert Unsigned(Complement(a)) == Pow2(64) - 1 - Unsigned(a);
    DigitFlip(Unsigned(a), 64, i);
  }

  // ----- shifts; a count outside 0..63 is taken modulo 64 -----

  function Shl(a: word, n: word): word { Wrap(a * Pow2(n % 64)) }

  function Shr(a: word, n: word): (r: word)
  {
    var p := Pow2(n % 64);
    FloorInRange(a, p);
    a / p
  }

  lemma FloorInRange(a: word, p: int)
    requires p >= 1
    ensures INTMAX_MIN <= a / p <= INTMAX_MAX
  {
    assert a == p * (a / p) + a % p;
    MulMono(1, p, Abs(a / p));
  }

  // Bits, one place at a time.

  lemma {:induction false} DropTop(x: nat, n: nat, i: nat)
    requires Pow2(n) <= x && i < n
    ensures Digit(x - Pow2(n), i) == Digit(x, i)
  {
    assert Pow2(n) == 2 * Pow2(n - 1);
    if i > 0 {
      assert (x - Pow2(n)) / 2 == x / 2 - Pow2(n - 1);
      DropTop(x / 2, n - 1, i - 1);
    }
  }

  lemma {:induction false} TopDigit(x: nat, n: nat)
    requires x < 2 * Pow2(n)
    ensures Digit(x, n) <==> x >= Pow2(n)
  {
    if n > 0 {
      TopDigit(x / 2, n - 1);
    }
  }

  lemma Pow2Of63()
    ensures Pow2(63) == INTMAX_MAX + 1
  {
    Pow2Of64();
    assert Pow2(64) == 2 * Pow2(63);
  }

  lemma DoubleDigit(a: word, i: nat)
    requires i < 64
    ensures Bit(Wrap(2 * a), i) == (i > 0 && Bit(a, i - 1))
  {
    var u, d := Unsigned(a), Unsigned(Wrap(2 * a));
    assert d == if u > INTMAX_MAX then 2 * u - TWO64 else 2 * u;
    if i > 0 && u > INTMAX_MAX {
      Pow2Of63();
      assert d / 2 == u - Pow2(63);
      DropTop(u, 63, i - 1);
    }
  }

  lemma HalfDigit(a: word, i: nat)
    requires i < 64
    ensures Bit(a / 2, i) == if i < 63 then Bit(a, i + 1) else a < 0
  {
    var u, h := Unsigned(a), Unsigned(a / 2);
    Pow2Of63();
    assert h == if a < 0 then u / 2 + Pow2(63) else u / 2;
    if i < 63 && a < 0 {
      DropTop(h, 63, i);
    } else if i == 63 {
      TopDigit(h, 63);
    }
  }

  lemma ShlOnce(a: word, n: nat)
    requires 0 < n < 64
    ensures Shl(a, n) == Wrap(2 * Shl(a, n - 1))
  {
    var p := Pow2(n - 1);
    assert n % 64 == n && (n - 1) % 64 == n - 1 && Pow2(n) == 2 * p;
    Associate(a, p, 2);
    WrapMul(a * p, 2);
  }

  /** A left shift moves every bit up and lets zeros in. */
  lemma {:induction false} ShlDigit(a: word, n: nat, i: nat)
    requires n < 64 && i < 64
    ensures Bit(Shl(a, n), i) == (i >= n && Bit(a, i - n))
    decreases n
  {
    if n > 0 {
      ShlOnce(a, n);
      DoubleDigit(Shl(a, n - 1), i);
      if i > 0 {
        ShlDigit(a, n - 1, i - 1);
      }
    }
  }

  /** A right shift moves every bit down and repeats the sign. */
  lemma {:induction false} ShrDigit(a: word, n: nat, i: nat)
    requires n < 64 && i < 64
    ensures Bit(Shr(a, n), i) == if i + n < 64 then Bit(a, i + n) else a < 0
    ensures Shr(a, n) < 0 <==> a < 0
    decreases n
  {
    assert n % 64 == n;
    if n > 0 {
      assert (n - 1) % 64 == n - 1;
      QuotientHalf(a, Pow2(n - 1));
      HalfDigit(Shr(a, n - 1), i);
      ShrDigit(a, n - 1, if i < 63 then i + 1 else i);
    }
  }

  lemma QuotientHalf(a: int, p: nat)
    requires p > 0
    ensures a / (2 * p) == (a / p) / 2
  {
    var q := a / p;
    var h, b := q / 2, q % 2;
    assert a == q * p + a % p;
    assert q * p == h * (2 * p) + b * p;
    assert 0 <= b * p <= p;
    FloorUnique(a, 2 * p, h, b * p + a % p);
  }

  lemma FloorUnique(a: int, p: nat, q: int, r: nat)
    requires r < p && a == q * p + r
    ensures a / p == q
  {
    var q' := a / p;
    assert a == q' * p + a % p;
    if q' < q {
      MulMono(q' + 1, q, p);
    } else if q < q' {
      MulMono(q + 1, q', p);
    }
  }

  // ----- exponentiation -----

  function Pow(b: int, e: nat): int {
    if e == 0 then 1 else b * Pow(b, e - 1)
  }

  lemma {:induction false} PowSquare(b: int, n: nat)
    ensures Pow(b * b, n) == Pow(b, 2 * n)
  {
    if n > 0 {
      PowSquare(b, n - 1);
      assert Pow(b, 2 * n) == b * (b * Pow(b, 2 * n - 2));
    }
  }

  lemma {:induction false} WrapPow(b: int, n: nat)
    ensures Wrap(Pow(Wrap(b), n)) == Wrap(Pow(b, n))
  {
    if n > 0 {
      WrapPow(b, n - 1);
      var w, p := Pow(Wrap(b), n - 1), Pow(b, n - 1);
      WrapMul(w, Wrap(b));
      WrapMul(p, Wrap(b));
      WrapMul(b, p);
      assert Wrap(b) * w == w * Wrap(b);
      assert Wrap(b) * p == p * Wrap(b);
    }
  }

  /** What the source's ipow computes: the power, wrapped once at the end. */
  function WrapPower(b: word, e: nat): word { Wrap(Pow(b, e)) }

  function MulWrap(a: word, b: word): word { Wrap(a * b) }

  /** The squaring loop's remaining work, one loop iteration per unfolding. */
  function Squaring(result: word, base: word, exp: nat): word
    decreases exp
  {
    if exp == 0 then result
    else Squaring(if exp % 2 == 1 then MulWrap(result, base) else result, MulWrap(base, base), exp / 2)
  }

  /** Binary exponentiation, wrapping at every multiplication. */
  method IPow(b: word, e: nat) returns (result: word)
    ensures result == WrapPower(b, e)
  {
    SquaringIsPower(b, e);
    result := 1;
    var base, exp := b, e;
    while exp != 0
      invariant Squaring(result, base, exp) == WrapPower(b, e)
    {
      if exp % 2 == 1 {
        result := MulWrap(result, base);
      }
      exp := exp / 2;
      base := MulWrap(base, base);
    }
  }

  lemma SquaringIsPower(b: word, e: nat)
    ensures Squaring(1, b, e) == WrapPower(b, e)
  {
    SquaringScales(1, b, e);
    assert 1 * Pow(b, e) == Pow(b, e);
  }

  lemma {:induction false} SquaringScales(result: word, base: word, exp: nat)
    ensures Squaring(result, base, exp) == Wrap(result * Pow(base, exp))
    decreases exp
  {
    if exp == 0 {
      assert result * Pow(base, 0) == result;
    } else {
      var h := exp / 2;
      var a0 := if exp % 2 == 1 then result * base else result;
      SquaringScales(Wrap(a0), MulWrap(base, base), h);
      SquareStep(a0, base, h);
      if exp % 2 == 1 {
        Associate(result, base, Pow(base, 2 * h));
      }
    }
  }

  lemma WrapMulBoth(x: int, x': int, y: int, y': int)
    requires Wrap(x) == Wrap(x') && Wrap(y) == Wrap(y')
    ensures Wrap(x * y) == Wrap(x' * y')
  {
    WrapMul(x, y);
    WrapMul(x', y);
    WrapMul(y, x');
    WrapMul(y', x');
    assert x' * y == y * x' && x' * y' == y' * x';
  }

  lemma SquareStep(a0: int, base: word, h: nat)
    ensures Wrap(Wrap(a0) * Pow(MulWrap(base, base), h)) == Wrap(a0 * Pow(base, 2 * h))
  {
    PowSquare(base, h);
    WrapPow(base * base, h);
    WrapMulBoth(Wrap(a0), a0, Pow(MulWrap(base, base), h), Pow(base * base, h));
  }

  lemma Associate(x: int, y: int, z: int)
    ensures (x * y) * z == x * (y * z)
  {
  }
}
