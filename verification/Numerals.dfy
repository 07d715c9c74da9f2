/** Numerals of the arithmetic evaluator: constants in bases 2 to 64, and the decimal
    text in which values are stored in variables. */
module Numerals {
  import opened Int64
  import opened ExprMachine

  datatype Number = Value(v: word) | InvalidNumber | InvalidBase | DigitTooGreat

  /** The value of a digit; letters above z are digits of their own only past base 36. */
  function DigitValue(c: char, base: int): (d: int)
    ensures -1 <= d <= 63
  {
    if '0' <= c <= '9' then c as int - '0' as int
    else if 'a' <= c <= 'z' then c as int - 'a' as int + 10
    else if 'A' <= c <= 'Z' then c as int - 'A' as int + if base <= 36 then 10 else 36
    else if c == '@' then 62
    else if c == '_' then 63
    else -1
  }

  /** The digits still to be read, with the number so far. */
  function Scan(s: string, base: int, foundBase: bool, val: word): Number {
    if s == [] then Value(val)
    else if s[0] == '#' then
      if foundBase then InvalidNumber
      else if val < 2 || val > 64 then InvalidBase
      else Scan(s[1..], val, true, 0)
    else
      var d := DigitValue(s[0], base);
      if d < 0 then Value(val)
      else if d >= base then DigitTooGreat
      else Scan(s[1..], base, foundBase, Wrap(val * base + d))
  }

  function Number10(s: string): Number {
    if s == [] || s[0] != '0' then Scan(s, 10, false, 0)
    else if |s| == 1 then Value(0)
    else if s[1] == 'x' || s[1] == 'X' then Scan(s[2..], 16, true, 0)
    else Scan(s[1..], 8, true, 0)
  }

  method StrLong(num: string) returns (n: Number)
    ensures n == Number10(num)
  {
    var i := 0;
    var base: int := 10;
    var foundBase := false;
    if num != [] && num[0] == '0' {
      i := 1;
      if i == |num| {
        return Value(0);
      }
      if num[i] == 'x' || num[i] == 'X' {
        base, i := 16, i + 1;
      } else {
        base := 8;
      }
      foundBase := true;
    }
    var val: word := 0;
    while i < |num|
      invariant 0 <= i <= |num|
      invariant Scan(num[i..], base, foundBase, val) == Number10(num)
    {
      var c := num[i];
      assert num[i..][1..] == num[i + 1..];
      if c == '#' {
        if foundBase {
          return InvalidNumber;
        }
        if val < 2 || val > 64 {
          return InvalidBase;
        }
        base, val, foundBase := val, 0, true;
      } else {
        var d := DigitValue(c, base);
        if d < 0 {
          break;
        }
        if d >= base {
          return DigitTooGreat;
        }
        val := Wrap(val * base + d);
      }
      i := i + 1;
    }
    return Value(val);
  }

  // ----- writing numbers -----

  /** [0-9][a-z][A-Z]@_ */
  function DigitChar(d: nat): (c: char)
    requires d < 64
    ensures forall base: int :: d < base ==> DigitValue(c, base) == d
    ensures c != '#'
  {
    if d < 10 then '0' + d as char
    else if d < 36 then 'a' + (d - 10) as char
    else if d < 62 then 'A' + (d - 36) as char
    else if d == 62 then '@'
    else '_'
  }

  function Write(v: nat, base: nat): (s: string)
    requires 2 <= base <= 64
    ensures s != [] && (v > 0 ==> s[0] != '0')
  {
    if v < base then [DigitChar(v)]
    else Split(v, base); Write(v / base, base) + [DigitChar(v % base)]
  }

  lemma Split(v: nat, base: nat)
    requires 2 <= base <= v
    ensures 0 < v / base < v && 0 <= v % base < base && v == (v / base) * base + v % base
  {
    var q := v / base;
    assert v == base * q + v % base;
    if q <= 0 {
      MulMono(q, 0, base);
    } else {
      MulMono(2, base, q);
    }
  }

  /** Reading back the digits of any number, of any size, gives it modulo 2^64. */
  lemma {:induction false} ScanWrite(v: nat, base: nat, foundBase: bool, rest: string)
    requires 2 <= base <= 64
    ensures Scan(Write(v, base) + rest, base, foundBase, 0) == Scan(rest, base, foundBase, Wrap(v))
    decreases v
  {
    if v < base {
      ScanDigit(0, v, base, foundBase, rest);
    } else {
      Split(v, base);
      var q, d := v / base, v % base;
      assert Write(v, base) + rest == Write(q, base) + ([DigitChar(d)] + rest);
      ScanWrite(q, base, foundBase, [DigitChar(d)] + rest);
      ScanDigit(q, d, base, foundBase, rest);
    }
  }

  lemma ScanDigit(q: nat, d: nat, base: nat, foundBase: bool, rest: string)
    requires 2 <= base <= 64 && d < base
    ensures Scan([DigitChar(d)] + rest, base, foundBase, Wrap(q)) == Scan(rest, base, foundBase, Wrap(q * base + d))
  {
    var s := [DigitChar(d)] + rest;
    assert s[1..] == rest && DigitValue(s[0], base) == d && s[0] != '#';
    WrapShift(q, base, d);
  }

  lemma WrapShift(q: int, base: int, d: int)
    ensures Wrap(Wrap(q) * base + d) == Wrap(q * base + d)
  {
    var k := WrapQuotient(q);
    assert (Wrap(q) * base + d) - (q * base + d) == (Wrap(q) - q) * base;
    assert (k * TWO64) * base == (k * base) * TWO64;
    WrapCongruent(Wrap(q) * base + d, q * base + d, k * base);
  }

  // ----- round trips -----

  /** base#digits, for every documented base and every number. */
  lemma BaseRoundTrip(v: nat, base: nat)
    requires 2 <= base <= 64
    ensures Number10(Write(base, 10) + "#" + Write(v, base)) == Value(Wrap(v))
    ensures v <= INTMAX_MAX ==> Number10(Write(base, 10) + "#" + Write(v, base)) == Value(v)
  {
    var rest := "#" + Write(v, base);
    var s := Write(base, 10) + rest;
    assert s == Write(base, 10) + "#" + Write(v, base);
    ScanWrite(base, 10, false, rest);
    assert rest[1..] == Write(v, base) == Write(v, base) + [];
    ScanWrite(v, base, true, []);
  }

  lemma DecimalRoundTrip(v: nat)
    ensures Number10(Write(v, 10)) == Value(Wrap(v))
  {
    assert Write(v, 10) + [] == Write(v, 10);
    ScanWrite(v, 10, false, []);
    if v == 0 {
      assert Write(0, 10) == [DigitChar(0)] == "0";
    }
  }

  lemma PrefixedRoundTrips(v: nat)
    ensures Number10("0" + Write(v, 8)) == Value(Wrap(v))
    ensures Number10("0x" + Write(v, 16)) == Value(Wrap(v)) == Number10("0X" + Write(v, 16))
  {
    var o, h, H := "0" + Write(v, 8), "0x" + Write(v, 16), "0X" + Write(v, 16);
    FirstDigit(v, 8);
    assert o[1..] == Write(v, 8) == Write(v, 8) + [];
    assert h[2..] == H[2..] == Write(v, 16) == Write(v, 16) + [];
    ScanWrite(v, 8, true, []);
    ScanWrite(v, 16, true, []);
  }

  lemma {:induction false} FirstDigit(v: nat, base: nat)
    requires 2 <= base <= 10
    ensures '0' <= Write(v, base)[0] <= '9'
  {
    if v >= base {
      Split(v, base);
      FirstDigit(v / base, base);
      assert Write(v, base)[0] == Write(v / base, base)[0];
    } else {
      assert Write(v, base) == [DigitChar(v)];
    }
  }

  // ----- letters as digits -----

  /** The same character, or the same letter in the other case. */
  predicate SameLetter(c: char, d: char) {
    || c == d
    || ('a' <= c <= 'z' && 'A' <= d <= 'Z' && c as int - 'a' as int == d as int - 'A' as int)
    || ('A' <= c <= 'Z' && 'a' <= d <= 'z' && c as int - 'A' as int == d as int - 'a' as int)
  }

  predicate SameLetters(s: string, t: string) { |s| == |t| && forall i :: 0 <= i < |s| ==> SameLetter(s[i], t[i]) }

  /** Up to base 36 it does not matter in which case a letter is written. */
  lemma {:induction false} CaseInBase(s: string, t: string, base: int, foundBase: bool, val: word)
    requires SameLetters(s, t) && base <= 36 && (foundBase || '#' !in s)
    ensures Scan(s, base, foundBase, val) == Scan(t, base, foundBase, val)
    decreases |s|
  {
    if s != [] {
      assert SameLetter(s[0], t[0]) && s[0] in s;
      assert DigitValue(s[0], base) == DigitValue(t[0], base);
      var d := DigitValue(s[0], base);
      if 0 <= d < base && s[0] != '#' {
        CaseInBase(s[1..], t[1..], base, foundBase, Wrap(val * base + d));
      }
    }
  }

  /** So a numeral without a base, and one with a base up to 36, reads the same either way. */
  lemma CaseDoesNotMatter(s: string, t: string, base: nat)
    requires SameLetters(s, t)
    ensures '#' !in s ==> Number10(s) == Number10(t)
    ensures 2 <= base <= 36 ==> Number10(Write(base, 10) + "#" + s) == Number10(Write(base, 10) + "#" + t)
  {
    if '#' !in s && s != [] {
      assert SameLetter(s[0], t[0]);
      if s[0] != '0' {
        CaseInBase(s, t, 10, false, 0);
      } else if |s| > 1 {
        assert SameLetter(s[1], t[1]);
        CaseInBase(s[2..], t[2..], 16, true, 0);
        CaseInBase(s[1..], t[1..], 8, true, 0);
      }
    }
    if 2 <= base <= 36 {
      BaseThen(base, s);
      BaseThen(base, t);
      CaseInBase(s, t, base, true, 0);
    }
  }

  /** After `base#` the digits are read in that base. */
  lemma BaseThen(base: nat, s: string)
    requires 2 <= base <= 64
    ensures Number10(Write(base, 10) + "#" + s) == Scan(s, base, true, 0)
  {
    var rest := "#" + s;
    assert Write(base, 10) + "#" + s == Write(base, 10) + rest && rest[1..] == s;
    ScanWrite(base, 10, false, rest);
  }

  lemma HexInCapitals()
    ensures Number10("0xFF") == Number10("0xff") == Number10("0XfF") == Value(255)
  {
    assert SameLetters("0xff", "0xFF") && SameLetters("0xff", "0XfF");
    CaseDoesNotMatter("0xff", "0xFF", 16);
    CaseDoesNotMatter("0xff", "0XfF", 16);
    assert Write(255, 16) == Write(15, 16) + [DigitChar(15)] == "ff";
    assert "0x" + "ff" == "0xff";
    PrefixedRoundTrips(255);
  }

  // ----- numerals that are not -----

  /** A base out of range, a digit that the base does not have, and a second base. */
  lemma NumeralErrors(base: nat, v: nat, d: nat, rest: string)
    ensures base == 1 || 64 < base <= INTMAX_MAX ==> Number10(Write(base, 10) + "#" + rest) == InvalidBase
    ensures 2 <= base <= 64 ==> Number10(Write(base, 10) + "#" + (Write(v, base) + "#" + rest)) == InvalidNumber
    ensures 2 <= base <= d < 64 && (d < 36 || base > 36) ==>
              Number10(Write(base, 10) + "#" + (Write(v, base) + [DigitChar(d)] + rest)) == DigitTooGreat
  {
    if base == 1 || 64 < base <= INTMAX_MAX {
      assert Write(base, 10) + "#" + rest == Write(base, 10) + ("#" + rest);
      ScanWrite(base, 10, false, "#" + rest);
    }
    if 2 <= base <= 64 {
      BaseThen(base, Write(v, base) + "#" + rest);
      assert Write(v, base) + "#" + rest == Write(v, base) + ("#" + rest);
      ScanWrite(v, base, true, "#" + rest);
    }
    if 2 <= base <= d < 64 && (d < 36 || base > 36) {
      BaseThen(base, Write(v, base) + [DigitChar(d)] + rest);
      assert Write(v, base) + [DigitChar(d)] + rest == Write(v, base) + ([DigitChar(d)] + rest);
      ScanWrite(v, base, true, [DigitChar(d)] + rest);
      GreatDigit(d, base);
    }
  }

  lemma GreatDigit(d: nat, base: nat)
    requires 2 <= base <= d < 64 && (d < 36 || base > 36)
    ensures DigitValue(DigitChar(d), base) == d
  {
  }

  // ----- the text of a value -----

  /** itos followed by the tokenizer: a minus sign, if any, and one numeral. */
  function ItosTokens(v: word): seq<Token> {
    var n := Number10(Write(Abs(v), 10));
    var t := if n.Value? then Num(n.v) else End;
    if v < 0 then [Bin(Minus), t] else [t]
  }

  /** The token text the evaluator stores is the decimal text read back, also for
      INTMAX_MIN, whose digits denote a number out of range. */
  lemma ItosIsText(v: word)
    ensures ItosTokens(v) == Itos(v)
  {
    DecimalRoundTrip(Abs(v));
  }
}
