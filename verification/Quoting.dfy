/** Quoting with backslashes, and the removal of quotes. */
module Quoting {
  /** The characters of the table: white space, quotes, and what has a meaning to the shell. */
  predicate NeedsBackslash(c: char) {
    || c == '\t' || c == '\n' || c == ' ' || c == '!' || c == '"' || c == '$' || c == '&' || c == '\''
    || c == '(' || c == ')' || c == '*' || c == ',' || c == ';' || c == '<' || c == '>' || c == '?'
    || c == '[' || c == '\\' || c == ']' || c == '^' || c == '`' || c == '{' || c == '|' || c == '}'
  }

  /** The same, written out. */
  const SPECIAL: string := "\t\n !\"$&'()*,;<>?[\\]^`{|}"

  /** A comment sign needs a backslash at the start only. */
  function QuoteChar(c: char, start: bool): (r: string)
    ensures r == [c] || r == ['\\', c]
  {
    if NeedsBackslash(c) || (c == '#' && start) then ['\\', c] else [c]
  }

  function QuoteFrom(s: string, start: bool): string {
    if s == [] then "" else QuoteChar(s[0], start) + QuoteFrom(s[1..], false)
  }

  function Quote(s: string): string { QuoteFrom(s, true) }

  /** sh_backslash_quote. */
  method BackslashQuote(s: string) returns (r: string)
    ensures r == Quote(s)
  {
    r := "";
    for i := 0 to |s|
      invariant r + QuoteFrom(s[i..], i == 0) == Quote(s)
    {
      QuoteStep(s, i, r);
      if NeedsBackslash(s[i]) {
        r := r + ['\\'];
      } else if s[i] == '#' && i == 0 {
        r := r + ['\\'];
      }
      r := r + [s[i]];
    }
    assert s[|s|..] == [];
  }

  lemma QuoteStep(s: string, i: nat, r: string)
    requires i < |s|
    ensures r + QuoteFrom(s[i..], i == 0) == (r + QuoteChar(s[i], i == 0)) + QuoteFrom(s[i + 1..], false)
    ensures (r + ['\\']) + [s[i]] == r + ['\\', s[i]]
  {
    assert s[i..][0] == s[i] && s[i..][1..] == s[i + 1..];
    Associate(r, QuoteChar(s[i], i == 0), QuoteFrom(s[i + 1..], false));
  }

  /** What is left when the backslashes that quote are removed. */
  function Unquote(s: string): string {
    if s == [] then ""
    else if s[0] != '\\' then [s[0]] + Unquote(s[1..])
    else if |s| == 1 then ""
    else [s[1]] + Unquote(s[2..])
  }

  /** Quote removal undoes quoting, whatever follows. */
  lemma {:induction false} UnquoteFrom(s: string, start: bool, rest: string)
    ensures Unquote(QuoteFrom(s, start) + rest) == s + Unquote(rest)
  {
    if s == [] {
      assert QuoteFrom(s, start) + rest == rest;
    } else {
      UnquoteFrom(s[1..], false, rest);
      var q, t := QuoteChar(s[0], start), QuoteFrom(s[1..], false);
      UnquoteChar(s[0], start, t + rest);
      Associate(q, t, rest);
      Associate([s[0]], s[1..], Unquote(rest));
      assert s == [s[0]] + s[1..];
    }
  }

  lemma Associate(a: string, b: string, c: string)
    ensures (a + b) + c == a + (b + c)
  {
  }

  lemma UnquoteChar(c: char, start: bool, tail: string)
    ensures Unquote(QuoteChar(c, start) + tail) == [c] + Unquote(tail)
  {
    var q := QuoteChar(c, start);
    assert (q + tail)[|q|..] == tail && (q + tail)[0] == q[0];
  }

  lemma SpecialIs(c: char)
    ensures NeedsBackslash(c) <==> c in SPECIAL
  {
  }

  /** The characters of s that stand for themselves, not behind a backslash that quotes them. */
  function Exposed(s: string): set<char> {
    if s == [] then {}
    else if s[0] != '\\' then {s[0]} + Exposed(s[1..])
    else if |s| == 1 then {s[0]}
    else Exposed(s[2..])
  }

  /** No character with a meaning to the shell is left bare, whatever follows, and no comment
      sign at the start. */
  lemma {:induction false} NothingExposed(s: string, start: bool, rest: string)
    ensures forall c :: c in Exposed(QuoteFrom(s, start) + rest) ==> c !in SPECIAL || c in Exposed(rest)
    ensures s != [] && start ==> QuoteFrom(s, start)[0] != '#'
  {
    if s == [] {
      assert QuoteFrom(s, start) + rest == rest;
    } else {
      NothingExposed(s[1..], false, rest);
      var q, t := QuoteChar(s[0], start), QuoteFrom(s[1..], false) + rest;
      Associate(q, QuoteFrom(s[1..], false), rest);
      assert (q + t)[|q|..] == t && (q + t)[0] == q[0];
      SpecialIs(s[0]);
    }
  }

  /** Nothing in the string needs quoting. */
  predicate Safe(s: string) { forall c :: c in s ==> c !in SPECIAL && c != '#' }

  lemma {:induction false} QuoteSafe(s: string, start: bool)
    requires Safe(s)
    ensures QuoteFrom(s, start) == s
  {
    if s != [] {
      QuoteSafe(s[1..], false);
      assert s[0] in s && s == [s[0]] + s[1..];
      SpecialIs(s[0]);
    }
  }
}
