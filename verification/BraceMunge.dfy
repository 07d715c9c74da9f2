/** Brace completion: factoring a sorted list of names into one word with nested braces.
    Expanding that word gives the names back. */
module BraceMunge {
  import opened Quoting
  import opened Braces
  import opened BraceWords

  // ----- common prefixes -----

  function Gcd(a: string, b: string): (n: nat)
    ensures n <= |a| && n <= |b|
  {
    if a == [] || b == [] || a[0] != b[0] then 0 else 1 + Gcd(a[1..], b[1..])
  }

  method StringGcd(s1: string, s2: string) returns (i: nat)
    ensures i == Gcd(s1, s2)
  {
    i := 0;
    while i < |s1| && i < |s2|
      invariant i <= |s1| && i <= |s2| && i + Gcd(s1[i..], s2[i..]) == Gcd(s1, s2)
    {
      if s1[i] != s2[i] {
        break;
      }
      assert s1[i..][1..] == s1[i + 1..] && s2[i..][1..] == s2[i + 1..];
      i := i + 1;
    }
  }

  /** It is a common prefix, and any longer one fails. */
  lemma {:induction false} GcdIsGreatest(a: string, b: string, n: nat)
    requires n <= |a| && n <= |b|
    ensures a[..n] == b[..n] <==> n <= Gcd(a, b)
  {
    if n > 0 {
      assert a[..n] == [a[0]] + a[1..][..n - 1] && b[..n] == [b[0]] + b[1..][..n - 1];
      GcdIsGreatest(a[1..], b[1..], n - 1);
      if a[0] != b[0] {
        assert a[..n][0] != b[..n][0];
      } else {
        assert a[1..][..n - 1] == a[..n][1..] && b[1..][..n - 1] == b[..n][1..];
      }
    }
  }

  /** strcmp order. */
  predicate Leq(a: string, b: string) {
    a == [] || (b != [] && (a[0] < b[0] || (a[0] == b[0] && Leq(a[1..], b[1..]))))
  }

  /** Names further along share no more with the first than nearer ones do. */
  lemma {:induction false} GcdFalls(a: string, b: string, c: string)
    requires Leq(a, b) && Leq(b, c)
    ensures Gcd(a, c) <= Gcd(a, b)
  {
    if a != [] && c != [] && a[0] == c[0] {
      GcdFalls(a[1..], b[1..], c[1..]);
    }
  }

  ghost predicate Sorted(names: seq<string>, s: nat, e: nat)
    requires e <= |names|
  {
    forall i, j :: s <= i <= j < e ==> Leq(names[i], names[j])
  }

  /** All names of the range start with the same z characters. */
  ghost predicate Shared(names: seq<string>, s: nat, e: nat, z: nat)
    requires s <= e <= |names|
  {
    forall i :: s <= i < e ==> z <= |names[i]| && z <= |names[s]| && names[i][..z] == names[s][..z]
  }

  // ----- the word for a range of names -----

  /** The end of the group that starts at s: the first name from j on that shares no more
      than z characters with it. */
  function Reach(names: seq<string>, s: nat, e: nat, z: nat, j: nat): (m: nat)
    requires s < j <= e <= |names|
    ensures j <= m <= e
    ensures m < e ==> Gcd(names[s], names[m]) <= z
    ensures forall i :: j <= i < m ==> Gcd(names[s], names[i]) > z
    decreases e - j
  {
    if j == e || Gcd(names[s], names[j]) <= z then j else Reach(names, s, e, z, j + 1)
  }

  /** The prefix a group is factored by. */
  function GroupGcd(names: seq<string>, s: nat, m: nat): (g: nat)
    requires s < m <= |names|
    ensures g <= |names[s]|
  {
    if m == s + 1 then |names[s]| else Gcd(names[s], names[m - 1])
  }

  lemma GroupShares(names: seq<string>, s: nat, m: nat)
    requires s < m <= |names| && Sorted(names, s, m)
    ensures Shared(names, s, m, GroupGcd(names, s, m))
  {
    var g := GroupGcd(names, s, m);
    forall i | s <= i < m ensures g <= |names[i]| && names[i][..g] == names[s][..g] {
      if i != s {
        GcdFalls(names[s], names[i], names[m - 1]);
        GcdIsGreatest(names[s], names[i], g);
      }
    }
  }

  /** A piece of a name, quoted, in front of w. */
  function Literal(p: string, start: bool, w: Word): Word {
    if p == [] then w
    else if QuoteChar(p[0], start) == [p[0]] then Lit(p[0], Literal(p[1..], false, w))
    else Esc(p[0], Literal(p[1..], false, w))
  }

  function BranchesOf(ws: seq<Word>): Branches
    requires ws != []
  {
    if |ws| == 1 then Last(ws[0]) else More(ws[0], BranchesOf(ws[1..]))
  }

  function AltOf(ws: seq<Word>): Word
    requires |ws| >= 2
  {
    Alt(ws[0], BranchesOf(ws[1..]), Done)
  }

  /** One word for each group of names[s..e], the first z characters left off. */
  ghost function Groups(names: seq<string>, s: nat, e: nat, z: nat): (ws: seq<Word>)
    requires s <= e <= |names| && Sorted(names, s, e) && Shared(names, s, e, z)
    ensures s < e ==> ws != []
    ensures s < e && Gcd(names[s], names[e - 1]) <= z && s + 1 < e ==> |ws| >= 2
    decreases e - s, if s < e then |names[s]| - z else 0, 1
  {
    if s == e then []
    else
      var m := Reach(names, s, e, z, s + 1);
      [Group(names, s, m, z)] + Groups(names, m, e, z)
  }

  ghost function Group(names: seq<string>, s: nat, m: nat, z: nat): Word
    requires s < m <= |names| && Sorted(names, s, m) && Shared(names, s, m, z)
    requires forall i :: s < i < m ==> Gcd(names[s], names[i]) > z
    decreases m - s, |names[s]| - z, 0
  {
    if m == s + 1 then Literal(names[s][z..], true, Done)
    else
      var g := GroupGcd(names, s, m);
      GroupShares(names, s, m);
      Literal(names[s][z..g], true, AltOf(Groups(names, s, m, g)))
  }

  /** The whole word: a lone group as it is, several between braces. */
  function Whole(ws: seq<Word>): Word
    requires ws != []
  {
    if |ws| == 1 then ws[0] else AltOf(ws)
  }

  // ----- the word stands for the names -----

  function DenoteAll(o: Outside, ws: seq<Word>): seq<string> {
    if ws == [] then [] else Denote(o, ws[0]) + DenoteAll(o, ws[1..])
  }

  lemma {:induction false} DenoteBranches(o: Outside, ws: seq<Word>)
    requires ws != []
    ensures DenoteMore(o, BranchesOf(ws)) == DenoteAll(o, ws)
  {
    if |ws| > 1 {
      DenoteBranches(o, ws[1..]);
    }
  }

  lemma DenoteAlt(o: Outside, ws: seq<Word>)
    requires |ws| >= 2
    ensures Denote(o, AltOf(ws)) == DenoteAll(o, ws)
  {
    DenoteBranches(o, ws[1..]);
    ProductUnits(DenoteAll(o, ws));
  }

  lemma {:induction false} DenoteLiteral(o: Outside, p: string, start: bool, w: Word)
    ensures Denote(o, Literal(p, start, w)) == Prepend(QuoteFrom(p, start), Denote(o, w))
  {
    var d := Denote(o, w);
    if p == [] {
      assert forall i :: 0 <= i < |d| ==> "" + d[i] == d[i];
      assert d == Prepend("", d);
    } else {
      DenoteLiteral(o, p[1..], false, w);
      PrependTwice(QuoteChar(p[0], start), QuoteFrom(p[1..], false), d);
    }
  }

  lemma {:induction false} PrintLiteral(p: string, start: bool, w: Word)
    ensures Print(Literal(p, start, w)) == QuoteFrom(p, start) + Print(w)
    ensures forall o :: PlainWord(o, w) && '\0' !in p ==> PlainWord(o, Literal(p, start, w))
  {
    if p != [] {
      PrintLiteral(p[1..], false, w);
      assert p[0] in p;
      Associate(QuoteChar(p[0], start), QuoteFrom(p[1..], false), Print(w));
    }
  }

  /** The strings a, when their quotes are removed, are the strings b; those that needed no
      quotes are the same at once. */
  ghost predicate Stand(a: seq<string>, b: seq<string>, safe: bool) {
    |a| == |b| && forall i :: 0 <= i < |a| ==> Unquote(a[i]) == b[i] && (safe ==> a[i] == b[i])
  }

  lemma StandPrefixed(p: string, a: seq<string>, b: seq<string>, safe: bool)
    requires Stand(a, b, safe) && (safe ==> Safe(p))
    ensures Stand(Prepend(Quote(p), a), Prepend(p, b), safe)
  {
    forall i | 0 <= i < |a| ensures Unquote(Quote(p) + a[i]) == p + b[i] && (safe ==> Quote(p) + a[i] == p + b[i]) {
      UnquoteFrom(p, true, a[i]);
      if safe {
        QuoteSafe(p, true);
      }
    }
  }

  lemma StandJoined(a: seq<string>, b: seq<string>, a': seq<string>, b': seq<string>, safe: bool)
    requires Stand(a, b, safe) && Stand(a', b', safe)
    ensures Stand(a + a', b + b', safe)
  {
  }

  /** No name of the range has a character that needs quoting. */
  ghost predicate SafeNames(names: seq<string>, s: nat, e: nat)
    requires e <= |names|
  {
    forall i :: s <= i < e ==> Safe(names[i])
  }

  /** names[s..e], each without its first z characters. */
  function Suffixes(names: seq<string>, s: nat, e: nat, z: nat): (r: seq<string>)
    requires s <= e <= |names| && forall i :: s <= i < e ==> z <= |names[i]|
    ensures |r| == e - s && forall i :: 0 <= i < e - s ==> r[i] == names[s + i][z..]
  {
    seq(e - s, i requires 0 <= i < e - s => names[s + i][z..])
  }

  lemma {:induction false} GroupsDenote(o: Outside, names: seq<string>, s: nat, e: nat, z: nat, safe: bool)
    requires s <= e <= |names| && Sorted(names, s, e) && Shared(names, s, e, z) && (safe ==> SafeNames(names, s, e))
    ensures Stand(DenoteAll(o, Groups(names, s, e, z)), Suffixes(names, s, e, z), safe)
    decreases e - s, if s < e then |names[s]| - z else 0, 1
  {
    if s < e {
      var m := Reach(names, s, e, z, s + 1);
      GroupDenotes(o, names, s, m, z, safe);
      GroupsDenote(o, names, m, e, z, safe);
      SuffixesSplit(names, s, m, e, z);
      DenoteGroups(o, names, s, e, z, m);
      StandJoined(Denote(o, Group(names, s, m, z)), Suffixes(names, s, m, z),
              DenoteAll(o, Groups(names, m, e, z)), Suffixes(names, m, e, z), safe);
    }
  }

  lemma DenoteGroups(o: Outside, names: seq<string>, s: nat, e: nat, z: nat, m: nat)
    requires s < e <= |names| && Sorted(names, s, e) && Shared(names, s, e, z) && m == Reach(names, s, e, z, s + 1)
    ensures Shared(names, m, e, z) && Shared(names, s, m, z)
    ensures DenoteAll(o, Groups(names, s, e, z)) ==
            Denote(o, Group(names, s, m, z)) + DenoteAll(o, Groups(names, m, e, z))
  {
    var w, ws := Group(names, s, m, z), Groups(names, m, e, z);
    assert Groups(names, s, e, z) == [w] + ws;
    assert ([w] + ws)[1..] == ws;
  }

  lemma SuffixesSplit(names: seq<string>, s: nat, m: nat, e: nat, z: nat)
    requires s <= m <= e <= |names| && forall i :: s <= i < e ==> z <= |names[i]|
    ensures Suffixes(names, s, e, z) == Suffixes(names, s, m, z) + Suffixes(names, m, e, z)
  {
  }

  lemma {:induction false} GroupDenotes(o: Outside, names: seq<string>, s: nat, m: nat, z: nat, safe: bool)
    requires s < m <= |names| && Sorted(names, s, m) && Shared(names, s, m, z) && (safe ==> SafeNames(names, s, m))
    requires forall i :: s < i < m ==> Gcd(names[s], names[i]) > z
    ensures Stand(Denote(o, Group(names, s, m, z)), Suffixes(names, s, m, z), safe)
    decreases m - s, |names[s]| - z, 0
  {
    if m == s + 1 {
      var p := names[s][z..];
      DenoteLiteral(o, p, true, Done);
      StandPrefixed(p, [""], [""], safe);
      assert p + "" == p;
      assert Prepend(p, [""]) == Suffixes(names, s, m, z);
    } else {
      var g := GroupGcd(names, s, m);
      GroupShares(names, s, m);
      GroupsDenote(o, names, s, m, g, safe);
      var inner := Groups(names, s, m, g);
      DenoteAlt(o, inner);
      DenoteLiteral(o, names[s][z..g], true, AltOf(inner));
      StandPrefixed(names[s][z..g], DenoteAll(o, inner), Suffixes(names, s, m, g), safe);
      Rejoin(names, s, m, z, g);
    }
  }

  lemma Rejoin(names: seq<string>, s: nat, m: nat, z: nat, g: nat)
    requires s < m <= |names| && z <= g && Shared(names, s, m, g)
    ensures Prepend(names[s][z..g], Suffixes(names, s, m, g)) == Suffixes(names, s, m, z)
  {
    forall i | s <= i < m ensures names[s][z..g] + names[i][g..] == names[i][z..] {
      assert names[s][z..g] == names[s][..g][z..] == names[i][..g][z..] == names[i][z..g];
    }
    var r, t := Suffixes(names, s, m, g), Suffixes(names, s, m, z);
    assert forall k :: 0 <= k < m - s ==> names[s][z..g] + r[k] == t[k];
  }

  // ----- the word is made of the characters of the names -----

  /** Names as C strings over the ASCII characters. */
  ghost predicate AsciiNames(names: seq<string>, s: nat, e: nat)
    requires e <= |names|
  {
    forall i, c :: s <= i < e && c in names[i] ==> '\0' < c < 128 as char
  }

  lemma {:induction false} PlainBranchesOf(o: Outside, ws: seq<Word>)
    requires ws != [] && forall w :: w in ws ==> PlainWord(o, w)
    ensures PlainBranches(o, BranchesOf(ws))
  {
    if |ws| > 1 {
      PlainBranchesOf(o, ws[1..]);
    }
  }

  lemma PlainAlt(o: Outside, ws: seq<Word>)
    requires |ws| >= 2 && forall w :: w in ws ==> PlainWord(o, w)
    ensures PlainWord(o, AltOf(ws))
  {
    PlainBranchesOf(o, ws[1..]);
    assert ws[0] in ws && PlainWord(o, Done);
  }

  lemma {:induction false} GroupsPlain(o: Outside, names: seq<string>, s: nat, e: nat, z: nat)
    requires s <= e <= |names| && Sorted(names, s, e) && Shared(names, s, e, z) && AsciiNames(names, s, e)
    ensures forall w :: w in Groups(names, s, e, z) ==> PlainWord(o, w)
    decreases e - s, if s < e then |names[s]| - z else 0, 1
  {
    if s < e {
      var m := Reach(names, s, e, z, s + 1);
      GroupPlain(o, names, s, m, z);
      GroupsPlain(o, names, m, e, z);
    }
  }

  lemma {:induction false} GroupPlain(o: Outside, names: seq<string>, s: nat, m: nat, z: nat)
    requires s < m <= |names| && Sorted(names, s, m) && Shared(names, s, m, z) && AsciiNames(names, s, m)
    requires forall i :: s < i < m ==> Gcd(names[s], names[i]) > z
    ensures PlainWord(o, Group(names, s, m, z))
    decreases m - s, |names[s]| - z, 0
  {
    assert '\0' !in names[s];
    if m == s + 1 {
      PrintLiteral(names[s][z..], true, Done);
    } else {
      var g := GroupGcd(names, s, m);
      GroupShares(names, s, m);
      GroupsPlain(o, names, s, m, g);
      var inner := Groups(names, s, m, g);
      PlainAlt(o, inner);
      assert '\0' !in names[s][z..g];
      PrintLiteral(names[s][z..g], true, AltOf(inner));
    }
  }

  // ----- building the text -----

  /** The groups' texts, each with a comma after it. */
  function Commas(ws: seq<Word>): string {
    if ws == [] then "" else Print(ws[0]) + "," + Commas(ws[1..])
  }

  lemma {:induction false} CommasAppend(ws: seq<Word>, w: Word)
    ensures Commas(ws + [w]) == Commas(ws) + Print(w) + ","
  {
    if ws == [] {
      assert [w][1..] == [];
    } else {
      CommasAppend(ws[1..], w);
      assert (ws + [w])[1..] == ws[1..] + [w] && (ws + [w])[0] == ws[0];
      Associate(Print(ws[0]) + ",", Commas(ws[1..]), Print(w) + ",");
      Associate(Commas(ws[1..]), Print(w), ",");
      Associate(Commas(ws), Print(w), ",");
    }
  }

  lemma {:induction false} CommasEnd(ws: seq<Word>)
    requires ws != []
    ensures var t := Commas(ws); t != [] && "," + t[..|t| - 1] == PrintMore(BranchesOf(ws))
  {
    var t := Commas(ws);
    if |ws| == 1 {
      assert t == Print(ws[0]) + ",";
    } else {
      CommasEnd(ws[1..]);
      var u := Commas(ws[1..]);
      assert t[..|t| - 1] == Print(ws[0]) + ("," + u[..|u| - 1]);
    }
  }

  /** Overwriting the last comma by a close brace completes an alternation. */
  lemma CloseCommas(ws: seq<Word>)
    requires |ws| >= 2
    ensures var t := Commas(ws); t != [] && "{" + t[..|t| - 1] + "}" == Print(AltOf(ws))
  {
    CommasEnd(ws[1..]);
    var u := Commas(ws[1..]);
    var more := PrintMore(BranchesOf(ws[1..]));
    assert Commas(ws) == Print(ws[0]) + "," + u;
    assert Commas(ws)[..|Commas(ws)| - 1] == Print(ws[0]) + more;
    assert Print(AltOf(ws)) == "{" + (Print(ws[0]) + (more + "}"));
    Associate(Print(ws[0]), more, "}");
    Associate("{", Print(ws[0]) + more, "}");
  }

  /** With a prefix in front, as the text of a group. */
  lemma CloseText(p: string, ws: seq<Word>)
    requires |ws| >= 2
    ensures var t := Commas(ws); t != [] && Quote(p) + "{" + (t[..|t| - 1] + "}") == Print(Literal(p, true, AltOf(ws)))
  {
    CloseCommas(ws);
    PrintLiteral(p, true, AltOf(ws));
    var u := Commas(ws)[..|Commas(ws)| - 1];
    Associate(Quote(p), "{", u + "}");
    Associate("{", u, "}");
  }

  lemma LoneCommas(w: Word)
    ensures var t := Commas([w]); t != [] && t[..|t| - 1] == Print(w)
  {
    assert [w][1..] == [];
    assert Commas([w]) == Print(w) + ",";
  }

  /** The text built so far: a comma after each group, a brace in front if there are to be
      several at the top. */
  predicate SoFar(result: string, flag: bool, ws: seq<Word>) {
    result == (if flag then "{" else "") + Commas(ws)
  }

  lemma NextGroup(result: string, flag: bool, ws: seq<Word>, w: Word)
    requires SoFar(result, flag, ws)
    ensures SoFar(result + Print(w) + ",", flag, ws + [w])
  {
    CommasAppend(ws, w);
    var open := if flag then "{" else "";
    Associate(open, Commas(ws), Print(w));
    Associate(open, Commas(ws) + Print(w), ",");
  }

  lemma LastGroup(result: string, flag: bool, ws: seq<Word>)
    requires SoFar(result, flag, ws) && ws != [] && (flag <==> |ws| > 1)
    ensures result != [] && result[..|result| - 1] + (if flag then "}" else "") == Print(Whole(ws))
  {
    var t := Commas(ws);
    if flag {
      CloseCommas(ws);
      assert result[..|result| - 1] == "{" + t[..|t| - 1];
    } else {
      assert ws == [ws[0]];
      LoneCommas(ws[0]);
      assert result == t;
      assert Print(ws[0]) + "" == Print(ws[0]);
    }
  }

  lemma GroupsStep(names: seq<string>, s: nat, e: nat, z: nat, ws: seq<Word>) returns (m: nat, w: Word)
    requires s < e <= |names| && Sorted(names, s, e) && Shared(names, s, e, z)
    ensures m == Reach(names, s, e, z, s + 1) && Shared(names, m, e, z) && Shared(names, s, m, z)
    ensures w == Group(names, s, m, z)
    ensures ws + Groups(names, s, e, z) == (ws + [w]) + Groups(names, m, e, z)
    ensures |Groups(names, s, e, z)| > 1 <==> m < e
  {
    m := Reach(names, s, e, z, s + 1);
    w := Group(names, s, m, z);
  }

  /** The text really_munge_braces builds: every group followed by a comma; at the top the
      last comma is dropped, or closes the braces around several groups. */
  method ReallyMungeBraces(names: seq<string>, realStart: nat, realEnd: nat, gcdZero: nat) returns (result: string)
    requires realStart <= realEnd <= |names| && names != []
    requires Sorted(names, realStart, realEnd) && Shared(names, realStart, realEnd, gcdZero)
    requires realStart == realEnd < |names| ==> gcdZero <= |names[realStart]|
    ensures realStart == realEnd ==>
              result == Quote(if realStart < |names| then names[realStart][gcdZero..] else names[0])
    ensures realStart < realEnd ==>
            var ws := Groups(names, realStart, realEnd, gcdZero);
            result == if gcdZero > 0 then Commas(ws) else Print(Whole(ws))
    decreases realEnd - realStart, if realStart < realEnd then |names[realStart]| - gcdZero else 0, 3
  {
    if realStart == realEnd {
      result := BackslashQuote(if realStart < |names| then names[realStart][gcdZero..] else names[0]);
      return;
    }
    var flag;
    result, flag := MungeGroups(names, realStart, realEnd, gcdZero);
    if gcdZero == 0 {
      LastGroup(result, flag, Groups(names, realStart, realEnd, gcdZero));
      result := result[..|result| - 1] + if flag then "}" else "";
    }
  }

  /** Where the outer loop is: ws are the words of names[realStart..start], written to result. */
  ghost predicate Progress(names: seq<string>, realStart: nat, start: nat, realEnd: nat, z: nat, result: string,
          flag: bool, ws: seq<Word>)
    requires realStart < realEnd <= |names| && Sorted(names, realStart, realEnd) && Shared(names, realStart, realEnd, z)
  {
    && realStart <= start <= realEnd && Shared(names, start, realEnd, z)
    && ws + Groups(names, start, realEnd, z) == Groups(names, realStart, realEnd, z)
    && SoFar(result, flag, ws)
    && (start == realStart ==> result == "" && ws == [])
    && flag == (start > realStart && z == 0 && |Groups(names, realStart, realEnd, z)| > 1)
  }

  /** The text of the group that starts at start, joined on. */
  lemma Advance(names: seq<string>, realStart: nat, start: nat, realEnd: nat, z: nat, result: string, flag: bool,
          ws: seq<Word>)
    returns (m: nat, w: Word, result': string, first: bool)
    requires realStart < realEnd <= |names| && Sorted(names, realStart, realEnd) && Shared(names, realStart, realEnd, z)
    requires Progress(names, realStart, start, realEnd, z, result, flag, ws) && start < realEnd
    ensures m == Reach(names, start, realEnd, z, start + 1) && Shared(names, start, m, z)
    ensures w == Group(names, start, m, z) && first == (z == 0 && start == realStart && m < realEnd)
    ensures result' == (if first then "{" else result) + Print(w) + ","
    ensures Progress(names, realStart, m, realEnd, z, result', flag || first, ws + [w])
  {
    m, w := GroupsStep(names, start, realEnd, z, ws);
    first := z == 0 && start == realStart && m < realEnd;
    NextGroup(if first then "{" else result, flag || first, ws, w);
    result' := (if first then "{" else result) + Print(w) + ",";
  }

  /** The outer loop; flag says whether a leading brace has been put in. */
  method MungeGroups(names: seq<string>, realStart: nat, realEnd: nat, gcdZero: nat)
    returns (result: string, flag: bool)
    requires realStart < realEnd <= |names|
    requires Sorted(names, realStart, realEnd) && Shared(names, realStart, realEnd, gcdZero)
    ensures flag == (gcdZero == 0 && |Groups(names, realStart, realEnd, gcdZero)| > 1)
    ensures SoFar(result, flag, Groups(names, realStart, realEnd, gcdZero))
    decreases realEnd - realStart, |names[realStart]| - gcdZero, 2
  {
    result, flag := "", false;
    var start := realStart;
    ghost var ws: seq<Word> := [];
    while start < realEnd
      invariant Progress(names, realStart, start, realEnd, gcdZero, result, flag, ws)
    {
      result, flag, start, ws := AddGroup(names, realStart, start, realEnd, gcdZero, result, flag, ws);
    }
    assert ws == Groups(names, realStart, realEnd, gcdZero);
  }

  /** One round of the outer loop. */
  method AddGroup(names: seq<string>, realStart: nat, start: nat, realEnd: nat, gcdZero: nat, before: string,
          flag: bool, ghost ws: seq<Word>)
    returns (result: string, flag': bool, next: nat, ghost ws': seq<Word>)
    requires realStart < realEnd <= |names|
    requires Sorted(names, realStart, realEnd) && Shared(names, realStart, realEnd, gcdZero)
    requires Progress(names, realStart, start, realEnd, gcdZero, before, flag, ws) && start < realEnd
    ensures Progress(names, realStart, next, realEnd, gcdZero, result, flag', ws') && start < next
    decreases realEnd - realStart, |names[realStart]| - gcdZero, 1
  {
    var end, gcd := FindGroup(names, start, realEnd, gcdZero);
    ghost var m, w, text, isFirst := Advance(names, realStart, start, realEnd, gcdZero, before, flag, ws);
    next, ws' := end + 1, ws + [w];
    var first := gcdZero == 0 && start == realStart && end != realEnd - 1;
    flag' := flag || first;
    var subterm := MungeGroup(names, start, next, gcdZero, gcd);
    result := (if first then "{" else before) + subterm + ",";
    assert first == isFirst && result == text;
  }

  /** The inner loop: the last name of the group that starts at start, and the prefix. */
  method FindGroup(names: seq<string>, start: nat, realEnd: nat, gcdZero: nat) returns (end: nat, gcd: nat)
    requires start < realEnd <= |names|
    ensures end + 1 == Reach(names, start, realEnd, gcdZero, start + 1)
    ensures gcd == GroupGcd(names, start, end + 1)
  {
    gcd := |names[start]|;
    end := start + 1;
    while end < realEnd
      invariant start < end <= realEnd
      invariant Reach(names, start, realEnd, gcdZero, end) == Reach(names, start, realEnd, gcdZero, start + 1)
      invariant gcd == GroupGcd(names, start, end)
    {
      var temp := StringGcd(names[start], names[end]);
      if temp <= gcdZero {
        break;
      }
      gcd := temp;
      end := end + 1;
    }
    end := end - 1;
  }

  /** The text of one group: the rest of its only name, or its prefix and what follows it. */
  method MungeGroup(names: seq<string>, start: nat, m: nat, gcdZero: nat, gcd: nat) returns (text: string)
    requires start < m <= |names| && Sorted(names, start, m) && Shared(names, start, m, gcdZero)
    requires forall i :: start < i < m ==> Gcd(names[start], names[i]) > gcdZero
    requires gcd == GroupGcd(names, start, m)
    ensures text == Print(Group(names, start, m, gcdZero))
    decreases m - start, |names[start]| - gcdZero, 0
  {
    if m == start + 1 {
      text := BackslashQuote(names[start][gcdZero..]);
      PrintLiteral(names[start][gcdZero..], true, Done);
      assert text + "" == text;
    } else {
      GroupShares(names, start, m);
      var prefix := BackslashQuote(names[start][gcdZero..gcd]);
      var subterm := ReallyMungeBraces(names, start, m, gcd);
      CloseText(names[start][gcdZero..gcd], Groups(names, start, m, gcd));
      text := prefix + "{" + (subterm[..|subterm| - 1] + "}");
    }
  }

  /** The result of really_munge_braces on a whole sorted list expands, quotes removed, to
      the list; without the removal too if no name needs quoting. */
  lemma WholeRoundTrip(o: Outside, names: seq<string>, s: nat, e: nat)
    requires s < e <= |names| && Sorted(names, s, e) && AsciiNames(names, s, e)
    ensures Shared(names, s, e, 0)
    ensures Stand(BraceExpand(o, Print(Whole(Groups(names, s, e, 0)))), names[s..e], SafeNames(names, s, e))
  {
    var ws := Groups(names, s, e, 0);
    GroupsPlain(o, names, s, e, 0);
    if |ws| == 1 {
      assert ws == [ws[0]] && DenoteAll(o, ws) == Denote(o, ws[0]) + DenoteAll(o, []);
    } else {
      DenoteAlt(o, ws);
      PlainAlt(o, ws);
    }
    GroupsDenote(o, names, s, e, 0, SafeNames(names, s, e));
    assert Suffixes(names, s, e, 0) == names[s..e];
    ExpandsToProduct(o, Whole(ws));
  }

  lemma LoneRoundTrip(o: Outside, name: string)
    requires '\0' !in name
    ensures Stand(BraceExpand(o, Quote(name)), [name], Safe(name))
  {
    DenoteLiteral(o, name, true, Done);
    PrintLiteral(name, true, Done);
    assert Quote(name) + "" == Quote(name);
    ExpandsToProduct(o, Literal(name, true, Done));
    UnquoteFrom(name, true, "");
    assert name + "" == name;
    if Safe(name) {
      QuoteSafe(name, true);
    }
  }

  /** The matches: names[0] is what was typed, unless it is alone. */
  function Matches(names: seq<string>): seq<string> { if |names| > 1 then names[1..] else names }

  /** hack_braces_completion on sorted matches.  The word put in their place expands, quotes
      removed, to exactly those matches, in order. */
  method HackBracesCompletion(names: seq<string>) returns (word: string)
    requires names != [] && Sorted(names, 1, |names|) && AsciiNames(names, 0, |names|)
    ensures forall o: Outside :: Stand(BraceExpand(o, word), Matches(names), SafeNames(names, 0, |names|))
  {
    word := ReallyMungeBraces(names, 1, |names|, 0);
    forall o: Outside ensures Stand(BraceExpand(o, word), Matches(names), SafeNames(names, 0, |names|)) {
      if |names| > 1 {
        WholeRoundTrip(o, names, 1, |names|);
      } else {
        LoneRoundTrip(o, names[0]);
      }
    }
  }

  /** Completion, expansion and quote removal, as they run. */
  method CompleteAndExpand(o: Outside, names: seq<string>) returns (expanded: seq<string>)
    requires names != [] && Sorted(names, 1, |names|) && AsciiNames(names, 0, |names|)
    ensures expanded == Matches(names)
  {
    var word := HackBracesCompletion(names);
    var quoted := Expand(o, word);
    expanded := seq(|quoted|, i requires 0 <= i < |quoted| => Unquote(quoted[i]));
  }
}
