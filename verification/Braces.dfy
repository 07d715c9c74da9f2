/** Brace expansion of a word: finding the braces, splitting what is between them, and
    combining the parts. */
module Braces {
  import opened Folding
  import opened Options

  /** What other parts of the shell do: expand_seqterm turns the term of an x..y sequence into
      strings, or does not; extract_command_subst finds where the substitution whose text
      starts at an index ends. */
  datatype Outside = Outside(sequence: string -> Option<seq<string>>, close: (string, nat) -> nat)

  // ----- brace_gobbler -----

  /** How far into quotes and nested braces the scan is.  `quoted` is '\0' outside quotes. */
  datatype Scan = Scan(level: nat, quoted: char, passNext: bool, commas: nat)

  function StartScan(satisfy: char): Scan {
    Scan(0, '\0', false, if satisfy == '}' then 0 else 1)
  }

  predicate Whitespace(text: string, i: int) {
    i < 0 || i >= |text| || text[i] == ' ' || text[i] == '\t' || text[i] == '\n' || text[i] == '\0'
  }

  /** An open brace that stands alone, or right before a close brace, is not one. */
  predicate Ignored(text: string, i: nat)
    requires i < |text|
  {
    text[i] == '{' && Whitespace(text, i - 1) && (Whitespace(text, i + 1) || text[i + 1] == '}')
  }

  predicate Dots(text: string, i: nat) { i + 1 < |text| && text[i] == '.' && text[i + 1] == '.' }

  /** A command or process substitution starts at i, and the scan is to pass over it. */
  predicate Substitutes(text: string, i: nat, st: Scan) {
    && i + 1 < |text| && text[i + 1] == '(' && !st.passNext
    && if text[i] == '$' then st.quoted == '\0' || st.quoted == '"'
       else (text[i] == '<' || text[i] == '>') && st.quoted == '\0'
  }

  /** Where the scan goes on after it. */
  function AfterSubst(o: Outside, text: string, i: nat): (j: nat)
    requires i + 1 < |text|
    ensures i < j <= |text|
  {
    var j := o.close(text, i + 2) + 1;
    if j < i + 2 then i + 2 else if j > |text| then |text| else j
  }

  /** One character of the scan: None to stop at it. */
  function Step(text: string, i: nat, satisfy: char, st: Scan): Option<Scan>
    requires i < |text|
  {
    var c := text[i];
    if st.passNext then Some(st.(passNext := false))
    else if c == '\\' && st.quoted != '\'' then Some(st.(passNext := true))
    else if c == '$' && i + 1 < |text| && text[i + 1] == '{' && st.quoted != '\'' then
      Some(st.(passNext := true, level := if st.quoted == '\0' then st.level + 1 else st.level))
    else if st.quoted != '\0' then Some(if c == st.quoted then st.(quoted := '\0') else st)
    else if c == '"' || c == '\'' || c == '`' then Some(st.(quoted := c))
    else if c == satisfy && st.level == 0 && st.commas > 0 then (if Ignored(text, i) then Some(st) else None)
    else Some(Count(text, i, satisfy, st))
  }

  /** Nesting and separators; a comma or `..` only counts outside inner braces. */
  function Count(text: string, i: nat, satisfy: char, st: Scan): Scan
    requires i < |text|
  {
    var c := text[i];
    if c == '{' then st.(level := st.level + 1)
    else if c == '}' && st.level > 0 then st.(level := st.level - 1)
    else if satisfy == '}' && st.level == 0 && c == ',' then st.(commas := st.commas + 1)
    else if satisfy == '}' && st.level == 0 && Dots(text, i) && !(i + 2 < |text| && text[i + 2] == '}') then
      st.(commas := st.commas + 1)
    else st
  }

  /** Where the scan for `satisfy` from i stops; |text| when it does not. */
  function Gobble(o: Outside, text: string, i: nat, satisfy: char, st: Scan): (j: nat)
    requires i <= |text|
    ensures i <= j <= |text|
    ensures j < |text| ==> text[j] == satisfy
    decreases |text| - i
  {
    if i == |text| then i
    else if Substitutes(text, i, st) then Gobble(o, text, AfterSubst(o, text, i), satisfy, st)
    else
      match Step(text, i, satisfy, st)
      case None => i
      case Some(st') => Gobble(o, text, i + 1, satisfy, st')
  }

  /** The scan for `satisfy` from start stops at i.  (The equation is folded up.) */
  ghost predicate Gobbled(o: Outside, text: string, start: nat, satisfy: char, i: nat) {
    && start <= i <= |text|
    && forall z: nat {:trigger Show(z)} :: Show(z) ==> i == Gobble(o, text, start, satisfy, StartScan(satisfy))
  }

  method BraceGobbler(o: Outside, text: string, start: nat, satisfy: char) returns (i: nat)
    requires start <= |text|
    ensures Gobbled(o, text, start, satisfy, i)
  {
    i := start;
    var level: nat, quoted, passNext := 0, '\0', false;
    var commas: nat := if satisfy == '}' then 0 else 1;
    while i < |text|
      invariant start <= i <= |text|
      invariant Gobble(o, text, i, satisfy, Scan(level, quoted, passNext, commas))
             == Gobble(o, text, start, satisfy, StartScan(satisfy))
      decreases |text| - i
    {
      if Substitutes(text, i, Scan(level, quoted, passNext, commas)) {
        i := AfterSubst(o, text, i);
      } else {
        var stop;
        stop, level, quoted, passNext, commas := ScanChar(text, i, satisfy, level, quoted, passNext, commas);
        if stop {
          break;
        }
        i := i + 1;
      }
    }
  }

  /** One turn of the scanning loop. */
  method ScanChar(text: string, i: nat, satisfy: char, level: nat, quoted: char, passNext: bool, commas: nat)
    returns (stop: bool, level': nat, quoted': char, passNext': bool, commas': nat)
    requires i < |text|
    ensures var next := Step(text, i, satisfy, Scan(level, quoted, passNext, commas));
            && (stop <==> next.None?)
            && (!stop ==> next == Some(Scan(level', quoted', passNext', commas')))
  {
    stop, level', quoted', passNext', commas' := false, level, quoted, passNext, commas;
    var c := text[i];
    if passNext {
      passNext' := false;
    } else if c == '\\' && quoted != '\'' {
      passNext' := true;
    } else if c == '$' && i + 1 < |text| && text[i + 1] == '{' && quoted != '\'' {
      passNext' := true;
      if quoted == '\0' {
        level' := level + 1;
      }
    } else if quoted != '\0' {
      if c == quoted {
        quoted' := '\0';
      }
    } else if c == '"' || c == '\'' || c == '`' {
      quoted' := c;
    } else if c == satisfy && level == 0 && commas > 0 {
      stop := !Ignored(text, i);
    } else if c == '{' {
      level' := level + 1;
    } else if c == '}' && level > 0 {
      level' := level - 1;
    } else if satisfy == '}' && level == 0 &&
              (c == ',' || (Dots(text, i) && !(i + 2 < |text| && text[i + 2] == '}'))) {
      commas' := commas + 1;
    }
  }

  // ----- combining -----

  function Prepend(p: string, a: seq<string>): (r: seq<string>)
    ensures |r| == |a|
    ensures forall i :: 0 <= i < |a| ==> r[i] == p + a[i]
  {
    seq(|a|, i requires 0 <= i < |a| => p + a[i])
  }

  /** Every string of a followed by every string of b, in order. */
  function Product(a: seq<string>, b: seq<string>): seq<string> {
    if a == [] then [] else Prepend(a[0], b) + Product(a[1..], b)
  }

  /** The first factor varies slowest. */
  lemma {:induction false} ProductAt(a: seq<string>, b: seq<string>, i: nat, j: nat)
    requires i < |a| && j < |b|
    ensures i * |b| + j < |Product(a, b)| == |a| * |b|
    ensures Product(a, b)[i * |b| + j] == a[i] + b[j]
  {
    ProductSize(a, b);
    if i > 0 {
      ProductAt(a[1..], b, i - 1, j);
      assert i * |b| + j == |b| + ((i - 1) * |b| + j);
    } else {
      ProductSize(a[1..], b);
    }
  }

  lemma {:induction false} ProductSize(a: seq<string>, b: seq<string>)
    ensures |Product(a, b)| == |a| * |b|
  {
    if a != [] {
      ProductSize(a[1..], b);
      assert |a| * |b| == |b| + (|a| - 1) * |b|;
    }
  }

  lemma PrependNothing(a: seq<string>)
    ensures Prepend("", a) == a
  {
    assert forall i :: 0 <= i < |a| ==> "" + a[i] == a[i];
  }

  lemma ProductUnits(a: seq<string>)
    ensures Product([""], a) == a && Product(a, [""]) == a
  {
    PrependNothing(a);
    assert [""][1..] == [] && a + [] == a;
    ProductRightUnit(a);
  }

  lemma {:induction false} ProductRightUnit(a: seq<string>)
    ensures Product(a, [""]) == a
  {
    if a != [] {
      ProductRightUnit(a[1..]);
      assert a[0] + "" == a[0];
      assert Prepend(a[0], [""]) == [a[0]];
    }
  }

  /** array_concat: the product, with the shortcuts for a lone empty string. */
  method ArrayConcat(arr1: seq<string>, arr2: seq<string>) returns (result: seq<string>)
    ensures result == Product(arr1, arr2)
  {
    if arr1 == [""] {
      ProductUnits(arr2);
      return arr2;
    }
    if arr2 == [""] {
      ProductUnits(arr1);
      return arr1;
    }
    result := [];
    for i := 0 to |arr1|
      invariant result + Product(arr1[i..], arr2) == Product(arr1, arr2)
    {
      var row := ConcatRow(arr1[i], arr2);
      assert arr1[i..][1..] == arr1[i + 1..];
      assert result + (row + Product(arr1[i + 1..], arr2)) == (result + row) + Product(arr1[i + 1..], arr2);
      result := result + row;
    }
    assert arr1[|arr1|..] == [];
  }

  /** The inner loop: one string in front of each of arr2. */
  method ConcatRow(p: string, arr2: seq<string>) returns (row: seq<string>)
    ensures row == Prepend(p, arr2)
  {
    row := [];
    for j := 0 to |arr2|
      invariant |row| == j && forall i :: 0 <= i < j ==> row[i] == p + arr2[i]
    {
      row := row + [p + arr2[j]];
    }
  }

  // ----- brace_expand -----

  /** The first brace from i on that opens a valid expansion; |text| if there is none. */
  function FindBrace(o: Outside, text: string, i: nat): (k: nat)
    requires i <= |text|
    ensures i <= k <= |text|
    ensures k < |text| ==> text[k] == '{' && CloseOf(o, text, k) < |text|
    decreases |text| - i
  {
    var k := Gobble(o, text, i, '{', StartScan('{'));
    if k == |text| || CloseOf(o, text, k) < |text| then k
    else FindBrace(o, text, k + 1)
  }

  /** The close brace matching the open brace at k, if what is between may be expanded. */
  function CloseOf(o: Outside, text: string, k: nat): (j: nat)
    requires k < |text|
    ensures k < j <= |text|
  {
    Gobble(o, text, k + 1, '}', StartScan('}'))
  }

  /** A separator anywhere in the amble, not counting backslash-quoted characters. */
  predicate HasSeparator(amble: string) {
    amble != [] &&
    if amble[0] == '\\' then |amble| > 1 && HasSeparator(amble[2..])
    else amble[0] == ',' || HasSeparator(amble[1..])
  }

  predicate HasDots(s: string) { exists i :: 0 <= i < |s| && Dots(s, i) }

  function Sequence(o: Outside, amble: string): Option<seq<string>> {
    if HasDots(amble) then o.sequence(amble) else None
  }

  function BraceExpand(o: Outside, text: string): seq<string>
    decreases |text|, 2
  {
    var k := FindBrace(o, text, 0);
    if k == |text| then [text] else ExpandAt(o, text, k, CloseOf(o, text, k))
  }

  /** The expansion of text whose first expandable braces are at k and j. */
  function ExpandAt(o: Outside, text: string, k: nat, j: nat): seq<string>
    requires k < j < |text|
    decreases |text|, 1
  {
    var amble, postamble := text[k + 1..j], text[j + 1..];
    if !HasSeparator(amble) && Sequence(o, amble).None? && postamble == [] then [text]
    else
      var result := Product([text[..k]], Tack(o, text, k, j));
      if postamble == [] then result else Product(result, BraceExpand(o, postamble))
  }

  /** What stands for the braces themselves: the parts between separators, a sequence, or
      the braces unchanged. */
  function Tack(o: Outside, text: string, k: nat, j: nat): seq<string>
    requires k < j < |text|
    decreases |text|, 0
  {
    var amble := text[k + 1..j];
    if HasSeparator(amble) then ExpandAmble(o, amble, 0)
    else if Sequence(o, amble).Some? then Sequence(o, amble).value
    else [text[k..j + 1]]
  }

  /** expand_amble from position start: each part between separators, expanded. */
  function ExpandAmble(o: Outside, text: string, start: nat): seq<string>
    requires start <= |text|
    decreases |text|, 3, |text| - start
  {
    var i := Gobble(o, text, start, ',', StartScan(','));
    var partial := BraceExpand(o, text[start..i]);
    if i == |text| then partial else partial + ExpandAmble(o, text, i + 1)
  }

  // ----- the same as it runs -----

  ghost predicate Found(o: Outside, text: string, i: nat, j: nat) {
    && i <= |text| && (i < |text| ==> i < j < |text|)
    && forall z: nat {:trigger Show(z)} :: Show(z) ==>
         i == FindBrace(o, text, 0) && (i < |text| ==> j == CloseOf(o, text, i))
  }

  ghost predicate Expanded(o: Outside, text: string, result: seq<string>) {
    forall z: nat {:trigger Show(z)} :: Show(z) ==> result == BraceExpand(o, text)
  }

  ghost predicate Tacked(o: Outside, text: string, i: nat, j: nat, tack: seq<string>) {
    i < j < |text| && forall z: nat {:trigger Show(z)} :: Show(z) ==> tack == Tack(o, text, i, j)
  }

  ghost predicate Ambled(o: Outside, text: string, start: nat, result: seq<string>) {
    start <= |text| && forall z: nat {:trigger Show(z)} :: Show(z) ==> result == ExpandAmble(o, text, start)
  }

  /** The parts before start have come to result. */
  ghost predicate Parted(o: Outside, text: string, start: nat, result: seq<string>) {
    && start <= |text|
    && forall z: nat {:trigger Show(z)} :: Show(z) ==>
         result + ExpandAmble(o, text, start) == ExpandAmble(o, text, 0)
  }

  /** The loop at the head of brace_expand. */
  method FindExpansion(o: Outside, text: string) returns (i: nat, j: nat)
    ensures Found(o, text, i, j)
  {
    i, j := 0, 0;
    while true
      invariant Looking(o, text, i)
      decreases |text| - i
    {
      var k := BraceGobbler(o, text, i, '{');
      if k == |text| {
        LooksInVain(o, text, i);
        i := k;
        return;
      }
      j := BraceGobbler(o, text, k + 1, '}');
      LooksOn(o, text, i, k, j);
      i := k;
      if j < |text| {
        return;
      }
      i := i + 1;
    }
  }

  /** No brace before i opens an expansion. */
  ghost predicate Looking(o: Outside, text: string, i: nat) {
    i <= |text| && forall z: nat {:trigger Show(z)} :: Show(z) ==> FindBrace(o, text, i) == FindBrace(o, text, 0)
  }

  lemma LooksInVain(o: Outside, text: string, i: nat)
    requires Looking(o, text, i) && Gobbled(o, text, i, '{', |text|)
    ensures forall j :: Found(o, text, |text|, j)
  {
    NoneFrom(o, text, i);
    assert Show(0);
  }

  lemma LooksOn(o: Outside, text: string, i: nat, k: nat, j: nat)
    requires Looking(o, text, i) && Gobbled(o, text, i, '{', k) && k < |text| && Gobbled(o, text, k + 1, '}', j)
    ensures if j < |text| then Found(o, text, k, j) else Looking(o, text, k + 1)
  {
    OneFrom(o, text, i, k, j);
    assert Show(0);
  }

  lemma NoneFrom(o: Outside, text: string, i: nat)
    requires Gobbled(o, text, i, '{', |text|)
    ensures FindBrace(o, text, i) == |text|
  {
    assert Show(0);
  }

  lemma OneFrom(o: Outside, text: string, i: nat, k: nat, j: nat)
    requires Gobbled(o, text, i, '{', k) && k < |text| && Gobbled(o, text, k + 1, '}', j)
    ensures FindBrace(o, text, i) == if j < |text| then k else FindBrace(o, text, k + 1)
    ensures CloseOf(o, text, k) == j
  {
    assert Show(0);
  }

  lemma FoundAt(o: Outside, text: string, k: nat, j: nat)
    requires Gobbled(o, text, 0, '{', k) && k < j < |text| && Gobbled(o, text, k + 1, '}', j)
    ensures Found(o, text, k, j)
  {
    OneFrom(o, text, 0, k, j);
  }

  method Expand(o: Outside, text: string) returns (result: seq<string>)
    ensures result == BraceExpand(o, text)
  {
    result := ExpandText(o, text);
    assert Show(0);
  }

  method ExpandText(o: Outside, text: string) returns (result: seq<string>)
    ensures Expanded(o, text, result)
    decreases |text|, 1
  {
    var i, j := FindExpansion(o, text);
    if i == |text| {
      NotExpanded(o, text, j);
      return [text];
    }
    var amble, postamble := text[i + 1..j], text[j + 1..];
    var tack, after: seq<string> := [], [];
    if !HasSeparator(amble) && Sequence(o, amble).None? && postamble == [] {
      result := [text];
    } else {
      tack := FindTack(o, text, i, j);
      result := ArrayConcat([text[..i]], tack);
      if postamble != [] {
        after := ExpandText(o, postamble);
        result := ArrayConcat(result, after);
      }
    }
    ExpandedAt(o, text, i, j, tack, after);
  }

  lemma NotExpanded(o: Outside, text: string, j: nat)
    requires Found(o, text, |text|, j)
    ensures Expanded(o, text, [text])
  {
    assert Show(0);
  }

  lemma ExpandedAt(o: Outside, text: string, i: nat, j: nat, tack: seq<string>, after: seq<string>)
    requires Found(o, text, i, j) && i < |text|
    requires Unexpanded(o, text, i, j) || Tacked(o, text, i, j, tack)
    requires j + 1 < |text| ==> Expanded(o, text[j + 1..], after)
    ensures Expanded(o, text, Assembled(o, text, i, j, tack, after))
  {
    AtIs(o, text, i, j, tack, after);
    FoundExpands(o, text, i, j, Assembled(o, text, i, j, tack, after));
  }

  function Assembled(o: Outside, text: string, i: nat, j: nat, tack: seq<string>, after: seq<string>): seq<string>
    requires i < j < |text|
  {
    if Unexpanded(o, text, i, j) then [text]
    else if j + 1 == |text| then Product([text[..i]], tack)
    else Product(Product([text[..i]], tack), after)
  }

  lemma AtIs(o: Outside, text: string, i: nat, j: nat, tack: seq<string>, after: seq<string>)
    requires i < j < |text| && (Unexpanded(o, text, i, j) || Tacked(o, text, i, j, tack))
    requires j + 1 < |text| ==> Expanded(o, text[j + 1..], after)
    ensures ExpandAt(o, text, i, j) == Assembled(o, text, i, j, tack, after)
  {
    assert Show(0);
  }

  lemma FoundExpands(o: Outside, text: string, i: nat, j: nat, result: seq<string>)
    requires Found(o, text, i, j) && i < |text| && ExpandAt(o, text, i, j) == result
    ensures Expanded(o, text, result)
  {
    assert Show(0);
  }

  /** The braces at i and j hold neither separator nor sequence, and nothing follows. */
  predicate Unexpanded(o: Outside, text: string, i: nat, j: nat)
    requires i < j < |text|
  {
    !HasSeparator(text[i + 1..j]) && Sequence(o, text[i + 1..j]).None? && text[j + 1..] == []
  }

  method FindTack(o: Outside, text: string, i: nat, j: nat) returns (tack: seq<string>)
    requires i < j < |text|
    ensures Tacked(o, text, i, j, tack)
    decreases |text|, 0
  {
    var amble := text[i + 1..j];
    if HasSeparator(amble) {
      tack := ExpandParts(o, amble);
      TackParts(o, text, i, j, tack);
    } else {
      var seqterm := Sequence(o, amble);
      tack := if seqterm.Some? then seqterm.value else [text[i..j + 1]];
    }
  }

  lemma TackParts(o: Outside, text: string, i: nat, j: nat, tack: seq<string>)
    requires i < j < |text| && HasSeparator(text[i + 1..j]) && Ambled(o, text[i + 1..j], 0, tack)
    ensures Tacked(o, text, i, j, tack)
  {
    assert Show(0);
  }

  method ExpandParts(o: Outside, text: string) returns (result: seq<string>)
    ensures Ambled(o, text, 0, result)
    decreases |text|, 3
  {
    result := [];
    var start := 0;
    Regroup([], [], ExpandAmble(o, text, 0));
    while true
      invariant Parted(o, text, start, result)
      decreases |text| - start
    {
      var i;
      i, result := ExpandPart(o, text, start, result);
      if i == |text| {
        return;
      }
      start := i + 1;
    }
  }

  /** One round: the part from start to the next separator. */
  method ExpandPart(o: Outside, text: string, start: nat, before: seq<string>) returns (i: nat, result: seq<string>)
    requires Parted(o, text, start, before)
    ensures start <= i <= |text|
    ensures if i < |text| then Parted(o, text, i + 1, result) else Ambled(o, text, 0, result)
    decreases |text|, 2
  {
    i := BraceGobbler(o, text, start, ',');
    var partial := ExpandText(o, text[start..i]);
    PartedStep(o, text, start, i, partial, before);
    result := before + partial;
  }

  lemma AmbleStep(o: Outside, text: string, start: nat, i: nat)
    requires start <= i <= |text| && Gobble(o, text, start, ',', StartScan(',')) == i
    ensures ExpandAmble(o, text, start) ==
            BraceExpand(o, text[start..i]) + if i == |text| then [] else ExpandAmble(o, text, i + 1)
  {
  }

  lemma AmbledStep(o: Outside, text: string, start: nat, i: nat, partial: seq<string>, rest: seq<string>)
    requires Gobbled(o, text, start, ',', i) && Expanded(o, text[start..i], partial)
    requires if i < |text| then Ambled(o, text, i + 1, rest) else rest == []
    ensures Ambled(o, text, start, partial + rest)
  {
    assert Show(0);
    AmbleStep(o, text, start, i);
  }

  lemma PartedStep(o: Outside, text: string, start: nat, i: nat, partial: seq<string>, result: seq<string>)
    requires Parted(o, text, start, result) && Gobbled(o, text, start, ',', i) && Expanded(o, text[start..i], partial)
    ensures i < |text| ==> Parted(o, text, i + 1, result + partial)
    ensures i == |text| ==> Ambled(o, text, 0, result + partial)
  {
    assert Show(0);
    AmbleStep(o, text, start, i);
    Regroup(result, partial, if i == |text| then [] else ExpandAmble(o, text, i + 1));
  }

  lemma Regroup(a: seq<string>, b: seq<string>, c: seq<string>)
    ensures a + (b + c) == (a + b) + c && (c == [] ==> a + (b + c) == a + b)
  {
  }
}
