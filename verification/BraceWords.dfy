/** Words built from plain characters, characters behind a backslash, quoted stretches,
    sequences and nested alternations, their text, and the strings they stand for.  Expanding
    the text gives exactly those strings, in order. */
module BraceWords {
  import opened Folding
  import opened Options
  import opened Braces
  import Quoting

  datatype Word =
    | Done
    | Lit(c: char, rest: Word)
    | Esc(c: char, rest: Word)
    | Hush(s: string, rest: Word)
    | Range(amble: string, rest: Word)
    | Alt(first: Word, more: Branches, rest: Word)
  datatype Branches = Last(w: Word) | More(w: Word, others: Branches)

  /** Characters that mean nothing to the expander.  `<` and `>` could open a process
      substitution. */
  predicate Plain(c: char) {
    && c != '{' && c != '}' && c != ',' && c != '\\' && c != '$' && c != '"' && c != '\'' && c != '`'
    && c != '<' && c != '>' && c != ' ' && c != '\t' && c != '\n' && c != '\0'
  }

  /** A stretch between quotes of one kind, a parameter in `${}`, or a substitution: nothing in
      it counts. */
  ghost predicate Hushed(o: Outside, s: string) { QuotedText(s) || Parameter(s) || Substitution(o, s) }

  predicate QuotedText(s: string) {
    && |s| >= 2 && (s[0] == '"' || s[0] == '\'' || s[0] == '`') && s[|s| - 1] == s[0]
    && forall k :: 0 < k < |s| - 1 ==> s[k] != s[0] && (s[0] != '\'' ==> s[k] != '\\' && s[k] != '$')
  }

  predicate Parameter(s: string) {
    |s| >= 3 && s[0] == '$' && s[1] == '{' && s[|s| - 1] == '}' && forall k :: 2 <= k < |s| - 1 ==> Plain(s[k])
  }

  /** A command or process substitution that ends at its last character, wherever it stands. */
  ghost predicate Substitution(o: Outside, s: string) {
    && |s| >= 3 && (s[0] == '$' || s[0] == '<' || s[0] == '>') && s[1] == '(' && s[|s| - 1] == ')'
    && forall text, i: nat :: EndsThere(o, text, i, s)
  }

  /** If s stands at i, the substitution there ends with it. */
  predicate EndsThere(o: Outside, text: string, i: nat, s: string) {
    i + |s| <= |text| && text[i..i + |s|] == s ==> o.close(text, i + 2) == i + |s| - 1
  }

  /** What may be between the braces of a sequence: plain characters with `..` among them, not
      at the end. */
  predicate Ranging(amble: string) {
    (forall c :: c in amble ==> Plain(c)) && exists d :: 0 <= d && d + 2 < |amble| && Dots(amble, d)
  }

  ghost predicate PlainWord(o: Outside, w: Word) {
    match w
    case Done => true
    case Lit(c, rest) => Plain(c) && PlainWord(o, rest)
    case Esc(c, rest) => c != '\0' && PlainWord(o, rest)
    case Hush(s, rest) => Hushed(o, s) && PlainWord(o, rest)
    case Range(amble, rest) => Ranging(amble) && PlainWord(o, rest)
    case Alt(first, more, rest) => PlainWord(o, first) && PlainBranches(o, more) && PlainWord(o, rest)
  }

  ghost predicate PlainBranches(o: Outside, bs: Branches) {
    match bs
    case Last(w) => PlainWord(o, w)
    case More(w, others) => PlainWord(o, w) && PlainBranches(o, others)
  }

  function Print(w: Word): string {
    match w
    case Done => ""
    case Lit(c, rest) => [c] + Print(rest)
    case Esc(c, rest) => ['\\', c] + Print(rest)
    case Hush(s, rest) => s + Print(rest)
    case Range(amble, rest) => "{" + (amble + ("}" + Print(rest)))
    case Alt(first, more, rest) => "{" + (Print(first) + (PrintMore(more) + ("}" + Print(rest))))
  }

  function PrintMore(bs: Branches): string {
    match bs
    case Last(w) => "," + Print(w)
    case More(w, others) => "," + (Print(w) + PrintMore(others))
  }

  /** The strings a word stands for: at each alternation, every branch in turn, and for each
      sequence its strings, or the braces themselves if it has none.  Expansion leaves quotes
      and backslashes where they are. */
  function Denote(o: Outside, w: Word): seq<string> {
    match w
    case Done => [""]
    case Lit(c, rest) => Prepend([c], Denote(o, rest))
    case Esc(c, rest) => Prepend(['\\', c], Denote(o, rest))
    case Hush(s, rest) => Prepend(s, Denote(o, rest))
    case Range(amble, rest) => Product(DenoteRange(o, amble), Denote(o, rest))
    case Alt(first, more, rest) => Product(Denote(o, first) + DenoteMore(o, more), Denote(o, rest))
  }

  function DenoteMore(o: Outside, bs: Branches): seq<string> {
    match bs
    case Last(w) => Denote(o, w)
    case More(w, others) => Denote(o, w) + DenoteMore(o, others)
  }

  function DenoteRange(o: Outside, amble: string): seq<string> {
    if o.sequence(amble).Some? then o.sequence(amble).value else ["{" + amble + "}"]
  }

  // ----- scanning over the text of a word -----

  /** The text of w is text[i..j]. */
  ghost predicate Spans(text: string, i: nat, w: Word, j: nat) {
    i <= j <= |text| && forall z: nat {:trigger Show(z)} :: Show(z) ==> text[i..j] == Print(w)
  }

  ghost predicate SpansMore(text: string, i: nat, bs: Branches, j: nat) {
    i <= j <= |text| && forall z: nat {:trigger Show(z)} :: Show(z) ==> text[i..j] == PrintMore(bs)
  }

  lemma Split(text: string, i: nat, j: nat, p: string, q: string)
    requires i <= j <= |text| && text[i..j] == p + q
    ensures i + |p| <= j && text[i..i + |p|] == p && text[i + |p|..j] == q
  {
    var s := text[i..j];
    assert text[i..i + |p|] == s[..|p|] == p;
    assert text[i + |p|..j] == s[|p|..] == q;
  }

  lemma SplitChar(text: string, i: nat, j: nat, c: char, q: string)
    requires i <= j <= |text| && text[i..j] == [c] + q
    ensures i < j && text[i] == c && text[i + 1..j] == q
  {
    Split(text, i, j, [c], q);
    assert text[i] == text[i..i + 1][0];
  }

  lemma SpanDone(o: Outside, text: string, i: nat, w: Word, j: nat)
    requires PlainWord(o, w) && Spans(text, i, w, j)
    ensures w.Done? <==> i == j
  {
    assert Show(0);
  }

  lemma SpanLit(text: string, i: nat, w: Word, j: nat)
    requires w.Lit? && Spans(text, i, w, j)
    ensures i < j && text[i] == w.c && Spans(text, i + 1, w.rest, j)
  {
    assert Show(0);
    SplitChar(text, i, j, w.c, Print(w.rest));
  }

  lemma SpanEsc(text: string, i: nat, w: Word, j: nat)
    requires w.Esc? && Spans(text, i, w, j)
    ensures i + 1 < j && text[i] == '\\' && text[i + 1] == w.c && Spans(text, i + 2, w.rest, j)
  {
    assert Show(0);
    var p := ['\\', w.c];
    Split(text, i, j, p, Print(w.rest));
    assert text[i] == text[i..i + 2][0] == p[0] && text[i + 1] == text[i..i + 2][1] == p[1];
  }

  lemma SpanHush(text: string, i: nat, w: Word, j: nat)
    requires w.Hush? && Spans(text, i, w, j)
    ensures i + |w.s| <= j && text[i..i + |w.s|] == w.s && Spans(text, i + |w.s|, w.rest, j)
  {
    assert Show(0);
    Split(text, i, j, w.s, Print(w.rest));
  }

  /** The pieces of a sequence: where it closes. */
  lemma SpanRange(text: string, i: nat, w: Word, j: nat) returns (r: nat)
    requires w.Range? && Spans(text, i, w, j)
    ensures r == i + 1 + |w.amble| < j && text[i] == '{' && text[r] == '}'
    ensures text[i + 1..r] == w.amble && Spans(text, r + 1, w.rest, j)
  {
    assert Show(0);
    SplitChar(text, i, j, '{', w.amble + ("}" + Print(w.rest)));
    Split(text, i + 1, j, w.amble, "}" + Print(w.rest));
    r := i + 1 + |w.amble|;
    SplitChar(text, r, j, '}', Print(w.rest));
  }

  /** The pieces of an alternation: where its later branches start, and where it closes. */
  lemma SpanAlt(text: string, i: nat, w: Word, j: nat) returns (m: nat, r: nat)
    requires w.Alt? && Spans(text, i, w, j)
    ensures i < m < r < j && text[i] == '{' && text[r] == '}'
    ensures Spans(text, i + 1, w.first, m) && SpansMore(text, m, w.more, r) && Spans(text, r + 1, w.rest, j)
  {
    assert Show(0);
    var a, b, c := Print(w.first), PrintMore(w.more), Print(w.rest);
    SplitChar(text, i, j, '{', a + (b + ("}" + c)));
    Split(text, i + 1, j, a, b + ("}" + c));
    m := i + 1 + |a|;
    Split(text, m, j, b, "}" + c);
    r := m + |b|;
    SplitChar(text, r, j, '}', c);
  }

  lemma SpanMore(text: string, i: nat, bs: Branches, j: nat) returns (m: nat)
    requires SpansMore(text, i, bs, j)
    ensures i < m <= j && text[i] == ',' && Spans(text, i + 1, bs.w, m)
    ensures if bs.More? then SpansMore(text, m, bs.others, j) else m == j
  {
    assert Show(0);
    if bs.More? {
      var a, b := Print(bs.w), PrintMore(bs.others);
      SplitChar(text, i, j, ',', a + b);
      Split(text, i + 1, j, a, b);
      m := i + 1 + |a|;
    } else {
      SplitChar(text, i, j, ',', Print(bs.w));
      m := j;
    }
  }

  /** Outside quotes, no pending escape. */
  predicate Bare(st: Scan) { st.quoted == '\0' && !st.passNext }

  /** Only a scan for `}` counts separators, and only at the outer level. */
  function Counted(text: string, i: nat, satisfy: char, st: Scan): (st': Scan)
    requires i < |text|
    ensures st' == st.(commas := st'.commas) && st.commas <= st'.commas
    ensures st.level > 0 || satisfy != '}' ==> st' == st
  {
    if satisfy == '}' && st.level == 0 && (text[i] == ',' || (Dots(text, i) && !(i + 2 < |text| && text[i + 2] == '}')))
    then st.(commas := st.commas + 1) else st
  }

  /** A scan at i in state st comes by j in state st'. */
  ghost predicate Scans(o: Outside, text: string, satisfy: char, i: nat, st: Scan, j: nat, st': Scan) {
    && i <= |text| && j <= |text|
    && forall z: nat {:trigger Show(z)} :: Show(z) ==>
      Gobble(o, text, i, satisfy, st) == Gobble(o, text, j, satisfy, st')
  }

  lemma Chain(o: Outside, text: string, satisfy: char, i: nat, st: Scan, j: nat, st': Scan, k: nat, st'': Scan)
    requires Scans(o, text, satisfy, i, st, j, st') && Scans(o, text, satisfy, j, st', k, st'')
    ensures Scans(o, text, satisfy, i, st, k, st'')
  {
    assert Show(0);
  }

  lemma StepScans(o: Outside, text: string, satisfy: char, i: nat, st: Scan, st': Scan)
    requires i < |text| && !Substitutes(text, i, st) && Step(text, i, satisfy, st) == Some(st')
    ensures Scans(o, text, satisfy, i, st, i + 1, st')
  {
  }

  lemma PlainStep(o: Outside, text: string, satisfy: char, i: nat, st: Scan)
    requires i < |text| && Bare(st) && Plain(text[i]) && !Plain(satisfy)
    ensures Scans(o, text, satisfy, i, st, i + 1, Counted(text, i, satisfy, st))
  {
    StepScans(o, text, satisfy, i, st, Counted(text, i, satisfy, st));
  }

  lemma EscStep(o: Outside, text: string, satisfy: char, i: nat, st: Scan)
    requires i + 1 < |text| && Bare(st) && text[i] == '\\'
    ensures Scans(o, text, satisfy, i, st, i + 2, st)
  {
    var pass := st.(passNext := true);
    StepScans(o, text, satisfy, i, st, pass);
    StepScans(o, text, satisfy, i + 1, pass, st);
    Chain(o, text, satisfy, i, st, i + 1, pass, i + 2, st);
  }

  /** A quoted stretch or a parameter leaves the scan as it was. */
  lemma HushStep(o: Outside, text: string, satisfy: char, i: nat, s: string, st: Scan)
    requires i + |s| <= |text| && text[i..i + |s|] == s && Hushed(o, s) && Bare(st) && !Plain(satisfy)
    ensures Scans(o, text, satisfy, i, st, i + |s|, st)
  {
    var end := i + |s| - 1;
    assert forall k :: 0 <= k < |s| ==> text[i + k] == s[k];
    if QuotedText(s) {
      var inside := st.(quoted := s[0]);
      StepScans(o, text, satisfy, i, st, inside);
      forall k | i < k < end ensures Passed(text, k, inside) {
        assert text[k] == s[k - i];
      }
      PassRun(o, text, satisfy, i + 1, end, inside);
      Chain(o, text, satisfy, i, st, i + 1, inside, end, inside);
      StepScans(o, text, satisfy, end, inside, st);
      Chain(o, text, satisfy, i, st, end, inside, end + 1, st);
    } else if Parameter(s) {
      ParameterStep(o, text, satisfy, i, s, st);
    } else {
      SubstitutionStep(o, text, satisfy, i, s, st);
    }
  }

  lemma SubstitutionStep(o: Outside, text: string, satisfy: char, i: nat, s: string, st: Scan)
    requires i + |s| <= |text| && text[i..i + |s|] == s && Substitution(o, s) && Bare(st)
    ensures Scans(o, text, satisfy, i, st, i + |s|, st)
  {
    assert text[i] == text[i..i + |s|][0] && text[i + 1] == text[i..i + |s|][1];
    assert EndsThere(o, text, i, s);
    assert Substitutes(text, i, st) && AfterSubst(o, text, i) == i + |s|;
  }

  /** A character that means nothing between quotes. */
  predicate Passed(text: string, k: nat, st: Scan) {
    && k < |text| && !st.passNext && text[k] != st.quoted
    && (st.quoted == '\'' || ((st.quoted == '"' || st.quoted == '`') && text[k] != '\\' && text[k] != '$'))
  }

  lemma {:induction false} PassRun(o: Outside, text: string, satisfy: char, i: nat, j: nat, st: Scan)
    requires i <= j <= |text| && forall k :: i <= k < j ==> Passed(text, k, st)
    ensures Scans(o, text, satisfy, i, st, j, st)
    decreases j - i
  {
    if i < j {
      assert Passed(text, i, st);
      StepScans(o, text, satisfy, i, st, st);
      PassRun(o, text, satisfy, i + 1, j, st);
      Chain(o, text, satisfy, i, st, i + 1, st, j, st);
    }
  }

  lemma OpenParameter(o: Outside, text: string, satisfy: char, i: nat, st: Scan)
    requires i + 1 < |text| && text[i] == '$' && text[i + 1] == '{' && Bare(st)
    ensures Scans(o, text, satisfy, i, st, i + 2, st.(level := st.level + 1))
  {
    var up := st.(level := st.level + 1);
    StepScans(o, text, satisfy, i, st, up.(passNext := true));
    StepScans(o, text, satisfy, i + 1, up.(passNext := true), up);
    Chain(o, text, satisfy, i, st, i + 1, up.(passNext := true), i + 2, up);
  }

  lemma ParameterStep(o: Outside, text: string, satisfy: char, i: nat, s: string, st: Scan)
    requires i + |s| <= |text| && (forall k :: 0 <= k < |s| ==> text[i + k] == s[k])
    requires Parameter(s) && Bare(st) && !Plain(satisfy)
    ensures Scans(o, text, satisfy, i, st, i + |s|, st)
  {
    var end := i + |s| - 1;
    var up := st.(level := st.level + 1);
    assert text[i + 0] == '$' && text[i + 1] == '{';
    OpenParameter(o, text, satisfy, i, st);
    forall k | i + 2 <= k < end ensures Plain(text[k]) {
      assert text[k] == text[i + (k - i)] == s[k - i];
    }
    PlainRun(o, text, satisfy, i + 2, end, up);
    Chain(o, text, satisfy, i, st, i + 2, up, end, up);
    assert text[end] == text[i + (|s| - 1)] == '}';
    CloseStep(o, text, satisfy, end, up);
    Chain(o, text, satisfy, i, st, end, up, end + 1, st);
  }

  /** Plain characters inside braces. */
  lemma {:induction false} PlainRun(o: Outside, text: string, satisfy: char, i: nat, j: nat, st: Scan)
    requires i <= j <= |text| && Bare(st) && st.level > 0 && !Plain(satisfy)
    requires forall k :: i <= k < j ==> Plain(text[k])
    ensures Scans(o, text, satisfy, i, st, j, st)
    decreases j - i
  {
    if i < j {
      PlainStep(o, text, satisfy, i, st);
      PlainRun(o, text, satisfy, i + 1, j, st);
      Chain(o, text, satisfy, i, st, i + 1, st, j, st);
    }
  }

  /** A sequence is passed over as a whole. */
  lemma SkipRange(o: Outside, text: string, i: nat, w: Word, j: nat, satisfy: char, st: Scan) returns (r: nat)
    requires w.Range? && PlainWord(o, w) && Spans(text, i, w, j) && Bare(st) && !Plain(satisfy)
    requires st.level > 0 || satisfy != '{'
    ensures i < r <= j && Spans(text, r, w.rest, j) && Scans(o, text, satisfy, i, st, r, st)
  {
    var close := SpanRange(text, i, w, j);
    r := close + 1;
    var up := st.(level := st.level + 1);
    OpenStep(o, text, satisfy, i, st);
    AmblePlain(text, i + 1, close, w.amble);
    PlainRun(o, text, satisfy, i + 1, close, up);
    Chain(o, text, satisfy, i, st, i + 1, up, close, up);
    CloseStep(o, text, satisfy, close, up);
    Chain(o, text, satisfy, i, st, close, up, r, st);
  }

  lemma AmblePlain(text: string, i: nat, j: nat, amble: string)
    requires i <= j <= |text| && text[i..j] == amble && Ranging(amble)
    ensures forall k :: i <= k < j ==> Plain(text[k])
  {
    forall k | i <= k < j ensures Plain(text[k]) {
      assert text[k] == amble[k - i] && amble[k - i] in amble;
    }
  }

  lemma OpenStep(o: Outside, text: string, satisfy: char, i: nat, st: Scan)
    requires i < |text| && Bare(st) && text[i] == '{' && (st.level > 0 || satisfy != '{')
    ensures Scans(o, text, satisfy, i, st, i + 1, st.(level := st.level + 1))
  {
    StepScans(o, text, satisfy, i, st, st.(level := st.level + 1));
  }

  lemma CloseStep(o: Outside, text: string, satisfy: char, i: nat, st: Scan)
    requires i < |text| && Bare(st) && text[i] == '}' && st.level > 0
    ensures Scans(o, text, satisfy, i, st, i + 1, st.(level := st.level - 1))
  {
    StepScans(o, text, satisfy, i, st, st.(level := st.level - 1));
  }

  lemma CommaStep(o: Outside, text: string, satisfy: char, i: nat, st: Scan)
    requires i < |text| && Bare(st) && text[i] == ',' && (st.level > 0 || satisfy == '}')
    ensures Scans(o, text, satisfy, i, st, i + 1, Counted(text, i, satisfy, st))
  {
    StepScans(o, text, satisfy, i, st, Counted(text, i, satisfy, st));
  }

  /** A scan stops at its character at the outer level, a separator having been counted. */
  lemma Stops(o: Outside, text: string, satisfy: char, i: nat, j: nat, st: Scan)
    requires Scans(o, text, satisfy, i, StartScan(satisfy), j, st) && i <= j < |text| && Bare(st) && text[j] == satisfy
    requires (satisfy == '{' || satisfy == '}' || satisfy == ',') && st.level == 0 && st.commas > 0 && !Ignored(text, j)
    ensures Gobbled(o, text, i, satisfy, j)
  {
    assert Show(0);
    assert Step(text, j, satisfy, st) == None;
  }

  lemma RunsOut(o: Outside, text: string, satisfy: char, i: nat, st: Scan)
    requires Scans(o, text, satisfy, i, StartScan(satisfy), |text|, st)
    ensures Gobbled(o, text, i, satisfy, |text|)
  {
    assert Show(0);
  }

  /** From i in state st a scan comes by m, where the rest of w starts, in state st', which at
      most counts more separators. */
  ghost predicate Past(o: Outside, text: string, i: nat, w: Word, j: nat, satisfy: char, st: Scan, m: nat, st': Scan)
    requires !w.Done?
  {
    && i < m && Spans(text, m, w.rest, j) && Scans(o, text, satisfy, i, st, m, st')
    && st' == st.(commas := st'.commas) && st.commas <= st'.commas
    && (st.level > 0 || satisfy != '}' ==> st' == st)
  }

  lemma PastLit(o: Outside, text: string, i: nat, w: Word, j: nat, satisfy: char, st: Scan)
    requires w.Lit? && Plain(w.c) && Spans(text, i, w, j) && Bare(st) && !Plain(satisfy)
    ensures i < |text| && Past(o, text, i, w, j, satisfy, st, i + 1, Counted(text, i, satisfy, st))
  {
    SpanLit(text, i, w, j);
    PlainStep(o, text, satisfy, i, st);
  }

  lemma PastEsc(o: Outside, text: string, i: nat, w: Word, j: nat, satisfy: char, st: Scan)
    requires w.Esc? && Spans(text, i, w, j) && Bare(st)
    ensures Past(o, text, i, w, j, satisfy, st, i + 2, st)
  {
    SpanEsc(text, i, w, j);
    EscStep(o, text, satisfy, i, st);
  }

  lemma PastHush(o: Outside, text: string, i: nat, w: Word, j: nat, satisfy: char, st: Scan)
    requires w.Hush? && Hushed(o, w.s) && Spans(text, i, w, j) && Bare(st) && !Plain(satisfy)
    ensures Past(o, text, i, w, j, satisfy, st, i + |w.s|, st)
  {
    SpanHush(text, i, w, j);
    HushStep(o, text, satisfy, i, w.s, st);
  }

  /** Past anything but an alternation, or, in a scan for `{`, a sequence. */
  lemma PastPiece(o: Outside, text: string, i: nat, w: Word, j: nat, satisfy: char, st: Scan)
    returns (m: nat, st': Scan)
    requires PlainWord(o, w) && !w.Done? && !w.Alt? && Spans(text, i, w, j) && Bare(st) && !Plain(satisfy)
    requires w.Range? ==> st.level > 0 || satisfy != '{'
    ensures Past(o, text, i, w, j, satisfy, st, m, st') && (!w.Range? ==> m == i + |Piece(w)|)
  {
    st' := st;
    if w.Lit? {
      PastLit(o, text, i, w, j, satisfy, st);
      m, st' := i + 1, Counted(text, i, satisfy, st);
    } else if w.Esc? {
      PastEsc(o, text, i, w, j, satisfy, st);
      m := i + 2;
    } else if w.Hush? {
      PastHush(o, text, i, w, j, satisfy, st);
      m := i + |w.s|;
    } else {
      m := SkipRange(o, text, i, w, j, satisfy, st);
    }
  }

  /** Inside braces, the text of a word changes nothing. */
  lemma {:induction false} SkipInner(o: Outside, text: string, i: nat, w: Word, j: nat, satisfy: char, st: Scan)
    requires PlainWord(o, w) && Spans(text, i, w, j) && Bare(st) && st.level > 0 && !Plain(satisfy)
    ensures Scans(o, text, satisfy, i, st, j, st)
    decreases w
  {
    if w.Done? {
      SpanDone(o, text, i, w, j);
    } else {
      var m;
      if w.Alt? {
        m := SkipAlt(o, text, i, w, j, satisfy, st);
      } else {
        var st';
        m, st' := PastPiece(o, text, i, w, j, satisfy, st);
      }
      SkipInner(o, text, m, w.rest, j, satisfy, st);
      Chain(o, text, satisfy, i, st, m, st, j, st);
    }
  }

  /** An alternation is passed over as a whole; r is where the rest of the word starts. */
  lemma SkipAlt(o: Outside, text: string, i: nat, w: Word, j: nat, satisfy: char, st: Scan) returns (r: nat)
    requires w.Alt? && PlainWord(o, w) && Spans(text, i, w, j) && Bare(st) && !Plain(satisfy)
    requires st.level > 0 || satisfy != '{'
    ensures Spans(text, r, w.rest, j) && Scans(o, text, satisfy, i, st, r, st)
    decreases w, 0
  {
    var m, close := SpanAlt(text, i, w, j);
    r := close + 1;
    var up := st.(level := st.level + 1);
    OpenStep(o, text, satisfy, i, st);
    SkipInner(o, text, i + 1, w.first, m, satisfy, up);
    Chain(o, text, satisfy, i, st, i + 1, up, m, up);
    SkipMore(o, text, m, w.more, close, satisfy, up);
    Chain(o, text, satisfy, i, st, m, up, close, up);
    CloseStep(o, text, satisfy, close, up);
    Chain(o, text, satisfy, i, st, close, up, r, st);
  }

  lemma {:induction false} SkipMore(o: Outside, text: string, i: nat, bs: Branches, j: nat, satisfy: char, st: Scan)
    requires PlainBranches(o, bs) && SpansMore(text, i, bs, j) && Bare(st) && st.level > 0 && !Plain(satisfy)
    ensures Scans(o, text, satisfy, i, st, j, st)
    decreases bs
  {
    var m := SpanMore(text, i, bs, j);
    CommaStep(o, text, satisfy, i, st);
    SkipInner(o, text, i + 1, bs.w, m, satisfy, st);
    Chain(o, text, satisfy, i, st, i + 1, st, m, st);
    if bs.More? {
      SkipMore(o, text, m, bs.others, j, satisfy, st);
      Chain(o, text, satisfy, i, st, m, st, j, st);
    }
  }

  /** At the outer level a scan for `}` or `,` passes over a word, at most counting dots. */
  lemma {:induction false} SkipOuter(o: Outside, text: string, i: nat, w: Word, j: nat, satisfy: char, st: Scan)
    returns (st': Scan)
    requires PlainWord(o, w) && Spans(text, i, w, j) && Bare(st) && st.level == 0
    requires satisfy == '}' || satisfy == ','
    ensures st' == st.(commas := st'.commas) && st.commas <= st'.commas
    ensures Scans(o, text, satisfy, i, st, j, st')
    decreases w
  {
    st' := st;
    if w.Done? {
      SpanDone(o, text, i, w, j);
    } else {
      var m, st1;
      if w.Alt? {
        m := SkipAlt(o, text, i, w, j, satisfy, st);
        st1 := st;
      } else {
        m, st1 := PastPiece(o, text, i, w, j, satisfy, st);
      }
      st' := SkipOuter(o, text, m, w.rest, j, satisfy, st1);
      Chain(o, text, satisfy, i, st, m, st1, j, st');
    }
  }

  /** Past the branches of an alternation, at least one separator has been counted. */
  lemma {:induction false} CountMore(o: Outside, text: string, i: nat, bs: Branches, j: nat, st: Scan)
    returns (st': Scan)
    requires PlainBranches(o, bs) && SpansMore(text, i, bs, j) && Bare(st) && st.level == 0
    ensures st' == st.(commas := st'.commas) && st.commas < st'.commas
    ensures Scans(o, text, '}', i, st, j, st')
    decreases bs
  {
    var m := SpanMore(text, i, bs, j);
    CommaStep(o, text, '}', i, st);
    var st1 := Counted(text, i, '}', st);
    st' := SkipOuter(o, text, i + 1, bs.w, m, '}', st1);
    Chain(o, text, '}', i, st, i + 1, st1, m, st');
    if bs.More? {
      var st2 := st';
      st' := CountMore(o, text, m, bs.others, j, st2);
      Chain(o, text, '}', i, st, m, st2, j, st');
    }
  }

  // ----- expanding the text of a word -----

  /** The literal text in front of the first sequence or alternation, and the rest. */
  function Head(w: Word): string {
    if w.Lit? || w.Esc? || w.Hush? then Piece(w) + Head(w.rest) else ""
  }

  function Piece(w: Word): string
    requires w.Lit? || w.Esc? || w.Hush?
  {
    if w.Lit? then [w.c] else if w.Esc? then ['\\', w.c] else w.s
  }

  function Tail(w: Word): Word { if w.Lit? || w.Esc? || w.Hush? then Tail(w.rest) else w }

  lemma {:induction false} HeadDenotes(o: Outside, w: Word)
    ensures Denote(o, w) == Prepend(Head(w), Denote(o, Tail(w)))
  {
    var d := Denote(o, Tail(w));
    if w.Lit? || w.Esc? || w.Hush? {
      HeadDenotes(o, w.rest);
      PrependTwice(Piece(w), Head(w.rest), d);
    } else {
      PrependNothing(d);
    }
  }

  lemma PrependTwice(p: string, q: string, d: seq<string>)
    ensures Prepend(p, Prepend(q, d)) == Prepend(p + q, d)
  {
    assert forall i :: 0 <= i < |d| ==> p + (q + d[i]) == (p + q) + d[i];
  }

  lemma PieceText(text: string, i: nat, w: Word, j: nat)
    requires Spans(text, i, w, j) && (w.Lit? || w.Esc? || w.Hush?)
    ensures i + |Piece(w)| <= j && text[i..i + |Piece(w)|] == Piece(w)
  {
    assert Show(0);
    Split(text, i, j, Piece(w), Print(w.rest));
  }

  /** The scan for `{` passes over the literal head of a word. */
  lemma {:induction false} SkipHead(o: Outside, text: string, i: nat, w: Word, j: nat) returns (k: nat)
    requires PlainWord(o, w) && Spans(text, i, w, j)
    ensures i <= k <= j && text[i..k] == Head(w) && Spans(text, k, Tail(w), j)
    ensures PlainWord(o, Tail(w)) && (Tail(w).Done? || Tail(w).Alt? || Tail(w).Range?) && (Tail(w) == w || Tail(w) < w)
    ensures Scans(o, text, '{', i, StartScan('{'), k, StartScan('{'))
    decreases w
  {
    k := i;
    if w.Lit? || w.Esc? || w.Hush? {
      var m, st := PastPiece(o, text, i, w, j, '{', StartScan('{'));
      PieceText(text, i, w, j);
      k := SkipHead(o, text, m, w.rest, j);
      Chain(o, text, '{', i, StartScan('{'), m, StartScan('{'), k, StartScan('{'));
      assert text[i..k] == text[i..m] + text[m..k];
    }
  }

  /** The braces brace_expand settles on are those of the first alternation. */
  lemma FindsFirst(o: Outside, text: string, w: Word) returns (k: nat, m: nat, j: nat)
    requires PlainWord(o, w) && Spans(text, 0, w, |text|) && Tail(w).Alt?
    ensures k < m < j < |text| && Found(o, text, k, j)
    ensures text[..k] == Head(w) && PlainWord(o, Tail(w)) && Spans(text, k + 1, Tail(w).first, m)
    ensures SpansMore(text, m, Tail(w).more, j) && Spans(text, j + 1, Tail(w).rest, |text|)
  {
    k := SkipHead(o, text, 0, w, |text|);
    m, j := SpanAlt(text, k, Tail(w), |text|);
    BranchStart(o, text, k + 1, Tail(w).first, m, Tail(w).more, j);
    CloseAfter(o, text, k + 1, Tail(w).first, m, Tail(w).more, j);
    Stops(o, text, '{', 0, k, StartScan('{'));
    FoundAt(o, text, k, j);
  }

  /** The close brace found for an alternation is its own. */
  lemma CloseAfter(o: Outside, text: string, i: nat, first: Word, m: nat, more: Branches, j: nat)
    requires PlainWord(o, first) && PlainBranches(o, more) && Spans(text, i, first, m) && SpansMore(text, m, more, j)
    requires j < |text| && text[j] == '}'
    ensures Gobbled(o, text, i, '}', j)
  {
    var st1 := SkipOuter(o, text, i, first, m, '}', StartScan('}'));
    var st2 := CountMore(o, text, m, more, j, st1);
    Chain(o, text, '}', i, StartScan('}'), m, st1, j, st2);
    Stops(o, text, '}', i, j, st2);
  }

  /** A branch never starts with white space or a close brace. */
  lemma BranchStart(o: Outside, text: string, i: nat, first: Word, m: nat, more: Branches, j: nat)
    requires PlainWord(o, first) && Spans(text, i, first, m) && SpansMore(text, m, more, j)
    ensures i < |text| && !Whitespace(text, i) && text[i] != '}'
  {
    if first.Done? {
      SpanDone(o, text, i, first, m);
      var r := SpanMore(text, m, more, j);
    } else if first.Lit? {
      SpanLit(text, i, first, m);
    } else if first.Esc? {
      SpanEsc(text, i, first, m);
    } else if first.Hush? {
      SpanHush(text, i, first, m);
      assert text[i] == text[i..i + |first.s|][0];
    } else if first.Range? {
      var r := SpanRange(text, i, first, m);
    } else {
      var a, b := SpanAlt(text, i, first, m);
    }
  }

  /** A separator after the text of a word is found, and so is one inside it. */
  lemma {:induction false} SeparatorFound(o: Outside, w: Word, rest: string)
    requires PlainWord(o, w) && (w.Alt? || HasSeparator(rest))
    ensures HasSeparator(Print(w) + rest)
    decreases w
  {
    if w.Done? {
      assert Print(w) + rest == rest;
    } else if !w.Alt? {
      SeparatorFound(o, w.rest, rest);
      SeparatorPast(o, w, rest);
    } else {
      SeparatorFound(o, w.first, AfterFirst(w, rest));
      AltText(w, rest);
    }
  }

  lemma SeparatorPast(o: Outside, w: Word, rest: string)
    requires PlainWord(o, w) && !w.Done? && !w.Alt? && HasSeparator(Print(w.rest) + rest)
    ensures HasSeparator(Print(w) + rest)
  {
    var p := if w.Range? then "{" + w.amble + "}" else Piece(w);
    assert Print(w) + rest == p + (Print(w.rest) + rest);
    if w.Esc? {
      assert (p + (Print(w.rest) + rest))[2..] == Print(w.rest) + rest;
    } else {
      SeparatorAfter(p, Print(w.rest) + rest);
    }
  }

  /** What follows the first branch of an alternation. */
  function AfterFirst(w: Word, rest: string): (s: string)
    requires w.Alt?
    ensures HasSeparator(s)
  {
    PrintMore(w.more) + ("}" + Print(w.rest)) + rest
  }

  lemma AltText(w: Word, rest: string)
    requires w.Alt?
    ensures var s := Print(w) + rest; s[0] == '{' && s[1..] == Print(w.first) + AfterFirst(w, rest)
  {
    var a, b := Print(w.first), PrintMore(w.more) + ("}" + Print(w.rest));
    assert Print(w) == "{" + (a + b);
    Regrouped("{", a, b, rest);
  }

  lemma Regrouped(p: string, a: string, b: string, rest: string)
    ensures (p + (a + b)) + rest == p + (a + (b + rest))
  {
  }

  /** A text that does not end with a backslash hides no separator after it. */
  lemma {:induction false} SeparatorAfter(s: string, rest: string)
    requires s != [] ==> s[|s| - 1] != '\\'
    requires HasSeparator(rest)
    ensures HasSeparator(s + rest)
  {
    if s == [] {
      assert s + rest == rest;
    } else {
      var n := if s[0] == '\\' then 2 else 1;
      SeparatorAfter(s[n..], rest);
      assert (s + rest)[n..] == s[n..] + rest;
    }
  }

  lemma ProductOfPrefix(p: string, a: seq<string>, b: seq<string>)
    ensures Product([p], a) == Prepend(p, a)
    ensures Product(Prepend(p, a), b) == Prepend(p, Product(a, b))
  {
    assert Product([p], a) == Prepend(p, a) + Product([], a);
    ProductPrepend(p, a, b);
  }

  lemma {:induction false} ProductPrepend(p: string, a: seq<string>, b: seq<string>)
    ensures Product(Prepend(p, a), b) == Prepend(p, Product(a, b))
  {
    if a != [] {
      ProductPrepend(p, a[1..], b);
      assert Prepend(p, a)[1..] == Prepend(p, a[1..]);
      assert forall i :: 0 <= i < |b| ==> (p + a[0]) + b[i] == p + (a[0] + b[i]);
      assert Prepend(p + a[0], b) == Prepend(p, Prepend(a[0], b));
      assert Prepend(p, Prepend(a[0], b) + Product(a[1..], b))
          == Prepend(p, Prepend(a[0], b)) + Prepend(p, Product(a[1..], b));
    }
  }

  /** The main result: expanding the text of a word yields the ordered Cartesian product
      of its parts, whatever sequences and substitutions mean. */
  lemma ExpandsToProduct(o: Outside, w: Word)
    requires PlainWord(o, w)
    ensures BraceExpand(o, Print(w)) == Denote(o, w)
  {
    ExpandsWord(o, w);
    assert Show(0);
  }

  lemma {:induction false} ExpandsWord(o: Outside, w: Word)
    requires PlainWord(o, w)
    ensures Expanded(o, Print(w), Denote(o, w))
    decreases w, 2
  {
    var text := Print(w);
    assert text[0..|text|] == text;
    TailIs(o, w);
    if Tail(w).Done? {
      var k := SkipHead(o, text, 0, w, |text|);
      ExpandsPlain(o, text, w, k);
    } else if Tail(w).Range? {
      var k, j := FindsRange(o, text, w, |text|);
      ExpandsWord(o, Tail(w).rest);
      SpanText(text, j + 1, Tail(w).rest, |text|);
      assert text[j + 1..] == text[j + 1..|text|];
      ExpandsRange(o, text, k, j, Tail(w).amble, Denote(o, Tail(w).rest));
      RangeDenotes(o, w);
    } else {
      var k, m, j := FindsFirst(o, text, w);
      ExpandsInner(o, text, k, Tail(w), m, j);
      ExpandsWord(o, Tail(w).rest);
      ExpandsAlt(o, text, w, k, m, j);
    }
  }

  /** The braces brace_expand settles on are those of a sequence that comes first, whatever
      follows the word. */
  lemma FindsRange(o: Outside, text: string, w: Word, e: nat) returns (k: nat, j: nat)
    requires PlainWord(o, w) && Spans(text, 0, w, e) && Tail(w).Range?
    ensures k < j < e <= |text| && Found(o, text, k, j) && text[..k] == Head(w) && Ranging(Tail(w).amble)
    ensures text[k..j + 1] == "{" + Tail(w).amble + "}" && text[k + 1..j] == Tail(w).amble
    ensures PlainWord(o, Tail(w).rest) && Spans(text, j + 1, Tail(w).rest, e)
  {
    k := SkipHead(o, text, 0, w, e);
    j := RangeFrom(o, text, k, Tail(w), e);
    Stops(o, text, '{', 0, k, StartScan('{'));
    FoundAt(o, text, k, j);
  }

  /** The braces of a sequence. */
  lemma RangeFrom(o: Outside, text: string, k: nat, t: Word, e: nat) returns (j: nat)
    requires t.Range? && Ranging(t.amble) && Spans(text, k, t, e)
    ensures k < j < e <= |text| && text[k] == '{' && !Ignored(text, k) && Gobbled(o, text, k + 1, '}', j)
    ensures text[k..j + 1] == "{" + t.amble + "}" && text[k + 1..j] == t.amble && Spans(text, j + 1, t.rest, e)
  {
    j := SpanRange(text, k, t, e);
    AmblePlain(text, k + 1, j, t.amble);
    RangeCloses(o, text, k + 1, j, t.amble);
    assert text[k..j + 1] == [text[k]] + text[k + 1..j] + [text[j]];
    assert Plain(text[k + 1]);
  }

  lemma RangeCloses(o: Outside, text: string, i: nat, j: nat, amble: string)
    requires i <= j < |text| && text[i..j] == amble && Ranging(amble) && text[j] == '}'
    ensures Gobbled(o, text, i, '}', j)
  {
    AmblePlain(text, i, j, amble);
    var d :| 0 <= d && d + 2 < |amble| && Dots(amble, d);
    assert text[i + d] == amble[d] && text[i + d + 1] == amble[d + 1] && text[i + d + 2] == amble[d + 2];
    assert Plain(text[i + d + 2]);
    var st := CountRun(o, text, i, j, StartScan('}'), i + d);
    Stops(o, text, '}', i, j, st);
  }

  /** Plain characters at the outer level of a scan for `}`, which counts the dots at d. */
  lemma {:induction false} CountRun(o: Outside, text: string, i: nat, j: nat, st: Scan, d: nat) returns (st': Scan)
    requires i <= j <= |text| && Bare(st) && st.level == 0 && forall k :: i <= k < j ==> Plain(text[k])
    ensures st' == st.(commas := st'.commas) && st.commas <= st'.commas
    ensures i <= d < j && Dots(text, d) && d + 2 < |text| && text[d + 2] != '}' ==> st'.commas > 0
    ensures Scans(o, text, '}', i, st, j, st')
    decreases j - i
  {
    st' := st;
    if i < j {
      PlainStep(o, text, '}', i, st);
      var st1 := Counted(text, i, '}', st);
      st' := CountRun(o, text, i + 1, j, st1, d);
      Chain(o, text, '}', i, st, i + 1, st1, j, st');
    }
  }

  lemma RangeTacked(o: Outside, text: string, k: nat, j: nat, amble: string)
    requires k < j < |text| && text[k + 1..j] == amble && text[k..j + 1] == "{" + amble + "}" && Ranging(amble)
    ensures Tacked(o, text, k, j, DenoteRange(o, amble))
    ensures !HasSeparator(amble) && Sequence(o, amble) == o.sequence(amble)
  {
    PlainHasNone(amble);
    assert HasDots(amble);
  }

  lemma {:induction false} PlainHasNone(s: string)
    requires forall c :: c in s ==> Plain(c)
    ensures !HasSeparator(s)
  {
    if s != [] {
      assert s[0] in s;
      PlainHasNone(s[1..]);
    }
  }

  /** One sequence, given what the text after it expands to. */
  lemma ExpandsRange(o: Outside, text: string, k: nat, j: nat, amble: string, y: seq<string>)
    requires k < j < |text| && Found(o, text, k, j) && text[k + 1..j] == amble && Ranging(amble)
    requires text[k..j + 1] == "{" + amble + "}" && Expanded(o, text[j + 1..], y)
    ensures Expanded(o, text, Product(Prepend(text[..k], DenoteRange(o, amble)), y))
  {
    var v := DenoteRange(o, amble);
    RangeTacked(o, text, k, j, amble);
    ExpandedAt(o, text, k, j, v, y);
    if text[j + 1..] == [] {
      ExpandsNothing(o, y);
    }
    RangeAssembled(o, text, k, j, amble, y);
  }

  lemma ExpandsNothing(o: Outside, y: seq<string>)
    requires Expanded(o, [], y)
    ensures y == [""]
  {
    assert Show(0);
  }

  lemma RangeAssembled(o: Outside, text: string, k: nat, j: nat, amble: string, y: seq<string>)
    requires k < j < |text| && text[k + 1..j] == amble && text[k..j + 1] == "{" + amble + "}"
    requires !HasSeparator(amble) && Sequence(o, amble) == o.sequence(amble) && (j + 1 == |text| ==> y == [""])
    ensures Assembled(o, text, k, j, DenoteRange(o, amble), y) ==
            Product(Prepend(text[..k], DenoteRange(o, amble)), y)
  {
    var v := DenoteRange(o, amble);
    ProductOfPrefix(text[..k], v, y);
    ProductUnits(Prepend(text[..k], v));
    if Unexpanded(o, text, k, j) {
      assert text == text[..k] + text[k..j + 1];
      BothPieces(text[..k], "{" + amble + "}");
    }
  }

  lemma RangeDenotes(o: Outside, w: Word)
    requires Tail(w).Range?
    ensures Denote(o, w) == Product(Prepend(Head(w), DenoteRange(o, Tail(w).amble)), Denote(o, Tail(w).rest))
  {
    HeadDenotes(o, w);
    ProductOfPrefix(Head(w), DenoteRange(o, Tail(w).amble), Denote(o, Tail(w).rest));
  }

  lemma BothPieces(p: string, q: string)
    ensures Product([p], [q]) == [p + q]
  {
    ProductOfPrefix(p, [q], [""]);
  }

  /** Plain characters in front of a word. */
  function Spell(p: string, w: Word): Word { if p == [] then w else Lit(p[0], Spell(p[1..], w)) }

  lemma {:induction false} SpellIs(o: Outside, p: string, w: Word)
    requires PlainWord(o, w) && !w.Lit? && !w.Esc? && !w.Hush? && forall c :: c in p ==> Plain(c)
    ensures var r := Spell(p, w); Print(r) == p + Print(w) && Head(r) == p && Tail(r) == w && PlainWord(o, r)
  {
    if p != [] {
      assert p[0] in p && p == [p[0]] + p[1..];
      SpellIs(o, p[1..], w);
      Rejoined(p, Print(w));
    }
  }

  lemma Rejoined(p: string, q: string)
    requires p != []
    ensures [p[0]] + (p[1..] + q) == p + q
  {
  }

  /** A sequence between plain text and any text at all: each of its strings in turn, with
      everything the rest expands to.  If the term is no sequence, the braces stay. */
  lemma SequenceExpands(o: Outside, p: string, amble: string, q: string)
    requires (forall c :: c in p ==> Plain(c)) && Ranging(amble)
    ensures BraceExpand(o, p + ("{" + amble + "}") + q) ==
            Product(if o.sequence(amble).Some? then Prepend(p, o.sequence(amble).value) else [p + ("{" + amble + "}")],
                    BraceExpand(o, q))
  {
    var text, y := p + ("{" + amble + "}") + q, BraceExpand(o, q);
    SequenceBefore(o, p, amble, q, y, text);
    assert Prepend(p, ["{" + amble + "}"]) == [p + ("{" + amble + "}")];
    assert Show(0);
  }

  lemma SequenceBefore(o: Outside, p: string, amble: string, q: string, y: seq<string>, text: string)
    requires (forall c :: c in p ==> Plain(c)) && Ranging(amble) && Expanded(o, q, y)
    requires text == p + ("{" + amble + "}") + q
    ensures Expanded(o, text, Product(Prepend(p, DenoteRange(o, amble)), y))
  {
    var w := Spell(p, Range(amble, Done));
    var e := |p| + |amble| + 2;
    SpellIs(o, p, Range(amble, Done));
    assert Print(Range(amble, Done)) == "{" + amble + "}";
    var head := p + ("{" + amble + "}");
    assert text[0..e] == head && text[e..] == q;
    var k, j := FindsRange(o, text, w, e);
    SpanDone(o, text, j + 1, Done, e);
    ExpandsRange(o, text, k, j, amble, y);
  }

  /** The branches between the braces, as expand_amble sees them. */
  lemma {:induction false} ExpandsInner(o: Outside, text: string, k: nat, t: Word, m: nat, j: nat)
    requires t.Alt? && PlainWord(o, t) && k < m < j < |text|
    requires Spans(text, k + 1, t.first, m) && SpansMore(text, m, t.more, j)
    ensures Tacked(o, text, k, j, Denote(o, t.first) + DenoteMore(o, t.more)) && HasSeparator(text[k + 1..j])
    decreases t, 1
  {
    Shift(text, k + 1, t.first, m, t.more, j);
    ExpandsBranches(o, text[k + 1..j], t, m - k - 1);
    AmbleSeparates(o, text, k + 1, t.first, m, t.more, j);
    TackParts(o, text, k, j, Denote(o, t.first) + DenoteMore(o, t.more));
  }

  lemma {:induction false} TailIs(o: Outside, w: Word)
    requires PlainWord(o, w)
    ensures PlainWord(o, Tail(w)) && (Tail(w).Done? || Tail(w).Alt? || Tail(w).Range?) && (Tail(w) == w || Tail(w) < w)
  {
    if w.Lit? || w.Esc? || w.Hush? {
      TailIs(o, w.rest);
    }
  }

  lemma ExpandsPlain(o: Outside, text: string, w: Word, k: nat)
    requires k <= |text| && text[0..k] == Head(w) && Tail(w).Done? && Spans(text, k, Tail(w), |text|)
    requires Scans(o, text, '{', 0, StartScan('{'), k, StartScan('{'))
    ensures Expanded(o, text, Denote(o, w))
  {
    SpanDone(o, text, k, Tail(w), |text|);
    RunsOut(o, text, '{', 0, StartScan('{'));
    NoneFrom(o, text, 0);
    HeadDenotes(o, w);
    assert text[0..k] == text && text + "" == text;
    assert Prepend(text, [""]) == [text];
  }

  /** One alternation, given what its branches and the rest of the word expand to. */
  lemma ExpandsAlt(o: Outside, text: string, w: Word, k: nat, m: nat, j: nat)
    requires Tail(w).Alt? && k < m < j < |text| && Found(o, text, k, j) && text[..k] == Head(w)
    requires Spans(text, j + 1, Tail(w).rest, |text|) && HasSeparator(text[k + 1..j])
    requires Tacked(o, text, k, j, Denote(o, Tail(w).first) + DenoteMore(o, Tail(w).more))
    requires PlainWord(o, Tail(w).rest) && Expanded(o, Print(Tail(w).rest), Denote(o, Tail(w).rest))
    ensures Expanded(o, text, Denote(o, w))
  {
    var t := Tail(w);
    var branches := Denote(o, t.first) + DenoteMore(o, t.more);
    SpanText(text, j + 1, t.rest, |text|);
    assert text[j + 1..] == text[j + 1..|text|];
    ExpandedAt(o, text, k, j, branches, Denote(o, t.rest));
    SpanDone(o, text, j + 1, t.rest, |text|);
    AssembledIs(o, text, k, j, w, branches);
  }

  lemma AssembledIs(o: Outside, text: string, k: nat, j: nat, w: Word, branches: seq<string>)
    requires k < j < |text| && HasSeparator(text[k + 1..j]) && text[..k] == Head(w)
    requires Tail(w).Alt? && branches == Denote(o, Tail(w).first) + DenoteMore(o, Tail(w).more)
    requires Tail(w).rest.Done? <==> j + 1 == |text|
    ensures Assembled(o, text, k, j, branches, Denote(o, Tail(w).rest)) == Denote(o, w)
  {
    AltDenotes(o, w, branches);
  }

  lemma AltDenotes(o: Outside, w: Word, branches: seq<string>)
    requires Tail(w).Alt? && branches == Denote(o, Tail(w).first) + DenoteMore(o, Tail(w).more)
    ensures Denote(o, w) == Product(Product([Head(w)], branches), Denote(o, Tail(w).rest))
    ensures Tail(w).rest.Done? ==> Denote(o, w) == Product([Head(w)], branches)
  {
    HeadDenotes(o, w);
    ProductOfPrefix(Head(w), branches, Denote(o, Tail(w).rest));
    if Tail(w).rest.Done? {
      ProductUnits(branches);
    }
  }

  /** The branches, cut out of the text. */
  lemma Shift(text: string, i: nat, first: Word, m: nat, more: Branches, j: nat)
    requires Spans(text, i, first, m) && SpansMore(text, m, more, j)
    ensures Spans(text[i..j], 0, first, m - i) && SpansMore(text[i..j], m - i, more, j - i)
  {
    SubSlice(text, i, j, 0, m - i);
    SubSlice(text, i, j, m - i, j - i);
    assert Show(0);
  }

  lemma SubSlice(s: string, i: nat, j: nat, a: nat, b: nat)
    requires i <= j <= |s| && a <= b <= j - i
    ensures s[i..j][a..b] == s[i + a..i + b]
  {
    assert forall k :: 0 <= k < b - a ==> s[i..j][a..b][k] == s[i + a + k] == s[i + a..i + b][k];
  }

  /** The separators that split an alternation are the commas not behind a backslash. */
  lemma {:induction false} SeparatorIsComma(amble: string)
    ensures HasSeparator(amble) <==> ',' in Quoting.Exposed(amble)
  {
    if amble != [] {
      if amble[0] != '\\' {
        SeparatorIsComma(amble[1..]);
      } else if |amble| > 1 {
        SeparatorIsComma(amble[2..]);
      }
    }
  }

  lemma AmbleSeparates(o: Outside, text: string, i: nat, first: Word, m: nat, more: Branches, j: nat)
    requires PlainWord(o, first) && Spans(text, i, first, m) && SpansMore(text, m, more, j)
    ensures HasSeparator(text[i..j])
  {
    assert Show(0);
    var r := SpanMore(text, m, more, j);
    assert text[i..j] == text[i..m] + text[m..j];
    assert text[m..j][0] == ',';
    SeparatorFound(o, first, text[m..j]);
  }

  /** expand_amble on the branches of an alternation. */
  lemma {:induction false} ExpandsBranches(o: Outside, amble: string, t: Word, m: nat)
    requires t.Alt? && PlainWord(o, t) && Spans(amble, 0, t.first, m) && SpansMore(amble, m, t.more, |amble|)
    ensures Ambled(o, amble, 0, Denote(o, t.first) + DenoteMore(o, t.more))
    decreases t, 0
  {
    var r := SpanMore(amble, m, t.more, |amble|);
    StopsAtComma(o, amble, 0, t.first, m);
    SpanText(amble, 0, t.first, m);
    ExpandsWord(o, t.first);
    ExpandsMore(o, amble, m, t.more);
    AmbledStep(o, amble, 0, m, Denote(o, t.first), DenoteMore(o, t.more));
  }

  lemma SpanText(text: string, i: nat, w: Word, j: nat)
    requires Spans(text, i, w, j)
    ensures text[i..j] == Print(w)
  {
    assert Show(0);
  }

  lemma StopsAtComma(o: Outside, text: string, i: nat, w: Word, j: nat)
    requires PlainWord(o, w) && Spans(text, i, w, j) && (j < |text| ==> text[j] == ',')
    ensures Gobbled(o, text, i, ',', j)
  {
    var st := SkipOuter(o, text, i, w, j, ',', StartScan(','));
    if j < |text| {
      Stops(o, text, ',', i, j, st);
    } else {
      RunsOut(o, text, ',', i, st);
    }
  }

  lemma {:induction false} ExpandsMore(o: Outside, text: string, i: nat, bs: Branches)
    requires PlainBranches(o, bs) && SpansMore(text, i, bs, |text|)
    ensures i < |text| && Ambled(o, text, i + 1, DenoteMore(o, bs))
    decreases bs, 0
  {
    var m := SpanMore(text, i, bs, |text|);
    ExpandsWord(o, bs.w);
    SpanText(text, i + 1, bs.w, m);
    if bs.More? {
      var r := SpanMore(text, m, bs.others, |text|);
      ExpandsMore(o, text, m, bs.others);
      StopsAtComma(o, text, i + 1, bs.w, m);
      AmbledStep(o, text, i + 1, m, Denote(o, bs.w), DenoteMore(o, bs.others));
    } else {
      StopsAtComma(o, text, i + 1, bs.w, m);
      AmbledStep(o, text, i + 1, m, Denote(o, bs.w), []);
      assert Denote(o, bs.w) + [] == Denote(o, bs.w);
    }
  }

  // ----- text that is left alone -----

  /** Braces, commas and dots among plain characters: nothing is quoted or substituted. */
  predicate Unquoted(text: string) {
    && (forall c :: c in text ==> c != '\\' && c != '$' && c != '"' && c != '\'' && c != '`')
    && (forall i :: 0 <= i < |text| ==> !Substitutes(text, i, StartScan('{')))
  }

  /** How many braces opened in text[i..j] are still open at j. */
  function Depth(text: string, i: nat, j: nat): nat
    requires i <= j <= |text|
    decreases j
  {
    if i == j then 0
    else
      var d := Depth(text, i, j - 1);
      if text[j - 1] == '{' then d + 1 else if text[j - 1] == '}' && d > 0 then d - 1 else d
  }

  predicate Separator(text: string, s: nat)
    requires s < |text|
  {
    || text[s] == ','
    || (text[s] == '.' && s + 1 < |text| && text[s + 1] == '.' && !(s + 2 < |text| && text[s + 2] == '}'))
  }

  /** A brace with nothing or white space on both sides, or `{}` after nothing or white space. */
  predicate Alone(text: string, k: nat)
    requires k < |text|
  {
    && (k == 0 || Blank(text[k - 1]))
    && (k + 1 == |text| || Blank(text[k + 1]) || text[k + 1] == '}')
  }

  predicate Blank(c: char) { c == ' ' || c == '\t' || c == '\n' || c == '\0' }

  /** The brace at k is opened for good, and at its own level a separator and then a close
      brace follow it. */
  predicate Expandable(text: string, k: nat, s: nat, j: nat) {
    && k < s < j < |text| && text[k] == '{' && !Alone(text, k)
    && Depth(text, k + 1, s) == 0 && Separator(text, s)
    && Depth(text, k + 1, j) == 0 && text[j] == '}'
  }

  lemma StepTracksDepth(text: string, k: nat, i: nat, st: Scan)
    requires Unquoted(text) && Bare(st) && k < i < |text| && st.level == Depth(text, k + 1, i)
    ensures !Substitutes(text, i, st)
    ensures var st' := Step(text, i, '}', st);
            if text[i] == '}' && st.level == 0 && st.commas > 0 then st' == None
            else (
              && st'.Some? && Bare(st'.value) && st'.value.level == Depth(text, k + 1, i + 1)
              && st'.value.commas == st.commas + if st.level == 0 && Separator(text, i) then 1 else 0)
  {
    assert text[i] in text;
    assert !Substitutes(text, i, StartScan('{'));
  }

  /** A close brace that is found closes at depth 0, after a separator at depth 0. */
  lemma {:induction false} CloseSound(o: Outside, text: string, k: nat, i: nat, st: Scan) returns (s: nat)
    requires Unquoted(text) && Bare(st) && k < i <= |text| && st.level == Depth(text, k + 1, i)
    requires Gobble(o, text, i, '}', st) < |text|
    ensures Depth(text, k + 1, Gobble(o, text, i, '}', st)) == 0
    ensures st.commas == 0 ==> i <= s < Gobble(o, text, i, '}', st) && Depth(text, k + 1, s) == 0 && Separator(text, s)
    decreases |text| - i
  {
    StepTracksDepth(text, k, i, st);
    s := i;
    if Step(text, i, '}', st).Some? {
      var st' := Step(text, i, '}', st).value;
      var s' := CloseSound(o, text, k, i + 1, st');
      if st'.commas == 0 {
        s := s';
      }
    }
  }

  /** Such a close brace is never missed. */
  lemma {:induction false} CloseComplete(o: Outside, text: string, k: nat, i: nat, st: Scan, s: nat, j: nat)
    requires Unquoted(text) && Bare(st) && k < i <= j < |text| && st.level == Depth(text, k + 1, i)
    requires text[j] == '}' && Depth(text, k + 1, j) == 0
    requires st.commas > 0 || (i <= s < j && Depth(text, k + 1, s) == 0 && Separator(text, s))
    ensures Gobble(o, text, i, '}', st) <= j
    decreases j - i
  {
    StepTracksDepth(text, k, i, st);
    if i < j && Step(text, i, '}', st).Some? {
      CloseComplete(o, text, k, i + 1, Step(text, i, '}', st).value, s, j);
    }
  }

  /** The scan for `{` stops at the first open brace that counts as one. */
  lemma {:induction false} NextOpen(o: Outside, text: string, i: nat) returns (k: nat)
    requires Unquoted(text) && i <= |text|
    ensures Gobbled(o, text, i, '{', k) && (k < |text| ==> text[k] == '{' && !Ignored(text, k))
    ensures forall m :: i <= m < k && text[m] == '{' ==> Ignored(text, m)
    decreases |text| - i
  {
    k := i;
    if i < |text| {
      assert text[i] in text;
      assert !Substitutes(text, i, StartScan('{'));
      if text[i] != '{' || Ignored(text, i) {
        assert Step(text, i, '{', StartScan('{')) == Some(StartScan('{'));
        k := NextOpen(o, text, i + 1);
        OpenFrom(o, text, i, k);
      } else {
        assert Step(text, i, '{', StartScan('{')) == None;
      }
    }
  }

  lemma OpenFrom(o: Outside, text: string, i: nat, k: nat)
    requires i < |text| && !Substitutes(text, i, StartScan('{'))
    requires Step(text, i, '{', StartScan('{')) == Some(StartScan('{'))
    requires Gobbled(o, text, i + 1, '{', k)
    ensures Gobbled(o, text, i, '{', k)
  {
    assert Show(0);
  }

  /** A close brace is found for the open brace at k exactly when it is expandable. */
  lemma Closing(o: Outside, text: string, k: nat) returns (j: nat)
    requires Unquoted(text) && k < |text| && text[k] == '{' && !Ignored(text, k)
    ensures Gobbled(o, text, k + 1, '}', j) && (j < |text| <==> exists s, j' :: Expandable(text, k, s, j'))
  {
    j := Gobble(o, text, k + 1, '}', StartScan('}'));
    if j < |text| {
      var s := CloseSound(o, text, k, k + 1, StartScan('}'));
      assert Expandable(text, k, s, j);
    } else if s, j' :| Expandable(text, k, s, j') {
      CloseComplete(o, text, k, k + 1, StartScan('}'), s, j');
    }
  }

  /** An expansion is found exactly when some brace is expandable. */
  lemma {:induction false} FindsExpandable(o: Outside, text: string, i: nat)
    requires Unquoted(text) && i <= |text|
    ensures FindBrace(o, text, i) < |text| <==> exists k, s, j :: i <= k && Expandable(text, k, s, j)
    decreases |text| - i
  {
    var k := NextOpen(o, text, i);
    if k == |text| {
      NoneFrom(o, text, i);
    } else {
      var j := Closing(o, text, k);
      OneFrom(o, text, i, k, j);
      if j == |text| {
        FindsExpandable(o, text, k + 1);
      }
    }
  }

  /** Text whose braces are unmatched, or have neither a comma nor `..` at their own level,
      is returned unchanged. */
  lemma LeftAlone(o: Outside, text: string)
    requires Unquoted(text) && forall k, s, j :: !Expandable(text, k, s, j)
    ensures BraceExpand(o, text) == [text]
  {
    FindsExpandable(o, text, 0);
  }
}
