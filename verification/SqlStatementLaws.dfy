/** What the splitter promises: a grammar of accepted texts, re-reading, and a creation mode that only refuses. */
module SqlStatementLaws {
  import opened Basics
  import opened SqlText
  import opened SqlSplitter

  // ---- The grammar: blank text, statement, blank text, statement, ..., blank text ----

  /** White space, comments and (for dumps) psql commands only. A `closed` text does not end inside a line
  comment or an unfinished command, so that what follows it is read on its own. */
  ghost predicate IsBlank(g: string, closed: bool, mode: Mode)
    decreases |g|
  {
    g == "" ||
    var n := BlankAt(false, g, mode);
    && n.Found? && n.len > 0
    && (closed && n.len == |g| ==> IsSpace(g[0]) || StartsWith(g, "/*") || g[n.len - 1] == '\n')
    && IsBlank(g[n.len..], closed, mode)
  }

  /** `s` is read to its very last character, which ends a statement. */
  ghost predicate ClosesAtEnd(before: string, open: bool, s: string, mode: Mode)
    decreases |s|
  {
    s != "" &&
    match StepAt(before, open, s, mode)
    case Refuse(_) => false
    case Blank(n) => n < |s| && ClosesAtEnd(before + s[..n], open, s[n..], mode)
    case Code(n) => n < |s| && ClosesAtEnd(before + s[..n], true, s[n..], mode)
    case End => |s| == 1 || ClosesAtEnd(before + ";", false, s[1..], mode)
  }

  /** One statement: its first character is statement text, and re-reading it yields exactly itself. */
  ghost predicate IsStatement(x: string, mode: Mode) {
    && x != ""
    && BlankAt(false, x, mode) == Found(0)
    && ClosesAtEnd("", false, x, mode)
    && Split(x, mode) == Ok([x])
  }

  ghost function Weave(gaps: seq<string>, statements: seq<string>): string
    requires |gaps| == |statements| + 1
  {
    if statements == [] then gaps[0]
    else gaps[0] + (statements[0] + Weave(gaps[1..], statements[1..]))
  }

  ghost predicate Segmentation(sql: string, gaps: seq<string>, statements: seq<string>, mode: Mode) {
    && |gaps| == |statements| + 1
    && sql == Weave(gaps, statements)
    && (forall i :: 0 <= i < |gaps| ==> IsBlank(gaps[i], i < |statements|, mode))
    && (forall i :: 0 <= i < |statements| ==> IsStatement(statements[i], mode))
  }

  function Concat(statements: seq<string>): string {
    if statements == [] then "" else statements[0] + Concat(statements[1..])
  }

  // ---- One step depends only on the text it reads ----

  lemma {:induction false} QuoteExtend(s: string, t: string, quote: char, mode: Mode)
    requires QuoteLength(s, quote, mode).Found? && QuoteLength(s, quote, mode).len < |s|
    ensures QuoteLength(s + t, quote, mode) == QuoteLength(s, quote, mode)
    decreases |s|
  {
    assert (s + t)[0] == s[0] && (s + t)[1] == s[1];
    if s[0] == '\\' || (s[0] == quote && s[1] == quote) {
      assert (s + t)[2..] == s[2..] + t;
      QuoteExtend(s[2..], t, quote, mode);
    } else if s[0] != quote {
      assert (s + t)[1..] == s[1..] + t;
      QuoteExtend(s[1..], t, quote, mode);
    }
  }

  lemma {:induction false} QuoteRestrict(s: string, t: string, quote: char, mode: Mode)
    requires QuoteLength(s + t, quote, mode).Found? && QuoteLength(s + t, quote, mode).len <= |s|
    ensures QuoteLength(s, quote, mode) == QuoteLength(s + t, quote, mode)
    decreases |s|
  {
    var whole := s + t;
    assert whole[0] == s[0];
    if s[0] == '\\' || (s[0] == quote && |whole| > 1 && whole[1] == quote) {
      assert whole[2..] == s[2..] + t;
      QuoteRestrict(s[2..], t, quote, mode);
    } else if s[0] != quote {
      assert whole[1..] == s[1..] + t;
      QuoteRestrict(s[1..], t, quote, mode);
    }
  }

  lemma {:induction false} AlnumLocal(s: string, t: string)
    ensures AlnumLength(s) < |s| ==> AlnumLength(s + t) == AlnumLength(s)
    ensures AlnumLength(s + t) <= |s| ==> AlnumLength(s) == AlnumLength(s + t)
    decreases |s|
  {
    if s != "" {
      assert (s + t)[1..] == s[1..] + t;
      AlnumLocal(s[1..], t);
    }
  }

  lemma StartsLocal(s: string, t: string, p: string)
    requires |p| <= |s|
    ensures StartsWith(s, p) == StartsWith(s + t, p)
  {
    assert (s + t)[..|p|] == s[..|p|];
  }

  /** The two command words differ in their second letter. */
  lemma DumpWordLetters(s: string)
    ensures DumpWord(s) > 0 ==> s[0] == '\\' && s[1] == if DumpWord(s) == 12 then 'u' else 'r'
    ensures DumpWord(s) == 12 <==> StartsWith(s, "\\unrestrict ")
    ensures DumpWord(s) == 10 <==> StartsWith(s, "\\restrict ")
  {
    if StartsWith(s, "\\unrestrict ") { assert s[..12][0] == s[0] && s[..12][1] == s[1]; }
    if StartsWith(s, "\\restrict ") { assert s[..10][0] == s[0] && s[..10][1] == s[1]; }
  }

  lemma DumpWordLocal(s: string, t: string)
    ensures DumpWord(s) > 0 ==> DumpWord(s + t) == DumpWord(s)
    ensures 0 < DumpWord(s + t) <= |s| ==> DumpWord(s) == DumpWord(s + t)
  {
    DumpWordLetters(s);
    DumpWordLetters(s + t);
    hide *;
    if |s| >= 10 { StartsLocal(s, t, "\\restrict "); }
    if |s| >= 12 { StartsLocal(s, t, "\\unrestrict "); }
    DumpWordLong(s);
    DumpWordLong(s + t);
    if |s| > 1 { assert (s + t)[1] == s[1]; }
  }

  lemma DumpWordLong(s: string)
    ensures DumpWord(s) == 0 || (DumpWord(s) == 10 && |s| >= 10) || (DumpWord(s) == 12 && |s| >= 12)
  {
    hide StartsWith;
  }

  lemma DumpEndLocal(s: string, t: string, end: nat)
    requires end <= |s|
    ensures DumpEnd(s, end).Some? && end < |s| ==> DumpEnd(s + t, end) == DumpEnd(s, end)
    ensures DumpEnd(s + t, end).Some? && DumpEnd(s + t, end).value <= |s| ==> DumpEnd(s, end) == DumpEnd(s + t, end)
  {
    if end < |s| { assert (s + t)[end] == s[end]; }
    if end + 1 < |s| { assert (s + t)[end + 1] == s[end + 1]; }
  }

  lemma DumpCommandExtend(s: string, t: string)
    requires DumpCommandLength(s).Some? && s[DumpCommandLength(s).value - 1] == '\n'
    ensures DumpCommandLength(s + t) == DumpCommandLength(s)
  {
    var word := DumpWord(s);
    DumpWordLocal(s, t);
    hide DumpWord, AlnumLength;
    assert (s + t)[word..] == s[word..] + t;
    AlnumLocal(s[word..], t);
    var end := word + AlnumLength(s[word..]);
    AlnumStops(s[word..]);
    assert end < |s|;
    DumpEndLocal(s, t, end);
    hide DumpEnd;
  }

  lemma {:induction false} AlnumStops(s: string)
    ensures forall i :: 0 <= i < AlnumLength(s) ==> IsWordPart(s[i])
    decreases |s|
  {
    if s != "" && IsWordPart(s[0]) && s[0] != '_' { AlnumStops(s[1..]); }
  }

  lemma DumpCommandRestrict(s: string, t: string)
    requires DumpCommandLength(s + t).Some? && DumpCommandLength(s + t).value <= |s|
    ensures DumpCommandLength(s) == DumpCommandLength(s + t)
  {
    var whole := s + t;
    var word := DumpWord(whole);
    DumpWordLocal(s, t);
    hide DumpWord, AlnumLength, DumpEnd;
    assert whole[word..] == s[word..] + t;
    AlnumLocal(s[word..], t);
    DumpEndLocal(s, t, word + AlnumLength(whole[word..]));
  }

  lemma BlankExtend(open: bool, s: string, t: string, mode: Mode)
    requires s != "" && BlankAt(open, s, mode).Found?
    requires
      var n := BlankAt(open, s, mode).len;
      if n == 0 then |s| >= 2 || s[0] == ';'
      else n < |s| || IsSpace(s[0]) || StartsWith(s, "/*") || s[n - 1] == '\n'
    ensures BlankAt(open, s + t, mode) == BlankAt(open, s, mode)
  {
    var whole := s + t;
    assert whole[0] == s[0];
    if |s| >= 2 {
      StartsLocal(s, t, "--");
      StartsLocal(s, t, "/*");
      assert whole[2..] == s[2..] + t;
    }
    if mode.dump && !open && s[0] == '\\' {
      DumpCommandEnds(s);
      DumpCommandExtend(s, t);
    } else if StartsWith(s, "--") {
      LineLocal(s, t);
      LineSkips(s);
    } else if StartsWith(s, "/*") {
      CommentLocal(s[2..], t, 1, mode.creation);
    }
  }

  lemma BlankRestrict(open: bool, s: string, t: string, mode: Mode)
    requires s != "" && BlankAt(open, s + t, mode).Found? && BlankAt(open, s + t, mode).len <= |s|
    ensures BlankAt(open, s, mode) == BlankAt(open, s + t, mode)
  {
    var whole := s + t;
    assert whole[0] == s[0];
    if |s| >= 2 {
      StartsLocal(s, t, "--");
      StartsLocal(s, t, "/*");
      assert whole[2..] == s[2..] + t;
    }
    if mode.dump && !open && s[0] == '\\' {
      DumpCommandRestrict(s, t);
    } else if StartsWith(whole, "--") {
      LineAtLeastTwo(whole);
      LineLocal(s, t);
    } else if StartsWith(whole, "/*") {
      CommentLocal(s[2..], t, 1, mode.creation);
    }
  }

  lemma LineAtLeastTwo(s: string)
    requires StartsWith(s, "--")
    ensures LineLength(s) >= 2
  {
    assert s[0] == '-' && s[1] == '-' && s[1..][0] == '-';
  }

  lemma {:induction false} LineSkips(s: string)
    ensures forall i :: 0 <= i < LineLength(s) ==> s[i] != '\n'
    decreases |s|
  {
    if s != "" && s[0] != '\n' { LineSkips(s[1..]); }
  }

  lemma DumpCommandEnds(s: string)
    requires DumpCommandLength(s).Some?
    ensures DumpCommandLength(s).value == |s| || s[DumpCommandLength(s).value - 1] == '\n'
    ensures !StartsWith(s, "/*") && !IsSpace(s[0])
  {
    DumpWordLetters(s);
    hide DumpWord, AlnumLength;
    if |s| >= 2 { assert s[..2][0] == s[0]; }
  }

  lemma CodeExtend(before: string, s: string, t: string, mode: Mode)
    requires !mode.creation && s != "" && s[|s| - 1] == ';'
    requires var step := CodeAt(before, s, mode); step.End? || (step.Code? && step.len < |s|)
    ensures CodeAt(before, s + t, mode) == CodeAt(before, s, mode)
  {
    var whole := s + t;
    assert whole[0] == s[0] && whole[1..] == s[1..] + t;
    if s[0] == '\'' || s[0] == '"' {
      QuoteExtend(s[1..], t, s[0], mode);
    } else if s[0] == '$' {
      assert s[1..][|s| - 2] == ';';
      WordLocal(s[1..], t);
      TagLocal(s, t);
      assert TagLength(whole) == TagLength(s);
      if TagLength(s).Some? { BodyLocal(s, t, TagLength(s).value); }
    }
  }

  lemma CodeRestrict(before: string, s: string, t: string, mode: Mode)
    requires !mode.creation && s != ""
    requires var step := CodeAt(before, s + t, mode); step.End? || (step.Code? && step.len <= |s|)
    ensures CodeAt(before, s, mode) == CodeAt(before, s + t, mode)
  {
    var whole := s + t;
    assert whole[0] == s[0] && whole[1..] == s[1..] + t;
    if s[0] == '\'' || s[0] == '"' {
      QuoteRestrict(s[1..], t, s[0], mode);
    } else if s[0] == '$' {
      TagLocal(s, t);
      if DollarTag(before, whole, mode).Some? {
        BodyLocal(s, t, TagLength(whole).value);
      }
    }
  }

  // ---- Cutting one statement out of a text ----

  /** All that the text already read can tell a step outside creation mode. */
  predicate SameContext(before: string, before': string, mode: Mode) {
    mode.ascii ==> EndsIdentifier(before) == EndsIdentifier(before')
  }

  lemma CutStatement(open: string, before: string, before': string, s: string, mode: Mode) returns (k: nat)
    requires !mode.creation && open != "" && SplitFrom(open, before, s, mode).Ok?
    requires SameContext(before, before', mode)
    ensures 0 < k <= |s|
    ensures SplitFrom(open, before, s, mode)
      == Prepend(open + s[..k], SplitFrom("", before + s[..k], s[k..], mode))
    ensures s[k - 1] == ';'
    ensures SplitFrom(open, before', s[..k], mode) == Ok([open + s[..k]])
    ensures ClosesAtEnd(before', true, s[..k], mode)
    decreases |s|
  {
    hide *;
    var step := StepInside(open, before, s, mode);
    if step.End? {
      k := 1;
      CutHere(open, before, before', s, mode);
    } else {
      var n := step.len;
      SameEnd(before, before', s[..n], mode);
      var j := CutStatement(open + s[..n], before + s[..n], before' + s[..n], s[n..], mode);
      k := n + j;
      CutLater(open, before, before', s, n, j, mode);
    }
  }

  lemma SameEnd(before: string, before': string, x: string, mode: Mode)
    requires x != ""
    ensures SameContext(before + x, before' + x, mode)
    ensures SameContext(before + x, x, mode)
  {
  }

  lemma StepInside(open: string, before: string, s: string, mode: Mode) returns (step: Step)
    requires open != "" && SplitFrom(open, before, s, mode).Ok?
    ensures s != "" && step == StepAt(before, true, s, mode)
    ensures step.End? || step == Blank(step.len) || step == Code(step.len)
    ensures !step.End? ==> 0 < step.len <= |s|
    ensures !step.End? ==>
      SplitFrom(open, before, s, mode) == SplitFrom(open + s[..step.len], before + s[..step.len], s[step.len..], mode)
  {
    step := StepAt(before, true, s, mode);
  }

  lemma CutLater(open: string, before: string, before': string, s: string, n: nat, j: nat, mode: Mode)
    requires !mode.creation && open != "" && 0 < n && 0 < j && n + j <= |s|
    requires SameContext(before, before', mode)
    requires var step := StepAt(before, true, s, mode); step == Blank(n) || step == Code(n)
    requires SplitFrom(open + s[..n], before' + s[..n], s[n..][..j], mode) == Ok([(open + s[..n]) + s[n..][..j]])
    requires ClosesAtEnd(before' + s[..n], true, s[n..][..j], mode)
    requires SplitFrom(open, before, s, mode)
      == Prepend((open + s[..n]) + s[n..][..j], SplitFrom("", (before + s[..n]) + s[n..][..j], s[n..][j..], mode))
    requires s[n..][j - 1] == ';'
    ensures SplitFrom(open, before', s[..n + j], mode) == Ok([open + s[..n + j]])
    ensures ClosesAtEnd(before', true, s[..n + j], mode)
    ensures SplitFrom(open, before, s, mode) == Prepend(open + s[..n + j], SplitFrom("", before + s[..n + j], s[n + j..], mode))
    ensures s[n + j - 1] == ';'
  {
    hide *;
    var cut := s[..n + j];
    assert cut + s[n + j..] == s;
    SliceTwice(s, n, j);
    GrowTwice(open, s, n, j);
    GrowTwice(before, s, n, j);
    RestrictStep(before, before', true, cut, s[n + j..], mode);
    UnfoldInside(open, before, s, n, mode);
    UnfoldInside(open, before', cut, n, mode);
  }

  lemma UnfoldInside(open: string, before: string, s: string, n: nat, mode: Mode)
    requires open != "" && 0 < n <= |s|
    requires StepAt(before, true, s, mode) == Blank(n) || StepAt(before, true, s, mode) == Code(n)
    ensures SplitFrom(open, before, s, mode) == SplitFrom(open + s[..n], before + s[..n], s[n..], mode)
    ensures n < |s| && ClosesAtEnd(before + s[..n], true, s[n..], mode) ==> ClosesAtEnd(before, true, s, mode)
  {
  }

  lemma CutHere(open: string, before: string, before': string, s: string, mode: Mode)
    requires !mode.creation && open != "" && s != "" && StepAt(before, true, s, mode).End?
    requires SameContext(before, before', mode)
    ensures s[..1] == ";"
    ensures SplitFrom(open, before, s, mode) == Prepend(open + s[..1], SplitFrom("", before + s[..1], s[1..], mode))
    ensures SplitFrom(open, before', s[..1], mode) == Ok([open + s[..1]])
    ensures ClosesAtEnd(before', true, s[..1], mode)
  {
    assert s[..1] == ";" && s[..1] + s[1..] == s;
    RestrictStep(before, before', true, s[..1], s[1..], mode);
    assert s[..1][1..] == "" && [open + s[..1]] + [] == [open + s[..1]];
  }

  lemma RestrictStep(before: string, before': string, open: bool, s: string, t: string, mode: Mode)
    requires !mode.creation && s != "" && SameContext(before, before', mode)
    requires
      match StepAt(before, open, s + t, mode)
      case Refuse(_) => false
      case Blank(n) => n <= |s|
      case Code(n) => n <= |s|
      case End => true
    ensures StepAt(before', open, s, mode) == StepAt(before, open, s + t, mode)
  {
    BlankRestrict(open, s, t, mode);
    if StepAt(before, open, s + t, mode).Code? || StepAt(before, open, s + t, mode).End? {
      CodeRestrict(before, s, t, mode);
    }
  }

  // ---- Text after a finished statement is read on its own ----

  lemma {:induction false} ClosedEndsInSemicolon(before: string, open: bool, s: string, mode: Mode)
    requires ClosesAtEnd(before, open, s, mode)
    ensures s != "" && s[|s| - 1] == ';'
    decreases |s|
  {
    match StepAt(before, open, s, mode)
    case Blank(n) => ClosedEndsInSemicolon(before + s[..n], open, s[n..], mode);
    case Code(n) => ClosedEndsInSemicolon(before + s[..n], true, s[n..], mode);
    case End => if |s| > 1 { ClosedEndsInSemicolon(before + ";", false, s[1..], mode); }
  }

  lemma ExtendStep(before: string, before': string, open: bool, s: string, t: string, mode: Mode)
    requires !mode.creation && SameContext(before, before', mode)
    requires ClosesAtEnd(before, open, s, mode)
    ensures StepAt(before', open, s + t, mode) == StepAt(before, open, s, mode)
  {
    ClosedEndsInSemicolon(before, open, s, mode);
    BlankExtend(open, s, t, mode);
    if StepAt(before, open, s, mode).Code? || StepAt(before, open, s, mode).End? {
      CodeExtend(before, s, t, mode);
    }
  }

  /** Reading `s + t`, when `s` finishes a statement, reads `s` and then `t`. Only the identifier-adjacency of the
  text before matters. */
  lemma {:induction false} ReadOn(open: string, before: string, before': string, s: string, t: string, mode: Mode)
    requires !mode.creation && SameContext(before, before', mode)
    requires ClosesAtEnd(before, open != "", s, mode)
    requires SplitFrom(open, before, s, mode).Ok?
    ensures SplitFrom(open, before', s + t, mode)
      == Join(SplitFrom(open, before, s, mode).value, SplitFrom("", before' + s, t, mode))
    decreases |s|
  {
    var step := StepAt(before, open != "", s, mode);
    ExtendStep(before, before', open != "", s, t, mode);
    hide StepAt, CodeAt, BlankAt;
    if step.End? {
      if |s| > 1 { ReadOn("", before + ";", before' + ";", s[1..], t, mode); }
      ReadOnEnd(open, before, before', s, t, mode);
    } else {
      var n := step.len;
      var open' := if step.Blank? && open == "" then "" else open + s[..n];
      ReadOn(open', before + s[..n], before' + s[..n], s[n..], t, mode);
      ReadOnStep(open, open', before, before', s, t, mode, n);
    }
  }

  lemma ReadOnStep(open: string, open': string, before: string, before': string, s: string, t: string, mode: Mode, n: nat)
    requires 0 < n < |s| && SplitFrom(open, before, s, mode).Ok?
    requires var step := StepAt(before, open != "", s, mode);
      (step == Blank(n) && open' == if open == "" then "" else open + s[..n]) || (step == Code(n) && open' == open + s[..n])
    requires StepAt(before', open != "", s + t, mode) == StepAt(before, open != "", s, mode)
    requires SplitFrom(open', before + s[..n], s[n..], mode).Ok? ==>
      SplitFrom(open', before' + s[..n], s[n..] + t, mode)
        == Join(SplitFrom(open', before + s[..n], s[n..], mode).value, SplitFrom("", (before' + s[..n]) + s[n..], t, mode))
    ensures SplitFrom(open, before', s + t, mode)
      == Join(SplitFrom(open, before, s, mode).value, SplitFrom("", before' + s, t, mode))
  {
    hide StepAt;
    assert (s + t)[n..] == s[n..] + t && (s + t)[..n] == s[..n];
    assert before' + s == (before' + s[..n]) + s[n..];
    assert SplitFrom(open, before, s, mode) == SplitFrom(open', before + s[..n], s[n..], mode);
  }

  lemma ReadOnEnd(open: string, before: string, before': string, s: string, t: string, mode: Mode)
    requires s != "" && SplitFrom(open, before, s, mode).Ok?
    requires StepAt(before, open != "", s, mode).End? && StepAt(before', open != "", s + t, mode).End?
    requires |s| > 1 ==>
      SplitFrom("", before' + ";", s[1..] + t, mode)
        == Join(SplitFrom("", before + ";", s[1..], mode).value, SplitFrom("", (before' + ";") + s[1..], t, mode))
    ensures SplitFrom(open, before', s + t, mode)
      == Join(SplitFrom(open, before, s, mode).value, SplitFrom("", before' + s, t, mode))
  {
    hide StepAt;
    var whole := s + t;
    var rest := SplitFrom("", before' + s, t, mode);
    var later := SplitFrom("", before + ";", s[1..], mode).value;
    JoinFirst(open + ";", later, rest);
    assert SplitFrom("", before' + ";", whole[1..], mode) == Join(later, rest) by {
      assert whole[1..] == s[1..] + t;
      assert before' + s == (before' + ";") + s[1..];
      if |s| == 1 {
        assert s[1..] + t == t && before' + s == before' + ";";
        JoinNone(rest);
      }
    }
  }

  lemma JoinFirst(first: string, statements: seq<string>, rest: Result<seq<string>>)
    ensures Prepend(first, Join(statements, rest)) == Join([first] + statements, rest)
  {
    if rest.Ok? { assert [first] + (statements + rest.value) == ([first] + statements) + rest.value; }
  }

  // ---- Accepted texts are exactly the segmented ones ----

  /** Nothing before a statement's first character can turn a dollar there into part of an identifier. */
  predicate AtBoundary(before: string, s: string, mode: Mode) {
    mode.ascii && EndsIdentifier(before) ==> s == "" || s[0] == '\n'
  }

  lemma {:induction false} CommentEnds(s: string, depth: nat)
    requires depth > 0 && CommentLength(s, depth, false).Found?
    ensures CommentLength(s, depth, false).len > 0 && s[CommentLength(s, depth, false).len - 1] == '/'
    decreases |s|
  {
    if StartsWith(s, "/*") {
      CommentEnds(s[2..], depth + 1);
    } else if StartsWith(s, "*/") {
      assert s[..2][1] == '/';
      if depth > 1 { CommentEnds(s[2..], depth - 1); }
    } else {
      CommentEnds(s[1..], depth);
    }
  }

  lemma BlankKeepsBoundary(before: string, s: string, mode: Mode)
    requires !mode.creation && s != "" && AtBoundary(before, s, mode)
    requires BlankAt(false, s, mode).Found? && BlankAt(false, s, mode).len > 0
    ensures var n := BlankAt(false, s, mode).len; AtBoundary(before + s[..n], s[n..], mode)
  {
    var n := BlankAt(false, s, mode).len;
    if mode.ascii && !IsSpace(s[0]) {
      if StartsWith(s, "/*") { CommentEnds(s[2..], 1); }
      if mode.dump && s[0] == '\\' { DumpCommandEnds(s); }
    }
  }

  lemma AfterCode(before: string, s: string, mode: Mode, n: nat)
    requires s != "" && StepAt(before, false, s, mode) == Code(n)
    ensures SplitFrom("", before, s, mode) == SplitFrom(s[..n], before + s[..n], s[n..], mode)
  {
    assert "" + s[..n] == s[..n];
  }

  lemma AfterEnd(before: string, s: string, mode: Mode)
    requires s != "" && StepAt(before, false, s, mode).End?
    ensures s[..1] == ";"
    ensures SplitFrom("", before, s, mode) == Prepend(s[..1], SplitFrom("", before + s[..1], s[1..], mode))
  {
    assert s[..1] == ";" && "" + ";" == s[..1];
  }

  /** A statement begins at the start of `s`: cut it out. */
  lemma FirstStatement(before: string, s: string, mode: Mode) returns (k: nat)
    requires !mode.creation && s != "" && AtBoundary(before, s, mode)
    requires BlankAt(false, s, mode) == Found(0) && SplitFrom("", before, s, mode).Ok?
    ensures 0 < k <= |s| && IsStatement(s[..k], mode)
    ensures SplitFrom("", before, s, mode) == Prepend(s[..k], SplitFrom("", before + s[..k], s[k..], mode))
    ensures AtBoundary(before + s[..k], s[k..], mode)
  {
    hide *;
    var step := StepFirst(before, s, mode);
    if step.End? {
      k := 1;
      AfterEnd(before, s, mode);
      SemicolonIsStatement(mode);
    } else {
      var n := step.len;
      AfterCode(before, s, mode, n);
      SameEnd(before, "", s[..n], mode);
      var j := CutStatement(s[..n], before + s[..n], s[..n], s[n..], mode);
      k := n + j;
      FirstLater(before, s, n, j, mode);
      CodeIsStatement(before, s, n, j, mode);
    }
    SemicolonBoundary(before, s[..k], s[k..], mode);
  }

  lemma StepFirst(before: string, s: string, mode: Mode) returns (step: Step)
    requires s != "" && BlankAt(false, s, mode) == Found(0) && SplitFrom("", before, s, mode).Ok?
    ensures step == CodeAt(before, s, mode) == StepAt(before, false, s, mode)
    ensures step.End? || (step == Code(step.len) && 0 < step.len <= |s|)
  {
    hide BlankAt;
    step := CodeAt(before, s, mode);
  }

  lemma FirstLater(before: string, s: string, n: nat, j: nat, mode: Mode)
    requires 0 < n && 0 < j && n + j <= |s|
    requires SplitFrom("", before, s, mode) == SplitFrom(s[..n], before + s[..n], s[n..], mode)
    requires SplitFrom(s[..n], before + s[..n], s[n..], mode)
      == Prepend(s[..n] + s[n..][..j], SplitFrom("", (before + s[..n]) + s[n..][..j], s[n..][j..], mode))
    requires s[n..][j - 1] == ';'
    ensures SplitFrom("", before, s, mode) == Prepend(s[..n + j], SplitFrom("", before + s[..n + j], s[n + j..], mode))
    ensures s[..n + j][n + j - 1] == ';'
  {
    hide *;
    assert s[..n] + s[n..][..j] == s[..n + j];
    GrowTwice(before, s, n, j);
    SliceTwice(s, n, j);
  }

  lemma SemicolonBoundary(before: string, x: string, rest: string, mode: Mode)
    requires x != "" && x[|x| - 1] == ';'
    ensures AtBoundary(before + x, rest, mode)
  {
  }

  lemma SemicolonIsStatement(mode: Mode)
    requires !mode.creation
    ensures IsStatement(";", mode)
  {
    var x := ";";
    AfterEnd("", x, mode);
    assert x[1..] == "" && x[..1] == x && [x] + [] == [x];
  }

  lemma CodeIsStatement(before: string, s: string, n: nat, j: nat, mode: Mode)
    requires !mode.creation && 0 < n && 0 < j && n + j <= |s| && AtBoundary(before, s, mode)
    requires BlankAt(false, s, mode) == Found(0) && CodeAt(before, s, mode) == Code(n)
    requires SplitFrom(s[..n], s[..n], s[n..][..j], mode) == Ok([s[..n] + s[n..][..j]])
    requires ClosesAtEnd(s[..n], true, s[n..][..j], mode)
    ensures IsStatement(s[..n + j], mode)
    ensures s[..n] + s[n..][..j] == s[..n + j]
  {
    var x, y := s[..n + j], s[n + j..];
    assert StepAt("", false, s, mode) == StepAt(before, false, s, mode) == Code(n);
    assert s[..n] != "" && SameContext("", "", mode);
    hide *;
    assert x != "" && x + y == s;
    RestrictStep("", "", false, x, y, mode);
    BlankRestrict(false, x, y, mode);
    SliceTwice(s, n, j);
    assert s[..n] + s[n..][..j] == x;
    StatementFromCode(x, n, mode);
  }

  lemma StatementFromCode(x: string, n: nat, mode: Mode)
    requires 0 < n < |x| && BlankAt(false, x, mode) == Found(0) && StepAt("", false, x, mode) == Code(n)
    requires SplitFrom(x[..n], x[..n], x[n..], mode) == Ok([x])
    requires ClosesAtEnd(x[..n], true, x[n..], mode)
    ensures IsStatement(x, mode)
  {
    hide BlankAt, StepAt;
    assert "" + x[..n] == x[..n];
  }

  /** Every accepted text is blank text and statements in turn, and each statement is a statement by itself. */
  lemma {:induction false} Segment(before: string, s: string, mode: Mode) returns (gaps: seq<string>)
    requires !mode.creation && AtBoundary(before, s, mode) && SplitFrom("", before, s, mode).Ok?
    ensures Segmentation(s, gaps, SplitFrom("", before, s, mode).value, mode)
    decreases |s|
  {
    var all := SplitFrom("", before, s, mode).value;
    if s == "" {
      gaps := [""];
    } else if BlankAt(false, s, mode).len > 0 {
      var n := BlankAt(false, s, mode).len;
      BlankKeepsBoundary(before, s, mode);
      var rest := Segment(before + s[..n], s[n..], mode);
      gaps := [s[..n] + rest[0]] + rest[1..];
      PrependBlank(s, n, rest, all, mode);
    } else {
      var k := FirstStatement(before, s, mode);
      var rest := Segment(before + s[..k], s[k..], mode);
      gaps := [""] + rest;
      assert gaps[1..] == rest && all[1..] == SplitFrom("", before + s[..k], s[k..], mode).value;
      assert s == "" + (s[..k] + s[k..]);
    }
  }

  lemma OpenSegmentation(s: string, gaps: seq<string>, statements: seq<string>, mode: Mode)
    requires Segmentation(s, gaps, statements, mode)
    ensures |gaps| == |statements| + 1 && s == Weave(gaps, statements) && IsBlank(gaps[0], statements != [], mode)
    ensures statements != [] ==> IsStatement(statements[0], mode)
  {
    hide IsBlank, IsStatement, Weave;
  }

  /** Another first gap, and with it another text. */
  lemma ChangeGap(s: string, gaps: seq<string>, s': string, gap: string, statements: seq<string>, mode: Mode)
    requires Segmentation(s, gaps, statements, mode)
    requires s' == Weave([gap] + gaps[1..], statements) && IsBlank(gap, statements != [], mode)
    ensures Segmentation(s', [gap] + gaps[1..], statements, mode)
  {
    hide IsBlank, IsStatement, Weave;
    var changed := [gap] + gaps[1..];
    assert forall i :: 0 < i < |changed| ==> changed[i] == gaps[i];
  }

  lemma PrependBlank(s: string, n: nat, rest: seq<string>, statements: seq<string>, mode: Mode)
    requires !mode.creation && 0 < n <= |s| && BlankAt(false, s, mode) == Found(n)
    requires Segmentation(s[n..], rest, statements, mode)
    ensures Segmentation(s, [s[..n] + rest[0]] + rest[1..], statements, mode)
  {
    hide *;
    OpenSegmentation(s[n..], rest, statements, mode);
    if statements != [] { StatementStarts(statements[0], mode); }
    var tail := AfterFirst(rest, statements);
    WeaveSplits(rest, statements);
    AfterFirstStarts(rest, statements);
    WeavePrepend(s[..n], rest, statements);
    assert s[..n] + s[n..] == s;
    GrowBlank(s, n, rest[0], tail, statements != [], mode);
    ChangeGap(s[n..], rest, s, s[..n] + rest[0], statements, mode);
  }

  lemma AfterFirstStarts(gaps: seq<string>, statements: seq<string>)
    requires |gaps| == |statements| + 1
    ensures statements != [] && statements[0] != "" ==>
      AfterFirst(gaps, statements) != "" && AfterFirst(gaps, statements)[0] == statements[0][0]
  {
    hide Weave;
  }

  lemma WeavePrepend(b: string, rest: seq<string>, statements: seq<string>)
    requires |rest| == |statements| + 1
    ensures Weave([b + rest[0]] + rest[1..], statements) == b + Weave(rest, statements)
  {
    hide *;
    var gaps := [b + rest[0]] + rest[1..];
    assert gaps[1..] == rest[1..] && gaps[0] == b + rest[0];
    WeaveSplits(rest, statements);
    WeaveSplits(gaps, statements);
    SameAfterFirst(rest, gaps, statements);
    JoinedAgain(b, rest[0], AfterFirst(rest, statements));
  }

  lemma JoinedAgain(a: string, b: string, c: string)
    ensures (a + b) + c == a + (b + c)
  {
  }

  lemma SameAfterFirst(a: seq<string>, b: seq<string>, statements: seq<string>)
    requires |a| == |b| == |statements| + 1 && a[1..] == b[1..]
    ensures AfterFirst(a, statements) == AfterFirst(b, statements)
  {
    hide Weave;
  }

  /** What follows the first gap. */
  ghost function AfterFirst(gaps: seq<string>, statements: seq<string>): string
    requires |gaps| == |statements| + 1
  {
    if statements == [] then "" else statements[0] + Weave(gaps[1..], statements[1..])
  }

  lemma WeaveSplits(gaps: seq<string>, statements: seq<string>)
    requires |gaps| == |statements| + 1
    ensures Weave(gaps, statements) == gaps[0] + AfterFirst(gaps, statements)
  {
    if statements == [] { assert gaps[0] + "" == gaps[0]; }
  }

  lemma StatementStarts(x: string, mode: Mode)
    requires IsStatement(x, mode)
    ensures x != "" && !IsSpace(x[0]) && (mode.dump ==> x[0] != '\\')
  {
  }

  lemma GrowBlank(s: string, n: nat, gap: string, tail: string, closed: bool, mode: Mode)
    requires !mode.creation && 0 < n <= |s| && BlankAt(false, s, mode) == Found(n)
    requires s[n..] == gap + tail && IsBlank(gap, closed, mode)
    requires closed ==> tail != "" && !IsSpace(tail[0]) && (mode.dump ==> tail[0] != '\\')
    ensures IsBlank(s[..n] + gap, closed, mode)
  {
    hide *;
    var g := s[..n] + gap;
    assert g + tail == s && g[n..] == gap && g[0] == s[0] && g[..n] == s[..n];
    BlankRestrict(false, g, tail, mode);
    BlankEnds(s, n, mode);
    NewlineIsSpace();
    if |g| >= 2 { StartsLocal(g, tail, "/*"); } else { ShortStart(g, "/*"); ShortBlank(s, mode); }
    MakeBlank(g, n, closed, mode);
  }

  lemma NewlineIsSpace()
    ensures IsSpace('\n')
  {
  }

  lemma ShortStart(s: string, p: string)
    requires |s| < |p|
    ensures !StartsWith(s, p)
  {
  }

  lemma SlashStar(s: string)
    ensures StartsWith(s, "/*") ==> |s| >= 2 && s[0] == '/' && !StartsWith(s, "--") && !IsSpace(s[0])
  {
    if StartsWith(s, "/*") { assert s[0] == s[..2][0]; }
  }

  /** A comment takes more than one character. */
  lemma ShortBlank(s: string, mode: Mode)
    requires s != "" && BlankAt(false, s, mode) == Found(1)
    ensures !StartsWith(s, "/*")
  {
    hide CommentLength, LineLength, DumpCommandLength;
    SlashStar(s);
    if mode.dump && s[0] == '\\' { DumpCommandLong(s); }
  }

  lemma DumpCommandLong(s: string)
    ensures DumpCommandLength(s).Some? ==> DumpCommandLength(s).value > 1
  {
    DumpWordLong(s);
    hide DumpWord, AlnumLength;
  }

  /** White space, a comment, and what ends at the end of the text, at a newline or before one. */
  lemma BlankEnds(s: string, n: nat, mode: Mode)
    requires 0 < n <= |s| && BlankAt(false, s, mode) == Found(n)
    ensures IsSpace(s[0]) || StartsWith(s, "/*") || n == |s| || s[n - 1] == '\n' || s[n] == '\n'
  {
    hide CommentLength, DumpCommandLength, IsSpace, StartsWith;
    if mode.dump && s[0] == '\\' && DumpCommandLength(s).Some? { DumpCommandEnds(s); }
  }

  lemma MakeBlank(g: string, n: nat, closed: bool, mode: Mode)
    requires 0 < n <= |g| && BlankAt(false, g, mode) == Found(n) && IsBlank(g[n..], closed, mode)
    requires closed && n == |g| ==> IsSpace(g[0]) || StartsWith(g, "/*") || g[n - 1] == '\n'
    ensures IsBlank(g, closed, mode)
  {
    hide BlankAt, IsSpace, StartsWith;
  }

  lemma AfterBlank(before: string, s: string, n: nat, mode: Mode)
    requires 0 < n <= |s| && BlankAt(false, s, mode) == Found(n)
    ensures SplitFrom("", before, s, mode) == SplitFrom("", before + s[..n], s[n..], mode)
  {
    hide BlankAt;
  }

  lemma NothingLeft(before: string, mode: Mode)
    ensures SplitFrom("", before, "", mode) == Ok([])
  {
  }

  /** Without its empty first gap and its first statement a text is laid out as the rest. */
  lemma RestSegmentation(s: string, gaps: seq<string>, statements: seq<string>, mode: Mode)
    requires Segmentation(s, gaps, statements, mode) && gaps[0] == "" && statements != []
    ensures |gaps| > 1 && s == statements[0] + Weave(gaps[1..], statements[1..])
    ensures Segmentation(Weave(gaps[1..], statements[1..]), gaps[1..], statements[1..], mode)
  {
    hide IsBlank, IsStatement;
    var rest := statements[0] + Weave(gaps[1..], statements[1..]);
    assert "" + rest == rest;
  }

  lemma {:induction false} SegmentedIsAccepted(before: string, s: string, gaps: seq<string>, statements: seq<string>, mode: Mode)
    requires !mode.creation && AtBoundary(before, s, mode) && Segmentation(s, gaps, statements, mode)
    ensures SplitFrom("", before, s, mode) == Ok(statements)
    decreases |s|
  {
    hide *;
    OpenSegmentation(s, gaps, statements, mode);
    if gaps[0] != "" {
      var n, rest := DropBlank(s, gaps, statements, mode);
      BlankKeepsBoundary(before, s, mode);
      SegmentedIsAccepted(before + s[..n], s[n..], rest, statements, mode);
      AfterBlank(before, s, n, mode);
    } else if statements != [] {
      RestSegmentation(s, gaps, statements, mode);
      var x, rest := statements[0], Weave(gaps[1..], statements[1..]);
      StatementStarts(x, mode);
      NewlineIsSpace();
      AcceptFirst(before, x, rest, mode);
      SegmentedIsAccepted(before + x, rest, gaps[1..], statements[1..], mode);
      PrependIs(x, statements[1..]);
      assert [x] + statements[1..] == statements;
    } else {
      WeaveSplits(gaps, statements);
      AfterNone(gaps, statements);
      NothingLeft(before, mode);
    }
  }

  lemma PrependIs(x: string, statements: seq<string>)
    ensures Prepend(x, Ok(statements)) == Ok([x] + statements)
  {
  }

  lemma DropBlank(s: string, gaps: seq<string>, statements: seq<string>, mode: Mode) returns (n: nat, rest: seq<string>)
    requires !mode.creation && Segmentation(s, gaps, statements, mode) && gaps[0] != ""
    ensures 0 < n <= |s| && BlankAt(false, s, mode) == Found(n)
    ensures Segmentation(s[n..], rest, statements, mode)
  {
    hide *;
    OpenSegmentation(s, gaps, statements, mode);
    var gap, tail := gaps[0], AfterFirst(gaps, statements);
    WeaveSplits(gaps, statements);
    AfterNone(gaps, statements);
    n := BlankHead(gap, statements != [], mode);
    if statements == [] { assert gap + tail == gap; } else { BlankExtend(false, gap, tail, mode); }
    rest := [gap[n..]] + gaps[1..];
    assert rest[1..] == gaps[1..] && rest[0] == gap[n..] && s[n..] == gap[n..] + tail;
    WeaveSplits(rest, statements);
    SameAfterFirst(gaps, rest, statements);
    ChangeGap(s, gaps, s[n..], gap[n..], statements, mode);
  }

  lemma AfterNone(gaps: seq<string>, statements: seq<string>)
    requires |gaps| == |statements| + 1
    ensures statements == [] ==> AfterFirst(gaps, statements) == ""
  {
  }

  lemma BlankHead(gap: string, closed: bool, mode: Mode) returns (n: nat)
    requires IsBlank(gap, closed, mode) && gap != ""
    ensures 0 < n <= |gap| && BlankAt(false, gap, mode) == Found(n) && IsBlank(gap[n..], closed, mode)
    ensures closed && n == |gap| ==> IsSpace(gap[0]) || StartsWith(gap, "/*") || gap[n - 1] == '\n'
  {
    hide BlankAt, IsSpace, StartsWith;
    n := BlankAt(false, gap, mode).len;
  }

  lemma AcceptFirst(before: string, x: string, rest: string, mode: Mode)
    requires !mode.creation && IsStatement(x, mode) && AtBoundary(before, x + rest, mode) && x[0] != '\n'
    ensures AtBoundary(before + x, rest, mode)
    ensures SplitFrom("", before, x + rest, mode) == Prepend(x, SplitFrom("", before + x, rest, mode))
  {
    assert (x + rest)[0] == x[0];
    ClosedEndsInSemicolon("", false, x, mode);
    SemicolonBoundary(before, x, rest, mode);
    ReadOn("", "", before, x, rest, mode);
  }

  /** The splitter accepts exactly the texts made of blank text and statements, and returns those statements. */
  lemma AcceptedTexts(sql: string, statements: seq<string>, mode: Mode)
    requires !mode.creation
    ensures Split(sql, mode) == Ok(statements) <==> exists gaps :: Segmentation(sql, gaps, statements, mode)
  {
    if Split(sql, mode) == Ok(statements) {
      var gaps := Segment("", sql, mode);
    }
    forall gaps | Segmentation(sql, gaps, statements, mode)
      ensures Split(sql, mode) == Ok(statements)
    {
      SegmentedIsAccepted("", sql, gaps, statements, mode);
    }
  }

  /** Callers re-read single statements and concatenations of statements: both give back what the file gave. */
  lemma ReadingAgain(sql: string, mode: Mode)
    requires !mode.creation && Split(sql, mode).Ok?
    ensures
      var statements := Split(sql, mode).value;
      && (forall i :: 0 <= i < |statements| ==> Split(statements[i], mode) == Ok([statements[i]]))
      && Split(Concat(statements), mode) == Ok(statements)
  {
    var gaps := Segment("", sql, mode);
    var statements := Split(sql, mode).value;
    forall i | 0 <= i < |statements|
      ensures Split(statements[i], mode) == Ok([statements[i]])
    {
      assert IsStatement(statements[i], mode);
    }
    var none := NoGaps(statements);
    SegmentedIsAccepted("", Concat(statements), none, statements, mode);
  }

  lemma {:induction false} NoGaps(statements: seq<string>) returns (gaps: seq<string>)
    ensures |gaps| == |statements| + 1 && forall i :: 0 <= i < |gaps| ==> gaps[i] == ""
    ensures Weave(gaps, statements) == Concat(statements)
    decreases |statements|
  {
    if statements == [] {
      gaps := [""];
    } else {
      var rest := NoGaps(statements[1..]);
      gaps := [""] + rest;
      assert gaps[1..] == rest;
      assert "" + (statements[0] + Concat(statements[1..])) == Concat(statements);
    }
  }

  // ---- Creation mode ----

  lemma {:induction false} CreationQuote(s: string, quote: char, mode: Mode)
    requires mode.creation && QuoteLength(s, quote, mode).Found?
    ensures QuoteLength(s, quote, mode.(creation := false)) == QuoteLength(s, quote, mode)
    decreases |s|
  {
    if s[0] == quote {
      if |s| > 1 && s[1] == quote { CreationQuote(s[2..], quote, mode); }
    } else {
      CreationQuote(s[1..], quote, mode);
    }
  }

  lemma {:induction false} CreationComment(s: string, depth: nat)
    requires CommentLength(s, depth, true).Found?
    ensures CommentLength(s, depth, false) == CommentLength(s, depth, true)
    decreases |s|
  {
    if depth > 0 {
      if StartsWith(s, "*/") { CreationComment(s[2..], depth - 1); } else { CreationComment(s[1..], depth); }
    }
  }

  /** Creation mode only adds refusals: a text it accepts has the same statements without it. */
  lemma {:induction false} CreationOnlyRefuses(open: string, before: string, s: string, mode: Mode)
    requires mode.creation && SplitFrom(open, before, s, mode).Ok?
    ensures SplitFrom(open, before, s, mode.(creation := false)) == SplitFrom(open, before, s, mode)
    decreases |s|
  {
    if s != "" {
      var step := CreationStep(before, open != "", s, mode);
      hide StepAt;
      match step
      case Blank(n) =>
        CreationOnlyRefuses(if open == "" then "" else open + s[..n], before + s[..n], s[n..], mode);
      case Code(n) => CreationOnlyRefuses(open + s[..n], before + s[..n], s[n..], mode);
      case End => CreationOnlyRefuses("", before + ";", s[1..], mode);
    }
  }

  lemma CreationStep(before: string, open: bool, s: string, mode: Mode) returns (step: Step)
    requires s != "" && mode.creation && !StepAt(before, open, s, mode).Refuse?
    ensures step == StepAt(before, open, s, mode) == StepAt(before, open, s, mode.(creation := false))
    ensures !step.Refuse?
  {
    step := StepAt(before, open, s, mode);
    if StartsWith(s, "/*") { if CommentLength(s[2..], 1, true).Found? { CreationComment(s[2..], 1); } }
    if QuoteLength(s[1..], s[0], mode).Found? { CreationQuote(s[1..], s[0], mode); }
  }
}
