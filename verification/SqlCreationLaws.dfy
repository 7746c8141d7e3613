/** Which statements of a file that creation mode accepts read again to themselves in that mode. */
module SqlCreationLaws {
  import opened Basics
  import opened SqlText
  import opened SqlSplitter
  import opened SqlStatementLaws

  // ---- What the text before a statement can tell it ----

  /** The text before does not end inside a word, so that nothing in it can belong to a word that follows. */
  predicate EndsNoWord(before: string) {
    before == "" || (!FoldsToWord(before[|before| - 1]) && !EndsIdentifier(before))
  }

  /** Text of a statement already begun. */
  predicate Begun(o: string) { o != "" && o[0] !in " \t\n" }

  lemma {:induction false} AsInside(before: string, o: string)
    requires EndsNoWord(before) && Begun(o)
    ensures AsBeforeBlanks(before + o) == AsBeforeBlanks(o)
    decreases |o|
  {
    var whole, n := before + o, |o|;
    assert whole[|whole| - 1] == o[n - 1] && whole[..|whole| - 1] == before + o[..n - 1];
    if o[n - 1] in " \t\n" {
      assert n > 1 && o[..n - 1][0] == o[0];
      AsInside(before, o[..n - 1]);
    } else if n == 1 {
      if before != "" { assert whole[|whole| - 2] == before[|before| - 1]; }
    } else if n == 2 {
      assert whole[|whole| - 2] == o[0];
      if before != "" { assert whole[|whole| - 3] == before[|before| - 1]; }
    } else {
      assert whole[|whole| - 2] == o[n - 2] && whole[|whole| - 3] == o[n - 3];
    }
  }

  /** Inside a statement the text before it does not matter. */
  lemma InsideAlike(before: string, before': string, o: string)
    requires EndsNoWord(before) && EndsNoWord(before') && Begun(o)
    ensures EndsInAs(before + o) == EndsInAs(before' + o)
    ensures EndsIdentifier(before + o) == EndsIdentifier(before' + o)
    ensures (before + o)[|before + o| - 1] == (before' + o)[|before' + o| - 1]
  {
    AsInside(before, o);
    AsInside(before', o);
    hide AsBeforeBlanks;
  }

  // ---- One step depends only on the text it reads ----

  /** All that the text already read can tell a step. */
  predicate Alike(before: string, before': string) {
    && EndsIdentifier(before) == EndsIdentifier(before') && EndsInAs(before) == EndsInAs(before')
    && (before == "" <==> before' == "") && (before != "" ==> before[|before| - 1] == before'[|before'| - 1])
  }

  lemma EscapeLocal(before: string, before': string, s: string, t: string)
    requires s != "" && (before == "" <==> before' == "") && (before != "" ==> before[|before| - 1] == before'[|before'| - 1])
    ensures StartsEscape(before', s) ==> StartsEscape(before, s + t)
    ensures |s| >= 3 || s[|s| - 1] == ';' ==> StartsEscape(before, s) == StartsEscape(before', s + t)
  {
    var whole := s + t;
    assert forall i :: 0 <= i < |s| ==> whole[i] == s[i];
  }

  lemma CodeRestricts(before: string, before': string, s: string, t: string, mode: Mode)
    requires s != "" && Alike(before, before')
    requires var step := CodeAt(before, s + t, mode); step.End? || (step.Code? && step.len <= |s|)
    ensures CodeAt(before', s, mode) == CodeAt(before, s + t, mode)
  {
    var whole := s + t;
    assert whole[0] == s[0] && whole[1..] == s[1..] + t;
    EscapeLocal(before, before', s, t);
    hide StartsEscape, EndsInAs, EndsIdentifier, TagLength, BodyLength, QuoteLength;
    if s[0] == '\'' || s[0] == '"' {
      QuoteRestrict(s[1..], t, s[0], mode);
    } else if s[0] == '$' {
      TagLocal(s, t);
      if DollarTag(before, whole, mode).Some? { BodyLocal(s, t, TagLength(whole).value); }
    }
  }

  lemma CodeExtends(before: string, s: string, t: string, mode: Mode)
    requires s != "" && s[|s| - 1] == ';'
    requires var step := CodeAt(before, s, mode); step.End? || (step.Code? && step.len < |s|)
    ensures CodeAt(before, s + t, mode) == CodeAt(before, s, mode)
  {
    var whole := s + t;
    assert whole[0] == s[0] && whole[1..] == s[1..] + t;
    EscapeLocal(before, before, s, t);
    TagWhole(s, t);
    hide StartsEscape, EndsInAs, EndsIdentifier, TagLength, BodyLength, QuoteLength;
    if s[0] == '\'' || s[0] == '"' {
      QuoteExtend(s[1..], t, s[0], mode);
    } else if s[0] == '$' {
      if TagLength(s).Some? { BodyLocal(s, t, TagLength(s).value); }
    }
  }

  lemma TagWhole(s: string, t: string)
    requires s != "" && s[|s| - 1] == ';'
    ensures s[0] == '$' ==> TagLength(s + t) == TagLength(s)
    ensures TagLength(s).Some? ==> TagLength(s).value > 0
  {
    if s[0] == '$' {
      assert (s + t)[1..] == s[1..] + t && s[1..][|s| - 2] == ';';
      WordLocal(s[1..], t);
      TagLocal(s, t);
    }
  }

  function Reach(step: Step): nat {
    match step case Blank(n) => n case Code(n) => n case End => 1 case Refuse(_) => 0
  }

  /** A step that stays inside `u` is the same whatever follows `u`, and wherever the statement stands. */
  lemma SameStep(before: string, before': string, open: bool, u: string, t: string, t': string, mode: Mode)
    requires u != "" && u[|u| - 1] == ';' && Alike(before, before')
    requires var step := StepAt(before, open, u + t, mode); step.End? || (!step.Refuse? && Reach(step) < |u|)
    ensures StepAt(before', open, u + t', mode) == StepAt(before, open, u + t, mode)
  {
    var step := StepAt(before, open, u + t, mode);
    assert (u + t)[0] == u[0] && (u + t')[0] == u[0];
    BlankRestrict(open, u, t, mode);
    if !step.Blank? { CodeRestricts(before, before', u, t, mode); }
    BlankReaches(before, open, u, t, mode);
    BlankExtend(open, u, t', mode);
    if !step.Blank? { CodeExtends(before', u, t', mode); }
    hide BlankAt, CodeAt;
  }

  lemma BlankReaches(before: string, open: bool, u: string, t: string, mode: Mode)
    requires u != "" && u[|u| - 1] == ';' && BlankAt(open, u + t, mode).Found?
    requires BlankAt(open, u, mode) == BlankAt(open, u + t, mode)
    ensures BlankAt(open, u, mode).len == 0 ==> |u| >= 2 || u[0] == ';'
  {
    hide BlankAt;
  }

  // ---- Cutting one statement out ----

  /** Behind any text that ends in no word, `u` finishes the statement begun with `o`, whatever follows. */
  ghost predicate Finishes(o: string, u: string, mode: Mode) {
    forall before, t :: EndsNoWord(before) ==> FinishesHere(before, o, u, t, mode)
  }

  predicate FinishesHere(before: string, o: string, u: string, t: string, mode: Mode) {
    SplitFrom(o, before + o, u + t, mode) == Prepend(o + u, SplitFrom("", (before + o) + u, t, mode))
  }

  lemma {:induction false} CutInside(before: string, o: string, s: string, mode: Mode) returns (k: nat)
    requires EndsNoWord(before) && Begun(o) && SplitFrom(o, before + o, s, mode).Ok?
    ensures 0 < k <= |s| && s[k - 1] == ';' && Finishes(o, s[..k], mode)
    decreases |s|
  {
    hide *;
    BegunMeans(o, "");
    var step := StepInside(o, before + o, s, mode);
    if step.End? {
      k := 1;
      EndFinishes(before, o, s, mode);
    } else {
      var n := step.len;
      BegunMeans(o, s[..n]);
      assert (before + o) + s[..n] == before + (o + s[..n]);
      var j := CutInside(before, o + s[..n], s[n..], mode);
      k := n + j;
      SliceTwice(s, n, j);
      StepFinishes(before, o, s, n, k, step, mode);
    }
  }

  lemma BegunMeans(o: string, more: string)
    ensures Begun(o) ==> o != "" && Begun(o + more)
  {
  }

  lemma OpenStep(o: string, before: string, s: string, step: Step, mode: Mode)
    requires o != "" && s != "" && step == StepAt(before, true, s, mode)
    ensures step.Blank? || step.Code? ==>
      SplitFrom(o, before, s, mode) == SplitFrom(o + s[..step.len], before + s[..step.len], s[step.len..], mode)
    ensures step.End? ==> SplitFrom(o, before, s, mode) == Prepend(o + ";", SplitFrom("", before + ";", s[1..], mode))
  {
    hide StepAt;
  }

  lemma InsideIsAlike(before: string, before': string, o: string)
    requires EndsNoWord(before) && EndsNoWord(before') && Begun(o)
    ensures Alike(before + o, before' + o)
  {
    InsideAlike(before, before', o);
    hide EndsInAs, EndsIdentifier, EndsNoWord;
  }

  lemma EndFinishes(before: string, o: string, s: string, mode: Mode)
    requires EndsNoWord(before) && Begun(o) && s != "" && StepAt(before + o, true, s, mode).End?
    ensures s[0] == ';' && Finishes(o, s[..1], mode)
  {
    EndIsSemicolon(before + o, s, mode);
    var u := s[..1];
    assert u == ";" && u + s[1..] == s;
    hide *;
    BegunMeans(o, "");
    forall before', t | EndsNoWord(before')
      ensures FinishesHere(before', o, u, t, mode)
    {
      InsideIsAlike(before, before', o);
      SameStep(before + o, before' + o, true, u, s[1..], t, mode);
      OpenStep(o, before' + o, u + t, StepAt(before' + o, true, u + t, mode), mode);
      assert (u + t)[1..] == t;
      MakeFinishes(before', o, u, t, mode);
    }
    AllFinish(o, u, mode);
  }

  lemma EndIsSemicolon(before: string, s: string, mode: Mode)
    requires s != "" && StepAt(before, true, s, mode).End?
    ensures s[0] == ';'
  {
  }

  lemma MakeFinishes(before: string, o: string, u: string, t: string, mode: Mode)
    ensures FinishesHere(before, o, u, t, mode) <==>
      SplitFrom(o, before + o, u + t, mode) == Prepend(o + u, SplitFrom("", (before + o) + u, t, mode))
  {
    hide SplitFrom;
  }

  lemma AllFinish(o: string, u: string, mode: Mode)
    requires forall before, t :: EndsNoWord(before) ==> FinishesHere(before, o, u, t, mode)
    ensures Finishes(o, u, mode)
  {
    hide FinishesHere, EndsNoWord;
  }

  lemma FinishAt(before: string, o: string, u: string, t: string, mode: Mode)
    requires Finishes(o, u, mode) && EndsNoWord(before)
    ensures FinishesHere(before, o, u, t, mode)
  {
    hide FinishesHere, EndsNoWord;
  }

  lemma StepFinishes(before: string, o: string, s: string, n: nat, k: nat, step: Step, mode: Mode)
    requires EndsNoWord(before) && Begun(o) && 0 < n < k <= |s| && s[k - 1] == ';'
    requires step == StepAt(before + o, true, s, mode) && (step == Blank(n) || step == Code(n))
    requires Finishes(o + s[..n], s[n..][..k - n], mode)
    ensures Finishes(o, s[..k], mode)
  {
    hide *;
    BegunMeans(o, "");
    var u, rest := s[..k], s[n..][..k - n];
    assert u + s[k..] == s && u[k - 1] == ';' && u[..n] == s[..n] && u[n..] == rest;
    ReachIs(step, n);
    forall before', t | EndsNoWord(before')
      ensures FinishesHere(before', o, u, t, mode)
    {
      InsideIsAlike(before, before', o);
      SameStep(before + o, before' + o, true, u, s[k..], t, mode);
      OpenStep(o, before' + o, u + t, StepAt(before' + o, true, u + t, mode), mode);
      assert (u + t)[..n] == s[..n] && (u + t)[n..] == rest + t;
      FinishAt(before', o + s[..n], rest, t, mode);
      MakeFinishes(before', o + s[..n], rest, t, mode);
      JoinedAgain(before', o, s[..n]);
      assert (o + s[..n]) + rest == o + u && ((before' + o) + s[..n]) + rest == (before' + o) + u by {
        assert s[..n] + rest == u;
        JoinedAgain(o, s[..n], rest);
        JoinedAgain(before' + o, s[..n], rest);
      }
      MakeFinishes(before', o, u, t, mode);
    }
    AllFinish(o, u, mode);
  }

  lemma ReachIs(step: Step, n: nat)
    requires step == Blank(n) || step == Code(n)
    ensures !step.Refuse? && Reach(step) == n
  {
  }

  // ---- The start of a statement ----

  /** Creation mode looks back from a dollar body for the word AS, so a statement that begins with one is read by what
  stands before it, be it a comment. */
  predicate StandsAlone(x: string, mode: Mode) { x != "" && (mode.creation ==> x[0] != '$') }

  lemma FirstAlike(before: string, s: string, mode: Mode)
    requires EndsNoWord(before) && StandsAlone(s, mode)
    ensures StepAt(before, false, s, mode) == StepAt("", false, s, mode)
  {
    assert StartsEscape(before, s) == StartsEscape("", s);
    hide BlankAt, EndsInAs, TagLength, BodyLength, QuoteLength, StartsEscape;
  }

  lemma FirstStep(before: string, s: string, step: Step, mode: Mode)
    requires s != "" && BlankAt(false, s, mode) == Found(0) && step == StepAt(before, false, s, mode)
    ensures step == CodeAt(before, s, mode)
    ensures step.Code? ==> 0 < step.len <= |s| && Begun(s[..step.len])
    ensures step.Code? ==> SplitFrom("", before, s, mode) == SplitFrom(s[..step.len], before + s[..step.len], s[step.len..], mode)
    ensures step.End? ==> s[0] == ';' && SplitFrom("", before, s, mode) == Prepend(";", SplitFrom("", before + ";", s[1..], mode))
    ensures step.Refuse? ==> SplitFrom("", before, s, mode).Err?
  {
    NotSpace(s, mode);
    hide BlankAt, CodeAt;
    if step.Code? { assert "" + s[..step.len] == s[..step.len]; }
    assert "" + ";" == ";";
  }

  lemma NotSpace(s: string, mode: Mode)
    requires s != "" && BlankAt(false, s, mode) == Found(0)
    ensures s[0] !in " \t\n"
  {
  }

  /** Cuts the statement that begins `s` out. */
  lemma FirstCut(before: string, s: string, mode: Mode) returns (k: nat)
    requires EndsNoWord(before) && s != "" && BlankAt(false, s, mode) == Found(0) && SplitFrom("", before, s, mode).Ok?
    ensures 0 < k <= |s| && s[k - 1] == ';'
    ensures SplitFrom("", before, s, mode) == Prepend(s[..k], SplitFrom("", before + s[..k], s[k..], mode))
    ensures StandsAlone(s, mode) ==> Finishes("", s[..k], mode)
  {
    hide *;
    var step := StepAt(before, false, s, mode);
    FirstStep(before, s, step, mode);
    StepKinds(before, s, mode);
    if step.End? {
      k := 1;
      assert s[..1] == ";";
      if StandsAlone(s, mode) { FirstFinishes(before, s, 1, step, mode); }
    } else {
      var n := step.len;
      var j := CutInside(before, s[..n], s[n..], mode);
      k := n + j;
      SliceTwice(s, n, j);
      FinishAt(before, s[..n], s[n..][..j], s[n..][j..], mode);
      MakeFinishes(before, s[..n], s[n..][..j], s[n..][j..], mode);
      GrowTwice("", s, n, j);
      GrowTwice(before, s, n, j);
      assert s[n..][..j] + s[n..][j..] == s[n..] && "" + s[..n] == s[..n] && "" + s[..k] == s[..k];
      if StandsAlone(s, mode) { FirstFinishes(before, s, k, step, mode); }
    }
  }

  lemma StepKinds(before: string, s: string, mode: Mode)
    requires s != "" && BlankAt(false, s, mode) == Found(0)
    ensures !StepAt(before, false, s, mode).Blank?
  {
    hide BlankAt;
  }

  lemma FirstFinishes(before: string, s: string, k: nat, step: Step, mode: Mode)
    requires EndsNoWord(before) && StandsAlone(s, mode) && BlankAt(false, s, mode) == Found(0)
    requires 0 < k <= |s| && s[k - 1] == ';' && step == StepAt(before, false, s, mode)
    requires if step.End? then k == 1 else step.Code? && step.len < k && Finishes(s[..step.len], s[step.len..][..k - step.len], mode)
    ensures Finishes("", s[..k], mode)
  {
    hide *;
    var u := s[..k];
    assert u + s[k..] == s && u[k - 1] == ';' && u[0] == s[0];
    FirstAlike(before, s, mode);
    SelfAlike();
    FirstReach(step, k);
    forall before', t | EndsNoWord(before')
      ensures FinishesHere(before', "", u, t, mode)
    {
      SameStep("", "", false, u, s[k..], t, mode);
      AloneStays(s, u + t, mode);
      FirstAlike(before', u + t, mode);
      StepBlank(before, s, before', u + t, step, mode);
      FirstStep(before', u + t, step, mode);
      assert before' + "" == before' && "" + u == u;
      if step.End? {
        assert u == ";" && (u + t)[1..] == t;
      } else {
        var n := step.len;
        var rest := s[n..][..k - n];
        assert (u + t)[..n] == s[..n] && (u + t)[n..] == rest + t && s[..n] + rest == u;
        FinishAt(before', s[..n], rest, t, mode);
        MakeFinishes(before', s[..n], rest, t, mode);
        JoinedAgain(before', s[..n], rest);
      }
      MakeFinishes(before', "", u, t, mode);
    }
    AllFinish("", u, mode);
  }

  lemma SelfAlike()
    ensures Alike("", "")
  {
  }

  lemma FirstReach(step: Step, k: nat)
    requires if step.End? then k == 1 else step.Code? && step.len < k
    ensures step.End? || (!step.Refuse? && Reach(step) < k)
  {
  }

  lemma AloneStays(s: string, s': string, mode: Mode)
    requires StandsAlone(s, mode) && s' != "" && s'[0] == s[0]
    ensures StandsAlone(s', mode)
  {
  }

  /** A step that takes statement text stands where no blank text is. */
  lemma StepBlank(before: string, s: string, before': string, s': string, step: Step, mode: Mode)
    requires s' != "" && step == StepAt(before', false, s', mode) && (step.End? || step.Code?)
    ensures BlankAt(false, s', mode) == Found(0)
  {
    hide BlankAt, CodeAt;
  }

  // ---- Reading again ----

  lemma AloneReads(x: string, mode: Mode)
    requires Finishes("", x, mode)
    ensures Split(x, mode) == Ok([x])
  {
    hide SplitFrom;
    FinishAt("", "", x, "", mode);
    assert x + "" == x && "" + x == x && "" + "" == "";
    NothingLeft(x, mode);
    assert [x] + [] == [x];
  }

  lemma DollarRefused(before: string, s: string, mode: Mode)
    requires mode.creation && s != "" && s[0] == '$' && (before == "" || before[|before| - 1] == ';')
    ensures SplitFrom("", before, s, mode).Err?
  {
    if |s| >= 2 { assert s[..2][0] == '$'; }
    hide TagLength, BodyLength;
    assert StepAt(before, false, s, mode).Refuse?;
  }

  /** The text so far ends in no word, or only blank text may follow. */
  predicate AtStart(before: string, s: string) { EndsNoWord(before) || s == "" || s[0] == '\n' }

  lemma BlankKeepsStart(before: string, s: string, n: nat, mode: Mode)
    requires mode.creation && s != "" && AtStart(before, s) && 0 < n <= |s| && BlankAt(false, s, mode) == Found(n)
    ensures AtStart(before + s[..n], s[n..])
  {
    BlankTail(s, n, mode);
    hide BlankAt, IsSpace, StartsWith;
    assert (before + s[..n])[|before| + n - 1] == s[n - 1];
  }

  /** White space, the end of a comment, or a line comment that a newline ends. */
  lemma BlankTail(s: string, n: nat, mode: Mode)
    requires mode.creation && 0 < n <= |s| && BlankAt(false, s, mode) == Found(n)
    ensures n == |s| || s[n] == '\n' || (!FoldsToWord(s[n - 1]) && s[n - 1] as int < 0x80)
  {
    BlankEnds(s, n, mode);
    if IsSpace(s[0]) {
      assert IsAscii(s[0]) && n == 1;
    } else if StartsWith(s, "/*") {
      SlashStar(s);
      SlashEnds(s, n, mode);
    }
    hide CommentLength, DumpCommandLength, LineLength, StartsWith;
  }

  lemma SlashEnds(s: string, n: nat, mode: Mode)
    requires mode.creation && 0 < n <= |s| && BlankAt(false, s, mode) == Found(n) && StartsWith(s, "/*") && s[0] == '/'
    ensures s[n - 1] == '/'
  {
    SlashStar(s);
    CreationComment(s[2..], 1);
    CommentEnds(s[2..], 1);
    hide CommentLength, DumpCommandLength, LineLength;
  }

  /** What each statement of an accepted file keeps when it is read by itself, or elsewhere. */
  ghost predicate ReadsOn(x: string, mode: Mode) {
    && x != "" && x[|x| - 1] == ';' && BlankAt(false, x, mode) == Found(0)
    && (StandsAlone(x, mode) ==> Finishes("", x, mode))
  }

  lemma {:induction false} EachReadsOn(before: string, s: string, mode: Mode)
    requires mode.creation && AtStart(before, s) && SplitFrom("", before, s, mode).Ok?
    ensures forall x :: x in SplitFrom("", before, s, mode).value ==> ReadsOn(x, mode)
    decreases |s|
  {
    hide *;
    if s == "" {
      NothingLeft(before, mode);
    } else {
      var n := BlankLength(before, s, mode);
      if n > 0 {
        AfterBlank(before, s, n, mode);
        BlankKeepsStart(before, s, n, mode);
        EachReadsOn(before + s[..n], s[n..], mode);
      } else {
        StartIsNoBlank(before, s, mode);
        var k := FirstCut(before, s, mode);
        var x := s[..k];
        SemicolonStart(before, x, s[k..]);
        PrependHas(x, SplitFrom("", before + x, s[k..], mode));
        EachReadsOn(before + x, s[k..], mode);
        CutReadsOn(x, s[k..], s, mode);
      }
    }
  }

  lemma BlankLength(before: string, s: string, mode: Mode) returns (n: nat)
    requires s != "" && SplitFrom("", before, s, mode).Ok?
    ensures n <= |s| && BlankAt(false, s, mode) == Found(n)
  {
    hide BlankAt;
    n := BlankAt(false, s, mode).len;
  }

  lemma StartIsNoBlank(before: string, s: string, mode: Mode)
    requires s != "" && AtStart(before, s) && BlankAt(false, s, mode) == Found(0)
    ensures EndsNoWord(before)
  {
    NotSpace(s, mode);
    hide BlankAt, EndsNoWord;
  }

  lemma SemicolonStart(before: string, x: string, rest: string)
    requires x != "" && x[|x| - 1] == ';'
    ensures AtStart(before + x, rest) && EndsNoWord(before + x) && (before + x)[|before + x| - 1] == ';'
  {
  }

  lemma CutReadsOn(x: string, rest: string, s: string, mode: Mode)
    requires s == x + rest && x != "" && x[|x| - 1] == ';' && BlankAt(false, s, mode) == Found(0)
    requires StandsAlone(s, mode) ==> Finishes("", x, mode)
    ensures ReadsOn(x, mode)
  {
    assert s[0] == x[0];
    BlankRestrict(false, x, rest, mode);
    hide BlankAt, Finishes;
  }

  lemma PrependHas(x: string, rest: Result<seq<string>>)
    ensures Prepend(x, rest).Ok? <==> rest.Ok?
    ensures rest.Ok? ==> forall y :: y in Prepend(x, rest).value <==> y == x || y in rest.value
  {
  }

  /** The statement begins with a dollar, so with a dollar body. */
  predicate BeginsBody(x: string) { x != "" && x[0] == '$' }

  /** Statements that stand alone are read one after the other, and a dollar body behind another statement is refused. */
  lemma {:induction false} ConcatReads(before: string, statements: seq<string>, mode: Mode)
    requires mode.creation && EndsNoWord(before) && (before == "" || before[|before| - 1] == ';')
    requires forall i :: 0 <= i < |statements| ==> ReadsOn(statements[i], mode)
    ensures SplitFrom("", before, Concat(statements), mode) == Ok(statements) <==>
      forall i :: 0 <= i < |statements| ==> !BeginsBody(statements[i])
    ensures SplitFrom("", before, Concat(statements), mode).Ok? ==> forall i :: 0 <= i < |statements| ==> !BeginsBody(statements[i])
    decreases |statements|
  {
    hide *;
    if statements == [] {
      ConcatNone();
      NothingLeft(before, mode);
    } else {
      var x, rest := statements[0], statements[1..];
      ConcatFirst(statements);
      ReadsMeans(x, mode);
      BeginsMeans(x);
      assert statements == [x] + rest && forall i :: 0 <= i < |rest| ==> rest[i] == statements[i + 1];
      if x[0] == '$' {
        DollarRefused(before, Concat(statements), mode);
      } else {
        SemicolonStart(before, x, Concat(rest));
        ConcatReads(before + x, rest, mode);
        FinishAt(before, "", x, Concat(rest), mode);
        MakeFinishes(before, "", x, Concat(rest), mode);
        assert before + "" == before && "" + x == x;
        PrependSame(x, SplitFrom("", before + x, Concat(rest), mode), rest);
      }
    }
  }

  lemma ConcatNone()
    ensures Concat([]) == ""
  {
  }

  lemma ConcatFirst(statements: seq<string>)
    requires statements != []
    ensures Concat(statements) == statements[0] + Concat(statements[1..])
    ensures statements[0] != "" ==> Concat(statements) != "" && Concat(statements)[0] == statements[0][0]
  {
  }

  lemma ReadsMeans(x: string, mode: Mode)
    requires ReadsOn(x, mode)
    ensures x != "" && x[|x| - 1] == ';' && (mode.creation && x[0] != '$' ==> Finishes("", x, mode))
  {
    hide BlankAt, Finishes;
  }

  lemma BeginsMeans(x: string)
    ensures BeginsBody(x) <==> x != "" && x[0] == '$'
  {
  }

  lemma PrependSame(x: string, rest: Result<seq<string>>, later: seq<string>)
    ensures Prepend(x, rest) == Ok([x] + later) <==> rest == Ok(later)
    ensures Prepend(x, rest).Ok? <==> rest.Ok?
  {
    if rest.Ok? && [x] + rest.value == [x] + later {
      assert ([x] + rest.value)[1..] == rest.value && ([x] + later)[1..] == later;
    }
  }

  /** In creation mode a statement of an accepted file reads again to itself exactly if it does not begin with a dollar
  body, and the statements one behind the other read again to themselves exactly if none of them does. */
  lemma CreationReadingAgain(sql: string, mode: Mode)
    requires mode.creation && Split(sql, mode).Ok?
    ensures
      var statements := Split(sql, mode).value;
      && (forall i :: 0 <= i < |statements| ==> (Split(statements[i], mode) == Ok([statements[i]]) <==> !BeginsBody(statements[i])))
      && (Split(Concat(statements), mode) == Ok(statements) <==> forall i :: 0 <= i < |statements| ==> !BeginsBody(statements[i]))
  {
    hide *;
    NothingBefore(sql, mode);
    EachReadsOn("", sql, mode);
    var statements := Split(sql, mode).value;
    forall i | 0 <= i < |statements|
      ensures ReadsOn(statements[i], mode)
      ensures Split(statements[i], mode) == Ok([statements[i]]) <==> !BeginsBody(statements[i])
    {
      var x := statements[i];
      assert x in statements;
      ReadsMeans(x, mode);
      BeginsMeans(x);
      NothingBefore(x, mode);
      if x[0] == '$' { DollarRefused("", x, mode); } else { AloneReads(x, mode); }
    }
    NothingBefore(Concat(statements), mode);
    ConcatReads("", statements, mode);
  }

  lemma NothingBefore(s: string, mode: Mode)
    ensures Split(s, mode) == SplitFrom("", "", s, mode) && EndsNoWord("") && AtStart("", s)
  {
    hide SplitFrom;
  }

  /** A body may begin a statement of an accepted file: the AS before it stands in a comment. */
  lemma BodyMayBegin()
    ensures
      var mode := Mode(false, true, false);
      Split("-- AS\n$$$$;", mode) == Ok(["$$$$;"]) && Split("$$$$;", mode).Err?
  {
    var mode, sql, x := Mode(false, true, false), "-- AS\n$$$$;", "$$$$;";
    DollarRefused("", x, mode);
    CommentLine(sql, mode);
    NewlineSkipped(sql[5..], mode);
    BodyThere(sql[..6], x, mode);
    LastSemicolon(sql[..6] + "$$$$", mode);
    hide *;
    assert sql[5..][1..] == x && sql[..5] + sql[5..][..1] == sql[..6];
    assert "" + sql[..5] == sql[..5];
    AfterBlank("", sql, 5, mode);
    AfterBlank(sql[..5], sql[5..], 1, mode);
    NothingBefore(sql, mode);
    NothingBefore(x, mode);
  }

  lemma CommentLine(sql: string, mode: Mode)
    requires sql == "-- AS\n$$$$;"
    ensures BlankAt(false, sql, mode) == Found(5) && |sql| == 11
  {
    assert sql[..2] == "--";
    assert LineLength(sql[5..]) == 0 && LineLength(sql[4..]) == 1 && LineLength(sql[3..]) == 2 by {
      assert sql[4..][1..] == sql[5..] && sql[3..][1..] == sql[4..];
    }
    assert LineLength(sql[2..]) == 3 && LineLength(sql[1..]) == 4 && LineLength(sql) == 5 by {
      assert sql[2..][1..] == sql[3..] && sql[1..][1..] == sql[2..];
    }
  }

  lemma NewlineSkipped(s: string, mode: Mode)
    requires s != "" && s[0] == '\n'
    ensures BlankAt(false, s, mode) == Found(1)
  {
  }

  lemma BodyThere(before: string, x: string, mode: Mode)
    requires mode == Mode(false, true, false) && before == "-- AS\n" && x == "$$$$;"
    ensures SplitFrom("", before, x, mode) == SplitFrom("$$$$", before + "$$$$", ";", mode)
  {
    assert before[..5] == "-- AS" && EndsInAs(before);
    assert TagLength(x) == Some(2);
    assert x[2..] == "$$;" && x[..2] == "$$";
    assert StartsWith(x[2..], x[..2]);
    assert BodyLength(x, 2) == Some(4);
    assert BlankAt(false, x, mode) == Found(0);
    assert !StartsEscape(before, x);
    assert x[..4] == "$$$$" && x[4..] == ";" && "" + "$$$$" == "$$$$";
  }

  lemma LastSemicolon(before: string, mode: Mode)
    requires mode == Mode(false, true, false)
    ensures SplitFrom("$$$$", before, ";", mode) == Ok(["$$$$;"])
  {
    assert StepAt(before, true, ";", mode).End?;
    assert ";"[1..] == "" && ["$$$$;"] + [] == ["$$$$;"] && "$$$$" + ";" == "$$$$;";
  }
}
