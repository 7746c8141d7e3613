/** The two SQL scanners read the same structure: the splitter's statements are what the native tokenizer's
top-level `;` tokens cut out, and tokenizing one statement gives the file's tokens of that statement. */
module ScannerAgreement {
  import opened Basics
  import opened SqlText
  import opened SqlTokens
  import S = SqlSplitter
  import Laws = SqlStatementLaws

  const NATIVE := LexMode(false, true)
  const ASCII := S.Mode(false, false, true)

  predicate IsSemicolon(token: Token) { token.kind == Symbol && token.value == ";" }

  function Slice(sql: string, start: int, end: int): string {
    if 0 <= start <= end <= |sql| then sql[start..end] else ""
  }

  /** The statements that the tokens cut out of `sql`: from the first token after a `;` through the next `;`.
  `first` is where an unfinished statement began, or -1. */
  function StatementsOf(sql: string, tokens: seq<Token>, first: int): S.Result<seq<string>>
    decreases |tokens|
  {
    if tokens == [] then if first < 0 then S.Ok([]) else S.Err(UnterminatedStatement)
    else
      var start := if first < 0 then tokens[0].start else first;
      if IsSemicolon(tokens[0]) then
        S.Prepend(Slice(sql, start, tokens[0].end), StatementsOf(sql, tokens[1..], -1))
      else StatementsOf(sql, tokens[1..], start)
  }

  // ---- One token is one or more splitter steps ----

  lemma {:induction false} QuotesAgree(s: string, quote: char)
    requires ReadQuote(s, quote, NATIVE).Some?
    ensures S.QuoteLength(s, quote, ASCII) == Found(ReadQuote(s, quote, NATIVE).value.len)
    decreases |s|
  {
    if s[0] == quote {
      if |s| > 1 && s[1] == quote { QuotesAgree(s[2..], quote); }
    } else {
      QuotesAgree(s[1..], quote);
    }
  }

  /** Characters that are one step each, wherever they stand in a statement. */
  predicate IsPlain(c: char) { IsWordPart(c) || c == '.' }

  lemma TokenAgrees(before: string, open: bool, s: string)
    requires s != "" && !IsControl(s[0])
    ensures
      match TokenAt(before, s, NATIVE)
      case Incomplete => true
      case Skip(n) => S.BlankAt(open, s, ASCII) == Found(n)
      case Emit(kind, value, n) =>
        && S.BlankAt(open, s, ASCII) == Found(0)
        && match kind {
             case Symbol => n == 1 && S.CodeAt(before, s, ASCII) == if value == ";" then S.End else S.Code(1)
             case Word => forall i :: 0 <= i < n ==> IsPlain(s[i])
             case Number => forall i :: 0 <= i < n ==> IsPlain(s[i])
             case _ => S.CodeAt(before, s, ASCII) == S.Code(n)
           }
  {
    if TokenAt(before, s, NATIVE) != Incomplete && (s[0] == '\'' || s[0] == '"') { QuotesAgree(s[1..], s[0]); }
    if TokenAt(before, s, NATIVE).Emit? {
      assert !StartsWith(s, "--") && !StartsWith(s, "/*");
      assert [s[0]] == ";" <==> s[0] == ';';
    }
  }

  predicate PlainIn(sql: string, lo: nat, hi: nat)
    requires lo <= hi <= |sql|
  {
    forall i :: lo <= i < hi ==> IsPlain(sql[i])
  }

  lemma PlainStep(sql: string, first: int, lo: nat, hi: nat)
    requires lo < hi <= |sql| && PlainIn(sql, lo, hi)
    ensures S.BlankAt(first >= 0, sql[lo..], ASCII) == Found(0)
    ensures S.CodeAt(sql[..lo], sql[lo..], ASCII) == S.Code(1)
    ensures PlainIn(sql, lo + 1, hi)
  {
    var s := sql[lo..];
    assert IsPlain(s[0]) && s[0] != '-' && s[0] != '/';
    assert |s| >= 2 ==> s[..2][0] == s[0];
  }

  lemma {:induction false} PlainRun(sql: string, first: int, start: nat, lo: nat, hi: nat)
    requires -1 <= first < lo && start == (if first < 0 then lo else first) && lo < hi <= |sql| && PlainIn(sql, lo, hi)
    ensures S.Remaining(sql, first, lo, ASCII) == S.Remaining(sql, start, hi, ASCII)
    decreases hi - lo
  {
    hide *;
    PlainStep(sql, first, lo, hi);
    S.CodeContinues(sql, first, lo, ASCII, start, 1);
    if lo + 1 < hi { PlainRun(sql, start, start, lo + 1, hi); }
  }

  // ---- The whole text ----

  ghost function TokensAt(sql: string, index: nat): Lexed
    requires index <= |sql|
  {
    TokensFrom(sql[..index], sql[index..], NATIVE)
  }

  lemma NextToken(sql: string, index: nat, step: TokenStep)
    requires index < |sql| && step == TokenAt(sql[..index], sql[index..], NATIVE)
    ensures
      match step
      case Incomplete => TokensAt(sql, index) == Lexed([], false)
      case Skip(n) => index + n <= |sql| && TokensAt(sql, index) == TokensAt(sql, index + n)
      case Emit(kind, value, n) =>
        index + n <= |sql| && TokensAt(sql, index) == Cons(Token(kind, value, index, index + n), TokensAt(sql, index + n))
  {
    hide TokenAt;
    var s := sql[index..];
    match step
    case Incomplete =>
    case Skip(n) => assert s[n..] == sql[index + n..] && sql[..index] + s[..n] == sql[..index + n];
    case Emit(kind, value, n) => assert s[n..] == sql[index + n..] && sql[..index] + s[..n] == sql[..index + n];
  }

  lemma TokenHere(sql: string, first: int, index: nat, step: TokenStep)
    requires index < |sql| && !HasControl(sql) && step == TokenAt(sql[..index], sql[index..], NATIVE)
    ensures
      match step
      case Incomplete => true
      case Skip(n) => 0 < n && S.BlankAt(first >= 0, sql[index..], ASCII) == Found(n)
      case Emit(kind, value, n) =>
        && 0 < n && index + n <= |sql|
        && S.BlankAt(first >= 0, sql[index..], ASCII) == Found(0)
        && if kind == Word || kind == Number then PlainIn(sql, index, index + n)
           else if kind == Symbol then
             n == 1 && S.CodeAt(sql[..index], sql[index..], ASCII) == if value == ";" then S.End else S.Code(1)
           else S.CodeAt(sql[..index], sql[index..], ASCII) == S.Code(n)
  {
    var s := sql[index..];
    TokenAgrees(sql[..index], first >= 0, s);
    if step.Emit? && (step.kind == Word || step.kind == Number) { PlainFromSuffix(sql, index, step.len); }
  }

  lemma PlainFromSuffix(sql: string, index: nat, n: nat)
    requires index + n <= |sql| && forall i :: 0 <= i < n ==> IsPlain(sql[index..][i])
    ensures PlainIn(sql, index, index + n)
  {
    forall i | index <= i < index + n
      ensures IsPlain(sql[i])
    {
      assert sql[i] == sql[index..][i - index];
    }
  }

  lemma {:induction false} AgreeFrom(sql: string, first: int, index: nat)
    requires -1 <= first < index <= |sql| || (first == -1 && index == 0)
    requires !HasControl(sql) && TokensAt(sql, index).complete
    ensures S.Remaining(sql, first, index, ASCII) == StatementsOf(sql, TokensAt(sql, index).tokens, first)
    decreases |sql| - index
  {
    hide *;
    if index == |sql| {
      AgreeAtEnd(sql, first);
      return;
    }
    var step := TokenAt(sql[..index], sql[index..], NATIVE);
    var start := if first < 0 then index else first;
    TokenHere(sql, first, index, step);
    NextToken(sql, index, step);
    match step {
      case Incomplete => return;
      case Skip(n) =>
        S.SkipContinues(sql, first, index, ASCII, n);
        AgreeFrom(sql, first, index + n);
        return;
      case Emit(kind, value, n) =>
        ConsStatements(sql, Token(kind, value, index, index + n), TokensAt(sql, index + n), first);
        if kind == Symbol && value == ";" {
          S.EndContinues(sql, first, index, ASCII, start);
          AgreeFrom(sql, -1, index + 1);
          return;
        }
        if kind == Word || kind == Number {
          PlainRun(sql, first, start, index, index + n);
        } else {
          S.CodeContinues(sql, first, index, ASCII, start, n);
        }
        AgreeFrom(sql, start, index + n);
    }
  }

  lemma AgreeAtEnd(sql: string, first: int)
    requires -1 <= first < |sql|
    ensures S.Remaining(sql, first, |sql|, ASCII) == StatementsOf(sql, TokensAt(sql, |sql|).tokens, first)
  {
    assert sql[|sql|..] == "";
  }

  lemma ConsStatements(sql: string, token: Token, rest: Lexed, first: int)
    requires 0 <= token.start < token.end <= |sql| && first < token.start
    ensures Cons(token, rest).complete == rest.complete
    ensures
      var start := if first < 0 then token.start else first;
      StatementsOf(sql, Cons(token, rest).tokens, first)
      == if token.kind == Symbol && token.value == ";" then
           S.Prepend(sql[start..token.end], StatementsOf(sql, rest.tokens, -1))
         else StatementsOf(sql, rest.tokens, start)
  {
    assert ([token] + rest.tokens)[1..] == rest.tokens;
  }

  lemma {:induction false} TokensLocated(before: string, s: string, mode: LexMode)
    ensures forall t :: t in TokensFrom(before, s, mode).tokens ==> |before| <= t.start < t.end <= |before| + |s|
    decreases |s|
  {
    if s != "" {
      match TokenAt(before, s, mode)
      case Incomplete =>
      case Skip(n) => TokensLocated(before + s[..n], s[n..], mode);
      case Emit(_, _, n) => TokensLocated(before + s[..n], s[n..], mode);
    }
  }

  lemma {:induction false} EndsWithSemicolon(sql: string, tokens: seq<Token>, first: int)
    requires forall t :: t in tokens ==> 0 <= t.start
    ensures StatementsOf(sql, tokens, first).Ok?
      <==> (if tokens == [] then first < 0 else IsSemicolon(tokens[|tokens| - 1]))
    ensures StatementsOf(sql, tokens, first).Err? ==> StatementsOf(sql, tokens, first).error == UnterminatedStatement
    decreases |tokens|
  {
    if tokens != [] {
      assert tokens[0] in tokens;
      EndsWithSemicolon(sql, tokens[1..], if IsSemicolon(tokens[0]) then -1 else if first < 0 then tokens[0].start else first);
    }
  }

  /** Whenever the native tokenizer reads a text to its end, it determines what the native splitter does with it:
  the statements are the stretches its `;` tokens end, and the only possible refusal is an unfinished statement,
  which happens exactly when the last token is not a `;`. */
  lemma ScannersAgree(sql: string)
    requires Lex(sql, NATIVE).complete
    ensures
      var tokens := Lex(sql, NATIVE).tokens;
      && S.Split(sql, ASCII) == StatementsOf(sql, tokens, -1)
      && (S.Split(sql, ASCII).Ok? <==> tokens == [] || IsSemicolon(tokens[|tokens| - 1]))
      && (S.Split(sql, ASCII).Err? ==> S.Split(sql, ASCII).error == UnterminatedStatement)
  {
    assert sql[..0] == "" && sql[0..] == sql;
    AgreeFrom(sql, -1, 0);
    TokensLocated("", sql, NATIVE);
    EndsWithSemicolon(sql, Lex(sql, NATIVE).tokens, -1);
  }

  // ---- Tokenizing one statement ----

  function MoveToken(token: Token, distance: int): Token {
    token.(start := token.start + distance, end := token.end + distance)
  }

  function MoveAll(tokens: seq<Token>, distance: int): seq<Token> {
    if tokens == [] then [] else [MoveToken(tokens[0], distance)] + MoveAll(tokens[1..], distance)
  }

  /** Position of the first `;` token, or the number of tokens. */
  function FirstSemicolon(tokens: seq<Token>): (c: nat)
    ensures c <= |tokens|
  {
    if tokens == [] || IsSemicolon(tokens[0]) then 0 else 1 + FirstSemicolon(tokens[1..])
  }

  /** The tokens of each finished statement. */
  function GroupsOf(tokens: seq<Token>): seq<seq<Token>>
    decreases |tokens|
  {
    var c := FirstSemicolon(tokens);
    if c == |tokens| then [] else [tokens[..c + 1]] + GroupsOf(tokens[c + 1..])
  }

  function StepLength(step: TokenStep): nat {
    match step case Skip(n) => n case Emit(_, _, n) => n case Incomplete => 0
  }

  lemma {:induction false} QuoteRestrict(s: string, t: string, quote: char)
    requires ReadQuote(s + t, quote, NATIVE).Some? && ReadQuote(s + t, quote, NATIVE).value.len <= |s|
    ensures ReadQuote(s, quote, NATIVE) == ReadQuote(s + t, quote, NATIVE)
    decreases |s|
  {
    var whole := s + t;
    assert whole[0] == s[0];
    if s[0] == quote {
      if |whole| > 1 && whole[1] == quote {
        assert whole[2..] == s[2..] + t;
        QuoteRestrict(s[2..], t, quote);
      }
    } else {
      assert whole[1..] == s[1..] + t;
      QuoteRestrict(s[1..], t, quote);
    }
  }

  lemma {:induction false} DigitsLocal(s: string, t: string)
    ensures DigitsLength(s) < |s| ==> DigitsLength(s + t) == DigitsLength(s)
    ensures DigitsLength(s + t) <= |s| ==> DigitsLength(s) == DigitsLength(s + t)
    ensures DigitsLength(s) <= DigitsLength(s + t)
    decreases |s|
  {
    if s != "" {
      assert (s + t)[1..] == s[1..] + t;
      DigitsLocal(s[1..], t);
    }
  }

  lemma NumberRestrict(s: string, t: string)
    requires NumberLength(s + t) <= |s|
    ensures NumberLength(s) == NumberLength(s + t)
  {
    DigitsLocal(s, t);
    var whole := DigitsLength(s);
    if whole < |s| {
      assert (s + t)[whole + 1..] == s[whole + 1..] + t && (s + t)[whole] == s[whole];
      DigitsLocal(s[whole + 1..], t);
    }
  }

  /** Does `s` begin with a comment, a quote or a dollar: anything but a blank, word, number or plain symbol? */
  predicate OpensConstruct(s: string) {
    s != "" && (StartsWith(s, "--") || StartsWith(s, "/*") || s[0] == '\'' || s[0] == '"' || s[0] == '$')
  }

  lemma SimpleTokenRestrict(before: string, before': string, s: string, t: string)
    requires s != "" && !OpensConstruct(s + t) && !TokenAt(before, s + t, NATIVE).Incomplete?
    requires StepLength(TokenAt(before, s + t, NATIVE)) <= |s|
    ensures TokenAt(before', s, NATIVE) == TokenAt(before, s + t, NATIVE)
  {
    var whole := s + t;
    assert whole[0] == s[0];
    if |s| >= 2 {
      Laws.StartsLocal(s, t, "--");
      Laws.StartsLocal(s, t, "/*");
    }
    hide StartsWith;
    if IsWordStart(s[0]) {
      WordLocal(s, t);
      assert whole[..WordLength(s)] == s[..WordLength(s)];
    } else if IsDigit(s[0]) {
      NumberRestrict(s, t);
      assert whole[..NumberLength(s)] == s[..NumberLength(s)];
    }
  }

  lemma CommentRestrict(before: string, before': string, s: string, t: string)
    requires s != "" && (StartsWith(s + t, "--") || StartsWith(s + t, "/*")) && !TokenAt(before, s + t, NATIVE).Incomplete?
    requires StepLength(TokenAt(before, s + t, NATIVE)) <= |s|
    ensures TokenAt(before', s, NATIVE) == TokenAt(before, s + t, NATIVE)
  {
    var whole := s + t;
    assert whole[0] == s[0];
    if StartsWith(whole, "--") {
      Laws.LineAtLeastTwo(whole);
      assert whole[0] == '-';
      LineLocal(s, t);
      Laws.StartsLocal(s, t, "--");
    } else {
      assert whole[0] == '/';
      Laws.StartsLocal(s, t, "--");
      Laws.StartsLocal(s, t, "/*");
      assert whole[2..] == s[2..] + t;
      CommentLocal(s[2..], t, 1, false);
    }
  }

  lemma QuotedRestrict(before: string, before': string, s: string, t: string)
    requires s != "" && (s[0] == '\'' || s[0] == '"') && !TokenAt(before, s + t, NATIVE).Incomplete?
    requires StepLength(TokenAt(before, s + t, NATIVE)) <= |s|
    ensures TokenAt(before', s, NATIVE) == TokenAt(before, s + t, NATIVE)
  {
    var whole := s + t;
    assert whole[0] == s[0] && whole[1..] == s[1..] + t;
    assert !StartsWith(whole, "--") && !StartsWith(whole, "/*") && !StartsWith(s, "--") && !StartsWith(s, "/*");
    hide StartsWith, ReadQuote;
    QuoteRestrict(s[1..], t, s[0]);
  }

  lemma DollarToken(before: string, s: string)
    requires s != "" && s[0] == '$'
    ensures TokenAt(before, s, NATIVE) ==
      if S.EndsIdentifier(before) then Emit(Symbol, "$", 1)
      else if TagLength(s).None? then Incomplete
      else
        var tag := TagLength(s).value;
        if BodyLength(s, tag).None? then Incomplete
        else Emit(Literal, s[tag..BodyLength(s, tag).value - tag], BodyLength(s, tag).value)
  {
    assert |s| >= 2 ==> s[..2][0] == s[0];
    hide TagLength, BodyLength, NumberLength, WordLength, CommentLength, ReadQuote;
  }

  lemma DollarRestrict(before: string, before': string, s: string, t: string)
    requires s != "" && s[0] == '$' && !TokenAt(before, s + t, NATIVE).Incomplete?
    requires S.EndsIdentifier(before) == S.EndsIdentifier(before')
    requires StepLength(TokenAt(before, s + t, NATIVE)) <= |s|
    ensures TokenAt(before', s, NATIVE) == TokenAt(before, s + t, NATIVE)
  {
    var whole := s + t;
    DollarToken(before, whole);
    DollarToken(before', s);
    hide TagLength, BodyLength, TokenAt, S.EndsIdentifier;
    if !S.EndsIdentifier(before) {
      TagLocal(s, t);
      var tag := TagLength(whole).value;
      BodyLocal(s, t, tag);
      var n := BodyLength(whole, tag).value;
      assert whole[tag..n - tag] == s[tag..n - tag];
    }
  }

  lemma TokenRestrict(before: string, before': string, s: string, t: string)
    requires s != "" && S.EndsIdentifier(before) == S.EndsIdentifier(before')
    requires !TokenAt(before, s + t, NATIVE).Incomplete? && StepLength(TokenAt(before, s + t, NATIVE)) <= |s|
    ensures TokenAt(before', s, NATIVE) == TokenAt(before, s + t, NATIVE)
  {
    hide TokenAt, StartsWith;
    if !OpensConstruct(s + t) {
      SimpleTokenRestrict(before, before', s, t);
    } else if StartsWith(s + t, "--") || StartsWith(s + t, "/*") {
      CommentRestrict(before, before', s, t);
    } else if s[0] == '$' {
      DollarRestrict(before, before', s, t);
    } else {
      QuotedRestrict(before, before', s, t);
    }
  }

  // ---- Cutting the tokens of one statement out of the file's ----

  lemma SameEnd(before: string, before': string, x: string)
    requires x != ""
    ensures S.EndsIdentifier(before + x) == S.EndsIdentifier(before' + x)
  {
  }

  /** The first `k` characters of `s`, whose tokens are `tokens`, are the first `c + 1` of them, and the rest of `s`
  is the rest. */
  ghost predicate Cuts(before: string, before': string, s: string, k: nat, tokens: seq<Token>, c: nat)
    requires c < |tokens|
  {
    && 0 < k <= |s| && tokens[c].end == |before| + k
    && s[k - 1] == ';'
    && TokensFrom(before', s[..k], NATIVE) == Lexed(MoveAll(tokens[..c + 1], |before'| - |before|), true)
    && TokensFrom(before + s[..k], s[k..], NATIVE) == Lexed(tokens[c + 1..], true)
  }

  ghost predicate IsCut(before: string, before': string, s: string, k: nat) {
    var tokens := TokensFrom(before, s, NATIVE).tokens;
    FirstSemicolon(tokens) < |tokens| && Cuts(before, before', s, k, tokens, FirstSemicolon(tokens))
  }

  ghost predicate HasStatement(before: string, s: string) {
    var lexed := TokensFrom(before, s, NATIVE);
    lexed.complete && FirstSemicolon(lexed.tokens) < |lexed.tokens|
  }

  lemma {:induction false} CutTokens(before: string, before': string, s: string) returns (k: nat)
    requires S.EndsIdentifier(before) == S.EndsIdentifier(before') && HasStatement(before, s)
    ensures IsCut(before, before', s, k)
    decreases |s|
  {
    hide *;
    StatementNotEmpty(before, s);
    var step := TokenAt(before, s, NATIVE);
    var n := StepLength(step);
    if IsEnd(step) {
      k := 1;
      CutSemicolon(before, before', s);
    } else {
      CutRest(before, s, n);
      SameEnd(before, before', s[..n]);
      var j := CutTokens(before + s[..n], before' + s[..n], s[n..]);
      k := n + j;
      CutLater(before, before', s, n, j);
    }
  }

  predicate IsEnd(step: TokenStep) { step == Emit(Symbol, ";", 1) }

  lemma StatementNotEmpty(before: string, s: string)
    requires HasStatement(before, s)
    ensures s != ""
  {
  }

  lemma CutSemicolon(before: string, before': string, s: string)
    requires s != "" && S.EndsIdentifier(before) == S.EndsIdentifier(before')
    requires IsEnd(TokenAt(before, s, NATIVE)) && HasStatement(before, s)
    ensures IsCut(before, before', s, 1)
  {
    hide *;
    assert s[..1] + s[1..] == s;
    SemicolonStep(before, s);
    TokenRestrict(before, before', s[..1], s[1..]);
    SemicolonCharacter(before, s);
    var step := TokenAt(before, s, NATIVE);
    UnfoldTokens(before, s, step);
    UnfoldTokens(before', s[..1], step);
    assert s[..1][..1] == s[..1] && s[..1][1..] == "";
    NothingLeft(before' + s[..1]);
    var tokens := TokensFrom(before, s, NATIVE).tokens;
    var token := Token(Symbol, ";", |before|, |before| + 1);
    SemicolonFirst(tokens);
    MoveOne(token, |before'| - |before|);
    assert tokens[..1] == [token];
    StatementComplete(before, s);
    assert [Token(Symbol, ";", |before'|, |before'| + 1)] + [] == [MoveToken(token, |before'| - |before|)] by { MovedSemicolon(before, before'); }
    MakeCut(before, before', s, 1, tokens, 0);
  }

  lemma MovedSemicolon(before: string, before': string)
    ensures MoveToken(Token(Symbol, ";", |before|, |before| + 1), |before'| - |before|) == Token(Symbol, ";", |before'|, |before'| + 1)
  {
  }

  lemma StatementComplete(before: string, s: string)
    requires HasStatement(before, s)
    ensures TokensFrom(before, s, NATIVE).complete
  {
    hide TokensFrom, FirstSemicolon;
  }

  lemma NothingLeft(before: string)
    ensures TokensFrom(before, "", NATIVE) == Lexed([], true)
  {
  }

  lemma SemicolonFirst(tokens: seq<Token>)
    requires tokens != [] && tokens[0].kind == Symbol && tokens[0].value == ";"
    ensures FirstSemicolon(tokens) == 0
  {
  }

  lemma SemicolonStep(before: string, s: string)
    requires s != "" && IsEnd(TokenAt(before, s, NATIVE))
    ensures TokenAt(before, s, NATIVE) == Emit(Symbol, ";", 1) && !TokenAt(before, s, NATIVE).Incomplete?
    ensures StepLength(TokenAt(before, s, NATIVE)) == 1
  {
  }

  lemma SemicolonCharacter(before: string, s: string)
    requires s != "" && IsEnd(TokenAt(before, s, NATIVE))
    ensures s[0] == ';'
  {
    assert TokenAt(before, s, NATIVE).value == [s[0]];
  }

  lemma CutRest(before: string, s: string, n: nat)
    requires s != "" && HasStatement(before, s) && !IsEnd(TokenAt(before, s, NATIVE))
    requires n == StepLength(TokenAt(before, s, NATIVE))
    ensures 0 < n <= |s| && HasStatement(before + s[..n], s[n..])
    ensures
      var tokens, rest := TokensFrom(before, s, NATIVE).tokens, TokensFrom(before + s[..n], s[n..], NATIVE).tokens;
      match TokenAt(before, s, NATIVE)
      case Skip(_) => tokens == rest
      case Emit(kind, value, _) =>
        && tokens == [Token(kind, value, |before|, |before| + n)] + rest
        && FirstSemicolon(tokens) == FirstSemicolon(rest) + 1
      case Incomplete => false
  {
    hide *;
    var step := TokenAt(before, s, NATIVE);
    OpenStatement(before, s);
    if step.Incomplete? { IncompleteHere(before, s); }
    StepLengths(step, s, n);
    UnfoldTokens(before, s, step);
    var rest := TokensFrom(before + s[..n], s[n..], NATIVE).tokens;
    if step.Emit? {
      if step.kind == Symbol { SymbolIsOne(before, s); }
      NotSemicolon(step, |before|);
      ConsSemicolon(Token(step.kind, step.value, |before|, |before| + n), rest);
    }
    MakeStatement(before + s[..n], s[n..]);
  }

  lemma StepLengths(step: TokenStep, s: string, n: nat)
    requires n == StepLength(step)
    ensures
      match step
      case Skip(m) => n == m
      case Emit(_, _, m) => n == m
      case Incomplete => n == 0
  {
  }

  lemma NotSemicolon(step: TokenStep, start: nat)
    requires step.Emit? && !IsEnd(step) && (step.kind == Symbol ==> step.len == 1)
    ensures !IsSemicolon(Token(step.kind, step.value, start, start + step.len))
  {
  }

  lemma MakeStatement(before: string, s: string)
    ensures TokensFrom(before, s, NATIVE).complete
      && FirstSemicolon(TokensFrom(before, s, NATIVE).tokens) < |TokensFrom(before, s, NATIVE).tokens|
      ==> HasStatement(before, s)
  {
  }

  lemma OpenStatement(before: string, s: string)
    requires HasStatement(before, s)
    ensures TokensFrom(before, s, NATIVE).complete
    ensures FirstSemicolon(TokensFrom(before, s, NATIVE).tokens) < |TokensFrom(before, s, NATIVE).tokens|
  {
  }

  lemma IncompleteHere(before: string, s: string)
    requires s != "" && TokenAt(before, s, NATIVE).Incomplete?
    ensures !TokensFrom(before, s, NATIVE).complete
  {
  }

  lemma ConsSemicolon(token: Token, rest: seq<Token>)
    ensures FirstSemicolon([token] + rest) == if IsSemicolon(token) then 0 else 1 + FirstSemicolon(rest)
  {
    assert ([token] + rest)[1..] == rest;
  }

  lemma SymbolIsOne(before: string, s: string)
    requires s != "" && TokenAt(before, s, NATIVE).Emit? && TokenAt(before, s, NATIVE).kind == Symbol
    ensures TokenAt(before, s, NATIVE).len == 1
  {
  }

  lemma CutLater(before: string, before': string, s: string, n: nat, j: nat)
    requires S.EndsIdentifier(before) == S.EndsIdentifier(before')
    requires s != "" && HasStatement(before, s) && !IsEnd(TokenAt(before, s, NATIVE))
    requires n == StepLength(TokenAt(before, s, NATIVE)) && 0 < n <= |s|
    requires IsCut(before + s[..n], before' + s[..n], s[n..], j)
    ensures IsCut(before, before', s, n + j)
  {
    hide *;
    CutRest(before, s, n);
    OpenCut(before + s[..n], before' + s[..n], s[n..], j);
    var cut, later := s[..n + j], s[n + j..];
    var step, distance := TokenAt(before, s, NATIVE), |before'| - |before|;
    var tokens, rest := TokensFrom(before, s, NATIVE).tokens, TokensFrom(before + s[..n], s[n..], NATIVE).tokens;
    var c := FirstSemicolon(rest);
    assert cut + later == s;
    SliceTwice(s, n, j);
    GrowTwice(before, s, n, j);
    StepShort(step, n);
    TokenRestrict(before, before', cut, later);
    UnfoldTokens(before', cut, step);
    if step.Emit? {
      MoveCons(tokens[0], rest, c, distance);
      MakeCut(before, before', s, n + j, tokens, c + 1);
    } else {
      MakeCut(before, before', s, n + j, tokens, c);
    }
  }

  lemma StepShort(step: TokenStep, n: nat)
    requires n == StepLength(step)
    ensures step.Incomplete? ==> n == 0
  {
  }

  lemma OpenCut(before: string, before': string, s: string, k: nat)
    requires IsCut(before, before', s, k)
    ensures
      var tokens := TokensFrom(before, s, NATIVE).tokens;
      var c := FirstSemicolon(tokens);
      && 0 < k <= |s| && c < |tokens| && tokens[c].end == |before| + k
      && s[k - 1] == ';'
      && TokensFrom(before', s[..k], NATIVE) == Lexed(MoveAll(tokens[..c + 1], |before'| - |before|), true)
      && TokensFrom(before + s[..k], s[k..], NATIVE) == Lexed(tokens[c + 1..], true)
  {
    hide TokensFrom, FirstSemicolon, MoveAll;
  }

  lemma MakeCut(before: string, before': string, s: string, k: nat, tokens: seq<Token>, c: nat)
    requires tokens == TokensFrom(before, s, NATIVE).tokens && c == FirstSemicolon(tokens) < |tokens|
    requires 0 < k <= |s| && tokens[c].end == |before| + k
    requires s[k - 1] == ';'
    requires TokensFrom(before', s[..k], NATIVE) == Lexed(MoveAll(tokens[..c + 1], |before'| - |before|), true)
    requires TokensFrom(before + s[..k], s[k..], NATIVE) == Lexed(tokens[c + 1..], true)
    ensures IsCut(before, before', s, k)
  {
    hide TokensFrom, FirstSemicolon, MoveAll;
    assert Cuts(before, before', s, k, tokens, c);
    hide Cuts;
  }

  lemma MoveOne(token: Token, distance: int)
    ensures MoveAll([token], distance) == [MoveToken(token, distance)]
  {
    assert [token][1..] == [];
    assert [MoveToken(token, distance)] + [] == [MoveToken(token, distance)];
  }

  lemma MoveCons(token: Token, rest: seq<Token>, c: nat, distance: int)
    requires c < |rest|
    ensures
      var tokens := [token] + rest;
      && MoveAll(tokens[..c + 2], distance) == [MoveToken(token, distance)] + MoveAll(rest[..c + 1], distance)
      && tokens[c + 2..] == rest[c + 1..] && tokens[c + 1] == rest[c]
      && MoveToken(token, distance) == Token(token.kind, token.value, token.start + distance, token.end + distance)
  {
    var tokens := [token] + rest;
    assert tokens[..c + 2][1..] == rest[..c + 1];
  }

  lemma UnfoldTokens(before: string, s: string, step: TokenStep)
    requires s != "" && step == TokenAt(before, s, NATIVE) && !step.Incomplete?
    ensures
      var n := StepLength(step);
      var rest := TokensFrom(before + s[..n], s[n..], NATIVE);
      TokensFrom(before, s, NATIVE) == match step
        case Emit(kind, value, _) => Lexed([Token(kind, value, |before|, |before| + n)] + rest.tokens, rest.complete)
        case _ => rest
  {
    hide TokenAt;
  }

  // ---- Every statement of the file ----

  /** Tokenizing statement `x` alone gives the tokens `group` it has in the file, moved to its own start. */
  ghost predicate ReadsAs(x: string, group: seq<Token>) {
    group != [] && Lex(x, NATIVE) == Lexed(MoveAll(group, -group[0].start), true)
  }

  ghost predicate AllReadAs(statements: seq<string>, groups: seq<seq<Token>>) {
    && |statements| == |groups|
    && forall k :: 0 <= k < |groups| ==> ReadsAs(statements[k], groups[k])
  }

  lemma {:induction false} FirstStatementOf(sql: string, tokens: seq<Token>, first: int)
    requires FirstSemicolon(tokens) < |tokens| && forall t :: t in tokens ==> 0 <= t.start
    ensures
      var c := FirstSemicolon(tokens);
      StatementsOf(sql, tokens, first)
        == S.Prepend(Slice(sql, if first < 0 then tokens[0].start else first, tokens[c].end), StatementsOf(sql, tokens[c + 1..], -1))
    decreases |tokens|
  {
    assert tokens[0] in tokens;
    if !IsSemicolon(tokens[0]) {
      FirstStatementOf(sql, tokens[1..], if first < 0 then tokens[0].start else first);
      assert tokens[1..][FirstSemicolon(tokens)..] == tokens[FirstSemicolon(tokens) + 1..];
    }
  }

  lemma {:induction false} NoStatement(sql: string, tokens: seq<Token>, first: int)
    requires FirstSemicolon(tokens) == |tokens| && forall t :: t in tokens ==> 0 <= t.start
    ensures StatementsOf(sql, tokens, first) == if tokens == [] && first < 0 then S.Ok([]) else S.Err(UnterminatedStatement)
    decreases |tokens|
  {
    if tokens != [] {
      assert tokens[0] in tokens;
      NoStatement(sql, tokens[1..], if first < 0 then tokens[0].start else first);
    }
  }

  lemma SliceHasNoControl(sql: string, lo: nat, hi: nat)
    requires lo <= hi <= |sql| && !HasControl(sql)
    ensures !HasControl(sql[lo..hi])
  {
    forall i | 0 <= i < hi - lo
      ensures !IsControl(sql[lo..hi][i])
    {
      assert sql[lo..hi][i] == sql[lo + i];
    }
  }

  lemma SkipBoundary(sql: string, index: nat, n: nat)
    requires index < |sql| && Laws.AtBoundary(sql[..index], sql[index..], ASCII)
    requires 0 < n && S.BlankAt(false, sql[index..], ASCII) == Found(n)
    ensures index + n <= |sql| && Laws.AtBoundary(sql[..index + n], sql[index + n..], ASCII)
  {
    Laws.BlankKeepsBoundary(sql[..index], sql[index..], ASCII);
    hide *;
    assert sql[..index] + sql[index..][..n] == sql[..index + n] && sql[index..][n..] == sql[index + n..];
  }

  /** One statement, cut out at its first token, and what is left after it. */
  lemma CutHere(sql: string, index: nat) returns (k: nat)
    requires index < |sql| && !HasControl(sql) && Laws.AtBoundary(sql[..index], sql[index..], ASCII)
    requires TokenAt(sql[..index], sql[index..], NATIVE).Emit? && HasStatement(sql[..index], sql[index..])
    ensures 0 < k && index + k <= |sql| && Laws.AtBoundary(sql[..index + k], sql[index + k..], ASCII)
    ensures
      var tokens := TokensAt(sql, index).tokens;
      var c := FirstSemicolon(tokens);
      && c < |tokens| && tokens[0].start == index && tokens[c].end == index + k
      && TokensAt(sql, index + k) == Lexed(tokens[c + 1..], true)
      && ReadsAs(sql[index..index + k], tokens[..c + 1])
  {
    hide *;
    var before, s := sql[..index], sql[index..];
    var tokens := TokensFrom(before, s, NATIVE).tokens;
    var c := FirstSemicolon(tokens);
    NoIdentifierHere(sql, index);
    k := CutTokens(before, "", s);
    OpenCut(before, "", s, k);
    FirstStart(before, s);
    assert before + s[..k] == sql[..index + k] && s[k..] == sql[index + k..] && s[..k] == sql[index..index + k];
    SliceHasNoControl(sql, index, index + k);
    assert tokens[..c + 1][0] == tokens[0];
    MakeReadsAs(s[..k], tokens[..c + 1], index);
    Laws.SemicolonBoundary(before, s[..k], s[k..], ASCII);
    TokensAtMeans(sql, index);
    TokensAtMeans(sql, index + k);
  }

  lemma TokensAtMeans(sql: string, index: nat)
    requires index <= |sql|
    ensures TokensAt(sql, index) == TokensFrom(sql[..index], sql[index..], NATIVE)
  {
  }

  lemma FirstStart(before: string, s: string)
    requires s != "" && TokenAt(before, s, NATIVE).Emit?
    ensures TokensFrom(before, s, NATIVE).tokens != [] && TokensFrom(before, s, NATIVE).tokens[0].start == |before|
  {
  }

  lemma MakeReadsAs(x: string, group: seq<Token>, start: nat)
    requires !HasControl(x) && group != [] && group[0].start == start
    requires TokensFrom("", x, NATIVE) == Lexed(MoveAll(group, 0 - start), true)
    ensures ReadsAs(x, group)
  {
    hide TokensFrom, HasControl, MoveAll;
  }

  lemma NoIdentifierHere(sql: string, index: nat)
    requires index < |sql| && Laws.AtBoundary(sql[..index], sql[index..], ASCII)
    requires TokenAt(sql[..index], sql[index..], NATIVE).Emit?
    ensures S.EndsIdentifier(sql[..index]) == S.EndsIdentifier("")
  {
    assert sql[index..][0] != '\n';
  }

  lemma {:induction false} GroupsFrom(sql: string, index: nat)
    requires index <= |sql| && !HasControl(sql) && Laws.AtBoundary(sql[..index], sql[index..], ASCII)
    requires TokensAt(sql, index).complete && StatementsOf(sql, TokensAt(sql, index).tokens, -1).Ok?
    ensures AllReadAs(StatementsOf(sql, TokensAt(sql, index).tokens, -1).value, GroupsOf(TokensAt(sql, index).tokens))
    decreases |sql| - index
  {
    hide *;
    var tokens := TokensAt(sql, index).tokens;
    if index == |sql| {
      GroupsAtEnd(sql);
      return;
    }
    var step := TokenAt(sql[..index], sql[index..], NATIVE);
    NextToken(sql, index, step);
    match step {
      case Incomplete => return;
      case Skip(n) =>
        TokenHere(sql, -1, index, step);
        SkipBoundary(sql, index, n);
        GroupsFrom(sql, index + n);
      case Emit(_, _, _) =>
        LocatedAt(sql, index);
        if FirstSemicolon(tokens) == |tokens| {
          NoStatement(sql, tokens, -1);
          return;
        }
        HasStatementAt(sql, index);
        var k := CutHere(sql, index);
        var c := FirstSemicolon(tokens);
        FirstStatementOf(sql, tokens, -1);
        SliceMeans(sql, index, index + k);
        PrependOk(sql[index..index + k], StatementsOf(sql, tokens[c + 1..], -1));
        GroupsFrom(sql, index + k);
        AllReadAsCons(sql[index..index + k], tokens, StatementsOf(sql, tokens[c + 1..], -1).value);
    }
  }

  lemma GroupsAtEnd(sql: string)
    ensures StatementsOf(sql, TokensAt(sql, |sql|).tokens, -1) == S.Ok([])
    ensures AllReadAs([], GroupsOf(TokensAt(sql, |sql|).tokens))
  {
    assert sql[|sql|..] == "";
  }

  lemma LocatedAt(sql: string, index: nat)
    requires index < |sql|
    ensures forall t :: t in TokensAt(sql, index).tokens ==> 0 <= t.start
    ensures TokenAt(sql[..index], sql[index..], NATIVE).Emit? ==> TokensAt(sql, index).tokens != []
  {
    TokensLocated(sql[..index], sql[index..], NATIVE);
  }

  lemma HasStatementAt(sql: string, index: nat)
    requires index <= |sql| && TokensAt(sql, index).complete
    requires FirstSemicolon(TokensAt(sql, index).tokens) < |TokensAt(sql, index).tokens|
    ensures HasStatement(sql[..index], sql[index..])
  {
  }

  lemma SliceMeans(sql: string, start: nat, end: nat)
    requires start <= end <= |sql|
    ensures Slice(sql, start, end) == sql[start..end]
  {
  }

  lemma PrependOk(x: string, rest: S.Result<seq<string>>)
    ensures S.Prepend(x, rest).Ok? ==> rest.Ok? && S.Prepend(x, rest).value == [x] + rest.value
    ensures S.Prepend(x, rest).Err? ==> rest.Err?
  {
  }

  lemma AllReadAsCons(x: string, tokens: seq<Token>, statements: seq<string>)
    requires FirstSemicolon(tokens) < |tokens| && ReadsAs(x, tokens[..FirstSemicolon(tokens) + 1])
    requires AllReadAs(statements, GroupsOf(tokens[FirstSemicolon(tokens) + 1..]))
    ensures AllReadAs([x] + statements, GroupsOf(tokens))
  {
    hide ReadsAs, FirstSemicolon;
  }

  /** Reading a file's statements one by one is reading the file: the native readers that tokenize each statement by
  itself see exactly the tokens the file has there. */
  lemma StatementsReadAlone(sql: string)
    requires Lex(sql, NATIVE).complete && S.Split(sql, ASCII).Ok?
    ensures AllReadAs(S.Split(sql, ASCII).value, GroupsOf(Lex(sql, NATIVE).tokens))
  {
    assert sql[..0] == "" && sql[0..] == sql;
    ScannersAgree(sql);
    GroupsFrom(sql, 0);
  }
}
