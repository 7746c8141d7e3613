/** What expand-only admission promises of a whole file: it reads files one after the other, and nothing it accepts takes
anything away. */
module ExpandOnlyLaws {
  import opened Basics
  import opened TextSplit
  import opened SqlText
  import opened SqlTokens
  import opened ExpandOnlyGrammar
  import opened ExpandOnlyAdmission
  import Roles = ExpandOnlyRoles
  import Agreement = ScannerAgreement

  // ---- Parentheses, counted ----

  ghost predicate NeverBelow(tokens: Tokens, i: nat) { forall n :: i <= n <= |tokens| ==> Depth(tokens, n) >= 0 }

  lemma {:induction false} BalancedFrom(tokens: Tokens, i: nat)
    requires i <= |tokens| && Depth(tokens, i) >= 0
    ensures Balanced(tokens, i, Depth(tokens, i)) <==> Depth(tokens, |tokens|) == 0 && NeverBelow(tokens, i)
    decreases |tokens| - i
  {
    if i < |tokens| {
      var next := Depth(tokens, i + 1);
      if next >= 0 { BalancedFrom(tokens, i + 1); }
      assert Balanced(tokens, i, Depth(tokens, i)) <==> next >= 0 && Balanced(tokens, i + 1, next);
      assert NeverBelow(tokens, i) <==> next >= 0 && NeverBelow(tokens, i + 1);
    }
  }

  /** Balanced means that no beginning closes more than it opens and all of it closes as many. */
  lemma BalancedMeans(tokens: Tokens)
    ensures Balanced(tokens, 0, 0) <==>
      Depth(tokens, |tokens|) == 0 && NeverBelow(tokens, 0)
  {
    BalancedFrom(tokens, 0);
  }

  // ---- ALTER TABLE ----

  /** Up to where `depth` parentheses are closed, at least one of them is open; behind it none is. */
  lemma {:induction false} SeekDepth(tokens: Tokens, i: nat, depth: nat)
    requires depth > 0 && i <= |tokens|
    ensures forall j :: i <= j <= |tokens| && j <= Seek(tokens, i, depth) ==> Depth(tokens, j) > Depth(tokens, i) - depth
    ensures Seek(tokens, i, depth) < |tokens| ==> Depth(tokens, Seek(tokens, i, depth) + 1) == Depth(tokens, i) - depth
    decreases |tokens| - i
  {
    if i < |tokens| {
      if tokens[i] == "(" { SeekDepth(tokens, i + 1, depth + 1); }
      else if tokens[i] == ")" { if depth > 1 { SeekDepth(tokens, i + 1, depth - 1); } }
      else { SeekDepth(tokens, i + 1, depth); }
    }
  }

  lemma CloseDepth(tokens: Tokens, i: nat)
    requires i < |tokens| && tokens[i] == "("
    ensures forall j :: i < j <= |tokens| && j <= Close(tokens, i) ==> Depth(tokens, j) > Depth(tokens, i)
    ensures Close(tokens, i) < |tokens| ==> Depth(tokens, Close(tokens, i) + 1) == Depth(tokens, i)
  {
    hide Seek;
    SeekDepth(tokens, i + 1, 1);
  }

  /** The end of an item is the first comma outside parentheses. */
  lemma {:induction false} ItemCommas(tokens: Tokens, i: nat)
    requires i <= |tokens| && Depth(tokens, i) == 0 && NeverBelow(tokens, 0)
    ensures
      var next := ItemEnd(tokens, i, |tokens|);
      && (forall j :: i <= j < next && j < |tokens| && tokens[j] == "," ==> Depth(tokens, j) > 0)
      && (next < |tokens| ==> tokens[next] == "," && Depth(tokens, next) == 0)
    decreases |tokens| - i
  {
    hide Close;
    if i < |tokens| && tokens[i] != "," {
      if tokens[i] == "(" {
        CloseDepth(tokens, i);
        if Close(tokens, i) < |tokens| { ItemCommas(tokens, Close(tokens, i) + 1); }
      } else {
        var below := Depth(tokens, i + 1);
        ItemCommas(tokens, i + 1);
      }
    }
  }

  lemma ItemsOpen(tokens: Tokens, start: nat, end: int)
    requires ItemsMarks(tokens, start, end, true).Some? && start < end
    ensures At(tokens, start) == "ADD" && ItemsMarks(tokens, ItemEnd(tokens, start, end) + 1, end, true).Some?
  {
    hide ColumnMarks, ItemEnd;
  }

  lemma CommaDepth(tokens: Tokens, i: nat)
    requires i < |tokens| && tokens[i] == "," && Depth(tokens, i) == 0
    ensures Depth(tokens, i + 1) == 0
  {
  }

  lemma {:induction false} ItemsAdd(tokens: Tokens, start: nat)
    requires start <= |tokens| && Depth(tokens, start) == 0 && NeverBelow(tokens, 0)
    requires ItemsMarks(tokens, start, |tokens|, true).Some?
    ensures start < |tokens| ==> At(tokens, start) == "ADD"
    ensures forall i :: start <= i < |tokens| && tokens[i] == "," && Depth(tokens, i) == 0 ==> i + 1 == |tokens| || At(tokens, i + 1) == "ADD"
    decreases |tokens| - start
  {
    hide ItemsMarks, ItemEnd, Depth;
    if start < |tokens| {
      ItemsOpen(tokens, start, |tokens|);
      ItemCommas(tokens, start);
      var next := ItemEnd(tokens, start, |tokens|);
      if next < |tokens| {
        CommaDepth(tokens, next);
        ItemsAdd(tokens, next + 1);
      }
    }
  }

  /** A dotted name has no parentheses. */
  lemma {:induction false} DotsDepth(tokens: Tokens, end: nat)
    requires end <= |tokens| && 0 <= DotsEnd(tokens, end)
    ensures DotsEnd(tokens, end) <= |tokens| && Depth(tokens, DotsEnd(tokens, end)) == Depth(tokens, end)
    decreases |tokens| - end
  {
    hide IsIdentifier;
    if At(tokens, end) == "." {
      IdentifierHere(tokens, end + 1);
      IdentifierDepth(tokens, end + 1);
      DotsDepth(tokens, end + 2);
    }
  }

  lemma IdentifierHere(tokens: Tokens, i: nat)
    requires IsIdentifier(At(tokens, i))
    ensures i < |tokens|
  {
  }

  lemma IdentifierDepth(tokens: Tokens, i: nat)
    requires i < |tokens| && IsIdentifier(tokens[i])
    ensures Depth(tokens, i + 1) == Depth(tokens, i)
  {
    assert tokens[i][0] != '(' && tokens[i][0] != ')';
  }

  lemma AlterOpen(tokens: Tokens)
    requires At(tokens, 0) == "ALTER" && At(tokens, 1) == "TABLE" && Admitted(tokens)
    ensures NameEnd(tokens, 2) >= 0 && At(tokens, NameEnd(tokens, 2)) == "ADD" && IsIdentifier(At(tokens, 2))
    ensures ItemsMarks(tokens, NameEnd(tokens, 2), |tokens|, true).Some? && Balanced(tokens, 0, 0)
  {
    hide ItemsMarks, DotsEnd, IndexHeader, TableHeader, ExpressionsAllowed, Paired, Balanced, IsIdentifier;
  }

  lemma NameDepth(tokens: Tokens)
    requires At(tokens, 0) == "ALTER" && At(tokens, 1) == "TABLE" && IsIdentifier(At(tokens, 2)) && NameEnd(tokens, 2) >= 0
    ensures NameEnd(tokens, 2) <= |tokens| && Depth(tokens, NameEnd(tokens, 2)) == 0
  {
    IdentifierHere(tokens, 2);
    IdentifierDepth(tokens, 2);
    assert Depth(tokens, 1) == 0 && Depth(tokens, 2) == 0;
    DotsDepth(tokens, 3);
  }

  /** In an admitted ALTER TABLE the first action, and every action behind a comma outside parentheses, is an ADD. */
  lemma QuotedActionsAdd(tokens: Tokens)
    requires At(tokens, 0) == "ALTER" && At(tokens, 1) == "TABLE" && Admitted(tokens)
    ensures 2 < NameEnd(tokens, 2) < |tokens| && tokens[NameEnd(tokens, 2)] == "ADD"
    ensures forall i :: NameEnd(tokens, 2) <= i < |tokens| && tokens[i] == "," && Depth(tokens, i) == 0 ==>
      i + 1 == |tokens| || tokens[i + 1] == "ADD"
  {
    hide Depth, ItemsMarks, NameEnd, Admitted, Balanced;
    AlterOpen(tokens);
    NameDepth(tokens);
    BalancedMeans(tokens);
    ItemsAdd(tokens, NameEnd(tokens, 2));
    InBounds(tokens, NameEnd(tokens, 2));
  }

  lemma InBounds(tokens: Tokens, i: int)
    requires At(tokens, i) == "ADD"
    ensures 0 <= i < |tokens| && tokens[i] == "ADD"
  {
  }

  /** No list of actions ends in a comma. */
  lemma NoLastComma(tokens: Tokens)
    requires OnlyAdds(tokens) && tokens != []
    ensures tokens[|tokens| - 1] != ","
  {
    hide Depth;
    assert AddAfter(tokens, |tokens| - 1);
  }

  lemma AlterText(quoted: Tokens)
    requires |quoted| > 1 && quoted[0] == "ALTER" && quoted[1] == "TABLE"
    ensures |Unspaced(quoted)| >= 6 && Unspaced(quoted)[..6] == "ALTER "
    ensures |quoted| > 2 ==> StartsWith(Unspaced(quoted), "ALTER TABLE ")
    ensures |quoted| == 2 ==> Unspaced(quoted) == "ALTER TABLE"
  {
    var words := Unquoted(quoted);
    assert words[0] == "ALTER" && words[1] == "TABLE";
    var rest := words[2..];
    assert words[1..] == ["TABLE"] + rest && words == ["ALTER"] + words[1..];
    hide *;
    SpacedOut(quoted);
    JoinCons("ALTER", words[1..], ' ');
    if rest == [] { JoinOne("TABLE", ' '); assert words[1..] == ["TABLE"]; } else { JoinCons("TABLE", rest, ' '); }
    AlterPrefix(Unspaced(quoted), Join(words[1..], ' '), if rest == [] then "" else Join(rest, ' '), rest == []);
  }

  lemma SpacedOut(quoted: Tokens)
    requires quoted != []
    ensures Unspaced(quoted) == Join(Unquoted(quoted), ' ')
  {
    hide Unquoted, Join;
  }

  lemma JoinOne(part: string, c: char)
    ensures Join([part], c) == part
  {
  }

  lemma AlterPrefix(text: string, after: string, rest: string, short: bool)
    requires text == "ALTER" + [' '] + after && after == if short then "TABLE" else "TABLE" + [' '] + rest
    ensures |text| >= 6 && text[..6] == "ALTER "
    ensures short ==> text == "ALTER TABLE"
    ensures !short ==> StartsWith(text, "ALTER TABLE ")
  {
    if !short { assert text == "ALTER TABLE " + rest; }
  }

  lemma AlterIsNothingElse(text: string)
    requires |text| >= 6 && text[..6] == "ALTER "
    ensures text != "BEGIN" && text != "COMMIT" && !StartsWith(text, "INSERT INTO ") && !CreatesObject(text)
  {
    assert text[0] == 'A';
  }

  lemma AlterChecked(quoted: Tokens)
    requires |quoted| > 1 && quoted[0] == "ALTER" && quoted[1] == "TABLE" && StatementAllowed(quoted)
    ensures Admitted(quoted) && AlterAllowed(Unquoted(quoted))
  {
    hide *;
    AlterText(quoted);
    AlterIsNothingElse(Unspaced(quoted));
    AllowedOpen(quoted);
    if |quoted| == 2 { ShortText(Unspaced(quoted)); }
  }

  lemma ShortText(text: string)
    requires text == "ALTER TABLE"
    ensures !StartsWith(text, "ALTER TABLE ")
  {
  }

  lemma AllowedOpen(quoted: Tokens)
    requires quoted != [] && StatementAllowed(quoted)
    ensures
      var text := Unspaced(quoted);
      text != "BEGIN" && text != "COMMIT" && !StartsWith(text, "INSERT INTO ") && !CreatesObject(text) ==>
        StartsWith(text, "ALTER TABLE ") && Admitted(quoted) && AlterAllowed(Unquoted(quoted))
    ensures DefinesStructure(Unspaced(quoted)) ==> Admitted(quoted)
    ensures forall token :: token in quoted ==> Unquote(token) !in DESTRUCTIVE
  {
    hide StartsWith, InsertAllowed, SchemaAllowed, Admitted, HasQuery, HasPair, CreatesObject, AlterAllowed, IsSeed, Unspaced, Unquote;
    forall token | token in quoted
      ensures Unquote(token) !in DESTRUCTIVE
    {
      var i :| 0 <= i < |quoted| && quoted[i] == token;
      assert Unquoted(quoted)[i] == Unquote(token);
    }
  }

  /** In an accepted ALTER TABLE every action is an ADD: the first, and each behind a comma outside parentheses. */
  lemma ActionsAdd(quoted: Tokens)
    requires |quoted| > 1 && quoted[0] == "ALTER" && quoted[1] == "TABLE" && StatementAllowed(quoted)
    ensures
      var first := NameEnd(quoted, 2);
      && 2 < first < |quoted| && quoted[first] == "ADD"
      && forall i :: first <= i < |quoted| && quoted[i] == "," && Depth(quoted, i) == 0 ==> At(quoted, i + 1) == "ADD"
  {
    hide Depth, NameEnd, Admitted, StatementAllowed, OnlyAdds;
    AlterChecked(quoted);
    QuotedActionsAdd(quoted);
    var words := Unquoted(quoted);
    var add := Find(words, "ADD", 0);
    NoLastComma(words[add..]);
    assert words[|words| - 1] == words[add..][|words| - add - 1];
    assert Unquote(",") == ",";
  }

  // ---- Texts one after the other ----

  lemma {:induction false} QuoteGrows(s: string, t: string, quote: char)
    requires ReadQuote(s, quote, PLAIN).Some? && ReadQuote(s, quote, PLAIN).value.len < |s|
    ensures ReadQuote(s + t, quote, PLAIN) == ReadQuote(s, quote, PLAIN)
    decreases |s|
  {
    var whole := s + t;
    assert whole[0] == s[0];
    if s[0] == quote {
      if |s| > 1 && s[1] == quote {
        assert whole[2..] == s[2..] + t;
        QuoteGrows(s[2..], t, quote);
      }
    } else {
      assert whole[1..] == s[1..] + t;
      QuoteGrows(s[1..], t, quote);
    }
  }

  lemma NumberGrows(s: string, t: string)
    requires s != "" && s[|s| - 1] == ';'
    ensures NumberLength(s + t) == NumberLength(s) < |s|
  {
    Agreement.DigitsLocal(s, t);
    var whole := DigitsLength(s);
    assert whole < |s|;
    if s[whole] == '.' {
      assert whole + 1 < |s|;
      assert (s + t)[whole + 1..] == s[whole + 1..] + t && (s + t)[whole] == s[whole];
      Agreement.DigitsLocal(s[whole + 1..], t);
      assert s[whole + 1..][|s| - whole - 2] == ';';
    } else {
      assert (s + t)[whole] == s[whole];
    }
  }

  /** The simple tokens of a text that ends in a semicolon: blanks, words, numbers and symbols. */
  lemma SimpleGrows(before: string, s: string, t: string)
    requires s != "" && s[|s| - 1] == ';' && !Agreement.OpensConstruct(s) && !TokenAt(before, s, PLAIN).Incomplete?
    ensures TokenAt(before, s + t, PLAIN) == TokenAt(before, s, PLAIN)
  {
    hide NumberLength, WordLength, ReadQuote, CommentLength, LineLength;
    var whole := s + t;
    assert whole[0] == s[0];
    assert |s| >= 2 ==> whole[..2] == s[..2];
    assert |s| == 1 ==> s[0] == ';';
    if IsWordStart(s[0]) {
      WordShort(s);
      WordLocal(s, t);
      assert whole[..WordLength(s)] == s[..WordLength(s)];
    } else if IsDigit(s[0]) {
      NumberGrows(s, t);
      assert whole[..NumberLength(s)] == s[..NumberLength(s)];
    }
    assert StartsWith(whole, "--") ==> StartsWith(s, "--");
    assert StartsWith(whole, "/*") ==> StartsWith(s, "/*");
  }

  lemma WordShort(s: string)
    requires s != "" && s[|s| - 1] == ';'
    ensures WordLength(s) < |s|
  {
  }

  lemma CommentGrows(before: string, s: string, t: string)
    requires StartsWith(s, "--") || StartsWith(s, "/*")
    requires TokenAt(before, s, PLAIN).Skip? && TokenAt(before, s, PLAIN).len < |s|
    ensures TokenAt(before, s + t, PLAIN) == TokenAt(before, s, PLAIN)
  {
    var whole := s + t;
    assert whole[..2] == s[..2] && whole[0] == s[0] == s[..2][0];
    if StartsWith(s, "--") {
      LineLocal(s, t);
    } else {
      assert whole[2..] == s[2..] + t;
      CommentLocal(s[2..], t, 1, false);
    }
  }

  lemma QuotedGrows(before: string, s: string, t: string)
    requires s != "" && (s[0] == '\'' || s[0] == '"')
    requires TokenAt(before, s, PLAIN).Emit? && TokenAt(before, s, PLAIN).len < |s|
    ensures TokenAt(before, s + t, PLAIN) == TokenAt(before, s, PLAIN)
  {
    hide ReadQuote, CommentLength, LineLength;
    var whole := s + t;
    assert whole[0] == s[0] && whole[1..] == s[1..] + t;
    assert |s| >= 2 ==> whole[..2][0] == s[0];
    QuoteGrows(s[1..], t, s[0]);
  }

  /** A step that ends before the end of a text that ends in a semicolon is the same step in any longer text. */
  lemma StepGrows(before: string, s: string, t: string)
    requires s != "" && s[|s| - 1] == ';' && !TokenAt(before, s, PLAIN).Incomplete?
    requires StepEnd(TokenAt(before, s, PLAIN)) < |s| || s == ";"
    ensures TokenAt(before, s + t, PLAIN) == TokenAt(before, s, PLAIN)
  {
    if !Agreement.OpensConstruct(s) {
      SimpleGrows(before, s, t);
    } else if StartsWith(s, "--") || StartsWith(s, "/*") {
      CommentIsSkip(before, s);
      CommentGrows(before, s, t);
    } else if s[0] == '\'' || s[0] == '"' {
      QuotedIsEmit(before, s);
      QuotedGrows(before, s, t);
    } else {
      DollarIncomplete(before, s);
    }
  }

  function StepEnd(step: TokenStep): nat {
    match step case Skip(n) => n case Emit(_, _, n) => n case Incomplete => 0
  }

  lemma CommentIsSkip(before: string, s: string)
    requires s != "" && (StartsWith(s, "--") || StartsWith(s, "/*"))
    ensures !TokenAt(before, s, PLAIN).Emit? && |s| >= 2
  {
    hide CommentLength, LineLength;
    assert s[0] == s[..2][0];
  }

  lemma QuotedIsEmit(before: string, s: string)
    requires s != "" && (s[0] == '\'' || s[0] == '"') && !TokenAt(before, s, PLAIN).Incomplete?
    ensures TokenAt(before, s, PLAIN).Emit? && (s == ";" ==> false)
  {
    hide ReadQuote, CommentLength, LineLength;
    assert |s| >= 2 ==> s[..2][0] == s[0];
  }

  lemma DollarIncomplete(before: string, s: string)
    requires s != "" && s[0] == '$'
    ensures TokenAt(before, s, PLAIN).Incomplete?
  {
    assert |s| >= 2 ==> s[..2][0] == s[0];
  }

  /** The text lexes completely and its last character is a semicolon token. */
  predicate EndsAt(before: string, s: string) {
    var lexed := TokensFrom(before, s, PLAIN);
    && lexed.complete && lexed.tokens != []
    && lexed.tokens[|lexed.tokens| - 1] == Token(Symbol, ";", |before| + |s| - 1, |before| + |s|)
  }

  lemma UnfoldTokens(before: string, s: string, step: TokenStep)
    requires s != "" && step == TokenAt(before, s, PLAIN)
    ensures step.Incomplete? ==> TokensFrom(before, s, PLAIN) == Lexed([], false)
    ensures step.Skip? ==> TokensFrom(before, s, PLAIN) == TokensFrom(before + s[..step.len], s[step.len..], PLAIN)
    ensures step.Emit? ==>
      TokensFrom(before, s, PLAIN) ==
      Cons(Token(step.kind, step.value, |before|, |before| + step.len), TokensFrom(before + s[..step.len], s[step.len..], PLAIN))
  {
    hide TokenAt;
  }

  /** A semicolon symbol is one semicolon. */
  lemma SymbolText(before: string, s: string)
    requires s != "" && TokenAt(before, s, PLAIN).Emit?
    ensures TokenAt(before, s, PLAIN).kind == Symbol ==> TokenAt(before, s, PLAIN).len == 1 && TokenAt(before, s, PLAIN).value == [s[0]]
  {
    hide ReadQuote, CommentLength, LineLength, WordLength, NumberLength;
  }

  lemma EndsAtMeans(before: string, s: string)
    ensures EndsAt(before, s) <==>
      var lexed := TokensFrom(before, s, PLAIN);
      && lexed.complete && lexed.tokens != []
      && lexed.tokens[|lexed.tokens| - 1] == Token(Symbol, ";", |before| + |s| - 1, |before| + |s|)
  {
    hide TokensFrom;
  }

  lemma LastOf(token: Token, rest: Lexed)
    ensures Cons(token, rest).complete == rest.complete && Cons(token, rest).tokens != []
    ensures
      var tokens := Cons(token, rest).tokens;
      tokens[|tokens| - 1] == if rest.tokens == [] then token else rest.tokens[|rest.tokens| - 1]
  {
  }

  lemma SliceLengths(before: string, s: string, n: nat)
    requires n <= |s|
    ensures |before + s[..n]| == |before| + n && |s[n..]| == |s| - n
    ensures n == |s| ==> s[n..] == ""
    ensures |s| == 1 ==> s == [s[0]]
  {
  }

  /** Where a text that ends at its semicolon goes on after its first step. */
  lemma EndsOn(before: string, s: string) returns (n: nat)
    requires EndsAt(before, s)
    ensures s != "" && !TokenAt(before, s, PLAIN).Incomplete? && n == StepEnd(TokenAt(before, s, PLAIN)) && 0 < n <= |s|
    ensures n == |s| ==> s == ";" && TokenAt(before, s, PLAIN).Emit?
    ensures n < |s| ==> EndsAt(before + s[..n], s[n..])
  {
    hide *;
    EndsAtMeans(before, s);
    NothingLexed(before);
    var step := TokenAt(before, s, PLAIN);
    n := StepEnd(step);
    UnfoldTokens(before, s, step);
    StepLengths(before, s);
    StepEndIs(step);
    SliceLengths(before, s, n);
    EndsAtMeans(before + s[..n], s[n..]);
    NothingLexed(before + s[..n]);
    if step.Emit? {
      LastOf(Token(step.kind, step.value, |before|, |before| + n), TokensFrom(before + s[..n], s[n..], PLAIN));
      SymbolText(before, s);
    }
  }

  lemma NothingLexed(before: string)
    ensures TokensFrom(before, "", PLAIN) == Lexed([], true)
  {
  }

  lemma StepLengths(before: string, s: string)
    requires s != "" && !TokenAt(before, s, PLAIN).Incomplete?
    ensures 0 < StepEnd(TokenAt(before, s, PLAIN)) <= |s|
  {
  }

  lemma {:induction false} LastCharacter(before: string, s: string)
    requires EndsAt(before, s)
    ensures s != "" && s[|s| - 1] == ';'
    decreases |s|
  {
    hide EndsAt, TokenAt, TokensFrom;
    var n := EndsOn(before, s);
    if n < |s| { LastCharacter(before + s[..n], s[n..]); }
  }

  lemma SlicesThen(before: string, s: string, t: string, n: nat)
    requires n <= |s|
    ensures (s + t)[..n] == s[..n] && (s + t)[n..] == s[n..] + t && (before + s[..n]) + s[n..] == before + s
    ensures n == |s| ==> s[n..] == "" && s[..n] == s && (s + t)[n..] == t
  {
  }

  lemma AppendCons(token: Token, rest: seq<Token>, last: Lexed)
    ensures Append([token] + rest, last) == Cons(token, Append(rest, last))
    ensures Append([], last) == last
  {
    assert [token] + (rest + last.tokens) == ([token] + rest) + last.tokens;
    assert [] + last.tokens == last.tokens;
  }

  lemma ConsTokens(token: Token, rest: Lexed)
    ensures Cons(token, rest).tokens == [token] + rest.tokens
  {
  }

  /** A text that ends at its semicolon is read in front of any other text as it is alone. */
  lemma {:induction false} LexThen(before: string, s: string, t: string)
    requires EndsAt(before, s)
    ensures TokensFrom(before, s + t, PLAIN) == Append(TokensFrom(before, s, PLAIN).tokens, TokensFrom(before + s, t, PLAIN))
    decreases |s|
  {
    hide *;
    LastCharacter(before, s);
    var n := EndsOn(before, s);
    var step := TokenAt(before, s, PLAIN);
    StepEndIs(step);
    StepGrows(before, s, t);
    UnfoldTokens(before, s, step);
    UnfoldTokens(before, s + t, step);
    SlicesThen(before, s, t, n);
    var rest, last := TokensFrom(before + s[..n], s[n..], PLAIN), TokensFrom(before + s, t, PLAIN);
    if n < |s| {
      LexThen(before + s[..n], s[n..], t);
    } else {
      NothingLexed(before + s);
    }
    var token := if step.Emit? then Token(step.kind, step.value, |before|, |before| + n) else Token(Symbol, "", 0, 0);
    AppendCons(token, rest.tokens, last);
    ConsTokens(token, rest);
  }

  lemma StepEndIs(step: TokenStep)
    ensures step.Skip? || step.Emit? ==> StepEnd(step) == step.len
  {
  }

  /** The default mode never looks back. */
  lemma {:induction false} ReadAnywhere(before: string, before': string, s: string)
    ensures TokensFrom(before, s, PLAIN).complete == TokensFrom(before', s, PLAIN).complete
    ensures Texts(TokensFrom(before, s, PLAIN).tokens) == Texts(TokensFrom(before', s, PLAIN).tokens)
    decreases |s|
  {
    if s != "" {
      var step := TokenAt(before, s, PLAIN);
      SameStep(before, before', s);
      UnfoldTokens(before, s, step);
      UnfoldTokens(before', s, step);
      StepLengths'(before, s);
      hide TokenAt, TokensFrom;
      var n := StepEnd(step);
      if !step.Incomplete? { ReadAnywhere(before + s[..n], before' + s[..n], s[n..]); }
      if step.Emit? {
        var rest, rest' := TokensFrom(before + s[..n], s[n..], PLAIN).tokens, TokensFrom(before' + s[..n], s[n..], PLAIN).tokens;
        TextsCons(Token(step.kind, step.value, |before|, |before| + n), rest);
        TextsCons(Token(step.kind, step.value, |before'|, |before'| + n), rest');
      }
    }
  }

  lemma StepLengths'(before: string, s: string)
    requires s != ""
    ensures !TokenAt(before, s, PLAIN).Incomplete? ==> 0 < StepEnd(TokenAt(before, s, PLAIN)) <= |s|
  {
  }

  lemma SameStep(before: string, before': string, s: string)
    requires s != ""
    ensures TokenAt(before, s, PLAIN) == TokenAt(before', s, PLAIN)
  {
    hide ReadQuote, CommentLength, LineLength, WordLength, NumberLength;
  }

  lemma TextsCons(token: Token, rest: seq<Token>)
    ensures Texts([token] + rest) == [TextOf(token)] + Texts(rest)
  {
    hide TextOf;
  }

  lemma TextsThen(a: seq<Token>, b: seq<Token>)
    ensures Texts(a + b) == Texts(a) + Texts(b)
  {
    hide TextOf;
  }

  // ---- Files one after the other ----

  /** A file that lexes completely and ends with the semicolon of its last statement. */
  predicate Closed(sql: string) { !HasControl(sql) && EndsAt("", sql) }

  lemma ControlThen(a: string, b: string)
    ensures HasControl(a + b) <==> HasControl(a) || HasControl(b)
  {
    if HasControl(a) {
      var i :| 0 <= i < |a| && IsControl(a[i]);
      assert IsControl((a + b)[i]);
    }
    if HasControl(b) {
      var i :| 0 <= i < |b| && IsControl(b[i]);
      assert IsControl((a + b)[|a| + i]);
    }
  }

  lemma StatementsUnfold(tokens: Tokens)
    ensures
      var n := Find(tokens, ";", 0);
      Statements(tokens) == Unless(tokens[..n]) + if n == |tokens| then [] else Statements(tokens[n + 1..])
  {
    hide Find, Unless;
  }

  lemma FoundThen(a: Tokens, b: Tokens, n: nat)
    requires n < |a|
    ensures (a + b)[..n] == a[..n] && (a + b)[n + 1..] == a[n + 1..] + b
    ensures n + 1 == |a| ==> a[n + 1..] == [] && (a + b)[n + 1..] == b
  {
  }

  lemma {:induction false} StatementsThen(a: Tokens, b: Tokens)
    requires a != [] && a[|a| - 1] == ";"
    ensures Statements(a + b) == Statements(a) + Statements(b)
    decreases |a|
  {
    hide *;
    var n := Find(a, ";", 0);
    FindThen(a, b);
    FoundThen(a, b, n);
    StatementsUnfold(a);
    StatementsUnfold(a + b);
    var first := Unless(a[..n]);
    if n + 1 == |a| {
      NoStatements();
      assert first + [] == first;
    } else {
      StatementsThen(a[n + 1..], b);
      assert first + (Statements(a[n + 1..]) + Statements(b)) == (first + Statements(a[n + 1..])) + Statements(b);
    }
  }

  lemma NoStatements()
    ensures Statements([]) == []
  {
  }

  lemma FindThen(a: Tokens, b: Tokens)
    requires a != [] && a[|a| - 1] == ";"
    ensures Find(a + b, ";", 0) == Find(a, ";", 0) < |a|
  {
    var n, m := Find(a, ";", 0), Find(a + b, ";", 0);
    assert forall i :: 0 <= i < |a| ==> (a + b)[i] == a[i];
  }

  lemma ClosedTexts(a: string)
    requires Closed(a)
    ensures Lex(a, PLAIN).complete && Texts(Lex(a, PLAIN).tokens) != []
    ensures Texts(Lex(a, PLAIN).tokens)[|Texts(Lex(a, PLAIN).tokens)| - 1] == ";"
  {
    hide TokensFrom;
    assert UpperText(";") == ";";
  }

  /** Reading two files in one is reading them one after the other. */
  lemma ReadThen(a: string, b: string)
    requires Closed(a)
    ensures Lex(a + b, PLAIN).complete == Lex(b, PLAIN).complete
    ensures Lex(b, PLAIN).complete ==> StatementsIn(a + b) == StatementsIn(a) + StatementsIn(b)
  {
    ControlThen(a, b);
    LexThen("", a, b);
    ReadAnywhere("" + a, "", b);
    ClosedTexts(a);
    hide TokensFrom, HasControl, Texts, Statements;
    if Lex(b, PLAIN).complete {
      TextsThen(TokensFrom("", a, PLAIN).tokens, TokensFrom("" + a, b, PLAIN).tokens);
      StatementsThen(Texts(Lex(a, PLAIN).tokens), Texts(Lex(b, PLAIN).tokens));
    }
  }

  /** A file without a statement: refused alone, harmless beside another. */
  predicate Idle(sql: string) { Lex(sql, PLAIN).complete && StatementsIn(sql) == [] }

  lemma AllAllowedThen(a: seq<Tokens>, b: seq<Tokens>)
    ensures AllAllowed(a + b) <==> AllAllowed(a) && AllAllowed(b)
  {
    hide StatementAllowed;
    assert forall x :: x in a + b <==> x in a || x in b;
  }

  lemma ExpandsMeans(sql: string)
    ensures ExpandsOnly(sql) <==> Lex(sql, PLAIN).complete && StatementsIn(sql) != [] && AllAllowed(StatementsIn(sql))
    ensures Idle(sql) <==> Lex(sql, PLAIN).complete && StatementsIn(sql) == []
  {
    hide Lex, StatementsIn, AllAllowed;
  }

  lemma NoneAllowed()
    ensures AllAllowed([])
  {
  }

  /** Two files in one are accepted exactly if each is accepted or idle and not both are idle. */
  lemma FilesTogether(a: string, b: string)
    requires Closed(a)
    ensures ExpandsOnly(a + b) <==> (ExpandsOnly(a) || Idle(a)) && (ExpandsOnly(b) || Idle(b)) && !(Idle(a) && Idle(b))
  {
    hide *;
    ReadThen(a, b);
    ClosedTexts(a);
    ExpandsMeans(a);
    ExpandsMeans(b);
    ExpandsMeans(a + b);
    AllAllowedThen(StatementsIn(a), StatementsIn(b));
    NoneAllowed();
  }

  function Together(files: seq<string>): string
    decreases |files|
  {
    if files == [] then "" else files[0] + Together(files[1..])
  }

  /** Any number of closed files with statements are accepted together exactly if each is accepted alone. */
  lemma {:induction false} ManyFilesTogether(files: seq<string>)
    requires files != [] && forall sql :: sql in files ==> Closed(sql) && !Idle(sql)
    ensures ExpandsOnly(Together(files)) <==> forall sql :: sql in files ==> ExpandsOnly(sql)
    ensures !Idle(Together(files))
    decreases |files|
  {
    var first, rest := files[0], files[1..];
    assert files == [first] + rest;
    hide Closed, ExpandsOnly, StatementsIn, Lex;
    if rest == [] {
      assert Together(rest) == "" && first + "" == first;
    } else {
      ManyFilesTogether(rest);
      FilesTogether(first, Together(rest));
      IdleThen(first, Together(rest));
    }
  }

  lemma IdleThen(a: string, b: string)
    requires Closed(a) && !Idle(a)
    ensures !Idle(a + b)
  {
    ReadThen(a, b);
    ClosedTexts(a);
    hide Closed, Lex, StatementsIn;
  }

  // ---- What an accepted file holds ----

  lemma FirstOrLater(tokens: Tokens, text: string, n: nat)
    requires text in tokens && text != ";" && n <= |tokens| && (n < |tokens| ==> tokens[n] == ";")
    ensures text in tokens[..n] || (n < |tokens| && text in tokens[n + 1..])
  {
    var i :| 0 <= i < |tokens| && tokens[i] == text;
    if i < n { assert tokens[..n][i] == text; } else { assert tokens[n + 1..][i - n - 1] == text; }
  }

  lemma {:induction false} InSomeStatement(tokens: Tokens, text: string)
    requires text in tokens && text != ";"
    ensures exists statement :: statement in Statements(tokens) && text in statement
    decreases |tokens|
  {
    hide *;
    var n := Find(tokens, ";", 0);
    StatementsUnfold(tokens);
    FirstOrLater(tokens, text, n);
    if text in tokens[..n] {
      UnlessHas(tokens[..n], text);
      assert tokens[..n] in Statements(tokens);
    } else {
      InSomeStatement(tokens[n + 1..], text);
    }
  }

  lemma UnlessHas(statement: Tokens, text: string)
    requires text in statement
    ensures statement in Unless(statement)
  {
  }

  lemma WordStep(before: string, s: string)
    requires s != "" && TokenAt(before, s, PLAIN).Emit? && TokenAt(before, s, PLAIN).kind == Word
    ensures TokenAt(before, s, PLAIN).value != "" && IsWordStart(TokenAt(before, s, PLAIN).value[0])
  {
    hide ReadQuote, CommentLength, LineLength, NumberLength;
  }

  lemma {:induction false} WordsStart(before: string, s: string)
    ensures forall t :: t in TokensFrom(before, s, PLAIN).tokens && t.kind == Word ==> t.value != "" && IsWordStart(t.value[0])
    decreases |s|
  {
    NothingLexed(before);
    if s != "" {
      var step := TokenAt(before, s, PLAIN);
      StepLengths'(before, s);
      UnfoldTokens(before, s, step);
      if step.Emit? && step.kind == Word { WordStep(before, s); }
      hide TokenAt, TokensFrom;
      if !step.Incomplete? { WordsStart(before + s[..StepEnd(step)], s[StepEnd(step)..]); }
    }
  }

  /** A word or a quoted name stands among a statement's tokens in upper case. */
  lemma WordText(t: Token)
    requires t.kind == Quoted || (t.kind == Word && t.value != "" && IsWordStart(t.value[0]))
    ensures TextOf(t) != ";" && Unquote(TextOf(t)) == UpperText(t.value)
  {
    var text := TextOf(t);
    if t.kind == Quoted {
      assert text[1..|text| - 1] == UpperText(t.value);
    } else {
      assert text[0] == Upper(t.value[0]);
    }
  }

  /** No word and no quoted name of an accepted file is one that takes something away. */
  lemma NothingDestructive(sql: string, t: Token)
    requires ExpandsOnly(sql) && t in Lex(sql, PLAIN).tokens && (t.kind == Word || t.kind == Quoted)
    ensures UpperText(t.value) !in DESTRUCTIVE
  {
    WordsStart("", sql);
    hide TokensFrom, StatementAllowed, Statements, TextOf, UpperText;
    WordText(t);
    var tokens := Lex(sql, PLAIN).tokens;
    var i :| 0 <= i < |tokens| && tokens[i] == t;
    assert Texts(tokens)[i] == TextOf(t);
    InSomeStatement(Texts(tokens), TextOf(t));
    var statement :| statement in StatementsIn(sql) && TextOf(t) in statement;
    AllowedOpen(statement);
  }

  /** What every statement of an accepted file keeps to. */
  lemma AcceptedStatement(sql: string, statement: Tokens)
    requires ExpandsOnly(sql) && statement in StatementsIn(sql)
    ensures DefinesStructure(Unspaced(statement)) ==>
      Depth(statement, |statement|) == 0 && NeverBelow(statement, 0) && forall i :: 0 <= i < |statement| ==> Roles.Harmless(statement, i)
    ensures At(statement, 0) == "ALTER" && At(statement, 1) == "TABLE" ==>
      var first := NameEnd(statement, 2);
      && 2 < first < |statement| && statement[first] == "ADD"
      && forall i :: first <= i < |statement| && statement[i] == "," && Depth(statement, i) == 0 ==> At(statement, i + 1) == "ADD"
  {
    hide StatementAllowed, DefinesStructure, Statements, Lex, Unspaced, NameEnd, Depth, Admitted, Balanced;
    AllowedOpen(statement);
    if DefinesStructure(Unspaced(statement)) {
      AdmittedBalanced(statement);
      BalancedMeans(statement);
      Roles.CallsAllowed(statement);
    }
    if At(statement, 0) == "ALTER" && At(statement, 1) == "TABLE" { ActionsAdd(statement); }
  }

  lemma AdmittedBalanced(tokens: Tokens)
    requires Admitted(tokens)
    ensures Balanced(tokens, 0, 0)
  {
    hide Balanced, BodyMarks, ExpressionsAllowed, Paired;
  }
}
