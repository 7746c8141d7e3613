/** What the mode for reviewed new tables admits beyond the default mode of expand-only admission. */
module ExpandOnlyReviewed {
  import opened Basics
  import opened TextSplit
  import opened SqlText
  import opened SqlTokens
  import opened ExpandOnlyGrammar
  import opened ExpandOnlyAdmission
  import Laws = ExpandOnlyLaws

  // ---- A text the default lexer reads ----

  predicate AsciiText(s: string) { forall i :: 0 <= i < |s| ==> IsAscii(s[i]) }

  lemma {:induction false} QuoteReviewed(s: string, quote: char)
    requires ReadQuote(s, quote, PLAIN).Some?
    ensures ReadQuote(s, quote, REVIEWED) == ReadQuote(s, quote, PLAIN)
    ensures quote == '"' ==> AsciiText(ReadQuote(s, quote, PLAIN).value.value)
    decreases |s|
  {
    if s[0] == quote {
      if |s| > 1 && s[1] == quote { QuoteReviewed(s[2..], quote); }
    } else {
      QuoteReviewed(s[1..], quote);
    }
  }

  /** A word or a name is plain text, and no name is a semicolon. */
  predicate PlainStep(step: TokenStep) {
    step.Emit? ==>
      && (step.kind != Literal && step.kind != Number ==> AsciiText(step.value))
      && (step.kind == Quoted ==> step.value != ";")
      && (step.kind == Word || step.kind == Symbol ==> step.value != "" && step.value[0] != '"')
  }

  lemma WordAscii(s: string)
    ensures AsciiText(s[..WordLength(s)])
  {
  }

  /** What the default lexer reads, the reviewed one reads alike. */
  lemma StepReviewed(before: string, s: string)
    requires s != "" && !TokenAt(before, s, PLAIN).Incomplete?
    ensures TokenAt(before, s, REVIEWED) == TokenAt(before, s, PLAIN) && PlainStep(TokenAt(before, s, PLAIN))
  {
    WordAscii(s);
    if (s[0] == '\'' || s[0] == '"') && ReadQuote(s[1..], s[0], PLAIN).Some? { QuoteReviewed(s[1..], s[0]); }
    hide ReadQuote, CommentLength, LineLength, NumberLength, WordLength;
    assert IsWordStart(s[0]) ==> WordLength(s) > 0 by { WordStarts(s); }
  }

  lemma WordStarts(s: string)
    requires s != ""
    ensures IsWordStart(s[0]) ==> WordLength(s) > 0
  {
  }

  predicate PlainToken(t: Token) {
    && (t.kind != Literal && t.kind != Number ==> AsciiText(t.value))
    && (t.kind == Quoted ==> t.value != ";")
    && (t.kind == Word || t.kind == Symbol ==> t.value != "" && t.value[0] != '"')
  }

  lemma UnfoldReviewed(before: string, s: string, step: TokenStep)
    requires s != "" && step == TokenAt(before, s, REVIEWED) && !step.Incomplete?
    ensures step.Skip? ==> TokensFrom(before, s, REVIEWED) == TokensFrom(before + s[..step.len], s[step.len..], REVIEWED)
    ensures step.Emit? ==>
      TokensFrom(before, s, REVIEWED) ==
      Cons(Token(step.kind, step.value, |before|, |before| + step.len), TokensFrom(before + s[..step.len], s[step.len..], REVIEWED))
  {
    hide TokenAt;
  }

  lemma NothingReviewed(before: string)
    ensures TokensFrom(before, "", REVIEWED) == Lexed([], true) == TokensFrom(before, "", PLAIN)
  {
  }

  lemma CompleteStep(before: string, s: string)
    requires s != "" && TokensFrom(before, s, PLAIN).complete
    ensures !TokenAt(before, s, PLAIN).Incomplete?
  {
    hide TokenAt;
  }

  lemma ConsPlain(token: Token, rest: Lexed)
    ensures Cons(token, rest).complete == rest.complete
    ensures PlainToken(token) && (forall t :: t in rest.tokens ==> PlainToken(t)) ==> forall t :: t in Cons(token, rest).tokens ==> PlainToken(t)
  {
    hide PlainToken;
  }

  lemma TokenPlain(step: TokenStep, start: nat)
    requires step.Emit? && PlainStep(step)
    ensures PlainToken(Token(step.kind, step.value, start, start + step.len))
  {
    hide AsciiText;
  }

  lemma {:induction false} LexReviewed(before: string, s: string)
    requires TokensFrom(before, s, PLAIN).complete
    ensures TokensFrom(before, s, REVIEWED) == TokensFrom(before, s, PLAIN)
    ensures forall t :: t in TokensFrom(before, s, PLAIN).tokens ==> PlainToken(t)
    decreases |s|
  {
    hide *;
    NothingReviewed(before);
    if s != "" {
      CompleteStep(before, s);
      var step := TokenAt(before, s, PLAIN);
      StepReviewed(before, s);
      Laws.UnfoldTokens(before, s, step);
      UnfoldReviewed(before, s, step);
      Laws.StepLengths(before, s);
      Laws.StepEndIs(step);
      var rest := TokensFrom(before + s[..step.len], s[step.len..], PLAIN);
      if step.Emit? {
        TokenPlain(step, |before|);
        ConsPlain(Token(step.kind, step.value, |before|, |before| + step.len), rest);
      }
      LexReviewed(before + s[..step.len], s[step.len..]);
    }
  }

  /** Without its quotes a token's text in the default mode is its text in the other. */
  lemma TextReviewed(t: Token, upper: string -> string)
    requires IsUpper(upper) && PlainToken(t)
    ensures TextIn(t, upper) == Unquote(TextOf(t)) && (Unquote(TextOf(t)) == ";" <==> TextOf(t) == ";")
  {
    match t.kind
    case Literal => LiteralText();
    case Number => LiteralText();
    case Quoted => NameText(UpperText(t.value)); SemicolonUpper(t.value); hide UpperText, Unquote;
    case Word => PlainText(t.value); hide UpperText, Unquote;
    case Symbol => PlainText(t.value); hide UpperText, Unquote;
  }

  lemma NameText(inner: string)
    ensures
      var name := "\"" + inner + "\"";
      Unquote(name) == inner && name != ";"
  {
    var name := "\"" + inner + "\"";
    assert name[1..|name| - 1] == inner && name[0] == '"';
  }

  lemma PlainText(value: string)
    requires value != "" && value[0] != '"'
    ensures Unquote(UpperText(value)) == UpperText(value)
  {
    assert UpperText(value)[0] == Upper(value[0]);
  }

  lemma SemicolonUpper(s: string)
    ensures UpperText(s) == ";" ==> s == ";"
  {
    if UpperText(s) == ";" { assert Upper(s[0]) == ';'; }
  }

  lemma LiteralText()
    ensures Unquote("<literal>") == "<literal>" != ";"
  {
  }

  lemma TextsReviewed(tokens: seq<Token>, upper: string -> string)
    requires IsUpper(upper) && forall t :: t in tokens ==> PlainToken(t)
    ensures TextsIn(tokens, upper) == Unquoted(Texts(tokens))
    ensures forall i :: 0 <= i < |tokens| ==> (Unquote(Texts(tokens)[i]) == ";" <==> Texts(tokens)[i] == ";")
  {
    hide *;
    TextsSame(tokens, upper);
    forall i | 0 <= i < |tokens|
      ensures TextIn(tokens[i], upper) == Unquote(TextOf(tokens[i])) && (Unquote(TextOf(tokens[i])) == ";" <==> TextOf(tokens[i]) == ";")
    {
      TextReviewed(tokens[i], upper);
    }
    assert forall i :: 0 <= i < |tokens| ==> TextsIn(tokens, upper)[i] == Unquoted(Texts(tokens))[i];
  }

  lemma TextsSame(tokens: seq<Token>, upper: string -> string)
    ensures |TextsIn(tokens, upper)| == |Unquoted(Texts(tokens))| == |tokens|
    ensures forall i :: 0 <= i < |tokens| ==> Texts(tokens)[i] == TextOf(tokens[i])
    ensures forall i :: 0 <= i < |tokens| ==> TextsIn(tokens, upper)[i] == TextIn(tokens[i], upper)
    ensures forall i :: 0 <= i < |tokens| ==> Unquoted(Texts(tokens))[i] == Unquote(TextOf(tokens[i]))
  {
    hide TextOf, TextIn, Unquote;
  }

  // ---- Statements without quotes ----

  function UnquotedAll(statements: seq<Tokens>): (r: seq<Tokens>)
    ensures |r| == |statements| && forall i :: 0 <= i < |r| ==> r[i] == Unquoted(statements[i])
  {
    seq(|statements|, i requires 0 <= i < |statements| => Unquoted(statements[i]))
  }

  /** Taking the quotes away makes no semicolon. */
  predicate KeepsEnds(tokens: Tokens) { forall i :: 0 <= i < |tokens| ==> (Unquote(tokens[i]) == ";" <==> tokens[i] == ";") }

  lemma FindUnquoted(tokens: Tokens)
    requires KeepsEnds(tokens)
    ensures Find(Unquoted(tokens), ";", 0) == Find(tokens, ";", 0)
  {
    hide Unquote;
    var n, m := Find(tokens, ";", 0), Find(Unquoted(tokens), ";", 0);
    assert n < |tokens| ==> Unquoted(tokens)[n] == ";";
    assert m < |tokens| ==> tokens[m] == ";";
    hide Find;
  }

  lemma UnquotedParts(tokens: Tokens, n: nat)
    requires n <= |tokens|
    ensures Unquoted(tokens)[..n] == Unquoted(tokens[..n])
    ensures n < |tokens| ==> Unquoted(tokens)[n + 1..] == Unquoted(tokens[n + 1..])
    ensures KeepsEnds(tokens) && n < |tokens| ==> KeepsEnds(tokens[n + 1..])
  {
    hide Unquote;
  }

  lemma UnlessUnquoted(statement: Tokens, rest: seq<Tokens>)
    ensures UnquotedAll(Unless(statement) + rest) == Unless(Unquoted(statement)) + UnquotedAll(rest)
  {
    hide Unquote;
    var all := Unless(statement) + rest;
    assert UnquotedAll(all) == Unless(Unquoted(statement)) + UnquotedAll(rest);
  }

  lemma {:induction false} StatementsUnquoted(tokens: Tokens)
    requires KeepsEnds(tokens)
    ensures Statements(Unquoted(tokens)) == UnquotedAll(Statements(tokens))
    decreases |tokens|
  {
    hide *;
    var n := Find(tokens, ";", 0);
    FindUnquoted(tokens);
    UnquotedParts(tokens, n);
    Laws.StatementsUnfold(tokens);
    Laws.StatementsUnfold(Unquoted(tokens));
    var rest := if n == |tokens| then [] else Statements(tokens[n + 1..]);
    UnlessUnquoted(tokens[..n], rest);
    if n < |tokens| { StatementsUnquoted(tokens[n + 1..]); } else { NoneUnquoted(); }
  }

  lemma NoneUnquoted()
    ensures UnquotedAll([]) == []
  {
  }

  /** On a text the default lexer reads, both modes see the same statements, one with and one without quotes. */
  lemma SameStatements(sql: string, upper: string -> string)
    requires IsUpper(upper) && Lex(sql, PLAIN).complete
    ensures Lex(sql, REVIEWED).complete && StatementsReviewed(sql, upper) == UnquotedAll(StatementsIn(sql))
  {
    LexMeans(sql);
    hide *;
    var tokens := Lex(sql, PLAIN).tokens;
    LexReviewed("", sql);
    TextsReviewed(tokens, upper);
    KeepsMeans(Texts(tokens));
    StatementsUnquoted(Texts(tokens));
    StatementsAre(sql, upper);
  }

  lemma StatementsAre(sql: string, upper: string -> string)
    ensures StatementsReviewed(sql, upper) == Statements(TextsIn(Lex(sql, REVIEWED).tokens, upper))
    ensures StatementsIn(sql) == Statements(Texts(Lex(sql, PLAIN).tokens))
    ensures |Texts(Lex(sql, PLAIN).tokens)| == |Lex(sql, PLAIN).tokens|
  {
    hide Statements, TextsIn, Lex;
  }

  lemma KeepsMeans(tokens: Tokens)
    ensures KeepsEnds(tokens) <==> forall i :: 0 <= i < |tokens| ==> (Unquote(tokens[i]) == ";" <==> tokens[i] == ";")
  {
    hide Unquote;
  }

  lemma LexMeans(sql: string)
    ensures Lex(sql, PLAIN).complete ==>
      TokensFrom("", sql, PLAIN).complete && Lex(sql, PLAIN) == TokensFrom("", sql, PLAIN) && Lex(sql, REVIEWED) == TokensFrom("", sql, REVIEWED)
    ensures |Texts(Lex(sql, PLAIN).tokens)| == |Lex(sql, PLAIN).tokens|
  {
    hide TokensFrom, HasControl;
  }

  // ---- Foreign-key actions ----

  /** The word at `p` belongs to a foreign-key action. */
  ghost predicate InAction(words: seq<string>, p: int) {
    exists i :: 0 <= i <= p && i <= |words| && p < i + ActionLength(words[i..])
  }

  ghost predicate OnlyInActions(words: seq<string>) {
    forall p :: 0 <= p < |words| && words[p] in DESTRUCTIVE ==> InAction(words, p)
  }

  /** An action takes no other action's first word. */
  lemma ActionsApart(words: seq<string>, i: nat)
    requires 0 < i < ActionLength(words)
    ensures ActionLength(words[i..]) == 0
  {
    assert words[i..][0] == words[i];
  }

  lemma ActionHere(words: seq<string>, p: int)
    requires 0 <= p < ActionLength(words)
    ensures InAction(words, p)
  {
    assert words[0..] == words;
  }

  lemma InLater(words: seq<string>, n: nat, p: nat)
    requires n <= p < |words| && (ActionLength(words) == n || (n == 1 && ActionLength(words) == 0))
    ensures InAction(words, p) <==> InAction(words[n..], p - n)
  {
    hide ActionLength;
    if InAction(words, p) {
      var i :| 0 <= i <= p && i <= |words| && p < i + ActionLength(words[i..]);
      assert words[0..] == words;
      if i < n && i > 0 { ActionsApart(words, i); }
      assert words[n..][i - n..] == words[i..];
      assert InAction(words[n..], p - n);
    }
    if InAction(words[n..], p - n) {
      var i :| 0 <= i <= p - n && i <= |words[n..]| && p - n < i + ActionLength(words[n..][i..]);
      assert words[n..][i..] == words[n + i..];
      assert InAction(words, p);
    }
  }

  lemma NoActionHere(words: seq<string>)
    requires ActionLength(words) == 0
    ensures !InAction(words, 0)
  {
    hide ActionLength;
    assert words[0..] == words;
  }

  lemma UnmaskedStep(words: seq<string>)
    requires words != []
    ensures ActionLength(words) > 0 ==> Unmasked(words) == Unmasked(words[ActionLength(words)..])
    ensures ActionLength(words) == 0 ==> Unmasked(words) == [words[0]] + Unmasked(words[1..])
  {
    hide ActionLength;
  }

  lemma ConsTaken(word: string, rest: seq<string>)
    ensures NothingTaken([word] + rest) <==> word !in DESTRUCTIVE && NothingTaken(rest)
    ensures NothingTaken([])
  {
    hide DESTRUCTIVE;
  }

  /** Nothing destructive is left exactly if every destructive word belongs to an action. */
  lemma {:induction false} UnmaskedClean(words: seq<string>)
    ensures NothingTaken(Unmasked(words)) <==> OnlyInActions(words)
    decreases |words|
  {
    hide ActionLength, InAction, NothingTaken, Unmasked, DESTRUCTIVE;
    if words == [] {
      UnmaskedNone();
    } else {
      var n := ActionLength(words);
      UnmaskedStep(words);
      var m := if n > 0 then n else 1;
      UnmaskedClean(words[m..]);
      ConsTaken(words[0], Unmasked(words[1..]));
      if n == 0 { NoActionHere(words); }
      forall p | 0 <= p < |words|
        ensures p < n ==> InAction(words, p)
        ensures p >= m ==> (InAction(words, p) <==> InAction(words[m..], p - m)) && words[p] == words[m..][p - m]
      {
        if p < n { ActionHere(words, p); }
        if p >= m { InLater(words, m, p); }
      }
      Shifted(words, m, n);
    }
  }

  lemma UnmaskedNone()
    ensures NothingTaken(Unmasked([])) && OnlyInActions([])
  {
  }

  lemma Shifted(words: seq<string>, m: nat, n: nat)
    requires 0 < m <= |words| && n <= m && (n == m || (n == 0 && m == 1 && !InAction(words, 0)))
    requires forall p :: 0 <= p < |words| ==> (p < n ==> InAction(words, p))
    requires forall p :: m <= p < |words| ==> (InAction(words, p) <==> InAction(words[m..], p - m)) && words[p] == words[m..][p - m]
    ensures OnlyInActions(words) <==> OnlyInActions(words[m..]) && (n == 0 ==> words[0] !in DESTRUCTIVE)
  {
    hide InAction, DESTRUCTIVE;
    var rest := words[m..];
    assert forall q :: 0 <= q < |rest| ==> rest[q] == words[m + q];
    if OnlyInActions(words) {
      forall q | 0 <= q < |rest| && rest[q] in DESTRUCTIVE
        ensures InAction(rest, q)
      {
        assert words[m + q] in DESTRUCTIVE && InAction(words, m + q);
      }
    }
    if OnlyInActions(rest) && (n == 0 ==> words[0] !in DESTRUCTIVE) {
      forall p | 0 <= p < |words| && words[p] in DESTRUCTIVE
        ensures InAction(words, p)
      {
        if p >= m { assert rest[p - m] in DESTRUCTIVE; }
      }
    }
  }

  // ---- Both modes, exactly ----

  /** What the reviewed mode asks of the destructive words of one statement: in a CREATE TABLE they may stand in
  foreign-key actions, and a quoted name counts as its words; anywhere else no token is one. */
  ghost predicate ActionsOnly(statement: Tokens, text: string) {
    if StartsWith(text, "CREATE TABLE ") then OnlyInActions(Split(text, ' ')[1..]) else NothingTaken(statement)
  }

  lemma CreateIsNone()
    ensures "CREATE" !in DESTRUCTIVE && ' ' !in "CREATE" && ' ' !in "TABLE" && ' ' !in "DROP" && "DROP" in DESTRUCTIVE
  {
  }

  lemma CreateSplits(text: string)
    requires StartsWith(text, "CREATE TABLE ")
    ensures |text| >= 7 && text == "CREATE" + [' '] + text[7..]
  {
    assert text[..7] == text[..13][..7] == "CREATE" + [' '];
  }

  lemma FirstWord(text: string)
    requires StartsWith(text, "CREATE TABLE ")
    ensures Split(text, ' ')[0] == "CREATE" && "CREATE" !in DESTRUCTIVE
  {
    hide *;
    CreateIsNone();
    CreateSplits(text);
    SplitAfter("CREATE", text[7..], ' ');
  }

  lemma CheckedMeans(statement: Tokens, text: string)
    ensures NothingTaken(Checked(statement, text)) <==> ActionsOnly(statement, text)
  {
    if StartsWith(text, "CREATE TABLE ") {
      FirstWord(text);
      hide StartsWith, NothingTaken, Unmasked, OnlyInActions, DESTRUCTIVE, Split;
      var words := Split(text, ' ');
      UnmaskedClean(words[1..]);
      ConsTaken(words[0], Unmasked(words[1..]));
    }
  }

  lemma ReviewedMeans(quoted: Tokens)
    requires quoted != []
    ensures ReviewedAllowed(Unquoted(quoted)) <==>
      ActionsOnly(Unquoted(quoted), Unspaced(quoted)) && OnlyAdding(Unquoted(quoted), Unspaced(quoted))
  {
    CheckedMeans(Unquoted(quoted), Unspaced(quoted));
    hide NothingTaken, Checked, ActionsOnly, OnlyAdding, Join, Unquote;
  }

  lemma DefaultMeans(quoted: Tokens)
    requires quoted != []
    ensures StatementAllowed(quoted) <==>
      && QuotedAllowed(quoted, Unspaced(quoted)) && NothingTaken(Unquoted(quoted))
      && OnlyAdding(Unquoted(quoted), Unspaced(quoted))
  {
    hide QuotedAllowed, NothingTaken, OnlyAdding, Unspaced, Unquoted;
  }

  /** On a text the default lexer reads: the reviewed mode accepts exactly files of statements that only add and whose
  destructive words are as it asks; the default mode accepts exactly files of statements that only add, hold no
  destructive word at all and pass the tests of quoted names, definitions and expressions. */
  lemma ModesExactly(sql: string, upper: string -> string)
    requires IsUpper(upper) && Lex(sql, PLAIN).complete
    ensures ExpandsReviewed(sql, upper) <==>
      && StatementsIn(sql) != []
      && forall i :: 0 <= i < |StatementsIn(sql)| ==>
        var quoted := StatementsIn(sql)[i];
        quoted != [] && ActionsOnly(Unquoted(quoted), Unspaced(quoted)) && OnlyAdding(Unquoted(quoted), Unspaced(quoted))
    ensures ExpandsOnly(sql) <==>
      && StatementsIn(sql) != []
      && forall i :: 0 <= i < |StatementsIn(sql)| ==>
        var quoted := StatementsIn(sql)[i];
        && quoted != [] && NothingTaken(Unquoted(quoted)) && OnlyAdding(Unquoted(quoted), Unspaced(quoted))
        && QuotedAllowed(quoted, Unspaced(quoted))
  {
    hide *;
    SameStatements(sql, upper);
    Laws.ExpandsMeans(sql);
    ReviewedAre(sql, upper);
    var statements := StatementsIn(sql);
    StatementsAre(sql, upper);
    NoneEmpty(Texts(Lex(sql, PLAIN).tokens));
    forall i | 0 <= i < |statements|
      ensures UnquotedAll(statements)[i] == Unquoted(statements[i]) != []
      ensures ReviewedAllowed(Unquoted(statements[i])) <==>
        ActionsOnly(Unquoted(statements[i]), Unspaced(statements[i])) && OnlyAdding(Unquoted(statements[i]), Unspaced(statements[i]))
      ensures StatementAllowed(statements[i]) <==>
        && QuotedAllowed(statements[i], Unspaced(statements[i])) && NothingTaken(Unquoted(statements[i]))
        && OnlyAdding(Unquoted(statements[i]), Unspaced(statements[i]))
    {
      ReviewedMeans(statements[i]);
      DefaultMeans(statements[i]);
    }
    AllMean(statements);
  }

  lemma AllMean(statements: seq<Tokens>)
    requires forall i :: 0 <= i < |statements| ==> statements[i] != []
    ensures AllAllowed(statements) <==> forall i :: 0 <= i < |statements| ==> StatementAllowed(statements[i])
    ensures AllReviewed(UnquotedAll(statements)) <==> forall i :: 0 <= i < |statements| ==> ReviewedAllowed(Unquoted(statements[i]))
  {
    hide StatementAllowed, ReviewedAllowed, Unquote;
    var all := UnquotedAll(statements);
    assert forall i :: 0 <= i < |statements| ==> statements[i] in statements && all[i] in all;
  }

  lemma ReviewedAre(sql: string, upper: string -> string)
    ensures ExpandsReviewed(sql, upper) <==>
      Lex(sql, REVIEWED).complete && StatementsReviewed(sql, upper) != [] && AllReviewed(StatementsReviewed(sql, upper))
  {
    hide Lex, StatementsReviewed, AllReviewed;
  }


  /** In every file the reviewed mode accepts, destructive words stand only in the foreign-key actions of a new table. */
  lemma ReviewedActions(sql: string, upper: string -> string, statement: Tokens)
    requires ExpandsReviewed(sql, upper) && statement in StatementsReviewed(sql, upper)
    ensures statement != [] && ActionsOnly(statement, Join(statement, ' '))
  {
    CheckedMeans(statement, Join(statement, ' '));
    hide ActionsOnly, Checked, NothingTaken, OnlyAdding, Join, Lex, StatementsReviewed;
  }

  lemma StartsCreate(text: string, rest: string)
    requires text == "CREATE" + [' '] + ("TABLE" + [' '] + rest)
    ensures StartsWith(text, "CREATE TABLE ")
  {
    assert text == "CREATE TABLE " + rest;
  }

  lemma NoAction(words: seq<string>)
    requires words != [] && words[0] != "ON"
    ensures ActionLength(words) == 0
  {
  }

  lemma DropFirst(words: seq<string>)
    requires |words| > 1 && words[0] == "TABLE" && words[1] == "DROP"
    ensures !OnlyInActions(words)
  {
    CreateIsNone();
    NoAction(words[0..]);
    NoAction(words[1..]);
    hide ActionLength, DESTRUCTIVE;
    assert words[1] in DESTRUCTIVE && !InAction(words, 1);
  }

  lemma ThreeWords(a: string, b: string, c: string, later: string)
    requires ' ' !in a && ' ' !in b && ' ' !in c
    ensures Split(a + [' '] + (b + [' '] + (c + [' '] + later)), ' ') == [a] + ([b] + ([c] + Split(later, ' ')))
  {
    hide *;
    SplitAfter(a, b + [' '] + (c + [' '] + later), ' ');
    SplitAfter(b, c + [' '] + later, ' ');
    SplitAfter(c, later, ' ');
  }

  lemma ThreeTokens(a: string, b: string, c: string, rest: Tokens)
    requires rest != []
    ensures Join([a, b, c] + rest, ' ') == a + [' '] + (b + [' '] + (c + [' '] + Join(rest, ' ')))
  {
    hide *;
    assert [a, b, c] + rest == [a] + ([b] + ([c] + rest));
    JoinCons(c, rest, ' ');
    JoinCons(b, [c] + rest, ' ');
    JoinCons(a, [b] + ([c] + rest), ' ');
  }

  /** Neither mode contains the other: a table named with a quoted name that has a destructive word in it is refused here,
  where the default mode reads one name. */
  lemma QuotedWordRefused(rest: Tokens)
    requires rest != []
    ensures !ReviewedAllowed(["CREATE", "TABLE", "DROP" + [' '] + "X"] + rest)
  {
    var name := "DROP" + [' '] + "X";
    var statement, later := ["CREATE", "TABLE", name] + rest, "X" + [' '] + Join(rest, ' ');
    hide *;
    CreateIsNone();
    ThreeTokens("CREATE", "TABLE", name, rest);
    ThreeWords("CREATE", "TABLE", "DROP", later);
    var text := Join(statement, ' ');
    assert name + [' '] + Join(rest, ' ') == "DROP" + [' '] + later;
    StartsCreate(text, "DROP" + [' '] + later);
    CheckedMeans(statement, text);
    DropFirst(["TABLE"] + (["DROP"] + Split(later, ' ')));
    var words := Split(text, ' ');
    assert words[1..] == ["TABLE"] + (["DROP"] + Split(later, ' '));
    NotReviewed(statement, text);
  }

  lemma NotReviewed(statement: Tokens, text: string)
    requires statement != [] && text == Join(statement, ' ') && StartsWith(text, "CREATE TABLE ") && !OnlyInActions(Split(text, ' ')[1..])
    requires NothingTaken(Checked(statement, text)) <==> ActionsOnly(statement, text)
    ensures !ReviewedAllowed(statement)
  {
    hide OnlyInActions, Split, Join, StartsWith, Checked, NothingTaken, OnlyAdding;
  }

  // ---- A table the default mode accepts ----

  /** CREATE TABLE, a name, and one column. */
  predicate SmallTable(tokens: Tokens, name: string) {
    && tokens == ["CREATE", "TABLE", name, "(", "ID", "INT", ")"] && name != "" && name[0] == '"'
  }

  lemma SmallAt(tokens: Tokens, name: string)
    requires SmallTable(tokens, name)
    ensures |tokens| == 7 && At(tokens, 0) == "CREATE" && At(tokens, 1) == "TABLE" && At(tokens, 2) == name && At(tokens, 3) == "("
    ensures At(tokens, 4) == "ID" && At(tokens, 5) == "INT" && At(tokens, 6) == ")"
    ensures forall i :: i < 0 || 7 <= i ==> At(tokens, i) == ""
    ensures forall i :: 0 <= i < 7 ==> At(tokens, i) == tokens[i]
  {
  }

  lemma SmallNames(name: string)
    requires name != "" && name[0] == '"'
    ensures IsIdentifier("ID") && IsIdentifier("INT") && IsIdentifier(name) && !IsIdentifier("(") && !IsIdentifier(")")
    ensures name != "(" && name != ")" && name != "[" && name != "]" && name != "." && name != "IF" && name != "CAST" && name != "INDEX"
    ensures name != "AS" && name != "LIKE" && name != "OPERATOR" && name != "OWNED" && name != "PARTITION"
    ensures "ID" !in CONSTRAINTS
  {
  }

  lemma SmallClose(tokens: Tokens, name: string)
    requires SmallTable(tokens, name)
    ensures Paired(tokens) && Balanced(tokens, 0, 0) && Close(tokens, 3) == 6
  {
    SmallAt(tokens, name);
    SmallNames(name);
    assert Seek(tokens, 6, 1) == 6 && Seek(tokens, 5, 1) == 6 && Seek(tokens, 4, 1) == 6;
    assert Balanced(tokens, 7, 0) && Balanced(tokens, 6, 1) && Balanced(tokens, 5, 1) && Balanced(tokens, 4, 1);
    assert Balanced(tokens, 3, 0) && Balanced(tokens, 2, 0) && Balanced(tokens, 1, 0);
  }

  lemma SmallHeader(tokens: Tokens, name: string)
    requires SmallTable(tokens, name)
    ensures !IsIndex(tokens) && HeaderOf(tokens) == Some(Header(3, Marks({3}, {}, {})))
  {
    SmallAt(tokens, name);
    SmallNames(name);
    hide IsIdentifier;
    assert NameEnd(tokens, 2) == 3;
    assert Dots(tokens, 2, 3) == {};
  }

  lemma SmallItems(tokens: Tokens, name: string)
    requires SmallTable(tokens, name)
    ensures ItemsMarks(tokens, 4, 6, false) == Some(NOTHING)
  {
    SmallAt(tokens, name);
    SmallNames(name);
    hide IsIdentifier, CONSTRAINTS, MODIFIERS, Close;
    assert ItemEnd(tokens, 6, 6) == 6 && ItemEnd(tokens, 5, 6) == 6 && ItemEnd(tokens, 4, 6) == 6;
    assert NameEnd(tokens, 5) == 6 && !HasModifier(tokens, 5, 6) && ArraysEnd(tokens, 6) == 6;
    assert Dots(tokens, 5, 6) == {} && Brackets(tokens, 6, 6) == {};
    assert TypeMarks(tokens, 5) == Some(NOTHING);
    assert NamedClauses(tokens, 6, 6) == Some(NOTHING);
    assert Union(NOTHING, NOTHING) == NOTHING;
    assert ColumnMarks(tokens, 4, 6) == Some(NOTHING);
  }

  lemma SmallToken(tokens: Tokens, name: string, i: nat)
    requires SmallTable(tokens, name) && i < 7
    ensures !IsCast(tokens, i) && TokenAllowed(tokens, i, Marks({3}, {}, {}))
  {
    SmallAt(tokens, name);
    SmallNames(name);
    hide IsIdentifier, CALLS, CONSTRUCTS;
  }

  lemma {:induction false} SmallExpressions(tokens: Tokens, name: string, i: nat)
    requires SmallTable(tokens, name)
    ensures ExpressionsAllowed(tokens, i, Marks({3}, {}, {}))
    decreases 7 - i
  {
    SmallAt(tokens, name);
    hide SmallTable, At, TokenAllowed, IsCast;
    assert Union(Marks({3}, {}, {}), NOTHING) == Marks({3}, {}, {});
    if i < 7 {
      SmallToken(tokens, name, i);
      SmallExpressions(tokens, name, i + 1);
    }
  }

  lemma SmallAdmitted(tokens: Tokens, name: string)
    requires SmallTable(tokens, name)
    ensures Admitted(tokens)
  {
    SmallClose(tokens, name);
    SmallHeader(tokens, name);
    SmallItems(tokens, name);
    SmallExpressions(tokens, name, 0);
    hide Paired, Balanced, Close, HeaderOf, IsIndex, ItemsMarks, ExpressionsAllowed, KeysAllowed, SuffixMarks, SmallTable;
    assert Union(Marks({3}, {}, {}), NOTHING) == Marks({3}, {}, {});
  }

  lemma SmallText(rest: string)
    ensures
      var text := "CREATE" + [' '] + ("TABLE" + [' '] + rest);
      && DefinesStructure(text) && CreatesObject(text) && StartsWith(text, "CREATE TABLE ")
      && !StartsWith(text, "INSERT INTO ") && !StartsWith(text, "CREATE SCHEMA ") && text != "BEGIN" && text != "COMMIT"
  {
    var text := "CREATE" + [' '] + ("TABLE" + [' '] + rest);
    assert text == "CREATE TABLE " + rest;
    assert "CREATE " + "" + "TABLE " == "CREATE TABLE ";
    assert StartsWith(text, "CREATE TABLE ");
    MakesTable(text);
    assert text[7] == 'T' && text[0] == 'C';
  }

  lemma MakesTable(text: string)
    requires StartsWith(text, "CREATE " + "" + "TABLE ")
    ensures CreatesObject(text)
  {
    var kinds, uniques := ["TABLE ", "INDEX ", "TYPE ", "SEQUENCE ", "SCHEMA "], ["", "UNIQUE "];
    assert kinds[0] == "TABLE " && uniques[0] == "";
    hide StartsWith;
    assert "TABLE " in kinds && "" in uniques;
  }

  /** A table of one column, under any quoted name that no rule of the default mode takes for a word, is accepted. */
  lemma SmallAllowed(tokens: Tokens, name: string)
    requires SmallTable(tokens, name) && |name| > 2 && name[|name| - 1] == '"'
    requires Unquote(name) !in DESTRUCTIVE && Unquote(name) !in {"DO", "ALTER", "CREATE"}
    ensures StatementAllowed(tokens)
  {
    SmallAdmitted(tokens, name);
    SmallWords(tokens, name);
    SmallRest(tokens, name);
    SmallText(Join(Unquoted(tokens)[2..], ' '));
    hide Admitted, StartsWith, CreatesObject, DefinesStructure, HasPair, HasQuery, InsertAllowed, SchemaAllowed, Join, IsSeed, AlterAllowed, Count, DESTRUCTIVE, SmallTable, Unquoted;
  }

  lemma SmallTaken()
    ensures "CREATE" !in DESTRUCTIVE && "TABLE" !in DESTRUCTIVE && "(" !in DESTRUCTIVE && "ID" !in DESTRUCTIVE
    ensures "INT" !in DESTRUCTIVE && ")" !in DESTRUCTIVE
  {
  }

  lemma SmallUnquoted(tokens: Tokens, name: string)
    requires SmallTable(tokens, name)
    ensures Unquoted(tokens) == ["CREATE", "TABLE", Unquote(name), "(", "ID", "INT", ")"]
  {
    assert Unquote("CREATE") == "CREATE" && Unquote("TABLE") == "TABLE" && Unquote("(") == "(" && Unquote("ID") == "ID";
    assert Unquote("INT") == "INT" && Unquote(")") == ")";
    hide Unquote;
  }

  lemma SmallCount(words: Tokens, inner: string)
    requires words == ["CREATE", "TABLE", inner, "(", "ID", "INT", ")"] && inner !in {"DO", "ALTER", "CREATE"}
    ensures "DO" !in words && "ALTER" !in words && Count(words, "CREATE") == 1
  {
    var rest := words[1..];
    assert rest == ["TABLE", inner, "(", "ID", "INT", ")"];
    assert "CREATE" !in rest;
    assert Count(rest, "CREATE") == 0;
  }

  lemma SmallWords(tokens: Tokens, name: string)
    requires SmallTable(tokens, name) && Unquote(name) !in DESTRUCTIVE && Unquote(name) !in {"DO", "ALTER", "CREATE"}
    ensures NothingTaken(Unquoted(tokens)) && "DO" !in Unquoted(tokens) && "ALTER" !in Unquoted(tokens)
    ensures Count(Unquoted(tokens), "CREATE") == 1
    ensures |Unquoted(tokens)| == 7 && Unspaced(tokens) == "CREATE" + [' '] + ("TABLE" + [' '] + Join(Unquoted(tokens)[2..], ' '))
  {
    hide *;
    SmallUnquoted(tokens, name);
    var words, inner := Unquoted(tokens), Unquote(name);
    SmallCount(words, inner);
    SmallNothing(words, inner);
    SpacedOut(tokens, words[2..], words);
  }

  lemma SmallNothing(words: Tokens, inner: string)
    requires words == ["CREATE", "TABLE", inner, "(", "ID", "INT", ")"] && inner !in DESTRUCTIVE
    ensures NothingTaken(words)
  {
    SmallTaken();
    hide DESTRUCTIVE;
  }

  lemma SpacedOut(tokens: Tokens, later: Tokens, words: Tokens)
    requires tokens != [] && words == Unquoted(tokens) && |words| == 7 && words[0] == "CREATE" && words[1] == "TABLE" && later == words[2..]
    ensures Unspaced(tokens) == "CREATE" + [' '] + ("TABLE" + [' '] + Join(later, ' '))
  {
    Laws.SpacedOut(tokens);
    hide *;
    assert words == ["CREATE"] + (["TABLE"] + later);
    JoinCons("TABLE", later, ' ');
    JoinCons("CREATE", ["TABLE"] + later, ' ');
  }

  lemma SmallRest(tokens: Tokens, name: string)
    requires SmallTable(tokens, name)
    ensures "OPERATOR" !in tokens && "LIKE" !in tokens && !HasPair(tokens, "OWNED", "BY") && !HasPair(tokens, "PARTITION", "OF")
    ensures !HasQuery(tokens)
  {
    SmallNames(name);
  }

  lemma QuotedInner(inner: string)
    ensures
      var name := "\"" + inner + "\"";
      name != "" && name[0] == '"' && name[|name| - 1] == '"' && |name| == |inner| + 2 && Unquote(name) == inner
  {
    assert ("\"" + inner + "\"")[1..|inner| + 1] == inner;
  }

  lemma DropInner(inner: string)
    requires inner == "DROP" + [' '] + "X"
    ensures inner !in DESTRUCTIVE && inner !in {"DO", "ALTER", "CREATE"} && |inner| == 6
  {
    assert inner[4] == ' ' && inner[5] == 'X';
  }

  /** Neither mode contains the other: a table under the quoted name `DROP X` is accepted in the default mode and refused
  in the reviewed one, which reads the name as two words. */
  lemma ModesDiffer(quoted: Tokens)
    requires quoted == ["CREATE", "TABLE", "\"" + ("DROP" + [' '] + "X") + "\"", "(", "ID", "INT", ")"]
    ensures StatementAllowed(quoted) && !ReviewedAllowed(Unquoted(quoted))
  {
    var inner := "DROP" + [' '] + "X";
    QuotedInner(inner);
    DropInner(inner);
    DifferFor(quoted, "\"" + inner + "\"", inner);
  }

  lemma DifferFor(quoted: Tokens, name: string, inner: string)
    requires SmallTable(quoted, name) && |name| > 2 && name[|name| - 1] == '"' && Unquote(name) == inner
    requires inner == "DROP" + [' '] + "X" && inner !in DESTRUCTIVE && inner !in {"DO", "ALTER", "CREATE"}
    ensures StatementAllowed(quoted) && !ReviewedAllowed(Unquoted(quoted))
  {
    hide *;
    SmallAllowed(quoted, name);
    SmallUnquoted(quoted, name);
    var rest := ["(", "ID", "INT", ")"];
    QuotedWordRefused(rest);
    assert Unquoted(quoted) == ["CREATE", "TABLE", inner] + rest;
  }
}
