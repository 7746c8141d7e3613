/** The SQL tokenizer of the expand-only and native readers. */
module SqlTokens {
  import opened Basics
  import opened SqlText
  import Splitter = SqlSplitter

  datatype Kind = Word | Quoted | Literal | Number | Symbol

  datatype Token = Token(kind: Kind, value: string, start: int, end: int)

  /** The original mode is neither; `reviewed` reads pinned new tables, `native` skips opaque dollar bodies. */
  datatype LexMode = LexMode(reviewed: bool, native: bool)

  datatype Lexed = Lexed(tokens: seq<Token>, complete: bool)

  datatype TokenStep = Skip(len: nat) | Emit(kind: Kind, value: string, len: nat) | Incomplete

  predicate IsControl(c: char) {
    (c as int < 0x20 && c != '\t' && c != '\n') || c as int == 0x7f
  }

  predicate HasControl(sql: string) {
    exists i :: 0 <= i < |sql| && IsControl(sql[i])
  }

  datatype QuoteRead = QuoteRead(value: string, len: nat)

  /** The value and length of what is left of a literal or quoted identifier after its opening quote. */
  function ReadQuote(s: string, quote: char, mode: LexMode): (r: Option<QuoteRead>)
    ensures r.Some? ==> 0 < r.value.len <= |s|
    decreases |s|
  {
    if s == "" then None
    else if !mode.reviewed && quote == '"' && !IsAscii(s[0]) then None
    else if s[0] == '\\' then None
    else if s[0] == quote then
      if |s| > 1 && s[1] == quote then Doubled([quote], 2, ReadQuote(s[2..], quote, mode))
      else Some(QuoteRead("", 1))
    else Doubled([s[0]], 1, ReadQuote(s[1..], quote, mode))
  }

  function Doubled(value: string, len: nat, rest: Option<QuoteRead>): Option<QuoteRead> {
    if rest.Some? then Some(QuoteRead(value + rest.value.value, len + rest.value.len)) else None
  }

  function DigitsLength(s: string): (n: nat)
    ensures n <= |s|
    ensures forall i :: 0 <= i < n ==> IsDigit(s[i])
    decreases |s|
  {
    if s == "" || !IsDigit(s[0]) then 0 else 1 + DigitsLength(s[1..])
  }

  /** Length of an unsigned decimal number, its fraction included. */
  function NumberLength(s: string): (n: nat)
    ensures n <= |s|
    ensures forall i :: 0 <= i < n ==> IsDigit(s[i]) || s[i] == '.'
  {
    var whole := DigitsLength(s);
    if whole == 0 || whole == |s| || s[whole] != '.' then whole
    else
      var fraction := DigitsLength(s[whole + 1..]);
      if fraction == 0 then whole else whole + 1 + fraction
  }

  predicate IsSymbol(c: char, mode: LexMode) {
    mode.native || c in ";.,()+-=[]" || (mode.reviewed && c in "<>:~")
  }

  /** One step of the tokenizer; `before` is the text already read. */
  function TokenAt(before: string, s: string, mode: LexMode): (r: TokenStep)
    requires s != ""
    ensures r.Skip? ==> 0 < r.len <= |s|
    ensures r.Emit? ==> 0 < r.len <= |s|
  {
    if !mode.reviewed && !IsAscii(s[0]) then Incomplete
    else if (if mode.reviewed then IsSpace(s[0]) else s[0] == ' ' || s[0] == '\t' || s[0] == '\n') then Skip(1)
    else if StartsWith(s, "--") then Skip(LineLength(s))
    else if StartsWith(s, "/*") then
      var n := CommentLength(s[2..], 1, false);
      if n.Found? then Skip(2 + n.len) else Incomplete
    else if s[0] == '\'' || s[0] == '"' then
      var q := ReadQuote(s[1..], s[0], mode);
      if q.None? || (!mode.reviewed && s[0] == '"' && q.value.value == ";") then Incomplete
      else Emit(if s[0] == '\'' then Literal else Quoted, q.value.value, 1 + q.value.len)
    else if mode.native && s[0] == '$' && !Splitter.EndsIdentifier(before) then
      var tag := TagLength(s);
      if tag.None? then Incomplete
      else
        var n := BodyLength(s, tag.value);
        if n.None? then Incomplete else Emit(Literal, s[tag.value..n.value - tag.value], n.value)
    else if IsWordStart(s[0]) then Emit(Word, s[..WordLength(s)], WordLength(s))
    else if IsDigit(s[0]) then Emit(Number, s[..NumberLength(s)], NumberLength(s))
    else if !IsSymbol(s[0], mode) then Incomplete
    else Emit(Symbol, [s[0]], 1)
  }

  function Cons(token: Token, rest: Lexed): Lexed {
    Lexed([token] + rest.tokens, rest.complete)
  }

  function TokensFrom(before: string, s: string, mode: LexMode): Lexed
    decreases |s|
  {
    if s == "" then Lexed([], true)
    else match TokenAt(before, s, mode)
      case Incomplete => Lexed([], false)
      case Skip(n) => TokensFrom(before + s[..n], s[n..], mode)
      case Emit(kind, value, n) =>
        Cons(Token(kind, value, |before|, |before| + n), TokensFrom(before + s[..n], s[n..], mode))
  }

  function Lex(sql: string, mode: LexMode): Lexed {
    if HasControl(sql) then Lexed([], false) else TokensFrom("", sql, mode)
  }

  // The loops below keep `Append(tokens, Remaining(...))` equal to the specification.

  function Append(tokens: seq<Token>, rest: Lexed): Lexed {
    Lexed(tokens + rest.tokens, rest.complete)
  }

  ghost function Remaining(sql: string, index: nat, mode: LexMode): Lexed
    requires index <= |sql|
  {
    TokensFrom(sql[..index], sql[index..], mode)
  }

  function Moved(sql: string, index: nat, step: TokenStep): nat
    requires index <= |sql|
  {
    match step case Skip(n) => index + n case Emit(_, _, n) => index + n case Incomplete => |sql|
  }

  lemma Reads(sql: string, tokens: seq<Token>, index: nat, mode: LexMode, step: TokenStep)
    requires index < |sql| && step == TokenAt(sql[..index], sql[index..], mode)
    ensures index < Moved(sql, index, step) <= |sql|
    ensures Append(tokens, Remaining(sql, index, mode)) ==
      match step
      case Incomplete => Lexed(tokens, false)
      case Skip(n) => Append(tokens, Remaining(sql, index + n, mode))
      case Emit(kind, value, n) => Append(tokens + [Token(kind, value, index, index + n)], Remaining(sql, index + n, mode))
  {
    hide TokenAt;
    var s := sql[index..];
    match step
    case Incomplete => assert tokens + [] == tokens;
    case Skip(n) => assert s[n..] == sql[index + n..] && sql[..index] + s[..n] == sql[..index + n];
    case Emit(kind, value, n) =>
      assert s[n..] == sql[index + n..] && sql[..index] + s[..n] == sql[..index + n];
      var rest := Remaining(sql, index + n, mode).tokens;
      var token := Token(kind, value, index, index + n);
      assert tokens + ([token] + rest) == (tokens + [token]) + rest;
  }

  /** The literal loop, from the opening quote at `start`. */
  method ScanQuote(sql: string, start: nat, mode: LexMode) returns (r: Option<QuoteRead>)
    requires start < |sql|
    ensures r == ReadQuote(sql[start + 1..], sql[start], mode)
  {
    hide ReadQuote, Doubled, IsAscii;
    var quote, value, index := sql[start], "", start + 1;
    ghost var goal := ReadQuote(sql[start + 1..], quote, mode);
    ScanBegins(goal);
    while index < |sql|
      invariant start < index <= |sql|
      invariant Doubled(value, index - start - 1, ReadQuote(sql[index..], quote, mode)) == goal
    {
      ScanMoves(sql, start, index, quote, value, mode);
      if !mode.reviewed && quote == '"' && !IsAscii(sql[index]) { return None; }
      if sql[index] == '\\' { return None; }
      if sql[index] == quote {
        if index + 1 < |sql| && sql[index + 1] == quote {
          value, index := value + [quote], index + 2;
          continue;
        }
        return Some(QuoteRead(value, index - start));
      }
      value, index := value + [sql[index]], index + 1;
    }
    ScanEnds(sql, start, quote, value, mode);
    return None;
  }

  lemma ScanEnds(sql: string, start: nat, quote: char, value: string, mode: LexMode)
    requires start < |sql|
    ensures Doubled(value, |sql| - start - 1, ReadQuote(sql[|sql|..], quote, mode)) == None
  {
    assert sql[|sql|..] == "";
  }

  lemma ScanBegins(rest: Option<QuoteRead>)
    ensures Doubled("", 0, rest) == rest
  {
    if rest.Some? { assert "" + rest.value.value == rest.value.value; }
  }

  lemma ScanMoves(sql: string, start: nat, index: nat, quote: char, value: string, mode: LexMode)
    requires start < index < |sql|
    ensures
      var here := Doubled(value, index - start - 1, ReadQuote(sql[index..], quote, mode));
      if !mode.reviewed && quote == '"' && !IsAscii(sql[index]) then here == None
      else if sql[index] == '\\' then here == None
      else if sql[index] == quote then
        if index + 1 < |sql| && sql[index + 1] == quote then
          here == Doubled(value + [quote], index + 2 - start - 1, ReadQuote(sql[index + 2..], quote, mode))
        else here == Some(QuoteRead(value, index - start))
      else here == Doubled(value + [sql[index]], index + 1 - start - 1, ReadQuote(sql[index + 1..], quote, mode))
  {
    var s := sql[index..];
    UnfoldQuote(s, quote, mode);
    hide ReadQuote, Doubled;
    assert s[1..] == sql[index + 1..];
    assert |s| > 1 ==> s[2..] == sql[index + 2..] && s[1] == sql[index + 1];
    DoubledTwice(value, index - start - 1, [s[0]], 1, ReadQuote(s[1..], quote, mode));
    if |s| > 1 { DoubledTwice(value, index - start - 1, [quote], 2, ReadQuote(s[2..], quote, mode)); }
    DoubledOnce(value, index - start - 1);
  }

  lemma UnfoldQuote(s: string, quote: char, mode: LexMode)
    requires s != ""
    ensures
      if !mode.reviewed && quote == '"' && !IsAscii(s[0]) then ReadQuote(s, quote, mode) == None
      else if s[0] == '\\' then ReadQuote(s, quote, mode) == None
      else if s[0] == quote then
        if |s| > 1 && s[1] == quote then ReadQuote(s, quote, mode) == Doubled([quote], 2, ReadQuote(s[2..], quote, mode))
        else ReadQuote(s, quote, mode) == Some(QuoteRead("", 1))
      else ReadQuote(s, quote, mode) == Doubled([s[0]], 1, ReadQuote(s[1..], quote, mode))
  {
  }

  lemma DoubledTwice(value: string, k: nat, next: string, n: nat, rest: Option<QuoteRead>)
    ensures Doubled(value, k, Doubled(next, n, rest)) == Doubled(value + next, k + n, rest)
  {
    if rest.Some? { assert value + (next + rest.value.value) == (value + next) + rest.value.value; }
  }

  lemma DoubledOnce(value: string, k: nat)
    ensures Doubled(value, k, Some(QuoteRead("", 1))) == Some(QuoteRead(value, k + 1))
    ensures Doubled(value, k, None) == None
  {
    assert value + "" == value;
  }

  /** The tokenizer's loop body. */
  method ReadToken(sql: string, index: nat, mode: LexMode) returns (step: TokenStep)
    requires index < |sql|
    ensures step == TokenAt(sql[..index], sql[index..], mode)
  {
    hide IsSpace, StartsWith, ReadQuote, CommentLength, LineLength, WordLength, NumberLength, TagLength, BodyLength, IsSymbol;
    var rest := sql[index..];
    if !mode.reviewed && !IsAscii(rest[0]) { return Incomplete; }
    if (if mode.reviewed then IsSpace(rest[0]) else rest[0] == ' ' || rest[0] == '\t' || rest[0] == '\n') {
      return Skip(1);
    }
    if StartsWith(rest, "--") { return Skip(LineLength(rest)); }
    if StartsWith(rest, "/*") {
      assert rest[2..] == sql[index + 2..];
      var comment := Splitter.SkipComment(sql, index, false);
      return if comment.Found? then Skip(comment.len) else Incomplete;
    }
    if rest[0] == '\'' || rest[0] == '"' {
      assert rest[1..] == sql[index + 1..];
      var quote := ScanQuote(sql, index, mode);
      if quote.None? { return Incomplete; }
      if !mode.reviewed && rest[0] == '"' && quote.value.value == ";" { return Incomplete; }
      return Emit(if rest[0] == '\'' then Literal else Quoted, quote.value.value, 1 + quote.value.len);
    }
    if mode.native && rest[0] == '$' && !Splitter.EndsIdentifier(sql[..index]) {
      var tag := TagLength(rest);
      if tag.None? { return Incomplete; }
      var body := BodyLength(rest, tag.value);
      if body.None? { return Incomplete; }
      return Emit(Literal, rest[tag.value..body.value - tag.value], body.value);
    }
    if IsWordStart(rest[0]) { return Emit(Word, rest[..WordLength(rest)], WordLength(rest)); }
    if IsDigit(rest[0]) { return Emit(Number, rest[..NumberLength(rest)], NumberLength(rest)); }
    if !IsSymbol(rest[0], mode) { return Incomplete; }
    return Emit(Symbol, [rest[0]], 1);
  }

  lemma LexStarts(sql: string, mode: LexMode)
    ensures Lex(sql, mode) == if HasControl(sql) then Lexed([], false) else Append([], Remaining(sql, 0, mode))
  {
    hide TokensFrom, HasControl;
    assert sql[..0] == "" && sql[0..] == sql;
    assert [] + TokensFrom("", sql, mode).tokens == TokensFrom("", sql, mode).tokens;
  }

  lemma LexEnds(sql: string, tokens: seq<Token>, mode: LexMode)
    ensures Append(tokens, Remaining(sql, |sql|, mode)) == Lexed(tokens, true)
  {
    assert sql[|sql|..] == "" && tokens + [] == tokens;
  }

  /** The tokenizer's loop. */
  method PlatformSqlTokens(sql: string, mode: LexMode) returns (result: Lexed)
    ensures result == Lex(sql, mode)
  {
    hide *;
    LexStarts(sql, mode);
    if HasControl(sql) { return Lexed([], false); }
    var tokens: seq<Token> := [];
    var index := 0;
    while index < |sql|
      invariant 0 <= index <= |sql|
      invariant Append(tokens, Remaining(sql, index, mode)) == Lex(sql, mode)
    {
      var step := ReadToken(sql, index, mode);
      Reads(sql, tokens, index, mode, step);
      MovedIs(sql, index, step);
      match step {
        case Incomplete => return Lexed(tokens, false);
        case Skip(n) => index := index + n;
        case Emit(kind, value, n) => tokens, index := tokens + [Token(kind, value, index, index + n)], index + n;
      }
    }
    LexEnds(sql, tokens, mode);
    return Lexed(tokens, true);
  }

  lemma MovedIs(sql: string, index: nat, step: TokenStep)
    requires index <= |sql|
    ensures !step.Incomplete? ==> Moved(sql, index, step) == index + step.len
  {
  }
}
