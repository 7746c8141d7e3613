/** Expand-only admission of a whole file: every statement only adds to a schema. */
module ExpandOnlyAdmission {
  // The patterns the source matches against tokens joined by spaces are matched token by token here, except where a
  // quoted name's own spaces could make a difference.

  import opened Basics
  import opened TextSplit
  import opened SqlText
  import opened SqlTokens
  import opened ExpandOnlyGrammar
  import Checks = ExpandOnlyChecks

  const PLAIN := LexMode(false, false)

  const DESTRUCTIVE: set<string> := {
    "DROP", "TRUNCATE", "RENAME", "OWNER", "SET", "APP", "DELETE", "UPDATE", "REPLACE", "SELECT", "EXECUTE", "CALL", "DETACH",
    "ATTACH", "INHERIT", "INHERITS", "DISABLE", "ENABLE", "VALIDATE", "AUTHORIZATION"}

  const SEEDS: set<string> := {"<literal>", "TRUE", "FALSE", "NULL", "(", ")", ",", "+", "-"}

  // ---- Tokens as texts, statements as token lists ----

  function Upper(c: char): char { if 'a' <= c <= 'z' then (c as int - 32) as char else c }

  function UpperText(s: string): (r: string)
    ensures |r| == |s| && forall i :: 0 <= i < |s| ==> r[i] == Upper(s[i])
  {
    seq(|s|, i requires 0 <= i < |s| => Upper(s[i]))
  }

  function TextOf(token: Token): string {
    match token.kind
    case Literal => "<literal>"
    case Number => "<literal>"
    case Quoted => "\"" + UpperText(token.value) + "\""
    case Word => UpperText(token.value)
    case Symbol => UpperText(token.value)
  }

  function Texts(tokens: seq<Token>): (r: Tokens)
    ensures |r| == |tokens|
    ensures forall i :: 0 <= i < |tokens| ==> r[i] == TextOf(tokens[i])
  {
    seq(|tokens|, i requires 0 <= i < |tokens| => TextOf(tokens[i]))
  }

  /** Position of the first `word` from `from` on, or the length. */
  function Find(tokens: Tokens, word: string, from: nat): (r: nat)
    requires from <= |tokens|
    ensures from <= r <= |tokens|
    ensures r < |tokens| ==> tokens[r] == word
    ensures forall i :: from <= i < r ==> tokens[i] != word
    decreases |tokens| - from
  {
    if from == |tokens| || tokens[from] == word then from else Find(tokens, word, from + 1)
  }

  /** The statements that are not empty. */
  function Statements(tokens: Tokens): seq<Tokens>
    decreases |tokens|
  {
    var n := Find(tokens, ";", 0);
    Unless(tokens[..n]) + if n == |tokens| then [] else Statements(tokens[n + 1..])
  }

  /** The statement alone, unless it is empty. */
  function Unless(statement: Tokens): seq<Tokens> { if statement == [] then [] else [statement] }

  lemma {:induction false} NoneEmpty(tokens: Tokens)
    ensures forall i :: 0 <= i < |Statements(tokens)| ==> Statements(tokens)[i] != []
    decreases |tokens|
  {
    hide Find;
    var n := Find(tokens, ";", 0);
    if n < |tokens| { NoneEmpty(tokens[n + 1..]); }
  }

  // ---- One statement ----

  predicate HasPair(tokens: Tokens, first: string, second: string) {
    exists i :: 0 <= i < |tokens| && tokens[i] == first && At(tokens, i + 1) == second
  }

  function Count(tokens: Tokens, word: string): (n: nat)
    ensures n > 0 <==> word in tokens
    decreases |tokens|
  {
    if tokens == [] then 0
    else
      assert tokens == [tokens[0]] + tokens[1..];
      (if tokens[0] == word then 1 else 0) + Count(tokens[1..], word)
  }

  /** How many parentheses the first `n` tokens leave open. */
  function Depth(tokens: Tokens, n: nat): int
    requires n <= |tokens|
  {
    if n == 0 then 0
    else Depth(tokens, n - 1) + (if tokens[n - 1] == "(" then 1 else if tokens[n - 1] == ")" then -1 else 0)
  }

  /** A dotted name and, perhaps, its columns. */
  predicate IsTarget(tokens: Tokens)
    decreases |tokens|
  {
    && tokens != [] && IsName(tokens[0])
    && (|tokens| == 1
      || (tokens[1] == "." && IsTarget(tokens[2..]))
      || (tokens[1] == "(" && |tokens| > 3 && tokens[|tokens| - 1] == ")" && IsNameList(tokens[2..|tokens| - 1])))
  }

  predicate IsInsertHead(tokens: Tokens) {
    && |tokens| > 3 && tokens[0] == "INSERT" && tokens[1] == "INTO" && tokens[|tokens| - 1] == "VALUES"
    && IsTarget(tokens[2..|tokens| - 1])
  }

  /** ON CONFLICT, its columns or its constraint, and DO NOTHING. */
  predicate IsConflict(tokens: Tokens) {
    && |tokens| >= 4 && tokens[0] == "ON" && tokens[1] == "CONFLICT"
    && tokens[|tokens| - 2] == "DO" && tokens[|tokens| - 1] == "NOTHING"
    && (var on := tokens[2..|tokens| - 2];
        || on == []
        || (|on| > 2 && on[0] == "(" && on[|on| - 1] == ")" && IsNameList(on[1..|on| - 1]))
        || (|on| == 3 && on[0] == "ON" && on[1] == "CONSTRAINT" && IsName(on[2])))
  }

  predicate EndsInConflict(tokens: Tokens) { exists i :: 0 < i < |tokens| && IsConflict(tokens[i..]) }

  /** Between VALUES and ON stand literal rows only, and the end of `words` is a conflict clause that does nothing. */
  predicate IsSeed(tokens: Tokens, words: seq<string>) {
    var values := Find(tokens, "VALUES", 0);
    var conflict := Find(tokens, "ON", values);
    && values < |tokens| && conflict < |tokens| && EndsInConflict(words)
    && forall i :: values < i < conflict ==> tokens[i] in SEEDS
  }

  predicate InsertAllowed(quoted: Tokens) {
    var values := Find(quoted, "VALUES", 0);
    values < |quoted| && IsInsertHead(quoted[..values + 1]) && IsSeed(quoted, quoted)
  }

  predicate SchemaAllowed(quoted: Tokens) {
    var named := if IfNotExists(quoted, 2) then 5 else 2;
    |quoted| == named + 1 && quoted[0] == "CREATE" && quoted[1] == "SCHEMA" && IsName(quoted[named])
  }

  /** An AS outside all parentheses. */
  predicate HasQuery(tokens: Tokens) { exists i :: 0 <= i < |tokens| && tokens[i] == "AS" && Depth(tokens, i + 1) == 0 }

  predicate DefinitionAllowed(quoted: Tokens) {
    && "LIKE" !in quoted && !HasPair(quoted, "PARTITION", "OF") && Admitted(quoted)
    && (At(quoted, 0) == "CREATE" && At(quoted, 1) == "TABLE" ==> !HasQuery(quoted))
  }

  /** From the first ADD on, parentheses close and every comma outside them comes before another ADD. */
  predicate OnlyAdds(tokens: Tokens) {
    Depth(tokens, |tokens|) == 0 && forall i :: 0 <= i < |tokens| ==> AddAfter(tokens, i)
  }

  predicate AddAfter(tokens: Tokens, i: nat)
    requires i < |tokens|
  {
    Depth(tokens, i + 1) >= 0 && (tokens[i] == "," && Depth(tokens, i + 1) == 0 ==> At(tokens, i + 1) == "ADD")
  }

  predicate AlterAllowed(statement: Tokens) {
    var add := Find(statement, "ADD", 0);
    2 < add < |statement| && "," !in statement[2..add] && Count(statement, "ALTER") == 1 && OnlyAdds(statement[add..])
  }

  predicate DefinesStructure(text: string) {
    || StartsWith(text, "CREATE TABLE ") || StartsWith(text, "CREATE UNIQUE TABLE ") || StartsWith(text, "CREATE INDEX ")
    || StartsWith(text, "CREATE UNIQUE INDEX ") || StartsWith(text, "ALTER TABLE ")
  }

  predicate CreatesObject(text: string) {
    exists kind, unique ::
      && kind in ["TABLE ", "INDEX ", "TYPE ", "SEQUENCE ", "SCHEMA "] && unique in ["", "UNIQUE "]
      && StartsWith(text, "CREATE " + unique + kind)
  }

  /** The refusals that read quoted names as such. */
  predicate QuotedAllowed(quoted: Tokens, text: string) {
    && "OPERATOR" !in quoted && !HasPair(quoted, "OWNED", "BY")
    && (StartsWith(text, "INSERT INTO ") ==> InsertAllowed(quoted))
    && (StartsWith(text, "CREATE SCHEMA ") ==> SchemaAllowed(quoted))
    && (if DefinesStructure(text) then DefinitionAllowed(quoted) else "[" !in quoted && "]" !in quoted)
  }

  predicate NothingTaken(words: seq<string>) { forall word :: word in words ==> word !in DESTRUCTIVE }

  /** The kinds of statement that only add. */
  predicate OnlyAdding(statement: Tokens, text: string) {
    if text == "BEGIN" || text == "COMMIT" then true
    else if StartsWith(text, "INSERT INTO ") then IsSeed(statement, Split(text, ' ')) && Count(statement, "DO") == 1
    else if "DO" in statement then false
    else if CreatesObject(text) then "ALTER" !in statement && Count(statement, "CREATE") == 1
    else StartsWith(text, "ALTER TABLE ") && AlterAllowed(statement)
  }

  /** The first admission, which reads quoted names as words. */
  predicate WordsAllowed(statement: Tokens, text: string) { NothingTaken(statement) && OnlyAdding(statement, text) }

  function Unspaced(quoted: Tokens): string
    requires quoted != []
  {
    Join(Unquoted(quoted), ' ')
  }

  predicate StatementAllowed(quoted: Tokens)
    requires quoted != []
  {
    QuotedAllowed(quoted, Unspaced(quoted)) && WordsAllowed(Unquoted(quoted), Unspaced(quoted))
  }

  predicate AllAllowed(statements: seq<Tokens>) {
    forall statement :: statement in statements ==> statement != [] && StatementAllowed(statement)
  }

  // ---- The mode for reviewed new tables ----

  const REVIEWED := LexMode(true, false)

  /** Upper case, which outside ASCII is only known to be some function. */
  ghost predicate IsUpper(upper: string -> string) {
    forall s :: (forall i :: 0 <= i < |s| ==> IsAscii(s[i])) ==> upper(s) == UpperText(s)
  }

  /** A token's text in this mode, quoted names without their quotes. */
  function TextIn(token: Token, upper: string -> string): string {
    match token.kind
    case Literal => "<literal>"
    case Number => "<literal>"
    case Quoted => upper(token.value)
    case Word => upper(token.value)
    case Symbol => upper(token.value)
  }

  function TextsIn(tokens: seq<Token>, upper: string -> string): (r: Tokens)
    ensures |r| == |tokens|
    ensures forall i :: 0 <= i < |tokens| ==> r[i] == TextIn(tokens[i], upper)
  {
    seq(|tokens|, i requires 0 <= i < |tokens| => TextIn(tokens[i], upper))
  }

  /** How many words the foreign-key action takes that begins here: ON DELETE CASCADE or ON DELETE SET NULL. */
  function ActionLength(words: seq<string>): (n: nat)
    ensures n <= |words|
  {
    if |words| < 3 || words[0] != "ON" || words[1] != "DELETE" then 0
    else if words[2] == "CASCADE" then 3
    else if |words| > 3 && words[2] == "SET" && words[3] == "NULL" then 4
    else 0
  }

  /** The words without such actions. */
  function Unmasked(words: seq<string>): seq<string>
    decreases |words|
  {
    if words == [] then []
    else if ActionLength(words) > 0 then Unmasked(words[ActionLength(words)..])
    else [words[0]] + Unmasked(words[1..])
  }

  /** What is looked through for destructive words: in a CREATE TABLE, the words behind the first without the actions. */
  function Checked(statement: Tokens, text: string): seq<string> {
    var words := Split(text, ' ');
    if StartsWith(text, "CREATE TABLE ") then [words[0]] + Unmasked(words[1..]) else statement
  }

  predicate ReviewedAllowed(statement: Tokens)
    requires statement != []
  {
    var text := Join(statement, ' ');
    NothingTaken(Checked(statement, text)) && OnlyAdding(statement, text)
  }

  predicate AllReviewed(statements: seq<Tokens>) {
    forall statement :: statement in statements ==> statement != [] && ReviewedAllowed(statement)
  }

  function StatementsReviewed(sql: string, upper: string -> string): seq<Tokens> {
    Statements(TextsIn(Lex(sql, REVIEWED).tokens, upper))
  }

  predicate ExpandsReviewed(sql: string, upper: string -> string) {
    && Lex(sql, REVIEWED).complete && StatementsReviewed(sql, upper) != []
    && AllReviewed(StatementsReviewed(sql, upper))
  }

  // ---- A whole file ----

  function StatementsIn(sql: string): seq<Tokens> { Statements(Texts(Lex(sql, PLAIN).tokens)) }

  predicate ExpandsOnly(sql: string) {
    Lex(sql, PLAIN).complete && StatementsIn(sql) != [] && AllAllowed(StatementsIn(sql))
  }

  // ---- The loops ----

  lemma CutFirst(current: Tokens, rest: Tokens)
    requires ";" !in current
    ensures rest == [] ==> Statements(current + rest) == if current == [] then [] else [current]
    ensures rest != [] && rest[0] == ";" ==>
      Statements(current + rest) == (if current == [] then [] else [current]) + Statements(rest[1..])
  {
    var tokens := current + rest;
    var n := Find(tokens, ";", 0);
    assert forall i :: 0 <= i < |current| ==> tokens[i] == current[i];
    assert rest == [] ==> n == |current| && tokens[..n] == current;
    assert rest != [] && rest[0] == ";" ==> tokens[|current|] == ";";
    assert rest != [] && rest[0] == ";" ==> n == |current| && tokens[..n] == current && tokens[n + 1..] == rest[1..];
  }

  method SplitStatements(tokens: Tokens) returns (statements: seq<Tokens>)
    ensures statements == Statements(tokens)
  {
    hide Statements, Find;
    var current: Tokens := [];
    statements := [];
    assert [] + tokens[0..] == tokens && statements + Statements(tokens) == Statements(tokens);
    for i := 0 to |tokens|
      invariant ";" !in current && statements + Statements(current + tokens[i..]) == Statements(tokens)
    {
      var rest := tokens[i..];
      assert rest[1..] == tokens[i + 1..];
      if tokens[i] == ";" {
        CutFirst(current, rest);
        var done := if current == [] then [] else [current];
        assert (statements + done) + Statements(rest[1..]) == statements + (done + Statements(rest[1..]));
        statements, current := statements + done, [];
        assert [] + rest[1..] == rest[1..];
      } else {
        assert current + rest == (current + [tokens[i]]) + tokens[i + 1..];
        current := current + [tokens[i]];
      }
    }
    CutFirst(current, []);
    assert tokens[|tokens|..] == [];
    statements := if current == [] then statements + [] else statements + [current];
  }

  /** The loop that looks for CREATE TABLE ... AS. */
  method FindQuery(tokens: Tokens) returns (found: bool)
    ensures found <==> HasQuery(tokens)
  {
    var depth := 0;
    for i := 0 to |tokens|
      invariant depth == Depth(tokens, i)
      invariant forall j :: 0 <= j < i && tokens[j] == "AS" ==> Depth(tokens, j + 1) != 0
    {
      if tokens[i] == "(" { depth := depth + 1; }
      if tokens[i] == ")" { depth := depth - 1; }
      if depth == 0 && tokens[i] == "AS" { return true; }
    }
    found := false;
  }

  lemma AtAfter(tokens: Tokens, from: nat, i: nat)
    requires from <= |tokens| && from <= i
    ensures At(tokens[from..], i - from) == At(tokens, i)
  {
  }

  /** The loop over the actions of an ALTER TABLE. */
  method CheckActions(statement: Tokens, add: nat) returns (ok: bool)
    requires add <= |statement|
    ensures ok <==> OnlyAdds(statement[add..])
  {
    var depth, rest := 0, statement[add..];
    for index := add to |statement|
      invariant depth == Depth(rest, index - add)
      invariant forall i :: 0 <= i < index - add ==> AddAfter(rest, i)
    {
      ghost var k := index - add;
      assert rest[k] == statement[index];
      AtAfter(statement, add, index + 1);
      if statement[index] == "(" { depth := depth + 1; }
      if statement[index] == ")" { depth := depth - 1; }
      assert depth == Depth(rest, k + 1);
      assert AddAfter(rest, k) <==> depth >= 0 && (rest[k] == "," && depth == 0 ==> At(statement, index + 1) == "ADD");
      if depth < 0 || (depth == 0 && statement[index] == "," && At(statement, index + 1) != "ADD") { return false; }
    }
    ok := depth == 0;
  }

  method CheckDefinition(quoted: Tokens) returns (ok: bool)
    ensures ok <==> DefinitionAllowed(quoted)
  {
    hide Admitted, HasQuery, HasPair;
    if "LIKE" in quoted || HasPair(quoted, "PARTITION", "OF") { return false; }
    var expressions := Checks.ExpandOnlyExpressions(quoted);
    if !expressions { return false; }
    var query := FindQuery(quoted);
    return !(At(quoted, 0) == "CREATE" && At(quoted, 1) == "TABLE" && query);
  }

  method CheckAlter(statement: Tokens) returns (ok: bool)
    ensures ok <==> AlterAllowed(statement)
  {
    hide OnlyAdds;
    var add := Find(statement, "ADD", 0);
    if add <= 2 || add == |statement| || "," in statement[2..add] || Count(statement, "ALTER") != 1 { return false; }
    ok := CheckActions(statement, add);
  }

  /** The tests that read words only. */
  method CheckWords(statement: Tokens, text: string) returns (ok: bool)
    ensures ok <==> OnlyAdding(statement, text)
  {
    hide StartsWith, CreatesObject, AlterAllowed, IsSeed;
    if text == "BEGIN" || text == "COMMIT" { return true; }
    if StartsWith(text, "INSERT INTO ") { return IsSeed(statement, Split(text, ' ')) && Count(statement, "DO") == 1; }
    if "DO" in statement { return false; }
    if CreatesObject(text) { return "ALTER" !in statement && Count(statement, "CREATE") == 1; }
    if !StartsWith(text, "ALTER TABLE ") { return false; }
    ok := CheckAlter(statement);
  }

  /** The test every statement must pass. */
  method CheckStatement(quoted: Tokens) returns (ok: bool)
    requires quoted != []
    ensures ok <==> StatementAllowed(quoted)
  {
    hide StartsWith, InsertAllowed, SchemaAllowed, DefinesStructure, DefinitionAllowed, HasPair, Join, Unquoted, OnlyAdding;
    var statement, text := Unquoted(quoted), Unspaced(quoted);
    if "OPERATOR" in quoted || HasPair(quoted, "OWNED", "BY") { return false; }
    if StartsWith(text, "INSERT INTO ") && !InsertAllowed(quoted) { return false; }
    if StartsWith(text, "CREATE SCHEMA ") && !SchemaAllowed(quoted) { return false; }
    if DefinesStructure(text) {
      var definition := CheckDefinition(quoted);
      if !definition { return false; }
    } else if "[" in quoted || "]" in quoted { return false; }
    if exists token :: token in statement && token in DESTRUCTIVE { return false; }
    ok := CheckWords(statement, text);
  }

  /** The same for a reviewed new table. */
  method CheckReviewed(statement: Tokens) returns (ok: bool)
    requires statement != []
    ensures ok <==> ReviewedAllowed(statement)
  {
    hide Join, Checked, OnlyAdding;
    var text := Join(statement, ' ');
    if exists word :: word in Checked(statement, text) && word in DESTRUCTIVE { return false; }
    ok := CheckWords(statement, text);
  }

  /** Expand-only admission of a file, in the default mode or for reviewed new tables. */
  method IsExpandOnlyPlatformForward(sql: string, reviewed: bool, upper: string -> string) returns (ok: bool)
    ensures ok <==> if reviewed then ExpandsReviewed(sql, upper) else ExpandsOnly(sql)
  {
    hide Lex, Statements, StatementAllowed, ReviewedAllowed;
    var parsed := PlatformSqlTokens(sql, if reviewed then REVIEWED else PLAIN);
    if !parsed.complete { return false; }
    var texts := if reviewed then TextsIn(parsed.tokens, upper) else Texts(parsed.tokens);
    var statements := SplitStatements(texts);
    NoneEmpty(texts);
    if statements == [] { return false; }
    for i := 0 to |statements|
      invariant forall j :: 0 <= j < |statements| ==> statements[j] != []
      invariant forall j :: 0 <= j < i ==> if reviewed then ReviewedAllowed(statements[j]) else StatementAllowed(statements[j])
    {
      var allowed;
      if reviewed { allowed := CheckReviewed(statements[i]); } else { allowed := CheckStatement(statements[i]); }
      if !allowed { return false; }
    }
    ok := true;
  }
}
