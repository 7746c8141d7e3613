/** What the expand-only reader accepts in one CREATE TABLE, CREATE INDEX or ALTER TABLE statement.

A token is its text: words in upper case, `<literal>` for strings and numbers, quoted names with their quotes. `At` past
either end is the empty text, which no token is. Marks are the positions a statement's own grammar accounts for.
*/
module ExpandOnlyGrammar {
  import opened Basics
  import opened TextSplit

  type Tokens = seq<string>

  const CALLS: set<string> := {"BTRIM", "GEN_RANDOM_UUID", "JSONB_TYPEOF", "LENGTH", "LOWER", "NOW", "TRANSLATE", "CHAR_LENGTH", "CLOCK_TIMESTAMP", "OCTET_LENGTH"}
  const CONSTRUCTS: set<string> := {"IN", "AND", "OR", "NOT", "COALESCE", "NULLIF", "CAST"}
  const MODIFIERS: set<string> := {"NUMERIC", "DECIMAL", "VARCHAR", "CHAR", "CHARACTER", "BIT", "VARBIT", "TIMESTAMP", "TIMESTAMPTZ", "TIME", "TIMETZ", "INTERVAL"}
  const CONSTRAINTS: set<string> := {"CONSTRAINT", "PRIMARY", "FOREIGN", "UNIQUE", "CHECK"}

  function At(tokens: Tokens, i: int): string { if 0 <= i < |tokens| then tokens[i] else "" }

  predicate IsNameStart(c: char) { 'A' <= c <= 'Z' || c == '_' }

  predicate IsName(token: string) {
    token != "" && IsNameStart(token[0]) && forall i :: 0 <= i < |token| ==> IsNameStart(token[i]) || IsDigit(token[i])
  }

  predicate IsIdentifier(token: string) { IsName(token) || (token != "" && token[0] == '"') }

  function Unquote(token: string): string {
    if token != "" && token[0] == '"' then (if |token| < 2 then "" else token[1..|token| - 1]) else token
  }

  /** `Array.prototype.slice` for bounds that are not negative. */
  function Between(tokens: Tokens, from: nat, to: int): Tokens {
    var end := if to <= |tokens| then to else |tokens|;
    if from <= end then tokens[from..end] else []
  }

  // ---- Parentheses ----

  /** From nesting depth `depth` on, no parenthesis closes too much and all are closed at the end. */
  predicate Balanced(tokens: Tokens, i: nat, depth: nat)
    decreases |tokens| - i
  {
    if i >= |tokens| then depth == 0
    else if tokens[i] == "(" then Balanced(tokens, i + 1, depth + 1)
    else if tokens[i] == ")" then depth > 0 && Balanced(tokens, i + 1, depth - 1)
    else Balanced(tokens, i + 1, depth)
  }

  /** Where the innermost `depth` open parentheses are all closed. */
  function Seek(tokens: Tokens, i: nat, depth: nat): (r: nat)
    requires depth > 0
    ensures r >= i
    decreases |tokens| - i
  {
    if i >= |tokens| then i
    else if tokens[i] == "(" then Seek(tokens, i + 1, depth + 1)
    else if tokens[i] == ")" then if depth == 1 then i else Seek(tokens, i + 1, depth - 1)
    else Seek(tokens, i + 1, depth)
  }

  /** The parenthesis that closes the one at `i`. */
  function Close(tokens: Tokens, i: nat): (r: nat)
    ensures r > i
  {
    Seek(tokens, i + 1, 1)
  }

  /** Brackets stand in empty pairs only. */
  predicate Paired(tokens: Tokens) {
    forall i :: 0 <= i < |tokens| ==>
      (tokens[i] == "[" ==> At(tokens, i + 1) == "]") && (tokens[i] == "]" ==> At(tokens, i - 1) == "[")
  }

  // ---- Marks ----

  datatype Marks = Marks(structural: set<int>, qualified: set<int>, arrays: set<int>)

  const NOTHING := Marks({}, {}, {})

  function Union(a: Marks, b: Marks): Marks {
    Marks(a.structural + b.structural, a.qualified + b.qualified, a.arrays + b.arrays)
  }

  /** The marks of a part and of what follows it, if both are accepted. */
  function Also(a: Marks, rest: Option<Marks>): Option<Marks> {
    if rest.Some? then Some(Union(a, rest.value)) else None
  }

  // ---- Names and types ----

  function DotsEnd(tokens: Tokens, end: nat): (r: int)
    ensures r < 0 || r >= end
    decreases |tokens| - end
  {
    if At(tokens, end) != "." then end
    else if !IsIdentifier(At(tokens, end + 1)) then -1
    else DotsEnd(tokens, end + 2)
  }

  /** The end of the dotted name at `start`, or less than nothing. */
  function NameEnd(tokens: Tokens, start: nat): (r: int)
    ensures r < 0 || r > start
  {
    if IsIdentifier(At(tokens, start)) then DotsEnd(tokens, start + 1) else -1
  }

  function Dots(tokens: Tokens, start: int, end: int): set<int> { set i | start < i < end && At(tokens, i) == "." }

  function NameMarks(tokens: Tokens, start: int, end: int): Marks { Marks({}, Dots(tokens, start, end), {}) }

  /** A name that takes a modifier ends at `end`, with or without the catalog's name before it. */
  predicate HasModifier(tokens: Tokens, start: int, end: int) {
    && At(tokens, end) == "(" && At(tokens, end - 1) in MODIFIERS
    && (end == start + 1 || (end == start + 3 && At(tokens, start) == "PG_CATALOG"))
  }

  predicate OnlyLiterals(tokens: Tokens) { forall token :: token in tokens ==> token == "<literal>" || token == "," }

  function ArraysEnd(tokens: Tokens, end: nat): (r: nat)
    ensures r >= end
    decreases |tokens| - end
  {
    if At(tokens, end) == "[" && At(tokens, end + 1) == "]" then ArraysEnd(tokens, end + 2) else end
  }

  predicate IsBracket(token: string) { token == "[" || token == "]" }

  function Brackets(tokens: Tokens, start: int, end: int): set<int> { set i | start <= i < end && IsBracket(At(tokens, i)) }

  /** A type at `start`: a name, its literal modifiers if it may have any, and empty array brackets. */
  function TypeMarks(tokens: Tokens, start: nat): Option<Marks> {
    var end := NameEnd(tokens, start);
    if end < 0 then None
    else
      var modified := HasModifier(tokens, start, end);
      if modified && !OnlyLiterals(Between(tokens, end + 1, Close(tokens, end))) then None
      else
        var after := if modified then Close(tokens, end) + 1 else end;
        if At(tokens, after) == "(" then None
        else Some(Marks(if modified then {end} else {}, Dots(tokens, start, end), Brackets(tokens, after, ArraysEnd(tokens, after))))
  }

  // ---- What the statement creates or changes ----

  predicate IfNotExists(tokens: Tokens, i: int) {
    At(tokens, i) == "IF" && At(tokens, i + 1) == "NOT" && At(tokens, i + 2) == "EXISTS"
  }

  predicate IsIndex(tokens: Tokens) {
    At(tokens, 1) == "INDEX" || (At(tokens, 1) == "UNIQUE" && At(tokens, 2) == "INDEX")
  }

  /** `open` is the parenthesis of the key list or the body; an ALTER TABLE has none. */
  datatype Header = Header(open: int, marks: Marks)

  function IndexHeader(tokens: Tokens): (r: Option<Header>)
    ensures r.Some? ==> At(tokens, r.value.open) == "("
  {
    var first := if At(tokens, 1) == "UNIQUE" then 3 else 2;
    var name := if IfNotExists(tokens, first) then first + 3 else first;
    var on := NameEnd(tokens, name);
    if on < 0 || At(tokens, on) != "ON" then None
    else
      var target := NameEnd(tokens, on + 1);
      if target < 0 || (At(tokens, target) == "USING" && !IsIdentifier(At(tokens, target + 1))) then None
      else
        var open := if At(tokens, target) == "USING" then target + 2 else target;
        if At(tokens, open) != "(" then None
        else Some(Header(open, Marks({open}, Dots(tokens, name, on) + Dots(tokens, on + 1, target), {})))
  }

  function TableHeader(tokens: Tokens): (r: Option<Header>)
    ensures r.Some? ==> At(tokens, r.value.open) == "("
  {
    var name := if IfNotExists(tokens, 2) then 5 else 2;
    var open := NameEnd(tokens, name);
    if open < 0 || At(tokens, open) != "(" then None else Some(Header(open, Marks({open}, Dots(tokens, name, open), {})))
  }

  function AlterHeader(tokens: Tokens): (r: Option<Header>)
    ensures r.Some? ==> r.value.open == -1 && NameEnd(tokens, 2) >= 0
  {
    var add := NameEnd(tokens, 2);
    if add < 0 || At(tokens, add) != "ADD" then None else Some(Header(-1, NameMarks(tokens, 2, add)))
  }

  function HeaderOf(tokens: Tokens): (r: Option<Header>)
    ensures r.Some? && r.value.open >= 0 ==> At(tokens, r.value.open) == "("
    ensures r.Some? && r.value.open < 0 ==> NameEnd(tokens, 2) >= 0
    ensures r.Some? && IsIndex(tokens) ==> r.value.open >= 0
  {
    if IsIndex(tokens) then IndexHeader(tokens)
    else if At(tokens, 0) == "CREATE" then TableHeader(tokens)
    else AlterHeader(tokens)
  }

  // ---- Index keys ----

  function SkipDots(tokens: Tokens, end: nat): (r: nat)
    ensures r >= end
    decreases |tokens| - end
  {
    if At(tokens, end) == "." then SkipDots(tokens, end + 2) else end
  }

  /** The end of one key: a column, a call or a parenthesized expression. */
  function KeyEnd(tokens: Tokens, start: nat): (r: int)
    ensures r < 0 || r > start
  {
    if At(tokens, start) == "(" then Close(tokens, start) + 1
    else
      var end := SkipDots(tokens, start + 1);
      if At(tokens, end) == "(" then Close(tokens, end) + 1
      else if IsIdentifier(At(tokens, start)) then end
      else -1
  }

  function NextComma(tokens: Tokens, i: nat, end: int): (r: nat)
    ensures r >= i
    decreases end - i
  {
    if i < end && At(tokens, i) != "," then NextComma(tokens, i + 1, end) else i
  }

  predicate IsOrdering(tokens: Tokens) {
    var nulls := if tokens != [] && (tokens[0] == "ASC" || tokens[0] == "DESC") then tokens[1..] else tokens;
    nulls == [] || nulls == ["NULLS", "FIRST"] || nulls == ["NULLS", "LAST"]
  }

  predicate KeysAllowed(tokens: Tokens, start: nat, end: int)
    decreases end - start
  {
    start >= end
    || (var key := KeyEnd(tokens, start);
        key >= 0
        && (var next := NextComma(tokens, key, end);
            IsOrdering(Between(tokens, key, next)) && KeysAllowed(tokens, next + 1, end)))
  }

  /** Names with commas between them. */
  predicate IsNameList(words: seq<string>)
    decreases |words|
  {
    words != [] && IsName(words[0]) && (|words| == 1 || (words[1] == "," && IsNameList(words[2..])))
  }

  function Unquoted(tokens: Tokens): (r: Tokens)
    ensures |r| == |tokens|
    ensures forall i :: 0 <= i < |tokens| ==> r[i] == Unquote(tokens[i])
  {
    seq(|tokens|, i requires 0 <= i < |tokens| => Unquote(tokens[i]))
  }

  /** The pattern is matched against the unquoted columns joined by spaces, so a quoted name with spaces counts as its words. */
  predicate IsColumnList(tokens: Tokens) {
    tokens != [] && IsNameList(Split(Join(Unquoted(tokens), ' '), ' '))
  }

  datatype Suffix = Suffix(next: nat, marks: Marks)

  /** An INCLUDE or WITH list, if it is there. */
  function ReadSuffix(tokens: Tokens, clause: string, suffix: nat): (r: Option<Suffix>)
    ensures r.Some? ==> r.value.next >= suffix
  {
    if At(tokens, suffix) != clause then Some(Suffix(suffix, NOTHING))
    else if At(tokens, suffix + 1) != "(" then None
    else
      var close := Close(tokens, suffix + 1);
      if clause == "INCLUDE" && !IsColumnList(Between(tokens, suffix + 2, close)) then None
      else Some(Suffix(close + 1, Marks({suffix + 1}, {}, {})))
  }

  /** What may follow the keys of an index. */
  function SuffixMarks(tokens: Tokens, suffix: nat): Option<Marks> {
    var included := ReadSuffix(tokens, "INCLUDE", suffix);
    if included.None? then None
    else
      var with := ReadSuffix(tokens, "WITH", included.value.next);
      if with.None? || (with.value.next < |tokens| && At(tokens, with.value.next) != "WHERE") then None
      else Some(Union(included.value.marks, with.value.marks))
  }

  // ---- Columns and constraints ----

  /** The comma that ends the item at `i`, or the end. */
  function ItemEnd(tokens: Tokens, i: nat, end: int): (r: nat)
    ensures r >= i
    decreases end - i
  {
    if i < end && At(tokens, i) != "," then
      if At(tokens, i) == "(" then ItemEnd(tokens, Close(tokens, i) + 1, end) else ItemEnd(tokens, i + 1, end)
    else i
  }

  /** Where the column or constraint of an ALTER TABLE action stands, or less than nothing. */
  function AddedColumn(tokens: Tokens, start: nat): (r: int)
    ensures r < 0 || r > start
  {
    if At(tokens, start) != "ADD" then -1
    else
      var column := if At(tokens, start + 1) == "COLUMN" then start + 2 else start + 1;
      if IfNotExists(tokens, column) then column + 3 else column
  }

  datatype Clause = Clause(next: nat, marks: Marks)

  function Mark(tokens: Tokens, i: int): set<int> { if At(tokens, i) == "(" then {i} else {} }

  function ReadReferences(tokens: Tokens, i: nat): (r: Option<Clause>)
    ensures r.Some? ==> r.value.next > i
  {
    var end := NameEnd(tokens, i + 1);
    if end < 0 then None else Some(Clause(end, Marks(Mark(tokens, end), Dots(tokens, i + 1, end), {})))
  }

  function ReadGenerated(tokens: Tokens, i: nat): (r: Option<Clause>)
    ensures r.Some? ==> r.value.next > i
  {
    var as_ :=
      if At(tokens, i + 1) == "ALWAYS" then i + 2
      else if At(tokens, i + 1) == "BY" && At(tokens, i + 2) == "DEFAULT" then i + 3
      else -1;
    if as_ < 0 || At(tokens, as_) != "AS" then None
    else
      var expression := if At(tokens, as_ + 1) == "IDENTITY" then as_ + 2 else as_ + 1;
      Some(Clause(expression, Marks(Mark(tokens, expression), {}, {})))
  }

  /** One step through the clauses of a column or constraint. */
  function ReadClause(tokens: Tokens, i: nat): (r: Option<Clause>)
    ensures r.Some? ==> r.value.next > i
  {
    var token := At(tokens, i);
    if token == "REFERENCES" then ReadReferences(tokens, i)
    else if token == "GENERATED" then ReadGenerated(tokens, i)
    else if token == "(" then Some(Clause(Close(tokens, i) + 1, NOTHING))
    else if
      || token == "CHECK" || token == "UNIQUE"
      || (token == "KEY" && (At(tokens, i - 1) == "PRIMARY" || At(tokens, i - 1) == "FOREIGN"))
    then Some(Clause(i + 1, Marks(Mark(tokens, i + 1), {}, {})))
    else Some(Clause(i + 1, NOTHING))
  }

  function ClausesMarks(tokens: Tokens, i: nat, next: int): Option<Marks>
    decreases next - i
  {
    if i >= next then Some(NOTHING)
    else
      var clause := ReadClause(tokens, i);
      if clause.None? then None else Also(clause.value.marks, ClausesMarks(tokens, clause.value.next, next))
  }

  /** Where the clauses begin after a constraint's own name, or less than nothing. */
  function AfterConstraintName(tokens: Tokens, i: nat): (r: int)
    ensures r < 0 || r >= i
  {
    if At(tokens, i) != "CONSTRAINT" then i
    else if IsIdentifier(At(tokens, i + 1)) then i + 2
    else -1
  }

  function NamedClauses(tokens: Tokens, i: nat, next: int): Option<Marks> {
    var first := AfterConstraintName(tokens, i);
    if first < 0 then None else ClausesMarks(tokens, first, next)
  }

  /** One column or constraint, from its name to `next`. */
  function ColumnMarks(tokens: Tokens, column: nat, next: int): Option<Marks> {
    if At(tokens, column) in CONSTRAINTS then NamedClauses(tokens, column, next)
    else
      var type_ := TypeMarks(tokens, column + 1);
      if !IsIdentifier(At(tokens, column)) || type_.None? then None
      else Also(type_.value, NamedClauses(tokens, NameEnd(tokens, column + 1), next))
  }

  function ItemMarks(tokens: Tokens, start: nat, next: int, alter: bool): Option<Marks> {
    var column := if alter then AddedColumn(tokens, start) else start;
    if column < 0 then None else ColumnMarks(tokens, column, next)
  }

  function ItemsMarks(tokens: Tokens, start: nat, end: int, alter: bool): Option<Marks>
    decreases end - start
  {
    if start >= end then Some(NOTHING)
    else
      var next := ItemEnd(tokens, start, end);
      var item := ItemMarks(tokens, start, next, alter);
      if item.None? then None else Also(item.value, ItemsMarks(tokens, next + 1, end, alter))
  }

  /** Everything outside expressions. */
  function BodyMarks(tokens: Tokens): Option<Marks> {
    var header := HeaderOf(tokens);
    if header.None? then None
    else
      var open := header.value.open;
      Also(header.value.marks,
        if IsIndex(tokens) then
          if KeysAllowed(tokens, open + 1, Close(tokens, open)) then SuffixMarks(tokens, Close(tokens, open) + 1) else None
        else if open >= 0 then ItemsMarks(tokens, open + 1, Close(tokens, open), false)
        else ItemsMarks(tokens, NameEnd(tokens, 2), |tokens|, true))
  }

  // ---- Expressions ----

  function SeekAs(tokens: Tokens, i: nat, end: int): (r: nat)
    ensures r >= i
    decreases end - i
  {
    if i < end && At(tokens, i) != "AS" then
      if At(tokens, i) == "(" then SeekAs(tokens, Close(tokens, i) + 1, end) else SeekAs(tokens, i + 1, end)
    else i
  }

  predicate IsCast(tokens: Tokens, i: int) { At(tokens, i) == "CAST" && At(tokens, i + 1) == "(" }

  /** The type of the CAST at `i`, at most qualified by the catalog. */
  function CastMarks(tokens: Tokens, i: nat): Option<Marks> {
    var end := Close(tokens, i + 1);
    var as_ := SeekAs(tokens, i + 2, end);
    if as_ == end then None
    else if At(tokens, as_ + 2) == "." && (At(tokens, as_ + 1) != "PG_CATALOG" || At(tokens, as_ + 4) == ".") then None
    else TypeMarks(tokens, as_ + 1)
  }

  predicate DotAllowed(tokens: Tokens, i: int) {
    At(tokens, i - 1) == "PG_CATALOG" && At(tokens, i + 1) in CALLS && At(tokens, i + 2) == "(" && At(tokens, i - 2) != "."
  }

  predicate CallAllowed(tokens: Tokens, i: int) {
    At(tokens, i - 1) in CALLS || (At(tokens, i - 2) != "." && At(tokens, i - 1) in CONSTRUCTS)
  }

  /** What a token may be that the marks do not account for. */
  predicate TokenAllowed(tokens: Tokens, i: int, marks: Marks) {
    var token := At(tokens, i);
    && (IsBracket(token) ==> i in marks.arrays)
    && (token == "." && i !in marks.qualified ==> DotAllowed(tokens, i))
    && (token == "(" && i !in marks.structural && IsIdentifier(At(tokens, i - 1)) ==> CallAllowed(tokens, i))
  }

  predicate ExpressionsAllowed(tokens: Tokens, i: nat, marks: Marks)
    decreases |tokens| - i
  {
    i >= |tokens|
    || (var cast := if IsCast(tokens, i) then CastMarks(tokens, i) else Some(NOTHING);
        && cast.Some? && TokenAllowed(tokens, i, Union(marks, cast.value))
        && ExpressionsAllowed(tokens, i + 1, Union(marks, cast.value)))
  }

  predicate Admitted(tokens: Tokens) {
    && Paired(tokens) && Balanced(tokens, 0, 0) && BodyMarks(tokens).Some?
    && ExpressionsAllowed(tokens, 0, BodyMarks(tokens).value)
  }
}
