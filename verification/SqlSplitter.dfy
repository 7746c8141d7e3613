/** The splitter: a text is cut behind each semicolon that stands outside every comment, quotation and dollar body. */
module SqlSplitter {
  import opened Basics
  import opened SqlText

  /** The splitter's three switches. `dump` reads psql dumps, `creation` and `ascii` only add refusals. */
  datatype Mode = Mode(dump: bool, creation: bool, ascii: bool)

  datatype Result<+T> = Ok(value: T) | Err(error: SplitError)

  /** What the splitter does at one position: skip blank text, take statement text, end a statement, or refuse. */
  datatype Step = Blank(len: nat) | Code(len: nat) | End | Refuse(reason: SplitError)

  /** Does the text before a `$` end in a character that would make the dollar part of an identifier? */
  predicate EndsIdentifier(before: string) {
    before != "" && (var c := before[|before| - 1]; IsWordPart(c) || c == '$' || c as int >= 0x80)
  }

  /** Case-insensitive matching folds U+017F to `s` and U+212A to `k`. */
  predicate FoldsToWord(c: char) {
    IsWordPart(c) || c == '$' || c as int == 0x17f || c as int == 0x212a
  }

  /** Creation mode: the text so far ends in the word `AS` and at least one blank, tab or line feed. */
  predicate EndsInAs(before: string) {
    before != "" && before[|before| - 1] in " \t\n" && AsBeforeBlanks(before)
  }

  predicate AsBeforeBlanks(before: string)
    decreases |before|
  {
    var n := |before|;
    n > 0 &&
    if before[n - 1] in " \t\n" then AsBeforeBlanks(before[..n - 1])
    else
      && n >= 2
      && (before[n - 1] == 's' || before[n - 1] == 'S' || before[n - 1] as int == 0x17f)
      && (before[n - 2] == 'a' || before[n - 2] == 'A')
      && (n == 2 || !FoldsToWord(before[n - 3]))
  }

  /** Creation mode: an escape string or escaped identifier prefix, unless it continues a word. */
  predicate StartsEscape(before: string, s: string) {
    && ((|s| >= 2 && (s[0] == 'E' || s[0] == 'e') && s[1] == '\'')
        || (|s| >= 3 && (s[0] == 'U' || s[0] == 'u') && s[1] == '&' && (s[2] == '\'' || s[2] == '"')))
    && (before == "" || (var c := before[|before| - 1]; !IsWordPart(c) && c != '$'))
  }

  function AlnumLength(s: string): (n: nat)
    ensures n <= |s|
    decreases |s|
  {
    if s == "" || !IsWordPart(s[0]) || s[0] == '_' then 0 else 1 + AlnumLength(s[1..])
  }

  /** Length of the psql command word `s` begins with, or zero. */
  function DumpWord(s: string): (n: nat)
    ensures n <= |s|
  {
    if StartsWith(s, "\\unrestrict ") then 12 else if StartsWith(s, "\\restrict ") then 10 else 0
  }

  /** Where a psql command ends whose argument ends at `end`. */
  function DumpEnd(s: string, end: nat): (r: Option<nat>)
    requires end <= |s|
    ensures r.Some? ==> end <= r.value <= |s|
  {
    if end == |s| then Some(end)
    else if s[end] == '\n' then Some(end + 1)
    else if s[end] == '\r' && end + 1 < |s| && s[end + 1] == '\n' then Some(end + 2)
    else None
  }

  /** Length of a psql `\restrict` or `\unrestrict` line. */
  function DumpCommandLength(s: string): (r: Option<nat>)
    ensures r.Some? ==> 0 < r.value <= |s|
  {
    var word := DumpWord(s);
    if word == 0 then None
    else
      var n := AlnumLength(s[word..]);
      if n == 0 then None else DumpEnd(s, word + n)
  }

  /** What is left of a literal or quoted identifier after its opening quote. */
  function QuoteLength(s: string, quote: char, mode: Mode): (r: Scan)
    ensures r.Found? ==> 0 < r.len <= |s|
    decreases |s|
  {
    if s == "" then Bad(UnterminatedLiteral)
    else if mode.creation && quote == '"' && !IsAscii(s[0]) then Bad(NonAsciiIdentifier)
    else if mode.ascii && quote == '"' && !IsAscii(s[0]) then Bad(NonAsciiIdentifier)
    else if mode.creation && (s[0] == '\n' || (quote == '"' && (s[0] == ';' || s[0] == '$'))) then Bad(CreationQuote)
    else if s[0] == '\\' then
      if mode.creation || (mode.ascii && !mode.dump) then Bad(Backslash)
      else if |s| == 1 then Bad(UnterminatedLiteral)
      else Shift(2, QuoteLength(s[2..], quote, mode))
    else if s[0] == quote then
      if |s| > 1 && s[1] == quote then Shift(2, QuoteLength(s[2..], quote, mode)) else Found(1)
    else Shift(1, QuoteLength(s[1..], quote, mode))
  }

  /** The tag of a dollar body that starts here. */
  function DollarTag(before: string, s: string, mode: Mode): (r: Option<nat>)
    ensures r.Some? ==> 2 <= r.value <= |s|
  {
    if s != "" && s[0] == '$' && (!mode.ascii || !EndsIdentifier(before)) then TagLength(s) else None
  }

  /** Length of the white space, dump command or comment `s` begins with; zero when it begins with statement text. */
  function BlankAt(open: bool, s: string, mode: Mode): (r: Scan)
    requires s != ""
    ensures r.Found? ==> r.len <= |s|
  {
    if (mode.creation || mode.ascii) && !IsAscii(s[0]) then Bad(NonAscii)
    else if IsSpace(s[0]) then Found(1)
    else if mode.dump && !open && s[0] == '\\' then
      var n := DumpCommandLength(s);
      if n.Some? then Found(n.value) else Bad(DumpCommand)
    else if StartsWith(s, "--") then Found(LineLength(s))
    else if StartsWith(s, "/*") then Shift(2, CommentLength(s[2..], 1, mode.creation))
    else Found(0)
  }

  /** One step inside a statement. */
  function CodeAt(before: string, s: string, mode: Mode): (r: Step)
    requires s != ""
    ensures !r.Blank?
    ensures r.Code? ==> 0 < r.len <= |s|
    ensures r.End? ==> s[0] == ';'
  {
    if mode.creation && (s[0] == '\\' || StartsEscape(before, s)) then Refuse(EscapeOutsideBody)
    else if s[0] == '\'' || s[0] == '"' then
      var n := QuoteLength(s[1..], s[0], mode);
      if n.Found? then Code(1 + n.len) else Refuse(n.reason)
    else
      var tag := DollarTag(before, s, mode);
      if mode.creation && s[0] == '$' && (tag != Some(2) || !EndsInAs(before)) then Refuse(DollarPosition)
      else if tag.Some? then
        var n := BodyLength(s, tag.value);
        if n.Some? then Code(n.value) else Refuse(UnterminatedBody)
      else if s[0] == ';' then End
      else Code(1)
  }

  /** One step of the splitter. `before` is the text already read and `open` says whether a statement has begun. */
  function StepAt(before: string, open: bool, s: string, mode: Mode): (r: Step)
    requires s != ""
    ensures r.Blank? ==> 0 < r.len <= |s|
    ensures r.Code? ==> 0 < r.len <= |s|
    ensures r.End? ==> s[0] == ';'
  {
    var blank := BlankAt(open, s, mode);
    if blank.Bad? then Refuse(blank.reason)
    else if blank.len > 0 then Blank(blank.len)
    else CodeAt(before, s, mode)
  }

  function Prepend(statement: string, rest: Result<seq<string>>): Result<seq<string>> {
    if rest.Ok? then Ok([statement] + rest.value) else rest
  }

  /** The statements of `s`, given the part `open` of a statement already begun and all the text `before` it. */
  function SplitFrom(open: string, before: string, s: string, mode: Mode): Result<seq<string>>
    decreases |s|
  {
    if s == "" then if open == "" then Ok([]) else Err(UnterminatedStatement)
    else match StepAt(before, open != "", s, mode)
      case Refuse(reason) => Err(reason)
      case Blank(n) => SplitFrom(if open == "" then "" else open + s[..n], before + s[..n], s[n..], mode)
      case Code(n) => SplitFrom(open + s[..n], before + s[..n], s[n..], mode)
      case End => Prepend(open + ";", SplitFrom("", before + ";", s[1..], mode))
  }

  function Split(sql: string, mode: Mode): Result<seq<string>> {
    SplitFrom("", "", sql, mode)
  }

  // The loops below keep `Join(statements, Remaining(...))` equal to the specification.

  function Join(statements: seq<string>, rest: Result<seq<string>>): Result<seq<string>> {
    if rest.Ok? then Ok(statements + rest.value) else rest
  }

  lemma JoinStep(statements: seq<string>, statement: string, rest: Result<seq<string>>)
    ensures Join(statements, Prepend(statement, rest)) == Join(statements + [statement], rest)
  {
    if rest.Ok? {
      assert statements + ([statement] + rest.value) == (statements + [statement]) + rest.value;
    }
  }

  lemma JoinNone(rest: Result<seq<string>>)
    ensures Join([], rest) == rest
  {
    if rest.Ok? { assert [] + rest.value == rest.value; }
  }

  function Opened(sql: string, start: int, index: nat): string
    requires start <= index <= |sql|
  {
    if start < 0 then "" else sql[start..index]
  }

  ghost function Remaining(sql: string, start: int, index: nat, mode: Mode): Result<seq<string>>
    requires start <= index <= |sql|
  {
    SplitFrom(Opened(sql, start, index), sql[..index], sql[index..], mode)
  }

  lemma CommentMoves(sql: string, start: nat, index: nat, depth: nat, single: bool)
    requires start <= index < |sql| && depth > 0
    ensures Shift(index - start, CommentLength(sql[index..], depth, single))
      == if StartsWith(sql[index..], "/*") then
           if single then Bad(NestedComment) else Shift(index + 2 - start, CommentLength(sql[index + 2..], depth + 1, single))
         else if StartsWith(sql[index..], "*/") then Shift(index + 2 - start, CommentLength(sql[index + 2..], depth - 1, single))
         else Shift(index + 1 - start, CommentLength(sql[index + 1..], depth, single))
  {
    var here := sql[index..];
    assert here[1..] == sql[index + 1..];
    assert |here| >= 2 ==> here[2..] == sql[index + 2..];
  }

  lemma CommentStops(sql: string, start: nat, index: nat, depth: nat, single: bool)
    requires start <= index <= |sql| && (depth == 0 || index == |sql|)
    ensures Shift(index - start, CommentLength(sql[index..], depth, single))
      == if depth > 0 then Bad(UnterminatedComment) else Found(index - start)
  {
  }

  /** The nested-comment loop, from the opening characters at `start`. */
  method SkipComment(sql: string, start: nat, single: bool) returns (r: Scan)
    requires start + 2 <= |sql|
    ensures r == Shift(2, CommentLength(sql[start + 2..], 1, single))
  {
    hide *;
    var depth, index := 1, start + 2;
    ghost var goal := Shift(2, CommentLength(sql[start + 2..], 1, single));
    while index < |sql| && depth > 0
      invariant start + 2 <= index <= |sql|
      invariant Shift(index - start, CommentLength(sql[index..], depth, single)) == goal
    {
      CommentMoves(sql, start, index, depth, single);
      if StartsWith(sql[index..], "/*") {
        if single { return Bad(NestedComment); }
        depth, index := depth + 1, index + 2;
        continue;
      }
      if StartsWith(sql[index..], "*/") {
        depth, index := depth - 1, index + 2;
        continue;
      }
      index := index + 1;
    }
    CommentStops(sql, start, index, depth, single);
    if depth > 0 { return Bad(UnterminatedComment); }
    return Found(index - start);
  }

  /** The literal loop, from the opening quote at `start`. */
  method SkipQuoted(sql: string, start: nat, mode: Mode) returns (r: Scan)
    requires start < |sql|
    ensures r == Shift(1, QuoteLength(sql[start + 1..], sql[start], mode))
  {
    var quote := sql[start];
    var index := start + 1;
    ghost var goal := QuoteLength(sql[start + 1..], quote, mode);
    while index < |sql|
      invariant start < index <= |sql|
      invariant Shift(index - start - 1, QuoteLength(sql[index..], quote, mode)) == goal
    {
      ghost var here := sql[index..];
      assert here[1..] == sql[index + 1..];
      assert |here| >= 2 ==> here[2..] == sql[index + 2..];
      if mode.creation && quote == '"' && !IsAscii(sql[index]) { return Bad(NonAsciiIdentifier); }
      if mode.ascii && quote == '"' && !IsAscii(sql[index]) { return Bad(NonAsciiIdentifier); }
      if mode.creation && (sql[index] == '\n' || (quote == '"' && (sql[index] == ';' || sql[index] == '$'))) {
        return Bad(CreationQuote);
      }
      if sql[index] == '\\' {
        if mode.creation { return Bad(Backslash); }
        if mode.ascii && !mode.dump { return Bad(Backslash); }
        if index + 1 == |sql| { return Bad(UnterminatedLiteral); }
        index := index + 2;
        continue;
      }
      index := index + 1;
      if sql[index - 1] == quote {
        if index < |sql| && sql[index] == quote { index := index + 1; continue; }
        return Found(index - start);
      }
    }
    return Bad(UnterminatedLiteral);
  }

  /** Skips one piece of white space, one dump command or one comment; length zero means there is none here. */
  method SkipBlank(sql: string, start: int, index: nat, mode: Mode) returns (r: Scan)
    requires index < |sql|
    ensures r == BlankAt(start >= 0, sql[index..], mode)
  {
    if (mode.creation || mode.ascii) && !IsAscii(sql[index]) { return Bad(NonAscii); }
    if IsSpace(sql[index]) { return Found(1); }
    if mode.dump && start < 0 && sql[index] == '\\' {
      var command := DumpCommandLength(sql[index..]);
      if command.None? { return Bad(DumpCommand); }
      return Found(command.value);
    }
    if StartsWith(sql[index..], "--") { return Found(LineLength(sql[index..])); }
    if StartsWith(sql[index..], "/*") {
      assert sql[index..][2..] == sql[index + 2..];
      r := SkipComment(sql, index, mode.creation);
      return;
    }
    return Found(0);
  }

  /** Takes one literal, quoted identifier, dollar body or character of a statement. */
  method TakeCode(sql: string, index: nat, mode: Mode) returns (r: Scan)
    requires index < |sql|
    ensures
      var step := CodeAt(sql[..index], sql[index..], mode);
      match r
      case Bad(reason) => step == Refuse(reason)
      case Found(n) => step == Code(n) || (step == End && n == 1)
    ensures r.Found? && r.len == 1 ==> (CodeAt(sql[..index], sql[index..], mode).End? <==> sql[index] == ';')
  {
    ghost var s := sql[index..];
    if mode.creation && (sql[index] == '\\' || StartsEscape(sql[..index], sql[index..])) {
      return Bad(EscapeOutsideBody);
    }
    if sql[index] == '\'' || sql[index] == '"' {
      assert s[1..] == sql[index + 1..];
      r := SkipQuoted(sql, index, mode);
      return;
    }
    var tag := DollarTag(sql[..index], sql[index..], mode);
    if mode.creation && sql[index] == '$' && (tag != Some(2) || !EndsInAs(sql[..index])) {
      return Bad(DollarPosition);
    }
    if tag.Some? {
      var body := BodyLength(sql[index..], tag.value);
      return if body.Some? then Found(body.value) else Bad(UnterminatedBody);
    }
    return Found(1);
  }

  /** What reading one piece of text at `index` leads to. */
  datatype Piece = Refused(reason: SplitError) | Read(start: int, index: nat) | Ended(first: nat, index: nat)

  predicate Advances(sql: string, index: nat, piece: Piece) {
    match piece
    case Refused(_) => true
    case Read(start', index') => -1 <= start' < index' && index < index' <= |sql|
    case Ended(first, index') => first < index' && index < index' <= |sql|
  }

  ghost function Meaning(sql: string, mode: Mode, piece: Piece): Result<seq<string>>
    requires Advances(sql, 0, piece)
  {
    match piece
    case Refused(reason) => Err(reason)
    case Read(start', index') => Remaining(sql, start', index', mode)
    case Ended(first, index') => Prepend(sql[first..index'], Remaining(sql, -1, index', mode))
  }

  lemma SkipContinues(sql: string, start: int, index: nat, mode: Mode, n: nat)
    requires -1 <= start < index < |sql|
    requires 0 < n && BlankAt(start >= 0, sql[index..], mode) == Found(n)
    ensures index + n <= |sql| && Remaining(sql, start, index, mode) == Remaining(sql, start, index + n, mode)
  {
    var s := sql[index..];
    assert s[n..] == sql[index + n..] && sql[..index] + s[..n] == sql[..index + n];
    if start >= 0 { assert sql[start..index] + s[..n] == sql[start..index + n]; }
  }

  lemma CodeContinues(sql: string, start: int, index: nat, mode: Mode, first: nat, n: nat)
    requires -1 <= start < index < |sql|
    requires first == if start < 0 then index else start
    requires BlankAt(start >= 0, sql[index..], mode) == Found(0) && CodeAt(sql[..index], sql[index..], mode) == Code(n)
    ensures index + n <= |sql| && Remaining(sql, start, index, mode) == Remaining(sql, first, index + n, mode)
  {
    var s := sql[index..];
    assert s[n..] == sql[index + n..] && sql[..index] + s[..n] == sql[..index + n];
    assert Opened(sql, start, index) + s[..n] == sql[first..index + n];
  }

  lemma EndContinues(sql: string, start: int, index: nat, mode: Mode, first: nat)
    requires -1 <= start < index < |sql|
    requires first == if start < 0 then index else start
    requires BlankAt(start >= 0, sql[index..], mode) == Found(0) && CodeAt(sql[..index], sql[index..], mode) == End
    ensures Remaining(sql, start, index, mode) == Prepend(sql[first..index + 1], Remaining(sql, -1, index + 1, mode))
  {
    var s := sql[index..];
    assert s[1..] == sql[index + 1..] && sql[..index] + ";" == sql[..index + 1];
    assert Opened(sql, start, index) + ";" == sql[first..index + 1];
  }

  lemma RefuseContinues(sql: string, start: int, index: nat, mode: Mode, reason: SplitError)
    requires -1 <= start < index < |sql|
    requires
      || BlankAt(start >= 0, sql[index..], mode) == Bad(reason)
      || (BlankAt(start >= 0, sql[index..], mode) == Found(0) && CodeAt(sql[..index], sql[index..], mode) == Refuse(reason))
    ensures Remaining(sql, start, index, mode) == Err(reason)
  {
  }

  /** The splitter's loop body. */
  method ReadPiece(sql: string, start: int, index: nat, mode: Mode) returns (piece: Piece)
    requires -1 <= start < index < |sql|
    ensures Advances(sql, index, piece)
    ensures Remaining(sql, start, index, mode) == Meaning(sql, mode, piece)
  {
    hide StepAt, BlankAt, CodeAt, SplitFrom, Remaining;
    var blank := SkipBlank(sql, start, index, mode);
    if blank.Bad? {
      RefuseContinues(sql, start, index, mode, blank.reason);
      return Refused(blank.reason);
    }
    if blank.len > 0 {
      SkipContinues(sql, start, index, mode, blank.len);
      return Read(start, index + blank.len);
    }
    var first := if start < 0 then index else start;
    var code := TakeCode(sql, index, mode);
    if code.Bad? {
      RefuseContinues(sql, start, index, mode, code.reason);
      return Refused(code.reason);
    }
    if code.len == 1 && sql[index] == ';' {
      EndContinues(sql, start, index, mode, first);
      return Ended(first, index + 1);
    }
    CodeContinues(sql, start, index, mode, first, code.len);
    return Read(first, index + code.len);
  }

  /** The splitter's loop. */
  method SqlStatements(sql: string, mode: Mode) returns (result: Result<seq<string>>)
    ensures result == Split(sql, mode)
  {
    var statements: seq<string> := [];
    var index, start := 0, -1;
    JoinNone(Split(sql, mode));
    assert sql[..0] == "" && sql[0..] == sql;
    while index < |sql|
      invariant 0 <= index <= |sql| && -1 <= start < index
      invariant Split(sql, mode) == Join(statements, Remaining(sql, start, index, mode))
    {
      var piece := ReadPiece(sql, start, index, mode);
      match piece {
        case Refused(reason) => return Err(reason);
        case Read(start', index') => start, index := start', index';
        case Ended(first, index') =>
          JoinStep(statements, sql[first..index'], Remaining(sql, -1, index', mode));
          statements, start, index := statements + [sql[first..index']], -1, index';
      }
    }
    assert sql[|sql|..] == "" && statements + [] == statements;
    if start >= 0 { return Err(UnterminatedStatement); }
    return Ok(statements);
  }
}
