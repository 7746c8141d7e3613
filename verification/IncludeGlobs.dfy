/** The include-glob matcher: brace expansion, translation to a regular expression, and matching. */
module IncludeGlobs {
  // A regular expression is a list of items; the text it is written as, with its escapes, is not modelled. `None` stands
  // for the exception thrown on an unsupported glob.

  import opened Basics
  import opened TextSplit

  // ---- Regular expressions ----

  datatype Item =
    | NotDot          // (?!\.)
    | Lit(c: char)
    | NonSlash        // [^/]
    | Star            // [^/]*
    | Dirs            // (?:(?!\.)[^/]+/)*

  /** Whether the items match all of `s`. */
  predicate Match(items: seq<Item>, s: string)
    decreases |items|, |s|
  {
    if items == [] then s == ""
    else
      match items[0]
      case NotDot => (s == "" || s[0] != '.') && Match(items[1..], s)
      case Lit(c) => s != "" && s[0] == c && Match(items[1..], s[1..])
      case NonSlash => s != "" && s[0] != '/' && Match(items[1..], s[1..])
      case Star => Match(items[1..], s) || (s != "" && s[0] != '/' && Match(items, s[1..]))
      case Dirs =>
        || Match(items[1..], s)
        || exists n :: 0 < n < |s| && s[0] != '.' && '/' !in s[..n] && s[n] == '/' && Match(items, s[n + 1..])
  }

  // ---- Splitting ----

  function First(s: string): string { s[..Until(s, '/')] }

  function Rest(s: string): string { s[Until(s, '/')..] }

  predicate HasDoubleStar(s: string) { exists i :: 0 <= i < |s| - 1 && s[i] == '*' && s[i + 1] == '*' }

  // ---- Brace groups ----

  /** The alternatives of a glob with at most one brace group. */
  function ExpandBraceGroup(glob: string): Option<seq<string>> {
    var open := Until(glob, '{');
    if open == |glob| then (if '}' in glob then None else Some([glob]))
    else
      var after := glob[open + 1..];
      var close := Until(after, '}');
      if close == |after| then None
      else
        var body, tail := after[..close], after[close + 1..];
        if '{' in body || '{' in tail || '}' in tail then None
        else Some(Wrap(glob[..open], Split(body, ','), tail))
  }

  function Wrap(prefix: string, parts: seq<string>, tail: string): (r: seq<string>)
    ensures |r| == |parts|
    ensures forall i :: 0 <= i < |r| ==> r[i] == prefix + parts[i] + tail
  {
    seq(|parts|, i requires 0 <= i < |parts| => prefix + parts[i] + tail)
  }

  // ---- Translation ----

  predicate Unsupported(c: char) { c in "?[]()!+@" }

  function Chars(segment: string): seq<Item>
    decreases |segment|
  {
    if segment == "" then [] else [if segment[0] == '*' then Star else Lit(segment[0])] + Chars(segment[1..])
  }

  /** The items of one segment, or nothing if it is not supported. */
  function Segment(segment: string, isLast: bool): Option<seq<Item>> {
    if segment == "**" then Some(if isLast then [Dirs, NotDot, NonSlash, Star] else [Dirs])
    else if HasDoubleStar(segment) then None
    else Some((if segment != "" && segment[0] == '*' then [NotDot] else []) + Chars(segment) + (if isLast then [] else [Lit('/')]))
  }

  function Segments(segments: seq<string>): Option<seq<Item>>
    requires segments != []
    decreases |segments|
  {
    match Segment(segments[0], |segments| == 1)
    case None => None
    case Some(items) =>
      if |segments| == 1 then Some(items)
      else
        match Segments(segments[1..])
        case None => None
        case Some(more) => Some(items + more)
  }

  function GlobToRegExp(glob: string): Option<seq<Item>> {
    if exists i :: 0 <= i < |glob| && Unsupported(glob[i]) then None else Segments(Split(glob, '/'))
  }

  /** Translating a glob segment by segment. */
  method Translate(glob: string) returns (pattern: Option<seq<Item>>)
    ensures pattern == GlobToRegExp(glob)
  {
    hide Segment, Unsupported;
    if exists i :: 0 <= i < |glob| && Unsupported(glob[i]) { return None; }
    var segments := Split(glob, '/');
    var items: seq<Item> := [];
    assert segments[0..] == segments;
    for index := 0 to |segments|
      invariant index < |segments| ==> Segments(segments) == Append(items, Segments(segments[index..]))
      invariant index == |segments| ==> Segments(segments) == Some(items)
    {
      var isLast := index == |segments| - 1;
      var part := Segment(segments[index], isLast);
      assert segments[index..][1..] == segments[index + 1..];
      if part.None? { return None; }
      if !isLast { AppendTwice(items, part.value, Segments(segments[index + 1..])); }
      items := items + part.value;
    }
    pattern := Some(items);
  }

  function Append(items: seq<Item>, more: Option<seq<Item>>): (r: Option<seq<Item>>)
    ensures items == [] ==> r == more
  {
    match more
    case None => None
    case Some(rest) =>
      assert [] + rest == rest;
      Some(items + rest)
  }

  lemma AppendTwice(a: seq<Item>, b: seq<Item>, more: Option<seq<Item>>)
    ensures Append(a, if more.None? then None else Some(b + more.value)) == Append(a + b, more)
  {
    if more.Some? { assert a + (b + more.value) == a + b + more.value; }
  }

  /** The alternatives one by one until one matches; an unsupported one before that throws. */
  function AnyMatches(alternatives: seq<string>, path: string): Option<bool>
    decreases |alternatives|
  {
    if alternatives == [] then Some(false)
    else
      match GlobToRegExp(alternatives[0])
      case None => None
      case Some(items) => if Match(items, path) then Some(true) else AnyMatches(alternatives[1..], path)
  }

  function Matches(glob: string, path: string): Option<bool> {
    match ExpandBraceGroup(glob)
    case None => None
    case Some(alternatives) => AnyMatches(alternatives, path)
  }

  method MatchesIncludeGlob(glob: string, path: string) returns (r: Option<bool>)
    ensures r == Matches(glob, path)
  {
    hide GlobToRegExp, Match, ExpandBraceGroup;
    var expanded := ExpandBraceGroup(glob);
    if expanded.None? { return None; }
    var alternatives := expanded.value;
    assert alternatives[0..] == alternatives;
    for i := 0 to |alternatives|
      invariant AnyMatches(alternatives, path) == AnyMatches(alternatives[i..], path)
    {
      assert alternatives[i..][1..] == alternatives[i + 1..];
      var pattern := Translate(alternatives[i]);
      if pattern.None? { return None; }
      if Match(pattern.value, path) { return Some(true); }
    }
    r := Some(false);
  }
}
