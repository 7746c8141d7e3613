/** What a glob means, segment by segment, and that the translation keeps it. */
module GlobLaws {
  import opened Basics
  import opened TextSplit
  import opened IncludeGlobs

  // ---- The meaning of a glob ----

  /** `*` stands for any run of characters, every other character for itself. */
  predicate Wild(segment: string, name: string)
    decreases |segment|, |name|
  {
    if segment == "" then name == ""
    else if segment[0] == '*' then Wild(segment[1..], name) || (name != "" && Wild(segment, name[1..]))
    else name != "" && name[0] == segment[0] && Wild(segment[1..], name[1..])
  }

  predicate Visible(name: string) { name != "" && name[0] != '.' }

  /** A wildcard at the start of a segment refuses a leading dot. */
  predicate SegmentMatches(segment: string, name: string) {
    (segment != "" && segment[0] == '*' ==> name == "" || name[0] != '.') && Wild(segment, name)
  }

  /** `**` is zero or more visible segments, at least one when it is last; any other segment is one segment. */
  predicate PathMatches(segments: seq<string>, path: seq<string>)
    decreases |segments|, |path|
  {
    if segments == [] then path == []
    else if segments[0] != "**" then path != [] && SegmentMatches(segments[0], path[0]) && PathMatches(segments[1..], path[1..])
    else if |segments| == 1 then path != [] && forall name :: name in path ==> Visible(name)
    else PathMatches(segments[1..], path) || (path != [] && Visible(path[0]) && PathMatches(segments, path[1..]))
  }

  predicate Means(glob: string, path: string) { PathMatches(Split(glob, '/'), Split(path, '/')) }

  // ---- Splitting ----

  lemma SplitStep(s: string)
    ensures Split(s, '/') == if Rest(s) == "" then [First(s)] else [First(s)] + Split(Rest(s)[1..], '/')
    ensures Rest(s) != "" ==> Rest(s)[0] == '/' && |Rest(s)[1..]| < |s|
    ensures s == First(s) + Rest(s) && '/' !in First(s)
  {
    var n := Until(s, '/');
    if n == |s| { assert s[..n] == s; } else { assert Rest(s)[1..] == s[n + 1..]; }
  }

  /** Taking one character off a segment. */
  lemma FirstStep(s: string)
    ensures s == "" || s[0] == '/' ==> First(s) == "" && Rest(s) == s
    ensures s != "" && s[0] != '/' ==> First(s) == [s[0]] + First(s[1..]) && Rest(s) == Rest(s[1..])
  {
    if s != "" && s[0] != '/' {
      var n := Until(s[1..], '/');
      assert s[..n + 1] == [s[0]] + s[1..][..n] && s[n + 1..] == s[1..][n..];
    } else {
      assert s[..0] == "" && s[0..] == s;
    }
  }

  // ---- One segment ----

  /** The items match only at the end of a segment. */
  predicate AtBoundary(items: seq<Item>) { items == [] || items[0] == Lit('/') }

  lemma MatchNil(s: string)
    ensures Match([], s) <==> s == ""
  {
  }

  lemma MatchLit(c: char, rest: seq<Item>, s: string)
    ensures Match([Lit(c)] + rest, s) <==> s != "" && s[0] == c && Match(rest, s[1..])
  {
    assert ([Lit(c)] + rest)[1..] == rest;
  }

  lemma MatchStar(rest: seq<Item>, s: string)
    ensures Match([Star] + rest, s) <==> Match(rest, s) || (s != "" && s[0] != '/' && Match([Star] + rest, s[1..]))
  {
    assert ([Star] + rest)[1..] == rest;
  }

  lemma MatchNotDot(rest: seq<Item>, s: string)
    ensures Match([NotDot] + rest, s) <==> (s == "" || s[0] != '.') && Match(rest, s)
  {
    assert ([NotDot] + rest)[1..] == rest;
  }

  lemma MatchNonSlash(rest: seq<Item>, s: string)
    ensures Match([NonSlash] + rest, s) <==> s != "" && s[0] != '/' && Match(rest, s[1..])
  {
    assert ([NonSlash] + rest)[1..] == rest;
  }

  lemma BoundaryEnds(rest: seq<Item>, s: string)
    requires AtBoundary(rest) && Match(rest, s)
    ensures s == "" || s[0] == '/'
  {
  }

  /** The characters of a segment match exactly one segment of the text. */
  lemma {:induction false} CharsMatch(segment: string, rest: seq<Item>, s: string)
    requires '/' !in segment && AtBoundary(rest)
    ensures Match(Chars(segment) + rest, s) <==> Wild(segment, First(s)) && Match(rest, Rest(s))
    decreases |segment|, |s|
  {
    FirstStep(s);
    if segment == "" {
      assert Chars(segment) + rest == rest;
      if Match(rest, s) { BoundaryEnds(rest, s); }
    } else {
      var more := Chars(segment[1..]) + rest;
      CharsMatch(segment[1..], rest, if segment[0] == '*' then s else if s == "" then s else s[1..]);
      if segment[0] == '*' {
        assert Chars(segment) + rest == [Star] + more;
        MatchStar(more, s);
        if s != "" && s[0] != '/' { CharsMatch(segment, rest, s[1..]); }
      } else {
        assert Chars(segment) + rest == [Lit(segment[0])] + more;
        MatchLit(segment[0], more, s);
        assert segment[0] != '/';
      }
    }
  }

  lemma SegmentMatch(segment: string, rest: seq<Item>, s: string)
    requires '/' !in segment && AtBoundary(rest)
    ensures Match((if segment != "" && segment[0] == '*' then [NotDot] else []) + Chars(segment) + rest, s)
            <==> SegmentMatches(segment, First(s)) && Match(rest, Rest(s))
  {
    hide Match, Wild, First, Rest, Chars;
    CharsMatch(segment, rest, s);
    FirstStep(s);
    if segment != "" && segment[0] == '*' {
      MatchNotDot(Chars(segment) + rest, s);
      assert [NotDot] + Chars(segment) + rest == [NotDot] + (Chars(segment) + rest);
    } else {
      assert [] + Chars(segment) + rest == Chars(segment) + rest;
    }
  }

  // ---- Double stars ----

  lemma MatchDirs(rest: seq<Item>, s: string)
    ensures Match([Dirs] + rest, s) <==>
      Match(rest, s) || (Visible(First(s)) && Rest(s) != "" && Match([Dirs] + rest, Rest(s)[1..]))
  {
    var items, k := [Dirs] + rest, Until(s, '/');
    assert items[1..] == rest;
    hide Until;
    if n :| 0 < n < |s| && s[0] != '.' && '/' !in s[..n] && s[n] == '/' && Match(items, s[n + 1..]) {
      UntilIs(s, '/', n);
      assert Rest(s)[1..] == s[n + 1..];
    }
    if Visible(First(s)) && Rest(s) != "" && Match(items, Rest(s)[1..]) {
      assert Rest(s)[1..] == s[k + 1..];
      assert First(s)[0] == s[0];
    }
  }

  lemma {:induction false} StarMatches(s: string)
    ensures Match([Star], s) <==> '/' !in s
    decreases |s|
  {
    assert [Star] + [] == [Star];
    MatchStar([], s);
    if s != "" {
      StarMatches(s[1..]);
      assert s == [s[0]] + s[1..];
    }
  }

  lemma LastMatches(s: string)
    ensures Match([NotDot, NonSlash, Star], s) <==> Visible(s) && '/' !in s
  {
    hide Match;
    assert [NotDot, NonSlash, Star] == [NotDot] + ([NonSlash] + [Star]);
    MatchNotDot([NonSlash] + [Star], s);
    MatchNonSlash([Star], s);
    if s != "" {
      StarMatches(s[1..]);
      assert s == [s[0]] + s[1..];
    }
  }

  /** A last `**` matches texts whose segments are all visible. */
  lemma {:induction false} LastStars(s: string)
    ensures Match([Dirs, NotDot, NonSlash, Star], s) <==> forall name :: name in Split(s, '/') ==> Visible(name)
    decreases |s|
  {
    SplitStep(s);
    hide Match, Split, First, Rest;
    var last := [NotDot, NonSlash, Star];
    assert [Dirs, NotDot, NonSlash, Star] == [Dirs] + last;
    MatchDirs(last, s);
    LastMatches(s);
    if Rest(s) != "" {
      LastStars(Rest(s)[1..]);
      assert s[|First(s)|] == '/';
      var others := Split(Rest(s)[1..], '/');
      assert Split(s, '/') == [First(s)] + others;
      assert forall name :: name in Split(s, '/') <==> name == First(s) || name in others;
    } else {
      assert s == First(s);
    }
  }

  // ---- A whole glob ----

  lemma {:induction false} NoPathLeft(segments: seq<string>)
    requires segments != []
    ensures !PathMatches(segments, [])
    decreases |segments|
  {
    if segments[0] == "**" && |segments| > 1 { NoPathLeft(segments[1..]); }
  }

  lemma SegmentsUnfold(segments: seq<string>)
    requires segments != [] && Segments(segments).Some?
    ensures
      var first := Segment(segments[0], |segments| == 1);
      && first.Some?
      && (if |segments| == 1 then Segments(segments) == first
          else Segments(segments[1..]).Some? && Segments(segments).value == first.value + Segments(segments[1..]).value)
  {
    hide Segment;
  }

  /** The translated items match a text exactly if the segments match its segments. */
  lemma {:induction false} SegmentsKeep(segments: seq<string>, s: string)
    requires segments != [] && Segments(segments).Some?
    requires forall segment :: segment in segments ==> '/' !in segment
    ensures Match(Segments(segments).value, s) <==> PathMatches(segments, Split(s, '/'))
    decreases |segments|, |s|
  {
    hide *;
    SegmentsUnfold(segments);
    SplitStep(s);
    PathUnfold(segments, Split(s, '/'));
    var segment, last := segments[0], |segments| == 1;
    var more := if last then [] else Segments(segments[1..]).value;
    SegmentItems(segment, last);
    if segment == "**" {
      if last {
        LastStars(s);
      } else {
        MatchDirs(more, s);
        SegmentsKeep(segments[1..], s);
        if Rest(s) != "" {
          SegmentsKeep(segments, Rest(s)[1..]);
          assert Split(s, '/')[1..] == Split(Rest(s)[1..], '/');
        } else {
          NoPathLeft(segments);
          assert Split(s, '/')[1..] == [];
        }
      }
    } else {
      var plain := (if segment != "" && segment[0] == '*' then [NotDot] else []) + Chars(segment);
      var rest := if last then [] else [Lit('/')] + more;
      Boundaries(last, more);
      assert Segments(segments).value == plain + rest;
      SegmentMatch(segment, rest, s);
      if last {
        MatchNil(Rest(s));
        assert segments[1..] == [];
        if Rest(s) != "" { assert Split(s, '/')[1..] == Split(Rest(s)[1..], '/'); }
        PathNil(Split(s, '/')[1..]);
      } else {
        MatchLit('/', more, Rest(s));
        if Rest(s) != "" {
          SegmentsKeep(segments[1..], Rest(s)[1..]);
          assert Split(s, '/')[1..] == Split(Rest(s)[1..], '/');
        } else {
          NoPathLeft(segments[1..]);
          assert Split(s, '/')[1..] == [];
        }
      }
    }
  }

  lemma Boundaries(last: bool, more: seq<Item>)
    ensures AtBoundary(if last then [] else [Lit('/')] + more)
  {
  }

  lemma PathNil(path: seq<string>)
    ensures PathMatches([], path) <==> path == []
  {
  }

  lemma SegmentItems(segment: string, last: bool)
    requires Segment(segment, last).Some?
    ensures Segment(segment, last).value ==
      if segment == "**" then (if last then [Dirs, NotDot, NonSlash, Star] else [Dirs])
      else (if segment != "" && segment[0] == '*' then [NotDot] else []) + Chars(segment) + (if last then [] else [Lit('/')])
  {
    hide HasDoubleStar, Chars;
  }

  lemma PathUnfold(segments: seq<string>, path: seq<string>)
    requires segments != [] && path != []
    ensures PathMatches(segments, path) <==>
      if segments[0] != "**" then SegmentMatches(segments[0], path[0]) && PathMatches(segments[1..], path[1..])
      else if |segments| == 1 then forall name :: name in path ==> Visible(name)
      else PathMatches(segments[1..], path) || (Visible(path[0]) && PathMatches(segments, path[1..]))
  {
    hide SegmentMatches, Visible;
  }

  /** The regular expression of a supported glob matches exactly what the glob means. */
  lemma TranslationKeeps(glob: string, path: string)
    requires GlobToRegExp(glob).Some?
    ensures Match(GlobToRegExp(glob).value, path) <==> Means(glob, path)
  {
    SplitParts(glob, '/');
    SegmentsKeep(Split(glob, '/'), path);
    hide Match, PathMatches, Split, Segments;
  }

  // ---- Brace groups ----

  predicate BraceFree(s: string) { '{' !in s && '}' !in s }

  /** A glob with one brace group expands to one alternative for each part of the group. */
  lemma Expansion(prefix: string, body: string, tail: string)
    requires '{' !in prefix && BraceFree(body) && BraceFree(tail)
    ensures ExpandBraceGroup(prefix + "{" + body + "}" + tail) == Some(Wrap(prefix, Split(body, ','), tail))
  {
    var glob := prefix + "{" + body + "}" + tail;
    hide Until, Split;
    var after := glob[|prefix| + 1..];
    assert glob[..|prefix|] == prefix && glob[|prefix|] == '{';
    UntilIs(glob, '{', |prefix|);
    assert after == body + "}" + tail;
    assert after[..|body|] == body && after[|body|] == '}' && after[|body| + 1..] == tail;
    UntilIs(after, '}', |body|);
  }

  lemma NoExpansion(glob: string)
    requires BraceFree(glob)
    ensures ExpandBraceGroup(glob) == Some([glob])
  {
    assert glob[..|glob|] == glob;
    UntilIs(glob, '{', |glob|);
  }

  lemma Regroup(prefix: string, body: string, tail: string)
    ensures prefix + "{" + (body + "}" + tail) == prefix + "{" + body + "}" + tail
  {
  }

  /** The glob is `prefix{body}tail` and has no other brace. */
  predicate OneGroup(glob: string, prefix: string, body: string, tail: string) {
    '{' !in prefix && BraceFree(body) && BraceFree(tail) && glob == prefix + "{" + body + "}" + tail
  }

  lemma GroupOf(glob: string) returns (prefix: string, body: string, tail: string)
    requires ExpandBraceGroup(glob).Some? && !BraceFree(glob)
    ensures OneGroup(glob, prefix, body, tail)
  {
    hide Until, Split, Wrap;
    var open := Until(glob, '{');
    assert glob[..|glob|] == glob;
    var after := glob[open + 1..];
    var close := Until(after, '}');
    prefix, body, tail := glob[..open], after[..close], after[close + 1..];
    assert after == body + "}" + tail;
    assert glob == prefix + "{" + after;
    Regroup(prefix, body, tail);
  }

  /** A glob expands exactly if it is free of braces, and then to itself, or has one group; every other one is refused. */
  lemma ExpandedShape(glob: string)
    ensures ExpandBraceGroup(glob).Some? <==> BraceFree(glob) || exists prefix, body, tail :: OneGroup(glob, prefix, body, tail)
    ensures BraceFree(glob) ==> ExpandBraceGroup(glob) == Some([glob])
  {
    hide ExpandBraceGroup, BraceFree;
    if BraceFree(glob) {
      NoExpansion(glob);
    } else if ExpandBraceGroup(glob).Some? {
      var prefix, body, tail := GroupOf(glob);
    }
    if prefix, body, tail :| OneGroup(glob, prefix, body, tail) { Expansion(prefix, body, tail); }
  }

  // ---- Matching ----

  predicate Supported(alternative: string) { GlobToRegExp(alternative).Some? }

  /** `alternatives[i]` is the first that is unsupported or matches. */
  predicate Decides(alternatives: seq<string>, path: string, i: int) {
    && 0 <= i < |alternatives| && (!Supported(alternatives[i]) || Means(alternatives[i], path))
    && forall j :: 0 <= j < i ==> Supported(alternatives[j]) && !Means(alternatives[j], path)
  }

  lemma {:induction false} AnyDecided(alternatives: seq<string>, path: string, i: int)
    requires Decides(alternatives, path, i)
    ensures AnyMatches(alternatives, path) == if Supported(alternatives[i]) then Some(true) else None
    decreases i
  {
    hide GlobToRegExp, Match, Means;
    if Supported(alternatives[0]) { TranslationKeeps(alternatives[0], path); }
    if i > 0 {
      assert Supported(alternatives[0]) && !Means(alternatives[0], path);
      assert forall j :: 0 <= j < i - 1 ==> alternatives[1..][j] == alternatives[j + 1];
      AnyDecided(alternatives[1..], path, i - 1);
    }
  }

  lemma {:induction false} NoneDecides(alternatives: seq<string>, path: string)
    requires forall i :: 0 <= i < |alternatives| ==> Supported(alternatives[i]) && !Means(alternatives[i], path)
    ensures AnyMatches(alternatives, path) == Some(false)
    decreases |alternatives|
  {
    hide GlobToRegExp, Match, Means;
    if alternatives != [] {
      TranslationKeeps(alternatives[0], path);
      NoneDecides(alternatives[1..], path);
    }
  }

  lemma {:induction false} FirstDeciding(alternatives: seq<string>, path: string)
    ensures (exists i :: Decides(alternatives, path, i))
            || forall i :: 0 <= i < |alternatives| ==> Supported(alternatives[i]) && !Means(alternatives[i], path)
    decreases |alternatives|
  {
    hide Supported, Means;
    if alternatives != [] {
      var a, rest := alternatives[0], alternatives[1..];
      FirstDeciding(rest, path);
      if !Supported(a) || Means(a, path) {
        assert Decides(alternatives, path, 0);
      } else if i :| Decides(rest, path, i) {
        assert forall j :: 1 <= j < |alternatives| ==> alternatives[j] == rest[j - 1];
        assert Decides(alternatives, path, i + 1);
      }
    }
  }

  /** A glob all of whose alternatives are supported matches exactly what one of them means. */
  lemma SupportedMatches(glob: string, path: string)
    requires ExpandBraceGroup(glob).Some?
    requires forall a :: a in ExpandBraceGroup(glob).value ==> Supported(a)
    ensures Matches(glob, path) == Some(exists a :: a in ExpandBraceGroup(glob).value && Means(a, path))
  {
    var alternatives := ExpandBraceGroup(glob).value;
    FirstDeciding(alternatives, path);
    hide Supported, Means, ExpandBraceGroup, AnyMatches;
    if i :| Decides(alternatives, path, i) {
      AnyDecided(alternatives, path, i);
      assert alternatives[i] in alternatives;
    } else {
      NoneDecides(alternatives, path);
    }
  }

  /** Any glob at all: the first alternative that matches or is unsupported settles it, so an unsupported alternative
  after a matching one goes unnoticed. */
  lemma MatchesDecided(glob: string, path: string)
    ensures Matches(glob, path) == Some(true) <==>
      && ExpandBraceGroup(glob).Some?
      && exists i | Decides(ExpandBraceGroup(glob).value, path, i) :: Supported(ExpandBraceGroup(glob).value[i])
    ensures Matches(glob, path) == Some(false) <==>
      && ExpandBraceGroup(glob).Some?
      && forall a :: a in ExpandBraceGroup(glob).value ==> Supported(a) && !Means(a, path)
  {
    hide Supported, Means, ExpandBraceGroup, AnyMatches, Decides;
    if ExpandBraceGroup(glob).Some? {
      var alternatives := ExpandBraceGroup(glob).value;
      FirstDeciding(alternatives, path);
      if i :| Decides(alternatives, path, i) {
        AnyDecided(alternatives, path, i);
        DecidesAt(alternatives, path, i);
      } else {
        NoneDecides(alternatives, path);
      }
      forall i | Decides(alternatives, path, i)
        ensures 0 <= i < |alternatives| && AnyMatches(alternatives, path) == if Supported(alternatives[i]) then Some(true) else None
      {
        AnyDecided(alternatives, path, i);
        DecidesAt(alternatives, path, i);
      }
    }
  }

  lemma DecidesAt(alternatives: seq<string>, path: string, i: int)
    requires Decides(alternatives, path, i)
    ensures 0 <= i < |alternatives| && alternatives[i] in alternatives && (!Supported(alternatives[i]) || Means(alternatives[i], path))
  {
    hide Supported, Means;
  }
}
