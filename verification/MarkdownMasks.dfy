/** The maskers that blank fenced and indented code out of Markdown, line by line, while every offset stays. */
module MarkdownMasks {
  // A character is one UTF-16 code unit.

  import opened Basics
  import opened TextSplit

  // ---- What a masker may do ----

  /** Same length, and every character is kept or is blanked; line ends are never blanked. */
  ghost predicate Blanked(masked: string, text: string) {
    && |masked| == |text|
    && forall i :: 0 <= i < |text| ==> masked[i] == text[i] || (masked[i] == ' ' && text[i] != '\n')
  }

  /** Each line is kept or blanked as a whole. */
  ghost predicate LinesBlanked(masked: seq<string>, lines: seq<string>) {
    |masked| == |lines| && forall i :: 0 <= i < |lines| ==> masked[i] == lines[i] || masked[i] == Blank(|lines[i]|)
  }

  function Blank(n: nat): (r: string)
    ensures |r| == n
  {
    seq(n, i => ' ')
  }

  lemma {:induction false} JoinBlanked(masked: seq<string>, lines: seq<string>)
    requires lines != [] && LinesBlanked(masked, lines) && forall line :: line in lines ==> '\n' !in line
    ensures Blanked(Join(masked, '\n'), Join(lines, '\n'))
    decreases |lines|
  {
    assert lines[0] in lines;
    if |lines| > 1 {
      JoinBlanked(masked[1..], lines[1..]);
      var a, b := Join(masked[1..], '\n'), Join(lines[1..], '\n');
      var first, rest := masked[0] + ['\n'], lines[0] + ['\n'];
      assert Blanked(first, rest);
      BlankedConcat(first, rest, a, b);
    }
  }

  lemma BlankedConcat(a: string, b: string, a': string, b': string)
    requires Blanked(a, b) && Blanked(a', b')
    ensures Blanked(a + a', b + b')
  {
    forall i | 0 <= i < |b + b'|
      ensures (a + a')[i] == (b + b')[i] || ((a + a')[i] == ' ' && (b + b')[i] != '\n')
    {
      if i >= |b| { assert (a + a')[i] == a'[i - |b|] && (b + b')[i] == b'[i - |b|]; }
    }
  }

  // ---- Fenced blocks ----

  datatype Fence = Fence(mark: char, length: nat)

  /** What `String.prototype.trim` removes. */
  predicate IsBlank(c: char) {
    || c == ' ' || '\t' <= c <= '\r' || c == '\U{00A0}' || c == '\U{1680}' || '\U{2000}' <= c <= '\U{200A}'
    || c == '\U{2028}' || c == '\U{2029}' || c == '\U{202F}' || c == '\U{205F}' || c == '\U{3000}' || c == '\U{FEFF}'
  }

  predicate AllBlank(s: string) { forall i :: 0 <= i < |s| ==> IsBlank(s[i]) }

  /** How many times `c` stands at the start. */
  function Run(s: string, c: char): (n: nat)
    ensures n <= |s| && (n < |s| ==> s[n] != c) && forall i :: 0 <= i < n ==> s[i] == c
    decreases |s|
  {
    if s == "" || s[0] != c then 0 else 1 + Run(s[1..], c)
  }

  function Min(a: nat, b: nat): nat { if a < b then a else b }

  /** A character `.` does not match. */
  predicate EndsLine(c: char) { c == '\n' || c == '\r' || c == '\U{2028}' || c == '\U{2029}' }

  /** A fence at the start of a line, after at most three spaces: the run that makes it and the rest of the line. */
  function Marker(line: string): Option<(Fence, string)> {
    var rest := line[Min(Run(line, ' '), 3)..];
    if rest == "" || (rest[0] != '`' && rest[0] != '~') then None
    else
      var n := Run(rest, rest[0]);
      if n < 3 || exists i :: n <= i < |rest| && EndsLine(rest[i]) then None else Some((Fence(rest[0], n), rest[n..]))
  }

  /** One line: what it becomes and the fence open after it. */
  function FenceStep(fence: Option<Fence>, line: string): (string, Option<Fence>) {
    var marker := Marker(line);
    if fence.None? && marker.Some? then (Blank(|line|), Some(marker.value.0))
    else if fence.Some? then
      var closes := && marker.Some? && marker.value.0.mark == fence.value.mark && marker.value.0.length >= fence.value.length
                    && AllBlank(marker.value.1);
      (Blank(|line|), if closes then None else fence)
    else (line, None)
  }

  function UnfencedLines(lines: seq<string>, fence: Option<Fence>): (r: seq<string>)
    ensures |r| == |lines|
    decreases |lines|
  {
    if lines == [] then []
    else
      var (line, next) := FenceStep(fence, lines[0]);
      [line] + UnfencedLines(lines[1..], next)
  }

  function Unfenced(markdown: string): string { Join(UnfencedLines(Split(markdown, '\n'), None), '\n') }

  method UnfencedMarkdown(markdown: string) returns (r: string)
    ensures r == Unfenced(markdown)
  {
    hide FenceStep, Split, Join;
    var lines, fence, kept: seq<string> := Split(markdown, '\n'), None, [];
    assert lines[0..] == lines;
    for i := 0 to |lines|
      invariant |kept| == i
      invariant UnfencedLines(lines, None) == kept + UnfencedLines(lines[i..], fence)
    {
      var (line, next) := FenceStep(fence, lines[i]);
      assert lines[i..][1..] == lines[i + 1..];
      assert kept + ([line] + UnfencedLines(lines[i + 1..], next)) == kept + [line] + UnfencedLines(lines[i + 1..], next);
      kept, fence := kept + [line], next;
    }
    assert lines[|lines|..] == [] && kept + [] == kept;
    r := Join(kept, '\n');
  }

  lemma {:induction false} UnfencedLinesBlanked(lines: seq<string>, fence: Option<Fence>)
    ensures LinesBlanked(UnfencedLines(lines, fence), lines)
    decreases |lines|
  {
    hide Marker, AllBlank;
    if lines != [] {
      var (line, next) := FenceStep(fence, lines[0]);
      UnfencedLinesBlanked(lines[1..], next);
    }
  }

  /** Removing fenced blocks keeps the length and every newline, and only blanks. */
  lemma UnfencedBlanks(markdown: string)
    ensures Blanked(Unfenced(markdown), markdown)
  {
    var lines := Split(markdown, '\n');
    UnfencedLinesBlanked(lines, None);
    SplitParts(markdown, '\n');
    SplitJoins(markdown, '\n');
    hide UnfencedLines, Split, Join, Blanked, LinesBlanked;
    JoinBlanked(UnfencedLines(lines, None), lines);
  }

  lemma BlankNoMarker(n: nat)
    ensures Marker(Blank(n)).None?
  {
    assert forall i :: 0 <= i < n ==> Blank(n)[i] == ' ';
  }

  /** What is left has no fence any more. */
  lemma {:induction false} NoMarkerLeft(lines: seq<string>, fence: Option<Fence>)
    ensures forall line :: line in UnfencedLines(lines, fence) ==> Marker(line).None?
    decreases |lines|
  {
    hide Marker, AllBlank;
    if lines != [] {
      var (line, next) := FenceStep(fence, lines[0]);
      BlankNoMarker(|lines[0]|);
      NoMarkerLeft(lines[1..], next);
    }
  }

  lemma {:induction false} WithoutMarkers(lines: seq<string>)
    requires forall line :: line in lines ==> Marker(line).None?
    ensures UnfencedLines(lines, None) == lines
    decreases |lines|
  {
    hide Marker, AllBlank;
    if lines != [] {
      assert lines[0] in lines;
      WithoutMarkers(lines[1..]);
      assert lines == [lines[0]] + lines[1..];
    }
  }

  lemma {:induction false} UnfencedOneLine(lines: seq<string>, fence: Option<Fence>)
    requires forall line :: line in lines ==> '\n' !in line
    ensures forall line :: line in UnfencedLines(lines, fence) ==> '\n' !in line
    decreases |lines|
  {
    hide Marker, AllBlank;
    if lines != [] {
      var (line, next) := FenceStep(fence, lines[0]);
      assert lines[0] in lines;
      UnfencedOneLine(lines[1..], next);
    }
  }

  /** Removing fenced blocks twice is removing them once. */
  lemma UnfencedTwice(markdown: string)
    ensures Unfenced(Unfenced(markdown)) == Unfenced(markdown)
  {
    var lines := Split(markdown, '\n');
    var kept := UnfencedLines(lines, None);
    SplitParts(markdown, '\n');
    UnfencedOneLine(lines, None);
    hide UnfencedLines, Split, Join;
    JoinSplits(kept, '\n');
    NoMarkerLeft(lines, None);
    WithoutMarkers(kept);
  }
}
