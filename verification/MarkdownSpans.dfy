/** Inline code spans, blanked in place. */
module MarkdownSpans {

  const TICK := '`'

  /** How many backslashes stand directly before `i`. */
  function Slashes(s: string, i: nat): nat
    requires i <= |s|
  {
    if i > 0 && s[i - 1] == '\\' then 1 + Slashes(s, i - 1) else 0
  }

  predicate Escaped(s: string, i: nat)
    requires i <= |s|
  {
    Slashes(s, i) % 2 == 1
  }

  /** Where the backticks from `i` on end. */
  function RunEnd(s: string, i: nat): (n: nat)
    requires i <= |s|
    ensures i <= n <= |s| && (n < |s| ==> s[n] != TICK) && forall k :: i <= k < n ==> s[k] == TICK
    decreases |s| - i
  {
    if i == |s| || s[i] != TICK then i else RunEnd(s, i + 1)
  }

  /** The first whole run of `length` backticks from `close` on, or -1. */
  function FindClose(s: string, close: nat, length: nat): (r: int)
    requires close <= |s|
    ensures r == -1 || (close <= r < |s| && s[r] == TICK && RunEnd(s, r) == r + length)
    decreases |s| - close
  {
    if close == |s| then -1
    else if s[close] != TICK then FindClose(s, close + 1, length)
    else
      var end := RunEnd(s, close + 1);
      if end - close == length then close else FindClose(s, end, length)
  }

  type Span = (nat, nat)

  /** The code spans from `i` on, ends excluded. */
  function Spans(s: string, i: nat): seq<Span>
    requires i <= |s|
    decreases |s| - i
  {
    if i == |s| then []
    else if s[i] != TICK || Escaped(s, i) then Spans(s, i + 1)
    else
      var end := RunEnd(s, i + 1);
      var close := FindClose(s, end, end - i);
      if close < 0 then Spans(s, end) else [(i, close + end - i)] + Spans(s, close + end - i)
  }

  predicate In(spans: seq<Span>, p: int) { exists k :: 0 <= k < |spans| && spans[k].0 <= p < spans[k].1 }

  function MaskChar(c: char): char { if c == '\n' || c == '\r' then c else ' ' }

  function Mask(s: string, spans: seq<Span>): (m: string)
    ensures |m| == |s|
    ensures forall p :: 0 <= p < |s| ==> m[p] == if In(spans, p) then MaskChar(s[p]) else s[p]
  {
    seq(|s|, p requires 0 <= p < |s| => if In(spans, p) then MaskChar(s[p]) else s[p])
  }

  function Masked(s: string): string { Mask(s, Spans(s, 0)) }

  // ---- In place ----

  method IsEscaped(markdown: string, index: nat) returns (odd: bool)
    requires index <= |markdown|
    ensures odd == Escaped(markdown, index)
  {
    var slashes := 0;
    var cursor: int := index - 1;
    while cursor >= 0 && markdown[cursor] == '\\'
      invariant -1 <= cursor < |markdown|
      invariant Slashes(markdown, index) == slashes + Slashes(markdown, cursor + 1)
    {
      slashes := slashes + 1;
      cursor := cursor - 1;
    }
    odd := slashes % 2 == 1;
  }

  method FindRunEnd(markdown: string, index: nat) returns (runEnd: nat)
    requires index <= |markdown|
    ensures runEnd == RunEnd(markdown, index)
  {
    runEnd := index;
    while runEnd < |markdown| && markdown[runEnd] == TICK
      invariant index <= runEnd <= |markdown| && RunEnd(markdown, index) == RunEnd(markdown, runEnd)
    {
      runEnd := runEnd + 1;
    }
  }

  method FindClosing(markdown: string, runEnd: nat, runLength: nat) returns (closeStart: int)
    requires runEnd <= |markdown|
    ensures closeStart == FindClose(markdown, runEnd, runLength)
  {
    hide RunEnd;
    var close := runEnd;
    closeStart := -1;
    while close < |markdown|
      invariant runEnd <= close <= |markdown| && closeStart == -1
      invariant FindClose(markdown, runEnd, runLength) == FindClose(markdown, close, runLength)
    {
      if markdown[close] != TICK { close := close + 1; continue; }
      var candidateEnd := FindRunEnd(markdown, close + 1);
      if candidateEnd - close == runLength { return close; }
      close := candidateEnd;
    }
  }

  function BlankRange(s: string, from: nat, to: nat): (m: string)
    ensures |m| == |s|
    ensures forall p :: 0 <= p < |s| ==> m[p] == if from <= p < to then MaskChar(s[p]) else s[p]
  {
    seq(|s|, p requires 0 <= p < |s| => if from <= p < to then MaskChar(s[p]) else s[p])
  }

  method BlankSpan(masked: array<char>, from: nat, to: nat)
    requires from <= to <= masked.Length
    modifies masked
    ensures masked[..] == BlankRange(old(masked[..]), from, to)
  {
    for cursor := from to to
      invariant forall p :: 0 <= p < masked.Length ==> masked[p] == old(if from <= p < cursor then MaskChar(masked[p]) else masked[p])
    {
      if masked[cursor] != '\n' && masked[cursor] != '\r' { masked[cursor] := ' '; }
    }
  }

  lemma InMore(spans: seq<Span>, span: Span, p: int)
    ensures In(spans + [span], p) <==> In(spans, p) || span.0 <= p < span.1
  {
    var more := spans + [span];
    if span.0 <= p < span.1 { assert more[|spans|] == span; }
    if k :| 0 <= k < |spans| && spans[k].0 <= p < spans[k].1 { assert more[k] == spans[k]; }
  }

  /** Blanking one more span. */
  lemma MaskMore(s: string, spans: seq<Span>, span: Span)
    ensures BlankRange(Mask(s, spans), span.0, span.1) == Mask(s, spans + [span])
  {
    hide In;
    var more, m := Mask(s, spans + [span]), BlankRange(Mask(s, spans), span.0, span.1);
    forall p | 0 <= p < |s|
      ensures m[p] == more[p]
    {
      InMore(spans, span, p);
    }
  }

  lemma MaskNone(s: string)
    ensures Mask(s, []) == s
  {
  }

  lemma SpansStep(s: string, i: nat)
    requires i < |s|
    ensures Spans(s, i) ==
      if s[i] != TICK || Escaped(s, i) then Spans(s, i + 1)
      else
        var end := RunEnd(s, i + 1);
        var close := FindClose(s, end, end - i);
        if close < 0 then Spans(s, end) else [(i, close + end - i)] + Spans(s, close + end - i)
  {
    hide Escaped, RunEnd, FindClose;
  }

  lemma CloseInside(s: string, close: nat, length: nat)
    requires close <= |s| && FindClose(s, close, length) >= 0
    ensures close <= FindClose(s, close, length) && FindClose(s, close, length) + length <= |s|
  {
  }

  lemma SpansEnd(s: string)
    ensures Spans(s, |s|) == []
  {
  }

  lemma MaskedIs(s: string)
    ensures Masked(s) == Mask(s, Spans(s, 0))
  {
    hide Spans, Mask;
  }

  /** The body of the outer loop up to a span found: a step without a span, or the span that begins here. */
  method NextSpan(markdown: string, index: nat) returns (next: nat, found: bool)
    requires index < |markdown|
    ensures index < next <= |markdown|
    ensures Spans(markdown, index) == (if found then [(index, next)] else []) + Spans(markdown, next)
  {
    hide *;
    var odd := IsEscaped(markdown, index);
    SpansStep(markdown, index);
    if markdown[index] != TICK || odd {
      next, found := index + 1, false;
    } else {
      var runEnd := FindRunEnd(markdown, index + 1);
      var closeStart := FindClosing(markdown, runEnd, runEnd - index);
      if closeStart < 0 {
        next, found := runEnd, false;
      } else {
        CloseInside(markdown, runEnd, runEnd - index);
        next, found := closeStart + runEnd - index, true;
      }
    }
    assert [] + Spans(markdown, next) == Spans(markdown, next);
  }

  lemma SpansThen(spans: seq<Span>, span: Span, rest: seq<Span>)
    ensures spans + ([span] + rest) == (spans + [span]) + rest
    ensures spans + [] == spans && [] + rest == rest
  {
  }

  method MaskInlineCodeSpans(markdown: string) returns (r: string)
    ensures r == Masked(markdown)
  {
    hide *;
    var masked := new char[|markdown|](i requires 0 <= i < |markdown| => markdown[i]);
    ghost var spans: seq<Span> := [];
    MaskNone(markdown);
    assert masked[..] == markdown;
    var index := 0;
    while index < |markdown|
      invariant 0 <= index <= |markdown| == masked.Length
      invariant Spans(markdown, 0) == spans + Spans(markdown, index)
      invariant masked[..] == Mask(markdown, spans)
    {
      var next, found := NextSpan(markdown, index);
      SpansThen(spans, (index, next), Spans(markdown, next));
      if found {
        BlankSpan(masked, index, next);
        MaskMore(markdown, spans, (index, next));
        spans := spans + [(index, next)];
      }
      index := next;
    }
    SpansEnd(markdown);
    assert spans + [] == spans;
    r := masked[..];
    MaskedIs(markdown);
  }
}
