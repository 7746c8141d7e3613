/** What inline code spans are, and when blanking them twice changes something.

A run of backticks is whole if no backtick stands next to it; a span closes at the first whole run as long as its opener.
*/
module MarkdownSpanLaws {
  import opened MarkdownSpans
  import opened MarkdownMasks

  /** A whole run of `n` backticks at `r`. */
  predicate WholeRun(s: string, r: int, n: int) {
    && n > 0 && 0 <= r && r + n <= |s|
    && (forall k :: r <= k < r + n ==> s[k] == TICK)
    && (r == 0 || s[r - 1] != TICK)
    && (r + n == |s| || s[r + n] != TICK)
  }

  /** A backtick that can open a span: not escaped, and first of its run or after an escaped backtick. */
  predicate Opener(s: string, i: int) {
    0 <= i < |s| && s[i] == TICK && !Escaped(s, i) && (i == 0 || s[i - 1] != TICK || Escaped(s, i - 1))
  }

  /** No run is cut at `i`. */
  predicate Edge(s: string, i: nat) { i <= |s| && (i == 0 || i == |s| || s[i] != TICK || s[i - 1] != TICK) }

  predicate ScanEdge(s: string, i: nat) { i <= |s| && (i == 0 || i == |s| || s[i] != TICK || s[i - 1] != TICK || Escaped(s, i - 1)) }

  /** No whole run of `n` backticks from `from` on. */
  ghost predicate NoRunFrom(s: string, from: int, n: int) { forall q :: q >= from ==> !WholeRun(s, q, n) }

  ghost predicate NoRunBetween(s: string, from: int, to: int, n: int) { forall q :: from <= q < to ==> !WholeRun(s, q, n) }

  // ---- Searching for a closing run ----

  lemma RunEndIs(s: string, i: nat, n: nat)
    requires i <= n <= |s| && (forall k :: i <= k < n ==> s[k] == TICK) && (n == |s| || s[n] != TICK)
    ensures RunEnd(s, i) == n
  {
    hide RunEnd;
    var e := RunEnd(s, i);
    assert e < |s| ==> s[e] != TICK;
  }

  lemma {:induction false} CloseFirst(s: string, close: nat, length: nat)
    requires close <= |s| && Edge(s, close) && length > 0
    ensures
      var r := FindClose(s, close, length);
      if r < 0 then NoRunFrom(s, close, length)
      else WholeRun(s, r, length) && r >= close && NoRunBetween(s, close, r, length)
    decreases |s| - close
  {
    hide *;
    CloseStep(s, close, length);
    if close == |s| {
      NoRunAtEnd(s, length);
    } else if s[close] != TICK {
      EdgeNext(s, close);
      CloseFirst(s, close + 1, length);
      NoRunHere(s, close, length);
    } else {
      var end := RunEnd(s, close + 1);
      RunHere(s, close, end, length);
      if end - close != length { CloseFirst(s, end, length); }
      RunsLater(s, close, end, length, FindClose(s, end, length));
    }
  }

  lemma CloseStep(s: string, close: nat, length: nat)
    requires close <= |s|
    ensures FindClose(s, close, length) ==
      if close == |s| then -1
      else if s[close] != TICK then FindClose(s, close + 1, length)
      else if RunEnd(s, close + 1) - close == length then close
      else FindClose(s, RunEnd(s, close + 1), length)
  {
    hide RunEnd;
  }

  lemma NoRunAtEnd(s: string, length: nat)
    requires length > 0
    ensures NoRunFrom(s, |s|, length)
  {
  }

  lemma EdgeNext(s: string, close: nat)
    requires close < |s| && s[close] != TICK
    ensures Edge(s, close + 1)
  {
  }

  lemma NoRunHere(s: string, close: nat, length: nat)
    requires close < |s| && s[close] != TICK && length > 0
    ensures NoRunFrom(s, close + 1, length) ==> NoRunFrom(s, close, length)
    ensures forall r :: NoRunBetween(s, close + 1, r, length) ==> NoRunBetween(s, close, r, length)
  {
    assert !WholeRun(s, close, length);
    hide WholeRun;
  }

  /** A whole run that starts inside another is that other. */
  lemma RunHere(s: string, close: nat, end: nat, length: nat)
    requires Edge(s, close) && close < |s| && s[close] == TICK && end == RunEnd(s, close + 1)
    ensures close < end <= |s| && Edge(s, end) && WholeRun(s, close, end - close)
    ensures NoRunBetween(s, close + 1, end, length)
    ensures end - close != length ==> !WholeRun(s, close, length)
  {
    hide RunEnd;
    forall q | close <= q < end && WholeRun(s, q, length)
      ensures q == close && length == end - close
    {
      RunLength(s, q, length, end);
    }
  }

  lemma RunsLater(s: string, close: nat, end: nat, length: nat, r: int)
    requires close < end && NoRunBetween(s, close + 1, end, length)
    ensures NoRunBetween(s, close, close, length)
    ensures !WholeRun(s, close, length) ==>
      && (NoRunFrom(s, end, length) ==> NoRunFrom(s, close, length))
      && (NoRunBetween(s, end, r, length) ==> NoRunBetween(s, close, r, length))
  {
    hide WholeRun;
  }

  lemma RunLength(s: string, q: int, length: nat, end: nat)
    requires WholeRun(s, q, length) && q < end <= |s| && (forall k :: q <= k < end ==> s[k] == TICK) && (end == |s| || s[end] != TICK)
    ensures length == end - q
  {
    assert q + length < |s| ==> s[q + length] != TICK;
  }

  // ---- The spans found ----

  /** A span: opened by a run at `a`, closed by the first whole run of the same length after it. */
  ghost predicate IsSpan(s: string, span: Span) {
    exists n: nat :: SpanOf(s, span, n)
  }

  ghost predicate SpanOf(s: string, span: Span, n: nat) {
    && Opener(s, span.0) && span.0 + 2 * n < span.1 <= |s|
    && RunEnd(s, span.0) == span.0 + n
    && WholeRun(s, span.1 - n, n)
    && NoRunBetween(s, span.0 + n, span.1 - n, n)
  }

  /** An opener whose run has no whole run of the same length after it. */
  ghost predicate Unmatched(s: string, i: int)
    requires 0 <= i < |s|
  {
    NoRunFrom(s, RunEnd(s, i), RunEnd(s, i) - i)
  }

  ghost predicate Ordered(spans: seq<Span>, from: nat) {
    && (forall k :: 0 <= k < |spans| ==> from <= spans[k].0 < spans[k].1)
    && (forall k, l :: 0 <= k < l < |spans| ==> spans[k].1 <= spans[l].0)
  }

  lemma OpenerRun(s: string, i: nat)
    requires i < |s| && s[i] == TICK && !Escaped(s, i) && ScanEdge(s, i)
    ensures Opener(s, i) && RunEnd(s, i) == RunEnd(s, i + 1) && Edge(s, RunEnd(s, i)) && RunEnd(s, i) > i
    ensures forall j :: i < j < RunEnd(s, i) ==> !Opener(s, j)
  {
    var end := RunEnd(s, i);
    forall j | i < j < end
      ensures !Opener(s, j)
    {
      if j - 1 > i { assert s[j - 2] == TICK; }
    }
  }

  /** `spans` are spans of `s` from `i` on, and no opener outside them has a match. */
  ghost predicate Sound(s: string, i: nat, spans: seq<Span>) {
    && Ordered(spans, i)
    && (forall k :: 0 <= k < |spans| ==> IsSpan(s, spans[k]))
    && (forall j :: i <= j < |s| && Opener(s, j) && !In(spans, j) ==> Unmatched(s, j))
  }

  lemma {:induction false} SpansFound(s: string, i: nat)
    requires ScanEdge(s, i)
    ensures Sound(s, i, Spans(s, i))
    decreases |s| - i
  {
    hide *;
    ScanEdgeInside(s, i);
    if i == |s| {
      SpansEnd(s);
      SoundEnd(s);
    } else {
      SpansStep(s, i);
      if s[i] != TICK || Escaped(s, i) {
        SkipEdge(s, i);
        SpansFound(s, i + 1);
        SoundSkip(s, i, Spans(s, i + 1));
      } else {
        OpenerRun(s, i);
        var end := RunEnd(s, i);
        CloseFirst(s, end, end - i);
        var close := FindClose(s, end, end - i);
        if close < 0 {
          EdgeScan(s, end);
          SpansFound(s, end);
          SoundRun(s, i, end, Spans(s, end));
        } else {
          WholeRunEnds(s, close, end - i);
          SpansFound(s, close + end - i);
          FirstSpan(s, i, end, close);
          SoundSpan(s, i, (i, close + end - i), Spans(s, close + end - i));
        }
      }
    }
  }

  lemma ScanEdgeInside(s: string, i: nat)
    requires ScanEdge(s, i)
    ensures i <= |s|
  {
  }

  lemma SkipEdge(s: string, i: nat)
    requires i < |s| && (s[i] != TICK || Escaped(s, i))
    ensures ScanEdge(s, i + 1)
  {
    hide Escaped;
  }

  lemma EdgeScan(s: string, i: nat)
    requires Edge(s, i)
    ensures ScanEdge(s, i)
  {
    hide Escaped;
  }

  lemma WholeRunEnds(s: string, r: nat, n: nat)
    requires WholeRun(s, r, n)
    ensures n > 0 && r + n <= |s| && ScanEdge(s, r + n)
  {
    hide Escaped;
  }

  lemma SoundEnd(s: string)
    ensures Sound(s, |s|, [])
  {
    hide Escaped;
  }

  lemma SoundSkip(s: string, i: nat, rest: seq<Span>)
    requires i < |s| && (s[i] != TICK || Escaped(s, i)) && Sound(s, i + 1, rest)
    ensures Sound(s, i, rest)
  {
    hide Escaped, Unmatched, IsSpan, In;
  }

  lemma SoundRun(s: string, i: nat, end: nat, rest: seq<Span>)
    requires i < end <= |s| && end == RunEnd(s, i) && NoRunFrom(s, end, end - i)
    requires (forall j :: i < j < end ==> !Opener(s, j)) && Sound(s, end, rest)
    ensures Sound(s, i, rest)
  {
    hide Escaped, IsSpan, In, NoRunFrom, Opener;
  }

  lemma SoundSpan(s: string, i: nat, span: Span, rest: seq<Span>)
    requires i == span.0 && span.0 < span.1 && IsSpan(s, span) && Sound(s, span.1, rest)
    ensures Sound(s, i, [span] + rest)
  {
    hide Escaped, IsSpan, Opener, In, Unmatched;
    forall j | i <= j < |s| && Opener(s, j) && !In([span] + rest, j)
      ensures Unmatched(s, j)
    {
      InFirst(span, rest, j);
    }
  }

  lemma FirstSpan(s: string, i: nat, end: nat, close: int)
    requires Opener(s, i) && end == RunEnd(s, i) && i < end <= close && WholeRun(s, close, end - i)
    requires NoRunBetween(s, end, close, end - i)
    ensures IsSpan(s, (i, close + end - i))
  {
    hide Escaped, RunEnd;
    assert close > end;
    assert SpanOf(s, (i, close + end - i), end - i);
  }

  lemma InFirst(span: Span, rest: seq<Span>, p: int)
    ensures In([span] + rest, p) <==> span.0 <= p < span.1 || In(rest, p)
  {
    var all := [span] + rest;
    if span.0 <= p < span.1 { assert all[0] == span; }
    if k :| 0 <= k < |rest| && rest[k].0 <= p < rest[k].1 { assert all[k + 1] == rest[k]; }
    if k :| 0 <= k < |all| && all[k].0 <= p < all[k].1 {
      if k > 0 { assert all[k] == rest[k - 1]; }
    }
  }

  /** Blanking code spans keeps the length and every line end, and only blanks. */
  lemma SpansBlank(markdown: string)
    ensures Blanked(Masked(markdown), markdown)
    ensures forall p :: 0 <= p < |markdown| && markdown[p] == '\r' ==> Masked(markdown)[p] == '\r'
  {
    hide Spans, In;
  }

  /** The spans are apart and in order, each opens with an unescaped run and ends with the first whole run of the same
  length, and outside them no run that could open a span has a run of its length after it. */
  lemma SpansExactly(markdown: string)
    ensures Ordered(Spans(markdown, 0), 0)
    ensures forall k :: 0 <= k < |Spans(markdown, 0)| ==> IsSpan(markdown, Spans(markdown, 0)[k])
    ensures forall j :: 0 <= j < |markdown| && Opener(markdown, j) && !In(Spans(markdown, 0), j) ==> Unmatched(markdown, j)
  {
    ScanStart(markdown);
    hide Spans, In, Opener, Escaped, Unmatched, IsSpan, Ordered;
    SpansFound(markdown, 0);
  }

  /** These rules leave no choice: the spans found are the only ones that meet them. */
  lemma SpansUnique(markdown: string, spans: seq<Span>)
    ensures Sound(markdown, 0, spans) <==> spans == Spans(markdown, 0)
  {
    ScanStart(markdown);
    SpansFound(markdown, 0);
    if Sound(markdown, 0, spans) { SoundOnce(markdown, 0, spans, Spans(markdown, 0)); }
    hide Spans, Sound;
  }

  lemma {:induction false} SoundOnce(s: string, i: nat, a: seq<Span>, b: seq<Span>)
    requires Sound(s, i, a) && Sound(s, i, b)
    ensures a == b
    decreases |a|
  {
    hide *;
    FirstMatches(s, i, a, b);
    FirstMatches(s, i, b, a);
    if a != [] {
      SoundRest(s, i, a);
      SoundRest(s, i, b);
      OneSpan(s, a[0], b[0]);
      SoundOnce(s, a[0].1, a[1..], b[1..]);
      assert a == [a[0]] + a[1..] && b == [b[0]] + b[1..];
    }
  }

  /** No list of spans begins later than another, or not at all. */
  lemma FirstMatches(s: string, i: nat, a: seq<Span>, b: seq<Span>)
    requires Sound(s, i, a) && Sound(s, i, b)
    ensures a != [] ==> b != [] && b[0].0 <= a[0].0 && IsSpan(s, a[0])
  {
    if a != [] {
      assert IsSpan(s, a[0]);
      SpanMatches(s, a[0]);
      hide Opener, Unmatched, IsSpan;
      var j := a[0].0;
      assert In(b, j);
      var k :| 0 <= k < |b| && b[k].0 <= j < b[k].1;
    }
  }

  lemma SoundRest(s: string, i: nat, spans: seq<Span>)
    requires Sound(s, i, spans) && spans != []
    ensures Sound(s, spans[0].1, spans[1..]) && IsSpan(s, spans[0])
  {
    hide Opener, Unmatched, IsSpan, In;
    var rest := spans[1..];
    forall j | spans[0].1 <= j < |s| && Opener(s, j) && !In(rest, j)
      ensures Unmatched(s, j)
    {
      InFirst(spans[0], rest, j);
      assert spans == [spans[0]] + rest;
    }
  }

  /** Two spans with one start have one end. */
  lemma OneSpan(s: string, a: Span, b: Span)
    requires IsSpan(s, a) && IsSpan(s, b) && a.0 == b.0
    ensures a == b
  {
    var n: nat :| SpanOf(s, a, n);
    var m: nat :| SpanOf(s, b, m);
    hide Opener, RunEnd, WholeRun;
    assert n == m;
    assert WholeRun(s, a.1 - n, n) && WholeRun(s, b.1 - m, m);
  }

  lemma ScanStart(s: string)
    ensures ScanEdge(s, 0)
  {
  }

  // ---- Blanking twice ----

  /** Without a matched opener there is no span. */
  lemma NoSpans(s: string)
    ensures Spans(s, 0) == [] <==> forall j :: 0 <= j < |s| && Opener(s, j) ==> Unmatched(s, j)
  {
    SpansExactly(s);
    hide Spans, Opener, Unmatched, IsSpan;
    if Spans(s, 0) == [] {
      NoneInNone();
    } else {
      var span := Spans(s, 0)[0];
      assert IsSpan(s, span);
      SpanMatches(s, span);
    }
  }

  lemma NoneInNone()
    ensures forall p :: !In([], p)
  {
  }

  lemma SpanMatches(s: string, span: Span)
    requires IsSpan(s, span)
    ensures span.0 < |s| && Opener(s, span.0) && !Unmatched(s, span.0)
  {
    hide Escaped, RunEnd, Opener;
    var n: nat :| SpanOf(s, span, n);
    assert span.0 < |s|;
    assert WholeRun(s, span.1 - n, n);
  }

  /** An escaped backtick directly before a span: blanking the span leaves it alone. */
  ghost predicate Leftover(s: string, p: int) {
    0 <= p < |s| && s[p] == TICK && exists k :: 0 <= k < |Spans(s, 0)| && Spans(s, 0)[k].0 == p + 1
  }

  /** A single backtick that found no match, with a leftover after it. */
  ghost predicate Revived(s: string) {
    exists i, p :: Opener(s, i) && !In(Spans(s, 0), i) && RunEnd(s, i) == i + 1 && i < p && Leftover(s, p)
  }

  /** The ends of the spans, character by character. */
  lemma SpanEnds(s: string, k: nat)
    requires k < |Spans(s, 0)|
    ensures
      var span := Spans(s, 0)[k];
      && span.0 < span.1 <= |s| && Opener(s, span.0) && s[span.0] == TICK && s[span.1 - 1] == TICK && (span.1 == |s| || s[span.1] != TICK)
  {
    SpansExactly(s);
    hide Spans, Escaped, RunEnd;
    assert IsSpan(s, Spans(s, 0)[k]);
    var n: nat :| SpanOf(s, Spans(s, 0)[k], n);
  }

  lemma MaskedAt(s: string, p: nat)
    requires p < |s|
    ensures |Masked(s)| == |s|
    ensures if In(Spans(s, 0), p) then Masked(s)[p] != TICK && Masked(s)[p] != '\\' else Masked(s)[p] == s[p]
  {
    hide Spans, In;
  }

  /** Leaving a span, one is right behind its closing run. */
  lemma Leaving(s: string, j: nat)
    requires 0 < j <= |s| && In(Spans(s, 0), j - 1) && !In(Spans(s, 0), j)
    ensures s[j - 1] == TICK && (j == |s| || s[j] != TICK)
  {
    hide Spans;
    var k :| 0 <= k < |Spans(s, 0)| && Spans(s, 0)[k].0 <= j - 1 < Spans(s, 0)[k].1;
    SpanEnds(s, k);
  }

  /** Entering a span, one is at its opening run. */
  lemma Entering(s: string, j: nat)
    requires 0 < j < |s| && !In(Spans(s, 0), j - 1) && In(Spans(s, 0), j)
    ensures Opener(s, j) && exists k :: 0 <= k < |Spans(s, 0)| && Spans(s, 0)[k].0 == j
  {
    hide Spans, Opener;
    var k :| 0 <= k < |Spans(s, 0)| && Spans(s, 0)[k].0 <= j < Spans(s, 0)[k].1;
    SpanEnds(s, k);
  }

  lemma {:induction false} SlashesSame(s: string, j: nat)
    requires j <= |s| == |Masked(s)| && !In(Spans(s, 0), j)
    ensures Slashes(Masked(s), j) == Slashes(s, j)
    decreases j
  {
    hide Masked, Spans, In;
    if j > 0 {
      MaskedAt(s, j - 1);
      if In(Spans(s, 0), j - 1) { Leaving(s, j); } else { SlashesSame(s, j - 1); }
    }
  }

  lemma EscapedSame(s: string, j: nat)
    requires j <= |s| == |Masked(s)| && !In(Spans(s, 0), j)
    ensures Escaped(Masked(s), j) == Escaped(s, j)
  {
    hide Slashes, Masked, Spans, In;
    SlashesSame(s, j);
  }

  /** What can open a span after blanking is what could before, outside the spans. */
  lemma OpenerSame(s: string, j: nat)
    requires j < |s|
    ensures Opener(Masked(s), j) <==> Opener(s, j) && !In(Spans(s, 0), j)
  {
    hide Masked, Spans, In, Escaped;
    MaskedAt(s, j);
    if !In(Spans(s, 0), j) {
      EscapedSame(s, j);
      if j > 0 {
        MaskedAt(s, j - 1);
        if In(Spans(s, 0), j - 1) { Leaving(s, j); } else { EscapedSame(s, j - 1); }
      }
    }
  }

  lemma OpenerEdge(s: string, j: nat)
    requires Opener(s, j)
    ensures j < |s| && s[j] == TICK && !Escaped(s, j) && ScanEdge(s, j)
  {
    hide Escaped;
  }

  lemma RunSame(s: string, j: nat)
    requires j < |s| && Opener(s, j) && !In(Spans(s, 0), j)
    ensures |Masked(s)| == |s| && RunEnd(Masked(s), j) == RunEnd(s, j) > j
  {
    OpenerEdge(s, j);
    OpenerRun(s, j);
    var end, m := RunEnd(s, j), Masked(s);
    MaskedAt(s, j);
    hide Masked, Spans, Escaped, Opener, RunEnd, ScanEdge;
    forall t | 0 <= t < |Spans(s, 0)|
      ensures Spans(s, 0)[t].1 <= j || Spans(s, 0)[t].0 >= end
    {
      SpanEnds(s, t);
    }
    forall k | j <= k < end
      ensures m[k] == TICK
    {
      MaskedAt(s, k);
    }
    if end < |s| { MaskedAt(s, end); }
    RunEndIs(m, j, end);
  }

  lemma EscapedAfterSlash(s: string, p: nat)
    requires p <= |s| && Escaped(s, p)
    ensures p > 0 && s[p - 1] == '\\'
  {
  }

  /** A whole run after blanking was one before, or is a leftover. */
  lemma RunBefore(s: string, r: int, n: int)
    requires WholeRun(Masked(s), r, n)
    ensures WholeRun(s, r, n) || (n == 1 && Leftover(s, r))
  {
    var m := Masked(s);
    forall k | 0 <= k < |s|
      ensures |m| == |s| && (m[k] == TICK ==> s[k] == TICK && !In(Spans(s, 0), k))
    {
      MaskedAt(s, k);
    }
    hide Masked, Spans, In, Escaped;
    assert m[r] == TICK;
    if r > 0 {
      MaskedAt(s, r - 1);
      if In(Spans(s, 0), r - 1) { Leaving(s, r); }
    }
    var e := r + n;
    assert m[e - 1] == TICK && (n > 1 ==> m[e - 2] == TICK);
    if e < |s| {
      MaskedAt(s, e);
      if s[e] == TICK {
        Entering(s, e);
        EscapedAfterSlash(s, e - 1);
      }
    }
  }

  lemma InAt(spans: seq<Span>, k: nat, p: int)
    requires k < |spans| && spans[k].0 <= p < spans[k].1
    ensures In(spans, p)
  {
  }

  /** Right before a span no other span is. */
  lemma BeforeSpan(s: string, k: nat)
    requires k < |Spans(s, 0)|
    ensures Spans(s, 0)[k].0 > 0 ==> !In(Spans(s, 0), Spans(s, 0)[k].0 - 1)
  {
    hide Spans, In, Opener, IsSpan, Unmatched;
    SpanEnds(s, k);
    var a: int := Spans(s, 0)[k].0;
    forall t | 0 <= t < |Spans(s, 0)|
      ensures !(Spans(s, 0)[t].0 <= a - 1 < Spans(s, 0)[t].1)
    {
      SpansApart(s, t, k);
    }
    NotIn(Spans(s, 0), a - 1);
  }

  lemma NotIn(spans: seq<Span>, p: int)
    requires forall t :: 0 <= t < |spans| ==> !(spans[t].0 <= p < spans[t].1)
    ensures !In(spans, p)
  {
  }

  /** Two spans do not even touch. */
  lemma SpansApart(s: string, t: nat, k: nat)
    requires t < |Spans(s, 0)| && k < |Spans(s, 0)|
    ensures t == k || Spans(s, 0)[t].1 < Spans(s, 0)[k].0 || Spans(s, 0)[k].1 <= Spans(s, 0)[t].0
  {
    SpansExactly(s);
    OrderedAt(Spans(s, 0), t, k);
    SpanEnds(s, t);
    SpanEnds(s, k);
    hide *;
  }

  lemma OrderedAt(spans: seq<Span>, t: nat, k: nat)
    requires Ordered(spans, 0) && t < |spans| && k < |spans|
    ensures t < k ==> spans[t].1 <= spans[k].0
    ensures k < t ==> spans[k].1 <= spans[t].0
  {
  }

  /** A leftover is a whole run of one after blanking. */
  lemma LeftoverRun(s: string, p: int)
    requires Leftover(s, p)
    ensures WholeRun(Masked(s), p, 1)
  {
    var m := Masked(s);
    var k :| 0 <= k < |Spans(s, 0)| && Spans(s, 0)[k].0 == p + 1;
    SpanEnds(s, k);
    InAt(Spans(s, 0), k, p + 1);
    MaskedAt(s, p);
    MaskedAt(s, p + 1);
    hide Masked, Spans, In, Escaped;
    BeforeSpan(s, k);
    EscapedAfterSlash(s, p);
    MaskedAt(s, p - 1);
  }

  /** An opener without a match finds one after blanking exactly if it is a single backtick before a leftover. */
  lemma UnmatchedAfter(s: string, j: nat)
    requires j < |s| && Opener(s, j) && !In(Spans(s, 0), j) && j < |Masked(s)|
    ensures Unmatched(Masked(s), j) <==> !(RunEnd(s, j) == j + 1 && exists p :: j < p && Leftover(s, p))
  {
    hide *;
    SpansExactly(s);
    RunSame(s, j);
    var m, end := Masked(s), RunEnd(s, j);
    UnmatchedMeans(s, j);
    UnmatchedMeans(m, j);
    if end == j + 1 {
      if p :| j < p && Leftover(s, p) {
        LeftoverRun(s, p);
        RunAt(m, end, p, 1);
      }
    }
    var n := end - j;
    NoRunMake(m, end, n);
    if q: int :| q >= end && WholeRun(m, q, n) {
      RunBefore(s, q, n);
      RunAt(s, end, q, n);
    }
  }

  lemma UnmatchedMeans(s: string, j: nat)
    requires j < |s|
    ensures Unmatched(s, j) <==> NoRunFrom(s, RunEnd(s, j), RunEnd(s, j) - j)
  {
    hide RunEnd, NoRunFrom;
  }

  lemma RunAt(s: string, from: nat, q: int, n: int)
    requires q >= from
    ensures WholeRun(s, q, n) ==> !NoRunFrom(s, from, n)
  {
    hide WholeRun;
  }

  lemma NoRunMake(s: string, from: nat, n: int)
    ensures NoRunFrom(s, from, n) <==> forall q :: q >= from ==> !WholeRun(s, q, n)
  {
    hide WholeRun;
  }

  /** Blanking changes nothing exactly if there is no span. */
  lemma NothingMasked(s: string)
    ensures Masked(s) == s <==> Spans(s, 0) == []
  {
    if Spans(s, 0) == [] {
      MaskNone(s);
    } else {
      SpanEnds(s, 0);
      var a := Spans(s, 0)[0].0;
      InAt(Spans(s, 0), 0, a);
      MaskedAt(s, a);
      hide *;
      assert s[a] != Masked(s)[a];
    }
  }

  /** When blanking again changes nothing: not if a single backtick that found no match stands before an escaped backtick
  that a span has cut off from its run, and in every other case. */
  lemma MaskedTwice(markdown: string)
    ensures Masked(Masked(markdown)) == Masked(markdown) <==> !Revived(markdown)
  {
    var s, m := markdown, Masked(markdown);
    NothingMasked(m);
    NoSpans(m);
    assert |m| == |s|;
    hide Masked, Spans, Opener, In, RunEnd, Leftover, Unmatched;
    forall j | 0 <= j < |m| && Opener(m, j)
      ensures Opener(s, j) && !In(Spans(s, 0), j)
      ensures Unmatched(m, j) <==> !(RunEnd(s, j) == j + 1 && exists p :: j < p && Leftover(s, p))
    {
      OpenerSame(s, j);
      UnmatchedAfter(s, j);
    }
    forall i | Opener(s, i) && !In(Spans(s, 0), i)
      ensures 0 <= i < |m| && Opener(m, i)
    {
      OpenerInside(s, i);
      OpenerSame(s, i);
    }
  }

  lemma OpenerInside(s: string, i: int)
    requires Opener(s, i)
    ensures 0 <= i < |s|
  {
    hide Escaped;
  }

  /** Where no backtick follows an escaped one, blanking twice is blanking once. */
  lemma MaskedTwicePlain(markdown: string)
    requires forall i :: 0 < i < |markdown| && markdown[i - 1] == TICK && Escaped(markdown, i - 1) ==> markdown[i] != TICK
    ensures Masked(Masked(markdown)) == Masked(markdown)
  {
    MaskedTwice(markdown);
    hide Masked, Spans, In, RunEnd, Escaped;
    forall p | Leftover(markdown, p)
      ensures false
    {
      var k :| 0 <= k < |Spans(markdown, 0)| && Spans(markdown, 0)[k].0 == p + 1;
      SpanEnds(markdown, k);
    }
  }

  /** A text that blanking twice changes twice: the run that closes the second span leaves its escaped first backtick,
  which then closes a span opened by the single backtick at the start. */
  lemma MaskingNotIdempotent()
    ensures Masked(Masked("` \\``` a ``")) != Masked("` \\``` a ``")
  {
    var s := "` \\``` a ``";
    assert |s| == 11 && s[0] == s[3] == s[4] == s[5] == s[9] == s[10] == TICK && s[2] == '\\';
    assert s[1] == s[6] == s[8] == ' ' && s[7] == 'a';
    MaskedTwice(s);
    assert Revived(s) by {
      ScanStart(s);
      WitnessSpans(s);
    }
  }

  lemma WitnessSpans(s: string)
    requires |s| == 11 && s[0] == s[3] == s[4] == s[5] == s[9] == s[10] == TICK && s[2] == '\\'
    requires s[1] == s[6] == s[8] == ' ' && s[7] == 'a'
    ensures Opener(s, 0) && !In(Spans(s, 0), 0) && RunEnd(s, 0) == 1 && Leftover(s, 3)
  {
    assert Slashes(s, 2) == 0 && Slashes(s, 3) == 1 && Slashes(s, 4) == 0 && Slashes(s, 0) == 0;
    RunEndIs(s, 0, 1);
    RunEndIs(s, 1, 1);
    RunEndIs(s, 5, 6);
    RunEndIs(s, 4, 6);
    CloseFirst(s, 1, 1);
    CloseFirst(s, 6, 2);
    assert WholeRun(s, 9, 2);
    hide *;
    SpansStep(s, 0);
    SpansStep(s, 1);
    SpansStep(s, 2);
    SpansStep(s, 3);
    SpansStep(s, 4);
  }
}
