/** Text helpers shared by the two SQL scanners.

A text is a sequence of characters. The scanners never distinguish two characters above U+007F
except for JavaScript whitespace and two case-folding oddities, so one `char` may stand for one
UTF-16 code unit.
*/
module SqlText {
  import opened Basics

  /** JavaScript's `\s`. */
  predicate IsSpace(c: char) {
    var u := c as int;
    9 <= u <= 13 || u == 0x20 || u == 0xa0 || u == 0x1680 || 0x2000 <= u <= 0x200a
    || u == 0x2028 || u == 0x2029 || u == 0x202f || u == 0x205f || u == 0x3000 || u == 0xfeff
  }

  predicate IsAscii(c: char) { c as int <= 0x7f }

  predicate IsWordStart(c: char) { 'a' <= c <= 'z' || 'A' <= c <= 'Z' || c == '_' }

  predicate IsWordPart(c: char) { IsWordStart(c) || IsDigit(c) }

  predicate StartsWith(s: string, p: string): (r: bool)
    ensures r ==> |p| <= |s|
  {
    |p| <= |s| && s[..|p|] == p
  }

  function After(k: nat, r: Option<nat>): Option<nat> {
    if r.Some? then Some(k + r.value) else None
  }

  /** Position of the first occurrence of `p` in `s`. */
  function IndexOf(s: string, p: string): (r: Option<nat>)
    ensures r.Some? ==> r.value + |p| <= |s| && s[r.value..r.value + |p|] == p
    decreases |s|
  {
    if StartsWith(s, p) then Some(0)
    else if s == "" then None
    else
      var r := IndexOf(s[1..], p);
      assert r.Some? ==> s[1..][r.value..r.value + |p|] == s[r.value + 1..r.value + 1 + |p|];
      After(1, r)
  }

  /** Length of a `--` comment: up to, not including, the next line feed. */
  function LineLength(s: string): (n: nat)
    ensures n <= |s|
    ensures n < |s| ==> s[n] == '\n'
    decreases |s|
  {
    if s == "" || s[0] == '\n' then 0 else 1 + LineLength(s[1..])
  }

  /** Number of leading identifier characters. */
  function WordLength(s: string): (n: nat)
    ensures n <= |s|
    ensures forall i :: 0 <= i < n ==> IsWordPart(s[i])
    ensures n < |s| ==> !IsWordPart(s[n])
    decreases |s|
  {
    if s == "" || !IsWordPart(s[0]) then 0 else 1 + WordLength(s[1..])
  }

  /** Length of the dollar-quote tag `s` begins with: `$$` or `$name$`. */
  function TagLength(s: string): (r: Option<nat>)
    ensures r.Some? ==> 2 <= r.value <= |s|
  {
    if |s| < 2 || s[0] != '$' then None
    else if s[1] == '$' then Some(2)
    else if !IsWordStart(s[1]) then None
    else
      var n := WordLength(s[1..]);
      if 1 + n < |s| && s[1 + n] == '$' then Some(n + 2) else None
  }

  /** Length of a dollar-quoted body, tags included. */
  function BodyLength(s: string, tag: nat): (r: Option<nat>)
    requires tag <= |s|
    ensures r.Some? ==> 2 * tag <= r.value <= |s|
  {
    var end := IndexOf(s[tag..], s[..tag]);
    if end.Some? then Some(tag + end.value + tag) else None
  }

  datatype SplitError =
    | NonAscii | DumpCommand | NestedComment | UnterminatedComment | EscapeOutsideBody
    | NonAsciiIdentifier | CreationQuote | Backslash | UnterminatedLiteral
    | DollarPosition | UnterminatedBody | UnterminatedStatement

  /** How far a construct reaches, or why it is refused. */
  datatype Scan = Found(len: nat) | Bad(reason: SplitError)

  function Shift(k: nat, r: Scan): Scan {
    if r.Found? then Found(k + r.len) else r
  }

  /** What is left of a block comment at nesting depth `depth`. With `single`, a nested comment is refused. */
  function CommentLength(s: string, depth: nat, single: bool): (r: Scan)
    ensures r.Found? ==> r.len <= |s|
    decreases |s|
  {
    if depth == 0 then Found(0)
    else if s == "" then Bad(UnterminatedComment)
    else if StartsWith(s, "/*") then
      if single then Bad(NestedComment) else Shift(2, CommentLength(s[2..], depth + 1, single))
    else if StartsWith(s, "*/") then Shift(2, CommentLength(s[2..], depth - 1, single))
    else Shift(1, CommentLength(s[1..], depth, single))
  }

  // Locality: a construct that ends inside `s` is the same construct in every extension of `s`, and back.

  lemma {:induction false} IndexOfLocal(s: string, t: string, p: string)
    requires p != ""
    ensures IndexOf(s, p).Some? ==> IndexOf(s + t, p) == IndexOf(s, p)
    ensures IndexOf(s + t, p).Some? && IndexOf(s + t, p).value + |p| <= |s| ==> IndexOf(s, p) == IndexOf(s + t, p)
    decreases |s|
  {
    if s != "" {
      assert (s + t)[1..] == s[1..] + t;
      if |p| <= |s| { assert (s + t)[..|p|] == s[..|p|]; }
      IndexOfLocal(s[1..], t, p);
    }
  }

  lemma CommentStep(s: string, depth: nat, single: bool)
    ensures CommentLength(s, depth, single) ==
      if depth == 0 then Found(0)
      else if s == "" then Bad(UnterminatedComment)
      else if StartsWith(s, "/*") then
        if single then Bad(NestedComment) else Shift(2, CommentLength(s[2..], depth + 1, single))
      else if StartsWith(s, "*/") then Shift(2, CommentLength(s[2..], depth - 1, single))
      else Shift(1, CommentLength(s[1..], depth, single))
  {
    hide StartsWith, Shift;
  }

  lemma TwoLocal(s: string, t: string, p: string)
    requires |p| == 2
    ensures |s| >= 2 ==> (StartsWith(s + t, p) <==> StartsWith(s, p)) && (s + t)[2..] == s[2..] + t
    ensures |s| < 2 ==> !StartsWith(s, p)
    ensures |s| >= 1 ==> (s + t)[1..] == s[1..] + t && s + t != ""
  {
    if |s| >= 2 { assert (s + t)[..2] == s[..2]; }
  }

  lemma ShiftMeans(k: nat, r: Scan)
    ensures Shift(k, r).Found? <==> r.Found?
    ensures r.Found? ==> Shift(k, r).len == k + r.len
    ensures forall q: Scan :: r == q ==> Shift(k, r) == Shift(k, q)
  {
  }

  lemma {:induction false} CommentLocal(s: string, t: string, depth: nat, single: bool)
    ensures CommentLength(s, depth, single).Found? ==> CommentLength(s + t, depth, single) == CommentLength(s, depth, single)
    ensures CommentLength(s + t, depth, single).Found? && CommentLength(s + t, depth, single).len <= |s|
      ==> CommentLength(s, depth, single) == CommentLength(s + t, depth, single)
    decreases |s|
  {
    hide *;
    var whole := s + t;
    CommentStep(s, depth, single);
    CommentStep(whole, depth, single);
    TwoLocal(s, t, "/*");
    TwoLocal(s, t, "*/");
    if s == "" || depth == 0 {
      if depth > 0 { CommentTwo(whole, depth, single); }
    } else if |s| == 1 {
      assert s[1..] == "";
      CommentStep("", depth, single);
      ShiftMeans(1, CommentLength("", depth, single));
      CommentTwo(whole, depth, single);
    } else if StartsWith(s, "/*") {
      CommentLocal(s[2..], t, depth + 1, single);
      ShiftMeans(2, CommentLength(s[2..], depth + 1, single));
      ShiftMeans(2, CommentLength(whole[2..], depth + 1, single));
    } else if StartsWith(s, "*/") {
      CommentLocal(s[2..], t, depth - 1, single);
      ShiftMeans(2, CommentLength(s[2..], depth - 1, single));
      ShiftMeans(2, CommentLength(whole[2..], depth - 1, single));
    } else {
      CommentLocal(s[1..], t, depth, single);
      ShiftMeans(1, CommentLength(s[1..], depth, single));
      ShiftMeans(1, CommentLength(whole[1..], depth, single));
    }
  }

  /** A comment that is still open takes at least two more characters. */
  lemma {:induction false} CommentTwo(s: string, depth: nat, single: bool)
    requires depth > 0
    ensures CommentLength(s, depth, single).Found? ==> CommentLength(s, depth, single).len >= 2
    decreases |s|
  {
    if s != "" && !StartsWith(s, "/*") && !StartsWith(s, "*/") { CommentTwo(s[1..], depth, single); }
  }

  lemma {:induction false} LineLocal(s: string, t: string)
    ensures LineLength(s) < |s| ==> LineLength(s + t) == LineLength(s)
    ensures LineLength(s + t) <= |s| ==> LineLength(s) == LineLength(s + t)
    decreases |s|
  {
    if s != "" {
      assert (s + t)[1..] == s[1..] + t;
      LineLocal(s[1..], t);
    }
  }

  lemma {:induction false} WordLocal(s: string, t: string)
    ensures WordLength(s) < |s| ==> WordLength(s + t) == WordLength(s)
    ensures WordLength(s + t) <= |s| ==> WordLength(s) == WordLength(s + t)
    ensures WordLength(s) <= WordLength(s + t)
    decreases |s|
  {
    if s != "" {
      assert (s + t)[1..] == s[1..] + t;
      WordLocal(s[1..], t);
    }
  }

  lemma TagLocal(s: string, t: string)
    ensures TagLength(s).Some? ==> TagLength(s + t) == TagLength(s)
    ensures TagLength(s + t).Some? && TagLength(s + t).value <= |s| ==> TagLength(s) == TagLength(s + t)
  {
    if |s| >= 2 {
      assert (s + t)[1..] == s[1..] + t;
      WordLocal(s[1..], t);
    }
  }

  lemma BodyLocal(s: string, t: string, tag: nat)
    requires 0 < tag <= |s|
    ensures BodyLength(s, tag).Some? ==> BodyLength(s + t, tag) == BodyLength(s, tag)
    ensures BodyLength(s + t, tag).Some? && BodyLength(s + t, tag).value <= |s|
      ==> BodyLength(s, tag) == BodyLength(s + t, tag)
  {
    assert (s + t)[tag..] == s[tag..] + t;
    assert (s + t)[..tag] == s[..tag];
    IndexOfLocal(s[tag..], t, s[..tag]);
  }

  // Two slices in a row.

  lemma SliceTwice(s: string, n: nat, j: nat)
    requires n + j <= |s|
    ensures s[..n + j][..n] == s[..n]
    ensures s[..n + j][n..] == s[n..][..j]
    ensures s[n..][j..] == s[n + j..]
  {
  }

  lemma GrowTwice(p: string, s: string, n: nat, j: nat)
    requires n + j <= |s|
    ensures (p + s[..n]) + s[n..][..j] == p + s[..n + j]
  {
  }
}
