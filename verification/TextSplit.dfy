/** Splitting a text at a separator and joining it again. */
module TextSplit {

  /** Position of the first `c`, or the length. */
  function Until(s: string, c: char): (n: nat)
    ensures n <= |s| && c !in s[..n] && (n < |s| ==> s[n] == c)
    decreases |s|
  {
    if s == "" then 0
    else if s[0] == c then 0
    else
      var n := Until(s[1..], c);
      assert s[..n + 1] == [s[0]] + s[1..][..n];
      n + 1
  }

  /** `String.prototype.split` at `c`. */
  function Split(s: string, c: char): (parts: seq<string>)
    ensures parts != []
    decreases |s|
  {
    var n := Until(s, c);
    if n == |s| then [s] else [s[..n]] + Split(s[n + 1..], c)
  }

  lemma {:induction false} UntilIs(s: string, c: char, n: nat)
    requires n <= |s| && c !in s[..n] && (n < |s| ==> s[n] == c)
    ensures Until(s, c) == n
  {
    var m := Until(s, c);
    assert forall i :: 0 <= i < n ==> s[i] == s[..n][i];
    assert forall i :: 0 <= i < m ==> s[i] == s[..m][i];
  }

  lemma {:induction false} SplitParts(s: string, c: char)
    ensures forall part :: part in Split(s, c) ==> c !in part
    decreases |s|
  {
    var n := Until(s, c);
    if n == |s| { assert s[..n] == s; } else { SplitParts(s[n + 1..], c); }
  }

  function Join(parts: seq<string>, c: char): string
    requires parts != []
    decreases |parts|
  {
    if |parts| == 1 then parts[0] else parts[0] + [c] + Join(parts[1..], c)
  }

  /** The parts of a split hold no separator and join to the whole. */
  lemma {:induction false} SplitJoins(s: string, c: char)
    ensures Join(Split(s, c), c) == s
    decreases |s|
  {
    hide Until;
    var n := Until(s, c);
    if n < |s| {
      var first, rest := s[..n], Split(s[n + 1..], c);
      SplitJoins(s[n + 1..], c);
      JoinCons(first, rest, c);
      assert s == first + [c] + s[n + 1..];
    }
  }

  lemma JoinCons(first: string, rest: seq<string>, c: char)
    requires rest != []
    ensures Join([first] + rest, c) == first + [c] + Join(rest, c)
  {
    assert ([first] + rest)[1..] == rest;
  }

  lemma SplitAfter(first: string, rest: string, c: char)
    requires c !in first
    ensures Split(first + [c] + rest, c) == [first] + Split(rest, c)
  {
    hide Until;
    var s := first + [c] + rest;
    assert s[..|first|] == first && s[|first|] == c && s[|first| + 1..] == rest;
    UntilIs(s, c, |first|);
  }

  lemma SplitOne(s: string, c: char)
    requires c !in s
    ensures Split(s, c) == [s]
  {
    hide Until;
    assert s[..|s|] == s;
    UntilIs(s, c, |s|);
  }

  /** Parts without the separator come back from their join. */
  lemma {:induction false} JoinSplits(parts: seq<string>, c: char)
    requires parts != [] && forall part :: part in parts ==> c !in part
    ensures Split(Join(parts, c), c) == parts
    decreases |parts|
  {
    hide Split;
    if |parts| == 1 {
      SplitOne(parts[0], c);
      assert parts == [parts[0]];
    } else {
      JoinSplits(parts[1..], c);
      SplitAfter(parts[0], Join(parts[1..], c), c);
      assert parts == [parts[0]] + parts[1..];
    }
  }

  /** The parts of a text are the only list of parts without the separator that joins to it. */
  lemma SplitExactly(s: string, c: char, parts: seq<string>)
    ensures parts == Split(s, c) <==> parts != [] && (forall part :: part in parts ==> c !in part) && Join(parts, c) == s
  {
    hide Split, Join;
    SplitParts(s, c);
    SplitJoins(s, c);
    if parts != [] && forall part :: part in parts ==> c !in part { JoinSplits(parts, c); }
  }
}
