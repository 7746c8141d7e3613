/** Headings, their anchors and the sections they begin. */
module MarkdownHeadings {
  // What the heading pattern matches is passed in: slug, level and start of each match, in order.

  import opened Basics

  datatype Match = Match(slug: string, level: nat, start: nat)

  datatype Heading = Heading(anchor: string, level: nat, start: nat, end: nat)

  ghost predicate InOrder(found: seq<Match>, length: nat) {
    && (forall i :: 0 <= i < |found| ==> found[i].start < length)
    && (forall i, j :: 0 <= i < j < |found| ==> found[i].start < found[j].start)
  }

  // ---- Numbers ----

  function Digit(n: nat): char
    requires n < 10
  {
    '0' + n as char
  }

  function Number(n: nat): (s: string)
    ensures s != ""
  {
    if n < 10 then [Digit(n)] else Number(n / 10) + [Digit(n % 10)]
  }

  function ValueOf(s: string): int
    decreases |s|
  {
    if s == "" then 0 else 10 * ValueOf(s[..|s| - 1]) + (s[|s| - 1] as int - '0' as int)
  }

  lemma {:induction false} NumberReads(n: nat)
    ensures ValueOf(Number(n)) == n && '-' !in Number(n)
  {
    var s := Number(n);
    if n < 10 {
      assert s[..0] == "";
    } else {
      NumberReads(n / 10);
      assert s[..|s| - 1] == Number(n / 10);
    }
  }

  // ---- Anchors and sections ----

  /** How many earlier matches have the slug of match `i`. */
  function Earlier(found: seq<Match>, slug: string): nat
    decreases |found|
  {
    if found == [] then 0
    else Earlier(found[..|found| - 1], slug) + if found[|found| - 1].slug == slug then 1 else 0
  }

  function Suffixed(slug: string, duplicate: nat): string { "#" + slug + if duplicate == 0 then "" else "-" + Number(duplicate) }

  function AnchorOf(found: seq<Match>, i: nat): string
    requires i < |found|
  {
    Suffixed(found[i].slug, Earlier(found[..i], found[i].slug))
  }

  /** Where the first match from `j` on with at most this level starts, or the end of the text. */
  function NextStart(found: seq<Match>, j: nat, level: nat, length: nat): nat
    requires j <= |found|
    decreases |found| - j
  {
    if j == |found| then length else if found[j].level <= level then found[j].start else NextStart(found, j + 1, level, length)
  }

  function EndOf(found: seq<Match>, i: nat, length: nat): nat
    requires i < |found|
  {
    NextStart(found, i + 1, found[i].level, length)
  }

  function Headings(found: seq<Match>, length: nat): (r: seq<Heading>)
    ensures |r| == |found|
  {
    seq(|found|, i requires 0 <= i < |found| => Heading(AnchorOf(found, i), found[i].level, found[i].start, EndOf(found, i, length)))
  }

  /** The headings before their ends are known. */
  function OpenHeadings(found: seq<Match>, length: nat): (r: seq<Heading>)
    ensures |r| == |found|
  {
    seq(|found|, i requires 0 <= i < |found| => Heading(AnchorOf(found, i), found[i].level, found[i].start, length))
  }

  method OpenAll(found: seq<Match>, length: nat) returns (headings: seq<Heading>)
    ensures headings == OpenHeadings(found, length)
  {
    hide Suffixed, NextStart;
    var seen: map<string, nat> := map[];
    headings := [];
    for i := 0 to |found|
      invariant |headings| == i
      invariant forall slug :: Earlier(found[..i], slug) == if slug in seen then seen[slug] else 0
      invariant forall k :: 0 <= k < i ==> headings[k] == OpenHeadings(found, length)[k]
    {
      var slug := found[i].slug;
      assert found[..i + 1][..i] == found[..i] && found[..i + 1][i] == found[i];
      var duplicate := if slug in seen then seen[slug] else 0;
      seen := seen[slug := duplicate + 1];
      headings := headings + [Heading(Suffixed(slug, duplicate), found[i].level, found[i].start, length)];
    }
  }

  method FindEnd(found: seq<Match>, index: nat, length: nat) returns (next: nat)
    requires index < |found|
    ensures next <= |found| && EndOf(found, index, length) == if next == |found| then length else found[next].start
  {
    next := index + 1;
    while next < |found| && found[next].level > found[index].level
      invariant index < next <= |found|
      invariant EndOf(found, index, length) == NextStart(found, next, found[index].level, length)
    {
      next := next + 1;
    }
  }

  method CollectHeadings(found: seq<Match>, length: nat) returns (headings: seq<Heading>)
    ensures headings == Headings(found, length)
  {
    hide AnchorOf, EndOf;
    headings := OpenAll(found, length);
    for index := 0 to |found|
      invariant |headings| == |found|
      invariant forall k :: 0 <= k < index ==> headings[k] == Headings(found, length)[k]
      invariant forall k :: index <= k < |found| ==> headings[k] == OpenHeadings(found, length)[k]
    {
      var next := FindEnd(found, index, length);
      if next < |found| { headings := headings[index := headings[index].(end := headings[next].start)]; }
    }
  }

  // ---- Sections nest ----

  lemma {:induction false} NextMeans(found: seq<Match>, j: nat, level: nat, length: nat)
    requires InOrder(found, length) && j <= |found|
    ensures NextStart(found, j, level, length) <= length
    ensures forall k :: j <= k < |found| ==>
      NextStart(found, j, level, length) <= found[k].start || (found[k].level > level && found[k].start < NextStart(found, j, level, length))
    ensures NextStart(found, j, level, length) == length
            || exists k :: j <= k < |found| && found[k].level <= level && found[k].start == NextStart(found, j, level, length)
    decreases |found| - j
  {
    if j < |found| && found[j].level > level {
      NextMeans(found, j + 1, level, length);
      var end := NextStart(found, j + 1, level, length);
      if end != length {
        var k :| j + 1 <= k < |found| && found[k].level <= level && found[k].start == end;
        assert found[j].start < found[k].start;
      }
    }
  }

  /** Two sections are apart, or the later one lies inside the earlier one, under a smaller heading. */
  lemma SectionsNest(found: seq<Match>, length: nat, i: nat, j: nat)
    requires InOrder(found, length) && i < j < |found|
    ensures
      var a, b := Headings(found, length)[i], Headings(found, length)[j];
      && a.start < a.end <= length && a.start < b.start
      && (a.end <= b.start || (b.end <= a.end && a.level < b.level))
  {
    NextMeans(found, i + 1, found[i].level, length);
    NextMeans(found, j + 1, found[j].level, length);
    hide NextStart, AnchorOf;
    var a, b := EndOf(found, i, length), EndOf(found, j, length);
    if a != length {
      var k :| i + 1 <= k < |found| && found[k].level <= found[i].level && found[k].start == a;
      assert found[i].start < found[k].start;
      if found[j].start < a {
        assert k < j ==> found[k].start < found[j].start;
      }
    }
  }

  // ---- Anchors ----

  lemma {:induction false} EarlierGrows(found: seq<Match>, slug: string, i: nat, j: nat)
    requires i <= j <= |found|
    ensures Earlier(found[..i], slug) <= Earlier(found[..j], slug)
    ensures i < j && found[i].slug == slug ==> Earlier(found[..i], slug) < Earlier(found[..j], slug)
    decreases j - i
  {
    if i < j {
      assert found[..j][..j - 1] == found[..j - 1];
      EarlierGrows(found, slug, i, j - 1);
    }
  }

  /** Every count up to the last is some match's. */
  lemma {:induction false} CountReached(found: seq<Match>, slug: string, k: nat) returns (i: nat)
    requires k < Earlier(found, slug)
    ensures i < |found| && found[i].slug == slug && Earlier(found[..i], slug) == k
    decreases |found|
  {
    var front := found[..|found| - 1];
    if k < Earlier(front, slug) {
      i := CountReached(front, slug, k);
      assert found[..i] == front[..i];
    } else {
      i := |found| - 1;
    }
  }

  /** A numbered slug has one reading. */
  lemma NumberedOnce(a: string, j: nat, b: string, k: nat)
    requires j > 0 && k > 0 && Suffixed(a, j) == Suffixed(b, k)
    ensures a == b && j == k
  {
    NumberReads(j);
    NumberReads(k);
    var x, y := Number(j), Number(k);
    assert Suffixed(a, j) == ("#" + a) + "-" + x && Suffixed(b, k) == ("#" + b) + "-" + y;
    LastDash("#" + a, x, "#" + b, y);
    assert ("#" + a)[1..] == a && ("#" + b)[1..] == b;
  }

  lemma LastDash(a: string, x: string, b: string, y: string)
    requires '-' !in x && '-' !in y && a + "-" + x == b + "-" + y
    ensures a == b && x == y
  {
    var s := a + "-" + x;
    assert s[|a|] == '-' && s[|b|] == '-';
    assert forall i :: |a| < i < |s| ==> s[i] == x[i - |a| - 1];
    assert forall i :: |b| < i < |s| ==> s[i] == y[i - |b| - 1];
    assert |a| == |b|;
    assert a == s[..|a|] && b == s[..|b|] && x == s[|a| + 1..] && y == s[|b| + 1..];
  }

  /** A slug that reads as another slug with a number the other's repetitions use. */
  ghost predicate Clash(found: seq<Match>) {
    exists i, j, k: nat ::
      0 <= i < |found| && 0 <= j < |found| && 0 < k < Earlier(found, found[i].slug) && "#" + found[j].slug == Suffixed(found[i].slug, k)
  }

  ghost predicate UniqueAnchors(found: seq<Match>) {
    forall i, j :: 0 <= i < j < |found| ==> AnchorOf(found, i) != AnchorOf(found, j)
  }

  /** Anchors are unique exactly if no slug is another slug with a number that the other's repetitions use. */
  lemma AnchorsUnique(found: seq<Match>)
    ensures UniqueAnchors(found) <==> !Clash(found)
  {
    if UniqueAnchors(found) {
      forall i, j, k: nat | 0 <= i < |found| && 0 <= j < |found| && 0 < k < Earlier(found, found[i].slug)
        ensures "#" + found[j].slug != Suffixed(found[i].slug, k)
      {
        UniqueNoClash(found, i, j, k);
      }
    }
    if !Clash(found) {
      forall i, j | 0 <= i < j < |found|
        ensures AnchorOf(found, i) != AnchorOf(found, j)
      {
        NoClashUnique(found, i, j);
      }
    }
  }

  lemma UniqueNoClash(found: seq<Match>, i: nat, j: nat, k: nat)
    requires UniqueAnchors(found) && i < |found| && j < |found| && 0 < k < Earlier(found, found[i].slug)
    ensures "#" + found[j].slug != Suffixed(found[i].slug, k)
  {
    var slug := found[i].slug;
    WholeList(found);
    var a := CountReached(found, slug, k);
    EarlierGrows(found, found[j].slug, j, |found|);
    var b := CountReached(found, found[j].slug, 0);
    hide Earlier, Number;
    assert AnchorOf(found, a) == Suffixed(slug, k);
    PlainAnchor(found[j].slug);
    assert AnchorOf(found, b) == "#" + found[j].slug;
    assert a != b;
  }

  lemma PlainAnchor(slug: string)
    ensures Suffixed(slug, 0) == "#" + slug
  {
  }

  lemma WholeList(found: seq<Match>)
    ensures found[..|found|] == found
  {
  }

  lemma NoClashUnique(found: seq<Match>, i: nat, j: nat)
    requires !Clash(found) && i < j < |found|
    ensures AnchorOf(found, i) != AnchorOf(found, j)
  {
    var a, b := found[i].slug, found[j].slug;
    var m, n := Earlier(found[..i], a), Earlier(found[..j], b);
    WholeList(found);
    EarlierGrows(found, a, i, j);
    EarlierGrows(found, a, i, |found|);
    EarlierGrows(found, b, j, |found|);
    PlainAnchor(a);
    PlainAnchor(b);
    hide Earlier, Number;
    assert ("#" + a)[1..] == a && ("#" + b)[1..] == b;
    if AnchorOf(found, i) == AnchorOf(found, j) && m > 0 && n > 0 { NumberedOnce(a, m, b, n); }
  }

  /** Three headings of which the last two have one anchor, whatever the slug of the first two. */
  lemma RepeatedCollides(slug: string, found: seq<Match>)
    requires |found| == 3 && found[0].slug == found[1].slug == slug && found[2].slug == slug + "-" + Number(1)
    ensures Clash(found) && AnchorOf(found, 1) == AnchorOf(found, 2) == "#" + found[2].slug
  {
    hide Number, Earlier, Clash;
    var a, b, c := found[0], found[1], found[2];
    NumberReads(1);
    assert |c.slug| > |slug|;
    assert found[..1] == [] + [a] && found[..2] == [a] + [b] && found == [a, b] + [c] && [a] + [b] == [a, b] && [] + [a] == [a];
    EarlierNext([], slug, a);
    EarlierNext([a], slug, b);
    EarlierNext([a, b], slug, c);
    EarlierNext([], c.slug, a);
    EarlierNext([a], c.slug, b);
    assert Earlier(found[..1], slug) == 1 && Earlier(found[..2], c.slug) == 0;
    assert "#" + c.slug == Suffixed(slug, 1);
    ClashAt(found, 0, 2, 1);
  }

  lemma ClashAt(found: seq<Match>, i: nat, j: nat, k: nat)
    requires i < |found| && j < |found| && 0 < k < Earlier(found, found[i].slug) && "#" + found[j].slug == Suffixed(found[i].slug, k)
    ensures Clash(found)
  {
    hide Earlier, Suffixed;
  }

  /** Of the headings `# foo`, `# foo` and `# foo-1`, one line each, the last two have one anchor. */
  lemma AnchorsCollide()
    ensures
      var found := [Match("foo", 1, 0), Match("foo", 1, 6), Match("foo-1", 1, 12)];
      InOrder(found, 19) && Clash(found) && AnchorOf(found, 1) == AnchorOf(found, 2)
  {
    var found := [Match("foo", 1, 0), Match("foo", 1, 6), Match("foo-1", 1, 12)];
    assert Number(1) == "1";
    hide *;
    assert "foo" + "-" + "1" == "foo-1";
    RepeatedCollides("foo", found);
    InOrderThree(found, 19);
  }

  lemma InOrderThree(found: seq<Match>, length: nat)
    requires |found| == 3 && found[0].start < found[1].start < found[2].start < length
    ensures InOrder(found, length)
  {
  }

  lemma EarlierNext(found: seq<Match>, slug: string, last: Match)
    ensures Earlier([], slug) == 0
    ensures Earlier(found + [last], slug) == Earlier(found, slug) + if last.slug == slug then 1 else 0
  {
    assert (found + [last])[..|found|] == found;
  }

  // ---- One section ----

  /** The first heading with this anchor, or their number. */
  function FirstWith(headings: seq<Heading>, anchor: string): (i: nat)
    ensures i <= |headings| && (i < |headings| ==> headings[i].anchor == anchor)
    ensures forall j :: 0 <= j < i ==> headings[j].anchor != anchor
    decreases |headings|
  {
    if headings == [] || headings[0].anchor == anchor then 0 else 1 + FirstWith(headings[1..], anchor)
  }

  /** The text of the first section with this anchor. */
  function Section(markdown: string, headings: seq<Heading>, anchor: string): Option<string>
    requires forall h :: h in headings ==> h.start <= h.end <= |markdown|
  {
    if anchor == "" then Some(markdown)
    else
      var i := FirstWith(headings, anchor);
      if i == |headings| then None else Some(markdown[headings[i].start..headings[i].end])
  }

  /** Every heading's anchor finds that heading exactly if no slug clashes. */
  lemma AnchorsFind(found: seq<Match>, length: nat)
    ensures (forall i :: 0 <= i < |found| ==> FirstWith(Headings(found, length), AnchorOf(found, i)) == i) <==> !Clash(found)
  {
    AnchorsUnique(found);
    hide AnchorOf, Clash, EndOf;
    var headings := Headings(found, length);
    if UniqueAnchors(found) {
      forall i | 0 <= i < |found|
        ensures FirstWith(headings, AnchorOf(found, i)) == i
      {
        assert headings[i].anchor == AnchorOf(found, i);
      }
    } else {
      var i, j :| 0 <= i < j < |found| && AnchorOf(found, i) == AnchorOf(found, j);
      assert headings[i].anchor == AnchorOf(found, j);
    }
  }

  /** Where no slug clashes, every heading's anchor finds the text of its own section. */
  lemma SectionFound(markdown: string, found: seq<Match>, i: nat)
    requires InOrder(found, |markdown|) && !Clash(found) && i < |found|
    ensures forall h :: h in Headings(found, |markdown|) ==> h.start <= h.end <= |markdown|
    ensures found[i].start <= EndOf(found, i, |markdown|) <= |markdown|
    ensures Section(markdown, Headings(found, |markdown|), AnchorOf(found, i)) ==
      Some(markdown[found[i].start..EndOf(found, i, |markdown|)])
  {
    var headings := Headings(found, |markdown|);
    AnchorsFind(found, |markdown|);
    SectionsInside(found, |markdown|);
    AnchorStarts(found, i);
    hide AnchorOf, Clash, EndOf;
    assert headings[i].start == found[i].start;
  }

  lemma AnchorStarts(found: seq<Match>, i: nat)
    requires i < |found|
    ensures AnchorOf(found, i) != ""
  {
    hide Number;
  }

  lemma SectionsInside(found: seq<Match>, length: nat)
    requires InOrder(found, length)
    ensures forall i :: 0 <= i < |found| ==> found[i].start <= EndOf(found, i, length) <= length
    ensures forall h :: h in Headings(found, length) ==> h.start <= h.end <= length
  {
    forall i | 0 <= i < |found|
      ensures found[i].start <= EndOf(found, i, length) <= length
    {
      NextMeans(found, i + 1, found[i].level, length);
    }
    hide AnchorOf, EndOf;
  }
}
