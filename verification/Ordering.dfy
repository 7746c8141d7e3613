/** JavaScript's order on strings: by code unit, a proper prefix first. */
module Ordering {
  import opened Basics

  predicate Before(a: string, b: string)
    decreases |a|
  {
    b != "" && (a == "" || a[0] < b[0] || (a[0] == b[0] && Before(a[1..], b[1..])))
  }

  lemma {:induction false} BeforeIrreflexive(a: string)
    ensures !Before(a, a)
    decreases |a|
  {
    if a != "" { BeforeIrreflexive(a[1..]); }
  }

  lemma {:induction false} BeforeTransitive(a: string, b: string, c: string)
    requires Before(a, b) && Before(b, c)
    ensures Before(a, c)
    decreases |a|
  {
    if a != "" && a[0] == b[0] && b[0] == c[0] { BeforeTransitive(a[1..], b[1..], c[1..]); }
  }

  lemma {:induction false} BeforeTotal(a: string, b: string)
    ensures Before(a, b) || Before(b, a) || a == b
    decreases |a|
  {
    if a != "" && b != "" && a[0] == b[0] {
      BeforeTotal(a[1..], b[1..]);
      if a[1..] == b[1..] { assert a == [a[0]] + a[1..] && b == [b[0]] + b[1..]; }
    }
  }

  lemma BeforeAsymmetric(a: string, b: string)
    requires Before(a, b)
    ensures !Before(b, a) && a != b
  {
    BeforeIrreflexive(a);
    if Before(b, a) { BeforeTransitive(a, b, a); }
  }

  /** Texts of one length are ordered as the texts that begin with them are, unless they are equal. */
  lemma {:induction false} BeforePrefix(a: string, b: string, x: string, y: string)
    requires |a| == |b| && a != b
    ensures Before(a + x, b + y) == Before(a, b)
    decreases |a|
  {
    assert a == [a[0]] + a[1..] && b == [b[0]] + b[1..];
    assert (a + x)[0] == a[0] && (b + y)[0] == b[0];
    if a[0] == b[0] {
      assert (a + x)[1..] == a[1..] + x && (b + y)[1..] == b[1..] + y;
      BeforePrefix(a[1..], b[1..], x, y);
    }
  }

  // ---- Lists without repetitions ----

  predicate NoRepeats(items: seq<string>) { forall i, j :: 0 <= i < j < |items| ==> items[i] != items[j] }

  lemma ToSetMeans(items: seq<string>)
    ensures forall x :: x in ToSet(items) <==> x in items
  {
  }

  /** A list without repetitions has each of its items once. */
  lemma {:induction false} NoRepeatsSet(items: seq<string>)
    requires NoRepeats(items)
    ensures multiset(items) == multiset(ToSet(items))
    decreases |items|
  {
    if items != [] {
      var rest := items[1..];
      NoRepeatsSet(rest);
      assert items == [items[0]] + rest;
      assert ToSet(items) == {items[0]} + ToSet(rest);
      forall i | 0 <= i < |rest|
        ensures rest[i] != items[0]
      {
        assert rest[i] == items[i + 1];
      }
    }
  }

  // ---- Sorted lists ----

  ghost predicate StrictlySorted(items: seq<string>) {
    forall i, j :: 0 <= i < j < |items| ==> Before(items[i], items[j])
  }

  ghost predicate Sorted(items: seq<string>) {
    forall i, j :: 0 <= i < j < |items| ==> !Before(items[j], items[i])
  }

  function Insert(item: string, sorted: seq<string>): (r: seq<string>)
    ensures |r| == |sorted| + 1
    ensures multiset(r) == multiset(sorted) + multiset{item}
    decreases |sorted|
  {
    if sorted == [] then [item]
    else if Before(sorted[0], item) then
      assert sorted == [sorted[0]] + sorted[1..];
      [sorted[0]] + Insert(item, sorted[1..])
    else [item] + sorted
  }

  /** `Array.prototype.sort` without a comparator: any stable sort gives this result. */
  function Sort(items: seq<string>): (r: seq<string>)
    ensures |r| == |items|
    ensures multiset(r) == multiset(items)
    decreases |items|
  {
    if items == [] then []
    else
      assert items == [items[0]] + items[1..];
      Insert(items[0], Sort(items[1..]))
  }

  lemma {:induction false} InsertSorted(item: string, sorted: seq<string>)
    requires Sorted(sorted)
    ensures Sorted(Insert(item, sorted))
    decreases |sorted|
  {
    if sorted != [] {
      var head, tail := sorted[0], sorted[1..];
      if Before(head, item) {
        InsertSorted(item, tail);
        var rest := Insert(item, tail);
        forall j | 0 <= j < |rest|
          ensures !Before(rest[j], head)
        {
          assert rest[j] in multiset(rest);
          if rest[j] == item { BeforeAsymmetric(head, item); } else { assert rest[j] in tail; }
        }
      } else {
        forall j | 0 <= j < |sorted|
          ensures !Before(sorted[j], item)
        {
          if j > 0 && Before(sorted[j], item) {
            BeforeTotal(head, item);
            if head != item { BeforeTransitive(sorted[j], item, head); }
          }
        }
      }
    }
  }

  lemma {:induction false} SortSorted(items: seq<string>)
    ensures Sorted(Sort(items))
    decreases |items|
  {
    if items != [] {
      SortSorted(items[1..]);
      InsertSorted(items[0], Sort(items[1..]));
    }
  }

  /** A sorted list is determined by its elements and their multiplicities. */
  lemma {:induction false} SortedUnique(a: seq<string>, b: seq<string>)
    requires Sorted(a) && Sorted(b) && multiset(a) == multiset(b)
    ensures a == b
    decreases |a|
  {
    assert |a| == |multiset(a)| && |b| == |multiset(b)|;
    if a != [] {
      SameHead(a, b);
      assert a == [a[0]] + a[1..] && b == [b[0]] + b[1..];
      assert multiset(a[1..]) == multiset(a) - multiset{a[0]};
      assert multiset(b[1..]) == multiset(b) - multiset{b[0]};
      SortedUnique(a[1..], b[1..]);
    }
  }

  lemma SameHead(a: seq<string>, b: seq<string>)
    requires a != [] && b != [] && Sorted(a) && Sorted(b) && multiset(a) == multiset(b)
    ensures a[0] == b[0]
  {
    assert a[0] in multiset(b) && b[0] in multiset(a);
    var i :| 0 <= i < |b| && b[i] == a[0];
    var j :| 0 <= j < |a| && a[j] == b[0];
    BeforeTotal(a[0], b[0]);
  }

  lemma SortUnique(a: seq<string>, b: seq<string>)
    ensures Sort(a) == Sort(b) <==> multiset(a) == multiset(b)
  {
    SortSorted(a);
    SortSorted(b);
    if multiset(a) == multiset(b) { SortedUnique(Sort(a), Sort(b)); }
  }
}
