/** The history check between two manifests, and what it adds up to over a run of changes. */
module ManifestHistory {
  import opened Basics
  import opened Ordering
  import opened MigrationManifest

  /** Every file a manifest binds, section by section. */
  function Bound(m: Manifest): seq<string> {
    Files(Entries(m.legacy))
    + (if m.V1? then [] else Files(Entries(m.qualified.plan)))
    + (if m.V3? then Files(Entries(m.admin.plan)) else [])
  }

  /** The distinct files of `current` that `before` does not have, in order of first occurrence. */
  function NewFiles(current: seq<string>, before: set<string>): seq<string>
    decreases |current|
  {
    if current == [] then []
    else if current[0] in before then NewFiles(current[1..], before)
    else [current[0]] + NewFiles(current[1..], before + {current[0]})
  }

  function Appended(previous: Manifest, current: Manifest): seq<string> {
    NewFiles(Bound(current), ToSet(Bound(previous)))
  }

  datatype HistoryError =
    | LegacyPrefix | QualifiedPrefix | QualifiedInventoryChanged | AdminPrefix | AdminInventoryChanged
    | WrongAdditions | LegacyInventoryChanged | ChangedWithoutAddition

  function QualifiedErrors(previous: Manifest, current: Manifest): seq<HistoryError> {
    if previous.V1? then []
    else if current.V1? || previous.qualified.plan.baseline != current.qualified.plan.baseline
            || !IsPrefix(previous.qualified.plan.forward, current.qualified.plan.forward) then [QualifiedPrefix]
    else if |current.qualified.plan.forward| == |previous.qualified.plan.forward|
            && current.qualified.inventory != previous.qualified.inventory then [QualifiedInventoryChanged]
    else []
  }

  function AdminErrors(previous: Manifest, current: Manifest): seq<HistoryError> {
    if !previous.V3? then []
    else if !current.V3? || previous.admin.plan.baseline != current.admin.plan.baseline
            || !IsPrefix(previous.admin.plan.forward, current.admin.plan.forward) then [AdminPrefix]
    else if |current.admin.plan.forward| == |previous.admin.plan.forward|
            && current.admin.inventory != previous.admin.inventory then [AdminInventoryChanged]
    else []
  }

  /** The errors of changing `previous` into `current` when exactly `added` was added. */
  function HistoryErrors(previous: Manifest, current: Manifest, added: seq<string>): seq<HistoryError> {
    if || Version(current) < Version(previous) || previous.legacy.baseline != current.legacy.baseline
       || !IsPrefix(previous.legacy.forward, current.legacy.forward) then [LegacyPrefix]
    else
      var appended := Appended(previous, current);
      QualifiedErrors(previous, current)
      + AdminErrors(previous, current)
      + When(Sort(appended) != Sort(added), WrongAdditions)
      + When(|current.legacy.forward| == |previous.legacy.forward| && current.inventory != previous.inventory, LegacyInventoryChanged)
      + When(appended == [] && previous != current, ChangedWithoutAddition)
  }

  function When(failed: bool, error: HistoryError): (errors: seq<HistoryError>)
    ensures errors == [] <==> !failed
  {
    if failed then [error] else []
  }

  predicate Accepts(previous: Manifest, current: Manifest, added: seq<string>) {
    HistoryErrors(previous, current, added) == []
  }

  // ---- One accepted change ----

  /** One section keeps its baseline and its issued forwards, and its inventory unless it grew. */
  ghost predicate SectionKept<I>(before: Plan, inventory: I, after: Plan, inventory': I) {
    && after.baseline == before.baseline
    && IsPrefix(before.forward, after.forward)
    && (|after.forward| == |before.forward| ==> inventory' == inventory)
  }

  /** Nothing issued is taken back: no section vanishes, and each is kept. */
  ghost predicate Kept(previous: Manifest, current: Manifest) {
    && Version(previous) <= Version(current)
    && SectionKept(previous.legacy, previous.inventory, current.legacy, current.inventory)
    && (!previous.V1? ==>
          !current.V1? && SectionKept(previous.qualified.plan, previous.qualified.inventory, current.qualified.plan, current.qualified.inventory))
    && (previous.V3? ==>
          current.V3? && SectionKept(previous.admin.plan, previous.admin.inventory, current.admin.plan, current.admin.inventory))
  }

  lemma {:induction false} NewFilesMeans(current: seq<string>, before: set<string>)
    ensures multiset(NewFiles(current, before)) == multiset(ToSet(current) - before)
    decreases |current|
  {
    if current != [] {
      var x := current[0];
      assert ToSet(current) == {x} + ToSet(current[1..]);
      if x in before {
        NewFilesMeans(current[1..], before);
        assert ToSet(current) - before == ToSet(current[1..]) - before;
      } else {
        NewFilesMeans(current[1..], before + {x});
        assert ToSet(current) - before == {x} + (ToSet(current[1..]) - (before + {x}));
      }
    }
  }

  /** What the check accepts: everything is kept, the additions are exactly the newly bound files, each once, and with
  no addition nothing changes at all. */
  lemma AcceptsMeans(previous: Manifest, current: Manifest, added: seq<string>)
    ensures Accepts(previous, current, added) <==>
      && Kept(previous, current)
      && multiset(added) == multiset(ToSet(Bound(current)) - ToSet(Bound(previous)))
      && (added == [] ==> previous == current)
  {
    hide *;
    var appended := Appended(previous, current);
    AppendedMeans(previous, current);
    SortUnique(appended, added);
    assert |multiset(appended)| == |appended| && |multiset(added)| == |added|;
    QualifiedErrorsMean(previous, current);
    AdminErrorsMean(previous, current);
    ErrorsUnfold(previous, current, added);
    KeptUnfolds(previous, current);
  }

  lemma AppendedMeans(previous: Manifest, current: Manifest)
    ensures multiset(Appended(previous, current)) == multiset(ToSet(Bound(current)) - ToSet(Bound(previous)))
  {
    NewFilesMeans(Bound(current), ToSet(Bound(previous)));
  }

  lemma ErrorsUnfold(previous: Manifest, current: Manifest, added: seq<string>)
    ensures Accepts(previous, current, added) <==>
      && Version(previous) <= Version(current) && previous.legacy.baseline == current.legacy.baseline
      && IsPrefix(previous.legacy.forward, current.legacy.forward)
      && QualifiedErrors(previous, current) == [] && AdminErrors(previous, current) == []
      && Sort(Appended(previous, current)) == Sort(added)
      && (|current.legacy.forward| == |previous.legacy.forward| ==> current.inventory == previous.inventory)
      && (Appended(previous, current) == [] ==> previous == current)
  {
    hide Sort, Appended, QualifiedErrors, AdminErrors, IsPrefix, Version, When;
    var appended := Appended(previous, current);
    AllEmpty(QualifiedErrors(previous, current), AdminErrors(previous, current),
             When(Sort(appended) != Sort(added), WrongAdditions),
             When(|current.legacy.forward| == |previous.legacy.forward| && current.inventory != previous.inventory, LegacyInventoryChanged),
             When(appended == [] && previous != current, ChangedWithoutAddition));
  }

  lemma KeptUnfolds(previous: Manifest, current: Manifest)
    ensures Kept(previous, current) <==>
      && Version(previous) <= Version(current) && current.legacy.baseline == previous.legacy.baseline
      && IsPrefix(previous.legacy.forward, current.legacy.forward)
      && (|current.legacy.forward| == |previous.legacy.forward| ==> current.inventory == previous.inventory)
      && (!previous.V1? ==>
            !current.V1? && SectionKept(previous.qualified.plan, previous.qualified.inventory, current.qualified.plan, current.qualified.inventory))
      && (previous.V3? ==>
            current.V3? && SectionKept(previous.admin.plan, previous.admin.inventory, current.admin.plan, current.admin.inventory))
  {
    hide IsPrefix, Version;
  }

  lemma AllEmpty<T>(a: seq<T>, b: seq<T>, c: seq<T>, d: seq<T>, e: seq<T>)
    ensures a + b + c + d + e == [] <==> a == [] && b == [] && c == [] && d == [] && e == []
  {
    assert |a + b + c + d + e| == |a| + |b| + |c| + |d| + |e|;
  }

  lemma QualifiedErrorsMean(previous: Manifest, current: Manifest)
    ensures QualifiedErrors(previous, current) == [] <==>
      (!previous.V1? ==>
         !current.V1? && SectionKept(previous.qualified.plan, previous.qualified.inventory, current.qualified.plan, current.qualified.inventory))
  {
  }

  lemma AdminErrorsMean(previous: Manifest, current: Manifest)
    ensures AdminErrors(previous, current) == [] <==>
      (previous.V3? ==>
         current.V3? && SectionKept(previous.admin.plan, previous.admin.inventory, current.admin.plan, current.admin.inventory))
  {
  }

  lemma FilesPrefix(a: seq<Entry>, b: seq<Entry>)
    requires IsPrefix(a, b)
    ensures ToSet(Files(a)) <= ToSet(Files(b))
  {
    forall f | f in ToSet(Files(a))
      ensures f in ToSet(Files(b))
    {
      var i :| 0 <= i < |a| && Files(a)[i] == f;
      assert a[i] == b[..|a|][i] && Files(b)[i] == f;
    }
  }

  lemma SectionFiles(a: Plan, b: Plan)
    requires a.baseline == b.baseline && IsPrefix(a.forward, b.forward)
    ensures ToSet(Files(Entries(a))) <= ToSet(Files(Entries(b)))
  {
    assert Entries(b)[..|Entries(a)|] == Entries(a);
    FilesPrefix(Entries(a), Entries(b));
  }

  lemma ToSetConcat(a: seq<string>, b: seq<string>)
    ensures ToSet(a + b) == ToSet(a) + ToSet(b)
  {
  }

  /** A kept manifest still binds every file. */
  lemma KeptFiles(previous: Manifest, current: Manifest)
    requires Kept(previous, current)
    ensures ToSet(Bound(previous)) <= ToSet(Bound(current))
  {
    BoundMeans(previous);
    BoundMeans(current);
    SectionFiles(previous.legacy, current.legacy);
    if !previous.V1? { SectionFiles(previous.qualified.plan, current.qualified.plan); }
    if previous.V3? { SectionFiles(previous.admin.plan, current.admin.plan); }
    hide Bound, Files, Entries;
  }

  lemma BoundMeans(m: Manifest)
    ensures ToSet(Bound(m)) ==
      ToSet(Files(Entries(m.legacy)))
      + (if m.V1? then {} else ToSet(Files(Entries(m.qualified.plan))))
      + (if m.V3? then ToSet(Files(Entries(m.admin.plan))) else {})
  {
    var legacy := Files(Entries(m.legacy));
    var qualified := if m.V1? then [] else Files(Entries(m.qualified.plan));
    var admin := if m.V3? then Files(Entries(m.admin.plan)) else [];
    ToSetConcat(legacy + qualified, admin);
    ToSetConcat(legacy, qualified);
  }

  lemma PrefixTransitive<T>(a: seq<T>, b: seq<T>, c: seq<T>)
    requires IsPrefix(a, b) && IsPrefix(b, c)
    ensures IsPrefix(a, c)
    ensures |a| == |c| ==> |a| == |b|
  {
    assert c[..|a|] == c[..|b|][..|a|];
  }

  lemma SectionTransitive<I>(a: Plan, i: I, b: Plan, j: I, c: Plan, k: I)
    requires SectionKept(a, i, b, j) && SectionKept(b, j, c, k)
    ensures SectionKept(a, i, c, k)
  {
    PrefixTransitive(a.forward, b.forward, c.forward);
  }

  lemma KeptTransitive(a: Manifest, b: Manifest, c: Manifest)
    requires Kept(a, b) && Kept(b, c)
    ensures Kept(a, c)
  {
    SectionTransitive(a.legacy, a.inventory, b.legacy, b.inventory, c.legacy, c.inventory);
    if !a.V1? {
      SectionTransitive(a.qualified.plan, a.qualified.inventory, b.qualified.plan, b.qualified.inventory, c.qualified.plan, c.qualified.inventory);
    }
    if a.V3? {
      SectionTransitive(a.admin.plan, a.admin.inventory, b.admin.plan, b.admin.inventory, c.admin.plan, c.admin.inventory);
    }
    hide SectionKept;
  }

  // ---- Changes compose ----

  lemma DisjointSum(x: set<string>, y: set<string>)
    requires x !! y
    ensures multiset(x + y) == multiset(x) + multiset(y)
  {
  }

  /** Two accepted changes in a row are one accepted change, whose additions are both lists; the lists share no file. */
  lemma HistoriesCompose(a: Manifest, b: Manifest, c: Manifest, first: seq<string>, second: seq<string>)
    requires Accepts(a, b, first) && Accepts(b, c, second)
    ensures Accepts(a, c, first + second)
    ensures forall f :: f in first ==> f !in second
  {
    AcceptsMeans(a, b, first);
    AcceptsMeans(b, c, second);
    AcceptsMeans(a, c, first + second);
    hide Accepts;
    KeptTransitive(a, b, c);
    KeptFiles(a, b);
    KeptFiles(b, c);
    hide *;
    var x, y, z := ToSet(Bound(a)), ToSet(Bound(b)), ToSet(Bound(c));
    assert z - x == (y - x) + (z - y);
    DisjointSum(y - x, z - y);
    assert multiset(first + second) == multiset(first) + multiset(second);
    forall f | f in first
      ensures f !in second
    {
      assert f in multiset(first) && (f in second <==> f in multiset(second));
    }
  }

  lemma UnchangedAccepted(m: Manifest)
    ensures Accepts(m, m, [])
  {
    AcceptsMeans(m, m, []);
    hide Accepts, Bound;
  }

  function Concat(lists: seq<seq<string>>): seq<string> {
    if lists == [] then [] else Concat(lists[..|lists| - 1]) + lists[|lists| - 1]
  }

  ghost predicate AcceptedRun(manifests: seq<Manifest>, additions: seq<seq<string>>) {
    && |manifests| == |additions| + 1
    && forall i :: 0 <= i < |additions| ==> Accepts(manifests[i], manifests[i + 1], additions[i])
  }

  /** Over any run of accepted changes, the whole stretch from `i` to `j` is one accepted change that adds what its
  steps added, no file is added twice, and nothing issued is ever taken back. */
  lemma {:induction false} RunAccepted(manifests: seq<Manifest>, additions: seq<seq<string>>, i: nat, j: nat)
    requires AcceptedRun(manifests, additions) && i <= j <= |additions|
    ensures |manifests| == |additions| + 1
    ensures Accepts(manifests[i], manifests[j], Concat(additions[i..j]))
    ensures Kept(manifests[i], manifests[j])
    ensures NoRepeats(Concat(additions[i..j]))
    decreases j - i
  {
    hide *;
    LengthOfRun(manifests, additions);
    if i == j {
      UnchangedAccepted(manifests[i]);
      AcceptsMeans(manifests[i], manifests[i], []);
      assert additions[i..i] == [];
      ConcatUnfolds([]);
    } else {
      RunAccepted(manifests, additions, i, j - 1);
      StepOfRun(manifests, additions, j - 1);
      var lists := additions[i..j];
      assert lists[..|lists| - 1] == additions[i..j - 1] && lists[|lists| - 1] == additions[j - 1];
      HistoriesCompose(manifests[i], manifests[j - 1], manifests[j], Concat(additions[i..j - 1]), additions[j - 1]);
      ConcatUnfolds(lists);
      AcceptsMeans(manifests[i], manifests[j], Concat(lists));
      SetListsOnce(Concat(lists), ToSet(Bound(manifests[j])) - ToSet(Bound(manifests[i])));
    }
  }

  lemma LengthOfRun(manifests: seq<Manifest>, additions: seq<seq<string>>)
    requires AcceptedRun(manifests, additions)
    ensures |manifests| == |additions| + 1
  {
  }

  lemma StepOfRun(manifests: seq<Manifest>, additions: seq<seq<string>>, k: nat)
    requires AcceptedRun(manifests, additions) && k < |additions|
    ensures |manifests| == |additions| + 1 && Accepts(manifests[k], manifests[k + 1], additions[k])
  {
    hide Accepts;
  }

  lemma ConcatUnfolds(lists: seq<seq<string>>)
    ensures Concat(lists) == if lists == [] then [] else Concat(lists[..|lists| - 1]) + lists[|lists| - 1]
    ensures lists == [] ==> NoRepeats(Concat(lists))
  {
  }

  lemma SetListsOnce(items: seq<string>, s: set<string>)
    requires multiset(items) == multiset(s)
    ensures NoRepeats(items)
  {
    forall i, j | 0 <= i < j < |items|
      ensures items[i] != items[j]
    {
      var x, rest := items[i], items[i + 1..];
      assert items == items[..i] + [x] + rest;
      assert multiset(items)[x] >= 1 + multiset(rest)[x];
      assert multiset(s)[x] <= 1;
      assert items[j] == rest[j - i - 1] && (x in rest <==> x in multiset(rest));
    }
  }

  /** A file bound at some position of a section keeps its position and its digest for the rest of the run. */
  lemma BoundFilesFrozen(manifests: seq<Manifest>, additions: seq<seq<string>>, i: nat, j: nat, k: nat)
    requires AcceptedRun(manifests, additions) && i <= j <= |additions|
    ensures k < |manifests[i].legacy.forward| ==>
      k < |manifests[j].legacy.forward| && manifests[j].legacy.forward[k] == manifests[i].legacy.forward[k]
    ensures !manifests[i].V1? && k < |manifests[i].qualified.plan.forward| ==>
      && !manifests[j].V1? && k < |manifests[j].qualified.plan.forward|
      && manifests[j].qualified.plan.forward[k] == manifests[i].qualified.plan.forward[k]
    ensures manifests[i].V3? && k < |manifests[i].admin.plan.forward| ==>
      && manifests[j].V3? && k < |manifests[j].admin.plan.forward|
      && manifests[j].admin.plan.forward[k] == manifests[i].admin.plan.forward[k]
  {
    RunAccepted(manifests, additions, i, j);
    hide AcceptedRun, Accepts;
    PrefixAt(manifests[i].legacy.forward, manifests[j].legacy.forward, k);
    if !manifests[i].V1? { PrefixAt(manifests[i].qualified.plan.forward, manifests[j].qualified.plan.forward, k); }
    if manifests[i].V3? { PrefixAt(manifests[i].admin.plan.forward, manifests[j].admin.plan.forward, k); }
  }

  lemma PrefixAt<T>(a: seq<T>, b: seq<T>, k: nat)
    requires IsPrefix(a, b)
    ensures k < |a| ==> b[k] == a[k]
  {
    if k < |a| { assert b[..|a|][k] == b[k]; }
  }
}
