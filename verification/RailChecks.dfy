/** The two checks of the migration directories as their loops run them. */
module RailChecks {
  import opened Basics
  import opened Ordering
  import opened MigrationManifest
  import opened ManifestGenerations
  import opened MigrationRails
  import History = ManifestHistory
  import Selection = ManifestSelection

  // ---- Names ----

  /** A qualified file is a platform file, and not timestamped. */
  lemma QualifiedNotForward(path: string)
    requires IsQualifiedPath(path)
    ensures !IsForward(path) && OnRail(path, PLATFORM_RAIL) && !OnRail(path, MANAGED_RAIL)
  {
    QualifiedName(path);
    hide IsQualifiedPath;
    RailsApart(path);
    assert path[|PLATFORM_RAIL|..][0] == 'q';
  }

  lemma QualifiedName(path: string)
    requires IsQualifiedPath(path)
    ensures |path| > |DIR| + 3 && path[..|DIR|] == DIR && path[|DIR|] == 'q'
    ensures DIR == PLATFORM_RAIL
  {
    assert path[..|DIR| + 3] in {Q2, QA, QB};
    assert path[..|DIR|] == path[..|DIR| + 3][..|DIR|];
  }

  lemma RailsApart(path: string)
    ensures !(OnRail(path, PLATFORM_RAIL) && OnRail(path, MANAGED_RAIL))
  {
    assert OnRail(path, PLATFORM_RAIL) ==> path[..|PLATFORM_RAIL|][0] == 'd';
    assert OnRail(path, MANAGED_RAIL) ==> path[..|MANAGED_RAIL|][0] == 's';
  }

  // ---- The last version of a rail ----

  method LastVersion(paths: seq<string>, rail: string, strict: bool) returns (v: string)
    ensures forall p :: p in paths && OnRail(p, rail) ==> !Before(v, Stamp(p, rail, strict))
    ensures v == "" || exists p :: p in paths && OnRail(p, rail) && v == Stamp(p, rail, strict)
  {
    hide OnRail, Stamp, Before, Sort;
    var stamps: seq<string> := [];
    for i := 0 to |paths|
      invariant forall p :: p in paths[..i] && OnRail(p, rail) ==> Stamp(p, rail, strict) in stamps
      invariant forall s :: s in stamps ==> exists p :: p in paths && OnRail(p, rail) && s == Stamp(p, rail, strict)
    {
      assert paths[..i + 1] == paths[..i] + [paths[i]];
      if OnRail(paths[i], rail) { stamps := stamps + [Stamp(paths[i], rail, strict)]; }
    }
    assert paths[..|paths|] == paths;
    v := LastOf(stamps);
  }

  method LastOf(stamps: seq<string>) returns (v: string)
    ensures forall s :: s in stamps ==> !Before(v, s)
    ensures if stamps == [] then v == "" else v in stamps
  {
    hide Before, Sort;
    if stamps == [] { return ""; }
    var sorted := Sort(stamps);
    SortSorted(stamps);
    v := sorted[|sorted| - 1];
    assert v in multiset(sorted);
    forall s | s in stamps
      ensures !Before(v, s)
    {
      assert s in multiset(stamps) && s in multiset(sorted);
      var i :| 0 <= i < |sorted| && sorted[i] == s;
      if i == |sorted| - 1 { BeforeIrreflexive(v); }
    }
  }

  /** A version is above the last one exactly if it is above them all. */
  lemma AboveLast(v: string, paths: seq<string>, rail: string, strict: bool, version: string)
    requires forall p :: p in paths && OnRail(p, rail) ==> !Before(v, Stamp(p, rail, strict))
    requires v == "" || exists p :: p in paths && OnRail(p, rail) && v == Stamp(p, rail, strict)
    requires version != ""
    ensures Before(v, version) <==> forall p :: p in paths && OnRail(p, rail) ==> Before(Stamp(p, rail, strict), version)
  {
    hide OnRail, Stamp;
    forall p | Before(v, version) && p in paths && OnRail(p, rail)
      ensures Before(Stamp(p, rail, strict), version)
    {
      var s := Stamp(p, rail, strict);
      BeforeTotal(s, v);
      if s != v { BeforeTransitive(s, v, version); }
    }
  }

  // ---- The additions of one rail ----

  /** The listed files that are timestamped files of the rail, in their order. */
  function OfRail(paths: seq<string>, rail: string): (r: seq<string>)
    ensures forall p :: p in r <==> p in paths && OnRail(p, rail) && !IsQualifiedPath(p)
    decreases |paths|
  {
    if paths == [] then []
    else (if OnRail(paths[0], rail) && !IsQualifiedPath(paths[0]) then [paths[0]] else []) + OfRail(paths[1..], rail)
  }

  lemma {:induction false} OfRailSorted(paths: seq<string>, rail: string)
    requires StrictlySorted(paths)
    ensures StrictlySorted(OfRail(paths, rail))
    decreases |paths|
  {
    if paths != [] {
      hide IsQualifiedPath, OnRail, Before;
      OfRailSorted(paths[1..], rail);
      var rest := OfRail(paths[1..], rail);
      forall p | p in rest
        ensures Before(paths[0], p)
      {
        var i :| 0 <= i < |paths| - 1 && paths[1..][i] == p;
        assert Before(paths[0], paths[i + 1]);
      }
    }
  }

  /** Sorting different items sorts them strictly. */
  lemma SortStrict(items: seq<string>)
    requires NoRepeats(items)
    ensures StrictlySorted(Sort(items))
    ensures forall p :: p in Sort(items) <==> p in items
  {
    SortSorted(items);
    var sorted := Sort(items);
    hide Sort, Before;
    forall p
      ensures p in sorted <==> p in items
    {
      assert p in multiset(sorted) <==> p in multiset(items);
    }
    History.SetListsOnce(sorted, ToSet(items)) by { NoRepeatsSet(items); }
    forall i, j | 0 <= i < j < |sorted|
      ensures Before(sorted[i], sorted[j])
    {
      BeforeTotal(sorted[i], sorted[j]);
    }
  }

  /** Walking the sorted additions of a rail from its last version. */
  method CheckRail(before: seq<string>, sorted: seq<string>, rail: string, strict: bool) returns (ok: bool)
    requires StrictlySorted(sorted)
    requires forall p :: p in sorted ==> ForwardOn(p, rail)
    ensures ok <==>
      && (forall p, q :: p in sorted && q in before && OnRail(q, rail) ==> Before(Stamp(q, rail, strict), VersionOf(p, rail)))
      && DistinctVersions(sorted, rail)
  {
    var version := LastVersion(before, rail, strict);
    ghost var start := version;
    hide Climbs, Before, Stamp, VersionOf, ForwardName, ForwardOn, OnRail;
    ok := true;
    var i := 0;
    while i < |sorted| && ok
      invariant 0 <= i <= |sorted|
      invariant Climbs(start, sorted, rail) <==> ok && Climbs(version, sorted[i..], rail)
      decreases |sorted| - i, ok
    {
      var next := VersionOf(sorted[i], rail);
      ClimbsUnfold(version, sorted[i..], rail);
      assert sorted[i..][1..] == sorted[i + 1..];
      if Before(version, next) { version := next; i := i + 1; } else { ok := false; }
    }
    if ok {
      assert sorted[i..] == [];
      ClimbsNone(version, rail);
    }
    ClimbsMeans(start, sorted, rail);
    AllAbove(start, before, sorted, rail, strict);
  }

  lemma ClimbsNone(version: string, rail: string)
    ensures Climbs(version, [], rail)
  {
  }

  lemma AllAbove(v: string, before: seq<string>, sorted: seq<string>, rail: string, strict: bool)
    requires forall p :: p in before && OnRail(p, rail) ==> !Before(v, Stamp(p, rail, strict))
    requires v == "" || exists p :: p in before && OnRail(p, rail) && v == Stamp(p, rail, strict)
    requires forall p :: p in sorted ==> ForwardOn(p, rail)
    ensures Above(v, sorted, rail) <==>
      forall p, q :: p in sorted && q in before && OnRail(q, rail) ==> Before(Stamp(q, rail, strict), VersionOf(p, rail))
  {
    hide Before, Stamp, ForwardName, OnRail, VersionOf;
    forall p | p in sorted
      ensures Before(v, VersionOf(p, rail)) <==>
        forall q :: q in before && OnRail(q, rail) ==> Before(Stamp(q, rail, strict), VersionOf(p, rail))
    {
      VersionFirst(p, p, rail);
      AboveLast(v, before, rail, strict, VersionOf(p, rail));
    }
  }

  // ---- The check of one change ----

  /** Every watched path present before or after, once, and the manifest. */
  ghost predicate Covers(paths: seq<string>, before: Snapshot, after: Snapshot) {
    NoRepeats(paths) && forall p :: p in paths <==> (Watched(p) || p == MANIFEST_PATH) && (p in before || p in after)
  }

  /** Nothing issued changed, and every addition is accepted. */
  ghost predicate PathsAccepted(before: Snapshot, after: Snapshot, admitted: string -> bool) {
    && (forall p :: p in before && Watched(p) ==> p in after && after[p] == before[p])
    && (forall p :: p in Additions(before, after) ==> AdditionAccepted(after, p, admitted))
  }

  lemma ManifestUnwatched()
    ensures !Watched(MANIFEST_PATH)
  {
    assert MANIFEST_PATH[0] == 'c';
    assert MANIFEST_PATH[..|PLATFORM_RAIL|][0] == 'c' && MANIFEST_PATH[..|MANAGED_RAIL|][0] == 'c';
  }

  method CollectAdditions(before: Snapshot, after: Snapshot, paths: seq<string>, admitted: string -> bool)
    returns (additions: Option<seq<string>>)
    requires Covers(paths, before, after)
    ensures additions.Some? <==> PathsAccepted(before, after, admitted)
    ensures additions.Some? ==> NoRepeats(additions.value) && ToSet(additions.value) == Additions(before, after)
  {
    ManifestUnwatched();
    hide Watched, AdditionAccepted;
    var found: seq<string> := [];
    for i := 0 to |paths|
      invariant forall p :: p in found <==> p in paths[..i] && p != MANIFEST_PATH && p !in before
      invariant NoRepeats(found)
      invariant forall p :: p in paths[..i] && p != MANIFEST_PATH ==>
        if p in before then p in after && after[p] == before[p] else p in after && AdditionAccepted(after, p, admitted)
    {
      var path := paths[i];
      assert paths[..i + 1] == paths[..i] + [path];
      assert path in paths;
      if path == MANIFEST_PATH || Unchanged(before, after, path) { continue; }
      if path in before || path !in after || !AdditionAccepted(after, path, admitted) { return None; }
      found := found + [path];
    }
    assert paths[..|paths|] == paths;
    return Some(found);
  }

  /** The listed files that the snapshot has. */
  function Present(paths: seq<string>, s: Snapshot): (r: seq<string>)
    ensures forall p :: p in r <==> p in paths && p in s
    decreases |paths|
  {
    if paths == [] then [] else (if paths[0] in s then [paths[0]] else []) + Present(paths[1..], s)
  }

  /** The listed files of a rail, qualified ones too. */
  function Starting(paths: seq<string>, rail: string): (r: seq<string>)
    ensures forall p :: p in r <==> p in paths && OnRail(p, rail)
    decreases |paths|
  {
    if paths == [] then [] else (if OnRail(paths[0], rail) then [paths[0]] else []) + Starting(paths[1..], rail)
  }

  lemma {:induction false} StartingDistinct(paths: seq<string>, rail: string)
    requires NoRepeats(paths)
    ensures NoRepeats(Starting(paths, rail))
    decreases |paths|
  {
    if paths != [] {
      StartingDistinct(paths[1..], rail);
      var rest := Starting(paths[1..], rail);
      forall p | p in rest
        ensures p != paths[0]
      {
        var i :| 0 <= i < |paths| - 1 && paths[1..][i] == p;
        assert paths[i + 1] == p;
      }
    }
  }

  /** Of a history check's additions only the multiset matters. */
  lemma AnyOrder(previous: Manifest, current: Manifest, a: seq<string>, b: seq<string>)
    requires multiset(a) == multiset(b)
    ensures History.Accepts(previous, current, a) <==> History.Accepts(previous, current, b)
  {
    hide *;
    History.AcceptsMeans(previous, current, a);
    History.AcceptsMeans(previous, current, b);
    assert |multiset(a)| == |a| && |multiset(b)| == |b|;
  }

  method CheckManifests(before: Snapshot, after: Snapshot, additions: seq<string>, paths: seq<string>, repo: Repository) returns (ok: bool)
    requires MANIFEST_PATH in before && MANIFEST_PATH in after
    requires NoRepeats(additions)
    requires forall p :: p in after && OnRail(p, PLATFORM_RAIL) ==> p in paths
    ensures ok <==> ManifestsAccepted(before, after, ToSet(additions), repo)
  {
    hide OnRail, ManifestAccepted, NoRepeats;
    hide History.Accepts, History.HistoryErrors;
    var listing := Starting(Present(paths, after), PLATFORM_RAIL);
    var errors := Selection.EvaluateManifest(ManifestAt(after, repo), Catalog(after, repo), listing, repo.digest);
    if errors != [] { return false; }
    var added := Starting(additions, PLATFORM_RAIL);
    StartingDistinct(additions, PLATFORM_RAIL);
    NoRepeatsSet(added);
    var platform := set p | p in ToSet(additions) && OnRail(p, PLATFORM_RAIL);
    assert ToSet(added) == platform;
    AnyOrder(ManifestAt(before, repo), ManifestAt(after, repo), added, Elements(platform));
    ok := History.Accepts(ManifestAt(before, repo), ManifestAt(after, repo), added);
  }

  lemma RailMeans(before: Snapshot, old': seq<string>, added: set<string>, sorted: seq<string>, rail: string, strict: bool)
    requires forall p :: p in sorted <==> p in added && ForwardOn(p, rail)
    requires forall p :: OnRail(p, rail) ==> (p in old' <==> p in before)
    ensures Increasing(before, added, rail, strict) <==>
      && (forall p, q :: p in sorted && q in old' && OnRail(q, rail) ==> Before(Stamp(q, rail, strict), VersionOf(p, rail)))
      && DistinctVersions(sorted, rail)
  {
    hide ForwardOn, OnRail, Stamp, VersionOf, Before;
  }

  /** Accepted files of a rail that are not qualified are its timestamped files. */
  lemma RailFiles(paths: seq<string>, rail: string)
    requires rail == PLATFORM_RAIL || rail == MANAGED_RAIL
    requires forall p :: p in paths ==> IsForward(p) || IsQualifiedPath(p)
    ensures forall p :: p in OfRail(paths, rail) <==> p in paths && ForwardOn(p, rail)
  {
    hide IsQualifiedPath, ForwardName, OfRail;
    forall p | p in paths
      ensures OnRail(p, rail) && !IsQualifiedPath(p) <==> ForwardOn(p, rail)
    {
      RailsApart(p);
      if IsQualifiedPath(p) { QualifiedNotForward(p); }
    }
  }

  method CheckChangeRail(before: Snapshot, old': seq<string>, additions: seq<string>, rail: string) returns (ok: bool)
    requires rail == PLATFORM_RAIL || rail == MANAGED_RAIL
    requires NoRepeats(additions) && forall p :: p in additions ==> IsForward(p) || IsQualifiedPath(p)
    requires forall p :: OnRail(p, rail) ==> (p in old' <==> p in before)
    ensures ok <==> Increasing(before, ToSet(additions), rail, false)
  {
    hide *;
    var mine := OfRail(additions, rail);
    RailFiles(additions, rail);
    OfRailDistinct(additions, rail);
    SortStrict(mine);
    var sorted := Sort(mine);
    ok := CheckRail(old', sorted, rail, false);
    ToSetMeans(additions);
    RailMeans(before, old', ToSet(additions), sorted, rail, false);
  }

  lemma {:induction false} OfRailDistinct(paths: seq<string>, rail: string)
    requires NoRepeats(paths)
    ensures NoRepeats(OfRail(paths, rail))
    decreases |paths|
  {
    if paths != [] {
      hide IsQualifiedPath, OnRail;
      OfRailDistinct(paths[1..], rail);
      var rest := OfRail(paths[1..], rail);
      forall p | p in rest
        ensures p != paths[0]
      {
        var i :| 0 <= i < |paths| - 1 && paths[1..][i] == p;
        assert paths[i + 1] == p;
      }
    }
  }

  /** The append-only check of one change. */
  method AssertAppendOnlyMigrationHistory(before: Snapshot, after: Snapshot, paths: seq<string>, repo: Repository, admitted: string -> bool)
    returns (ok: bool)
    requires Covers(paths, before, after)
    ensures ok <==> StepAccepted(before, after, repo, admitted)
  {
    hide *;
    StepMeans(before, after, repo, admitted);
    CoversRails(paths, before, after);
    var additions := CollectAdditions(before, after, paths, admitted);
    if additions.None? { return false; }
    var added := additions.value;
    ToSetMeans(added);
    AcceptedNames(before, after, admitted);
    var old' := Present(paths, before);
    ok := CheckChangeRail(before, old', added, PLATFORM_RAIL);
    if !ok { return; }
    ok := CheckChangeRail(before, old', added, MANAGED_RAIL);
    if !ok { return; }
    if Starting(added, MANAGED_RAIL) != [] && MANAGED_BASELINE !in before {
      assert Starting(added, MANAGED_RAIL)[0] in Starting(added, MANAGED_RAIL);
      return false;
    }
    if MANIFEST_PATH !in before || MANIFEST_PATH !in after { return false; }
    if before[MANIFEST_PATH].mode != REGULAR || after[MANIFEST_PATH].mode != REGULAR { return false; }
    ok := CheckManifests(before, after, added, paths, repo);
  }

  lemma StepMeans(before: Snapshot, after: Snapshot, repo: Repository, admitted: string -> bool)
    ensures StepAccepted(before, after, repo, admitted) <==>
      var added := Additions(before, after);
      && PathsAccepted(before, after, admitted)
      && Increasing(before, added, PLATFORM_RAIL, false)
      && Increasing(before, added, MANAGED_RAIL, false)
      && ((exists p :: p in added && OnRail(p, MANAGED_RAIL)) ==> MANAGED_BASELINE in before)
      && MANIFEST_PATH in before && MANIFEST_PATH in after
      && before[MANIFEST_PATH].mode == REGULAR && after[MANIFEST_PATH].mode == REGULAR
      && ManifestsAccepted(before, after, added, repo)
  {
    hide Additions, AdditionAccepted, Increasing, OnRail, Watched, ManifestsAccepted;
  }

  lemma CoversRails(paths: seq<string>, before: Snapshot, after: Snapshot)
    requires Covers(paths, before, after)
    ensures forall p :: OnRail(p, PLATFORM_RAIL) || OnRail(p, MANAGED_RAIL) ==> (p in paths <==> p in before || p in after)
  {
    hide OnRail, NoRepeats;
  }

  lemma AcceptedNames(before: Snapshot, after: Snapshot, admitted: string -> bool)
    requires PathsAccepted(before, after, admitted)
    ensures forall p :: p in Additions(before, after) ==> IsForward(p) || IsQualifiedPath(p)
  {
    hide Additions, IsForward, IsQualifiedPath;
    forall p | p in Additions(before, after)
      ensures IsForward(p) || IsQualifiedPath(p)
    {
      AdditionIn(before, after, p);
      assert AdditionAccepted(after, p, admitted);
    }
  }

  lemma AdditionIn(before: Snapshot, after: Snapshot, p: string)
    ensures p in Additions(before, after) <==> p in after && Watched(p) && p !in before
  {
    hide Watched;
  }

  // ---- The check between two releases ----

  /** Every schema-bearing path present in either release, in order. */
  ghost predicate CoversSchema(paths: seq<string>, old': Snapshot, target: Snapshot) {
    StrictlySorted(paths) && forall p :: p in paths <==> SchemaBearing(p) && (p in old' || p in target)
  }

  ghost predicate SchemaPathsAccepted(old': Snapshot, target: Snapshot, admitted: string -> bool) {
    && (MANIFEST_PATH in old' || MANIFEST_PATH in target ==>
          MANIFEST_PATH in old' && MANIFEST_PATH in target && old'[MANIFEST_PATH].mode == target[MANIFEST_PATH].mode)
    && (forall p :: p in old' && SchemaBearing(p) && p != MANIFEST_PATH ==> p in target && target[p] == old'[p])
    && (forall p :: p in SchemaAdditions(old', target) ==> ReleaseAdditionAccepted(target, p, admitted))
  }

  lemma ManifestNoMigration(target: Snapshot, admitted: string -> bool)
    ensures !IsForward(MANIFEST_PATH) && !IsQualifiedPath(MANIFEST_PATH)
  {
    ManifestUnwatched();
    if IsQualifiedPath(MANIFEST_PATH) { QualifiedNotForward(MANIFEST_PATH); }
  }

  method CollectSchemaAdditions(old': Snapshot, target: Snapshot, paths: seq<string>, admitted: string -> bool)
    returns (additions: Option<seq<string>>)
    requires CoversSchema(paths, old', target)
    ensures additions.Some? <==> SchemaPathsAccepted(old', target, admitted)
    ensures additions.Some? ==> StrictlySorted(additions.value) && ToSet(additions.value) == SchemaAdditions(old', target)
  {
    ManifestNoMigration(target, admitted);
    hide SchemaBearing, IsForward, IsQualifiedPath, BaselineName, Before;
    ManifestSchema();
    var found: seq<string> := [];
    for i := 0 to |paths|
      invariant forall p :: p in found <==> p in paths[..i] && p !in old'
      invariant StrictlySorted(found)
      invariant forall p :: p in paths[..i] ==>
        if p in old' then
          p in target && (target[p] == old'[p] || (p == MANIFEST_PATH && target[p].mode == old'[p].mode))
        else p in target && ReleaseAdditionAccepted(target, p, admitted)
    {
      var path := paths[i];
      assert paths[..i + 1] == paths[..i] + [path];
      assert path in paths;
      if Unchanged(old', target, path) { continue; }
      if path == MANIFEST_PATH && path in old' && path in target && old'[path].mode == target[path].mode { continue; }
      if path in old' || path !in target || !ReleaseAdditionAccepted(target, path, admitted) { return None; }
      forall p | p in found
        ensures Before(p, path)
      {
        var k :| 0 <= k < i && paths[..i][k] == p;
        assert Before(paths[k], paths[i]);
      }
      found := found + [path];
    }
    assert paths[..|paths|] == paths;
    return Some(found);
  }

  lemma ManifestSchema()
    ensures SchemaBearing(MANIFEST_PATH)
  {
  }

  /** The versions of a release's additions, in the order they were found. */
  method CheckReleaseRail(before: Snapshot, old': seq<string>, additions: seq<string>, rail: string) returns (ok: bool)
    requires rail == PLATFORM_RAIL || rail == MANAGED_RAIL
    requires StrictlySorted(additions) && forall p :: p in additions ==> IsForward(p) || IsQualifiedPath(p)
    requires forall p :: OnRail(p, rail) ==> (p in old' <==> p in before)
    ensures ok <==> Increasing(before, ToSet(additions), rail, true)
  {
    hide *;
    var mine := OfRail(additions, rail);
    RailFiles(additions, rail);
    OfRailSorted(additions, rail);
    ok := CheckRail(old', mine, rail, true);
    ToSetMeans(additions);
    RailMeans(before, old', ToSet(additions), mine, rail, true);
  }

  /** The schema check between two releases. */
  method AssertPlatformSchemaForwards(old': Snapshot, target: Snapshot, paths: seq<string>, repo: Repository, admitted: string -> bool)
    returns (ok: bool)
    requires CoversSchema(paths, old', target)
    ensures ok <==> ReleaseAccepted(old', target, repo, admitted)
  {
    hide *;
    ReleaseMeans(old', target, repo, admitted);
    SchemaRails(paths, old', target);
    var additions := CollectSchemaAdditions(old', target, paths, admitted);
    if additions.None? { return false; }
    var added := additions.value;
    ToSetMeans(added);
    SchemaNames(old', target, admitted);
    StrictDistinct(added);
    if Starting(added, MANAGED_RAIL) != [] && MANAGED_BASELINE !in old' {
      assert Starting(added, MANAGED_RAIL)[0] in Starting(added, MANAGED_RAIL);
      return false;
    }
    var present := Present(paths, old');
    ok := CheckReleaseRail(old', present, added, PLATFORM_RAIL);
    if !ok { return; }
    ok := CheckReleaseRail(old', present, added, MANAGED_RAIL);
    if !ok { return; }
    if MANIFEST_PATH !in old' || MANIFEST_PATH !in target { return false; }
    ok := CheckManifests(old', target, added, paths, repo);
  }

  lemma ReleaseMeans(old': Snapshot, target: Snapshot, repo: Repository, admitted: string -> bool)
    ensures ReleaseAccepted(old', target, repo, admitted) <==>
      var added := SchemaAdditions(old', target);
      && MANIFEST_PATH in old' && MANIFEST_PATH in target
      && SchemaPathsAccepted(old', target, admitted)
      && ((exists p :: p in added && OnRail(p, MANAGED_RAIL)) ==> MANAGED_BASELINE in old')
      && Increasing(old', added, PLATFORM_RAIL, true)
      && Increasing(old', added, MANAGED_RAIL, true)
      && ManifestsAccepted(old', target, added, repo)
  {
    hide SchemaAdditions, ReleaseAdditionAccepted, Increasing, OnRail, SchemaBearing, ManifestsAccepted;
  }

  lemma SchemaRails(paths: seq<string>, old': Snapshot, target: Snapshot)
    requires CoversSchema(paths, old', target)
    ensures forall p :: OnRail(p, PLATFORM_RAIL) || OnRail(p, MANAGED_RAIL) ==> (p in paths <==> p in old' || p in target)
  {
    hide OnRail, EndsSql, Before;
  }

  lemma SchemaNames(old': Snapshot, target: Snapshot, admitted: string -> bool)
    requires SchemaPathsAccepted(old', target, admitted)
    ensures forall p :: p in SchemaAdditions(old', target) ==> IsForward(p) || IsQualifiedPath(p)
  {
    hide SchemaBearing, IsForward, IsQualifiedPath, BaselineName;
  }

  lemma StrictDistinct(items: seq<string>)
    requires StrictlySorted(items)
    ensures NoRepeats(items)
  {
    hide Before;
    forall i, j | 0 <= i < j < |items|
      ensures items[i] != items[j]
    {
      assert Before(items[i], items[j]);
      BeforeIrreflexive(items[i]);
    }
  }
}
