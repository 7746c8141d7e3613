/** What accepted changes of the migration directories add up to.

The SQL of added files is admitted by a predicate of the two snapshots, so each law says for which pair it is asked.
*/
module RailLaws {
  import opened Ordering
  import opened MigrationManifest
  import opened ManifestGenerations
  import opened MigrationRails
  import RailChecks
  import Selection = ManifestSelection
  import History = ManifestHistory

  predicate AdmitAll(path: string) { true }

  // ---- The parts of an accepted change ----

  ghost predicate Kept(before: Snapshot, after: Snapshot) {
    forall p :: p in before && Watched(p) ==> p in after && after[p] == before[p]
  }

  ghost predicate Regular(s: Snapshot) { MANIFEST_PATH in s && s[MANIFEST_PATH].mode == REGULAR }

  ghost predicate Additive(before: Snapshot, after: Snapshot) {
    forall p :: p in Additions(before, after) ==> p in after && AdditionAccepted(after, p, AdmitAll)
  }

  ghost predicate ManagedGrounded(before: Snapshot, added: set<string>) {
    (exists p :: p in added && OnRail(p, MANAGED_RAIL)) ==> MANAGED_BASELINE in before
  }

  lemma StepParts(before: Snapshot, after: Snapshot, repo: Repository, admitted: string -> bool)
    ensures StepAccepted(before, after, repo, admitted) <==>
      var added := Additions(before, after);
      && Kept(before, after) && Additive(before, after) && (forall p :: p in added ==> admitted(p))
      && Increasing(before, added, PLATFORM_RAIL, false) && Increasing(before, added, MANAGED_RAIL, false)
      && ManagedGrounded(before, added)
      && Regular(before) && Regular(after) && ManifestsAccepted(before, after, added, repo)
  {
    RailChecks.StepMeans(before, after, repo, admitted);
    hide Increasing, OnRail, Watched, ManifestsAccepted, IsForward, IsQualifiedPath, IsBaseline, StepAccepted;
    forall p | p in Additions(before, after)
      ensures p in after && (AdditionAccepted(after, p, admitted) <==> AdditionAccepted(after, p, AdmitAll) && admitted(p))
    {
      RailChecks.AdditionIn(before, after, p);
    }
  }

  // ---- Two changes ----

  lemma AdditionsCompose(a: Snapshot, b: Snapshot, c: Snapshot)
    requires Kept(a, b) && Kept(b, c)
    ensures Kept(a, c)
    ensures Additions(a, c) == Additions(a, b) + Additions(b, c)
    ensures Additions(a, b) !! Additions(b, c)
  {
    hide Watched;
  }

  lemma AdditiveCompose(a: Snapshot, b: Snapshot, c: Snapshot)
    requires Kept(a, b) && Kept(b, c) && Additive(a, b) && Additive(b, c)
    ensures Additive(a, c)
  {
    AdditionsCompose(a, b, c);
    hide Watched, IsForward, IsQualifiedPath, IsBaseline;
    forall p | p in Additions(a, c)
      ensures p in c && AdditionAccepted(c, p, AdmitAll)
    {
      if p in Additions(a, b) { assert AdditionAccepted(b, p, AdmitAll); }
    }
  }

  /** The version of a timestamped file is what it blocks. */
  lemma StampOfForward(p: string, rail: string, strict: bool)
    requires ForwardOn(p, rail)
    ensures Stamp(p, rail, strict) == VersionOf(p, rail)
  {
    assert p[|rail|..][..14] == p[|rail|..|rail| + 14];
  }

  lemma IncreasingCompose(a: Snapshot, b: Snapshot, c: Snapshot, rail: string)
    requires rail == PLATFORM_RAIL || rail == MANAGED_RAIL
    requires Kept(a, b) && Kept(b, c)
    requires Increasing(a, Additions(a, b), rail, false) && Increasing(b, Additions(b, c), rail, false)
    ensures Increasing(a, Additions(a, c), rail, false)
  {
    AdditionsCompose(a, b, c);
    var first, second := Additions(a, b), Additions(b, c);
    forall p | OnRail(p, rail)
      ensures Watched(p)
    {
    }
    forall p, q | p in first && q in second && ForwardOn(p, rail) && ForwardOn(q, rail)
      ensures VersionOf(p, rail) != VersionOf(q, rail)
    {
      RailChecks.AdditionIn(a, b, p);
      StampOfForward(p, rail, false);
      assert Before(Stamp(p, rail, false), VersionOf(q, rail));
      BeforeIrreflexive(VersionOf(q, rail));
    }
    hide Additions, ForwardName, Stamp, VersionOf, Before, OnRail, Watched;
  }

  /** The added platform files of two changes together. */
  function OnPlatform(added: set<string>): set<string> { set p | p in added && OnRail(p, PLATFORM_RAIL) }

  lemma ManifestsCompose(a: Snapshot, b: Snapshot, c: Snapshot, first: set<string>, second: set<string>, repo: Repository)
    requires first !! second
    requires MANIFEST_PATH in a && MANIFEST_PATH in b && MANIFEST_PATH in c
    requires ManifestsAccepted(a, b, first, repo) && ManifestsAccepted(b, c, second, repo)
    ensures ManifestsAccepted(a, c, first + second, repo)
  {
    ManifestsOpen(a, b, first, repo);
    ManifestsOpen(b, c, second, repo);
    ManifestsOpen(a, c, first + second, repo);
    PlatformSum(first, second);
    hide *;
    var x, y, z := Elements(OnPlatform(first)), Elements(OnPlatform(second)), Elements(OnPlatform(first + second));
    var m, n, o := ManifestAt(a, repo), ManifestAt(b, repo), ManifestAt(c, repo);
    History.HistoriesCompose(m, n, o, x, y);
    RailChecks.AnyOrder(m, o, x + y, z);
  }

  lemma PlatformSum(first: set<string>, second: set<string>)
    requires first !! second
    ensures multiset(Elements(OnPlatform(first + second))) == multiset(Elements(OnPlatform(first)) + Elements(OnPlatform(second)))
  {
    hide Elements, OnRail;
    assert OnPlatform(first + second) == OnPlatform(first) + OnPlatform(second);
    History.DisjointSum(OnPlatform(first), OnPlatform(second));
  }

  lemma ManifestsOpen(a: Snapshot, b: Snapshot, added: set<string>, repo: Repository)
    requires MANIFEST_PATH in a && MANIFEST_PATH in b
    ensures ManifestsAccepted(a, b, added, repo) <==>
      && ManifestAccepted(ManifestAt(b, repo), Catalog(b, repo), repo.digest)
      && History.Accepts(ManifestAt(a, repo), ManifestAt(b, repo), Elements(OnPlatform(added)))
  {
    hide Elements, OnRail, ManifestAccepted, Catalog, ManifestAt;
    hide History.Accepts;
  }

  /** Two accepted changes in a row are one accepted change, as far as the SQL of what it adds is admitted. */
  lemma StepsCompose(a: Snapshot, b: Snapshot, c: Snapshot, repo: Repository, first: string -> bool, second: string -> bool)
    requires StepAccepted(a, b, repo, first) && StepAccepted(b, c, repo, second)
    ensures StepAccepted(a, c, repo, AdmitAll)
  {
    StepParts(a, b, repo, first);
    StepParts(b, c, repo, second);
    StepParts(a, c, repo, AdmitAll);
    hide *;
    AdditionsCompose(a, b, c);
    AdditiveCompose(a, b, c);
    IncreasingCompose(a, b, c, PLATFORM_RAIL);
    IncreasingCompose(a, b, c, MANAGED_RAIL);
    RegularHas(a);
    RegularHas(b);
    RegularHas(c);
    ManifestsCompose(a, b, c, Additions(a, b), Additions(b, c), repo);
    GroundedCompose(a, b, c);
    AdmitsAll();
  }

  lemma AdmitsAll()
    ensures forall p :: AdmitAll(p)
  {
  }

  lemma RegularHas(s: Snapshot)
    requires Regular(s)
    ensures MANIFEST_PATH in s
  {
  }

  lemma GroundedCompose(a: Snapshot, b: Snapshot, c: Snapshot)
    requires Kept(a, b) && Kept(b, c) && Additive(a, b)
    requires ManagedGrounded(a, Additions(a, b)) && ManagedGrounded(b, Additions(b, c))
    ensures ManagedGrounded(a, Additions(a, c))
  {
    AdditionsCompose(a, b, c);
    BaselineOld(a, b);
    hide Additions, OnRail, Kept, Additive;
  }

  /** No change adds a baseline. */
  lemma BaselineOld(a: Snapshot, b: Snapshot)
    requires Additive(a, b)
    ensures MANAGED_BASELINE in b ==> MANAGED_BASELINE in a
    ensures PLATFORM_BASELINE in b ==> PLATFORM_BASELINE in a
  {
    BaselinesWatched();
    RailChecks.AdditionIn(a, b, MANAGED_BASELINE);
    RailChecks.AdditionIn(a, b, PLATFORM_BASELINE);
    hide Additions, Watched, IsForward, IsQualifiedPath;
    assert forall p :: p in Additions(a, b) ==> !IsBaseline(p);
  }

  lemma BaselinesWatched()
    ensures Watched(MANAGED_BASELINE) && Watched(PLATFORM_BASELINE)
    ensures OnRail(MANAGED_BASELINE, MANAGED_RAIL) && OnRail(PLATFORM_BASELINE, PLATFORM_RAIL)
  {
  }

  // ---- Runs of changes ----

  ghost predicate AcceptedRun(snapshots: seq<Snapshot>, repo: Repository, admissions: seq<string -> bool>) {
    && |snapshots| == |admissions| + 1
    && forall k :: 0 <= k < |admissions| ==> StepAccepted(snapshots[k], snapshots[k + 1], repo, admissions[k])
  }

  lemma StepOfRun(snapshots: seq<Snapshot>, repo: Repository, admissions: seq<string -> bool>, k: nat)
    requires AcceptedRun(snapshots, repo, admissions) && k < |admissions|
    ensures |snapshots| == |admissions| + 1
    ensures StepAccepted(snapshots[k], snapshots[k + 1], repo, admissions[k])
    ensures StepAccepted(snapshots[k], snapshots[k + 1], repo, AdmitAll)
  {
    StepParts(snapshots[k], snapshots[k + 1], repo, admissions[k]);
    StepParts(snapshots[k], snapshots[k + 1], repo, AdmitAll);
    hide StepAccepted, Kept, Additive, Additions, Increasing, ManagedGrounded, Regular, ManifestsAccepted;
  }

  /** Over any run of accepted changes, the check of the whole stretch accepts it exactly if the SQL of everything added
  on the way is admitted for it. */
  lemma {:induction false} RunAccepted(snapshots: seq<Snapshot>, repo: Repository, admissions: seq<string -> bool>, i: nat, j: nat,
                                       admitted: string -> bool)
    requires AcceptedRun(snapshots, repo, admissions) && i < j <= |admissions|
    ensures |snapshots| == |admissions| + 1
    ensures StepAccepted(snapshots[i], snapshots[j], repo, admitted)
            <==> forall p :: p in Additions(snapshots[i], snapshots[j]) ==> admitted(p)
    decreases j - i
  {
    hide *;
    StepOfRun(snapshots, repo, admissions, j - 1);
    AdmitsAll();
    if i < j - 1 {
      RunAccepted(snapshots, repo, admissions, i, j - 1, AdmitAll);
      StepsCompose(snapshots[i], snapshots[j - 1], snapshots[j], repo, AdmitAll, AdmitAll);
    }
    StepParts(snapshots[i], snapshots[j], repo, AdmitAll);
    StepParts(snapshots[i], snapshots[j], repo, admitted);
  }

  // ---- One rail over a run ----

  /** `list` is the timestamped files of a rail in file-name order. */
  ghost predicate Listing(list: seq<string>, s: Snapshot, rail: string) {
    StrictlySorted(list) && forall p :: p in list <==> p in s && ForwardOn(p, rail)
  }

  /** A sorted list that gains only larger items has what it had as a prefix. */
  lemma {:induction false} SortedPrefix(a: seq<string>, b: seq<string>)
    requires StrictlySorted(a) && StrictlySorted(b)
    requires forall x :: x in a ==> x in b
    requires forall x, y :: x in a && y in b && y !in a ==> Before(x, y)
    ensures |a| <= |b| && b[..|a|] == a
    decreases |a|
  {
    hide Before;
    if a != [] {
      var x := a[0];
      assert x in b;
      var k :| 0 <= k < |b| && b[k] == x;
      HeadFirst(a, b, k);
      var a', b' := a[1..], b[1..];
      forall y | y in a'
        ensures y in b'
      {
        StrictHead(a, y);
        assert y in b;
      }
      forall y | y in b' && y !in a'
        ensures y !in a
      {
        StrictHead(b, y);
      }
      SortedPrefix(a', b');
    }
  }

  lemma StrictHead(a: seq<string>, y: string)
    requires StrictlySorted(a) && a != [] && y in a[1..]
    ensures y != a[0]
  {
    var i :| 0 <= i < |a| - 1 && a[1..][i] == y;
    assert Before(a[0], a[i + 1]);
    BeforeIrreflexive(y);
  }

  lemma HeadFirst(a: seq<string>, b: seq<string>, k: nat)
    requires StrictlySorted(a) && StrictlySorted(b) && a != [] && k < |b| && b[k] == a[0]
    requires forall x, y :: x in a && y in b && y !in a ==> Before(x, y)
    ensures b[0] == a[0]
  {
    hide Before;
    if k > 0 {
      assert Before(b[0], a[0]);
      BeforeAsymmetric(b[0], a[0]);
    }
  }

  /** An accepted change only appends to a rail's list, and keeps what was on it. */
  lemma StepAppends(before: Snapshot, after: Snapshot, repo: Repository, admitted: string -> bool, rail: string,
                    a: seq<string>, b: seq<string>)
    requires StepAccepted(before, after, repo, admitted)
    requires rail == PLATFORM_RAIL || rail == MANAGED_RAIL
    requires Listing(a, before, rail) && Listing(b, after, rail)
    ensures |a| <= |b| && b[..|a|] == a
    ensures forall p :: p in a ==> p in before && p in after && after[p] == before[p]
  {
    StepParts(before, after, repo, admitted);
    hide *;
    KeptListing(before, after, a, b, rail);
    NewAbove(before, after, a, b, rail);
    ListingSorted(a, before, rail);
    ListingSorted(b, after, rail);
    SortedPrefix(a, b);
  }

  lemma ListingSorted(a: seq<string>, s: Snapshot, rail: string)
    requires Listing(a, s, rail)
    ensures StrictlySorted(a)
  {
  }

  lemma KeptListing(before: Snapshot, after: Snapshot, a: seq<string>, b: seq<string>, rail: string)
    requires Kept(before, after) && (rail == PLATFORM_RAIL || rail == MANAGED_RAIL)
    requires Listing(a, before, rail) && Listing(b, after, rail)
    ensures forall p :: p in a ==> p in before && p in after && after[p] == before[p]
    ensures forall p :: p in a ==> p in b
  {
    hide OnRail, ForwardName, Before;
  }

  lemma NewAbove(before: Snapshot, after: Snapshot, a: seq<string>, b: seq<string>, rail: string)
    requires Increasing(before, Additions(before, after), rail, false) && (rail == PLATFORM_RAIL || rail == MANAGED_RAIL)
    requires Listing(a, before, rail) && Listing(b, after, rail)
    ensures forall x, y :: x in a && y in b && y !in a ==> Before(x, y)
  {
    hide ForwardName, Before, VersionOf, Stamp, OnRail;
    forall x, y | x in a && y in b && y !in a
      ensures Before(x, y)
    {
      StampOfForward(x, rail, false);
      assert y in Additions(before, after);
      assert Before(Stamp(x, rail, false), VersionOf(y, rail));
      VersionFirst(x, y, rail);
      BeforeIrreflexive(VersionOf(y, rail));
    }
  }

  /** Over any accepted run, the file-name order of a rail's timestamped files at the start is a prefix of the one at the
  end, and every file on it keeps its mode and its object. */
  lemma RailsAppend(snapshots: seq<Snapshot>, repo: Repository, admissions: seq<string -> bool>, i: nat, j: nat, rail: string,
                    a: seq<string>, b: seq<string>)
    requires AcceptedRun(snapshots, repo, admissions) && i < j <= |admissions|
    requires rail == PLATFORM_RAIL || rail == MANAGED_RAIL
    requires Listing(a, snapshots[i], rail) && Listing(b, snapshots[j], rail)
    ensures |a| <= |b| && b[..|a|] == a
    ensures forall p :: p in a ==> p in snapshots[i] && p in snapshots[j] && snapshots[j][p] == snapshots[i][p]
  {
    RunAccepted(snapshots, repo, admissions, i, j, AdmitAll);
    hide *;
    AdmitsAll();
    StepAppends(snapshots[i], snapshots[j], repo, AdmitAll, rail, a, b);
  }

  // ---- The release check over a run ----

  /** Schema-bearing files outside the migration directories stay as they are. */
  ghost predicate OthersUnchanged(old': Snapshot, target: Snapshot) {
    forall p :: SchemaBearing(p) && !Watched(p) && p != MANIFEST_PATH ==> Unchanged(old', target, p)
  }

  lemma WatchedBearing(p: string)
    ensures Watched(p) ==> SchemaBearing(p) && p != MANIFEST_PATH
    ensures IsForward(p) || IsQualifiedPath(p) ==> Watched(p)
  {
    RailChecks.ManifestUnwatched();
    if IsQualifiedPath(p) { RailChecks.QualifiedNotForward(p); }
    hide IsQualifiedPath, EndsSql;
  }

  /** A path whose last part is known ends in a slash and another name only if the two are one name. */
  lemma LastPart(prefix: string, name: string, other: string)
    requires prefix != "" && prefix[|prefix| - 1] == '/' && '/' !in name && '/' !in other
    requires EndsWith(prefix + name, "/" + other)
    ensures name == other
  {
    var path, tail := prefix + name, "/" + other;
    var cut := |path| - |tail|;
    assert path[cut] == path[cut..][0] == '/';
    forall k | |prefix| <= k < |path|
      ensures path[k] != '/'
    {
      assert path[k] == name[k - |prefix|];
    }
    forall k | cut < k < |path|
      ensures path[k] != '/'
    {
      assert path[k] == path[cut..][k - cut] == other[k - cut - 1];
    }
    assert path[|prefix| - 1] == '/';
    assert name == path[|prefix|..] == path[cut..][1..] == tail[1..] == other;
  }

  lemma NameSlashFree(p: string)
    requires IsPlatformPath(p)
    ensures p == DIR + p[|DIR|..] && '/' !in p[|DIR|..]
  {
    var name := p[|DIR|..];
    assert p[..|DIR|] == DIR;
    forall i | 0 <= i < |name|
      ensures name[i] != '/'
    {
      assert name[i] == p[|DIR| + i];
      if |DIR| + i >= |p| - 4 { assert p[|DIR| + i] == p[|p| - 4..][|DIR| + i - (|p| - 4)]; }
    }
  }

  lemma ForwardSlashFree(p: string, rail: string)
    requires ForwardOn(p, rail)
    ensures p == rail + p[|rail|..] && '/' !in p[|rail|..]
  {
    var name := p[|rail|..];
    forall i | 0 <= i < |name|
      ensures name[i] != '/'
    {
      if i >= |name| - 4 { assert name[i] == name[|name| - 4..][i - (|name| - 4)]; }
    }
  }

  /** The two baseline names carry the first version. */
  lemma BaselineStamp(name: string)
    requires name == SCHEMA_BASELINE_NAME || name == BASELINE_NAME
    ensures |name| > 14 && name[..14] == FIRST_VERSION && name[0] == '0' && name[14] == '_' && Stamped(name)
  {
    assert name[..14] == FIRST_VERSION;
    forall i | 0 <= i < 14
      ensures name[i] == '0'
    {
      assert name[i] == FIRST_VERSION[i];
    }
  }

  lemma BaselineSlashFree()
    ensures '/' !in SCHEMA_BASELINE_NAME && '/' !in BASELINE_NAME
  {
  }

  lemma BaselineTail(path: string, prefix: string, name: string)
    requires path == prefix + name && prefix != "" && prefix[|prefix| - 1] == '/' && '/' !in name
    requires BaselineName(path)
    ensures name == SCHEMA_BASELINE_NAME || name == BASELINE_NAME
  {
    BaselineNameMeans(path);
    BaselineSlashFree();
    hide *;
    if EndsWith(path, "/" + SCHEMA_BASELINE_NAME) {
      LastPart(prefix, name, SCHEMA_BASELINE_NAME);
    } else {
      LastPart(prefix, name, BASELINE_NAME);
    }
  }

  lemma BaselineNameMeans(path: string)
    ensures BaselineName(path) <==> EndsWith(path, "/" + SCHEMA_BASELINE_NAME) || EndsWith(path, "/" + BASELINE_NAME)
  {
    hide EndsWith;
  }

  /** An accepted manifest's catalogue has the legacy baseline, and only files directly in the platform directory. */
  lemma CatalogFiles(m: Manifest, catalog: map<string, string>, digest: string -> string)
    requires ManifestAccepted(m, catalog, digest)
    ensures PLATFORM_BASELINE in catalog
    ensures forall f :: f in catalog ==> IsPlatformPath(f)
  {
    Selection.InventoriesSound(m, catalog, digest);
    hide *;
    PlanFiles(m.legacy, m.inventory, catalog, PLATFORM_BASELINE, true, digest);
    if !m.V1? {
      Selection.PlansMean(m, catalog, digest);
      PlanFiles(m.legacy, m.inventory, Restrict(catalog, FileSet(Entries(m.legacy))), PLATFORM_BASELINE, true, digest);
      PlanFiles(m.qualified.plan, m.qualified.inventory.bootstrapMigrator.withRestore,
                Restrict(catalog, FileSet(Entries(m.qualified.plan))), QUALIFIED_BASELINE, false, digest);
      if m.V3? {
        PlanFiles(m.admin.plan, m.admin.inventory.installerManaged,
                  Restrict(catalog, FileSet(Entries(m.admin.plan))), ADMIN_BASELINE, false, digest);
      }
      RestrictMeans(catalog, FileSet(Entries(m.legacy)));
      UnionMeans(m);
    }
  }

  lemma PlanFiles(plan: Plan, inventory: string, catalog: map<string, string>, baselineFile: string, ordered: bool, digest: string -> string)
    ensures PlanAccepted(plan, inventory, catalog, baselineFile, ordered, digest) ==>
      && catalog.Keys == FileSet(Entries(plan)) && baselineFile in FileSet(Entries(plan))
      && forall f :: f in FileSet(Entries(plan)) ==> IsPlatformPath(f)
  {
    hide IsPlatformPath, IsSha256, NoRepeats, Files, Before;
    assert Entries(plan)[0] == plan.baseline;
    if PlanAccepted(plan, inventory, catalog, baselineFile, ordered, digest) {
      forall f | f in FileSet(Entries(plan))
        ensures IsPlatformPath(f)
      {
        var e :| e in Entries(plan) && e.file == f;
        assert ValidEntry(e);
      }
    }
  }

  lemma RestrictMeans(catalog: map<string, string>, files: set<string>)
    ensures Restrict(catalog, files).Keys == catalog.Keys * files
  {
  }

  lemma UnionMeans(m: Manifest)
    ensures UnionFiles(m) ==
      FileSet(Entries(m.legacy))
      + (if m.V1? then {} else FileSet(Entries(m.qualified.plan)))
      + (if m.V3? then FileSet(Entries(m.admin.plan)) else {})
  {
    hide FileSet, Entries;
  }

  lemma CatalogMeans(s: Snapshot, repo: Repository, p: string)
    ensures p in Catalog(s, repo) <==> p in s && OnRail(p, PLATFORM_RAIL)
  {
    hide OnRail;
  }

  /** No accepted change adds a file under a baseline's name, on either rail. */
  lemma NoBaselineAdded(before: Snapshot, after: Snapshot, repo: Repository, p: string)
    requires StepAccepted(before, after, repo, AdmitAll) && p in Additions(before, after)
    ensures !BaselineName(p)
  {
    hide *;
    StepParts(before, after, repo, AdmitAll);
    RegularHas(before);
    RegularHas(after);
    ManifestsOpen(before, after, Additions(before, after), repo);
    CatalogFiles(ManifestAt(after, repo), Catalog(after, repo), repo.digest);
    BaselineOld(before, after);
    CatalogMeans(after, repo, PLATFORM_BASELINE);
    CatalogMeans(after, repo, p);
    AdditionName(before, after, p);
    RailChecks.AdditionIn(before, after, p);
    if ForwardOn(p, PLATFORM_RAIL) {
      ForwardNoBaseline(before, Additions(before, after), PLATFORM_RAIL, PLATFORM_BASELINE, p);
    } else if ForwardOn(p, MANAGED_RAIL) {
      GroundedOpen(before, Additions(before, after), p);
      ForwardNoBaseline(before, Additions(before, after), MANAGED_RAIL, MANAGED_BASELINE, p);
    } else {
      RailChecks.QualifiedNotForward(p);
      QualifiedNoBaseline(p);
    }
  }

  lemma AdditionName(before: Snapshot, after: Snapshot, p: string)
    requires Additive(before, after) && p in Additions(before, after)
    ensures ForwardOn(p, PLATFORM_RAIL) || ForwardOn(p, MANAGED_RAIL) || IsQualifiedPath(p)
  {
    hide Additions, ForwardOn, IsQualifiedPath, IsBaseline;
    assert AdditionAccepted(after, p, AdmitAll);
  }

  lemma GroundedOpen(before: Snapshot, added: set<string>, p: string)
    requires ManagedGrounded(before, added) && p in added && ForwardOn(p, MANAGED_RAIL)
    ensures MANAGED_BASELINE in before
  {
    hide ForwardName;
  }

  lemma QualifiedNoBaseline(p: string)
    requires IsQualifiedPath(p) && IsPlatformPath(p)
    ensures !BaselineName(p)
  {
    RailChecks.QualifiedName(p);
    NameSlashFree(p);
    hide *;
    DirEnds();
    if BaselineName(p) {
      BaselineTail(p, DIR, p[|DIR|..]);
      BaselineStamp(p[|DIR|..]);
      assert false;
    }
  }

  lemma DirEnds()
    ensures DIR != "" && DIR[|DIR| - 1] == '/' && PLATFORM_RAIL == DIR
    ensures MANAGED_RAIL != "" && MANAGED_RAIL[|MANAGED_RAIL| - 1] == '/'
  {
  }

  lemma ForwardNoBaseline(before: Snapshot, added: set<string>, rail: string, baseline: string, p: string)
    requires (rail == PLATFORM_RAIL && baseline == PLATFORM_BASELINE) || (rail == MANAGED_RAIL && baseline == MANAGED_BASELINE)
    requires baseline in before && p in added && ForwardOn(p, rail) && Increasing(before, added, rail, false)
    ensures !BaselineName(p)
  {
    BaselineVersions(false);
    IncreasingAt(before, added, rail, baseline, p);
    ForwardSlashFree(p, rail);
    BeforeIrreflexive(FIRST_VERSION);
    VersionParts(p, rail);
    DirEnds();
    hide *;
    if BaselineName(p) {
      BaselineTail(p, rail, p[|rail|..]);
      BaselineStamp(p[|rail|..]);
      assert false;
    }
  }

  lemma VersionParts(p: string, rail: string)
    requires ForwardOn(p, rail)
    ensures |p[|rail|..]| >= 14 && VersionOf(p, rail) == p[|rail|..][..14]
  {
  }

  lemma IncreasingAt(before: Snapshot, added: set<string>, rail: string, q: string, p: string)
    requires Increasing(before, added, rail, false) && q in before && OnRail(q, rail) && p in added && ForwardOn(p, rail)
    ensures Before(Stamp(q, rail, false), VersionOf(p, rail))
  {
    hide Before, Stamp, VersionOf, ForwardOn, OnRail;
  }

  lemma BaselineVersions(strict: bool)
    ensures OnRail(PLATFORM_BASELINE, PLATFORM_RAIL) && Stamp(PLATFORM_BASELINE, PLATFORM_RAIL, strict) == FIRST_VERSION
    ensures OnRail(MANAGED_BASELINE, MANAGED_RAIL) && Stamp(MANAGED_BASELINE, MANAGED_RAIL, strict) == FIRST_VERSION
  {
    assert PLATFORM_BASELINE[|PLATFORM_RAIL|..] == BASELINE_NAME;
    assert MANAGED_BASELINE[|MANAGED_RAIL|..] == SCHEMA_BASELINE_NAME;
    BaselineStamp(BASELINE_NAME);
    BaselineStamp(SCHEMA_BASELINE_NAME);
  }

  lemma SchemaAdditionsAre(old': Snapshot, target: Snapshot)
    requires OthersUnchanged(old', target) && MANIFEST_PATH in old'
    ensures SchemaAdditions(old', target) == Additions(old', target)
  {
    hide Watched, SchemaBearing;
    forall p
      ensures p in SchemaAdditions(old', target) <==> p in Additions(old', target)
    {
      WatchedBearing(p);
    }
  }

  lemma AcceptedSchemaPaths(old': Snapshot, target: Snapshot, repo: Repository, admitted: string -> bool)
    requires StepAccepted(old', target, repo, AdmitAll) && OthersUnchanged(old', target)
    requires forall p :: p in Additions(old', target) ==> admitted(p)
    ensures RailChecks.SchemaPathsAccepted(old', target, admitted)
  {
    hide StepAccepted, Additions, SchemaAdditions, Watched, SchemaBearing, IsForward, IsQualifiedPath, BaselineName, IsBaseline;
    hide Increasing, ManagedGrounded, ManifestsAccepted;
    StepParts(old', target, repo, AdmitAll);
    SchemaAdditionsAre(old', target);
    forall p | p in SchemaAdditions(old', target)
      ensures p in target && ReleaseAdditionAccepted(target, p, admitted)
    {
      NoBaselineAdded(old', target, repo, p);
      assert AdditionAccepted(target, p, AdmitAll);
    }
    forall p | p in old' && SchemaBearing(p) && p != MANIFEST_PATH
      ensures p in target && target[p] == old'[p]
    {
      if !Watched(p) { assert Unchanged(old', target, p); }
    }
  }

  lemma SchemaPathsFreeze(old': Snapshot, target: Snapshot, admitted: string -> bool)
    requires RailChecks.SchemaPathsAccepted(old', target, admitted)
    requires MANIFEST_PATH in old'
    ensures OthersUnchanged(old', target)
    ensures forall p :: p in Additions(old', target) ==> admitted(p)
  {
    hide Watched, SchemaBearing, IsForward, IsQualifiedPath, BaselineName;
    forall p | SchemaBearing(p) && !Watched(p) && p != MANIFEST_PATH
      ensures Unchanged(old', target, p)
    {
      WatchedBearing(p);
      assert p !in SchemaAdditions(old', target);
    }
    forall p | p in Additions(old', target)
      ensures admitted(p)
    {
      WatchedBearing(p);
      assert p in SchemaAdditions(old', target);
    }
  }

  /** A version above what files block is above what they block under the stricter reading. */
  lemma StrictIncreasing(before: Snapshot, added: set<string>, rail: string)
    requires Increasing(before, added, rail, false)
    ensures Increasing(before, added, rail, true)
  {
    hide ForwardOn, OnRail, VersionOf, Before, Stamp;
    forall p, q | p in added && ForwardOn(p, rail) && q in before && OnRail(q, rail)
      ensures Before(Stamp(q, rail, true), VersionOf(p, rail))
    {
      assert Before(Stamp(q, rail, false), VersionOf(p, rail));
      StampReadings(q, rail);
      VersionFirst(p, p, rail);
      EmptyFirst(VersionOf(p, rail));
    }
  }

  lemma StampReadings(q: string, rail: string)
    ensures Stamp(q, rail, true) == Stamp(q, rail, false) || Stamp(q, rail, true) == ""
  {
  }

  lemma EmptyFirst(v: string)
    requires v != ""
    ensures Before("", v)
  {
  }

  /** Where one change is accepted, the release check accepts it exactly if no other schema-bearing file changed and the
  SQL of what it adds is admitted. */
  lemma StepAsRelease(old': Snapshot, target: Snapshot, repo: Repository, admitted: string -> bool)
    requires StepAccepted(old', target, repo, AdmitAll)
    ensures ReleaseAccepted(old', target, repo, admitted) <==>
      OthersUnchanged(old', target) && forall p :: p in Additions(old', target) ==> admitted(p)
  {
    hide *;
    StepParts(old', target, repo, AdmitAll);
    RegularHas(old');
    RegularHas(target);
    RailChecks.ReleaseMeans(old', target, repo, admitted);
    if RailChecks.SchemaPathsAccepted(old', target, admitted) {
      SchemaPathsFreeze(old', target, admitted);
    }
    if OthersUnchanged(old', target) && forall p :: p in Additions(old', target) ==> admitted(p) {
      AcceptedSchemaPaths(old', target, repo, admitted);
      SchemaAdditionsAre(old', target);
      StrictIncreasing(old', Additions(old', target), PLATFORM_RAIL);
      StrictIncreasing(old', Additions(old', target), MANAGED_RAIL);
      GroundedMeans(old', Additions(old', target));
    }
  }

  lemma GroundedMeans(before: Snapshot, added: set<string>)
    ensures ManagedGrounded(before, added) <==> ((exists p :: p in added && OnRail(p, MANAGED_RAIL)) ==> MANAGED_BASELINE in before)
  {
    hide OnRail;
  }

  /** Changes accepted one by one add up to the release check, end to end: it accepts exactly if the other schema-bearing
  files are as they were and the SQL of everything added is admitted. */
  lemma ReleaseAfterRun(snapshots: seq<Snapshot>, repo: Repository, admissions: seq<string -> bool>, i: nat, j: nat,
                        admitted: string -> bool)
    requires AcceptedRun(snapshots, repo, admissions) && i < j <= |admissions|
    ensures |snapshots| == |admissions| + 1
    ensures ReleaseAccepted(snapshots[i], snapshots[j], repo, admitted) <==>
      && OthersUnchanged(snapshots[i], snapshots[j])
      && forall p :: p in Additions(snapshots[i], snapshots[j]) ==> admitted(p)
  {
    RunAccepted(snapshots, repo, admissions, i, j, AdmitAll);
    hide *;
    AdmitsAll();
    StepAsRelease(snapshots[i], snapshots[j], repo, admitted);
  }
}
