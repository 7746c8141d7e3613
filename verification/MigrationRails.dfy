/** The append-only checks of the migration directories: the one a change runs and the one a release runs. */
module MigrationRails {
  // Git is two snapshots passed in; whether the SQL of an added file is admitted is a predicate passed in.

  import opened Basics
  import opened Ordering
  import opened MigrationManifest
  import opened ManifestGenerations
  import History = ManifestHistory

  datatype Blob = Blob(mode: string, oid: string)

  type Snapshot = map<string, Blob>

  /** What the objects of the repository hold. */
  datatype Repository = Repository(manifestOf: string -> Manifest, contentOf: string -> string, digest: string -> string)

  const MANIFEST_PATH := "config/platform-migration-manifest.json"
  const PLATFORM_RAIL := DIR
  const MANAGED_RAIL := "supabase/migrations/"
  const FIRST_VERSION := "00000000000000"
  const SCHEMA_BASELINE_NAME := FIRST_VERSION + "_platform_schema_baseline.sql"
  const BASELINE_NAME := FIRST_VERSION + "_platform_baseline.sql"
  const MANAGED_BASELINE := MANAGED_RAIL + SCHEMA_BASELINE_NAME
  const TYPES_PATH := "src/integrations/supabase/types.ts"
  const REGISTRY_PATH := "config/openlup-policy-registry.json"
  const REGULAR := "100644"

  predicate OnRail(path: string, rail: string) { |rail| <= |path| && path[..|rail|] == rail }

  predicate Stamped(name: string) { |name| >= 14 && forall i :: 0 <= i < 14 ==> IsDigit(name[i]) }

  /** A timestamped migration name: 14 digits, an underscore, a label, `.sql`. */
  predicate ForwardName(name: string) {
    && Stamped(name) && |name| > 19 && name[14] == '_' && name[|name| - 4..] == ".sql"
    && forall i :: 15 <= i < |name| - 4 ==> IsAlnum(name[i]) || name[i] == '_' || name[i] == '-'
  }

  predicate ForwardOn(path: string, rail: string) { OnRail(path, rail) && ForwardName(path[|rail|..]) }

  predicate IsForward(path: string) { ForwardOn(path, PLATFORM_RAIL) || ForwardOn(path, MANAGED_RAIL) }

  /** The first 14 characters after the rail. */
  function VersionOf(path: string, rail: string): string {
    if |path| < |rail| then "" else if |path| < |rail| + 14 then path[|rail|..] else path[|rail|..|rail| + 14]
  }

  /** The version a file already on the rail blocks: its timestamp, or nothing. With `strict`, the timestamp must be
  followed by an underscore. */
  function Stamp(path: string, rail: string, strict: bool): string {
    var name := if |path| < |rail| then "" else path[|rail|..];
    if Stamped(name) && (strict ==> |name| > 14 && name[14] == '_') then name[..14] else ""
  }

  // ---- What the checks accept ----

  predicate Watched(path: string) { OnRail(path, PLATFORM_RAIL) || OnRail(path, MANAGED_RAIL) }

  predicate IsBaseline(path: string) { path == PLATFORM_BASELINE || path == MANAGED_BASELINE }

  function Additions(before: Snapshot, after: Snapshot): set<string> {
    set p | p in after && Watched(p) && p !in before
  }

  predicate Unchanged(before: Snapshot, after: Snapshot, path: string) {
    (path in before <==> path in after) && (path in before ==> before[path] == after[path])
  }

  /** New timestamped files of a rail are above everything already there, and no two have one version. */
  ghost predicate Increasing(before: Snapshot, additions: set<string>, rail: string, strict: bool) {
    && (forall p, q :: p in additions && ForwardOn(p, rail) && q in before && OnRail(q, rail) ==>
          Before(Stamp(q, rail, strict), VersionOf(p, rail)))
    && (forall p, q :: p in additions && q in additions && ForwardOn(p, rail) && ForwardOn(q, rail) && p != q ==>
          VersionOf(p, rail) != VersionOf(q, rail))
  }

  predicate AdditionAccepted(after: Snapshot, path: string, admitted: string -> bool)
    requires path in after
  {
    after[path].mode == REGULAR && !IsBaseline(path) && (IsForward(path) || IsQualifiedPath(path)) && admitted(path)
  }

  /** The elements of a set, in some order. */
  ghost function Elements(s: set<string>): (r: seq<string>)
    ensures multiset(r) == multiset(s)
  {
    if s == {} then []
    else
      var x :| x in s;
      assert s == {x} + (s - {x});
      [x] + Elements(s - {x})
  }

  function Catalog(s: Snapshot, repo: Repository): map<string, string> {
    map p | p in s && OnRail(p, PLATFORM_RAIL) :: repo.contentOf(s[p].oid)
  }

  function ManifestAt(s: Snapshot, repo: Repository): Manifest
    requires MANIFEST_PATH in s
  {
    repo.manifestOf(s[MANIFEST_PATH].oid)
  }

  /** The manifest after the change is sound, and its history binds exactly the added platform files. */
  ghost predicate ManifestsAccepted(before: Snapshot, after: Snapshot, added: set<string>, repo: Repository)
    requires MANIFEST_PATH in before && MANIFEST_PATH in after
  {
    && ManifestAccepted(ManifestAt(after, repo), Catalog(after, repo), repo.digest)
    && History.Accepts(ManifestAt(before, repo), ManifestAt(after, repo), Elements(set p | p in added && OnRail(p, PLATFORM_RAIL)))
  }

  /** What the check of one change accepts. */
  ghost predicate StepAccepted(before: Snapshot, after: Snapshot, repo: Repository, admitted: string -> bool) {
    var added := Additions(before, after);
    && (forall p :: p in before && Watched(p) ==> p in after && after[p] == before[p])
    && (forall p :: p in added ==> AdditionAccepted(after, p, admitted))
    && Increasing(before, added, PLATFORM_RAIL, false)
    && Increasing(before, added, MANAGED_RAIL, false)
    && ((exists p :: p in added && OnRail(p, MANAGED_RAIL)) ==> MANAGED_BASELINE in before)
    && MANIFEST_PATH in before && MANIFEST_PATH in after
    && before[MANIFEST_PATH].mode == REGULAR && after[MANIFEST_PATH].mode == REGULAR
    && ManifestsAccepted(before, after, added, repo)
  }

  function LowerSql(c: char): char { if c == 'S' then 's' else if c == 'Q' then 'q' else if c == 'L' then 'l' else c }

  /** Ends in `.sql`, in whatever case. */
  predicate EndsSql(path: string) {
    var n := |path|;
    n >= 4 && path[n - 4] == '.' && [LowerSql(path[n - 3]), LowerSql(path[n - 2]), LowerSql(path[n - 1])] == "sql"
  }

  /** A path the release rules freeze or append to. */
  predicate SchemaBearing(path: string) {
    || path in {MANIFEST_PATH, TYPES_PATH, REGISTRY_PATH} || Watched(path) || (OnRail(path, "db/bootstrap/") && EndsSql(path))
  }

  predicate EndsWith(path: string, tail: string) { |tail| <= |path| && path[|path| - |tail|..] == tail }

  predicate BaselineName(path: string) {
    EndsWith(path, "/" + SCHEMA_BASELINE_NAME) || EndsWith(path, "/" + BASELINE_NAME)
  }

  predicate ReleaseAdditionAccepted(target: Snapshot, path: string, admitted: string -> bool)
    requires path in target
  {
    target[path].mode == REGULAR && (IsForward(path) || IsQualifiedPath(path)) && !BaselineName(path) && admitted(path)
  }

  function SchemaAdditions(old': Snapshot, target: Snapshot): set<string> {
    set p | p in target && SchemaBearing(p) && p !in old'
  }

  /** What the release check accepts between two releases. */
  ghost predicate ReleaseAccepted(old': Snapshot, target: Snapshot, repo: Repository, admitted: string -> bool) {
    var added := SchemaAdditions(old', target);
    && MANIFEST_PATH in old' && MANIFEST_PATH in target && old'[MANIFEST_PATH].mode == target[MANIFEST_PATH].mode
    && (forall p :: p in old' && SchemaBearing(p) && p != MANIFEST_PATH ==> p in target && target[p] == old'[p])
    && (forall p :: p in added ==> ReleaseAdditionAccepted(target, p, admitted))
    && ((exists p :: p in added && OnRail(p, MANAGED_RAIL)) ==> MANAGED_BASELINE in old')
    && Increasing(old', added, PLATFORM_RAIL, true)
    && Increasing(old', added, MANAGED_RAIL, true)
    && ManifestsAccepted(old', target, added, repo)
  }

  // ---- Versions along one rail ----

  /** Each version is above the one before it, starting from `version`. */
  predicate Climbs(version: string, paths: seq<string>, rail: string)
    decreases |paths|
  {
    paths == [] || (Before(version, VersionOf(paths[0], rail)) && Climbs(VersionOf(paths[0], rail), paths[1..], rail))
  }

  /** A file name in its rail's order is its version first. */
  lemma VersionFirst(p: string, q: string, rail: string)
    requires ForwardOn(p, rail) && ForwardOn(q, rail)
    ensures |VersionOf(p, rail)| == 14 && |VersionOf(q, rail)| == 14
    ensures VersionOf(p, rail) != VersionOf(q, rail) ==> Before(p, q) == Before(VersionOf(p, rail), VersionOf(q, rail))
  {
    var v, w := VersionOf(p, rail), VersionOf(q, rail);
    if v != w {
      assert p == rail + v + p[|rail| + 14..] && q == rail + w + q[|rail| + 14..];
      assert (rail + v)[|rail|..] == v && (rail + w)[|rail|..] == w;
      BeforePrefix(rail + v, rail + w, p[|rail| + 14..], q[|rail| + 14..]);
      BeforeShared(rail, v, w);
    }
  }

  lemma {:induction false} BeforeShared(prefix: string, a: string, b: string)
    ensures Before(prefix + a, prefix + b) == Before(a, b)
    decreases |prefix|
  {
    if prefix == [] {
      assert prefix + a == a && prefix + b == b;
    } else {
      assert (prefix + a)[1..] == prefix[1..] + a && (prefix + b)[1..] == prefix[1..] + b;
      BeforeShared(prefix[1..], a, b);
    }
  }

  ghost predicate Above(version: string, paths: seq<string>, rail: string)
  {
    forall p :: p in paths ==> Before(version, VersionOf(p, rail))
  }

  ghost predicate DistinctVersions(paths: seq<string>, rail: string)
  {
    forall p, q :: p in paths && q in paths && p != q ==> VersionOf(p, rail) != VersionOf(q, rail)
  }

  /** Going through sorted files one by one finds them all above `version` and of different versions, or refuses. */
  lemma {:induction false} ClimbsMeans(version: string, paths: seq<string>, rail: string)
    requires forall p :: p in paths ==> ForwardOn(p, rail)
    requires StrictlySorted(paths)
    ensures Climbs(version, paths, rail) <==> Above(version, paths, rail) && DistinctVersions(paths, rail)
    decreases |paths|
  {
    if paths != [] {
      var v, rest := VersionOf(paths[0], rail), paths[1..];
      assert paths == [paths[0]] + rest;
      ClimbsMeans(v, rest, rail);
      hide Climbs, ForwardName, VersionOf, Before, IsForward;
      ClimbsUnfold(version, paths, rail);
      HeadBelow(paths, rail);
      if Climbs(version, paths, rail) {
        forall p | p in paths
          ensures Before(version, VersionOf(p, rail))
        {
          if p != paths[0] { BeforeTransitive(version, v, VersionOf(p, rail)); }
        }
        forall p, q | p in paths && q in paths && p != q
          ensures VersionOf(p, rail) != VersionOf(q, rail)
        {
          BeforeIrreflexive(v);
        }
      }
    }
  }

  lemma ClimbsUnfold(version: string, paths: seq<string>, rail: string)
    requires paths != []
    ensures Climbs(version, paths, rail) <==>
      Before(version, VersionOf(paths[0], rail)) && Climbs(VersionOf(paths[0], rail), paths[1..], rail)
  {
    hide Before, VersionOf;
  }

  /** The first of sorted files has the least version, or one that occurs again. */
  lemma HeadBelow(paths: seq<string>, rail: string)
    requires paths != [] && StrictlySorted(paths)
    requires forall p :: p in paths ==> ForwardOn(p, rail)
    ensures forall p :: p in paths[1..] ==>
      p != paths[0] && (VersionOf(p, rail) != VersionOf(paths[0], rail) ==> Before(VersionOf(paths[0], rail), VersionOf(p, rail)))
  {
    hide ForwardName, VersionOf, Before;
    forall p | p in paths[1..]
      ensures p != paths[0] && (VersionOf(p, rail) != VersionOf(paths[0], rail) ==> Before(VersionOf(paths[0], rail), VersionOf(p, rail)))
    {
      var i :| 0 <= i < |paths| - 1 && paths[1..][i] == p;
      assert Before(paths[0], paths[i + 1]);
      BeforeIrreflexive(p);
      VersionFirst(paths[0], p, rail);
    }
  }
}
