/** The union check over the legacy plan and the qualified plans, and the selection of one of them. */
module ManifestGenerations {
  import opened Basics
  import opened Ordering
  import opened MigrationManifest

  /** The identities one qualified plan may bind. */
  datatype Names = Names(baseline: string, actor: string, acquisition: string, runtime: string, retainedImport: string, ownerPath: bool)

  const QUALIFIED_NAMES := Names(QUALIFIED_BASELINE, QUALIFIED_ACTOR, QUALIFIED_ACQUISITION, QUALIFIED_RUNTIME, QUALIFIED_IMPORT, true)

  const ADMIN_NAMES := Names(ADMIN_BASELINE, REVISED_ACTOR, REVISED_ACQUISITION, REVISED_RUNTIME, REVISED_IMPORT, false)

  /** Position of the first entry for `file`, or -1. */
  function At(entries: seq<Entry>, file: string): (r: int)
    ensures -1 <= r < |entries|
    ensures r >= 0 ==> entries[r].file == file
    ensures r < 0 ==> forall e :: e in entries ==> e.file != file
    decreases |entries|
  {
    if entries == [] then -1
    else if entries[0].file == file then 0
    else
      var r := At(entries[1..], file);
      if r < 0 then -1 else r + 1
  }

  /** The entries whose file is not in `drop`. */
  function Keep(entries: seq<Entry>, drop: set<string>): seq<Entry>
    decreases |entries|
  {
    if entries == [] then []
    else (if entries[0].file in drop then [] else [entries[0]]) + Keep(entries[1..], drop)
  }

  function Tails(names: Names): set<string> {
    {names.runtime, names.retainedImport, RUNTIME_COMPLETION, LOCK_COMPLETION} + (if names.ownerPath then {OWNER_PATH} else {})
  }

  function Own(names: Names): set<string> {
    {names.baseline, names.actor, names.acquisition} + Tails(names)
  }

  function Max(a: int, b: int): int { if a < b then b else a }

  function LastTail(forward: seq<Entry>, names: Names): int {
    var owner := if names.ownerPath then At(forward, OWNER_PATH) else -1;
    if owner >= 0 then owner
    else Max(At(forward, names.runtime), Max(At(forward, names.retainedImport), At(forward, RUNTIME_COMPLETION)))
  }

  /** A shared unit of a qualified plan against the legacy entry at the same place. */
  predicate SharedUnit(entry: Entry, legacy: Entry, names: Names) {
    if entry.file == names.actor then legacy.file == LEGACY_ACTOR
    else if entry.file == names.acquisition then legacy.file == LEGACY_ACQUISITION
    else entry == legacy
  }

  /** Without its tails, the plan is the legacy list unit by unit. */
  predicate SharedOrder(legacy: Plan, plan: Plan, names: Names) {
    var shared := Keep(plan.forward, Tails(names));
    && |shared| == |legacy.forward|
    && forall i :: 0 <= i < |shared| ==> SharedUnit(shared[i], legacy.forward[i], names)
  }

  /** The plan has the units it must have, and none of another generation. */
  predicate FilesChosen(legacy: Plan, plan: Plan, names: Names, requireImport: bool) {
    var files := FileSet(Entries(plan));
    && {names.actor, names.acquisition, names.runtime} <= files
    && (requireImport ==> {names.retainedImport, RUNTIME_COMPLETION} <= files)
    && files <= FileSet(Entries(legacy)) + Own(names)
  }

  /** The tails come in their issued order. */
  predicate TailOrder(plan: Plan, names: Names) {
    var forward := plan.forward;
    var after, runtime := At(forward, QUALIFIED_AFTER), At(forward, names.runtime);
    var retained, completion := At(forward, names.retainedImport), At(forward, RUNTIME_COMPLETION);
    var owner := if names.ownerPath then At(forward, OWNER_PATH) else -1;
    var lock := At(forward, LOCK_COMPLETION);
    && after >= 0 && runtime > after
    && (retained >= 0 ==> retained > runtime)
    && (completion >= 0 ==> retained >= 0 && completion > retained)
    && (owner >= 0 ==> completion >= 0 && owner == completion + 1)
    && (lock >= 0 ==> completion >= 0 && lock > LastTail(forward, names))
  }

  /** After the tails comes the shared rest of the legacy list. */
  predicate SuffixShared(legacy: Plan, plan: Plan, names: Names) {
    Keep(plan.forward[LastTail(plan.forward, names) + 1..], {LOCK_COMPLETION})
    == legacy.forward[At(legacy.forward, QUALIFIED_AFTER) + 1..]
  }

  predicate TailsInPlace(legacy: Plan, plan: Plan, names: Names) {
    var k := At(legacy.forward, QUALIFIED_AFTER) + 1;
    && At(plan.forward, names.runtime) == k
    && At(plan.forward, names.retainedImport) == k + 1
    && At(plan.forward, RUNTIME_COMPLETION) == k + 2
  }

  /** The order rules of one qualified plan against the legacy plan. */
  predicate OrderAccepted(legacy: Plan, plan: Plan, names: Names, requireImport: bool) {
    && SharedOrder(legacy, plan, names)
    && FilesChosen(legacy, plan, names, requireImport)
    && TailOrder(plan, names)
    && SuffixShared(legacy, plan, names)
    && (requireImport ==> TailsInPlace(legacy, plan, names))
  }

  /** How many shared units come before the lock unit, or -1 without one. */
  function LockCount(plan: Plan, names: Names): int {
    var lock := At(plan.forward, LOCK_COMPLETION);
    if lock < 0 then -1 else |Keep(plan.forward[..lock], Tails(names))|
  }

  function Restrict(catalog: map<string, string>, files: set<string>): map<string, string> {
    map f | f in catalog && f in files :: catalog[f]
  }

  predicate DigestsValid(d: Digests, withImport: bool) {
    IsSha256(d.withRestore) && if withImport then d.runtimeOnly.None? else d.runtimeOnly.Some? && IsSha256(d.runtimeOnly.value)
  }

  predicate QualifiedInventoryValid(q: Qualified) {
    var withImport := exists e :: e in q.plan.forward && e.file == QUALIFIED_IMPORT;
    DigestsValid(q.inventory.bootstrapMigrator, withImport) && DigestsValid(q.inventory.separateMigrator, withImport)
  }

  function UnionFiles(m: Manifest): set<string> {
    FileSet(Entries(m.legacy))
    + (if m.V1? then {} else FileSet(Entries(m.qualified.plan)))
    + (if m.V3? then FileSet(Entries(m.admin.plan)) else {})
  }

  predicate PlansAccepted(m: Manifest, catalog: map<string, string>, digest: string -> string)
    requires !m.V1?
  {
    && PlanAccepted(m.legacy, m.inventory, Restrict(catalog, FileSet(Entries(m.legacy))), PLATFORM_BASELINE, true, digest)
    && PlanAccepted(m.qualified.plan, m.qualified.inventory.bootstrapMigrator.withRestore,
                    Restrict(catalog, FileSet(Entries(m.qualified.plan))), QUALIFIED_BASELINE, false, digest)
    && (m.V3? ==>
          PlanAccepted(m.admin.plan, m.admin.inventory.installerManaged,
                       Restrict(catalog, FileSet(Entries(m.admin.plan))), ADMIN_BASELINE, false, digest))
    && catalog.Keys <= UnionFiles(m)
  }

  /** The whole check of a manifest against the migration files present. */
  predicate ManifestAccepted(m: Manifest, catalog: map<string, string>, digest: string -> string) {
    match m
    case V1(legacy, inventory) => PlanAccepted(legacy, inventory, catalog, PLATFORM_BASELINE, true, digest)
    case V2(legacy, inventory, qualified) =>
      && QualifiedInventoryValid(qualified)
      && PlansAccepted(m, catalog, digest)
      && OrderAccepted(legacy, qualified.plan, QUALIFIED_NAMES, false)
      && LockCount(qualified.plan, QUALIFIED_NAMES) < 0
      && (forall f :: f in FileSet(Entries(legacy)) ==> !IsQualifiedPath(f))
    case V3(legacy, inventory, qualified, admin) =>
      && QualifiedInventoryValid(qualified)
      && IsSha256(admin.inventory.installerManaged) && IsSha256(admin.inventory.operatorProvisioned)
      && PlansAccepted(m, catalog, digest)
      && OrderAccepted(legacy, qualified.plan, QUALIFIED_NAMES, true)
      && OrderAccepted(legacy, admin.plan, ADMIN_NAMES, true)
      && RUNTIME_COMPLETION in FileSet(Entries(qualified.plan))
      && LockCount(qualified.plan, QUALIFIED_NAMES) == LockCount(admin.plan, ADMIN_NAMES)
      && (forall f :: f in FileSet(Entries(legacy)) ==> !IsQualifiedPath(f))
  }

  // ---- Canonical form ----

  /** The consecutive pieces of a qualified plan: the renamed legacy head, its own tails, and the shared rest around at
  most one lock unit. */
  datatype Pieces = Pieces(head: seq<Entry>, tails: seq<Entry>, before: seq<Entry>, lock: seq<Entry>, after: seq<Entry>)

  /** `c` takes `forward` apart into: the legacy list up to and including `QUALIFIED_AFTER` with its two bootstrap units
  renamed; runtime, import and completion, and the owner-path unit if the plan has one; the rest of the legacy list with
  at most one lock unit inserted. */
  predicate Canonical(c: Pieces, forward: seq<Entry>, legacy: seq<Entry>, names: Names) {
    var k := At(legacy, QUALIFIED_AFTER) + 1;
    && forward == c.head + c.tails + c.before + c.lock + c.after
    && |c.head| == k && k > 0
    && Has(legacy[..k], LEGACY_ACTOR) && Has(legacy[..k], LEGACY_ACQUISITION)
    && (forall i :: 0 <= i < k ==> RenamedUnit(c.head[i], legacy[i], names))
    && 3 <= |c.tails| <= (if names.ownerPath then 4 else 3)
    && c.tails[0].file == names.runtime
    && c.tails[1].file == names.retainedImport
    && c.tails[2].file == RUNTIME_COMPLETION
    && (|c.tails| == 4 ==> c.tails[3].file == OWNER_PATH)
    && c.before + c.after == legacy[k..]
    && (if c.lock == [] then c.after == [] else |c.lock| == 1 && c.lock[0].file == LOCK_COMPLETION)
  }

  predicate Has(entries: seq<Entry>, file: string) { exists e :: e in entries && e.file == file }

  predicate RenamedUnit(entry: Entry, legacy: Entry, names: Names) {
    if legacy.file == LEGACY_ACTOR then entry.file == names.actor
    else if legacy.file == LEGACY_ACQUISITION then entry.file == names.acquisition
    else entry == legacy
  }
}
