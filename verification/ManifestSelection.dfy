/** The union check as it collects errors, and the selection of one plan from an accepted manifest. */
module ManifestSelection {
  import opened Basics
  import opened Ordering
  import opened MigrationManifest
  import opened ManifestGenerations

  datatype ManifestError =
    | InPlan(error: PlanError)
    | BadQualifiedInventory | BadAdminInventory | UnmanifestedFile(file: string)
    | OrderNotShared | MissingUnit(file: string) | WrongGeneration | RuntimeBeforeClosure | ImportBeforeRuntime
    | CompletionBeforeImport | OwnerNotLast | LockBeforeTails | SuffixNotShared | TailsMisplaced
    | CompletionNotSelected | LocksDiffer | LockWithoutAdmin | LegacySelectsQualified

  function InPlans(errors: seq<PlanError>): (r: seq<ManifestError>)
    ensures |r| == |errors|
  {
    seq(|errors|, i requires 0 <= i < |errors| => InPlan(errors[i]))
  }

  /** The listed files that are in `files`, in their order. */
  function Listed(listing: seq<string>, files: set<string>): (r: seq<string>)
    ensures forall f :: f in r <==> f in listing && f in files
    decreases |listing|
  {
    if listing == [] then [] else (if listing[0] in files then [listing[0]] else []) + Listed(listing[1..], files)
  }

  /** The order rules of one qualified plan; `lock` is the number of shared units before its lock unit, or -1. */
  method EvaluateOrder(legacy: Plan, plan: Plan, names: Names, requireImport: bool) returns (errors: seq<ManifestError>, lock: int)
    ensures errors == [] <==> OrderAccepted(legacy, plan, names, requireImport)
    ensures lock == LockCount(plan, names)
  {
    errors := [];
    if !SharedOrder(legacy, plan, names) { errors := errors + [OrderNotShared]; }
    var present := EvaluateFiles(legacy, plan, names, requireImport);
    errors := errors + present;
    var tails := EvaluateTails(plan, names);
    errors := errors + tails;
    if !SuffixShared(legacy, plan, names) { errors := errors + [SuffixNotShared]; }
    if requireImport && !TailsInPlace(legacy, plan, names) { errors := errors + [TailsMisplaced]; }
    lock := LockCount(plan, names);
    hide SharedOrder, FilesChosen, TailOrder, SuffixShared, TailsInPlace;
  }

  method EvaluateFiles(legacy: Plan, plan: Plan, names: Names, requireImport: bool) returns (errors: seq<ManifestError>)
    ensures errors == [] <==> FilesChosen(legacy, plan, names, requireImport)
  {
    var files := FileSet(Entries(plan));
    var wanted := [names.actor, names.acquisition, names.runtime] + if requireImport then [names.retainedImport, RUNTIME_COMPLETION] else [];
    errors := [];
    for i := 0 to |wanted|
      invariant errors == [] <==> forall j :: 0 <= j < i ==> wanted[j] in files
    {
      if wanted[i] !in files { errors := errors + [MissingUnit(wanted[i])]; }
    }
    ghost var complete := errors == [];
    assert complete <==> wanted[0] in files && wanted[1] in files && wanted[2] in files && (requireImport ==> wanted[3] in files && wanted[4] in files);
    if !(files <= FileSet(Entries(legacy)) + Own(names)) { errors := errors + [WrongGeneration]; }
    hide FileSet, Own, Entries;
  }

  method EvaluateTails(plan: Plan, names: Names) returns (errors: seq<ManifestError>)
    ensures errors == [] <==> TailOrder(plan, names)
  {
    var forward := plan.forward;
    var after, runtime := At(forward, QUALIFIED_AFTER), At(forward, names.runtime);
    var retained, completion := At(forward, names.retainedImport), At(forward, RUNTIME_COMPLETION);
    var owner := if names.ownerPath then At(forward, OWNER_PATH) else -1;
    var lock := At(forward, LOCK_COMPLETION);
    errors := [];
    if after < 0 || runtime <= after { errors := errors + [RuntimeBeforeClosure]; }
    if retained >= 0 && retained <= runtime { errors := errors + [ImportBeforeRuntime]; }
    if completion >= 0 && (retained < 0 || completion <= retained) { errors := errors + [CompletionBeforeImport]; }
    if owner >= 0 && (completion < 0 || owner != completion + 1) { errors := errors + [OwnerNotLast]; }
    if lock >= 0 && (completion < 0 || lock <= LastTail(forward, names)) { errors := errors + [LockBeforeTails]; }
  }

  /** The check of one plan against the catalogue files it binds. */
  method EvaluateSection(plan: Plan, inventory: string, catalog: map<string, string>, listing: seq<string>, baselineFile: string,
                         ordered: bool, digest: string -> string) returns (errors: seq<ManifestError>)
    requires forall f :: f in listing <==> f in catalog
    ensures errors == [] <==> PlanAccepted(plan, inventory, Restrict(catalog, FileSet(Entries(plan))), baselineFile, ordered, digest)
  {
    var files := FileSet(Entries(plan));
    var found := EvaluatePlan(plan, inventory, Restrict(catalog, files), Listed(listing, files), baselineFile, ordered, digest);
    errors := InPlans(found);
    hide PlanAccepted, FileSet, Entries;
  }

  /** The three plan checks and the union against the catalogue. */
  method EvaluatePlans(m: Manifest, catalog: map<string, string>, listing: seq<string>, digest: string -> string)
    returns (errors: seq<ManifestError>)
    requires !m.V1? && forall f :: f in listing <==> f in catalog
    ensures errors == [] <==> PlansAccepted(m, catalog, digest)
  {
    hide *;
    PlansMean(m, catalog, digest);
    errors := EvaluateSection(m.legacy, m.inventory, catalog, listing, PLATFORM_BASELINE, true, digest);
    var more := EvaluateSection(m.qualified.plan, m.qualified.inventory.bootstrapMigrator.withRestore, catalog, listing, QUALIFIED_BASELINE, false, digest);
    errors := errors + more;
    if m.V3? {
      more := EvaluateSection(m.admin.plan, m.admin.inventory.installerManaged, catalog, listing, ADMIN_BASELINE, false, digest);
      errors := errors + more;
    }
    ghost var sound := errors == [];
    for i := 0 to |listing|
      invariant errors == [] <==> sound && forall j :: 0 <= j < i ==> listing[j] in UnionFiles(m)
    {
      if listing[i] !in UnionFiles(m) { errors := errors + [UnmanifestedFile(listing[i])]; }
    }
    ListingCovers(listing, catalog, UnionFiles(m));
  }

  lemma PlansMean(m: Manifest, catalog: map<string, string>, digest: string -> string)
    requires !m.V1?
    ensures PlansAccepted(m, catalog, digest) <==>
      && PlanAccepted(m.legacy, m.inventory, Restrict(catalog, FileSet(Entries(m.legacy))), PLATFORM_BASELINE, true, digest)
      && PlanAccepted(m.qualified.plan, m.qualified.inventory.bootstrapMigrator.withRestore,
                      Restrict(catalog, FileSet(Entries(m.qualified.plan))), QUALIFIED_BASELINE, false, digest)
      && (m.V3? ==>
            PlanAccepted(m.admin.plan, m.admin.inventory.installerManaged,
                         Restrict(catalog, FileSet(Entries(m.admin.plan))), ADMIN_BASELINE, false, digest))
      && catalog.Keys <= UnionFiles(m)
  {
    hide PlanAccepted, Restrict, FileSet, Entries, UnionFiles;
  }

  lemma ListingCovers(listing: seq<string>, catalog: map<string, string>, files: set<string>)
    requires forall f :: f in listing <==> f in catalog
    ensures (forall j :: 0 <= j < |listing| ==> listing[j] in files) <==> catalog.Keys <= files
  {
    if catalog.Keys <= files {
      forall j | 0 <= j < |listing|
        ensures listing[j] in files
      {
        assert listing[j] in listing;
      }
    }
  }

  /** The whole check: malformed inventories and failing plans end it before the order rules are looked at. */
  method EvaluateManifest(m: Manifest, catalog: map<string, string>, listing: seq<string>, digest: string -> string)
    returns (errors: seq<ManifestError>)
    requires forall f :: f in listing <==> f in catalog
    ensures errors == [] <==> ManifestAccepted(m, catalog, digest)
  {
    hide PlanAccepted, PlansAccepted, OrderAccepted, LockCount, FileSet, Entries, IsQualifiedPath, IsSha256, QualifiedInventoryValid;
    if m.V1? {
      var found := EvaluatePlan(m.legacy, m.inventory, catalog, listing, PLATFORM_BASELINE, true, digest);
      return InPlans(found);
    }
    if !QualifiedInventoryValid(m.qualified) { return [BadQualifiedInventory]; }
    if m.V3? && !(IsSha256(m.admin.inventory.installerManaged) && IsSha256(m.admin.inventory.operatorProvisioned)) {
      return [BadAdminInventory];
    }
    errors := EvaluatePlans(m, catalog, listing, digest);
    if errors != [] { return; }
    var found, lock := EvaluateOrder(m.legacy, m.qualified.plan, QUALIFIED_NAMES, m.V3?);
    errors := found;
    if m.V3? {
      var more, adminLock := EvaluateOrder(m.legacy, m.admin.plan, ADMIN_NAMES, true);
      errors := errors + more;
      if RUNTIME_COMPLETION !in FileSet(Entries(m.qualified.plan)) { errors := errors + [CompletionNotSelected]; }
      if lock != adminLock { errors := errors + [LocksDiffer]; }
    } else if lock >= 0 {
      errors := errors + [LockWithoutAdmin];
    }
    if exists f :: f in FileSet(Entries(m.legacy)) && IsQualifiedPath(f) { errors := errors + [LegacySelectsQualified]; }
  }

  // ---- Selection ----

  datatype RoleMode = InstallerManaged | OperatorProvisioned

  datatype Generation =
    | LegacyGeneration
    | AdminGeneration(roleMode: RoleMode)
    | QualifiedGeneration(migrationIsBootstrap: bool, hasRestore: bool)

  /** The plan and the inventory digest of one generation, or nothing where the selection throws. */
  function Select(m: Manifest, g: Generation): Option<(Plan, string)> {
    match g
    case LegacyGeneration => Some((m.legacy, m.inventory))
    case AdminGeneration(mode) =>
      if !m.V3? then None
      else Some((m.admin.plan, if mode.InstallerManaged? then m.admin.inventory.installerManaged else m.admin.inventory.operatorProvisioned))
    case QualifiedGeneration(bootstrap, restore) =>
      if m.V1? then None
      else
        var digests := if bootstrap then m.qualified.inventory.bootstrapMigrator else m.qualified.inventory.separateMigrator;
        if restore then Some((m.qualified.plan, digests.withRestore))
        else match digests.runtimeOnly
          case None => None
          case Some(digest) => Some((m.qualified.plan, digest))
  }

  function BaselineOf(g: Generation): string {
    match g
    case LegacyGeneration => PLATFORM_BASELINE
    case AdminGeneration(_) => ADMIN_BASELINE
    case QualifiedGeneration(_, _) => QUALIFIED_BASELINE
  }

  predicate SelectedAccepted(plan: Plan, inventory: string, catalog: map<string, string>, g: Generation, digest: string -> string) {
    PlanAccepted(plan, inventory, catalog, BaselineOf(g), g.LegacyGeneration?, digest)
  }

  /** Selecting from an accepted manifest gives a plan the executor's own check accepts on the files it binds. */
  lemma SelectionAccepted(m: Manifest, catalog: map<string, string>, digest: string -> string, g: Generation)
    requires ManifestAccepted(m, catalog, digest) && Select(m, g).Some?
    ensures
      var (plan, inventory) := Select(m, g).value;
      SelectedAccepted(plan, inventory, Restrict(catalog, FileSet(Entries(plan))), g, digest)
  {
    hide *;
    InventoriesSound(m, catalog, digest);
    SelectMeans(m, g);
    var (plan, inventory) := Select(m, g).value;
    var part := Restrict(catalog, FileSet(Entries(plan)));
    if m.V1? {
      RestrictAll(m.legacy, m.inventory, catalog, digest);
    } else {
      PlansMean(m, catalog, digest);
      match g {
        case LegacyGeneration =>
        case AdminGeneration(_) =>
          OtherInventory(plan, m.admin.inventory.installerManaged, inventory, part, ADMIN_BASELINE, false, digest);
        case QualifiedGeneration(_, _) =>
          OtherInventory(plan, m.qualified.inventory.bootstrapMigrator.withRestore, inventory, part, QUALIFIED_BASELINE, false, digest);
      }
    }
    AsSelected(plan, inventory, part, g, digest);
  }

  lemma SelectMeans(m: Manifest, g: Generation)
    requires Select(m, g).Some?
    ensures
      var (plan, inventory) := Select(m, g).value;
      match g
      case LegacyGeneration => BaselineOf(g) == PLATFORM_BASELINE && plan == m.legacy && inventory == m.inventory
      case AdminGeneration(_) =>
        && BaselineOf(g) == ADMIN_BASELINE && m.V3? && plan == m.admin.plan
        && inventory in {m.admin.inventory.installerManaged, m.admin.inventory.operatorProvisioned}
      case QualifiedGeneration(_, _) =>
        && BaselineOf(g) == QUALIFIED_BASELINE && !m.V1? && plan == m.qualified.plan
        && exists d :: d in {m.qualified.inventory.bootstrapMigrator, m.qualified.inventory.separateMigrator}
                       && (inventory == d.withRestore || d.runtimeOnly == Some(inventory))
  {
    if g.QualifiedGeneration? {
      var d := if g.migrationIsBootstrap then m.qualified.inventory.bootstrapMigrator else m.qualified.inventory.separateMigrator;
      assert d in {m.qualified.inventory.bootstrapMigrator, m.qualified.inventory.separateMigrator};
    }
  }

  lemma AsSelected(plan: Plan, inventory: string, catalog: map<string, string>, g: Generation, digest: string -> string)
    requires PlanAccepted(plan, inventory, catalog, BaselineOf(g), g.LegacyGeneration?, digest)
    ensures SelectedAccepted(plan, inventory, catalog, g, digest)
  {
    hide PlanAccepted, BaselineOf;
  }

  /** The inventory digests of an accepted manifest are well formed, also those its plan checks did not look at. */
  lemma InventoriesSound(m: Manifest, catalog: map<string, string>, digest: string -> string)
    requires ManifestAccepted(m, catalog, digest)
    ensures if m.V1? then PlanAccepted(m.legacy, m.inventory, catalog, PLATFORM_BASELINE, true, digest) else PlansAccepted(m, catalog, digest)
    ensures !m.V1? ==>
      forall d :: d in {m.qualified.inventory.bootstrapMigrator, m.qualified.inventory.separateMigrator} ==>
        IsSha256(d.withRestore) && (d.runtimeOnly.Some? ==> IsSha256(d.runtimeOnly.value))
    ensures m.V3? ==> IsSha256(m.admin.inventory.installerManaged) && IsSha256(m.admin.inventory.operatorProvisioned)
  {
    hide OrderAccepted, LockCount, IsQualifiedPath, IsSha256, PlanAccepted, PlansAccepted, FileSet, Entries;
  }

  lemma RestrictAll(plan: Plan, inventory: string, catalog: map<string, string>, digest: string -> string)
    requires PlanAccepted(plan, inventory, catalog, PLATFORM_BASELINE, true, digest)
    ensures PlanAccepted(plan, inventory, Restrict(catalog, FileSet(Entries(plan))), PLATFORM_BASELINE, true, digest)
  {
    hide IsSha256, NoRepeats, ValidEntry, FileSet, Entries, Before, Files;
    assert Restrict(catalog, FileSet(Entries(plan))) == catalog;
  }

  lemma OtherInventory(plan: Plan, inventory: string, other: string, catalog: map<string, string>, baselineFile: string, ordered: bool,
                       digest: string -> string)
    requires PlanAccepted(plan, inventory, catalog, baselineFile, ordered, digest) && IsSha256(other)
    ensures PlanAccepted(plan, other, catalog, baselineFile, ordered, digest)
  {
    hide IsSha256, NoRepeats, ValidEntry, FileSet, Entries, Before, Files;
  }

  /** Where selection refuses: a generation the manifest does not have, and a binding without a restore login once the
  retained import is in the plan. */
  lemma SelectionRefused(m: Manifest, catalog: map<string, string>, digest: string -> string, g: Generation)
    requires ManifestAccepted(m, catalog, digest)
    ensures Select(m, g).None? <==> match g
      case LegacyGeneration => false
      case AdminGeneration(_) => !m.V3?
      case QualifiedGeneration(_, restore) => m.V1? || (!restore && exists e :: e in m.qualified.plan.forward && e.file == QUALIFIED_IMPORT)
  {
    hide OrderAccepted, LockCount, IsQualifiedPath, IsSha256, PlanAccepted, PlansAccepted;
  }
}
