/** The platform migration manifest: one legacy plan, and from version 2 and 3 on the qualified plans beside it. */
module MigrationManifest {
  // Digests are computed by a function passed in, and a check accepts when its list of errors is empty; the wording of
  // the errors is not modelled.

  import opened Basics
  import opened Ordering

  datatype Entry = Entry(file: string, sha256: string)

  datatype Plan = Plan(baseline: Entry, forward: seq<Entry>)

  datatype Digests = Digests(runtimeOnly: Option<string>, withRestore: string)

  datatype QualifiedInventory = QualifiedInventory(bootstrapMigrator: Digests, separateMigrator: Digests)

  datatype AdminInventory = AdminInventory(installerManaged: string, operatorProvisioned: string)

  datatype Qualified = Qualified(plan: Plan, inventory: QualifiedInventory)

  datatype Admin = Admin(plan: Plan, inventory: AdminInventory)

  datatype Manifest =
    | V1(legacy: Plan, inventory: string)
    | V2(legacy: Plan, inventory: string, qualified: Qualified)
    | V3(legacy: Plan, inventory: string, qualified: Qualified, admin: Admin)

  function Version(m: Manifest): nat { if m.V1? then 1 else if m.V2? then 2 else 3 }

  // ---- Fixed identities ----

  const DIR := "db/platform/migrations/"
  const Q2 := DIR + "q2_"
  const QA := DIR + "qa_"
  const QB := DIR + "qb_"
  const PLATFORM_BASELINE := DIR + "00000000000000" + "_platform_baseline.sql"
  const QUALIFIED_BASELINE := Q2 + "00000000000000_platform_baseline.sql"
  const QUALIFIED_ACTOR := Q2 + "20260810180001_self_host_actor_auth.sql"
  const QUALIFIED_ACQUISITION := Q2 + "20260816140000_acquisition_case_foundation.sql"
  const QUALIFIED_RUNTIME := Q2 + "20261026130000_runtime_capabilities.sql"
  const QUALIFIED_IMPORT := Q2 + "20261026140000_retained_client_subscription_import.sql"
  const RUNTIME_COMPLETION := Q2 + "20261028100000_runtime_capability_completion.sql"
  const OWNER_PATH := Q2 + "20261029100000_owner_path_name_resolution.sql"
  const LOCK_COMPLETION := Q2 + "20261103200000_runtime_lock_and_conflict_completion.sql"
  const ADMIN_BASELINE := QA + "00000000000000_platform_baseline.sql"
  const ADMIN_ACTOR := QA + "20260810180001_self_host_actor_auth.sql"
  const ADMIN_ACQUISITION := QA + "20260816140000_acquisition_case_foundation.sql"
  const ADMIN_RUNTIME := QA + "20261026130000_runtime_capabilities.sql"
  const ADMIN_IMPORT := QA + "20261026140000_retained_client_subscription_import.sql"
  const REVISED_ACTOR := QB + "20260810180001_self_host_actor_auth.sql"
  const REVISED_ACQUISITION := QB + "20260816140000_acquisition_case_foundation.sql"
  const REVISED_RUNTIME := QB + "20261026130000_runtime_capabilities.sql"
  const REVISED_IMPORT := QB + "20261026140000_retained_client_subscription_import.sql"
  const LEGACY_ACTOR := DIR + "20260810180001_self_host_actor_auth.sql"
  const LEGACY_ACQUISITION := DIR + "20260816140000_acquisition_case_foundation.sql"
  const QUALIFIED_AFTER := DIR + "20261026120000_account_support_operator_authority.sql"

  predicate IsQualifiedPath(file: string) {
    file in {QUALIFIED_BASELINE, QUALIFIED_ACTOR, QUALIFIED_ACQUISITION, QUALIFIED_RUNTIME, QUALIFIED_IMPORT,
             RUNTIME_COMPLETION, OWNER_PATH, LOCK_COMPLETION, ADMIN_BASELINE, ADMIN_ACTOR, ADMIN_ACQUISITION,
             ADMIN_RUNTIME, ADMIN_IMPORT, REVISED_ACTOR, REVISED_ACQUISITION, REVISED_RUNTIME, REVISED_IMPORT}
  }

  predicate IsAlnum(c: char) { '0' <= c <= '9' || 'a' <= c <= 'z' || 'A' <= c <= 'Z' }

  /** A .sql file directly in the platform migration directory. */
  predicate IsPlatformPath(file: string) {
    var n := |DIR|;
    && |file| > n + 4 && file[..n] == DIR && file[|file| - 4..] == ".sql" && IsAlnum(file[n])
    && forall i :: n <= i < |file| - 4 ==> IsAlnum(file[i]) || file[i] == '_' || file[i] == '-'
  }

  /** 64 lower-case hexadecimal digits. */
  predicate IsSha256(s: string) {
    |s| == 64 && forall i :: 0 <= i < 64 ==> '0' <= s[i] <= '9' || 'a' <= s[i] <= 'f'
  }

  // ---- One plan ----

  function Files(entries: seq<Entry>): (r: seq<string>)
    ensures |r| == |entries|
    ensures forall i :: 0 <= i < |r| ==> r[i] == entries[i].file
  {
    seq(|entries|, i requires 0 <= i < |entries| => entries[i].file)
  }

  function Entries(plan: Plan): seq<Entry> { [plan.baseline] + plan.forward }

  function FileSet(entries: seq<Entry>): set<string> { set e | e in entries :: e.file }

  predicate ValidEntry(e: Entry) { IsPlatformPath(e.file) && IsSha256(e.sha256) }

  /** The plan check: `catalog` maps the migration files present to their contents. */
  predicate PlanAccepted(plan: Plan, inventory: string, catalog: map<string, string>, baselineFile: string, ordered: bool,
                         digest: string -> string) {
    && (forall e :: e in Entries(plan) ==> ValidEntry(e))
    && plan.baseline.file == baselineFile
    && IsSha256(inventory)
    && NoRepeats(Files(Entries(plan)))
    && (ordered ==> forall i :: 0 < i < |plan.forward| ==> Before(plan.forward[i - 1].file, plan.forward[i].file))
    && catalog.Keys == FileSet(Entries(plan))
    && (forall e :: e in Entries(plan) ==> e.file in catalog && digest(catalog[e.file]) == e.sha256)
  }

  datatype PlanError =
    | BadPath(file: string) | BadDigest(file: string) | WrongBaseline | BadInventory | Duplicate | OutOfOrder
    | MissingFile(file: string) | Unmanifested(file: string) | Mismatch(file: string)

  /** The plan check as its loops collect errors. `listing` is the catalogue's files in any order. */
  method EvaluatePlan(plan: Plan, inventory: string, catalog: map<string, string>, listing: seq<string>, baselineFile: string,
                      ordered: bool, digest: string -> string) returns (errors: seq<PlanError>)
    requires forall f :: f in listing <==> f in catalog
    ensures errors == [] <==> PlanAccepted(plan, inventory, catalog, baselineFile, ordered, digest)
  {
    var entries := Entries(plan);
    errors := EvaluateEntries(plan, baselineFile);
    if !IsSha256(inventory) { errors := errors + [BadInventory]; }
    if !NoRepeats(Files(entries)) { errors := errors + [Duplicate]; }
    if ordered && exists i :: 0 < i < |plan.forward| && !Before(plan.forward[i - 1].file, plan.forward[i].file) {
      errors := errors + [OutOfOrder];
    }
    var more := EvaluateCatalog(entries, catalog, listing, digest);
    errors := errors + more;
  }

  method EvaluateEntries(plan: Plan, baselineFile: string) returns (errors: seq<PlanError>)
    ensures errors == [] <==> (forall e :: e in Entries(plan) ==> ValidEntry(e)) && plan.baseline.file == baselineFile
  {
    var entries := Entries(plan);
    errors := [];
    for i := 0 to |entries|
      invariant errors == [] <==> forall j :: 0 <= j < i ==> ValidEntry(entries[j])
    {
      if !IsPlatformPath(entries[i].file) { errors := errors + [BadPath(entries[i].file)]; }
      if !IsSha256(entries[i].sha256) { errors := errors + [BadDigest(entries[i].file)]; }
    }
    if plan.baseline.file != baselineFile { errors := errors + [WrongBaseline]; }
  }

  method EvaluateCatalog(entries: seq<Entry>, catalog: map<string, string>, listing: seq<string>, digest: string -> string)
    returns (errors: seq<PlanError>)
    requires forall f :: f in listing <==> f in catalog
    ensures errors == [] <==>
      && catalog.Keys == FileSet(entries)
      && (forall e :: e in entries ==> e.file in catalog && digest(catalog[e.file]) == e.sha256)
  {
    errors := [];
    for i := 0 to |entries|
      invariant errors == [] <==> forall j :: 0 <= j < i ==> entries[j].file in catalog
    {
      if entries[i].file !in catalog { errors := errors + [MissingFile(entries[i].file)]; }
    }
    ghost var presentOk := errors == [];
    for i := 0 to |listing|
      invariant errors == [] <==> presentOk && forall j :: 0 <= j < i ==> listing[j] in FileSet(entries)
    {
      if listing[i] !in FileSet(entries) { errors := errors + [Unmanifested(listing[i])]; }
    }
    ghost var listedOk := errors == [];
    for i := 0 to |entries|
      invariant errors == [] <==>
        listedOk && forall j :: 0 <= j < i && entries[j].file in catalog ==> digest(catalog[entries[j].file]) == entries[j].sha256
    {
      if entries[i].file in catalog && digest(catalog[entries[i].file]) != entries[i].sha256 {
        errors := errors + [Mismatch(entries[i].file)];
      }
    }
    CatalogMatches(entries, catalog, listing);
  }

  lemma CatalogMatches(entries: seq<Entry>, catalog: map<string, string>, listing: seq<string>)
    requires forall f :: f in listing <==> f in catalog
    ensures catalog.Keys == FileSet(entries) <==>
      && (forall j :: 0 <= j < |entries| ==> entries[j].file in catalog)
      && (forall j :: 0 <= j < |listing| ==> listing[j] in FileSet(entries))
  {
    if (forall j :: 0 <= j < |entries| ==> entries[j].file in catalog) && (forall j :: 0 <= j < |listing| ==> listing[j] in FileSet(entries)) {
      forall f
        ensures f in catalog.Keys <==> f in FileSet(entries)
      {
      }
    } else if catalog.Keys == FileSet(entries) {
      forall j | 0 <= j < |entries|
        ensures entries[j].file in catalog
      {
        assert entries[j] in entries;
      }
      forall j | 0 <= j < |listing|
        ensures listing[j] in FileSet(entries)
      {
        assert listing[j] in listing;
      }
    }
  }
}
