/** What an accepted version 3 manifest looks like: the order rules pin each qualified plan to one shape.

The shape is put together from the legacy list, the two renamings and the plan's own tails, with no filtering or search.
*/
module ManifestCanonical {
  import opened Ordering
  import opened MigrationManifest
  import opened ManifestGenerations

  // ---- Fixed names ----

  /** The names of one plan are different files. */
  predicate DistinctNames(n: Names) {
    && n.baseline !in {n.actor, n.acquisition, n.runtime, n.retainedImport, RUNTIME_COMPLETION, OWNER_PATH, LOCK_COMPLETION}
    && n.actor !in {n.acquisition, n.runtime, n.retainedImport, RUNTIME_COMPLETION, OWNER_PATH, LOCK_COMPLETION}
    && n.acquisition !in {n.runtime, n.retainedImport, RUNTIME_COMPLETION, OWNER_PATH, LOCK_COMPLETION}
    && n.runtime !in {n.retainedImport, RUNTIME_COMPLETION, OWNER_PATH, LOCK_COMPLETION}
    && n.retainedImport !in {RUNTIME_COMPLETION, OWNER_PATH, LOCK_COMPLETION}
    && RUNTIME_COMPLETION !in {OWNER_PATH, LOCK_COMPLETION}
    && OWNER_PATH != LOCK_COMPLETION
    && LEGACY_ACTOR !in {LEGACY_ACQUISITION, QUALIFIED_AFTER}
    && LEGACY_ACQUISITION != QUALIFIED_AFTER
  }

  /** A name is a prefix and the part after it, so different parts make different names. */
  lemma Differ(prefix: string, a: string, b: string)
    requires a != b
    ensures prefix + a != prefix + b
  {
    assert (prefix + a)[|prefix|..] == a && (prefix + b)[|prefix|..] == b;
  }

  lemma FixedNamesDistinct()
    ensures DistinctNames(QUALIFIED_NAMES) && DistinctNames(ADMIN_NAMES)
  {
    var actor, runtime := "20260810180001_self_host_actor_auth.sql", "20261026130000_runtime_capabilities.sql";
    assert actor[4] != runtime[4] || actor[7] != runtime[7];
    Differ(Q2, actor, runtime);
    Differ(QB, actor, runtime);
  }

  // ---- Filtering and searching a list of entries ----

  lemma {:induction false} KeepConcat(a: seq<Entry>, b: seq<Entry>, drop: set<string>)
    ensures Keep(a + b, drop) == Keep(a, drop) + Keep(b, drop)
    decreases |a|
  {
    if a == [] {
      assert a + b == b;
    } else {
      assert (a + b)[0] == a[0] && (a + b)[1..] == a[1..] + b;
      KeepConcat(a[1..], b, drop);
    }
  }

  lemma {:induction false} KeepAll(a: seq<Entry>, drop: set<string>)
    requires forall e :: e in a ==> e.file !in drop
    ensures Keep(a, drop) == a
    decreases |a|
  {
    if a != [] { KeepAll(a[1..], drop); }
  }

  lemma {:induction false} KeepNone(a: seq<Entry>, drop: set<string>)
    requires forall e :: e in a ==> e.file in drop
    ensures Keep(a, drop) == []
    decreases |a|
  {
    if a != [] { KeepNone(a[1..], drop); }
  }

  lemma KeepMiddle(a: seq<Entry>, middle: seq<Entry>, b: seq<Entry>, drop: set<string>)
    requires forall e :: e in a ==> e.file !in drop
    requires forall e :: e in middle ==> e.file in drop
    ensures Keep(a + middle + b, drop) == a + Keep(b, drop)
  {
    hide *;
    KeepConcat(a + middle, b, drop);
    KeepConcat(a, middle, drop);
    KeepAll(a, drop);
    KeepNone(middle, drop);
  }

  predicate Once(entries: seq<Entry>) { forall i, j :: 0 <= i < j < |entries| ==> entries[i].file != entries[j].file }

  lemma AtIs(entries: seq<Entry>, i: nat)
    requires Once(entries) && i < |entries|
    ensures At(entries, entries[i].file) == i
  {
    hide At;
    var r := At(entries, entries[i].file);
    assert r >= 0 by { assert entries[i] in entries; }
  }

  lemma AtNone(entries: seq<Entry>, file: string)
    requires forall e :: e in entries ==> e.file != file
    ensures At(entries, file) == -1
  {
    hide *;
    if At(entries, file) != -1 { assert false; }
  }

  /** Taking the one lock unit out of a list. */
  lemma KeepWithoutLock(before: seq<Entry>, lock: Entry, after: seq<Entry>)
    requires Once(before + [lock] + after) && lock.file == LOCK_COMPLETION
    ensures Keep(before + [lock] + after, {LOCK_COMPLETION}) == before + after
  {
    hide Keep;
    var s := before + [lock] + after;
    var p := |before|;
    assert s[p] == lock;
    forall e | e in before
      ensures e.file !in {LOCK_COMPLETION}
    {
      var i :| 0 <= i < |before| && before[i] == e;
      assert s[i] == e;
    }
    forall e | e in after
      ensures e.file !in {LOCK_COMPLETION}
    {
      var i :| 0 <= i < |after| && after[i] == e;
      assert s[p + 1 + i] == e;
    }
    KeepMiddle(before, [lock], after, {LOCK_COMPLETION});
    KeepAll(after, {LOCK_COMPLETION});
  }

  // ---- The order rules against the canonical form ----

  /** What the plan checks say of a legacy plan and a qualified plan before their order is looked at. */
  ghost predicate Fit(legacy: Plan, plan: Plan, names: Names) {
    && DistinctNames(names)
    && Once(legacy.forward) && Once(Entries(plan))
    && plan.baseline.file == names.baseline
    && forall e :: e in Entries(legacy) ==> e.file !in Own(names) + {OWNER_PATH}
  }

  /** Which files the pieces hold. */
  ghost predicate PieceFiles(c: Pieces, legacy: Plan, names: Names) {
    && (forall e :: e in c.head ==> e.file in {names.actor, names.acquisition} || e in legacy.forward)
    && (forall e :: e in c.before ==> e in legacy.forward)
    && (forall e :: e in c.after ==> e in legacy.forward)
    && (forall e :: e in c.tails ==> e.file in Tails(names) && e.file != LOCK_COMPLETION)
    && (forall e :: e in c.lock ==> e.file == LOCK_COMPLETION)
  }

  lemma PiecesHold(legacy: Plan, plan: Plan, names: Names, c: Pieces)
    requires Fit(legacy, plan, names) && Canonical(c, plan.forward, legacy.forward, names)
    ensures PieceFiles(c, legacy, names)
  {
    hide At, Once, Fit, Tails;
    var k := |c.head|;
    TailsHold(legacy, plan, names, c);
    forall e | e in c.head
      ensures e.file in {names.actor, names.acquisition} || e in legacy.forward
    {
      var i :| 0 <= i < k && c.head[i] == e;
      assert RenamedUnit(c.head[i], legacy.forward[i], names);
    }
    var rest := c.before + c.after;
    forall e | e in rest
      ensures e in legacy.forward
    {
      assert e in legacy.forward[k..];
    }
    forall e | e in c.before
      ensures e in legacy.forward
    {
      assert e in rest;
    }
    forall e | e in c.after
      ensures e in legacy.forward
    {
      assert e in rest;
    }
  }

  lemma TailsHold(legacy: Plan, plan: Plan, names: Names, c: Pieces)
    requires Fit(legacy, plan, names) && Canonical(c, plan.forward, legacy.forward, names)
    ensures forall e :: e in c.tails ==> e.file in Tails(names) && e.file != LOCK_COMPLETION
    ensures forall e :: e in c.lock ==> e.file == LOCK_COMPLETION
  {
    hide At, Once, Own, Has;
  }

  /** Legacy units are no unit of a qualified plan's own. */
  lemma LegacyApart(legacy: Plan, plan: Plan, names: Names, e: Entry)
    requires Fit(legacy, plan, names) && e in legacy.forward
    ensures e.file !in Own(names) && e.file != OWNER_PATH && e.file != LOCK_COMPLETION && e.file !in Tails(names)
  {
    hide Once;
    assert e in Entries(legacy);
  }

  lemma FitOpen(legacy: Plan, plan: Plan, names: Names)
    requires Fit(legacy, plan, names)
    ensures DistinctNames(names)
    ensures names.actor !in Tails(names) && names.acquisition !in Tails(names)
    ensures LOCK_COMPLETION in Tails(names)
    ensures Once(plan.forward) && Once(legacy.forward)
  {
    assert Entries(plan)[1..] == plan.forward;
  }

  lemma CanonicalOpen(legacy: Plan, plan: Plan, names: Names, c: Pieces)
    requires Canonical(c, plan.forward, legacy.forward, names)
    ensures plan.forward == c.head + c.tails + c.before + c.lock + c.after
  {
    hide At;
  }

  /** The pieces hold no tail but the tails and the lock unit. */
  lemma PiecesApart(legacy: Plan, plan: Plan, names: Names, c: Pieces)
    requires Fit(legacy, plan, names) && Canonical(c, plan.forward, legacy.forward, names)
    ensures forall e :: e in c.head ==> e.file !in Tails(names)
    ensures forall e :: e in c.before ==> e.file !in Tails(names) && e.file !in {LOCK_COMPLETION}
    ensures forall e :: e in c.after ==> e.file !in Tails(names) && e.file !in {LOCK_COMPLETION}
    ensures forall e :: e in c.tails ==> e.file in Tails(names)
    ensures forall e :: e in c.lock ==> e.file in Tails(names) && e.file in {LOCK_COMPLETION}
  {
    PiecesHold(legacy, plan, names, c);
    FitOpen(legacy, plan, names);
    hide Fit, Canonical, Tails, DistinctNames, Once;
    forall e | e in legacy.forward
      ensures e.file !in Tails(names) && e.file != LOCK_COMPLETION
    {
      LegacyApart(legacy, plan, names, e);
    }
  }

  /** Filtering the tails out of a plan in canonical form leaves the renamed legacy list. */
  lemma SharedUnits(legacy: Plan, plan: Plan, names: Names, c: Pieces)
    requires Fit(legacy, plan, names) && Canonical(c, plan.forward, legacy.forward, names)
    ensures Keep(plan.forward, Tails(names)) == c.head + (c.before + c.after)
    ensures Keep(c.head + c.tails + c.before, Tails(names)) == c.head + c.before
    ensures Keep(c.before + c.lock + c.after, {LOCK_COMPLETION}) == c.before + c.after
    ensures plan.forward == c.head + c.tails + (c.before + c.lock + c.after)
  {
    PiecesApart(legacy, plan, names, c);
    CanonicalOpen(legacy, plan, names, c);
    hide *;
    var drop := Tails(names);
    assert plan.forward == c.head + c.tails + (c.before + c.lock + c.after);
    KeepMiddle(c.head, c.tails, c.before + c.lock + c.after, drop);
    KeepMiddle(c.head, c.tails, c.before, drop);
    KeepMiddle(c.before, c.lock, c.after, drop);
    KeepMiddle(c.before, c.lock, c.after, {LOCK_COMPLETION});
    KeepAll(c.before, drop);
    KeepAll(c.after, drop);
    KeepAll(c.after, {LOCK_COMPLETION});
  }

  /** Where the units of the pieces are. */
  lemma Positions(legacy: Plan, plan: Plan, names: Names, c: Pieces)
    requires Fit(legacy, plan, names) && Canonical(c, plan.forward, legacy.forward, names)
    ensures
      var k := |c.head|;
      && At(plan.forward, QUALIFIED_AFTER) == k - 1
      && At(plan.forward, names.runtime) == k
      && At(plan.forward, names.retainedImport) == k + 1
      && At(plan.forward, RUNTIME_COMPLETION) == k + 2
      && (names.ownerPath ==> At(plan.forward, OWNER_PATH) == if |c.tails| == 4 then k + 3 else -1)
      && At(plan.forward, LOCK_COMPLETION) == if c.lock == [] then -1 else k + |c.tails| + |c.before|
  {
    hide *;
    var k := |c.head|;
    var forward := plan.forward;
    FitOpen(legacy, plan, names);
    UnitsAt(legacy, plan, names, c);
    AbsentUnits(legacy, plan, names, c);
    AtIs(forward, k - 1);
    AtIs(forward, k);
    AtIs(forward, k + 1);
    AtIs(forward, k + 2);
    if |c.tails| == 4 { AtIs(forward, k + 3); } else if names.ownerPath { AtNone(forward, OWNER_PATH); }
    if c.lock != [] { AtIs(forward, k + |c.tails| + |c.before|); } else { AtNone(forward, LOCK_COMPLETION); }
  }

  lemma UnitsAt(legacy: Plan, plan: Plan, names: Names, c: Pieces)
    requires Fit(legacy, plan, names) && Canonical(c, plan.forward, legacy.forward, names)
    ensures
      var k, forward := |c.head|, plan.forward;
      && k > 0 && k + |c.tails| <= |forward| && |c.tails| >= 3
      && forward[k - 1].file == QUALIFIED_AFTER
      && forward[k].file == names.runtime
      && forward[k + 1].file == names.retainedImport
      && forward[k + 2].file == RUNTIME_COMPLETION
      && (|c.tails| > 3 ==> |c.tails| == 4 && names.ownerPath && forward[k + 3].file == OWNER_PATH)
      && (c.lock != [] ==> k + |c.tails| + |c.before| < |forward| && forward[k + |c.tails| + |c.before|].file == LOCK_COMPLETION)
  {
    hide At, Once, Has, Fit;
    FitOpen(legacy, plan, names);
    var k := |c.head|;
    assert RenamedUnit(c.head[k - 1], legacy.forward[k - 1], names);
    assert legacy.forward[k - 1].file == QUALIFIED_AFTER;
    assert plan.forward[k - 1] == c.head[k - 1];
    if c.lock != [] { assert plan.forward[k + |c.tails| + |c.before|] == c.lock[0]; }
  }

  lemma AbsentUnits(legacy: Plan, plan: Plan, names: Names, c: Pieces)
    requires Fit(legacy, plan, names) && Canonical(c, plan.forward, legacy.forward, names)
    ensures c.lock == [] ==> forall e :: e in plan.forward ==> e.file != LOCK_COMPLETION
    ensures names.ownerPath && |c.tails| == 3 ==> forall e :: e in plan.forward ==> e.file != OWNER_PATH
  {
    PiecesHold(legacy, plan, names, c);
    FitOpen(legacy, plan, names);
    CanonicalOpen(legacy, plan, names, c);
    ShortTails(legacy, plan, names, c);
    hide Fit, Canonical, Tails, Once;
    forall e | e in legacy.forward
      ensures e.file != OWNER_PATH && e.file != LOCK_COMPLETION
    {
      LegacyApart(legacy, plan, names, e);
    }
  }

  lemma ShortTails(legacy: Plan, plan: Plan, names: Names, c: Pieces)
    requires Fit(legacy, plan, names) && Canonical(c, plan.forward, legacy.forward, names)
    ensures |c.tails| == 3 ==> forall e :: e in c.tails ==> e.file != OWNER_PATH
  {
    hide At, Once, Has;
  }

  // ---- A plan in canonical form meets the order rules ----

  lemma CanonicalSharedOrder(legacy: Plan, plan: Plan, names: Names, c: Pieces)
    requires Fit(legacy, plan, names) && Canonical(c, plan.forward, legacy.forward, names)
    ensures SharedOrder(legacy, plan, names)
  {
    hide Fit, Keep, Tails, Once, Has, Own, At;
    SharedUnits(legacy, plan, names, c);
    FitOpen(legacy, plan, names);
    var shared := Keep(plan.forward, Tails(names));
    var k, rest := |c.head|, c.before + c.after;
    forall i | 0 <= i < |shared|
      ensures |shared| == |legacy.forward| && SharedUnit(shared[i], legacy.forward[i], names)
    {
      var e := legacy.forward[i];
      LegacyApart(legacy, plan, names, e);
      OwnHas(names);
      if i < k {
        assert RenamedUnit(c.head[i], e, names);
      } else {
        assert shared[i] == rest[i - k] == e;
      }
    }
  }

  lemma OwnHas(names: Names)
    ensures names.actor in Own(names) && names.acquisition in Own(names)
  {
  }

  lemma InFileSet(entries: seq<Entry>, i: nat)
    requires i < |entries|
    ensures entries[i].file in FileSet(entries)
  {
  }

  lemma HeadOpen(legacy: Plan, plan: Plan, names: Names, c: Pieces)
    requires Canonical(c, plan.forward, legacy.forward, names)
    ensures |c.head| <= |legacy.forward| && |c.head| <= |plan.forward| && plan.forward[..|c.head|] == c.head
    ensures forall i :: 0 <= i < |c.head| ==> RenamedUnit(c.head[i], legacy.forward[i], names)
    ensures Has(legacy.forward[..|c.head|], LEGACY_ACTOR) && Has(legacy.forward[..|c.head|], LEGACY_ACQUISITION)
  {
    hide At, RenamedUnit, Has;
  }

  lemma LegacyNamesDiffer(legacy: Plan, plan: Plan, names: Names)
    requires Fit(legacy, plan, names)
    ensures LEGACY_ACTOR != LEGACY_ACQUISITION
  {
    hide Once;
  }

  lemma HeadUnit(legacy: Plan, plan: Plan, names: Names, c: Pieces, old': string, renamed: string)
    requires Fit(legacy, plan, names) && Canonical(c, plan.forward, legacy.forward, names)
    requires (old' == LEGACY_ACTOR && renamed == names.actor) || (old' == LEGACY_ACQUISITION && renamed == names.acquisition)
    ensures renamed in FileSet(Entries(plan))
  {
    hide Fit, Canonical, FileSet, At, Once, Own, Tails;
    LegacyNamesDiffer(legacy, plan, names);
    HeadOpen(legacy, plan, names, c);
    var k := |c.head|;
    var e :| e in legacy.forward[..k] && e.file == old';
    var i :| 0 <= i < k && legacy.forward[..k][i] == e;
    assert RenamedUnit(c.head[i], legacy.forward[i], names);
    assert Entries(plan)[i + 1] == plan.forward[i] == plan.forward[..k][i];
    InFileSet(Entries(plan), i + 1);
  }

  lemma CanonicalFilesChosen(legacy: Plan, plan: Plan, names: Names, c: Pieces)
    requires Fit(legacy, plan, names) && Canonical(c, plan.forward, legacy.forward, names)
    ensures FilesChosen(legacy, plan, names, true)
  {
    HeadUnit(legacy, plan, names, c, LEGACY_ACTOR, names.actor);
    HeadUnit(legacy, plan, names, c, LEGACY_ACQUISITION, names.acquisition);
    UnitsAt(legacy, plan, names, c);
    var k := |c.head|;
    InFileSet(Entries(plan), k + 1);
    InFileSet(Entries(plan), k + 2);
    InFileSet(Entries(plan), k + 3);
    NoStrangers(legacy, plan, names, c);
    hide FileSet, Fit, Canonical, Own;
  }

  lemma NoStrangers(legacy: Plan, plan: Plan, names: Names, c: Pieces)
    requires Fit(legacy, plan, names) && Canonical(c, plan.forward, legacy.forward, names)
    ensures FileSet(Entries(plan)) <= FileSet(Entries(legacy)) + Own(names)
  {
    PiecesHold(legacy, plan, names, c);
    CanonicalOpen(legacy, plan, names, c);
    assert plan.baseline.file == names.baseline;
    hide Fit, Canonical, Once;
    forall e | e in Entries(plan)
      ensures e.file in FileSet(Entries(legacy)) + Own(names)
    {
      if e in legacy.forward { assert e in Entries(legacy); }
    }
  }

  lemma CanonicalTails(legacy: Plan, plan: Plan, names: Names, c: Pieces)
    requires Fit(legacy, plan, names) && Canonical(c, plan.forward, legacy.forward, names)
    ensures TailOrder(plan, names) && TailsInPlace(legacy, plan, names)
    ensures LastTail(plan.forward, names) + 1 == |c.head| + |c.tails|
  {
    Positions(legacy, plan, names, c);
    CanonicalRest(legacy, plan, names, c);
    UnitsAt(legacy, plan, names, c);
    hide Fit, Canonical, At;
  }

  lemma CanonicalSuffix(legacy: Plan, plan: Plan, names: Names, c: Pieces)
    requires Fit(legacy, plan, names) && Canonical(c, plan.forward, legacy.forward, names)
    ensures SuffixShared(legacy, plan, names)
  {
    hide *;
    CanonicalTails(legacy, plan, names, c);
    CanonicalRest(legacy, plan, names, c);
    SharedUnits(legacy, plan, names, c);
    DropPrefix(c.head + c.tails, c.before + c.lock + c.after);
    SuffixFrom(legacy, plan, names, c.head + c.tails, c.before + c.lock + c.after, |c.head|);
  }

  lemma DropPrefix(prefix: seq<Entry>, suffix: seq<Entry>)
    ensures (prefix + suffix)[|prefix|..] == suffix
  {
  }

  lemma SuffixFrom(legacy: Plan, plan: Plan, names: Names, prefix: seq<Entry>, suffix: seq<Entry>, k: nat)
    requires plan.forward == prefix + suffix && LastTail(plan.forward, names) + 1 == |prefix|
    requires At(legacy.forward, QUALIFIED_AFTER) + 1 == k <= |legacy.forward|
    requires Keep(suffix, {LOCK_COMPLETION}) == legacy.forward[k..]
    ensures SuffixShared(legacy, plan, names)
  {
    hide LastTail, At, Keep;
    DropPrefix(prefix, suffix);
  }

  lemma CanonicalLock(legacy: Plan, plan: Plan, names: Names, c: Pieces)
    requires Fit(legacy, plan, names) && Canonical(c, plan.forward, legacy.forward, names)
    ensures LockCount(plan, names) == if c.lock == [] then -1 else |c.head| + |c.before|
  {
    SharedUnits(legacy, plan, names, c);
    Positions(legacy, plan, names, c);
    hide Fit, Canonical, Keep, At, Tails;
    if c.lock != [] { assert plan.forward[..|c.head| + |c.tails| + |c.before|] == c.head + c.tails + c.before; }
  }

  /** A plan in canonical form meets every order rule, and its lock unit comes after as many shared units as its pieces
  say. */
  lemma CanonicalIsOrdered(legacy: Plan, plan: Plan, names: Names, c: Pieces)
    requires Fit(legacy, plan, names) && Canonical(c, plan.forward, legacy.forward, names)
    ensures OrderAccepted(legacy, plan, names, true)
    ensures LockCount(plan, names) == if c.lock == [] then -1 else |c.head| + |c.before|
  {
    CanonicalSharedOrder(legacy, plan, names, c);
    CanonicalFilesChosen(legacy, plan, names, c);
    CanonicalTails(legacy, plan, names, c);
    CanonicalSuffix(legacy, plan, names, c);
    CanonicalLock(legacy, plan, names, c);
    hide SharedOrder, FilesChosen, TailOrder, SuffixShared, TailsInPlace, Fit, Canonical, LockCount;
  }

  lemma CanonicalRest(legacy: Plan, plan: Plan, names: Names, c: Pieces)
    requires Canonical(c, plan.forward, legacy.forward, names)
    ensures At(legacy.forward, QUALIFIED_AFTER) + 1 == |c.head| <= |legacy.forward|
    ensures c.before + c.after == legacy.forward[|c.head|..]
    ensures 3 <= |c.tails| <= 4 && (|c.tails| == 4 ==> names.ownerPath)
  {
    hide At, Has;
  }

  // ---- A plan that meets the order rules is in canonical form ----

  /** A list cut at `k`, `n` and around `lock`, if it is a position at all. */
  function CutAt(forward: seq<Entry>, k: nat, n: nat, lock: int): (c: Pieces)
    requires k <= n <= |forward| && (lock < 0 || n <= lock < |forward|)
    ensures |c.head| == k && |c.tails| == n - k
    ensures forall i :: 0 <= i < k ==> c.head[i] == forward[i]
    ensures forall i :: 0 <= i < n - k ==> c.tails[i] == forward[k + i]
    ensures if lock < 0 then c.lock == [] && c.after == [] else c.lock == [forward[lock]]
    ensures c.head + c.tails == forward[..n]
    ensures c.before + c.lock + c.after == forward[n..]
    ensures c.head + c.tails + c.before + c.lock + c.after == forward
  {
    var rest := forward[n..];
    if lock < 0 then Pieces(forward[..k], forward[k..n], rest, [], [])
    else Pieces(forward[..k], forward[k..n], forward[n..lock], [forward[lock]], forward[lock + 1..])
  }

  /** What the order rules say of positions, in numbers. */
  lemma TailNumbers(legacy: Plan, plan: Plan, names: Names)
    requires TailsInPlace(legacy, plan, names) && TailOrder(plan, names)
    ensures
      var k, n, lock := At(legacy.forward, QUALIFIED_AFTER) + 1, LastTail(plan.forward, names) + 1, At(plan.forward, LOCK_COMPLETION);
      && 0 < k <= n <= |plan.forward| && (lock < 0 || n <= lock < |plan.forward|)
      && 3 <= n - k <= (if names.ownerPath then 4 else 3)
      && plan.forward[k].file == names.runtime
      && plan.forward[k + 1].file == names.retainedImport
      && plan.forward[k + 2].file == RUNTIME_COMPLETION
      && (n - k == 4 ==> plan.forward[k + 3].file == OWNER_PATH)
      && (lock >= 0 ==> plan.forward[lock].file == LOCK_COMPLETION)
      && (lock < 0 ==> forall e :: e in plan.forward ==> e.file != LOCK_COMPLETION)
  {
    hide At;
  }

  /** `c` takes `forward` apart as its positions say: `k` units, the tails, and the rest around the lock unit. */
  ghost predicate Cut(c: Pieces, forward: seq<Entry>, k: nat, names: Names) {
    && forward == c.head + c.tails + c.before + c.lock + c.after
    && 0 < |c.head| == k
    && 3 <= |c.tails| <= (if names.ownerPath then 4 else 3)
    && c.tails[0].file == names.runtime
    && c.tails[1].file == names.retainedImport
    && c.tails[2].file == RUNTIME_COMPLETION
    && (|c.tails| == 4 ==> c.tails[3].file == OWNER_PATH)
    && (if c.lock == [] then c.after == [] && forall e :: e in forward ==> e.file != LOCK_COMPLETION
        else |c.lock| == 1 && c.lock[0].file == LOCK_COMPLETION)
  }

  lemma Take(legacy: Plan, plan: Plan, names: Names) returns (c: Pieces)
    requires TailsInPlace(legacy, plan, names) && TailOrder(plan, names)
    ensures Cut(c, plan.forward, At(legacy.forward, QUALIFIED_AFTER) + 1, names)
    ensures |c.head| + |c.tails| == LastTail(plan.forward, names) + 1
  {
    hide *;
    TailNumbers(legacy, plan, names);
    c := TakeAt(plan.forward, At(legacy.forward, QUALIFIED_AFTER) + 1, LastTail(plan.forward, names) + 1,
                At(plan.forward, LOCK_COMPLETION), names);
  }

  lemma TakeAt(forward: seq<Entry>, k: nat, n: nat, lock: int, names: Names) returns (c: Pieces)
    requires 0 < k <= n <= |forward| && (lock < 0 || n <= lock < |forward|)
    requires 3 <= n - k <= (if names.ownerPath then 4 else 3)
    requires forward[k].file == names.runtime && forward[k + 1].file == names.retainedImport && forward[k + 2].file == RUNTIME_COMPLETION
    requires n - k == 4 ==> forward[k + 3].file == OWNER_PATH
    requires if lock < 0 then forall e :: e in forward ==> e.file != LOCK_COMPLETION else forward[lock].file == LOCK_COMPLETION
    ensures Cut(c, forward, k, names)
    ensures |c.head| + |c.tails| == n
  {
    hide *;
    c := CutAt(forward, k, n, lock);
    MakeCut(c, forward, k, names);
  }

  lemma MakeCut(c: Pieces, forward: seq<Entry>, k: nat, names: Names)
    requires forward == c.head + c.tails + c.before + c.lock + c.after
    requires 0 < |c.head| == k
    requires 3 <= |c.tails| <= (if names.ownerPath then 4 else 3)
    requires c.tails[0].file == names.runtime && c.tails[1].file == names.retainedImport && c.tails[2].file == RUNTIME_COMPLETION
    requires |c.tails| == 4 ==> c.tails[3].file == OWNER_PATH
    requires if c.lock == [] then c.after == [] && forall e :: e in forward ==> e.file != LOCK_COMPLETION
             else |c.lock| == 1 && c.lock[0].file == LOCK_COMPLETION
    ensures Cut(c, forward, k, names)
  {
  }

  lemma CutTails(c: Pieces, forward: seq<Entry>, k: nat, names: Names)
    requires Cut(c, forward, k, names)
    ensures forall e :: e in c.tails ==> e.file in Tails(names)
    ensures forall e :: e in c.lock ==> e.file == LOCK_COMPLETION
  {
  }

  lemma CutOpen(c: Pieces, forward: seq<Entry>, k: nat, names: Names)
    requires Cut(c, forward, k, names)
    ensures forward == c.head + c.tails + c.before + c.lock + c.after
    ensures forward == c.head + (c.tails + c.before + c.lock + c.after)
    ensures |c.head| == k && |c.head| + |c.tails| <= |forward|
    ensures forward[|c.head| + |c.tails|..] == c.before + c.lock + c.after
    ensures if c.lock == [] then c.after == [] && forall e :: e in forward ==> e.file != LOCK_COMPLETION
            else |c.lock| == 1 && c.lock[0].file == LOCK_COMPLETION
  {
  }

  /** Outside its tails a plan has only the legacy rest and the lock unit. */
  lemma CutRest(legacy: Plan, plan: Plan, names: Names, c: Pieces, k: nat)
    requires Cut(c, plan.forward, k, names) && Once(plan.forward)
    requires |c.head| + |c.tails| == LastTail(plan.forward, names) + 1
    requires k == At(legacy.forward, QUALIFIED_AFTER) + 1
    requires SuffixShared(legacy, plan, names)
    ensures c.before + c.after == legacy.forward[k..]
  {
    hide Cut, Once, Keep, At, LastTail;
    CutOpen(c, plan.forward, k, names);
    RestKept(plan.forward, |c.head| + |c.tails|, c);
  }

  lemma RestKept(forward: seq<Entry>, n: nat, c: Pieces)
    requires Once(forward) && n <= |forward| && forward[n..] == c.before + c.lock + c.after
    requires if c.lock == [] then c.after == [] && forall e :: e in forward ==> e.file != LOCK_COMPLETION
             else |c.lock| == 1 && c.lock[0].file == LOCK_COMPLETION
    ensures Keep(forward[n..], {LOCK_COMPLETION}) == c.before + c.after
  {
    hide Keep;
    var s := forward[n..];
    if c.lock == [] {
      assert s == c.before == c.before + c.after;
      forall e | e in s
        ensures e.file !in {LOCK_COMPLETION}
      {
        assert e in forward;
      }
      KeepAll(s, {LOCK_COMPLETION});
    } else {
      assert s == c.before + [c.lock[0]] + c.after;
      KeepWithoutLock(c.before, c.lock[0], c.after);
    }
  }

  /** The head holds no tail unit: those all stand after it. */
  lemma HeadApart(legacy: Plan, plan: Plan, names: Names, i: nat)
    requires TailsInPlace(legacy, plan, names) && TailOrder(plan, names)
    requires Once(plan.forward) && i <= At(legacy.forward, QUALIFIED_AFTER) && i < |plan.forward|
    ensures plan.forward[i].file !in Tails(names)
  {
    hide At, Once;
    AtIs(plan.forward, i);
  }

  /** Filtering the tails out leaves the head in front. */
  lemma HeadShared(legacy: Plan, plan: Plan, names: Names, c: Pieces, k: nat)
    requires Once(plan.forward) && TailsInPlace(legacy, plan, names) && TailOrder(plan, names)
    requires Cut(c, plan.forward, k, names) && k == At(legacy.forward, QUALIFIED_AFTER) + 1
    ensures exists more :: Keep(plan.forward, Tails(names)) == c.head + more
  {
    CutOpen(c, plan.forward, k, names);
    hide *;
    var drop, rest := Tails(names), c.tails + c.before + c.lock + c.after;
    forall e | e in c.head
      ensures e.file !in drop
    {
      var i :| 0 <= i < |c.head| && c.head[i] == e;
      assert plan.forward[i] == e;
      HeadApart(legacy, plan, names, i);
    }
    KeepConcat(c.head, rest, drop);
    KeepAll(c.head, drop);
  }

  lemma HeadUnits(legacy: Plan, plan: Plan, names: Names, c: Pieces, k: nat)
    requires Once(plan.forward) && OrderAccepted(legacy, plan, names, true)
    requires Cut(c, plan.forward, k, names) && k == At(legacy.forward, QUALIFIED_AFTER) + 1
    ensures |c.head| <= |legacy.forward|
    ensures forall i :: 0 <= i < |c.head| ==> SharedUnit(c.head[i], legacy.forward[i], names)
  {
    HeadShared(legacy, plan, names, c, k);
    hide Once, FilesChosen, TailOrder, SuffixShared, TailsInPlace, Cut, At, Keep, Tails, SharedUnit;
    var more :| Keep(plan.forward, Tails(names)) == c.head + more;
    forall i | 0 <= i < |c.head|
      ensures i < |legacy.forward| && SharedUnit(c.head[i], legacy.forward[i], names)
    {
      assert Keep(plan.forward, Tails(names))[i] == c.head[i];
    }
  }

  /** A renamed unit the plan has stands in its head. */
  lemma RenamedInHead(legacy: Plan, plan: Plan, names: Names, c: Pieces, k: nat, renamed: string) returns (j: nat)
    requires Fit(legacy, plan, names) && OrderAccepted(legacy, plan, names, true)
    requires Cut(c, plan.forward, k, names)
    requires forall x :: x in c.before ==> x in legacy.forward
    requires forall x :: x in c.after ==> x in legacy.forward
    requires renamed in {names.actor, names.acquisition}
    ensures j < |c.head| && c.head[j].file == renamed
  {
    hide *;
    RenamedPresent(legacy, plan, names, renamed);
    RenamedOwn(legacy, plan, names, renamed);
    CutTails(c, plan.forward, k, names);
    CutOpen(c, plan.forward, k, names);
    var e :| e in plan.forward && e.file == renamed;
    forall x | x in legacy.forward
      ensures x.file != renamed
    {
      LegacyApart(legacy, plan, names, x);
    }
    j :| 0 <= j < |c.head| && c.head[j] == e;
  }

  lemma RenamedPresent(legacy: Plan, plan: Plan, names: Names, renamed: string)
    requires Fit(legacy, plan, names) && OrderAccepted(legacy, plan, names, true)
    requires renamed in {names.actor, names.acquisition}
    ensures exists e :: e in plan.forward && e.file == renamed
  {
    hide Once, Own, SharedOrder, TailOrder, SuffixShared, TailsInPlace;
    assert renamed in FileSet(Entries(plan));
    var e :| e in Entries(plan) && e.file == renamed;
    assert e in plan.forward;
  }

  lemma RenamedOwn(legacy: Plan, plan: Plan, names: Names, renamed: string)
    requires Fit(legacy, plan, names) && renamed in {names.actor, names.acquisition}
    ensures renamed in Own(names) && renamed !in Tails(names) && renamed != LOCK_COMPLETION
  {
    hide Once;
  }

  /** Every unit of the head is the legacy unit at its place, renamed if that is a bootstrap unit. */
  lemma HeadRenamed(legacy: Plan, plan: Plan, names: Names, c: Pieces, k: nat)
    requires Fit(legacy, plan, names) && OrderAccepted(legacy, plan, names, true)
    requires Cut(c, plan.forward, k, names) && k == At(legacy.forward, QUALIFIED_AFTER) + 1
    requires c.before + c.after == legacy.forward[k..]
    ensures Has(legacy.forward[..k], LEGACY_ACTOR) && Has(legacy.forward[..k], LEGACY_ACQUISITION)
    ensures forall i :: 0 <= i < k ==> RenamedUnit(c.head[i], legacy.forward[i], names)
  {
    hide *;
    FitOpen(legacy, plan, names);
    CutOpen(c, plan.forward, k, names);
    HeadUnits(legacy, plan, names, c, k);
    forall x | x in c.before + c.after
      ensures x in legacy.forward
    {
      assert x in legacy.forward[k..];
    }
    var a := RenamedInHead(legacy, plan, names, c, k, names.actor);
    var q := RenamedInHead(legacy, plan, names, c, k, names.acquisition);
    LegacyOf(legacy, plan, names, c.head[a], legacy.forward[a]);
    LegacyOf(legacy, plan, names, c.head[q], legacy.forward[q]);
    HasAt(legacy.forward, k, a);
    HasAt(legacy.forward, k, q);
    forall i | 0 <= i < k
      ensures RenamedUnit(c.head[i], legacy.forward[i], names)
    {
      OnlyOnce(legacy.forward, i, a);
      OnlyOnce(legacy.forward, i, q);
      UnitRenamed(legacy, plan, names, c.head[i], legacy.forward[i], c.head[a], c.head[q], i == a, i == q);
    }
  }

  lemma LegacyOf(legacy: Plan, plan: Plan, names: Names, entry: Entry, original: Entry)
    requires Fit(legacy, plan, names) && SharedUnit(entry, original, names)
    ensures entry.file == names.actor ==> original.file == LEGACY_ACTOR
    ensures entry.file == names.acquisition ==> original.file == LEGACY_ACQUISITION
  {
    hide Once, Own;
  }

  lemma HasAt(entries: seq<Entry>, k: nat, i: nat)
    requires i < k <= |entries|
    ensures Has(entries[..k], entries[i].file)
  {
    assert entries[..k][i] == entries[i];
  }

  lemma OnlyOnce(entries: seq<Entry>, i: nat, j: nat)
    requires Once(entries) && i < |entries| && j < |entries|
    ensures entries[i].file == entries[j].file ==> i == j
  {
  }

  lemma UnitRenamed(legacy: Plan, plan: Plan, names: Names, entry: Entry, original: Entry, actor: Entry, acquisition: Entry,
                    isActor: bool, isAcquisition: bool)
    requires Fit(legacy, plan, names) && SharedUnit(entry, original, names)
    requires actor.file == names.actor && acquisition.file == names.acquisition
    requires isActor ==> entry == actor
    requires isAcquisition ==> entry == acquisition
    requires original.file == LEGACY_ACTOR ==> isActor
    requires original.file == LEGACY_ACQUISITION ==> isAcquisition
    ensures RenamedUnit(entry, original, names)
  {
    hide Once, Own;
  }

  /** A plan that meets every order rule is in canonical form. */
  lemma OrderedIsCanonical(legacy: Plan, plan: Plan, names: Names) returns (c: Pieces)
    requires Fit(legacy, plan, names) && OrderAccepted(legacy, plan, names, true)
    ensures Canonical(c, plan.forward, legacy.forward, names)
  {
    FitOpen(legacy, plan, names);
    c := Take(legacy, plan, names);
    var k := At(legacy.forward, QUALIFIED_AFTER) + 1;
    CutRest(legacy, plan, names, c, k);
    HeadRenamed(legacy, plan, names, c, k);
    hide Fit, OrderAccepted, At, Tails, Own, Has, RenamedUnit, Once;
  }

  // ---- The whole manifest ----

  /** What the check of one plan demands apart from the catalogue. */
  ghost predicate PlanSound(plan: Plan, inventory: string, baselineFile: string, ordered: bool) {
    && (forall e :: e in Entries(plan) ==> ValidEntry(e))
    && plan.baseline.file == baselineFile
    && IsSha256(inventory)
    && NoRepeats(Files(Entries(plan)))
    && (ordered ==> forall i :: 0 < i < |plan.forward| ==> Before(plan.forward[i - 1].file, plan.forward[i].file))
  }

  ghost predicate Hashed(entries: seq<Entry>, catalog: map<string, string>, digest: string -> string) {
    forall e :: e in entries ==> e.file in catalog && digest(catalog[e.file]) == e.sha256
  }

  lemma PlanSplits(plan: Plan, inventory: string, catalog: map<string, string>, baselineFile: string, ordered: bool,
                   digest: string -> string)
    ensures PlanAccepted(plan, inventory, Restrict(catalog, FileSet(Entries(plan))), baselineFile, ordered, digest)
            <==> PlanSound(plan, inventory, baselineFile, ordered) && Hashed(Entries(plan), catalog, digest)
  {
    hide ValidEntry, IsSha256, NoRepeats, Files, Before, Entries;
    var files := FileSet(Entries(plan));
    var part := Restrict(catalog, files);
    forall e | e in Entries(plan)
      ensures e.file in files
      ensures e.file in part <==> e.file in catalog
    {
    }
    if Hashed(Entries(plan), catalog, digest) { assert part.Keys == files; }
  }

  /** The legacy plan selects no file of a qualified generation. */
  ghost predicate LegacyUnqualified(legacy: Plan) { forall e :: e in Entries(legacy) ==> !IsQualifiedPath(e.file) }

  lemma OwnQualified(names: Names, file: string)
    requires names == QUALIFIED_NAMES || names == ADMIN_NAMES
    requires file in Own(names) + {OWNER_PATH}
    ensures IsQualifiedPath(file)
  {
  }

  lemma OnceMeans(entries: seq<Entry>)
    requires NoRepeats(Files(entries))
    ensures Once(entries)
  {
    forall i, j | 0 <= i < j < |entries|
      ensures entries[i].file != entries[j].file
    {
      assert Files(entries)[i] != Files(entries)[j];
    }
  }

  lemma PlansFit(legacy: Plan, legacyInventory: string, plan: Plan, inventory: string, names: Names)
    requires names == QUALIFIED_NAMES || names == ADMIN_NAMES
    requires PlanSound(legacy, legacyInventory, PLATFORM_BASELINE, true) && PlanSound(plan, inventory, names.baseline, false)
    requires LegacyUnqualified(legacy)
    ensures Fit(legacy, plan, names)
  {
    FixedNamesDistinct();
    OnceMeans(Entries(legacy));
    OnceMeans(Entries(plan));
    assert Entries(legacy)[1..] == legacy.forward;
    hide IsQualifiedPath, Own, DistinctNames, ValidEntry, IsSha256, NoRepeats, Files, Before;
    forall e | e in Entries(legacy)
      ensures e.file !in Own(names) + {OWNER_PATH}
    {
      if e.file in Own(names) + {OWNER_PATH} { OwnQualified(names, e.file); }
    }
  }

  /** The lock unit is in both plans after the same shared units, or in neither. */
  ghost predicate SameLock(q: Pieces, a: Pieces) { |q.lock| == |a.lock| && q.before == a.before && q.after == a.after }

  lemma LocksAgree(legacy: Plan, plan: Plan, other: Plan, names: Names, names': Names, q: Pieces, a: Pieces)
    requires Fit(legacy, plan, names) && Canonical(q, plan.forward, legacy.forward, names)
    requires Fit(legacy, other, names') && Canonical(a, other.forward, legacy.forward, names')
    ensures LockCount(plan, names) == LockCount(other, names') <==> SameLock(q, a)
  {
    CanonicalLock(legacy, plan, names, q);
    CanonicalLock(legacy, other, names', a);
    CanonicalRest(legacy, plan, names, q);
    CanonicalRest(legacy, other, names', a);
    PiecesLock(q, plan, legacy, names);
    PiecesLock(a, other, legacy, names');
    hide *;
    var rest := legacy.forward[|q.head|..];
    assert rest[..|q.before|] == q.before && rest[|q.before|..] == q.after;
    assert rest[..|a.before|] == a.before && rest[|a.before|..] == a.after;
    SameLockMeans(q, a);
  }

  lemma SameLockMeans(q: Pieces, a: Pieces)
    ensures SameLock(q, a) <==> |q.lock| == |a.lock| && q.before == a.before && q.after == a.after
  {
  }

  lemma PiecesLock(c: Pieces, plan: Plan, legacy: Plan, names: Names)
    requires Canonical(c, plan.forward, legacy.forward, names)
    ensures if c.lock == [] then c.after == [] else |c.lock| == 1
  {
    hide At, Has, RenamedUnit;
  }

  /** Both plans are in canonical form around one legacy list and one place of the lock unit. */
  ghost predicate CanonicalPair(legacy: Plan, qualified: Plan, admin: Plan) {
    exists q: Pieces, a: Pieces ::
      && Canonical(q, qualified.forward, legacy.forward, QUALIFIED_NAMES)
      && Canonical(a, admin.forward, legacy.forward, ADMIN_NAMES)
      && SameLock(q, a)
  }

  lemma PairIsOrdered(legacy: Plan, qualified: Plan, admin: Plan)
    requires Fit(legacy, qualified, QUALIFIED_NAMES) && Fit(legacy, admin, ADMIN_NAMES)
    ensures CanonicalPair(legacy, qualified, admin) <==>
      && OrderAccepted(legacy, qualified, QUALIFIED_NAMES, true)
      && OrderAccepted(legacy, admin, ADMIN_NAMES, true)
      && LockCount(qualified, QUALIFIED_NAMES) == LockCount(admin, ADMIN_NAMES)
  {
    hide Fit, OrderAccepted, LockCount, Canonical, SameLock;
    if CanonicalPair(legacy, qualified, admin) {
      var q: Pieces, a: Pieces :|
        && Canonical(q, qualified.forward, legacy.forward, QUALIFIED_NAMES)
        && Canonical(a, admin.forward, legacy.forward, ADMIN_NAMES)
        && SameLock(q, a);
      CanonicalIsOrdered(legacy, qualified, QUALIFIED_NAMES, q);
      CanonicalIsOrdered(legacy, admin, ADMIN_NAMES, a);
      LocksAgree(legacy, qualified, admin, QUALIFIED_NAMES, ADMIN_NAMES, q, a);
    } else if OrderAccepted(legacy, qualified, QUALIFIED_NAMES, true) && OrderAccepted(legacy, admin, ADMIN_NAMES, true) {
      var q := OrderedIsCanonical(legacy, qualified, QUALIFIED_NAMES);
      var a := OrderedIsCanonical(legacy, admin, ADMIN_NAMES);
      LocksAgree(legacy, qualified, admin, QUALIFIED_NAMES, ADMIN_NAMES, q, a);
    }
  }

  /** Exactly which version 3 manifests are accepted: sound plans whose qualified lists are the legacy list in canonical
  form with the lock unit at one place, and a catalogue that is exactly the hashed union of the three plans. */
  lemma AcceptedManifests(m: Manifest, catalog: map<string, string>, digest: string -> string)
    requires m.V3?
    ensures ManifestAccepted(m, catalog, digest) <==>
      && QualifiedInventoryValid(m.qualified)
      && IsSha256(m.admin.inventory.installerManaged) && IsSha256(m.admin.inventory.operatorProvisioned)
      && PlanSound(m.legacy, m.inventory, PLATFORM_BASELINE, true)
      && PlanSound(m.qualified.plan, m.qualified.inventory.bootstrapMigrator.withRestore, QUALIFIED_BASELINE, false)
      && PlanSound(m.admin.plan, m.admin.inventory.installerManaged, ADMIN_BASELINE, false)
      && LegacyUnqualified(m.legacy)
      && CanonicalPair(m.legacy, m.qualified.plan, m.admin.plan)
      && catalog.Keys == UnionFiles(m)
      && Hashed(Entries(m.legacy) + Entries(m.qualified.plan) + Entries(m.admin.plan), catalog, digest)
  {
    hide *;
    var q, a := m.qualified.plan, m.admin.plan;
    AcceptedUnfolds(m, catalog, digest);
    BaselineNames();
    PlanSplits(m.legacy, m.inventory, catalog, PLATFORM_BASELINE, true, digest);
    PlanSplits(q, m.qualified.inventory.bootstrapMigrator.withRestore, catalog, QUALIFIED_BASELINE, false, digest);
    PlanSplits(a, m.admin.inventory.installerManaged, catalog, ADMIN_BASELINE, false, digest);
    UnqualifiedMeans(m.legacy);
    UnionHashed(m, catalog, digest);
    if PlanSound(m.legacy, m.inventory, PLATFORM_BASELINE, true) && LegacyUnqualified(m.legacy)
       && PlanSound(q, m.qualified.inventory.bootstrapMigrator.withRestore, QUALIFIED_BASELINE, false)
       && PlanSound(a, m.admin.inventory.installerManaged, ADMIN_BASELINE, false) {
      PlansFit(m.legacy, m.inventory, q, m.qualified.inventory.bootstrapMigrator.withRestore, QUALIFIED_NAMES);
      PlansFit(m.legacy, m.inventory, a, m.admin.inventory.installerManaged, ADMIN_NAMES);
      PairIsOrdered(m.legacy, q, a);
      CompletionChosen(m.legacy, q);
    }
  }

  lemma BaselineNames()
    ensures QUALIFIED_NAMES.baseline == QUALIFIED_BASELINE && ADMIN_NAMES.baseline == ADMIN_BASELINE
  {
  }

  lemma AcceptedUnfolds(m: Manifest, catalog: map<string, string>, digest: string -> string)
    requires m.V3?
    ensures ManifestAccepted(m, catalog, digest) <==>
      && QualifiedInventoryValid(m.qualified)
      && IsSha256(m.admin.inventory.installerManaged) && IsSha256(m.admin.inventory.operatorProvisioned)
      && PlanAccepted(m.legacy, m.inventory, Restrict(catalog, FileSet(Entries(m.legacy))), PLATFORM_BASELINE, true, digest)
      && PlanAccepted(m.qualified.plan, m.qualified.inventory.bootstrapMigrator.withRestore,
                      Restrict(catalog, FileSet(Entries(m.qualified.plan))), QUALIFIED_BASELINE, false, digest)
      && PlanAccepted(m.admin.plan, m.admin.inventory.installerManaged,
                      Restrict(catalog, FileSet(Entries(m.admin.plan))), ADMIN_BASELINE, false, digest)
      && catalog.Keys <= UnionFiles(m)
      && OrderAccepted(m.legacy, m.qualified.plan, QUALIFIED_NAMES, true)
      && OrderAccepted(m.legacy, m.admin.plan, ADMIN_NAMES, true)
      && RUNTIME_COMPLETION in FileSet(Entries(m.qualified.plan))
      && LockCount(m.qualified.plan, QUALIFIED_NAMES) == LockCount(m.admin.plan, ADMIN_NAMES)
      && (forall f :: f in FileSet(Entries(m.legacy)) ==> !IsQualifiedPath(f))
  {
    hide PlanAccepted, OrderAccepted, LockCount, QualifiedInventoryValid, IsSha256, FileSet, Entries, IsQualifiedPath, UnionFiles, Restrict;
  }

  lemma CompletionChosen(legacy: Plan, plan: Plan)
    ensures OrderAccepted(legacy, plan, QUALIFIED_NAMES, true) ==> RUNTIME_COMPLETION in FileSet(Entries(plan))
  {
    hide SharedOrder, TailOrder, SuffixShared, TailsInPlace, FileSet, Entries;
  }

  lemma UnqualifiedMeans(legacy: Plan)
    ensures LegacyUnqualified(legacy) <==> forall f :: f in FileSet(Entries(legacy)) ==> !IsQualifiedPath(f)
  {
    hide IsQualifiedPath, Entries;
    if LegacyUnqualified(legacy) {
    } else {
      var e :| e in Entries(legacy) && IsQualifiedPath(e.file);
      assert e.file in FileSet(Entries(legacy));
    }
  }

  lemma UnionHashed(m: Manifest, catalog: map<string, string>, digest: string -> string)
    requires m.V3?
    ensures Hashed(Entries(m.legacy) + Entries(m.qualified.plan) + Entries(m.admin.plan), catalog, digest) <==>
      Hashed(Entries(m.legacy), catalog, digest) && Hashed(Entries(m.qualified.plan), catalog, digest)
      && Hashed(Entries(m.admin.plan), catalog, digest)
    ensures Hashed(Entries(m.legacy) + Entries(m.qualified.plan) + Entries(m.admin.plan), catalog, digest) ==>
      UnionFiles(m) <= catalog.Keys
  {
    hide Entries;
  }
}
