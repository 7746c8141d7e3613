/** Affinity sets of test files: collapsed into one item each for the packer, and put back afterwards. */
module AffinityPacking {
  // The packer itself is not part of this model: any partition of the collapsed inventory is one it may return.

  import opened Basics
  import opened Ordering

  datatype Group = Group(id: string, files: seq<string>, sharedCost: nat)

  datatype Placeholder = Placeholder(key: string, files: seq<string>, weight: real)

  datatype Packing = Packing(inventory: seq<string>, weights: map<string, real>, ignoredFiles: seq<string>, placeholders: seq<Placeholder>)

  /** What the manifest says of product files; a file's key is its path or its digest. */
  datatype Weights = Weights(durations: map<string, real>, defaultDuration: real, digestKey: string -> string)

  const KEY_PREFIX := "affinity-set:"

  // ---- Declarations ----

  /** Lower-case words and digits joined by single hyphens. */
  predicate KebabCase(id: string) {
    && id != "" && id[0] != '-' && id[|id| - 1] != '-'
    && (forall i :: 0 <= i < |id| ==> 'a' <= id[i] <= 'z' || '0' <= id[i] <= '9' || id[i] == '-')
    && forall i :: 0 < i < |id| ==> !(id[i - 1] == '-' && id[i] == '-')
  }

  /** One declared set on its own; `isTestPath` is the shape of a test path. */
  predicate GroupSound(group: Group, isolated: set<string>, isTestPath: string -> bool) {
    && KebabCase(group.id) && |group.files| >= 2
    && (forall f :: f in group.files ==> isTestPath(f) && f !in isolated)
    && forall k :: 0 < k < |group.files| ==> Before(group.files[k - 1], group.files[k])
  }

  predicate GroupsSound(groups: seq<Group>, isolated: set<string>, isTestPath: string -> bool) {
    && (forall i :: 0 <= i < |groups| ==> GroupSound(groups[i], isolated, isTestPath))
    && (forall i, j :: 0 <= i < j < |groups| ==> groups[i].id != groups[j].id)
    && (forall i, j, f :: 0 <= i < j < |groups| && f in groups[i].files ==> f !in groups[j].files)
  }

  lemma {:induction false} SortedFiles(files: seq<string>, j: nat, k: nat)
    requires forall i :: 0 < i < |files| ==> Before(files[i - 1], files[i])
    requires j < k < |files|
    ensures Before(files[j], files[k])
    decreases k
  {
    if j < k - 1 {
      SortedFiles(files, j, k - 1);
      BeforeTransitive(files[j], files[k - 1], files[k]);
    }
  }

  lemma MembersOnce(group: Group, isolated: set<string>, isTestPath: string -> bool)
    requires GroupSound(group, isolated, isTestPath)
    ensures NoRepeats(group.files)
  {
    hide Before, KebabCase;
    forall j, k | 0 <= j < k < |group.files|
      ensures group.files[j] != group.files[k]
    {
      SortedFiles(group.files, j, k);
      BeforeIrreflexive(group.files[j]);
    }
  }

  /** The members of one set, claimed one by one. */
  method ClaimMembers(group: Group, isolated: set<string>, isTestPath: string -> bool, owners: set<string>) returns (ok: bool, claimed: set<string>)
    ensures ok <==>
      && (forall f :: f in group.files ==> isTestPath(f) && f !in isolated && f !in owners)
      && forall k :: 0 < k < |group.files| ==> Before(group.files[k - 1], group.files[k])
    ensures ok ==> claimed == owners + ToSet(group.files)
  {
    hide Before;
    claimed := owners;
    var files := group.files;
    for position := 0 to |files|
      invariant claimed == owners + ToSet(files[..position])
      invariant forall f :: f in files[..position] ==> isTestPath(f) && f !in isolated && f !in owners
      invariant forall k :: 0 < k < position ==> Before(files[k - 1], files[k])
    {
      var file := files[position];
      assert files[..position + 1] == files[..position] + [file] && file in files;
      if !isTestPath(file) { return false, claimed; }
      if position > 0 && !Before(files[position - 1], file) { return false, claimed; }
      if file in isolated { return false, claimed; }
      NotEarlier(files, position);
      if file in claimed { return false, claimed; }
      claimed := claimed + {file};
    }
    assert files[..|files|] == files;
    ok := true;
  }

  lemma NotEarlier(files: seq<string>, position: nat)
    requires position < |files| && forall k :: 0 < k <= position ==> Before(files[k - 1], files[k])
    ensures files[position] !in files[..position]
  {
    hide Before;
    forall j | 0 <= j < position
      ensures files[j] != files[position]
    {
      SortedFiles(files[..position + 1], j, position);
      BeforeIrreflexive(files[position]);
    }
  }

  /** The declaration check, set by set. */
  method ParseAffinityGroups(groups: seq<Group>, isolatedFiles: seq<string>, isTestPath: string -> bool) returns (ok: bool)
    ensures ok <==> GroupsSound(groups, ToSet(isolatedFiles), isTestPath)
  {
    hide KebabCase, Before;
    var isolated := ToSet(isolatedFiles);
    var ids, owners: set<string> := {}, {};
    for index := 0 to |groups|
      invariant ids == set i | 0 <= i < index :: groups[i].id
      invariant owners == set i, f | 0 <= i < index && f in groups[i].files :: f
      invariant GroupsSound(groups[..index], isolated, isTestPath)
    {
      var group := groups[index];
      assert groups[..index + 1][index] == group;
      if !KebabCase(group.id) || group.id in ids || |group.files| < 2 { return false; }
      ids := ids + {group.id};
      var fine, claimed := ClaimMembers(group, isolated, isTestPath, owners);
      if !fine {
        assert !GroupSound(group, isolated, isTestPath) || exists f :: f in group.files && f in owners;
        return false;
      }
      owners := claimed;
      assert groups[..index + 1] == groups[..index] + [group];
    }
    assert groups[..|groups|] == groups;
    ok := true;
  }

  // ---- Collapsing ----

  function PinnedDuration(w: Weights, key: string): Option<real> {
    if key in w.durations && w.durations[key] > 0.0 then Some(w.durations[key]) else None
  }

  function DurationOf(w: Weights, file: string): real {
    match PinnedDuration(w, file)
    case Some(d) => d
    case None =>
      match PinnedDuration(w, w.digestKey(file))
      case Some(d) => d
      case None => w.defaultDuration
  }

  function Heaviest(w: Weights, files: seq<string>): (r: real)
    requires files != []
    ensures forall f :: f in files ==> DurationOf(w, f) <= r
    ensures exists f :: f in files && DurationOf(w, f) == r
    decreases |files|
  {
    var d := DurationOf(w, files[0]);
    assert files[0] in files;
    if |files| == 1 then d
    else
      var rest := Heaviest(w, files[1..]);
      assert files == [files[0]] + files[1..];
      if d < rest then rest else d
  }

  function Sum(w: Weights, files: seq<string>): real {
    if files == [] then 0.0 else DurationOf(w, files[0]) + Sum(w, files[1..])
  }

  /** A set as one item: its heaviest member, and the shared cost for each other member. */
  function Collapse(w: Weights, group: Group): Placeholder
    requires group.files != []
  {
    Placeholder(KEY_PREFIX + group.id, group.files, Heaviest(w, group.files) + (group.sharedCost * (|group.files| - 1)) as real)
  }

  function CollapseAll(w: Weights, groups: seq<Group>): (r: seq<Placeholder>)
    requires forall i :: 0 <= i < |groups| ==> groups[i].files != []
    ensures |r| == |groups|
    ensures forall i :: 0 <= i < |r| ==> r[i] == Collapse(w, groups[i])
  {
    seq(|groups|, i requires 0 <= i < |groups| => Collapse(w, groups[i]))
  }

  function Filter(files: seq<string>, keep: string -> bool): (r: seq<string>)
    ensures forall f :: f in r <==> f in files && keep(f)
    decreases |files|
  {
    if files == [] then [] else (if keep(files[0]) then [files[0]] else []) + Filter(files[1..], keep)
  }

  function Keys(placeholders: seq<Placeholder>): (r: seq<string>)
    ensures |r| == |placeholders|
    ensures forall i :: 0 <= i < |r| ==> r[i] == placeholders[i].key
  {
    seq(|placeholders|, i requires 0 <= i < |placeholders| => placeholders[i].key)
  }

  function AllFiles(placeholders: seq<Placeholder>): seq<string> {
    if placeholders == [] then [] else placeholders[0].files + AllFiles(placeholders[1..])
  }

  function TotalWeight(placeholders: seq<Placeholder>): real {
    if placeholders == [] then 0.0 else placeholders[0].weight + TotalWeight(placeholders[1..])
  }

  function AddWeights(durations: map<string, real>, placeholders: seq<Placeholder>): map<string, real>
    decreases |placeholders|
  {
    if placeholders == [] then durations
    else AddWeights(durations[placeholders[0].key := placeholders[0].weight], placeholders[1..])
  }

  predicate Refused(group: Group, present: set<string>, ignored: set<string>) {
    || (exists f :: f in group.files && (f in ignored || f !in present)) || KEY_PREFIX + group.id in present
  }

  /** How many groups share the lane: those left beside the isolated files, at least one. */
  function Sharing(groupCount: int, isolated: nat): (n: int)
    ensures n >= 1
  {
    if groupCount - isolated < 1 then 1 else groupCount - isolated
  }

  /** An equal share of the lane's weight. */
  function Share(lane: real, groupCount: int, isolated: nat): real { lane / Sharing(groupCount, isolated) as real }

  /** What the packer is given, one item for each set, or nothing where the plan is refused. */
  function PlanAffinityPacking(inventory: seq<string>, groupCount: int, w: Weights, isolatedFiles: seq<string>, groups: seq<Group>,
                               ignoredFiles: seq<string>, isTestPath: string -> bool): Option<Packing> {
    var isolated := ToSet(isolatedFiles);
    if !GroupsSound(groups, isolated, isTestPath) then None
    else if groups == [] then Some(Packing(inventory, w.durations, ignoredFiles, []))
    else if exists i :: 0 <= i < |groups| && Refused(groups[i], ToSet(inventory), ToSet(ignoredFiles)) then None
    else
      var placeholders := CollapseAll(w, groups);
      var members := ToSet(AllFiles(placeholders));
      var packed := Filter(inventory, f => f !in members && f !in isolated);
      var share := Share(Sum(w, packed) + TotalWeight(placeholders), groupCount, |isolated|);
      if exists i :: 0 <= i < |placeholders| && placeholders[i].weight > share then None
      else
        Some(Packing(Sort(packed + Filter(inventory, f => f in isolated) + Keys(placeholders)),
                     AddWeights(w.durations, placeholders), ignoredFiles + AllFiles(placeholders), placeholders))
  }

  // ---- Expanding ----

  /** The placeholder with this key, if any. */
  function Members(placeholders: seq<Placeholder>, item: string): seq<string>
    decreases |placeholders|
  {
    if placeholders == [] then [item]
    else if placeholders[0].key == item then placeholders[0].files
    else Members(placeholders[1..], item)
  }

  function Expanded(placeholders: seq<Placeholder>, items: seq<string>): seq<string>
    decreases |items|
  {
    if items == [] then [] else Members(placeholders, items[0]) + Expanded(placeholders, items[1..])
  }

  function ExpandAffinityGroups(partition: seq<seq<string>>, packing: Packing): (r: seq<seq<string>>)
    ensures |r| == |partition|
  {
    if packing.placeholders == [] then partition
    else seq(|partition|, i requires 0 <= i < |partition| => Sort(Expanded(packing.placeholders, partition[i])))
  }

  function Concat(partition: seq<seq<string>>): seq<string> {
    if partition == [] then [] else partition[0] + Concat(partition[1..])
  }

  // ---- Conservation ----

  lemma {:induction false} ExpandedConcat(ps: seq<Placeholder>, a: seq<string>, b: seq<string>)
    ensures Expanded(ps, a + b) == Expanded(ps, a) + Expanded(ps, b)
    decreases |a|
  {
    if a == [] {
      assert a + b == b;
    } else {
      assert (a + b)[0] == a[0] && (a + b)[1..] == a[1..] + b;
      ExpandedConcat(ps, a[1..], b);
    }
  }

  lemma ExpandedAround(ps: seq<Placeholder>, front: seq<string>, x: string, back: seq<string>)
    ensures multiset(Expanded(ps, front + [x] + back)) == multiset(Expanded(ps, [x])) + multiset(Expanded(ps, front + back))
  {
    hide *;
    ExpandedConcat(ps, front + [x], back);
    ExpandedConcat(ps, front, [x]);
    ExpandedConcat(ps, front, back);
  }

  /** The order of the items does not matter to what they expand to. */
  lemma {:induction false} ExpandedPermutes(ps: seq<Placeholder>, a: seq<string>, b: seq<string>)
    requires multiset(a) == multiset(b)
    ensures multiset(Expanded(ps, a)) == multiset(Expanded(ps, b))
    decreases |a|
  {
    hide *;
    assert |multiset(a)| == |a| && |multiset(b)| == |b|;
    if a != [] {
      var x := a[0];
      assert x in multiset(b);
      var front, back := TakeOut(b, x);
      assert a == [] + [x] + a[1..] && [] + a[1..] == a[1..];
      TakenOut(a, a[1..], b, front, x, back);
      ExpandedPermutes(ps, a[1..], front + back);
      ExpandedAround(ps, [], x, a[1..]);
      ExpandedAround(ps, front, x, back);
    }
  }

  lemma TakeOut(b: seq<string>, x: string) returns (front: seq<string>, back: seq<string>)
    requires x in b
    ensures b == front + [x] + back
  {
    var k :| 0 <= k < |b| && b[k] == x;
    front, back := b[..k], b[k + 1..];
  }

  lemma TakenOut(a: seq<string>, rest: seq<string>, b: seq<string>, front: seq<string>, x: string, back: seq<string>)
    requires a == [] + [x] + rest && b == front + [x] + back && multiset(a) == multiset(b)
    ensures multiset(rest) == multiset(front + back)
  {
    assert multiset(a) == multiset{x} + multiset(rest);
    assert multiset(front + back) == multiset(front) + multiset(back);
    assert multiset(b) == multiset(front) + multiset{x} + multiset(back);
    assert multiset(rest) == multiset(a) - multiset{x} && multiset(front + back) == multiset(b) - multiset{x};
  }

  lemma {:induction false} NoPlaceholder(ps: seq<Placeholder>, items: seq<string>)
    requires forall i :: 0 <= i < |ps| ==> ps[i].key !in items
    ensures Expanded(ps, items) == items
    decreases |items|
  {
    if items != [] {
      MembersNone(ps, items[0]);
      NoPlaceholder(ps, items[1..]);
      assert items == [items[0]] + items[1..];
    }
  }

  lemma {:induction false} MembersNone(ps: seq<Placeholder>, item: string)
    requires forall i :: 0 <= i < |ps| ==> ps[i].key != item
    ensures Members(ps, item) == [item]
    decreases |ps|
  {
    if ps != [] { MembersNone(ps[1..], item); }
  }

  lemma {:induction false} MembersAt(ps: seq<Placeholder>, i: nat)
    requires i < |ps| && forall j :: 0 <= j < i ==> ps[j].key != ps[i].key
    ensures Members(ps, ps[i].key) == ps[i].files
    decreases |ps|
  {
    if i > 0 { MembersAt(ps[1..], i - 1); }
  }

  ghost predicate DistinctKeys(ps: seq<Placeholder>) { forall i, j :: 0 <= i < j < |ps| ==> ps[i].key != ps[j].key }

  /** The keys from `i` on expand to the members from there on. */
  lemma {:induction false} KeysExpand(ps: seq<Placeholder>, i: nat)
    requires i <= |ps| && DistinctKeys(ps)
    ensures Expanded(ps, Keys(ps)[i..]) == AllFiles(ps[i..])
    decreases |ps| - i
  {
    if i < |ps| {
      hide Members;
      MembersAt(ps, i);
      KeysExpand(ps, i + 1);
      assert Keys(ps)[i..] == [ps[i].key] + Keys(ps)[i + 1..];
      assert ps[i..][0] == ps[i] && ps[i..][1..] == ps[i + 1..];
    }
  }

  // ---- What a plan gives ----

  /** What an accepted plan with sets is made of. */
  lemma PlanOpen(inventory: seq<string>, groupCount: int, w: Weights, isolatedFiles: seq<string>, groups: seq<Group>,
                 ignoredFiles: seq<string>, isTestPath: string -> bool) returns (packed: seq<string>, alone: seq<string>)
    requires PlanAffinityPacking(inventory, groupCount, w, isolatedFiles, groups, ignoredFiles, isTestPath).Some? && groups != []
    ensures
      var packing := PlanAffinityPacking(inventory, groupCount, w, isolatedFiles, groups, ignoredFiles, isTestPath).value;
      var isolated, ps := ToSet(isolatedFiles), packing.placeholders;
      && GroupsSound(groups, isolated, isTestPath) && ps == CollapseAll(w, groups)
      && (forall i :: 0 <= i < |groups| ==> !Refused(groups[i], ToSet(inventory), ToSet(ignoredFiles)))
      && packed == Filter(inventory, f => f !in ToSet(AllFiles(ps)) && f !in isolated)
      && alone == Filter(inventory, f => f in isolated)
      && packing.inventory == Sort(packed + alone + Keys(ps))
      && (forall i :: 0 <= i < |ps| ==> ps[i].weight <= Share(Sum(w, packed) + TotalWeight(ps), groupCount, |isolated|))
  {
    hide GroupsSound, Collapse, AllFiles, Filter, Sort, Sum, TotalWeight, Share, Keys, AddWeights, Refused;
    GroupsNonempty(groups, ToSet(isolatedFiles), isTestPath);
    var ps := CollapseAll(w, groups);
    packed := Filter(inventory, f => f !in ToSet(AllFiles(ps)) && f !in ToSet(isolatedFiles));
    alone := Filter(inventory, f => f in ToSet(isolatedFiles));
  }

  lemma GroupsNonempty(groups: seq<Group>, isolated: set<string>, isTestPath: string -> bool)
    ensures GroupsSound(groups, isolated, isTestPath) ==> forall i :: 0 <= i < |groups| ==> groups[i].files != []
  {
    hide KebabCase, Before;
  }

  lemma KeysDistinct(w: Weights, groups: seq<Group>, isolated: set<string>, isTestPath: string -> bool)
    requires GroupsSound(groups, isolated, isTestPath) && forall i :: 0 <= i < |groups| ==> groups[i].files != []
    ensures DistinctKeys(CollapseAll(w, groups))
  {
    hide KebabCase, Before, Heaviest;
    var ps := CollapseAll(w, groups);
    forall i, j | 0 <= i < j < |ps|
      ensures ps[i].key != ps[j].key
    {
      assert (KEY_PREFIX + groups[i].id)[|KEY_PREFIX|..] == groups[i].id;
      assert (KEY_PREFIX + groups[j].id)[|KEY_PREFIX|..] == groups[j].id;
    }
  }

  /** The members of the sets from `i` on: each is a file of exactly one of them, present and not isolated. */
  lemma {:induction false} AllFilesMeans(ps: seq<Placeholder>, i: nat)
    requires i <= |ps|
    ensures forall f :: f in AllFiles(ps[i..]) <==> exists k :: i <= k < |ps| && f in ps[k].files
    decreases |ps| - i
  {
    if i < |ps| {
      AllFilesMeans(ps, i + 1);
      assert ps[i..][0] == ps[i] && ps[i..][1..] == ps[i + 1..];
    }
  }

  ghost predicate DisjointFiles(ps: seq<Placeholder>) {
    && (forall i :: 0 <= i < |ps| ==> NoRepeats(ps[i].files))
    && forall i, j, f :: 0 <= i < j < |ps| && f in ps[i].files ==> f !in ps[j].files
  }

  lemma {:induction false} AllFilesOnce(ps: seq<Placeholder>, i: nat)
    requires i <= |ps| && DisjointFiles(ps)
    ensures NoRepeats(AllFiles(ps[i..]))
    decreases |ps| - i
  {
    if i < |ps| {
      AllFilesOnce(ps, i + 1);
      AllFilesMeans(ps, i + 1);
      assert ps[i..][0] == ps[i] && ps[i..][1..] == ps[i + 1..];
      hide AllFiles;
      OnceConcat(ps[i].files, AllFiles(ps[i + 1..]));
    }
  }

  lemma OnceConcat(a: seq<string>, b: seq<string>)
    requires NoRepeats(a) && NoRepeats(b) && forall x :: x in a ==> x !in b
    ensures NoRepeats(a + b)
  {
    var all := a + b;
    forall i, j | 0 <= i < j < |all|
      ensures all[i] != all[j]
    {
      if i < |a| {
        assert all[i] in a;
        if j >= |a| { assert all[j] == b[j - |a|]; }
      } else {
        assert all[i] == b[i - |a|] && all[j] == b[j - |a|];
      }
    }
  }

  lemma {:induction false} FilterOnce(files: seq<string>, keep: string -> bool)
    requires NoRepeats(files)
    ensures NoRepeats(Filter(files, keep))
    decreases |files|
  {
    if files != [] {
      FilterOnce(files[1..], keep);
      forall f | f in Filter(files[1..], keep)
        ensures f != files[0]
      {
        var i :| 0 <= i < |files| - 1 && files[1..][i] == f;
        assert files[i + 1] == f;
      }
    }
  }

  /** Three lists without repetitions that share nothing and hold what `whole` holds, once each, are its rearrangement. */
  lemma ThreeParts(whole: seq<string>, a: seq<string>, b: seq<string>, c: seq<string>)
    requires NoRepeats(whole) && NoRepeats(a) && NoRepeats(b) && NoRepeats(c)
    requires forall x :: x in whole <==> x in a || x in b || x in c
    requires (forall x :: x in a ==> x !in b && x !in c) && forall x :: x in b ==> x !in c
    ensures multiset(a + b + c) == multiset(whole)
  {
    OnceConcat(a, b);
    OnceConcat(a + b, c);
    NoRepeatsSet(a + b + c);
    NoRepeatsSet(whole);
    hide NoRepeats;
    assert ToSet(a + b + c) == ToSet(whole);
  }

  /** The sets of an accepted plan: their members are in the inventory, once each, and not isolated, and their keys are
  not. */
  lemma PlanSets(inventory: seq<string>, w: Weights, groups: seq<Group>, isolated: set<string>, ignored: set<string>,
                 isTestPath: string -> bool)
    requires GroupsSound(groups, isolated, isTestPath) && forall i :: 0 <= i < |groups| ==> groups[i].files != []
    requires forall i :: 0 <= i < |groups| ==> !Refused(groups[i], ToSet(inventory), ignored)
    ensures
      var ps := CollapseAll(w, groups);
      && DistinctKeys(ps) && DisjointFiles(ps)
      && (forall i :: 0 <= i < |ps| ==> ps[i].key !in inventory)
      && (forall f :: f in AllFiles(ps) ==> f in inventory && f !in isolated)
  {
    var ps := CollapseAll(w, groups);
    KeysDistinct(w, groups, isolated, isTestPath);
    AllFilesMeans(ps, 0);
    assert ps[0..] == ps;
    hide KebabCase, Before, Heaviest, AllFiles, DistinctKeys;
    forall i | 0 <= i < |ps|
      ensures NoRepeats(ps[i].files) && ps[i].key !in inventory
      ensures forall f :: f in ps[i].files ==> f in inventory && f !in isolated
    {
      MembersOnce(groups[i], isolated, isTestPath);
      assert !Refused(groups[i], ToSet(inventory), ignored);
    }
  }

  /** The collapsed inventory expands to a rearrangement of the inventory. */
  lemma PlanConserves(inventory: seq<string>, groupCount: int, w: Weights, isolatedFiles: seq<string>, groups: seq<Group>,
                      ignoredFiles: seq<string>, isTestPath: string -> bool)
    requires NoRepeats(inventory)
    requires PlanAffinityPacking(inventory, groupCount, w, isolatedFiles, groups, ignoredFiles, isTestPath).Some?
    ensures
      var packing := PlanAffinityPacking(inventory, groupCount, w, isolatedFiles, groups, ignoredFiles, isTestPath).value;
      multiset(Expanded(packing.placeholders, packing.inventory)) == multiset(inventory)
  {
    var packing := PlanAffinityPacking(inventory, groupCount, w, isolatedFiles, groups, ignoredFiles, isTestPath).value;
    var isolated, ps := ToSet(isolatedFiles), packing.placeholders;
    if groups == [] {
      NoPlaceholder([], inventory);
    } else {
      var packed, alone := PlanOpen(inventory, groupCount, w, isolatedFiles, groups, ignoredFiles, isTestPath);
      GroupsNonempty(groups, isolated, isTestPath);
      PlanSets(inventory, w, groups, isolated, ToSet(ignoredFiles), isTestPath);
      hide PlanAffinityPacking, GroupsSound, Collapse, CollapseAll, Sort, Keys, Members, Expanded, AllFiles, Filter, Refused, Share;
      FilterOnce(inventory, f => f !in ToSet(AllFiles(ps)) && f !in isolated);
      FilterOnce(inventory, f => f in isolated);
      AllFilesOnce(ps, 0);
      assert ps[0..] == ps && Keys(ps)[0..] == Keys(ps);
      ThreeParts(inventory, packed, alone, AllFiles(ps));
      ExpandedPermutes(ps, packing.inventory, packed + alone + Keys(ps));
      ExpandedConcat(ps, packed + alone, Keys(ps));
      NoPlaceholder(ps, packed + alone);
      KeysExpand(ps, 0);
    }
  }

  lemma {:induction false} ConcatExpanded(partition: seq<seq<string>>, packing: Packing)
    ensures multiset(Concat(ExpandAffinityGroups(partition, packing))) == multiset(Expanded(packing.placeholders, Concat(partition)))
    decreases |partition|
  {
    var ps := packing.placeholders;
    if ps == [] {
      NoPlaceholder([], Concat(partition));
    } else if partition != [] {
      hide Expanded, Sort, Members;
      ConcatExpanded(partition[1..], packing);
      assert ExpandAffinityGroups(partition, packing)[1..] == ExpandAffinityGroups(partition[1..], packing);
      ExpandedConcat(ps, partition[0], Concat(partition[1..]));
    } else {
      assert Expanded(ps, []) == [];
    }
  }

  /** Packing loses no file and repeats none: whatever partition of the collapsed inventory the packer returns, putting
  the sets back gives a partition of the inventory. */
  lemma PackingConserves(inventory: seq<string>, groupCount: int, w: Weights, isolatedFiles: seq<string>, groups: seq<Group>,
                         ignoredFiles: seq<string>, isTestPath: string -> bool, partition: seq<seq<string>>)
    requires NoRepeats(inventory)
    requires PlanAffinityPacking(inventory, groupCount, w, isolatedFiles, groups, ignoredFiles, isTestPath).Some?
    requires
      var packing := PlanAffinityPacking(inventory, groupCount, w, isolatedFiles, groups, ignoredFiles, isTestPath).value;
      multiset(Concat(partition)) == multiset(packing.inventory)
    ensures
      var packing := PlanAffinityPacking(inventory, groupCount, w, isolatedFiles, groups, ignoredFiles, isTestPath).value;
      multiset(Concat(ExpandAffinityGroups(partition, packing))) == multiset(inventory)
  {
    hide *;
    var packing := PlanAffinityPacking(inventory, groupCount, w, isolatedFiles, groups, ignoredFiles, isTestPath).value;
    PlanConserves(inventory, groupCount, w, isolatedFiles, groups, ignoredFiles, isTestPath);
    ConcatExpanded(partition, packing);
    ExpandedPermutes(packing.placeholders, Concat(partition), packing.inventory);
  }

  // ---- Each set whole, and none too heavy ----

  lemma {:induction false} ConcatHas(partition: seq<seq<string>>, x: string)
    ensures x in Concat(partition) <==> exists g :: 0 <= g < |partition| && x in partition[g]
    decreases |partition|
  {
    if partition != [] {
      ConcatHas(partition[1..], x);
      if g :| 0 <= g < |partition| - 1 && x in partition[1..][g] { assert x in partition[g + 1]; }
      if g :| 0 <= g < |partition| && x in partition[g] {
        if g > 0 { assert x in partition[1..][g - 1]; }
      }
    }
  }

  lemma {:induction false} ExpandedHas(ps: seq<Placeholder>, items: seq<string>, item: string)
    requires item in items
    ensures forall f :: f in Members(ps, item) ==> f in Expanded(ps, items)
    decreases |items|
  {
    hide Members;
    if items[0] != item { ExpandedHas(ps, items[1..], item); }
  }

  /** In a partition of a list without repetitions, an item is in one part only. */
  lemma {:induction false} OnePart(partition: seq<seq<string>>, x: string, g: nat, h: nat)
    requires NoRepeats(Concat(partition)) && g < |partition| && h < |partition| && x in partition[g] && x in partition[h]
    ensures g == h
    decreases |partition|
  {
    var rest := partition[1..];
    ConcatParts(partition[0], Concat(rest), x);
    if g > 0 && h > 0 {
      assert x in rest[g - 1] && x in rest[h - 1];
      OnePart(rest, x, g - 1, h - 1);
    } else if g > 0 {
      assert x in rest[g - 1];
      ConcatHas(rest, x);
    } else if h > 0 {
      assert x in rest[h - 1];
      ConcatHas(rest, x);
    }
  }

  lemma ConcatParts(a: seq<string>, b: seq<string>, x: string)
    requires NoRepeats(a + b)
    ensures NoRepeats(b) && !(x in a && x in b)
  {
    forall i, j | 0 <= i < j < |b|
      ensures b[i] != b[j]
    {
      assert (a + b)[|a| + i] == b[i] && (a + b)[|a| + j] == b[j];
    }
    forall i, j | 0 <= i < |a| && 0 <= j < |b|
      ensures a[i] != b[j]
    {
      assert (a + b)[i] == a[i] && (a + b)[|a| + j] == b[j];
    }
  }

  lemma PermutedOnce(a: seq<string>, b: seq<string>)
    requires multiset(a) == multiset(b) && NoRepeats(b)
    ensures NoRepeats(a)
  {
    NoRepeatsSet(b);
    forall i, j | 0 <= i < j < |a|
      ensures a[i] != a[j]
    {
      var x, rest := a[i], a[i + 1..];
      assert a == a[..i] + [x] + rest;
      assert multiset(a)[x] >= 1 + multiset(rest)[x];
      assert a[j] == rest[j - i - 1] && (x in rest <==> x in multiset(rest));
    }
  }

  /** Every set ends up whole in one group, and no other group has any of it. */
  lemma SetsStayWhole(inventory: seq<string>, groupCount: int, w: Weights, isolatedFiles: seq<string>, groups: seq<Group>,
                      ignoredFiles: seq<string>, isTestPath: string -> bool, partition: seq<seq<string>>, i: nat) returns (g: nat)
    requires NoRepeats(inventory) && i < |groups|
    requires PlanAffinityPacking(inventory, groupCount, w, isolatedFiles, groups, ignoredFiles, isTestPath).Some?
    requires
      var packing := PlanAffinityPacking(inventory, groupCount, w, isolatedFiles, groups, ignoredFiles, isTestPath).value;
      multiset(Concat(partition)) == multiset(packing.inventory)
    ensures
      var packing := PlanAffinityPacking(inventory, groupCount, w, isolatedFiles, groups, ignoredFiles, isTestPath).value;
      var expanded := ExpandAffinityGroups(partition, packing);
      && g < |expanded| && (forall f :: f in groups[i].files ==> f in expanded[g])
      && forall h, f :: 0 <= h < |expanded| && h != g && f in groups[i].files ==> f !in expanded[h]
  {
    var packing := PlanAffinityPacking(inventory, groupCount, w, isolatedFiles, groups, ignoredFiles, isTestPath).value;
    var ps, expanded := packing.placeholders, ExpandAffinityGroups(partition, packing);
    PackingConserves(inventory, groupCount, w, isolatedFiles, groups, ignoredFiles, isTestPath, partition);
    var packed, alone := PlanOpen(inventory, groupCount, w, isolatedFiles, groups, ignoredFiles, isTestPath);
    GroupsNonempty(groups, ToSet(isolatedFiles), isTestPath);
    PlanSets(inventory, w, groups, ToSet(isolatedFiles), ToSet(ignoredFiles), isTestPath);
    KeyPlaced(ps, w, groups, packed + alone, packing.inventory, Concat(partition), i);
    hide PlanAffinityPacking, GroupsSound, Collapse, CollapseAll, Sort, Keys, Members, Expanded, AllFiles, Filter, Refused, Share, Concat;
    ConcatHas(partition, ps[i].key);
    g :| 0 <= g < |partition| && ps[i].key in partition[g];
    MembersAt(ps, i);
    ExpandedHas(ps, partition[g], ps[i].key);
    PermutedOnce(Concat(expanded), inventory);
    forall f | f in groups[i].files
      ensures f in expanded[g]
    {
      assert f in multiset(Expanded(ps, partition[g])) && (f in expanded[g] <==> f in multiset(expanded[g]));
    }
    forall h, f | 0 <= h < |expanded| && h != g && f in groups[i].files
      ensures f !in expanded[h]
    {
      if f in expanded[h] { OnePart(expanded, f, g, h); }
    }
  }

  lemma KeyPlaced(ps: seq<Placeholder>, w: Weights, groups: seq<Group>, others: seq<string>, collapsed: seq<string>, placed: seq<string>,
                  i: nat)
    requires (forall k :: 0 <= k < |groups| ==> groups[k].files != []) && ps == CollapseAll(w, groups) && i < |groups|
    requires collapsed == Sort(others + Keys(ps)) && multiset(placed) == multiset(collapsed)
    ensures ps != [] && ps[i].key in placed && ps[i].files == groups[i].files
  {
    hide Sort, Heaviest;
    var key := Keys(ps)[i];
    assert (others + Keys(ps))[|others| + i] == key;
    assert key in multiset(others + Keys(ps)) && (key in placed <==> key in multiset(placed));
  }

  // ---- What the packer weighs ----

  lemma {:induction false} AddedWeights(durations: map<string, real>, ps: seq<Placeholder>)
    requires DistinctKeys(ps)
    ensures forall i :: 0 <= i < |ps| ==> ps[i].key in AddWeights(durations, ps) && AddWeights(durations, ps)[ps[i].key] == ps[i].weight
    ensures forall k :: k !in Keys(ps) ==> (k in AddWeights(durations, ps) <==> k in durations)
    ensures forall k :: k !in Keys(ps) && k in durations ==> AddWeights(durations, ps)[k] == durations[k]
    decreases |ps|
  {
    if ps != [] {
      var first, rest := ps[0], ps[1..];
      assert DistinctKeys(rest) by { assert forall i :: 0 <= i < |rest| ==> rest[i] == ps[i + 1]; }
      AddedWeights(durations[first.key := first.weight], rest);
      assert Keys(ps) == [first.key] + Keys(rest);
      assert first.key !in Keys(rest) by { assert forall i :: 0 <= i < |rest| ==> rest[i] == ps[i + 1]; }
    }
  }

  lemma DurationPositive(w: Weights, f: string)
    requires w.defaultDuration > 0.0
    ensures DurationOf(w, f) > 0.0
  {
  }

  /** What a file or a set weighs by the durations that are handed to the packer. */
  lemma WeighedAs(w: Weights, ps: seq<Placeholder>, f: string)
    requires DistinctKeys(ps)
    ensures
      var handed := w.(durations := AddWeights(w.durations, ps));
      && (f !in Keys(ps) && w.digestKey(f) !in Keys(ps) ==> DurationOf(handed, f) == DurationOf(w, f))
      && (forall i :: 0 <= i < |ps| && ps[i].key == f && ps[i].weight > 0.0 ==> DurationOf(handed, f) == ps[i].weight)
  {
    AddedWeights(w.durations, ps);
    hide AddWeights, Keys;
  }

  lemma {:induction false} SumSame(w: Weights, handed: Weights, files: seq<string>)
    requires forall f :: f in files ==> DurationOf(handed, f) == DurationOf(w, f)
    ensures Sum(handed, files) == Sum(w, files)
    decreases |files|
  {
    hide DurationOf;
    if files != [] { SumSame(w, handed, files[1..]); }
  }

  lemma {:induction false} SumThen(w: Weights, a: seq<string>, b: seq<string>)
    ensures Sum(w, a + b) == Sum(w, a) + Sum(w, b)
    decreases |a|
  {
    hide DurationOf;
    if a == [] { assert a + b == b; } else {
      assert (a + b)[1..] == a[1..] + b;
      SumThen(w, a[1..], b);
    }
  }

  lemma {:induction false} SumKeys(handed: Weights, ps: seq<Placeholder>)
    requires forall i :: 0 <= i < |ps| ==> DurationOf(handed, ps[i].key) == ps[i].weight
    ensures Sum(handed, Keys(ps)) == TotalWeight(ps)
    decreases |ps|
  {
    hide DurationOf;
    if ps != [] {
      assert Keys(ps)[1..] == Keys(ps[1..]);
      assert forall i :: 0 <= i < |ps[1..]| ==> ps[1..][i] == ps[i + 1];
      SumKeys(handed, ps[1..]);
    }
  }

  lemma PlanWeights(inventory: seq<string>, groupCount: int, w: Weights, isolatedFiles: seq<string>, groups: seq<Group>,
                    ignoredFiles: seq<string>, isTestPath: string -> bool)
    requires PlanAffinityPacking(inventory, groupCount, w, isolatedFiles, groups, ignoredFiles, isTestPath).Some? && groups != []
    ensures
      var packing := PlanAffinityPacking(inventory, groupCount, w, isolatedFiles, groups, ignoredFiles, isTestPath).value;
      packing.weights == AddWeights(w.durations, packing.placeholders)
  {
    hide GroupsSound, Collapse, AllFiles, Filter, Sort, Sum, TotalWeight, Share, Keys, AddWeights, Refused;
    GroupsNonempty(groups, ToSet(isolatedFiles), isTestPath);
  }

  lemma CollapsedWeight(w: Weights, group: Group)
    requires group.files != [] && w.defaultDuration > 0.0
    ensures Collapse(w, group).weight > 0.0
  {
    hide DurationOf, Heaviest;
    DurationPositive(w, group.files[0]);
    SharedNonnegative(group.sharedCost, |group.files| - 1);
    assert group.files[0] in group.files && DurationOf(w, group.files[0]) <= Heaviest(w, group.files);
  }

  lemma NoKeyPresent(ps: seq<Placeholder>, groups: seq<Group>, present: set<string>, ignored: set<string>, f: string)
    requires |ps| == |groups| && forall i :: 0 <= i < |ps| ==> ps[i].key == KEY_PREFIX + groups[i].id
    requires (forall i :: 0 <= i < |groups| ==> !Refused(groups[i], present, ignored)) && f in present
    ensures f !in Keys(ps)
  {
  }

  /** By the durations that are handed to it, the packer weighs the files and sets outside isolation at the sum the share
  was taken of, so no set weighs more than an equal share of what the packer sees; and each set weighs at least what its
  heaviest member does. */
  lemma SetsFairlyHeavy(inventory: seq<string>, groupCount: int, w: Weights, isolatedFiles: seq<string>, groups: seq<Group>,
                        ignoredFiles: seq<string>, isTestPath: string -> bool, i: nat)
    requires PlanAffinityPacking(inventory, groupCount, w, isolatedFiles, groups, ignoredFiles, isTestPath).Some? && i < |groups|
    requires w.defaultDuration > 0.0
    requires forall f, g :: f in inventory && g in groups ==> w.digestKey(f) != KEY_PREFIX + g.id
    ensures
      var packing := PlanAffinityPacking(inventory, groupCount, w, isolatedFiles, groups, ignoredFiles, isTestPath).value;
      var ps, handed, isolated := packing.placeholders, w.(durations := packing.weights), ToSet(isolatedFiles);
      var seen := Filter(inventory, f => f !in ToSet(AllFiles(ps)) && f !in isolated) + Keys(ps);
      && |ps| == |groups|
      && DurationOf(handed, ps[i].key) == ps[i].weight
      && ps[i].weight * Sharing(groupCount, |isolated|) as real <= Sum(handed, seen)
      && forall f :: f in groups[i].files ==> DurationOf(w, f) <= ps[i].weight
  {
    hide *;
    var packing := PlanAffinityPacking(inventory, groupCount, w, isolatedFiles, groups, ignoredFiles, isTestPath).value;
    var ps, handed := packing.placeholders, w.(durations := packing.weights);
    var packed, alone := PlanOpen(inventory, groupCount, w, isolatedFiles, groups, ignoredFiles, isTestPath);
    PlanWeights(inventory, groupCount, w, isolatedFiles, groups, ignoredFiles, isTestPath);
    GroupsNonempty(groups, ToSet(isolatedFiles), isTestPath);
    KeysDistinct(w, groups, ToSet(isolatedFiles), isTestPath);
    ShareTimes(Sum(w, packed) + TotalWeight(ps), groupCount, |ToSet(isolatedFiles)|, ps[i].weight);
    CollapseHeavy(w, groups[i]);
    forall k | 0 <= k < |ps|
      ensures DurationOf(handed, ps[k].key) == ps[k].weight && ps[k].key == KEY_PREFIX + groups[k].id
    {
      CollapsedWeight(w, groups[k]);
      CollapseKey(w, groups[k]);
      WeighedAs(w, ps, ps[k].key);
    }
    forall f | f in packed
      ensures DurationOf(handed, f) == DurationOf(w, f)
    {
      InPresent(inventory, f);
      NoKeyPresent(ps, groups, ToSet(inventory), ToSet(ignoredFiles), f);
      NoKeyDigest(ps, groups, w.digestKey(f));
      WeighedAs(w, ps, f);
    }
    SumSame(w, handed, packed);
    SumKeys(handed, ps);
    SumThen(handed, packed, Keys(ps));
  }

  lemma CollapseKey(w: Weights, group: Group)
    requires group.files != []
    ensures Collapse(w, group).key == KEY_PREFIX + group.id
  {
    hide Heaviest;
  }

  lemma InPresent(files: seq<string>, f: string)
    ensures f in files ==> f in ToSet(files)
  {
  }

  lemma NoKeyDigest(ps: seq<Placeholder>, groups: seq<Group>, key: string)
    requires |ps| == |groups| && forall i :: 0 <= i < |ps| ==> ps[i].key == KEY_PREFIX + groups[i].id
    requires forall g :: g in groups ==> key != KEY_PREFIX + g.id
    ensures key !in Keys(ps)
  {
    assert forall i :: 0 <= i < |groups| ==> groups[i] in groups;
  }

  lemma ShareTimes(lane: real, groupCount: int, isolated: nat, weight: real)
    requires weight <= Share(lane, groupCount, isolated)
    ensures weight * Sharing(groupCount, isolated) as real <= lane
  {
    var x := Sharing(groupCount, isolated) as real;
    assert lane / x * x == lane;
    assert weight * x <= lane / x * x;
  }

  lemma CollapseHeavy(w: Weights, group: Group)
    requires group.files != []
    ensures forall f :: f in group.files ==> DurationOf(w, f) <= Collapse(w, group).weight
  {
    hide DurationOf;
    SharedNonnegative(group.sharedCost, |group.files| - 1);
  }

  lemma SharedNonnegative(a: nat, b: nat)
    ensures a * b >= 0
  {
  }
}
