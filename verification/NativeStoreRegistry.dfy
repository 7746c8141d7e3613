/** The native store approval registry: slots approved in advance, and pins that issue them one by one. */
module NativeStoreRegistry {
  import opened Basics
  import opened Ordering

  datatype FunctionPin = FunctionPin(signature: string, before: Option<string>)

  /** One slot. `contents` stands for the keys that only the slot's own shape rules read, and `wellShaped` for the
  verdict of those rules. */
  datatype Slot = Slot(row: string, path: string, functions: seq<FunctionPin>, replaced: seq<string>, contents: string, wellShaped: bool)

  datatype Class = Class(isSealed: bool, slots: seq<Slot>)

  datatype Pin = Pin(path: string, digest: string, functions: seq<FunctionPin>, after: seq<string>)

  datatype Registry = Registry(control: Option<Class>, forwards: Option<seq<Pin>>)

  function Slots(r: Registry): seq<Slot> { if r.control.Some? then r.control.value.slots else [] }

  function Pins(r: Registry): seq<Pin> { if r.forwards.Some? then r.forwards.value else [] }

  const DIRECTORY := "db/platform/migrations/"

  predicate IsLower(c: char) { 'a' <= c <= 'z' }

  /** The 14 digits a native store path begins with, or nothing for any other path. */
  function SlotTime(path: string): string {
    var n := |DIRECTORY|;
    if && |path| >= n + 14 + 1 + 1 + 4 && path[..n] == DIRECTORY
       && (forall i :: n <= i < n + 14 ==> IsDigit(path[i])) && path[n + 14] == '_' && IsLower(path[n + 15])
       && (forall i :: n + 15 <= i < |path| - 4 ==> IsLower(path[i]) || IsDigit(path[i]) || path[i] == '_')
       && path[|path| - 4..] == ".sql"
    then path[n..n + 14] else ""
  }

  function SlotIndex(slots: seq<Slot>, path: string): (k: nat)
    ensures k <= |slots|
    ensures k < |slots| ==> slots[k].path == path
    ensures forall i :: 0 <= i < k ==> slots[i].path != path
  {
    if slots == [] || slots[0].path == path then 0 else 1 + SlotIndex(slots[1..], path)
  }

  // ---- Validation ----

  /** `taken` are the paths of the registry's other classes. */
  ghost predicate ValidSlots(slots: seq<Slot>, taken: set<string>) {
    && (forall i :: 0 <= i < |slots| ==>
          slots[i].wellShaped && SlotTime(slots[i].path) != "" && slots[i].path !in taken && ReplacesOnce(slots[i].replaced))
    && (forall i, j :: 0 <= i < j < |slots| ==> Before(SlotTime(slots[i].path), SlotTime(slots[j].path)))
    && (forall i, j :: 0 <= i < j < |slots| ==> slots[i].row != slots[j].row)
    && (forall i, j, f :: 0 <= i < j < |slots| && f in slots[i].replaced ==> f !in slots[j].replaced)
  }

  ghost predicate ValidPins(slots: seq<Slot>, pins: seq<Pin>) {
    && |pins| <= |slots|
    && (forall k :: 0 <= k < |pins| ==>
          var i := SlotIndex(slots, pins[k].path);
          i < |slots| && pins[k].functions == slots[i].functions)
    && (forall k, l :: 0 <= k < l < |pins| ==> SlotIndex(slots, pins[k].path) < SlotIndex(slots, pins[l].path))
  }

  ghost predicate Valid(r: Registry, taken: set<string>) {
    match r.control
    case None => r.forwards.None?
    case Some(control) =>
      ValidSlots(control.slots, taken) && r.forwards.Some? && ValidPins(control.slots, r.forwards.value)
  }

  predicate ReplacesOnce(replaced: seq<string>) { forall i, j :: 0 <= i < j < |replaced| ==> replaced[i] != replaced[j] }

  /** Distinct times mean distinct paths. */
  lemma DistinctPaths(slots: seq<Slot>, taken: set<string>)
    requires ValidSlots(slots, taken)
    ensures forall i, j :: 0 <= i < |slots| && 0 <= j < |slots| && slots[i].path == slots[j].path ==> i == j
  {
    forall i, j | 0 <= i < j < |slots|
      ensures slots[i].path != slots[j].path
    {
      BeforeIrreflexive(SlotTime(slots[i].path));
    }
  }

  /** What the loop checks of slot `n` before its functions. */
  ghost predicate SlotFits(slots: seq<Slot>, n: nat, taken: set<string>)
    requires n < |slots|
  {
    && slots[n].wellShaped && SlotTime(slots[n].path) != "" && slots[n].path !in taken
    && (n > 0 ==> Before(SlotTime(slots[n - 1].path), SlotTime(slots[n].path)))
    && (forall i :: 0 <= i < n ==> slots[i].row != slots[n].row && slots[i].path != slots[n].path)
  }

  lemma SlotMustFit(slots: seq<Slot>, n: nat, taken: set<string>)
    requires n < |slots| && ValidSlots(slots, taken)
    ensures SlotFits(slots, n, taken)
  {
    DistinctPaths(slots, taken);
  }

  lemma SlotExtends(slots: seq<Slot>, n: nat, taken: set<string>)
    requires n < |slots| && ValidSlots(slots[..n], taken) && SlotFits(slots, n, taken) && ReplacesOnce(slots[n].replaced)
    requires forall i, f :: 0 <= i < n && f in slots[i].replaced ==> f !in slots[n].replaced
    ensures ValidSlots(slots[..n + 1], taken)
  {
    hide SlotTime, Before, ReplacesOnce;
    var all := slots[..n + 1];
    forall i, j | 0 <= i < j < |all|
      ensures Before(SlotTime(all[i].path), SlotTime(all[j].path))
    {
      if j < n {
        assert slots[..n][i] == all[i] && slots[..n][j] == all[j];
      } else if i < n - 1 {
        assert slots[..n][i] == all[i] && slots[..n][n - 1] == all[n - 1];
        BeforeTransitive(SlotTime(all[i].path), SlotTime(all[n - 1].path), SlotTime(all[n].path));
      }
    }
    forall i | 0 <= i < |all|
      ensures all[i].wellShaped && SlotTime(all[i].path) != "" && all[i].path !in taken && ReplacesOnce(all[i].replaced)
    {
      if i < n { assert slots[..n][i] == all[i]; }
    }
    forall i, j | 0 <= i < j < |all|
      ensures all[i].row != all[j].row && forall f :: f in all[i].replaced ==> f !in all[j].replaced
    {
      if j < n { assert slots[..n][i] == all[i] && slots[..n][j] == all[j]; }
    }
  }

  /** The validator's loops over slots, their replaced functions, and pins. The shape rules of one slot are `wellShaped`. */
  method ValidateNativeStoreClass(r: Registry, taken: set<string>) returns (ok: bool)
    ensures ok == Valid(r, taken)
  {
    if r.control.None? { return r.forwards.None?; }
    var slots := r.control.value.slots;
    ok := ValidateSlots(slots, taken);
    if !ok || r.forwards.None? { return false; }
    ok := ValidatePins(slots, r.forwards.value);
  }

  ghost function RowsOf(slots: seq<Slot>, n: nat): set<string>
    requires n <= |slots|
  {
    set i | 0 <= i < n :: slots[i].row
  }

  ghost function PathsOf(slots: seq<Slot>, n: nat): set<string>
    requires n <= |slots|
  {
    set i | 0 <= i < n :: slots[i].path
  }

  /** Nothing yet before the first slot, and one more row and path with each. */
  lemma SeenMore(slots: seq<Slot>, n: nat)
    requires n < |slots|
    ensures RowsOf(slots, n + 1) == RowsOf(slots, n) + {slots[n].row}
    ensures PathsOf(slots, n + 1) == PathsOf(slots, n) + {slots[n].path}
  {
  }

  lemma SeenNone(slots: seq<Slot>, taken: set<string>)
    ensures RowsOf(slots, 0) == {} && PathsOf(slots, 0) == {} && ReplacedBy(slots, 0) == {} && ValidSlots(slots[..0], taken)
    ensures slots[..|slots|] == slots
  {
  }

  /** The checks of one slot against what was seen before it. */
  method CheckSlot(slots: seq<Slot>, n: nat, taken: set<string>, previous: string, rows: set<string>, paths: set<string>)
    returns (fits: bool)
    requires n < |slots| && rows == RowsOf(slots, n) && paths == taken + PathsOf(slots, n)
    requires previous == if n == 0 then "" else SlotTime(slots[n - 1].path)
    ensures fits == SlotFits(slots, n, taken)
  {
    hide SlotTime, Before;
    var time := SlotTime(slots[n].path);
    EmptyFirst(time);
    fits := slots[n].wellShaped && slots[n].row !in rows && time != "" && Before(previous, time) && slots[n].path !in paths;
  }

  method ValidateSlots(slots: seq<Slot>, taken: set<string>) returns (ok: bool)
    ensures ok == ValidSlots(slots, taken)
  {
    hide *;
    SeenNone(slots, taken);
    var previous, rows: set<string>, replacements: set<string>, paths := "", {}, {}, taken;
    for n := 0 to |slots|
      invariant ValidSlots(slots[..n], taken)
      invariant previous == if n == 0 then "" else SlotTime(slots[n - 1].path)
      invariant rows == RowsOf(slots, n) && paths == taken + PathsOf(slots, n) && replacements == ReplacedBy(slots, n)
    {
      var fits := CheckSlot(slots, n, taken, previous, rows, paths);
      SlotsMust(slots, n, taken);
      if !fits { return false; }
      var isNew, more := AddReplaced(slots[n].replaced, replacements);
      if !isNew { return false; }
      OtherwiseReplaced(slots, n);
      SlotExtends(slots, n, taken);
      MoreReplaced(slots, n);
      SeenMore(slots, n);
      previous, rows, paths, replacements :=
        SlotTime(slots[n].path), rows + {slots[n].row}, paths + {slots[n].path}, more;
    }
    return true;
  }

  /** What each slot of a valid list must meet. */
  lemma SlotsMust(slots: seq<Slot>, n: nat, taken: set<string>)
    requires n < |slots|
    ensures ValidSlots(slots, taken) ==>
      && SlotFits(slots, n, taken) && ReplacesOnce(slots[n].replaced)
      && forall f :: f in slots[n].replaced ==> f !in ReplacedBy(slots, n)
  {
    hide ValidSlots, SlotFits, ReplacesOnce, ReplacedBy;
    if ValidSlots(slots, taken) {
      SlotMustFit(slots, n, taken);
      SlotMustReplaceAnew(slots, n, taken);
    }
  }

  lemma EmptyFirst(time: string)
    ensures time != "" ==> Before("", time)
  {
  }

  /** The functions the first `n` slots replace. */
  ghost function ReplacedBy(slots: seq<Slot>, n: nat): set<string>
    requires n <= |slots|
  {
    set i, f | 0 <= i < n && f in slots[i].replaced :: f
  }

  lemma MoreReplaced(slots: seq<Slot>, n: nat)
    requires n < |slots|
    ensures ReplacedBy(slots, n + 1) == ReplacedBy(slots, n) + set f | f in slots[n].replaced
  {
  }

  lemma OtherwiseReplaced(slots: seq<Slot>, n: nat)
    requires n < |slots|
    ensures forall i, f :: 0 <= i < n && f in slots[i].replaced ==> f in ReplacedBy(slots, n)
  {
  }

  lemma SlotMustReplaceAnew(slots: seq<Slot>, n: nat, taken: set<string>)
    requires n < |slots| && ValidSlots(slots, taken)
    ensures ReplacesOnce(slots[n].replaced)
    ensures forall f :: f in slots[n].replaced ==> f !in ReplacedBy(slots, n)
  {
  }

  method AddReplaced(replaced: seq<string>, earlier: set<string>) returns (isNew: bool, all: set<string>)
    ensures isNew == (ReplacesOnce(replaced) && forall f :: f in replaced ==> f !in earlier)
    ensures isNew ==> all == earlier + set f | f in replaced
  {
    all := earlier;
    for m := 0 to |replaced|
      invariant all == earlier + set k | 0 <= k < m :: replaced[k]
      invariant ReplacesOnce(replaced[..m])
      invariant forall k :: 0 <= k < m ==> replaced[k] !in earlier
    {
      if replaced[m] in all {
        assert replaced[m] in replaced;
        return false, all;
      }
      all := all + {replaced[m]};
    }
    assert replaced[..|replaced|] == replaced;
    return true, all;
  }

  /** A pin's functions are those of its slot. */
  predicate PinFits(slots: seq<Slot>, pin: Pin) {
    var i := SlotIndex(slots, pin.path);
    i < |slots| && pin.functions == slots[i].functions
  }

  predicate PinBefore(slots: seq<Slot>, a: Pin, b: Pin) { SlotIndex(slots, a.path) < SlotIndex(slots, b.path) }

  lemma ValidPinsMeans(slots: seq<Slot>, pins: seq<Pin>)
    ensures ValidPins(slots, pins) <==>
      && |pins| <= |slots| && (forall k :: 0 <= k < |pins| ==> PinFits(slots, pins[k]))
      && forall k, l :: 0 <= k < l < |pins| ==> PinBefore(slots, pins[k], pins[l])
  {
    hide SlotIndex;
  }

  /** One more pin may follow valid ones if it fits its slot and stands behind the last. */
  lemma PinAdds(slots: seq<Slot>, earlier: seq<Pin>, pin: Pin)
    requires |earlier| < |slots| && ValidPins(slots, earlier) && PinFits(slots, pin)
    requires earlier != [] ==> PinBefore(slots, earlier[|earlier| - 1], pin)
    ensures ValidPins(slots, earlier + [pin])
  {
    hide *;
    var longer, n := earlier + [pin], |earlier|;
    ValidPinsMeans(slots, earlier);
    ValidPinsMeans(slots, longer);
    forall k, l | 0 <= k < l < |longer|
      ensures PinBefore(slots, longer[k], longer[l])
    {
      if l < n {
        assert longer[k] == earlier[k] && longer[l] == earlier[l];
      } else if k < n - 1 {
        assert PinBefore(slots, earlier[k], earlier[n - 1]);
        PinBeforeTwice(slots, earlier[k], earlier[n - 1], pin);
      }
    }
    forall k | 0 <= k < |longer|
      ensures PinFits(slots, longer[k])
    {
      if k < n { assert longer[k] == earlier[k]; }
    }
  }

  /** What one more pin must meet: its slot, and a place behind the last pin. */
  lemma PinExtends(slots: seq<Slot>, pins: seq<Pin>, k: nat)
    requires k < |pins| <= |slots| && ValidPins(slots, pins[..k])
    ensures PinFits(slots, pins[k]) && (k > 0 ==> PinBefore(slots, pins[k - 1], pins[k])) ==> ValidPins(slots, pins[..k + 1])
    ensures ValidPins(slots, pins) ==> PinFits(slots, pins[k]) && (k > 0 ==> PinBefore(slots, pins[k - 1], pins[k]))
  {
    hide *;
    ValidPinsMeans(slots, pins);
    assert pins[..k + 1] == pins[..k] + [pins[k]];
    if PinFits(slots, pins[k]) && (k > 0 ==> PinBefore(slots, pins[k - 1], pins[k])) { PinAdds(slots, pins[..k], pins[k]); }
  }

  lemma PinBeforeTwice(slots: seq<Slot>, a: Pin, b: Pin, c: Pin)
    requires PinBefore(slots, a, b) && PinBefore(slots, b, c)
    ensures PinBefore(slots, a, c)
  {
    hide SlotIndex;
  }

  lemma PinMeans(slots: seq<Slot>, a: Pin, b: Pin)
    ensures PinFits(slots, b) <==>
      SlotIndex(slots, b.path) < |slots| && b.functions == slots[SlotIndex(slots, b.path)].functions
    ensures PinBefore(slots, a, b) <==> SlotIndex(slots, a.path) < SlotIndex(slots, b.path)
  {
    hide SlotIndex;
  }

  lemma PinsShort(slots: seq<Slot>, pins: seq<Pin>)
    ensures ValidPins(slots, pins) ==> |pins| <= |slots|
    ensures ValidPins(slots, pins[..0]) && pins[..|pins|] == pins
  {
  }

  lemma IndexBound(slots: seq<Slot>, path: string)
    ensures SlotIndex(slots, path) <= |slots|
  {
  }

  method ValidatePins(slots: seq<Slot>, pins: seq<Pin>) returns (ok: bool)
    ensures ok == ValidPins(slots, pins)
  {
    hide *;
    PinsShort(slots, pins);
    if |pins| > |slots| { return false; }
    var prior: int := -1;
    for k := 0 to |pins|
      invariant ValidPins(slots, pins[..k])
      invariant prior == if k == 0 then -1 else SlotIndex(slots, pins[k - 1].path)
    {
      var index := SlotIndex(slots, pins[k].path);
      IndexBound(slots, pins[k].path);
      PinExtends(slots, pins, k);
      PinMeans(slots, pins[if k > 0 then k - 1 else 0], pins[k]);
      if index == |slots| || index <= prior || pins[k].functions != slots[index].functions { return false; }
      prior := index;
    }
    return true;
  }

  // ---- One accepted change ----

  /** The transition check between two registries. */
  predicate Transition(before: Registry, after: Registry) {
    && (before.control.Some? ==> after.control.Some?)
    && (before.control.Some? && before.control.value.isSealed ==>
          after.control.value.isSealed && IsPrefix(Slots(before), Slots(after)))
    && (forall k :: 0 <= k < |Pins(before)| ==>
          && k < |Pins(after)| && Pins(after)[k] == Pins(before)[k]
          && var i := SlotIndex(Slots(before), Pins(before)[k].path);
             i < |Slots(before)| ==> i < |Slots(after)| && Slots(after)[i] == Slots(before)[i])
  }

  /** What a later registry may never take back from an earlier one. */
  ghost predicate Keeps(before: Registry, after: Registry) {
    && (before.control.Some? ==> after.control.Some?)
    && (before.control.Some? && before.control.value.isSealed ==>
          after.control.value.isSealed && IsPrefix(Slots(before), Slots(after)))
    && IsPrefix(Pins(before), Pins(after))
    && (forall k :: 0 <= k < |Pins(before)| ==>
          var i := SlotIndex(Slots(before), Pins(before)[k].path);
          && i < |Slots(before)| && i < |Slots(after)| && Slots(after)[i] == Slots(before)[i]
          && SlotIndex(Slots(after), Pins(before)[k].path) == i)
    && (forall k, l :: 0 <= k < |Pins(before)| <= l < |Pins(after)| ==>
          SlotIndex(Slots(after), Pins(before)[k].path) < SlotIndex(Slots(after), Pins(after)[l].path))
  }

  lemma PinsKept(before: Registry, after: Registry)
    requires Transition(before, after)
    ensures IsPrefix(Pins(before), Pins(after))
  {
    hide SlotIndex;
    var n := |Pins(before)|;
    if n > 0 {
      var last := Pins(before)[n - 1];
      assert n - 1 < |Pins(after)|;
    }
    assert Pins(after)[..n] == Pins(before);
  }

  /** A path stands at one place in a valid list of slots. */
  lemma SlotAt(slots: seq<Slot>, taken: set<string>, i: nat)
    requires ValidSlots(slots, taken) && i < |slots|
    ensures SlotIndex(slots, slots[i].path) == i
  {
    DistinctPaths(slots, taken);
    hide ValidSlots;
  }

  /** The slot of an issued pin is where it was. */
  lemma PinSlotKept(before: Registry, after: Registry, taken: set<string>, taken': set<string>, k: nat)
    requires Valid(before, taken) && Valid(after, taken') && Transition(before, after) && k < |Pins(before)|
    ensures
      var i := SlotIndex(Slots(before), Pins(before)[k].path);
      && i < |Slots(before)| && i < |Slots(after)| && Slots(after)[i] == Slots(before)[i]
      && SlotIndex(Slots(after), Pins(before)[k].path) == i
  {
    hide ValidSlots, SlotIndex;
    var i := SlotIndex(Slots(before), Pins(before)[k].path);
    assert i < |Slots(before)|;
    SlotAt(Slots(after), taken', i);
    SlotFound(Slots(before), Pins(before)[k].path);
  }

  lemma SlotFound(slots: seq<Slot>, path: string)
    ensures SlotIndex(slots, path) < |slots| ==> slots[SlotIndex(slots, path)].path == path
  {
  }

  lemma TransitionKeeps(before: Registry, after: Registry, taken: set<string>, taken': set<string>)
    requires Valid(before, taken) && Valid(after, taken') && Transition(before, after)
    ensures Keeps(before, after)
  {
    PinsKept(before, after);
    forall k | 0 <= k < |Pins(before)|
      ensures
        var i := SlotIndex(Slots(before), Pins(before)[k].path);
        && i < |Slots(before)| && i < |Slots(after)| && Slots(after)[i] == Slots(before)[i]
        && SlotIndex(Slots(after), Pins(before)[k].path) == i
    {
      PinSlotKept(before, after, taken, taken', k);
    }
    hide ValidSlots, SlotIndex;
    assert forall k :: 0 <= k < |Pins(before)| ==> Pins(after)[k] == Pins(before)[k];
  }

  lemma KeepsTransitive(a: Registry, b: Registry, c: Registry, taken: set<string>)
    requires Valid(c, taken) && Keeps(a, b) && Keeps(b, c)
    ensures Keeps(a, c)
  {
    hide SlotTime, Before, ValidSlots;
    forall k | 0 <= k < |Pins(a)|
      ensures Pins(b)[k] == Pins(a)[k] && Pins(c)[k] == Pins(a)[k]
    {
      assert Pins(b)[..|Pins(a)|][k] == Pins(a)[k] && Pins(c)[..|Pins(b)|][k] == Pins(b)[k];
    }
    assert Pins(c)[..|Pins(a)|] == Pins(a);
    if a.control.Some? && a.control.value.isSealed {
      assert Slots(c)[..|Slots(b)|] == Slots(b) && Slots(b)[..|Slots(a)|] == Slots(a);
      assert Slots(c)[..|Slots(a)|] == Slots(a);
    }
  }

  /** Along every accepted run of valid registries: the class never disappears; once sealed it stays sealed and its
  slots only grow at the end; issued pins are a prefix of every later pin list, their slots are frozen where they
  were, and every pin issued later is for a later slot than all of them. */
  lemma {:induction false} RunKeeps(registries: seq<Registry>, taken: seq<set<string>>, i: nat, j: nat)
    requires |registries| == |taken| && i <= j < |registries|
    requires forall k :: 0 <= k < |registries| ==> Valid(registries[k], taken[k])
    requires forall k :: 0 <= k < |registries| - 1 ==> Transition(registries[k], registries[k + 1])
    ensures Keeps(registries[i], registries[j])
    decreases j - i
  {
    hide *;
    if i == j {
      KeepsItself(registries[i], taken[i]);
    } else {
      RunKeeps(registries, taken, i, j - 1);
      TransitionKeeps(registries[j - 1], registries[j], taken[j - 1], taken[j]);
      KeepsTransitive(registries[i], registries[j - 1], registries[j], taken[j]);
    }
  }

  lemma KeepsItself(r: Registry, taken: set<string>)
    requires Valid(r, taken)
    ensures Keeps(r, r)
  {
    hide ValidSlots;
  }

  /** The transition loop over issued pins. */
  method AssertNativeStoreClassTransition(before: Registry, after: Registry) returns (ok: bool)
    ensures ok == Transition(before, after)
  {
    if before.control.Some? && after.control.None? { return false; }
    if before.control.Some? && before.control.value.isSealed {
      if !after.control.value.isSealed || !IsPrefix(Slots(before), Slots(after)) { return false; }
    }
    var pins := Pins(before);
    for k := 0 to |pins|
      invariant forall l :: 0 <= l < k ==>
          && l < |Pins(after)| && Pins(after)[l] == pins[l]
          && var i := SlotIndex(Slots(before), pins[l].path);
             i < |Slots(before)| ==> i < |Slots(after)| && Slots(after)[i] == Slots(before)[i]
    {
      var i := SlotIndex(Slots(before), pins[k].path);
      if k >= |Pins(after)| || Pins(after)[k] != pins[k] { return false; }
      if i < |Slots(before)| && (i >= |Slots(after)| || Slots(after)[i] != Slots(before)[i]) { return false; }
    }
    return true;
  }
}
