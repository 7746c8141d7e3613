/** The purpose check's replacement, and where a replacement stands open between two statements. */
module NativeStorePurpose {
  import opened Basics
  import opened NativeStoreAdmission
  import opened NativeStoreLaws

  // ---- The purpose check ----

  predicate DropsPurpose(s: Statement) { s.text == PURPOSE_DROP }

  predicate AddsPurpose(s: Statement) { HasPrefix(s.text, PURPOSE_ADD) }

  ghost predicate NoPurpose(done: seq<Statement>) {
    forall j :: 0 <= j < |done| ==> !DropsPurpose(done[j]) && !AddsPurpose(done[j])
  }

  /** The statement at `i` drops the check, the next adds it back with every old value, and no other touches it. */
  ghost predicate WidenedAt(slot: Slot, done: seq<Statement>, i: nat) {
    && slot.purpose.Some? && slot.purpose.value.preimageMatches
    && i + 1 < |done| && DropsPurpose(done[i]) && AddsPurpose(done[i + 1])
    && done[i + 1].widens.Some? && (forall v :: v in slot.purpose.value.values ==> v in done[i + 1].widens.value)
    && (forall j :: 0 <= j < |done| && DropsPurpose(done[j]) ==> j == i)
    && (forall j :: 0 <= j < |done| && AddsPurpose(done[j]) ==> j == i + 1)
  }

  ghost predicate WidenedOnce(slot: Slot, done: seq<Statement>) { exists i :: WidenedAt(slot, done, i) }

  ghost predicate PurposeKnown(slot: Slot, st: State, done: seq<Statement>) {
    if st.added then st.dropped && WidenedOnce(slot, done)
    else if st.dropped then
      && slot.purpose.Some? && slot.purpose.value.preimageMatches
      && done != [] && DropsPurpose(done[|done| - 1]) && NoPurpose(done[..|done| - 1])
    else NoPurpose(done)
  }

  lemma PurposeTexts(s: Statement)
    requires DropsPurpose(s)
    ensures !AddsPurpose(s)
  {
    var k := |"ALTER TABLE " + PURPOSE_TABLE + " "|;
    assert PURPOSE_DROP[k] == 'D' && PURPOSE_ADD[k] == 'A';
    PrefixAt(s.text, PURPOSE_ADD, k);
  }

  lemma PrefixAt(text: string, prefix: string, k: nat)
    requires k < |prefix|
    ensures HasPrefix(text, prefix) ==> k < |text| && text[k] == prefix[k]
  {
    if HasPrefix(text, prefix) { assert text[..|prefix|][k] == text[k]; }
  }

  /** A purpose statement is no trigger, listed constraint, view, function or privilege. */
  lemma PurposeRest(slot: Slot, called: set<string>, st: State, s: Statement)
    requires ValidSlot(slot) && WellRead(slot, s) && Step(slot, called, st, s).Accepted?
    requires DropsPurpose(s) || AddsPurpose(s)
    ensures Step(slot, called, st, s) == StepRest(slot, st, s) && StepConstraint(slot, st, s).None?
  {
    if s.shape.AlterConstraint? {
      var key := Key(s.shape.table, s.shape.constraint);
      assert key == PURPOSE_KEY;
      NoEntry(slot, key);
    }
    hide StepRest;
  }

  lemma NoEntry(slot: Slot, key: Key)
    requires key !in CheckKeys(slot.checks) + UniqueKeys(slot.uniques)
    ensures FindCheck(slot.checks, key).None? && FindUnique(slot.uniques, key).None?
  {
    FoundListed(slot, key);
  }

  lemma FoundListed(slot: Slot, key: Key)
    ensures FindCheck(slot.checks, key).Some? ==> key in CheckKeys(slot.checks)
    ensures FindUnique(slot.uniques, key).Some? ==> key in UniqueKeys(slot.uniques)
  {
    if FindCheck(slot.checks, key).Some? { assert FindCheck(slot.checks, key).value in slot.checks; }
    if FindUnique(slot.uniques, key).Some? { assert FindUnique(slot.uniques, key).value in slot.uniques; }
  }

  /** What one accepted statement does to the purpose check. */
  lemma PurposeStep(slot: Slot, called: set<string>, st: State, s: Statement)
    requires ValidSlot(slot) && WellRead(slot, s) && Step(slot, called, st, s).Accepted?
    ensures
      var st' := Step(slot, called, st, s).value;
      && (st.dropped && !st.added ==> AddsPurpose(s))
      && (if DropsPurpose(s) then
            slot.purpose.Some? && slot.purpose.value.preimageMatches && !st.dropped && st' == st.(dropped := true)
          else if AddsPurpose(s) then
            && slot.purpose.Some? && st.dropped && !st.added && s.widens.Some? && st' == st.(added := true)
            && forall v :: v in slot.purpose.value.values ==> v in s.widens.value
          else st'.dropped == st.dropped && st'.added == st.added)
  {
    if DropsPurpose(s) || AddsPurpose(s) {
      if DropsPurpose(s) { PurposeTexts(s); }
      PurposeRest(slot, called, st, s);
    } else {
      var route := RouteOf(slot, called, st, s);
      match route
      case ByTrigger =>
      case ByView =>
      case ByFunction =>
      case ByConstraint => ConstraintFrame(slot, st, s);
      case ByRest =>
      case ByPrivilege(p) => PrivilegeFrame(slot, st, p);
    }
  }

  lemma PurposeStaysKnown(slot: Slot, called: set<string>, st: State, done: seq<Statement>, s: Statement)
    requires ValidSlot(slot) && WellRead(slot, s) && PurposeKnown(slot, st, done) && Step(slot, called, st, s).Accepted?
    ensures PurposeKnown(slot, Step(slot, called, st, s).value, done + [s])
  {
    PurposeStep(slot, called, st, s);
    if DropsPurpose(s) { PurposeTexts(s); }
    hide Step, WellRead, ValidSlot, DropsPurpose, AddsPurpose;
    var all := done + [s];
    assert all[..|all| - 1] == done;
    if st.added {
      var i :| WidenedAt(slot, done, i);
      assert WidenedAt(slot, all, i);
    } else if st.dropped {
      var i := |done| - 1;
      PurposeTexts(done[i]);
      assert forall j :: 0 <= j < i ==> done[..i][j] == all[j];
      assert WidenedAt(slot, all, i);
    }
  }

  lemma {:induction false} RunPurpose(slot: Slot, called: set<string>, st: State, done: seq<Statement>, rest: seq<Statement>)
    requires ValidSlot(slot) && AllWellRead(slot, rest) && PurposeKnown(slot, st, done)
    requires Run(slot, called, st, rest).Accepted?
    ensures PurposeKnown(slot, Run(slot, called, st, rest).value, done + rest)
    decreases |rest|
  {
    hide *;
    RunUnfolds(slot, called, st, rest);
    if rest == [] {
      assert done + rest == done;
    } else {
      FirstWellRead(slot, rest);
      PurposeStaysKnown(slot, called, st, done, rest[0]);
      assert done + rest == (done + [rest[0]]) + rest[1..];
      RunPurpose(slot, called, Step(slot, called, st, rest[0]).value, done + [rest[0]], rest[1..]);
    }
  }

  /** In every accepted file of a slot with a purpose check, the check is dropped once, the very next statement adds it
  back once with every value it had, and the check's preimage was confirmed; a file of any other slot has neither. */
  lemma PurposeWidenedOnce(slot: Slot, statements: seq<Statement>)
    requires ValidSlot(slot) && AllWellRead(slot, statements) && Admit(slot, statements).Accepted?
    ensures slot.purpose.Some? ==> WidenedOnce(slot, statements)
    ensures slot.purpose.None? ==> NoPurpose(statements)
  {
    AdmitRuns(slot, statements);
    PurposeFinish(slot, Admit(slot, statements).value);
    hide *;
    PurposeAtStart(slot);
    RunPurpose(slot, TriggerFunctions(statements), START, [], statements);
    assert [] + statements == statements;
    OpenPurpose(slot, Admit(slot, statements).value, statements);
  }

  lemma PurposeAtStart(slot: Slot)
    ensures PurposeKnown(slot, START, [])
  {
  }

  lemma PurposeFinish(slot: Slot, st: State)
    requires Finish(slot, st).Accepted?
    ensures st.dropped == st.added && slot.purpose.Some? == st.added
  {
  }

  lemma OpenPurpose(slot: Slot, st: State, done: seq<Statement>)
    requires PurposeKnown(slot, st, done) && st.dropped == st.added
    ensures if st.added then WidenedOnce(slot, done) else NoPurpose(done)
  {
    hide WidenedOnce, NoPurpose;
  }

  // ---- Open replacements ----

  /** Is a constraint or the purpose check dropped and not yet added back? */
  predicate IsOpen(st: State) { st.pending.Some? || (st.dropped && !st.added) }

  /** The statement drops a listed constraint or the purpose check. */
  predicate OpensReplacement(slot: Slot, s: Statement) {
    || DropsPurpose(s)
    || (s.shape.AlterConstraint? && s.shape.verb == Drop
        && Key(s.shape.table, s.shape.constraint) in CheckKeys(slot.checks) + UniqueKeys(slot.uniques))
  }

  predicate EndsOpen(slot: Slot, done: seq<Statement>) { done != [] && OpensReplacement(slot, done[|done| - 1]) }

  ghost predicate OpeningKnown(slot: Slot, st: State, done: seq<Statement>) {
    && (IsOpen(st) <==> EndsOpen(slot, done))
    && (st.pending.Some? ==> st.pending.value.key in CheckKeys(slot.checks) + UniqueKeys(slot.uniques) && (st.dropped ==> st.added))
    && (st.added ==> st.dropped)
  }

  /** A step of a listed replacement: the drop leaves it open, the add closes it. */
  lemma ConstraintOpens(slot: Slot, st: State, s: Statement)
    requires StepConstraint(slot, st, s).Some? && StepConstraint(slot, st, s).value.Accepted?
    ensures
      var st' := StepConstraint(slot, st, s).value.value;
      && s.shape.AlterConstraint? && st'.dropped == st.dropped && st'.added == st.added
      && (if s.shape.verb == Drop then st.pending.None? && st'.pending.Some? && st'.pending.value.key == Key(s.shape.table, s.shape.constraint)
          else st.pending.Some? && st'.pending.None?)
  {
    hide FindCheck, FindUnique;
  }

  /** A drop of a listed constraint is accepted only as a step of its replacement. */
  lemma ListedDrop(slot: Slot, called: set<string>, st: State, s: Statement)
    requires ValidSlot(slot) && WellRead(slot, s) && Step(slot, called, st, s).Accepted?
    requires s.shape.AlterConstraint? && s.shape.verb == Drop
    requires Key(s.shape.table, s.shape.constraint) in CheckKeys(slot.checks) + UniqueKeys(slot.uniques)
    ensures StepConstraint(slot, st, s).Some? && StepConstraint(slot, st, s).value.Accepted? && !DropsPurpose(s) && !AddsPurpose(s)
  {
    var route := RouteOf(slot, called, st, s);
    hide Step, StepConstraint, FindCheck, FindUnique, CheckKeys, UniqueKeys;
  }

  /** A statement that is no step of a listed replacement comes only while none is open, and opens none. */
  lemma OtherPending(slot: Slot, called: set<string>, st: State, s: Statement)
    requires Step(slot, called, st, s).Accepted? && StepConstraint(slot, st, s).None?
    ensures Step(slot, called, st, s).value.pending == st.pending
    ensures st.pending.Some? ==> s.shape.AlterConstraint? && s.shape.verb == Add && Key(s.shape.table, s.shape.constraint) == st.pending.value.key
  {
    var route := RouteOf(slot, called, st, s);
    match route
    case ByTrigger =>
    case ByView =>
    case ByFunction =>
    case ByConstraint =>
    case ByRest => RestFrame(slot, st, s);
    case ByPrivilege(p) => PrivilegeFrame(slot, st, p);
  }

  /** The pending constraint can only be added back. */
  lemma PendingAdded(slot: Slot, st: State, s: Statement)
    requires s.shape.AlterConstraint? && s.shape.verb == Add
    requires Key(s.shape.table, s.shape.constraint) in CheckKeys(slot.checks) + UniqueKeys(slot.uniques)
    ensures StepConstraint(slot, st, s).Some?
  {
    var key := Key(s.shape.table, s.shape.constraint);
    assert FindCheck(slot.checks, key).Some? || FindUnique(slot.uniques, key).Some?;
  }

  lemma OpeningStaysKnown(slot: Slot, called: set<string>, st: State, done: seq<Statement>, s: Statement)
    requires ValidSlot(slot) && WellRead(slot, s) && OpeningKnown(slot, st, done) && Step(slot, called, st, s).Accepted?
    ensures OpeningKnown(slot, Step(slot, called, st, s).value, done + [s])
  {
    PurposeStep(slot, called, st, s);
    assert (done + [s])[|done + [s]| - 1] == s;
    if s.shape.AlterConstraint? && Key(s.shape.table, s.shape.constraint) in CheckKeys(slot.checks) + UniqueKeys(slot.uniques) {
      if s.shape.verb == Drop { ListedDrop(slot, called, st, s); } else { PendingAdded(slot, st, s); }
    }
    if StepConstraint(slot, st, s).Some? {
      StepIsConstraint(slot, called, st, s);
      ConstraintOpens(slot, st, s);
      ListedConstraint(slot, st, s);
      NoPurposeStep(slot, s);
    } else {
      OtherPending(slot, called, st, s);
    }
    hide Step, StepConstraint, WellRead, ValidSlot, CheckKeys, UniqueKeys, DropsPurpose, AddsPurpose;
  }

  lemma NoPurposeStep(slot: Slot, s: Statement)
    requires ValidSlot(slot) && WellRead(slot, s) && s.shape.AlterConstraint?
    requires Key(s.shape.table, s.shape.constraint) in CheckKeys(slot.checks) + UniqueKeys(slot.uniques)
    ensures !DropsPurpose(s) && !AddsPurpose(s)
  {
  }

  lemma StepIsConstraint(slot: Slot, called: set<string>, st: State, s: Statement)
    requires Step(slot, called, st, s).Accepted? && StepConstraint(slot, st, s).Some?
    ensures Step(slot, called, st, s) == StepConstraint(slot, st, s).value
  {
    ConstraintShape(slot, st, s);
    hide StepConstraint;
  }

  lemma ConstraintShape(slot: Slot, st: State, s: Statement)
    requires StepConstraint(slot, st, s).Some?
    ensures s.shape.AlterConstraint?
  {
  }

  lemma {:induction false} RunOpening(slot: Slot, called: set<string>, st: State, done: seq<Statement>, rest: seq<Statement>)
    requires ValidSlot(slot) && AllWellRead(slot, rest) && OpeningKnown(slot, st, done)
    requires Run(slot, called, st, rest).Accepted?
    ensures OpeningKnown(slot, Run(slot, called, st, rest).value, done + rest)
    decreases |rest|
  {
    hide *;
    RunUnfolds(slot, called, st, rest);
    if rest == [] {
      assert done + rest == done;
    } else {
      FirstWellRead(slot, rest);
      OpeningStaysKnown(slot, called, st, done, rest[0]);
      assert done + rest == (done + [rest[0]]) + rest[1..];
      RunOpening(slot, called, Step(slot, called, st, rest[0]).value, done + [rest[0]], rest[1..]);
    }
  }

  lemma OpeningAtStart(slot: Slot)
    ensures OpeningKnown(slot, START, [])
  {
  }

  /** After an accepted beginning of a file a replacement is open exactly if its last statement opened one. */
  lemma OpenAfter(slot: Slot, called: set<string>, done: seq<Statement>)
    requires ValidSlot(slot) && AllWellRead(slot, done) && Run(slot, called, START, done).Accepted?
    ensures IsOpen(Run(slot, called, START, done).value) <==> EndsOpen(slot, done)
  {
    OpeningAtStart(slot);
    RunOpening(slot, called, START, [], done);
    assert [] + done == done;
    hide Run, IsOpen, EndsOpen, ValidSlot, AllWellRead;
  }
}
