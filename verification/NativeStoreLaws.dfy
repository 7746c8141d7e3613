/** What every file the native store machine accepts looks like. */
module NativeStoreLaws {
  import opened Basics
  import opened NativeStoreAdmission

  // ---- What registry validation and the scanners have already established ----

  function CheckKeys(entries: seq<CheckEntry>): set<Key> { set e | e in entries :: Key(e.table, e.constraint) }

  function UniqueKeys(entries: seq<UniqueEntry>): set<Key> { set e | e in entries :: Key(e.table, e.constraint) }

  const PURPOSE_KEY := Key(PURPOSE_TABLE, PURPOSE_CONSTRAINT)

  /** The registry's own rules for one slot: no name is listed twice, and grant-only roles are closed. */
  ghost predicate ValidSlot(slot: Slot) {
    && (forall i, j :: 0 <= i < j < |slot.functions| ==> slot.functions[i].signature != slot.functions[j].signature)
    && (forall e, g :: e in slot.functions && g in slot.grantOnly ==> e.signature != g.signature)
    && (forall i, j :: 0 <= i < j < |slot.checks| ==> KeyOfCheck(slot.checks[i]) != KeyOfCheck(slot.checks[j]))
    && (forall i, j :: 0 <= i < j < |slot.uniques| ==> KeyOfUnique(slot.uniques[i]) != KeyOfUnique(slot.uniques[j]))
    && CheckKeys(slot.checks) !! UniqueKeys(slot.uniques)
    && PURPOSE_KEY !in CheckKeys(slot.checks) + UniqueKeys(slot.uniques)
    && (forall i, j :: 0 <= i < j < |slot.views| ==> slot.views[i].name != slot.views[j].name)
    && (forall i, j :: 0 <= i < j < |slot.triggers| ==> slot.triggers[i].name != slot.triggers[j].name)
    && NoDuplicates(slot.dataStatements)
  }

  function KeyOfCheck(e: CheckEntry): Key { Key(e.table, e.constraint) }
  function KeyOfUnique(e: UniqueEntry): Key { Key(e.table, e.constraint) }

  predicate DropsConstraint(s: Statement) { s.shape.AlterConstraint? && s.shape.verb == Drop }

  /** The readings agree with the texts: block guards are the three login roles, listed data statements read as data
  changes, listed existing-table statements are expand-only, expand-only texts drop nothing, and the purpose texts
  act on the purpose constraint. */
  ghost predicate WellRead(slot: Slot, s: Statement) {
    && (s.shape.Privilege? ==> s.shape.guard != Some(Public))
    && (s.text in slot.dataStatements ==> s.shape.DataChange?)
    && (s.text in slot.existingTableStatements ==> !DropsConstraint(s))
    && (s.expandOnly ==> !DropsConstraint(s))
    && (s.text == PURPOSE_DROP || HasPrefix(s.text, PURPOSE_ADD) ==>
          AlteredTable(s.shape) == Some(PURPOSE_TABLE)
          && (s.shape.AlterConstraint? ==> s.shape.constraint == PURPOSE_CONSTRAINT))
  }

  ghost predicate AllWellRead(slot: Slot, statements: seq<Statement>) {
    forall i :: 0 <= i < |statements| ==> WellRead(slot, statements[i])
  }

  // ---- Functions and privileges ----

  predicate Defines(s: Statement, f: string) { s.shape.CreateFunction? && s.shape.signature == f }

  predicate NamesFunction(s: Statement, f: string) {
    s.shape.Privilege? && s.shape.body.OnFunctions? && Some(f) in s.shape.body.signatures
  }

  /** REVOKE ALL ON FUNCTION ... FROM PUBLIC, outside any block. */
  predicate RevokesPublic(s: Statement, f: string) {
    && NamesFunction(s, f) && s.shape.guard == None
    && s.shape.body.verb == RevokeAll && !s.shape.body.to && s.shape.body.role == Public
  }

  /** A grant, or any conditional block, that names `f`. */
  predicate GrantsOrGuards(s: Statement, f: string) {
    NamesFunction(s, f) && (s.shape.body.verb == GrantExecute || s.shape.guard.Some?)
  }

  /** Nothing is granted to PUBLIC or anon. */
  predicate GrantsClosed(s: Statement) {
    s.shape.Privilege? ==>
      match s.shape.body
      case OnFunctions(GrantExecute, _, _, role) => role == Authenticated || role == ServiceRole
      case GrantOnRelation(_) => false
      case InsertSelectGrant => s.shape.guard == Some(ServiceRole)
      case InsertSelectPolicy => s.shape.guard == Some(ServiceRole)
      case _ => true
  }

  ghost predicate DefinedIn(done: seq<Statement>, f: string) { exists j :: 0 <= j < |done| && Defines(done[j], f) }

  /** Before the end of `done`, `f` was defined and later had ALL revoked from PUBLIC. */
  ghost predicate SecuredIn(done: seq<Statement>, f: string) {
    exists k, j :: 0 <= k < j < |done| && Defines(done[k], f) && RevokesPublic(done[j], f)
  }

  ghost predicate FunctionsInOrder(slot: Slot, done: seq<Statement>) {
    forall i, f, g :: 0 <= i < |done| && f in Created(slot) && GrantsOrGuards(done[i], f) && g in Created(slot)
      ==> SecuredIn(done[..i], g)
  }

  ghost predicate FunctionsKnown(slot: Slot, st: State, done: seq<Statement>) {
    && (forall f :: f in st.defined ==> DefinedIn(done, f))
    && (forall f :: f in st.revoked ==> SecuredIn(done, f))
    && FunctionsInOrder(slot, done)
    && (forall i :: 0 <= i < |done| ==> GrantsClosed(done[i]))
  }

  lemma {:induction false} ValuesMeans(signatures: seq<Option<string>>)
    ensures forall f :: Some(f) in signatures <==> f in Values(signatures)
    decreases |signatures|
  {
    if signatures != [] { ValuesMeans(signatures[1..]); }
  }

  // ---- What each kind of statement may change ----

  lemma ConstraintFrame(slot: Slot, st: State, s: Statement)
    requires StepConstraint(slot, st, s).Some? && StepConstraint(slot, st, s).value.Accepted?
    ensures
      var st' := StepConstraint(slot, st, s).value.value;
      s.shape.AlterConstraint? && st' == st.(pending := st'.pending, checks := st'.checks, uniques := st'.uniques)
  {
    hide FindCheck, FindUnique;
  }

  lemma RestFrame(slot: Slot, st: State, s: Statement)
    requires StepRest(slot, st, s).Accepted?
    ensures
      var st' := StepRest(slot, st, s).value;
      st' == st.(dropped := st'.dropped, added := st'.added, position := st'.position, data := st'.data, tables := st'.tables)
  {
  }

  lemma PrivilegeFrame(slot: Slot, st: State, p: Granted)
    requires !p.NotPrivilege? && ApplyPrivilege(slot, st, p).Accepted?
    ensures
      var st' := ApplyPrivilege(slot, st, p).value;
      st' == st.(policy := st'.policy, revoked := st'.revoked, revokedViews := st'.revokedViews, blocks := st'.blocks)
  {
  }

  /** How an accepted statement was read. */
  datatype Route = ByTrigger | ByConstraint | ByView | ByFunction | ByPrivilege(granted: Granted) | ByRest

  lemma RouteOf(slot: Slot, called: set<string>, st: State, s: Statement) returns (route: Route)
    requires Step(slot, called, st, s).Accepted?
    ensures !(s.shape.TriggerMutation? || s.shape.MalformedBlock?)
    ensures route.ByTrigger? <==> s.shape.CreateTrigger?
    ensures route.ByConstraint? <==> !s.shape.CreateTrigger? && StepConstraint(slot, st, s).Some?
    ensures route.ByView? <==> s.shape.CreateView?
    ensures route.ByFunction? <==> s.shape.CreateFunction?
    ensures route.ByPrivilege? ==> s.shape.Privilege?
    ensures s.shape.Privilege? ==>
      var p := ReadPrivilege(slot, called, st, s.shape.guard, s.shape.body);
      p.Accepted? && (p.value.NotPrivilege? ==> route.ByRest?) && (!p.value.NotPrivilege? ==> route == ByPrivilege(p.value))
    ensures Step(slot, called, st, s) ==
      match route
      case ByTrigger => StepTrigger(slot, st, s)
      case ByConstraint => StepConstraint(slot, st, s).value
      case ByView => StepView(slot, st, s)
      case ByFunction => StepFunction(slot, called, st, s)
      case ByPrivilege(p) => if p.NotPrivilege? then Refused(OtherPrivilege) else ApplyPrivilege(slot, st, p)
      case ByRest => StepRest(slot, st, s)
  {
    hide StepTrigger, StepView, StepFunction, ReadPrivilege, ApplyPrivilege, StepRest, FindCheck, FindUnique;
    if s.shape.CreateTrigger? { return ByTrigger; }
    if StepConstraint(slot, st, s).Some? { return ByConstraint; }
    match s.shape {
      case CreateView(_) => return ByView;
      case CreateFunction(_, _, _, _) => return ByFunction;
      case Privilege(guard, body) =>
        var p := ReadPrivilege(slot, called, st, guard, body);
        return if p.value.NotPrivilege? then ByRest else ByPrivilege(p.value);
      case _ => return ByRest;
    }
  }

  lemma ReadOnFunctions(slot: Slot, called: set<string>, st: State, guard: Option<Role>, body: Body)
    requires body.OnFunctions? && ReadPrivilege(slot, called, st, guard, body).Accepted?
    ensures ReadPrivilege(slot, called, st, guard, body).value
      == On(FunctionObject, Values(body.signatures), body.role, body.verb == GrantExecute, guard.Some?)
    ensures body.verb == GrantExecute ==> body.role == Authenticated || body.role == ServiceRole
    ensures body.role == Public ==> body.verb == RevokeAll && !body.to
    ensures guard.Some? ==> body.role == guard.value
  {
  }

  /** A function privilege is applied only to known functions, and after every created function is revoked. */
  lemma ApplyOnFunctions(slot: Slot, st: State, p: Granted)
    requires p.On? && p.kind == FunctionObject && ApplyOn(slot, st, p).Accepted?
    ensures
      var st' := ApplyOn(slot, st, p).value;
      && st'.revoked == (if p.role == Public then st.revoked + ToSet(p.targets) else st.revoked)
      && (forall t :: t in p.targets && FindGrantOnly(slot.grantOnly, t).None? ==> t in st.defined)
      && (forall t :: t in p.targets && FindGrantOnly(slot.grantOnly, t).Some? ==> p.conditional)
      && (p.role != Public && (p.grant || p.conditional) && (exists t :: t in p.targets && t in Created(slot))
          ==> Created(slot) <= st.revoked)
  {
    hide FindGrantOnly, Created;
    forall t | t in p.targets
      ensures TargetRefusal(slot, st, t, p).None?
    {
    }
  }

  /** What one accepted statement does to the function sets. */
  lemma FunctionStep(slot: Slot, called: set<string>, st: State, s: Statement)
    requires ValidSlot(slot) && WellRead(slot, s) && Step(slot, called, st, s).Accepted?
    ensures
      var st' := Step(slot, called, st, s).value;
      && (forall f :: f in st'.defined ==> f in st.defined || Defines(s, f))
      && (forall f :: f in st'.revoked ==> f in st.revoked || (RevokesPublic(s, f) && f in st.defined))
      && (forall f :: f in Created(slot) && GrantsOrGuards(s, f) ==> Created(slot) <= st.revoked)
      && GrantsClosed(s)
  {
    var route := RouteOf(slot, called, st, s);
    match route
    case ByTrigger =>
    case ByView =>
    case ByFunction =>
    case ByConstraint => ConstraintFrame(slot, st, s);
    case ByRest => RestFrame(slot, st, s); RelationGrantRefused(slot, called, st, s);
    case ByPrivilege(p) => PrivilegeStep(slot, called, st, s, p);
  }

  /** A grant on a relation reads as no privilege and is then refused by every other branch. */
  lemma RelationGrantRefused(slot: Slot, called: set<string>, st: State, s: Statement)
    requires WellRead(slot, s) && StepRest(slot, st, s).Accepted?
    ensures !s.shape.Privilege?
  {
  }

  lemma PrivilegeStep(slot: Slot, called: set<string>, st: State, s: Statement, p: Granted)
    requires ValidSlot(slot) && WellRead(slot, s) && s.shape.Privilege? && !p.NotPrivilege?
    requires ReadPrivilege(slot, called, st, s.shape.guard, s.shape.body) == Accepted(p)
    requires ApplyPrivilege(slot, st, p).Accepted?
    ensures
      var st' := ApplyPrivilege(slot, st, p).value;
      && st'.defined == st.defined
      && (forall f :: f in st'.revoked ==> f in st.revoked || (RevokesPublic(s, f) && f in st.defined))
      && (forall f :: f in Created(slot) && GrantsOrGuards(s, f) ==> Created(slot) <= st.revoked)
      && GrantsClosed(s)
  {
    PrivilegeFrame(slot, st, p);
    if s.shape.body.OnFunctions? {
      ValuesMeans(s.shape.body.signatures);
      ReadOnFunctions(slot, called, st, s.shape.guard, s.shape.body);
      ApplyOnFunctions(slot, st, p);
    }
    hide FindGrantOnly, TargetsRefusal, Values;
  }

  lemma SecuredGrows(done: seq<Statement>, s: Statement, f: string)
    requires SecuredIn(done, f)
    ensures SecuredIn(done + [s], f)
  {
    var k, j :| 0 <= k < j < |done| && Defines(done[k], f) && RevokesPublic(done[j], f);
    var all := done + [s];
    assert Defines(all[k], f) && RevokesPublic(all[j], f);
  }

  lemma DefinedGrows(done: seq<Statement>, s: Statement, f: string)
    requires DefinedIn(done, f)
    ensures DefinedIn(done + [s], f)
  {
    var j :| 0 <= j < |done| && Defines(done[j], f);
    assert Defines((done + [s])[j], f);
  }

  lemma FunctionsStayKnown(slot: Slot, called: set<string>, st: State, done: seq<Statement>, s: Statement)
    requires ValidSlot(slot) && WellRead(slot, s) && FunctionsKnown(slot, st, done)
    requires Step(slot, called, st, s).Accepted?
    ensures FunctionsKnown(slot, Step(slot, called, st, s).value, done + [s])
  {
    FunctionStep(slot, called, st, s);
    hide Step, Created, GrantsOrGuards, GrantsClosed, Defines, RevokesPublic;
    var st', all := Step(slot, called, st, s).value, done + [s];
    forall f | f in st'.defined
      ensures DefinedIn(all, f)
    {
      if f in st.defined { DefinedGrows(done, s, f); } else { assert Defines(all[|done|], f); }
    }
    forall f | f in st'.revoked
      ensures SecuredIn(all, f)
    {
      if f in st.revoked {
        SecuredGrows(done, s, f);
      } else {
        var k :| 0 <= k < |done| && Defines(done[k], f);
        assert Defines(all[k], f) && RevokesPublic(all[|done|], f);
      }
    }
    forall i, f, g | 0 <= i < |all| && f in Created(slot) && GrantsOrGuards(all[i], f) && g in Created(slot)
      ensures SecuredIn(all[..i], g)
    {
      if i < |done| {
        assert all[..i] == done[..i] && all[i] == done[i];
      } else {
        assert all[..i] == done && g in st.revoked;
      }
    }
  }

  // ---- Constraint replacements ----

  predicate Touches(s: Statement, key: Key) {
    s.shape.AlterConstraint? && Key(s.shape.table, s.shape.constraint) == key
  }

  predicate IsDrop(s: Statement, key: Key) { s.shape == AlterConstraint(key.table, key.constraint, Drop, NoTail) }

  predicate IsAdd(s: Statement, key: Key, tail: Tail) { s.shape == AlterConstraint(key.table, key.constraint, Add, tail) }

  ghost predicate ReplacedAt(done: seq<Statement>, key: Key, tail: Tail, i: nat) {
    && i + 1 < |done| && IsDrop(done[i], key) && IsAdd(done[i + 1], key, tail)
    && forall j :: 0 <= j < |done| && Touches(done[j], key) ==> j == i || j == i + 1
  }

  /** The constraint is dropped once, re-added by the very next statement as listed, and touched by no other. */
  ghost predicate ReplacedOnce(done: seq<Statement>, key: Key, tail: Tail) { exists i :: ReplacedAt(done, key, tail, i) }

  ghost predicate Untouched(done: seq<Statement>, key: Key) { forall j :: 0 <= j < |done| ==> !Touches(done[j], key) }

  predicate Completed(st: State, kind: ConstraintKind, key: Key) {
    if kind == CheckKind then key in st.checks else key in st.uniques
  }

  ghost predicate KeyKnown(st: State, done: seq<Statement>, kind: ConstraintKind, key: Key, tail: Tail) {
    if Completed(st, kind, key) then
      st.pending != Some(PendingAdd(kind, key)) && ReplacedOnce(done, key, tail)
    else if st.pending == Some(PendingAdd(kind, key)) then
      done != [] && IsDrop(done[|done| - 1], key) && Untouched(done[..|done| - 1], key)
    else Untouched(done, key)
  }

  /** The tail the slot lists for a constraint. */
  ghost predicate Lists(slot: Slot, kind: ConstraintKind, key: Key, tail: Tail) {
    match kind
    case CheckKind => exists e :: e in slot.checks && key == KeyOfCheck(e) && tail == CheckIn(e.column, e.values)
    case UniqueKind => exists e :: e in slot.uniques && key == KeyOfUnique(e) && tail == UniqueKey(e.columns, e.nullsNotDistinct)
  }

  ghost predicate ConstraintsKnown(slot: Slot, st: State, done: seq<Statement>) {
    && st.checks <= CheckKeys(slot.checks) && st.uniques <= UniqueKeys(slot.uniques)
    && forall kind, key, tail :: Lists(slot, kind, key, tail) ==> KeyKnown(st, done, kind, key, tail)
  }

  lemma FindsCheck(entries: seq<CheckEntry>, e: CheckEntry)
    requires e in entries
    requires forall i, j :: 0 <= i < j < |entries| ==> KeyOfCheck(entries[i]) != KeyOfCheck(entries[j])
    ensures FindCheck(entries, KeyOfCheck(e)) == Some(e)
  {
  }

  lemma FindsUnique(entries: seq<UniqueEntry>, e: UniqueEntry)
    requires e in entries
    requires forall i, j :: 0 <= i < j < |entries| ==> KeyOfUnique(entries[i]) != KeyOfUnique(entries[j])
    ensures FindUnique(entries, KeyOfUnique(e)) == Some(e)
  {
  }

  /** The key of a listed UNIQUE replacement is no listed CHECK's. */
  lemma NoCheckFound(slot: Slot, key: Key)
    requires ValidSlot(slot) && key in UniqueKeys(slot.uniques)
    ensures FindCheck(slot.checks, key) == None
  {
    var found := FindCheck(slot.checks, key);
    assert found.Some? ==> key in CheckKeys(slot.checks);
    hide UniqueKeys, FindCheck;
  }

  /** A statement on a listed constraint is the drop that opens its replacement or the listed add that closes it. */
  lemma TouchStep(slot: Slot, called: set<string>, st: State, s: Statement, kind: ConstraintKind, key: Key, tail: Tail)
    requires ValidSlot(slot) && WellRead(slot, s) && Lists(slot, kind, key, tail) && Touches(s, key)
    requires Step(slot, called, st, s).Accepted?
    ensures
      var st' := Step(slot, called, st, s).value;
      if IsDrop(s, key) then
        st.pending == None && !Completed(st, kind, key) && st' == st.(pending := Some(PendingAdd(kind, key)))
      else
        IsAdd(s, key, tail) && st.pending == Some(PendingAdd(kind, key))
        && st' == (if kind == CheckKind then st.(pending := None, checks := st.checks + {key})
                   else st.(pending := None, uniques := st.uniques + {key}))
  {
    var route := RouteOf(slot, called, st, s);
    match kind {
      case CheckKind =>
        var e :| e in slot.checks && key == KeyOfCheck(e) && tail == CheckIn(e.column, e.values);
        FindsCheck(slot.checks, e);
      case UniqueKind =>
        var e :| e in slot.uniques && key == KeyOfUnique(e) && tail == UniqueKey(e.columns, e.nullsNotDistinct);
        FindsUnique(slot.uniques, e);
        assert key in UniqueKeys(slot.uniques);
        NoCheckFound(slot, key);
    }
    hide FindCheck, FindUnique, Step;
    if route.ByRest? { DropRefused(slot, st, s, kind, key, tail); }
  }

  /** Dropping a listed constraint in any other way is refused. */
  lemma DropRefused(slot: Slot, st: State, s: Statement, kind: ConstraintKind, key: Key, tail: Tail)
    requires ValidSlot(slot) && WellRead(slot, s) && Lists(slot, kind, key, tail) && Touches(s, key)
    requires DropsConstraint(s)
    ensures StepRest(slot, st, s).Refused?
  {
    assert key in CheckKeys(slot.checks) + UniqueKeys(slot.uniques);
  }

  /** A statement that does not touch a listed constraint leaves its replacement where it was, and cannot come while
  that replacement is open. */
  lemma PassStep(slot: Slot, called: set<string>, st: State, s: Statement, kind: ConstraintKind, key: Key)
    requires !Touches(s, key) && Step(slot, called, st, s).Accepted?
    ensures
      var st' := Step(slot, called, st, s).value;
      && st.pending != Some(PendingAdd(kind, key)) && st'.pending != Some(PendingAdd(kind, key))
      && Completed(st', kind, key) == Completed(st, kind, key)
  {
    var route := RouteOf(slot, called, st, s);
    match route
    case ByTrigger =>
    case ByView =>
    case ByFunction =>
    case ByConstraint => ConstraintKeys(slot, st, s);
    case ByRest => RestFrame(slot, st, s);
    case ByPrivilege(p) => PrivilegeFrame(slot, st, p);
  }

  /** A replacement step moves only its own constraint, which the slot lists. */
  lemma ConstraintKeys(slot: Slot, st: State, s: Statement)
    requires StepConstraint(slot, st, s).Some? && StepConstraint(slot, st, s).value.Accepted?
    ensures
      var st' := StepConstraint(slot, st, s).value.value;
      var key := Key(s.shape.table, s.shape.constraint);
      && s.shape.AlterConstraint?
      && (st'.pending.Some? ==> st'.pending.value.key == key)
      && (st'.checks == st.checks || (st'.checks == st.checks + {key} && key in CheckKeys(slot.checks)))
      && (st'.uniques == st.uniques || (st'.uniques == st.uniques + {key} && key in UniqueKeys(slot.uniques)))
  {
    hide FindCheck, FindUnique;
  }

  lemma KeyStaysKnown(slot: Slot, called: set<string>, st: State, done: seq<Statement>, s: Statement,
                      kind: ConstraintKind, key: Key, tail: Tail)
    requires ValidSlot(slot) && WellRead(slot, s) && Lists(slot, kind, key, tail)
    requires KeyKnown(st, done, kind, key, tail) && Step(slot, called, st, s).Accepted?
    ensures KeyKnown(Step(slot, called, st, s).value, done + [s], kind, key, tail)
  {
    hide Step, Lists, ValidSlot, WellRead;
    var st', all := Step(slot, called, st, s).value, done + [s];
    assert all[..|all| - 1] == done;
    if Touches(s, key) {
      TouchStep(slot, called, st, s, kind, key, tail);
      if IsAdd(s, key, tail) {
        var i := |done| - 1;
        assert forall j :: 0 <= j < i ==> done[..i][j] == all[j];
        assert ReplacedAt(all, key, tail, i) by {
          forall j | 0 <= j < |all| && Touches(all[j], key)
            ensures j == i || j == i + 1
          {
          }
        }
      }
    } else {
      PassStep(slot, called, st, s, kind, key);
      if Completed(st, kind, key) {
        var i :| ReplacedAt(done, key, tail, i);
        assert ReplacedAt(all, key, tail, i);
      }
    }
  }

  lemma ConstraintsStayKnown(slot: Slot, called: set<string>, st: State, done: seq<Statement>, s: Statement)
    requires ValidSlot(slot) && WellRead(slot, s) && ConstraintsKnown(slot, st, done)
    requires Step(slot, called, st, s).Accepted?
    ensures ConstraintsKnown(slot, Step(slot, called, st, s).value, done + [s])
  {
    forall kind, key, tail | Lists(slot, kind, key, tail)
      ensures KeyKnown(Step(slot, called, st, s).value, done + [s], kind, key, tail)
    {
      KeyStaysKnown(slot, called, st, done, s, kind, key, tail);
    }
    hide KeyKnown, Lists;
    var route := RouteOf(slot, called, st, s);
    match route
    case ByTrigger =>
    case ByView =>
    case ByFunction =>
    case ByConstraint => ConstraintKeys(slot, st, s);
    case ByRest => RestFrame(slot, st, s);
    case ByPrivilege(p) => PrivilegeFrame(slot, st, p);
  }

  // ---- Views and triggers ----

  predicate CreatesView(s: Statement, name: string) { s.shape == CreateView(name) }

  predicate CreatesTrigger(s: Statement, name: string) {
    s.shape.CreateTrigger? && s.shape.trigger.Some? && s.shape.trigger.value.name == name
  }

  predicate RevokesRelation(s: Statement, name: string) {
    && s.shape.Privilege? && s.shape.guard == None && s.shape.body.RevokeAllOnTable?
    && name in s.shape.body.revoked && s.shape.body.from == Public
  }

  ghost predicate ViewListed(slot: Slot, s: Statement) {
    s.shape.CreateView? ==> exists e :: e in slot.views && e.name == s.shape.name && e.digest == s.digest
  }

  ghost predicate TriggerListed(slot: Slot, done: seq<Statement>, s: Statement) {
    s.shape.CreateTrigger? ==>
      && s.shape.trigger.Some?
      && (exists e :: e in slot.triggers && e.name == s.shape.trigger.value.name && e.table == s.shape.trigger.value.table && e.digest == s.digest)
      && s.shape.trigger.value.signature in Created(slot) && DefinedIn(done, s.shape.trigger.value.signature)
  }

  ghost predicate ViewIn(done: seq<Statement>, v: string) { exists i :: 0 <= i < |done| && CreatesView(done[i], v) }

  ghost predicate TriggerIn(done: seq<Statement>, t: string) { exists i :: 0 <= i < |done| && CreatesTrigger(done[i], t) }

  /** The view is created and, later, ALL on it is revoked from PUBLIC. */
  ghost predicate ViewSecuredIn(done: seq<Statement>, v: string) {
    exists i, j :: 0 <= i < j < |done| && CreatesView(done[i], v) && RevokesRelation(done[j], v)
  }

  ghost predicate InventoryKnown(slot: Slot, st: State, done: seq<Statement>) {
    && (forall v :: v in st.views <==> ViewIn(done, v))
    && (forall v :: v in st.revokedViews ==> ViewSecuredIn(done, v))
    && (forall t :: t in st.triggers <==> TriggerIn(done, t))
    && (forall f :: f in st.defined ==> DefinedIn(done, f))
    && (forall i :: 0 <= i < |done| ==> ViewListed(slot, done[i]) && TriggerListed(slot, done[..i], done[i]))
    && (forall i, j, v :: 0 <= i < j < |done| && CreatesView(done[i], v) ==> !CreatesView(done[j], v))
    && (forall i, j, t :: 0 <= i < j < |done| && CreatesTrigger(done[i], t) ==> !CreatesTrigger(done[j], t))
    && (forall d :: d in st.data ==> exists i :: 0 <= i < |done| && done[i].text == d)
    && st.data <= ToSet(slot.dataStatements)
  }

  lemma InventoryStep(slot: Slot, called: set<string>, st: State, s: Statement)
    requires WellRead(slot, s) && Step(slot, called, st, s).Accepted?
    ensures
      var st' := Step(slot, called, st, s).value;
      && (forall v :: v in st'.views <==> v in st.views || CreatesView(s, v))
      && (forall v :: CreatesView(s, v) ==> v !in st.views)
      && (forall v :: v in st'.revokedViews ==> v in st.revokedViews || (v in st.views && RevokesRelation(s, v)))
      && (forall t :: t in st'.triggers <==> t in st.triggers || CreatesTrigger(s, t))
      && (forall t :: CreatesTrigger(s, t) ==> t !in st.triggers)
      && (forall f :: f in st'.defined ==> f in st.defined || Defines(s, f))
      && ViewListed(slot, s)
      && (s.shape.CreateTrigger? ==>
            && s.shape.trigger.Some?
            && (exists e :: e in slot.triggers && e.name == s.shape.trigger.value.name && e.table == s.shape.trigger.value.table && e.digest == s.digest)
            && s.shape.trigger.value.signature in Created(slot) && s.shape.trigger.value.signature in st.defined)
      && (st'.data == st.data || (st'.data == st.data + {s.text} && s.text in slot.dataStatements))
  {
    var route := RouteOf(slot, called, st, s);
    match route
    case ByTrigger =>
      var t := s.shape.trigger.value;
      var entry := FindTrigger(slot.triggers, t.name, t.table).value;
      assert entry in slot.triggers;
    case ByView => assert FindView(slot.views, s.shape.name).value in slot.views;
    case ByFunction =>
    case ByConstraint => ConstraintFrame(slot, st, s);
    case ByRest => RestData(slot, st, s);
    case ByPrivilege(p) => PrivilegeFrame(slot, st, p); RevokedViews(slot, called, st, s, p);
  }

  lemma RestData(slot: Slot, st: State, s: Statement)
    requires StepRest(slot, st, s).Accepted?
    ensures
      var st' := StepRest(slot, st, s).value;
      && st' == st.(dropped := st'.dropped, added := st'.added, position := st'.position, data := st'.data, tables := st'.tables)
      && (st'.data == st.data || (st'.data == st.data + {s.text} && s.text in slot.dataStatements))
  {
  }

  lemma RevokedViews(slot: Slot, called: set<string>, st: State, s: Statement, p: Granted)
    requires WellRead(slot, s) && s.shape.Privilege? && !p.NotPrivilege?
    requires ReadPrivilege(slot, called, st, s.shape.guard, s.shape.body) == Accepted(p)
    requires ApplyPrivilege(slot, st, p).Accepted?
    ensures forall v :: v in ApplyPrivilege(slot, st, p).value.revokedViews ==>
      v in st.revokedViews || (v in st.views && RevokesRelation(s, v))
  {
    hide TargetsRefusal, Created;
  }

  lemma InventoryStaysKnown(slot: Slot, called: set<string>, st: State, done: seq<Statement>, s: Statement)
    requires WellRead(slot, s) && InventoryKnown(slot, st, done) && Step(slot, called, st, s).Accepted?
    ensures InventoryKnown(slot, Step(slot, called, st, s).value, done + [s])
  {
    InventoryStep(slot, called, st, s);
    hide Step, ViewListed, WellRead, CreatesView, CreatesTrigger, RevokesRelation, Defines, Created;
    var st', all := Step(slot, called, st, s).value, done + [s];
    assert all[..|done|] == done && all[|done|] == s;
    forall v
      ensures v in st'.views <==> ViewIn(all, v)
    {
      if v in st.views {
        var i :| 0 <= i < |done| && CreatesView(done[i], v);
        assert CreatesView(all[i], v);
      } else if CreatesView(s, v) {
        assert CreatesView(all[|done|], v);
      }
    }
    forall v | v in st'.revokedViews
      ensures ViewSecuredIn(all, v)
    {
      if v in st.revokedViews {
        var i, j :| 0 <= i < j < |done| && CreatesView(done[i], v) && RevokesRelation(done[j], v);
        assert CreatesView(all[i], v) && RevokesRelation(all[j], v);
      } else {
        var i :| 0 <= i < |done| && CreatesView(done[i], v);
        assert CreatesView(all[i], v) && RevokesRelation(all[|done|], v);
      }
    }
    forall t
      ensures t in st'.triggers <==> TriggerIn(all, t)
    {
      if t in st.triggers {
        var i :| 0 <= i < |done| && CreatesTrigger(done[i], t);
        assert CreatesTrigger(all[i], t);
      } else if CreatesTrigger(s, t) {
        assert CreatesTrigger(all[|done|], t);
      }
    }
    forall f | f in st'.defined
      ensures DefinedIn(all, f)
    {
      if f in st.defined { DefinedGrows(done, s, f); } else { assert Defines(all[|done|], f); }
    }
    forall i | 0 <= i < |all|
      ensures ViewListed(slot, all[i]) && TriggerListed(slot, all[..i], all[i])
    {
      if i < |done| { assert all[i] == done[i] && all[..i] == done[..i]; }
    }
    forall d | d in st'.data
      ensures exists i :: 0 <= i < |all| && all[i].text == d
    {
      if d in st.data {
        var i :| 0 <= i < |done| && done[i].text == d;
        assert all[i].text == d;
      } else {
        assert all[|done|].text == d;
      }
    }
  }

  // ---- Conditional blocks ----

  /** The role, verb and object kind of a conditional privilege block. */
  function BlockOf(s: Statement): Option<Block> {
    if !s.shape.Privilege? || s.shape.guard.None? then None
    else match s.shape.body
      case OnFunctions(verb, _, _, role) => Some(Block(role, verb == GrantExecute, FunctionObject))
      case RevokeAllOnTable(_, from) => Some(Block(from, false, TableObject))
      case InsertSelectGrant => Some(Block(ServiceRole, true, TableObject))
      case _ => None
  }

  predicate IsPolicy(s: Statement) { s.shape.Privilege? && s.shape.body.InsertSelectPolicy? }

  ghost predicate BlocksKnown(st: State, done: seq<Statement>) {
    && (forall i :: 0 <= i < |done| && BlockOf(done[i]).Some? ==> BlockOf(done[i]).value in st.blocks)
    && (forall i, j :: 0 <= i < j < |done| && BlockOf(done[i]).Some? ==> BlockOf(done[j]) != BlockOf(done[i]))
    && (forall i :: 0 <= i < |done| && IsPolicy(done[i]) ==> st.policy)
    && (forall i, j :: 0 <= i < j < |done| && IsPolicy(done[i]) ==> !IsPolicy(done[j]))
  }

  lemma BlockStep(slot: Slot, called: set<string>, st: State, s: Statement)
    requires WellRead(slot, s) && Step(slot, called, st, s).Accepted?
    ensures
      var st' := Step(slot, called, st, s).value;
      && st.blocks <= st'.blocks && (st.policy ==> st'.policy)
      && (BlockOf(s).Some? ==> BlockOf(s).value !in st.blocks && BlockOf(s).value in st'.blocks)
      && (IsPolicy(s) ==> !st.policy && st'.policy)
  {
    var route := RouteOf(slot, called, st, s);
    match route
    case ByTrigger =>
    case ByView =>
    case ByFunction =>
    case ByConstraint => ConstraintFrame(slot, st, s);
    case ByRest => RestFrame(slot, st, s); RelationGrantRefused(slot, called, st, s);
    case ByPrivilege(p) =>
      hide Step, TargetsRefusal, Created;
      assert ReadPrivilege(slot, called, st, s.shape.guard, s.shape.body) == Accepted(p);
  }

  lemma BlocksStayKnown(slot: Slot, called: set<string>, st: State, done: seq<Statement>, s: Statement)
    requires WellRead(slot, s) && BlocksKnown(st, done) && Step(slot, called, st, s).Accepted?
    ensures BlocksKnown(Step(slot, called, st, s).value, done + [s])
  {
    BlockStep(slot, called, st, s);
    hide Step, BlockOf, IsPolicy, WellRead;
  }

  // ---- Existing tables ----

  /** The tables the accepted statements created, in the form that later statements may refer to. */
  function CreatedTables(done: seq<Statement>): set<string>
    decreases |done|
  {
    if done == [] then {}
    else
      var last := done[|done| - 1].shape;
      CreatedTables(done[..|done| - 1]) + (if last.CreateTable? && last.created.Some? then {last.created.value} else {})
  }

  /** An ALTER TABLE on a table the file is not known to have created, other than the listed constraint replacements and the purpose
  check. */
  ghost predicate AltersExisting(slot: Slot, done: seq<Statement>, s: Statement) {
    && AltersOutside(s.shape, CreatedTables(done))
    && s.text != PURPOSE_DROP && !HasPrefix(s.text, PURPOSE_ADD)
    && (s.shape.AlterConstraint? ==>
          Key(s.shape.table, s.shape.constraint) !in CheckKeys(slot.checks) + UniqueKeys(slot.uniques))
  }

  ghost function ExistingTexts(slot: Slot, done: seq<Statement>): seq<string>
    decreases |done|
  {
    if done == [] then []
    else
      var earlier, last := done[..|done| - 1], done[|done| - 1];
      ExistingTexts(slot, earlier) + (if AltersExisting(slot, earlier, last) then [last.text] else [])
  }

  ghost predicate ExistingKnown(slot: Slot, st: State, done: seq<Statement>) {
    && st.tables == CreatedTables(done)
    && st.position <= |slot.existingTableStatements|
    && (slot.existingTableStatements != [] ==> ExistingTexts(slot, done) == slot.existingTableStatements[..st.position])
  }

  lemma ExistingStep(slot: Slot, called: set<string>, st: State, done: seq<Statement>, s: Statement)
    requires WellRead(slot, s) && st.tables == CreatedTables(done)
    requires st.position <= |slot.existingTableStatements| && Step(slot, called, st, s).Accepted?
    ensures
      var st' := Step(slot, called, st, s).value;
      && st'.tables == st.tables + (if s.shape.CreateTable? && s.shape.created.Some? then {s.shape.created.value} else {})
      && st'.position <= |slot.existingTableStatements|
      && (slot.existingTableStatements != [] ==>
            if AltersExisting(slot, done, s) then
              st.position < |slot.existingTableStatements| && st'.position == st.position + 1
              && s.text == slot.existingTableStatements[st.position]
            else st'.position == st.position)
  {
    var route := RouteOf(slot, called, st, s);
    match route
    case ByTrigger =>
    case ByView =>
    case ByFunction =>
    case ByConstraint => ConstraintFrame(slot, st, s); ListedConstraint(slot, st, s);
    case ByRest => ExistingRest(slot, st, done, s);
    case ByPrivilege(p) => PrivilegeFrame(slot, st, p);
  }

  lemma ListedConstraint(slot: Slot, st: State, s: Statement)
    requires StepConstraint(slot, st, s).Some?
    ensures s.shape.AlterConstraint?
    ensures Key(s.shape.table, s.shape.constraint) in CheckKeys(slot.checks) + UniqueKeys(slot.uniques)
  {
    var key := Key(s.shape.table, s.shape.constraint);
    if FindCheck(slot.checks, key).Some? { assert FindCheck(slot.checks, key).value in slot.checks; }
    if FindUnique(slot.uniques, key).Some? { assert FindUnique(slot.uniques, key).value in slot.uniques; }
  }

  lemma ExistingRest(slot: Slot, st: State, done: seq<Statement>, s: Statement)
    requires WellRead(slot, s) && st.tables == CreatedTables(done) && StepRest(slot, st, s).Accepted?
    requires st.position <= |slot.existingTableStatements| && StepConstraint(slot, st, s).None?
    ensures
      var st' := StepRest(slot, st, s).value;
      && st'.tables == st.tables + (if s.shape.CreateTable? && s.shape.created.Some? then {s.shape.created.value} else {})
      && st'.position <= |slot.existingTableStatements|
      && (slot.existingTableStatements != [] ==>
            if AltersExisting(slot, done, s) then
              st.position < |slot.existingTableStatements| && st'.position == st.position + 1
              && s.text == slot.existingTableStatements[st.position]
            else st'.position == st.position)
  {
    if DropsConstraint(s) {
      hide StepConstraint;
    } else if s.shape.AlterConstraint? {
      UnlistedAdd(slot, st, s);
      hide StepConstraint;
    }
  }

  lemma UnlistedAdd(slot: Slot, st: State, s: Statement)
    requires s.shape.AlterConstraint? && s.shape.verb == Add && StepConstraint(slot, st, s).None?
    ensures Key(s.shape.table, s.shape.constraint) !in CheckKeys(slot.checks) + UniqueKeys(slot.uniques)
  {
    var key := Key(s.shape.table, s.shape.constraint);
    assert FindCheck(slot.checks, key).None? && FindUnique(slot.uniques, key).None?;
  }

  lemma ExistingStaysKnown(slot: Slot, called: set<string>, st: State, done: seq<Statement>, s: Statement)
    requires WellRead(slot, s) && ExistingKnown(slot, st, done) && Step(slot, called, st, s).Accepted?
    ensures ExistingKnown(slot, Step(slot, called, st, s).value, done + [s])
  {
    ExistingStep(slot, called, st, done, s);
    hide Step, WellRead, AltersExisting;
    var all := done + [s];
    assert all[..|all| - 1] == done && all[|all| - 1] == s;
    var texts := slot.existingTableStatements;
    if st.position < |texts| { assert texts[..st.position + 1] == texts[..st.position] + [texts[st.position]]; }
  }

  // ---- Whole files ----

  ghost predicate Known(slot: Slot, st: State, done: seq<Statement>) {
    && FunctionsKnown(slot, st, done)
    && ConstraintsKnown(slot, st, done)
    && InventoryKnown(slot, st, done)
    && BlocksKnown(st, done)
    && ExistingKnown(slot, st, done)
  }

  lemma KnownAtStart(slot: Slot)
    ensures Known(slot, START, [])
  {
  }

  lemma {:induction false} RunKnown(slot: Slot, called: set<string>, st: State, done: seq<Statement>, rest: seq<Statement>)
    requires ValidSlot(slot) && AllWellRead(slot, rest) && Known(slot, st, done)
    requires Run(slot, called, st, rest).Accepted?
    ensures Known(slot, Run(slot, called, st, rest).value, done + rest)
    decreases |rest|
  {
    hide *;
    RunUnfolds(slot, called, st, rest);
    if rest == [] {
      assert done + rest == done;
    } else {
      FirstWellRead(slot, rest);
      KnownStep(slot, called, st, done, rest[0]);
      assert done + rest == (done + [rest[0]]) + rest[1..];
      RunKnown(slot, called, Step(slot, called, st, rest[0]).value, done + [rest[0]], rest[1..]);
    }
  }

  lemma RunUnfolds(slot: Slot, called: set<string>, st: State, rest: seq<Statement>)
    requires Run(slot, called, st, rest).Accepted?
    ensures rest == [] ==> Run(slot, called, st, rest) == Accepted(st)
    ensures rest != [] ==>
      var next := Step(slot, called, st, rest[0]);
      next.Accepted? && Run(slot, called, st, rest) == Run(slot, called, next.value, rest[1..])
  {
    hide Step;
  }

  lemma FirstWellRead(slot: Slot, rest: seq<Statement>)
    requires rest != [] && AllWellRead(slot, rest)
    ensures WellRead(slot, rest[0]) && AllWellRead(slot, rest[1..])
  {
    hide WellRead;
  }

  lemma KnownStep(slot: Slot, called: set<string>, st: State, done: seq<Statement>, s: Statement)
    requires ValidSlot(slot) && WellRead(slot, s) && Known(slot, st, done) && Step(slot, called, st, s).Accepted?
    ensures Known(slot, Step(slot, called, st, s).value, done + [s])
  {
    hide Step, WellRead, ValidSlot, FunctionsKnown, ConstraintsKnown, InventoryKnown, BlocksKnown, ExistingKnown;
    FunctionsStayKnown(slot, called, st, done, s);
    ConstraintsStayKnown(slot, called, st, done, s);
    InventoryStaysKnown(slot, called, st, done, s);
    BlocksStayKnown(slot, called, st, done, s);
    ExistingStaysKnown(slot, called, st, done, s);
  }

  lemma AcceptedKnown(slot: Slot, statements: seq<Statement>)
    requires ValidSlot(slot) && AllWellRead(slot, statements) && Admit(slot, statements).Accepted?
    ensures
      var st := Admit(slot, statements).value;
      Known(slot, st, statements) && Finish(slot, st) == Accepted(st)
  {
    AdmitRuns(slot, statements);
    hide *;
    KnownAtStart(slot);
    RunKnown(slot, TriggerFunctions(statements), START, [], statements);
    assert [] + statements == statements;
  }

  lemma AdmitRuns(slot: Slot, statements: seq<Statement>)
    requires Admit(slot, statements).Accepted?
    ensures
      var end := Run(slot, TriggerFunctions(statements), START, statements);
      end.Accepted? && Finish(slot, end.value) == Admit(slot, statements) == Accepted(end.value)
  {
    hide Run, Definitions, TriggerFunctions;
  }

  lemma {:induction false} CardinalityAtMost<T>(items: seq<T>)
    ensures |ToSet(items)| <= |items|
    decreases |items|
  {
    if items != [] {
      CardinalityAtMost(items[1..]);
      assert ToSet(items) == {items[0]} + ToSet(items[1..]);
    }
  }

  lemma SubsetFills<T>(part: set<T>, items: seq<T>)
    requires part <= ToSet(items) && |part| == |items|
    ensures part == ToSet(items)
  {
    CardinalityAtMost(items);
    if part != ToSet(items) {
      assert ToSet(items) <= part ==> part == ToSet(items);
      var x :| x in ToSet(items) && x !in part;
      SubsetSmaller(part, ToSet(items), x);
    }
  }

  lemma SubsetSmaller<T>(part: set<T>, whole: set<T>, x: T)
    requires part <= whole && x in whole - part
    ensures |part| < |whole|
  {
    var rest := whole - {x};
    assert part <= rest;
    SubsetAtMost(part, rest);
  }

  lemma {:induction false} SubsetAtMost<T>(part: set<T>, whole: set<T>)
    requires part <= whole
    ensures |part| <= |whole|
    decreases |part|
  {
    if part != {} {
      var x :| x in part;
      SubsetAtMost(part - {x}, whole - {x});
    }
  }

  /** In every accepted file: before any grant of, or conditional block on, a created function, every created function
  has been defined and then had ALL revoked from PUBLIC; nothing is granted to PUBLIC or anon; and in the end every
  created function and every listed view has been created and revoked from PUBLIC. */
  lemma PrivilegesInOrder(slot: Slot, statements: seq<Statement>)
    requires ValidSlot(slot) && AllWellRead(slot, statements) && Admit(slot, statements).Accepted?
    ensures FunctionsInOrder(slot, statements)
    ensures forall i :: 0 <= i < |statements| ==> GrantsClosed(statements[i])
    ensures forall f :: f in Created(slot) ==> SecuredIn(statements, f)
    ensures forall e :: e in slot.views ==> ViewSecuredIn(statements, e.name)
  {
    AcceptedKnown(slot, statements);
    var st := Admit(slot, statements).value;
    hide Admit, ConstraintsKnown, BlocksKnown, ExistingKnown, GrantsClosed, FunctionsInOrder, SecuredIn, ViewSecuredIn;
    ViewsComplete(slot, st, statements);
  }

  lemma ViewsComplete(slot: Slot, st: State, done: seq<Statement>)
    requires InventoryKnown(slot, st, done) && |st.views| == |slot.views|
    ensures forall e :: e in slot.views ==> e.name in st.views
  {
    var names := seq(|slot.views|, i requires 0 <= i < |slot.views| => slot.views[i].name);
    forall v | v in st.views
      ensures v in names
    {
      var i :| 0 <= i < |done| && CreatesView(done[i], v);
      assert ViewListed(slot, done[i]);
      var k :| 0 <= k < |slot.views| && slot.views[k].name == v;
      assert names[k] == v;
    }
    SubsetFills(st.views, names);
    forall e | e in slot.views
      ensures e.name in st.views
    {
      var k :| 0 <= k < |slot.views| && slot.views[k] == e;
      assert names[k] == e.name;
    }
  }

  lemma TriggersComplete(slot: Slot, st: State, done: seq<Statement>)
    requires InventoryKnown(slot, st, done) && |st.triggers| == |slot.triggers|
    ensures forall e :: e in slot.triggers ==> e.name in st.triggers
  {
    var names := seq(|slot.triggers|, i requires 0 <= i < |slot.triggers| => slot.triggers[i].name);
    forall t | t in st.triggers
      ensures t in names
    {
      var i :| 0 <= i < |done| && CreatesTrigger(done[i], t);
      assert TriggerListed(slot, done[..i], done[i]);
      var k :| 0 <= k < |slot.triggers| && slot.triggers[k].name == t;
      assert names[k] == t;
    }
    SubsetFills(st.triggers, names);
    forall e | e in slot.triggers
      ensures e.name in st.triggers
    {
      var k :| 0 <= k < |slot.triggers| && slot.triggers[k] == e;
      assert names[k] == e.name;
    }
  }

  lemma ConstraintsComplete(slot: Slot, st: State)
    requires st.checks <= CheckKeys(slot.checks) && |st.checks| == |slot.checks|
    requires st.uniques <= UniqueKeys(slot.uniques) && |st.uniques| == |slot.uniques|
    ensures forall e :: e in slot.checks ==> KeyOfCheck(e) in st.checks
    ensures forall e :: e in slot.uniques ==> KeyOfUnique(e) in st.uniques
  {
    var checks := seq(|slot.checks|, i requires 0 <= i < |slot.checks| => KeyOfCheck(slot.checks[i]));
    var uniques := seq(|slot.uniques|, i requires 0 <= i < |slot.uniques| => KeyOfUnique(slot.uniques[i]));
    forall e | e in slot.checks
      ensures KeyOfCheck(e) in checks
    {
      var k :| 0 <= k < |slot.checks| && slot.checks[k] == e;
      assert checks[k] == KeyOfCheck(e);
    }
    forall e | e in slot.uniques
      ensures KeyOfUnique(e) in uniques
    {
      var k :| 0 <= k < |slot.uniques| && slot.uniques[k] == e;
      assert uniques[k] == KeyOfUnique(e);
    }
    SubsetFills(st.checks, checks);
    SubsetFills(st.uniques, uniques);
  }

  /** Exactly one statement creates the listed view, with its pinned digest. */
  ghost predicate ViewOnce(statements: seq<Statement>, e: ViewEntry) {
    exists i :: && 0 <= i < |statements| && CreatesView(statements[i], e.name) && statements[i].digest == e.digest
                && forall j :: 0 <= j < |statements| && CreatesView(statements[j], e.name) ==> j == i
  }

  /** Exactly one statement creates the listed trigger, with its pinned digest, calling a function created before it. */
  ghost predicate TriggerOnce(slot: Slot, statements: seq<Statement>, e: TriggerEntry) {
    exists i :: && 0 <= i < |statements| && CreatesTrigger(statements[i], e.name) && statements[i].digest == e.digest
                && statements[i].shape.trigger.value.signature in Created(slot)
                && DefinedIn(statements[..i], statements[i].shape.trigger.value.signature)
                && forall j :: 0 <= j < |statements| && CreatesTrigger(statements[j], e.name) ==> j == i
  }

  lemma ViewIsOnce(slot: Slot, st: State, done: seq<Statement>, e: ViewEntry)
    requires ValidSlot(slot) && InventoryKnown(slot, st, done) && e in slot.views && e.name in st.views
    ensures ViewOnce(done, e)
  {
    var i :| 0 <= i < |done| && CreatesView(done[i], e.name);
    assert ViewListed(slot, done[i]);
    hide Defines;
    forall j | 0 <= j < |done| && CreatesView(done[j], e.name)
      ensures j == i
    {
    }
  }

  lemma TriggerIsOnce(slot: Slot, st: State, done: seq<Statement>, e: TriggerEntry)
    requires ValidSlot(slot) && InventoryKnown(slot, st, done) && e in slot.triggers && e.name in st.triggers
    ensures TriggerOnce(slot, done, e)
  {
    var i :| 0 <= i < |done| && CreatesTrigger(done[i], e.name);
    assert TriggerListed(slot, done[..i], done[i]);
    forall j | 0 <= j < |done| && CreatesTrigger(done[j], e.name)
      ensures j == i
    {
    }
  }

  /** In every accepted file each listed constraint, view and trigger is handled by exactly one replacement or
  statement, a nonempty list of existing-table statements is exactly the file's alterations of tables it did not
  create, in order, and no role, verb and object kind has two conditional blocks. */
  lemma InventoryExactlyOnce(slot: Slot, statements: seq<Statement>)
    requires ValidSlot(slot) && AllWellRead(slot, statements) && Admit(slot, statements).Accepted?
    ensures forall e :: e in slot.checks ==> ReplacedOnce(statements, KeyOfCheck(e), CheckIn(e.column, e.values))
    ensures forall e :: e in slot.uniques ==> ReplacedOnce(statements, KeyOfUnique(e), UniqueKey(e.columns, e.nullsNotDistinct))
    ensures forall e :: e in slot.views ==> ViewOnce(statements, e)
    ensures forall e :: e in slot.triggers ==> TriggerOnce(slot, statements, e)
    ensures slot.existingTableStatements != [] ==> ExistingTexts(slot, statements) == slot.existingTableStatements
    ensures forall i, j :: 0 <= i < j < |statements| && BlockOf(statements[i]).Some? ==> BlockOf(statements[j]) != BlockOf(statements[i])
    ensures forall i, j :: 0 <= i < j < |statements| && IsPolicy(statements[i]) ==> !IsPolicy(statements[j])
    ensures forall d :: d in slot.dataStatements ==> exists i :: 0 <= i < |statements| && statements[i].text == d
  {
    AcceptedKnown(slot, statements);
    var st := Admit(slot, statements).value;
    FinishMeans(slot, st);
    hide *;
    OpenKnown(slot, st, statements);
    ReplacementsOnce(slot, st, statements);
    RelationsOnce(slot, st, statements);
    DataAndBlocks(slot, st, statements);
  }

  lemma OpenKnown(slot: Slot, st: State, done: seq<Statement>)
    requires Known(slot, st, done)
    ensures ConstraintsKnown(slot, st, done) && InventoryKnown(slot, st, done) && BlocksKnown(st, done) && ExistingKnown(slot, st, done)
  {
    hide ConstraintsKnown, InventoryKnown, BlocksKnown, ExistingKnown;
  }

  lemma FinishMeans(slot: Slot, st: State)
    requires Finish(slot, st).Accepted?
    ensures |st.checks| == |slot.checks| && |st.uniques| == |slot.uniques| && st.pending.None?
    ensures |st.triggers| == |slot.triggers| && |st.views| == |slot.views| && |st.data| == |slot.dataStatements|
    ensures st.position == |slot.existingTableStatements|
  {
  }

  lemma ReplacementsOnce(slot: Slot, st: State, done: seq<Statement>)
    requires ConstraintsKnown(slot, st, done) && |st.checks| == |slot.checks| && |st.uniques| == |slot.uniques|
    ensures forall e :: e in slot.checks ==> ReplacedOnce(done, KeyOfCheck(e), CheckIn(e.column, e.values))
    ensures forall e :: e in slot.uniques ==> ReplacedOnce(done, KeyOfUnique(e), UniqueKey(e.columns, e.nullsNotDistinct))
  {
    ConstraintsComplete(slot, st);
    hide ReplacedOnce;
    forall e | e in slot.checks
      ensures ReplacedOnce(done, KeyOfCheck(e), CheckIn(e.column, e.values))
    {
      assert Lists(slot, CheckKind, KeyOfCheck(e), CheckIn(e.column, e.values));
    }
    forall e | e in slot.uniques
      ensures ReplacedOnce(done, KeyOfUnique(e), UniqueKey(e.columns, e.nullsNotDistinct))
    {
      assert Lists(slot, UniqueKind, KeyOfUnique(e), UniqueKey(e.columns, e.nullsNotDistinct));
    }
  }

  lemma RelationsOnce(slot: Slot, st: State, done: seq<Statement>)
    requires ValidSlot(slot) && InventoryKnown(slot, st, done)
    requires |st.triggers| == |slot.triggers| && |st.views| == |slot.views|
    ensures forall e :: e in slot.views ==> ViewOnce(done, e)
    ensures forall e :: e in slot.triggers ==> TriggerOnce(slot, done, e)
  {
    ViewsComplete(slot, st, done);
    TriggersComplete(slot, st, done);
    hide InventoryKnown, ValidSlot, ViewOnce, TriggerOnce;
    forall e | e in slot.views
      ensures ViewOnce(done, e)
    {
      ViewIsOnce(slot, st, done, e);
    }
    forall e | e in slot.triggers
      ensures TriggerOnce(slot, done, e)
    {
      TriggerIsOnce(slot, st, done, e);
    }
  }

  lemma DataAndBlocks(slot: Slot, st: State, done: seq<Statement>)
    requires InventoryKnown(slot, st, done) && BlocksKnown(st, done) && ExistingKnown(slot, st, done)
    requires |st.data| == |slot.dataStatements| && st.position == |slot.existingTableStatements|
    ensures slot.existingTableStatements != [] ==> ExistingTexts(slot, done) == slot.existingTableStatements
    ensures forall i, j :: 0 <= i < j < |done| && BlockOf(done[i]).Some? ==> BlockOf(done[j]) != BlockOf(done[i])
    ensures forall i, j :: 0 <= i < j < |done| && IsPolicy(done[i]) ==> !IsPolicy(done[j])
    ensures forall d :: d in slot.dataStatements ==> exists i :: 0 <= i < |done| && done[i].text == d
  {
    hide BlockOf, IsPolicy, ExistingTexts;
    SubsetFills(st.data, slot.dataStatements);
    forall d | d in slot.dataStatements
      ensures exists i :: 0 <= i < |done| && done[i].text == d
    {
      assert d in ToSet(slot.dataStatements);
    }
    assert slot.existingTableStatements[..|slot.existingTableStatements|] == slot.existingTableStatements;
  }

  // ---- Definitions ----

  /** Exactly one statement defines the listed function, with its pinned digest. */
  ghost predicate DefinedOnce(statements: seq<Statement>, e: FunctionEntry) {
    exists i :: && 0 <= i < |statements| && Defines(statements[i], e.signature) && statements[i].digest == e.digest
                && forall j :: 0 <= j < |statements| && Defines(statements[j], e.signature) ==> j == i
  }

  ghost predicate DefinitionsKnown(statements: seq<Statement>, m: map<string, string>) {
    && (forall f :: f in m <==> DefinedIn(statements, f))
    && (forall i :: 0 <= i < |statements| && statements[i].shape.CreateFunction? ==>
          statements[i].shape.signature in m && m[statements[i].shape.signature] == statements[i].digest)
    && (forall i, j, f :: 0 <= i < j < |statements| && Defines(statements[i], f) ==> !Defines(statements[j], f))
  }

  lemma {:induction false} DefinitionsMeans(slot: Slot, statements: seq<Statement>)
    requires Definitions(slot, statements).Accepted?
    ensures DefinitionsKnown(statements, Definitions(slot, statements).value)
    ensures forall i :: 0 <= i < |statements| && statements[i].shape.CreateFunction? ==>
      exists e :: e in slot.functions && e.signature == statements[i].shape.signature
    decreases |statements|
  {
    if statements != [] {
      var n := |statements| - 1;
      var earlier, last := statements[..n], statements[n];
      DefinitionsMeans(slot, earlier);
      assert statements == earlier + [last];
      if last.shape.CreateFunction? { assert FindFunction(slot.functions, last.shape.signature).value in slot.functions; }
      var before, after := Definitions(slot, earlier).value, Definitions(slot, statements).value;
      assert if last.shape.CreateFunction? then last.shape.signature !in before && after == before[last.shape.signature := last.digest]
             else after == before;
      hide Definitions, FindFunction;
      DefinitionsGrow(earlier, last, before, after);
    }
  }

  lemma DefinitionsGrow(earlier: seq<Statement>, last: Statement, before: map<string, string>, after: map<string, string>)
    requires DefinitionsKnown(earlier, before)
    requires if last.shape.CreateFunction? then last.shape.signature !in before && after == before[last.shape.signature := last.digest]
             else after == before
    ensures DefinitionsKnown(earlier + [last], after)
  {
    var all := earlier + [last];
    forall f
      ensures f in after <==> DefinedIn(all, f)
    {
      if DefinedIn(earlier, f) { DefinedGrows(earlier, last, f); }
      if Defines(last, f) { assert Defines(all[|earlier|], f); }
    }
  }

  /** Every accepted file defines each listed function exactly once, as pinned, and defines nothing else. */
  lemma DefinitionsExactlyOnce(slot: Slot, statements: seq<Statement>)
    requires Admit(slot, statements).Accepted?
    ensures forall e :: e in slot.functions ==> DefinedOnce(statements, e)
    ensures forall i :: 0 <= i < |statements| && statements[i].shape.CreateFunction? ==>
      exists e :: e in slot.functions && e.signature == statements[i].shape.signature
  {
    DefinitionsMeans(slot, statements);
    var m := Definitions(slot, statements).value;
    forall e | e in slot.functions
      ensures DefinedOnce(statements, e)
    {
      var i :| 0 <= i < |statements| && Defines(statements[i], e.signature);
      assert statements[i].digest == e.digest;
      forall j | 0 <= j < |statements| && Defines(statements[j], e.signature)
        ensures j == i
      {
      }
    }
  }
}
