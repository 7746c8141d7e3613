/** Admission of one native store file: a machine over its statements and the closed inventory of its slot. */
module NativeStoreAdmission {
  // Every statement comes with the reading the scanners give it (`Shape`); its text, digest and expand-only verdict are
  // data. What the machine decides, and in which order, is modelled in full.

  import opened Basics

  // ---- The slot's closed inventory ----

  datatype Role = Public | Anon | Authenticated | ServiceRole

  datatype CheckEntry = CheckEntry(table: string, constraint: string, column: string, values: seq<string>)
  datatype UniqueEntry = UniqueEntry(table: string, constraint: string, columns: seq<string>, nullsNotDistinct: bool)
  datatype ViewEntry = ViewEntry(name: string, digest: string)
  datatype TriggerEntry = TriggerEntry(name: string, table: string, digest: string)
  datatype FunctionEntry = FunctionEntry(signature: string, replacing: bool, digest: string)
  datatype GrantOnly = GrantOnly(signature: string, grantTo: seq<Role>, revokeFrom: seq<Role>)

  /** `functions` lists the replaced and then the created functions; `digest` is the pinned definition.
  `purpose` holds the values of the one widenable purpose check, once its preimage has been confirmed or not. */
  datatype Slot = Slot(
    functions: seq<FunctionEntry>,
    grantOnly: seq<GrantOnly>,
    dataStatements: seq<string>,
    existingTableStatements: seq<string>,
    insertSelect: bool,
    checks: seq<CheckEntry>,
    uniques: seq<UniqueEntry>,
    views: seq<ViewEntry>,
    triggers: seq<TriggerEntry>,
    purpose: Option<Purpose>)

  datatype Purpose = Purpose(values: seq<string>, preimageMatches: bool)

  // ---- What a statement reads as ----

  datatype Verb = Drop | Add

  /** What follows the constraint's name: nothing, a complete value check, a complete unique key, or anything else. */
  datatype Tail = NoTail | CheckIn(column: string, values: seq<string>) | UniqueKey(columns: seq<string>, nullsNotDistinct: bool) | OtherTail

  datatype PrivilegeVerb = GrantExecute | RevokeAll | RevokeExecute

  datatype Body =
    | InsertSelectGrant
    | InsertSelectPolicy
    | GrantOnRelation(names: Option<seq<string>>)
    | RowSecurity(table: string)
    | RevokeAllOnTable(revoked: seq<string>, from: Role)
    | OnFunctions(verb: PrivilegeVerb, to: bool, signatures: seq<Option<string>>, role: Role)
    | OtherBody

  datatype TriggerReading = TriggerReading(name: string, table: string, signature: string)

  datatype Shape =
    | TriggerMutation
    | CreateTrigger(trigger: Option<TriggerReading>)
    | AlterConstraint(table: string, constraint: string, verb: Verb, tail: Tail)
    | CreateView(name: string)
    | CreateFunction(signature: string, replacing: bool, pinnedHeader: bool, invokerHeader: bool)
    | Privilege(guard: Option<Role>, body: Body)
    | MalformedBlock
    | AlterTable(altered: Option<string>)
    | CreateTable(created: Option<string>)
    | OtherTable
    | CreateIndex
    | DataChange
    | Unread

  /** `widens` is the value list of a statement that has the exact form widening the purpose check. */
  datatype Statement = Statement(text: string, digest: string, shape: Shape, expandOnly: bool, widens: Option<seq<string>>)

  const INSERT_SELECT_TABLE := "public.subscription_notice_refusals"
  const PURPOSE_TABLE := "public.communication_native_sync_state"
  const PURPOSE_CONSTRAINT := "communication_native_sync_state_purpose_check"
  const PURPOSE_DROP := "ALTER TABLE " + PURPOSE_TABLE + " DROP CONSTRAINT " + PURPOSE_CONSTRAINT + ";"
  const PURPOSE_ADD := "ALTER TABLE " + PURPOSE_TABLE + " ADD CONSTRAINT " + PURPOSE_CONSTRAINT + " "

  predicate HasPrefix(text: string, prefix: string) { |prefix| <= |text| && text[..|prefix|] == prefix }

  // ---- The machine ----

  datatype ConstraintKind = CheckKind | UniqueKind

  /** A constraint is named by its table and its own name. */
  datatype Key = Key(table: string, constraint: string)

  datatype PendingAdd = PendingAdd(kind: ConstraintKind, key: Key)

  datatype ObjectKind = FunctionObject | TableObject

  datatype Block = Block(role: Role, grant: bool, kind: ObjectKind)

  datatype State = State(
    pending: Option<PendingAdd>,
    dropped: bool,
    added: bool,
    position: nat,
    policy: bool,
    defined: set<string>,
    revoked: set<string>,
    blocks: set<Block>,
    data: set<string>,
    tables: set<string>,
    triggers: set<string>,
    views: set<string>,
    revokedViews: set<string>,
    checks: set<Key>,
    uniques: set<Key>)

  const START := State(None, false, false, 0, false, {}, {}, {}, {}, {}, {}, {}, {}, {}, {})

  datatype Refusal =
    | NotAdjacent | PurposeNotAdjacent | TriggerMutated | TriggerShape | TriggerUnlisted | TriggerFunction
    | DuplicateCheck | CheckMismatch | DuplicateUnique | UniqueMismatch | ViewUnlisted
    | FunctionClass | FunctionHeader | BlockShape | InsertSelectUnlisted | InsertSelectTable | InsertSelectGuard
    | ViewGrant | TableNotCreated | ConditionalRowSecurity | TableRevokeRole | OtherPrivilege | TriggerGrant
    | PrivilegeShape | SecondPolicy | GrantOnlyCapability | FunctionNotDefined | RevokeFirst | SecondBlock
    | PurposePreimage | PurposeNarrows | ExistingOutOfOrder | OutsideShapes
    | DefinitionUnlisted | DefinitionDuplicate | DefinitionDrift
    | RevokeMissing | PurposeIncomplete | ConstraintIncomplete | TriggerMissing | ViewMissing | ViewRevokeMissing
    | DataMissing | ExistingMissing

  datatype Result<+T> = Accepted(value: T) | Refused(reason: Refusal)

  function FindCheck(entries: seq<CheckEntry>, key: Key): (r: Option<CheckEntry>)
    ensures r.Some? ==> r.value in entries && Key(r.value.table, r.value.constraint) == key
    ensures r.None? ==> forall e :: e in entries ==> Key(e.table, e.constraint) != key
  {
    if entries == [] then None
    else if Key(entries[0].table, entries[0].constraint) == key then Some(entries[0])
    else FindCheck(entries[1..], key)
  }

  function FindUnique(entries: seq<UniqueEntry>, key: Key): (r: Option<UniqueEntry>)
    ensures r.Some? ==> r.value in entries && Key(r.value.table, r.value.constraint) == key
    ensures r.None? ==> forall e :: e in entries ==> Key(e.table, e.constraint) != key
  {
    if entries == [] then None
    else if Key(entries[0].table, entries[0].constraint) == key then Some(entries[0])
    else FindUnique(entries[1..], key)
  }

  function FindView(entries: seq<ViewEntry>, name: string): (r: Option<ViewEntry>)
    ensures r.Some? ==> r.value in entries && r.value.name == name
  {
    if entries == [] then None else if entries[0].name == name then Some(entries[0]) else FindView(entries[1..], name)
  }

  function FindTrigger(entries: seq<TriggerEntry>, name: string, table: string): (r: Option<TriggerEntry>)
    ensures r.Some? ==> r.value in entries && r.value.name == name && r.value.table == table
  {
    if entries == [] then None
    else if entries[0].name == name && entries[0].table == table then Some(entries[0])
    else FindTrigger(entries[1..], name, table)
  }

  function FindFunction(entries: seq<FunctionEntry>, signature: string): (r: Option<FunctionEntry>)
    ensures r.Some? ==> r.value in entries && r.value.signature == signature
    ensures r.None? ==> forall e :: e in entries ==> e.signature != signature
  {
    if entries == [] then None
    else if entries[0].signature == signature then Some(entries[0])
    else FindFunction(entries[1..], signature)
  }

  function FindGrantOnly(entries: seq<GrantOnly>, signature: string): (r: Option<GrantOnly>)
    ensures r.Some? ==> r.value in entries && r.value.signature == signature
    ensures r.None? ==> forall e :: e in entries ==> e.signature != signature
  {
    if entries == [] then None
    else if entries[0].signature == signature then Some(entries[0])
    else FindGrantOnly(entries[1..], signature)
  }

  /** The functions this slot creates rather than replaces. */
  function Created(slot: Slot): set<string> {
    set e | e in slot.functions && !e.replacing :: e.signature
  }

  /** The functions the file's triggers call. */
  function TriggerFunctions(statements: seq<Statement>): set<string> {
    set s | s in statements && s.shape.CreateTrigger? && s.shape.trigger.Some? :: s.shape.trigger.value.signature
  }

  predicate NoDuplicates<T(==)>(items: seq<T>) {
    forall i, j :: 0 <= i < j < |items| ==> items[i] != items[j]
  }

  /** A privilege statement that has passed its own shape rules. */
  datatype Granted =
    | NotPrivilege
    | SecuresRows
    | AddsPolicy
    | On(kind: ObjectKind, targets: seq<string>, role: Role, grant: bool, conditional: bool)

  function Values(signatures: seq<Option<string>>): seq<string> {
    if signatures == [] then []
    else (if signatures[0].Some? then [signatures[0].value] else []) + Values(signatures[1..])
  }

  /** The privilege reader: `guard` is the role a conditional block tests for. */
  function ReadPrivilege(slot: Slot, called: set<string>, st: State, guard: Option<Role>, body: Body): Result<Granted> {
    match body
    case InsertSelectGrant =>
      if !slot.insertSelect then Refused(InsertSelectUnlisted)
      else if INSERT_SELECT_TABLE !in st.tables then Refused(InsertSelectTable)
      else if guard != Some(ServiceRole) then Refused(InsertSelectGuard)
      else Accepted(On(TableObject, [INSERT_SELECT_TABLE], ServiceRole, true, true))
    case InsertSelectPolicy =>
      if !slot.insertSelect then Refused(InsertSelectUnlisted)
      else if INSERT_SELECT_TABLE !in st.tables then Refused(InsertSelectTable)
      else if guard != Some(ServiceRole) then Refused(InsertSelectGuard)
      else Accepted(AddsPolicy)
    case GrantOnRelation(names) =>
      if (if names.Some? then exists n :: n in names.value && n in st.views else st.views != {}) then Refused(ViewGrant)
      else if guard.Some? then Refused(OtherPrivilege)
      else Accepted(NotPrivilege)
    case RowSecurity(table) =>
      if table !in st.tables then Refused(TableNotCreated)
      else if guard.Some? then Refused(ConditionalRowSecurity)
      else Accepted(SecuresRows)
    case RevokeAllOnTable(names, from) =>
      if (exists n :: n in names && n !in st.tables + st.views) || !NoDuplicates(names) then Refused(TableNotCreated)
      else if (if guard.Some? then from != guard.value else from != Public || |names| != 1) then Refused(TableRevokeRole)
      else Accepted(On(TableObject, names, from, false, guard.Some?))
    case OnFunctions(verb, to, signatures, role) =>
      var grant := verb == GrantExecute;
      if grant && exists f :: f in called && Some(f) in signatures then Refused(TriggerGrant)
      else if || None in signatures || !NoDuplicates(signatures)
              || (if grant then !to || role == Public || role == Anon else to)
              || (role == Public && verb != RevokeAll)
              || (guard.Some? && role != guard.value) then Refused(PrivilegeShape)
      else Accepted(On(FunctionObject, Values(signatures), role, grant, guard.Some?))
    case OtherBody => if guard.Some? then Refused(OtherPrivilege) else Accepted(NotPrivilege)
  }

  /** May `target` be named by this function privilege? */
  function TargetRefusal(slot: Slot, st: State, target: string, p: Granted): Option<Refusal>
    requires p.On?
  {
    var entry := FindGrantOnly(slot.grantOnly, target);
    if entry.Some? then
      if !p.conditional || p.role !in (if p.grant then entry.value.grantTo else entry.value.revokeFrom)
      then Some(GrantOnlyCapability) else None
    else if target !in st.defined then Some(FunctionNotDefined)
    else None
  }

  function TargetsRefusal(slot: Slot, st: State, targets: seq<string>, p: Granted): (r: Option<Refusal>)
    requires p.On?
    ensures r.None? ==> forall t :: t in targets ==> TargetRefusal(slot, st, t, p).None?
  {
    if targets == [] then None
    else if TargetRefusal(slot, st, targets[0], p).Some? then TargetRefusal(slot, st, targets[0], p)
    else TargetsRefusal(slot, st, targets[1..], p)
  }

  function ApplyOn(slot: Slot, st: State, p: Granted): Result<State>
    requires p.On?
  {
    var refusal := if p.kind == FunctionObject then TargetsRefusal(slot, st, p.targets, p) else None;
    var created := Created(slot);
    if refusal.Some? then Refused(refusal.value)
    else if && p.kind == FunctionObject && p.role != Public && (p.grant || p.conditional)
            && (exists t :: t in p.targets && t in created) && !(created <= st.revoked) then Refused(RevokeFirst)
    else
      var block := Block(p.role, p.grant, p.kind);
      if p.conditional && block in st.blocks then Refused(SecondBlock)
      else
        var public := p.role == Public;
        Accepted(st.(
          revoked := if public && p.kind == FunctionObject then st.revoked + ToSet(p.targets) else st.revoked,
          revokedViews :=
            if public && p.kind == TableObject then st.revokedViews + (set t | t in p.targets && t in st.views)
            else st.revokedViews,
          blocks := if p.conditional then st.blocks + {block} else st.blocks))
  }

  function ApplyPrivilege(slot: Slot, st: State, p: Granted): Result<State>
    requires !p.NotPrivilege?
  {
    match p
    case AddsPolicy => if st.policy then Refused(SecondPolicy) else Accepted(st.(policy := true))
    case SecuresRows => Accepted(st)
    case On(_, _, _, _, _) => ApplyOn(slot, st, p)
  }

  function StepTrigger(slot: Slot, st: State, s: Statement): Result<State>
    requires s.shape.CreateTrigger?
  {
    if s.shape.trigger.None? then Refused(TriggerShape)
    else
      var t := s.shape.trigger.value;
      var entry := FindTrigger(slot.triggers, t.name, t.table);
      if entry.None? || t.name in st.triggers || s.digest != entry.value.digest then Refused(TriggerUnlisted)
      else if t.signature !in Created(slot) || t.signature !in st.defined then Refused(TriggerFunction)
      else Accepted(st.(triggers := st.triggers + {t.name}))
  }

  /** A constraint action on a listed check; `None` when it is no replacement step. */
  function StepCheck(st: State, entry: CheckEntry, verb: Verb, tail: Tail): Option<Result<State>> {
    var key := Key(entry.table, entry.constraint);
    if verb == Drop && tail == NoTail then
      if st.pending.Some? || key in st.checks then Some(Refused(DuplicateCheck))
      else Some(Accepted(st.(pending := Some(PendingAdd(CheckKind, key)))))
    else if verb == Add then
      if st.pending != Some(PendingAdd(CheckKind, key)) || tail != CheckIn(entry.column, entry.values)
      then Some(Refused(CheckMismatch))
      else Some(Accepted(st.(pending := None, checks := st.checks + {key})))
    else None
  }

  function StepUnique(st: State, entry: UniqueEntry, verb: Verb, tail: Tail): Option<Result<State>> {
    var key := Key(entry.table, entry.constraint);
    if verb == Drop && tail == NoTail then
      if st.pending.Some? || key in st.uniques then Some(Refused(DuplicateUnique))
      else Some(Accepted(st.(pending := Some(PendingAdd(UniqueKind, key)))))
    else if verb == Add then
      if st.pending != Some(PendingAdd(UniqueKind, key)) || tail != UniqueKey(entry.columns, entry.nullsNotDistinct)
      then Some(Refused(UniqueMismatch))
      else Some(Accepted(st.(pending := None, uniques := st.uniques + {key})))
    else None
  }

  /** The replacement of a listed constraint, if the statement is a step of one. */
  function StepConstraint(slot: Slot, st: State, s: Statement): Option<Result<State>> {
    match s.shape
    case AlterConstraint(table, constraint, verb, tail) =>
      var key := Key(table, constraint);
      var check := FindCheck(slot.checks, key);
      var first := if check.Some? then StepCheck(st, check.value, verb, tail) else None;
      if first.Some? then first
      else
        var unique := FindUnique(slot.uniques, key);
        if unique.Some? then StepUnique(st, unique.value, verb, tail) else None
    case _ => None
  }

  function StepView(slot: Slot, st: State, s: Statement): Result<State>
    requires s.shape.CreateView?
  {
    var entry := FindView(slot.views, s.shape.name);
    if entry.None? || s.shape.name in st.views || s.digest != entry.value.digest then Refused(ViewUnlisted)
    else Accepted(st.(views := st.views + {s.shape.name}))
  }

  function StepFunction(slot: Slot, called: set<string>, st: State, s: Statement): Result<State>
    requires s.shape.CreateFunction?
  {
    var entry := FindFunction(slot.functions, s.shape.signature);
    if entry.None? || s.shape.replacing != entry.value.replacing then Refused(FunctionClass)
    else if (s.shape.signature in called && !s.shape.invokerHeader) || !s.shape.pinnedHeader then Refused(FunctionHeader)
    else Accepted(st.(defined := st.defined + {s.shape.signature}))
  }

  predicate AltersTable(shape: Shape) { shape.AlterConstraint? || shape.AlterTable? }

  /** The table an ALTER TABLE names, if it names one with its schema. */
  function AlteredTable(shape: Shape): Option<string> {
    match shape
    case AlterConstraint(table, _, _, _) => Some(table)
    case AlterTable(table) => table
    case _ => None
  }

  /** An ALTER TABLE on none of `tables`, or on a table it does not name with its schema. */
  predicate AltersOutside(shape: Shape, tables: set<string>) {
    AltersTable(shape) && (AlteredTable(shape).None? || AlteredTable(shape).value !in tables)
  }

  /** What is left once the statement is no trigger, listed constraint, view, function or privilege. */
  function StepRest(slot: Slot, st: State, s: Statement): Result<State> {
    if s.text == PURPOSE_DROP then
      if slot.purpose.None? || st.dropped || !slot.purpose.value.preimageMatches then Refused(PurposePreimage)
      else Accepted(st.(dropped := true))
    else if HasPrefix(s.text, PURPOSE_ADD) then
      if || slot.purpose.None? || !st.dropped || st.added || s.widens.None?
         || (exists v :: v in slot.purpose.value.values && v !in s.widens.value) then Refused(PurposeNarrows)
      else Accepted(st.(added := true))
    else if slot.existingTableStatements != [] && AltersOutside(s.shape, st.tables) then
      if st.position >= |slot.existingTableStatements| || s.text != slot.existingTableStatements[st.position]
      then Refused(ExistingOutOfOrder)
      else Accepted(st.(position := st.position + 1))
    else if s.text in slot.dataStatements then Accepted(st.(data := st.data + {s.text}))
    else if (s.shape.CreateIndex? || s.shape.CreateTable? || s.shape.OtherTable? || AltersTable(s.shape)) && s.expandOnly then
      if s.shape.CreateTable? && s.shape.created.Some? then Accepted(st.(tables := st.tables + {s.shape.created.value}))
      else Accepted(st)
    else Refused(OutsideShapes)
  }

  /** One statement. `called` are the functions the file's triggers call. */
  function Step(slot: Slot, called: set<string>, st: State, s: Statement): Result<State> {
    if st.pending.Some?
       && !(s.shape.AlterConstraint? && s.shape.verb == Add && Key(s.shape.table, s.shape.constraint) == st.pending.value.key)
    then Refused(NotAdjacent)
    else if st.dropped && !st.added && !HasPrefix(s.text, PURPOSE_ADD) then Refused(PurposeNotAdjacent)
    else if s.shape.TriggerMutation? then Refused(TriggerMutated)
    else if s.shape.CreateTrigger? then StepTrigger(slot, st, s)
    else
      var replaced := StepConstraint(slot, st, s);
      if replaced.Some? then replaced.value
      else if s.shape.CreateView? then StepView(slot, st, s)
      else if s.shape.CreateFunction? then StepFunction(slot, called, st, s)
      else if s.shape.MalformedBlock? then Refused(BlockShape)
      else if s.shape.Privilege? then
        var p := ReadPrivilege(slot, called, st, s.shape.guard, s.shape.body);
        if p.Refused? then Refused(p.reason)
        else if p.value.NotPrivilege? then StepRest(slot, st, s)
        else ApplyPrivilege(slot, st, p.value)
      else StepRest(slot, st, s)
  }

  function Run(slot: Slot, called: set<string>, st: State, statements: seq<Statement>): Result<State>
    decreases |statements|
  {
    if statements == [] then Accepted(st)
    else
      var next := Step(slot, called, st, statements[0]);
      if next.Refused? then next else Run(slot, called, next.value, statements[1..])
  }

  /** Every listed function is defined, by exactly one statement, with its pinned digest. */
  function Definitions(slot: Slot, statements: seq<Statement>): Result<map<string, string>>
    decreases |statements|
  {
    if statements == [] then Accepted(map[])
    else
      var last := statements[|statements| - 1];
      var earlier := Definitions(slot, statements[..|statements| - 1]);
      if earlier.Refused? || !last.shape.CreateFunction? then earlier
      else if FindFunction(slot.functions, last.shape.signature).None? then Refused(DefinitionUnlisted)
      else if last.shape.signature in earlier.value then Refused(DefinitionDuplicate)
      else Accepted(earlier.value[last.shape.signature := last.digest])
  }

  predicate DefinitionsMatch(slot: Slot, definitions: map<string, string>) {
    && |definitions| == |slot.functions|
    && forall e :: e in slot.functions ==> e.signature in definitions && definitions[e.signature] == e.digest
  }

  function Finish(slot: Slot, st: State): Result<State> {
    if !(Created(slot) <= st.revoked) then Refused(RevokeMissing)
    else if st.dropped != st.added || slot.purpose.Some? != st.added then Refused(PurposeIncomplete)
    else if st.pending.Some? || |st.checks| != |slot.checks| || |st.uniques| != |slot.uniques| then Refused(ConstraintIncomplete)
    else if |st.triggers| != |slot.triggers| then Refused(TriggerMissing)
    else if |st.views| != |slot.views| then Refused(ViewMissing)
    else if !(st.views <= st.revokedViews) then Refused(ViewRevokeMissing)
    else if |st.data| != |slot.dataStatements| then Refused(DataMissing)
    else if st.position != |slot.existingTableStatements| then Refused(ExistingMissing)
    else Accepted(st)
  }

  /** The whole check of one file. */
  function Admit(slot: Slot, statements: seq<Statement>): Result<State> {
    var definitions := Definitions(slot, statements);
    if definitions.Refused? then Refused(definitions.reason)
    else if !DefinitionsMatch(slot, definitions.value) then Refused(DefinitionDrift)
    else if exists s :: s in statements && s.shape == CreateTrigger(None) then Refused(TriggerShape)
    else
      var end := Run(slot, TriggerFunctions(statements), START, statements);
      if end.Refused? then end else Finish(slot, end.value)
  }

  /** The loop over the file's function definitions. */
  method CollectDefinitions(slot: Slot, statements: seq<Statement>) returns (result: Result<map<string, string>>)
    ensures result == Definitions(slot, statements)
  {
    hide *;
    NoDefinitions(slot, statements);
    var definitions: map<string, string> := map[];
    for i := 0 to |statements|
      invariant Definitions(slot, statements[..i]) == Accepted(definitions)
    {
      var s := statements[i];
      PrefixDefinitions(slot, statements, i);
      if s.shape.CreateFunction? {
        if FindFunction(slot.functions, s.shape.signature).None? {
          RefusedDefinitions(slot, statements, i + 1);
          return Refused(DefinitionUnlisted);
        }
        if s.shape.signature in definitions {
          RefusedDefinitions(slot, statements, i + 1);
          return Refused(DefinitionDuplicate);
        }
        definitions := definitions[s.shape.signature := s.digest];
      }
    }
    result := Accepted(definitions);
  }

  lemma NoDefinitions(slot: Slot, statements: seq<Statement>)
    ensures Definitions(slot, statements[..0]) == Accepted(map[]) && statements[..|statements|] == statements
  {
  }

  /** The loop over the file's triggers, which all must have their shape. */
  method CollectTriggers(statements: seq<Statement>) returns (called: Option<set<string>>)
    ensures called.None? <==> exists s :: s in statements && s.shape == CreateTrigger(None)
    ensures called.Some? ==> called.value == TriggerFunctions(statements)
  {
    var found: set<string> := {};
    for i := 0 to |statements|
      invariant found == TriggerFunctions(statements[..i])
      invariant forall j :: 0 <= j < i ==> statements[j].shape != CreateTrigger(None)
    {
      assert statements[..i + 1] == statements[..i] + [statements[i]];
      match statements[i].shape {
        case CreateTrigger(trigger) =>
          if trigger.None? {
            assert statements[i] in statements;
            return None;
          }
          found := found + {trigger.value.signature};
        case _ =>
      }
    }
    assert statements[..|statements|] == statements;
    called := Some(found);
  }

  /** The loop of the machine. */
  method RunStatements(slot: Slot, called: set<string>, statements: seq<Statement>) returns (result: Result<State>)
    ensures result == Run(slot, called, START, statements)
  {
    hide Step;
    var state := START;
    for i := 0 to |statements|
      invariant Run(slot, called, state, statements[i..]) == Run(slot, called, START, statements)
    {
      assert statements[i..][1..] == statements[i + 1..];
      var next := Step(slot, called, state, statements[i]);
      if next.Refused? { return next; }
      state := next.value;
    }
    result := Accepted(state);
  }

  /** The loops of the check: the definitions, the triggers, and then the machine. */
  method AssertNativeStoreForward(slot: Slot, statements: seq<Statement>) returns (result: Result<State>)
    ensures result == Admit(slot, statements)
  {
    hide Definitions, DefinitionsMatch, TriggerFunctions, Run, Finish;
    var definitions := CollectDefinitions(slot, statements);
    if definitions.Refused? { return Refused(definitions.reason); }
    if !DefinitionsMatch(slot, definitions.value) { return Refused(DefinitionDrift); }
    var called := CollectTriggers(statements);
    if called.None? { return Refused(TriggerShape); }
    var end := RunStatements(slot, called.value, statements);
    if end.Refused? { return end; }
    result := Finish(slot, end.value);
  }

  lemma PrefixDefinitions(slot: Slot, statements: seq<Statement>, i: nat)
    requires i < |statements| && Definitions(slot, statements[..i]).Accepted?
    ensures
      var s, earlier := statements[i], Definitions(slot, statements[..i]).value;
      Definitions(slot, statements[..i + 1])
        == if !s.shape.CreateFunction? then Accepted(earlier)
           else if FindFunction(slot.functions, s.shape.signature).None? then Refused(DefinitionUnlisted)
           else if s.shape.signature in earlier then Refused(DefinitionDuplicate)
           else Accepted(earlier[s.shape.signature := s.digest])
  {
    assert statements[..i + 1][..i] == statements[..i];
  }

  lemma {:induction false} RefusedDefinitions(slot: Slot, statements: seq<Statement>, i: nat)
    requires i <= |statements| && Definitions(slot, statements[..i]).Refused?
    ensures Definitions(slot, statements) == Definitions(slot, statements[..i])
    decreases |statements|
  {
    if i < |statements| {
      var shorter := statements[..|statements| - 1];
      assert shorter[..i] == statements[..i];
      RefusedDefinitions(slot, shorter, i);
    } else {
      assert statements[..i] == statements;
    }
  }
}
