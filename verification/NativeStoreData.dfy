/** Listed data statements: when each occurs once, and where one may be added to an accepted file. */
module NativeStoreData {
  import opened Basics
  import opened NativeStoreAdmission
  import opened NativeStoreLaws
  import opened NativeStorePurpose

  // ---- Exactly once ----

  /** The positions of the file's listed data statements. */
  function DataAt(slot: Slot, statements: seq<Statement>): set<nat> {
    set i: nat | i < |statements| && statements[i].text in slot.dataStatements
  }

  ghost predicate OccursOnce(statements: seq<Statement>, d: string) {
    exists i :: 0 <= i < |statements| && statements[i].text == d
      && forall j :: 0 <= j < |statements| && statements[j].text == d ==> j == i
  }

  /** The texts at some positions of a file. */
  function TextsAt(statements: seq<Statement>, positions: set<nat>): set<string> {
    set i | i in positions && i < |statements| :: statements[i].text
  }

  /** No two positions have the same text. */
  ghost predicate Apart(statements: seq<Statement>, positions: set<nat>) {
    forall i, j :: i in positions && j in positions && i < |statements| && j < |statements| && statements[i].text == statements[j].text ==> i == j
  }

  /** There are as many texts as positions exactly if the texts are apart. */
  lemma {:induction false} TextsCounted(statements: seq<Statement>, positions: set<nat>)
    requires forall i :: i in positions ==> i < |statements|
    ensures |TextsAt(statements, positions)| <= |positions|
    ensures |TextsAt(statements, positions)| == |positions| <==> Apart(statements, positions)
    decreases |positions|
  {
    if positions != {} {
      var i :| i in positions;
      var rest := positions - {i};
      TextsCounted(statements, rest);
      var others := TextsAt(statements, rest);
      assert positions == rest + {i};
      assert TextsAt(statements, positions) == others + {statements[i].text};
      if statements[i].text in others {
        var j :| j in rest && statements[j].text == statements[i].text;
        assert !Apart(statements, positions);
      } else {
        assert Apart(statements, positions) <==> Apart(statements, rest);
      }
    }
  }

  lemma {:induction false} DistinctCounted(items: seq<string>)
    requires NoDuplicates(items)
    ensures |ToSet(items)| == |items|
    decreases |items|
  {
    if items != [] {
      var rest := items[1..];
      assert forall i, j :: 0 <= i < j < |rest| ==> rest[i] == items[i + 1] && rest[j] == items[j + 1];
      DistinctCounted(rest);
      assert ToSet(items) == {items[0]} + ToSet(rest);
    }
  }

  lemma DataListed(slot: Slot, statements: seq<Statement>)
    requires ValidSlot(slot) && AllWellRead(slot, statements) && Admit(slot, statements).Accepted?
    ensures TextsAt(statements, DataAt(slot, statements)) == ToSet(slot.dataStatements)
    ensures |ToSet(slot.dataStatements)| == |slot.dataStatements|
  {
    InventoryExactlyOnce(slot, statements);
    DistinctCounted(slot.dataStatements);
    hide Admit, AllWellRead, ReplacedOnce, ViewOnce, TriggerOnce, BlockOf, IsPolicy, ExistingTexts;
    forall d | d in slot.dataStatements
      ensures d in TextsAt(statements, DataAt(slot, statements))
    {
      var i :| 0 <= i < |statements| && statements[i].text == d;
      assert i in DataAt(slot, statements);
    }
  }

  /** In an accepted file every listed data statement occurs exactly once if and only if the file has as many listed data
  statements as the slot lists. */
  lemma DataExactlyOnce(slot: Slot, statements: seq<Statement>)
    requires ValidSlot(slot) && AllWellRead(slot, statements) && Admit(slot, statements).Accepted?
    ensures (forall d :: d in slot.dataStatements ==> OccursOnce(statements, d)) <==>
      |DataAt(slot, statements)| == |slot.dataStatements|
  {
    DataListed(slot, statements);
    var positions := DataAt(slot, statements);
    TextsCounted(statements, positions);
    hide Admit, AllWellRead, ValidSlot;
    if Apart(statements, positions) {
      forall d | d in slot.dataStatements
        ensures OccursOnce(statements, d)
      {
        assert d in TextsAt(statements, positions);
        var i :| i in positions && statements[i].text == d;
        assert forall j: nat :: j < |statements| && statements[j].text == d ==> j in positions;
      }
    }
    if forall d :: d in slot.dataStatements ==> OccursOnce(statements, d) {
      forall i, j | i in positions && j in positions && i < |statements| && j < |statements| && statements[i].text == statements[j].text
        ensures i == j
      {
        assert OccursOnce(statements, statements[i].text);
      }
    }
  }

  // ---- One more ----

  /** The states differ at most in the data statements seen. */
  function WithData(st: State, data: set<string>): State { st.(data := data) }

  function MoreData(r: Result<State>, more: set<string>): Result<State> {
    if r.Accepted? then Accepted(r.value.(data := r.value.data + more)) else r
  }

  /** No decision reads the data statements seen. */
  lemma StepWithData(slot: Slot, called: set<string>, st: State, s: Statement, more: set<string>)
    ensures Step(slot, called, WithData(st, st.data + more), s) == MoreData(Step(slot, called, st, s), more)
  {
    hide StepRest, StepConstraint, ReadPrivilege, ApplyPrivilege, FindTrigger, FindView, FindFunction, Created, HasPrefix;
    RestWithData(slot, st, s, more);
    ConstraintWithData(slot, st, s, more);
    if s.shape.Privilege? { PrivilegeWithData(slot, called, st, s.shape.guard, s.shape.body, more); }
  }

  lemma RestWithData(slot: Slot, st: State, s: Statement, more: set<string>)
    ensures StepRest(slot, WithData(st, st.data + more), s) == MoreData(StepRest(slot, st, s), more)
  {
    hide HasPrefix, AltersOutside;
    assert (st.data + more) + {s.text} == (st.data + {s.text}) + more;
  }

  lemma ConstraintWithData(slot: Slot, st: State, s: Statement, more: set<string>)
    ensures StepConstraint(slot, WithData(st, st.data + more), s) ==
      if StepConstraint(slot, st, s).Some? then Some(MoreData(StepConstraint(slot, st, s).value, more)) else None
  {
    hide FindCheck, FindUnique;
  }

  lemma {:induction false} TargetsWithData(slot: Slot, st: State, targets: seq<string>, p: Granted, data: set<string>)
    requires p.On?
    ensures TargetsRefusal(slot, WithData(st, data), targets, p) == TargetsRefusal(slot, st, targets, p)
    decreases |targets|
  {
    hide FindGrantOnly;
    if targets != [] { TargetsWithData(slot, st, targets[1..], p, data); }
  }

  lemma PrivilegeWithData(slot: Slot, called: set<string>, st: State, guard: Option<Role>, body: Body, more: set<string>)
    ensures
      var p := ReadPrivilege(slot, called, st, guard, body);
      && ReadPrivilege(slot, called, WithData(st, st.data + more), guard, body) == p
      && (p.Accepted? && !p.value.NotPrivilege? ==>
            ApplyPrivilege(slot, WithData(st, st.data + more), p.value) == MoreData(ApplyPrivilege(slot, st, p.value), more))
  {
    var p := ReadPrivilege(slot, called, st, guard, body);
    assert ReadPrivilege(slot, called, WithData(st, st.data + more), guard, body) == p;
    hide ReadPrivilege;
    if p.Accepted? && p.value.On? {
      TargetsWithData(slot, st, p.value.targets, p.value, st.data + more);
      hide TargetsRefusal, Created;
    }
  }

  lemma {:induction false} RunWithData(slot: Slot, called: set<string>, st: State, rest: seq<Statement>, more: set<string>)
    ensures Run(slot, called, WithData(st, st.data + more), rest) == MoreData(Run(slot, called, st, rest), more)
    decreases |rest|
  {
    if rest != [] {
      StepWithData(slot, called, st, rest[0], more);
      hide Step;
      var next := Step(slot, called, st, rest[0]);
      if next.Accepted? { RunWithData(slot, called, next.value, rest[1..], more); }
    }
  }

  lemma {:induction false} RunThen(slot: Slot, called: set<string>, st: State, a: seq<Statement>, b: seq<Statement>)
    ensures Run(slot, called, st, a + b) ==
      if Run(slot, called, st, a).Refused? then Run(slot, called, st, a) else Run(slot, called, Run(slot, called, st, a).value, b)
    decreases |a|
  {
    hide Step;
    if a == [] {
      assert a + b == b;
    } else {
      assert (a + b)[0] == a[0] && (a + b)[1..] == a[1..] + b;
      var next := Step(slot, called, st, a[0]);
      if next.Accepted? { RunThen(slot, called, next.value, a[1..], b); }
    }
  }

  /** The step of a listed data statement. */
  lemma DataStep(slot: Slot, called: set<string>, st: State, s: Statement)
    requires WellRead(slot, s) && s.text in slot.dataStatements
    ensures Step(slot, called, st, s).Accepted? <==> !IsOpen(st)
    ensures !IsOpen(st) ==> Step(slot, called, st, s) == Accepted(WithData(st, st.data + {s.text}))
  {
    assert s.shape.DataChange? && AlteredTable(s.shape).None?;
  }

  lemma {:induction false} DefinitionsWithout(slot: Slot, a: seq<Statement>, s: Statement, b: seq<Statement>)
    requires !s.shape.CreateFunction?
    ensures Definitions(slot, a + [s] + b) == Definitions(slot, a + b)
    decreases |b|
  {
    hide FindFunction;
    var longer, shorter := a + [s] + b, a + b;
    if b == [] {
      assert longer[..|longer| - 1] == a && longer[|longer| - 1] == s && shorter == a;
    } else {
      var front := b[..|b| - 1];
      assert longer[..|longer| - 1] == a + [s] + front && shorter[..|shorter| - 1] == a + front;
      assert longer[|longer| - 1] == shorter[|shorter| - 1] == b[|b| - 1];
      DefinitionsWithout(slot, a, s, front);
    }
  }

  lemma TriggersWithout(a: seq<Statement>, s: Statement, b: seq<Statement>)
    requires !s.shape.CreateTrigger?
    ensures TriggerFunctions(a + [s] + b) == TriggerFunctions(a + b)
    ensures (exists t :: t in a + [s] + b && t.shape == CreateTrigger(None)) <==> exists t :: t in a + b && t.shape == CreateTrigger(None)
  {
    assert forall t :: t in a + [s] + b <==> t in a + b || t == s;
  }

  /** The run of a file into which a listed data statement is put. */
  lemma RunInserted(slot: Slot, called: set<string>, a: seq<Statement>, s: Statement, b: seq<Statement>)
    requires WellRead(slot, s) && s.text in slot.dataStatements && Run(slot, called, START, a + b).Accepted?
    ensures Run(slot, called, START, a).Accepted?
    ensures !IsOpen(Run(slot, called, START, a).value) ==>
      Run(slot, called, START, a + [s] + b) == MoreData(Run(slot, called, START, a + b), {s.text})
    ensures IsOpen(Run(slot, called, START, a).value) ==> Run(slot, called, START, a + [s] + b).Refused?
  {
    RunThen(slot, called, START, a, b);
    var st := Run(slot, called, START, a).value;
    assert a + [s] + b == a + ([s] + b);
    RunThen(slot, called, START, a, [s] + b);
    assert ([s] + b)[0] == s && ([s] + b)[1..] == b;
    DataStep(slot, called, st, s);
    RunWithData(slot, called, st, b, {s.text});
    hide Step, IsOpen, WellRead;
  }

  lemma FinishMore(slot: Slot, st: State, text: string)
    requires Finish(slot, st).Accepted? && st.data == ToSet(slot.dataStatements) && text in slot.dataStatements
    ensures Finish(slot, st.(data := st.data + {text})).Accepted?
  {
    assert st.data + {text} == st.data;
  }

  lemma DataFilled(slot: Slot, statements: seq<Statement>)
    requires ValidSlot(slot) && AllWellRead(slot, statements) && Admit(slot, statements).Accepted?
    ensures Admit(slot, statements).value.data == ToSet(slot.dataStatements)
  {
    AcceptedKnown(slot, statements);
    var st := Admit(slot, statements).value;
    FinishMeans(slot, st);
    hide *;
    OpenKnown(slot, st, statements);
    InventoryData(slot, st, statements);
    SubsetFills(st.data, slot.dataStatements);
  }

  lemma InventoryData(slot: Slot, st: State, done: seq<Statement>)
    requires InventoryKnown(slot, st, done)
    ensures st.data <= ToSet(slot.dataStatements)
  {
  }

  lemma AdmitUnfolds(slot: Slot, statements: seq<Statement>)
    ensures
      var definitions := Definitions(slot, statements);
      var end := Run(slot, TriggerFunctions(statements), START, statements);
      Admit(slot, statements).Accepted? <==>
        && definitions.Accepted? && DefinitionsMatch(slot, definitions.value)
        && !(exists s :: s in statements && s.shape == CreateTrigger(None))
        && end.Accepted? && Finish(slot, end.value).Accepted?
    ensures Admit(slot, statements).Accepted? ==>
      Admit(slot, statements) == Run(slot, TriggerFunctions(statements), START, statements)
  {
    hide Definitions, DefinitionsMatch, Run, TriggerFunctions;
  }

  /** A listed data statement may be put anywhere into an accepted file, whether or not the file has it already, except
  right behind the drop of a constraint or of the purpose check that is to be added back. */
  lemma DataInserted(slot: Slot, a: seq<Statement>, s: Statement, b: seq<Statement>)
    requires ValidSlot(slot) && AllWellRead(slot, a + b) && WellRead(slot, s) && s.text in slot.dataStatements
    requires Admit(slot, a + b).Accepted?
    ensures Admit(slot, a + [s] + b).Accepted? <==> !EndsOpen(slot, a)
  {
    var called := TriggerFunctions(a + b);
    DataShape(slot, s);
    DefinitionsWithout(slot, a, s, b);
    TriggersWithout(a, s, b);
    AdmitUnfolds(slot, a + b);
    AdmitUnfolds(slot, a + [s] + b);
    DataFilled(slot, a + b);
    RunInserted(slot, called, a, s, b);
    BeginningWellRead(slot, a, b);
    OpenAfter(slot, called, a);
    hide *;
    var end := Run(slot, called, START, a + b).value;
    FinishMore(slot, end, s.text);
    MoreMeans(end, {s.text});
  }

  lemma MoreMeans(st: State, more: set<string>)
    ensures MoreData(Accepted(st), more) == Accepted(st.(data := st.data + more))
  {
  }

  lemma DataShape(slot: Slot, s: Statement)
    requires WellRead(slot, s) && s.text in slot.dataStatements
    ensures s.shape.DataChange?
  {
  }

  lemma BeginningWellRead(slot: Slot, a: seq<Statement>, b: seq<Statement>)
    requires AllWellRead(slot, a + b)
    ensures AllWellRead(slot, a)
  {
    hide WellRead;
    assert forall i :: 0 <= i < |a| ==> (a + b)[i] == a[i];
  }

  // ---- A repeated data statement ----

  /** Listed data statements need only occur: the machine accepts a file that repeats one. */
  lemma DataStatementMayRepeat()
    ensures
      var slot := Slot([], [], ["DELETE FROM t;"], [], false, [], [], [], [], None);
      var s := Statement("DELETE FROM t;", "digest", DataChange, false, None);
      ValidSlot(slot) && AllWellRead(slot, [s, s]) && Admit(slot, [s, s]).Accepted?
  {
    var slot := Slot([], [], ["DELETE FROM t;"], [], false, [], [], [], [], None);
    var s := Statement("DELETE FROM t;", "digest", DataChange, false, None);
    var st := START.(data := {s.text});
    RepeatedStep(slot, s, START);
    RepeatedStep(slot, s, st);
    assert st.(data := st.data + {s.text}) == st;
    RunTwo(slot, {}, START, s, s);
    assert TriggerFunctions([s, s]) == {};
    DefinitionsTwo(slot, s, s);
    assert Created(slot) == {};
    assert st.data == {"DELETE FROM t;"};
  }

  lemma NotPrefix(text: string, prefix: string)
    requires text != "" && prefix != "" && text[0] != prefix[0]
    ensures !HasPrefix(text, prefix)
  {
    if |prefix| <= |text| { assert text[..|prefix|][0] == text[0]; }
  }

  lemma RepeatedStep(slot: Slot, s: Statement, st: State)
    requires slot == Slot([], [], ["DELETE FROM t;"], [], false, [], [], [], [], None)
    requires s == Statement("DELETE FROM t;", "digest", DataChange, false, None)
    requires st.pending == None && !st.dropped
    ensures WellRead(slot, s) && Step(slot, {}, st, s) == Accepted(st.(data := st.data + {s.text}))
  {
    assert s.text[0] == 'D' && PURPOSE_DROP[0] == 'A' && PURPOSE_ADD[0] == 'A';
    NotPrefix(s.text, PURPOSE_DROP);
    NotPrefix(s.text, PURPOSE_ADD);
    assert s.text in slot.dataStatements;
  }

  lemma RunTwo(slot: Slot, called: set<string>, st: State, s: Statement, t: Statement)
    requires Step(slot, called, st, s).Accepted? && Step(slot, called, Step(slot, called, st, s).value, t).Accepted?
    ensures Run(slot, called, st, [s, t]) == Step(slot, called, Step(slot, called, st, s).value, t)
  {
    hide Step;
    assert [s, t][1..] == [t] && [t][1..] == [];
    var st' := Step(slot, called, st, s).value;
    assert Run(slot, called, st', [t]) == Step(slot, called, st', t);
  }

  lemma DefinitionsTwo(slot: Slot, s: Statement, t: Statement)
    requires !s.shape.CreateFunction? && !t.shape.CreateFunction?
    ensures Definitions(slot, [s, t]) == Accepted(map[])
  {
    assert [s, t][..1] == [s] && [s][..0] == [];
    assert Definitions(slot, [s]) == Accepted(map[]);
  }
}
