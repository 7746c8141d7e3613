/** What an accepted table or index statement can call: every parenthesis after a name is part of the statement's own
grammar or opens an allowed call, whatever marked it. */
module ExpandOnlyRoles {
  import opened Basics
  import opened ExpandOnlyGrammar

  // ---- Roles, read off the tokens around a position ----

  const BEFORE_LIST: set<string> := {"INCLUDE", "WITH", "CHECK", "UNIQUE", "AS", "IDENTITY"}
  const BEFORE_NAME: set<string> := {"INDEX", "EXISTS", "ON", "REFERENCES", "AS"}
  const BEFORE_COLUMN: set<string> := {"(", ",", "ADD", "COLUMN", "EXISTS"}

  /** Where the grammar has a table's, an index's or a type's name: behind the words of the statement, a word that takes a
  name, or the name of a column. */
  predicate NamePlace(tokens: Tokens, s: int) {
    s == 2 || At(tokens, s - 1) in BEFORE_NAME || (IsIdentifier(At(tokens, s - 1)) && At(tokens, s - 2) in BEFORE_COLUMN)
  }

  /** A parenthesis that cannot open a call: it follows a word of the grammar, a type's name and holds literals only, the
  target of REFERENCES, or it opens the statement's body or keys. */
  ghost predicate OpensNoCall(tokens: Tokens, i: int) {
    && At(tokens, i) == "("
    && (|| At(tokens, i - 1) in BEFORE_LIST
        || (At(tokens, i - 1) == "KEY" && (At(tokens, i - 2) == "PRIMARY" || At(tokens, i - 2) == "FOREIGN"))
        || (At(tokens, i - 1) in MODIFIERS && i >= 0 && OnlyLiterals(Between(tokens, i + 1, Close(tokens, i)))
            && exists s: nat :: NamePlace(tokens, s) && NameEnd(tokens, s) == i)
        || (exists s: nat :: At(tokens, s) == "REFERENCES" && NameEnd(tokens, s + 1) == i)
        || (HeaderOf(tokens).Some? && HeaderOf(tokens).value.open == i))
  }

  /** A dot between the parts of a name that stands where the grammar has one. */
  ghost predicate InName(tokens: Tokens, i: int) {
    exists s: nat :: NamePlace(tokens, s) && s < i < NameEnd(tokens, s)
  }

  /** A bracket of the empty pairs behind a type. */
  ghost predicate InArrayType(tokens: Tokens, i: int) {
    exists s: nat :: NamePlace(tokens, s) && TypeMarks(tokens, s).Some? && i in TypeMarks(tokens, s).value.arrays
  }

  ghost predicate Roles(tokens: Tokens, marks: Marks) {
    && (forall i :: i in marks.structural ==> OpensNoCall(tokens, i))
    && (forall i :: i in marks.qualified ==> InName(tokens, i))
    && (forall i :: i in marks.arrays ==> InArrayType(tokens, i))
  }

  /** A CAST whose own AS, inside its parentheses, names a type that at most the catalog qualifies. */
  ghost predicate NamesType(tokens: Tokens, i: nat) {
    exists s: nat :: i + 1 < s < Close(tokens, i + 1) && At(tokens, s) == "AS" && TypeMarks(tokens, s + 1).Some?
      && (At(tokens, s + 2) == "." ==> At(tokens, s + 1) == "PG_CATALOG" && At(tokens, s + 4) != ".")
  }

  /** What the law says of one token. */
  ghost predicate Harmless(tokens: Tokens, i: nat) {
    && (At(tokens, i) == "(" && IsIdentifier(At(tokens, i - 1)) ==> OpensNoCall(tokens, i) || CallAllowed(tokens, i))
    && (At(tokens, i) == "." ==> InName(tokens, i) || DotAllowed(tokens, i))
    && (IsBracket(At(tokens, i)) ==> InArrayType(tokens, i))
    && (IsCast(tokens, i) ==> NamesType(tokens, i))
  }

  // ---- Every mark has its role ----

  lemma UnionRoles(tokens: Tokens, a: Marks, b: Marks)
    requires Roles(tokens, a) && Roles(tokens, b)
    ensures Roles(tokens, Union(a, b))
  {
    hide OpensNoCall, InName, InArrayType;
  }

  lemma NothingRoles(tokens: Tokens)
    ensures Roles(tokens, NOTHING)
  {
    hide OpensNoCall, InName, InArrayType;
  }

  lemma MakeRoles(tokens: Tokens, structural: set<int>, qualified: set<int>, arrays: set<int>)
    requires forall i :: i in structural ==> OpensNoCall(tokens, i)
    requires forall i :: i in qualified ==> InName(tokens, i)
    requires forall i :: i in arrays ==> InArrayType(tokens, i)
    ensures Roles(tokens, Marks(structural, qualified, arrays))
  {
    hide OpensNoCall, InName, InArrayType;
  }

  lemma DotsRoles(tokens: Tokens, start: nat)
    requires NamePlace(tokens, start)
    ensures forall i :: i in Dots(tokens, start, NameEnd(tokens, start)) ==> InName(tokens, i)
  {
    hide NameEnd, NamePlace;
  }

  lemma ModifierRole(tokens: Tokens, start: nat, end: nat)
    requires NamePlace(tokens, start) && NameEnd(tokens, start) == end
    requires HasModifier(tokens, start, end) && OnlyLiterals(Between(tokens, end + 1, Close(tokens, end)))
    ensures OpensNoCall(tokens, end)
  {
    hide Close, OnlyLiterals, Between, NameEnd, NamePlace;
  }

  lemma TypeOpen(tokens: Tokens, start: nat) returns (end: nat)
    requires TypeMarks(tokens, start).Some?
    ensures end == NameEnd(tokens, start)
    ensures HasModifier(tokens, start, end) ==> OnlyLiterals(Between(tokens, end + 1, Close(tokens, end)))
    ensures TypeMarks(tokens, start).value.structural == if HasModifier(tokens, start, end) then {end as int} else {}
    ensures TypeMarks(tokens, start).value.qualified == Dots(tokens, start, end)
  {
    hide HasModifier, OnlyLiterals, Between, Dots, Brackets, ArraysEnd, NameEnd, Close;
    end := NameEnd(tokens, start);
  }

  lemma ArraysRoles(tokens: Tokens, start: nat)
    requires NamePlace(tokens, start) && TypeMarks(tokens, start).Some?
    ensures forall i :: i in TypeMarks(tokens, start).value.arrays ==> InArrayType(tokens, i)
  {
    hide TypeMarks, NamePlace;
  }

  lemma TypeRoles(tokens: Tokens, start: nat)
    requires NamePlace(tokens, start) && TypeMarks(tokens, start).Some?
    ensures Roles(tokens, TypeMarks(tokens, start).value)
  {
    hide *;
    var end := TypeOpen(tokens, start);
    var marks := TypeMarks(tokens, start).value;
    DotsRoles(tokens, start);
    if HasModifier(tokens, start, end) { ModifierRole(tokens, start, end); }
    ArraysRoles(tokens, start);
    MakeRoles(tokens, marks.structural, marks.qualified, marks.arrays);
  }

  lemma ReferencesRoles(tokens: Tokens, i: nat)
    requires At(tokens, i) == "REFERENCES" && ReadReferences(tokens, i).Some?
    ensures Roles(tokens, ReadReferences(tokens, i).value.marks)
  {
    hide NameEnd, InName, InArrayType, Dots;
    DotsRoles(tokens, i + 1);
  }

  lemma GeneratedRoles(tokens: Tokens, i: nat)
    requires ReadGenerated(tokens, i).Some?
    ensures Roles(tokens, ReadGenerated(tokens, i).value.marks)
  {
    hide InName, InArrayType;
  }

  lemma KeyRoles(tokens: Tokens, i: nat)
    requires At(tokens, i) in BEFORE_LIST || (At(tokens, i) == "KEY" && (At(tokens, i - 1) == "PRIMARY" || At(tokens, i - 1) == "FOREIGN"))
    ensures Roles(tokens, Marks(Mark(tokens, i + 1), {}, {}))
  {
    hide InName, InArrayType;
  }

  lemma ClauseRoles(tokens: Tokens, i: nat)
    requires ReadClause(tokens, i).Some?
    ensures Roles(tokens, ReadClause(tokens, i).value.marks)
  {
    hide Roles, Close, ReadReferences, ReadGenerated, Mark;
    var token := At(tokens, i);
    NothingRoles(tokens);
    if token == "REFERENCES" { ReferencesRoles(tokens, i); }
    else if token == "GENERATED" { GeneratedRoles(tokens, i); }
    else if
      || token == "CHECK" || token == "UNIQUE"
      || (token == "KEY" && (At(tokens, i - 1) == "PRIMARY" || At(tokens, i - 1) == "FOREIGN"))
    { KeyRoles(tokens, i); }
  }

  lemma AlsoRoles(tokens: Tokens, a: Marks, rest: Option<Marks>)
    requires Roles(tokens, a) && (rest.Some? ==> Roles(tokens, rest.value))
    ensures Also(a, rest).Some? ==> Roles(tokens, Also(a, rest).value)
  {
    hide Roles, Union;
    if rest.Some? { UnionRoles(tokens, a, rest.value); }
  }

  lemma {:induction false} ClausesRoles(tokens: Tokens, i: nat, next: int)
    requires ClausesMarks(tokens, i, next).Some?
    ensures Roles(tokens, ClausesMarks(tokens, i, next).value)
    decreases next - i
  {
    hide Roles, ReadClause, Union;
    NothingRoles(tokens);
    if i < next {
      var clause := ReadClause(tokens, i).value;
      ClauseRoles(tokens, i);
      ClausesRoles(tokens, clause.next, next);
      AlsoRoles(tokens, clause.marks, ClausesMarks(tokens, clause.next, next));
    }
  }

  lemma ColumnRoles(tokens: Tokens, column: nat, next: int)
    requires At(tokens, column - 1) in BEFORE_COLUMN && ColumnMarks(tokens, column, next).Some?
    ensures Roles(tokens, ColumnMarks(tokens, column, next).value)
  {
    hide Roles, TypeMarks, ClausesMarks, Union, IsIdentifier, NameEnd;
    assert At(tokens, column + 1 - 2) == At(tokens, column - 1);
    if At(tokens, column) in CONSTRAINTS {
      ClausesRoles(tokens, AfterConstraintName(tokens, column), next);
    } else {
      TypeRoles(tokens, column + 1);
      TypeNamed(tokens, column + 1);
      var first := AfterConstraintName(tokens, NameEnd(tokens, column + 1));
      ClausesRoles(tokens, first, next);
      AlsoRoles(tokens, TypeMarks(tokens, column + 1).value, ClausesMarks(tokens, first, next));
    }
  }

  lemma TypeNamed(tokens: Tokens, start: nat)
    requires TypeMarks(tokens, start).Some?
    ensures NameEnd(tokens, start) >= 0
  {
  }

  lemma AddedPlace(tokens: Tokens, start: nat)
    requires AddedColumn(tokens, start) >= 0
    ensures At(tokens, AddedColumn(tokens, start) - 1) in BEFORE_COLUMN
  {
  }

  lemma {:induction false} ItemEndsAt(tokens: Tokens, i: nat, end: int)
    ensures ItemEnd(tokens, i, end) < end ==> At(tokens, ItemEnd(tokens, i, end)) == ","
    decreases end - i
  {
    hide Close;
    if i < end && At(tokens, i) != "," {
      ItemEndsAt(tokens, if At(tokens, i) == "(" then Close(tokens, i) + 1 else i + 1, end);
    }
  }

  lemma {:induction false} ItemsRoles(tokens: Tokens, start: nat, end: int, alter: bool)
    requires ItemsMarks(tokens, start, end, alter).Some?
    requires start < end && !alter ==> At(tokens, start - 1) in BEFORE_COLUMN
    ensures Roles(tokens, ItemsMarks(tokens, start, end, alter).value)
    decreases end - start
  {
    hide Roles, ColumnMarks, Union, ItemEnd, AddedColumn;
    NothingRoles(tokens);
    if start < end {
      var next := ItemEnd(tokens, start, end);
      if alter { AddedPlace(tokens, start); }
      ColumnRoles(tokens, if alter then AddedColumn(tokens, start) else start, next);
      ItemEndsAt(tokens, start, end);
      ItemsRoles(tokens, next + 1, end, alter);
      AlsoRoles(tokens, ItemMarks(tokens, start, next, alter).value, ItemsMarks(tokens, next + 1, end, alter));
    }
  }

  lemma SuffixOneRoles(tokens: Tokens, clause: string, suffix: nat)
    requires clause in BEFORE_LIST && ReadSuffix(tokens, clause, suffix).Some?
    ensures Roles(tokens, ReadSuffix(tokens, clause, suffix).value.marks)
  {
    hide InName, InArrayType, Close, IsColumnList, Between;
  }

  lemma SuffixRoles(tokens: Tokens, suffix: nat)
    requires SuffixMarks(tokens, suffix).Some?
    ensures Roles(tokens, SuffixMarks(tokens, suffix).value)
  {
    hide Roles, ReadSuffix, Union;
    var included := ReadSuffix(tokens, "INCLUDE", suffix).value;
    var with := ReadSuffix(tokens, "WITH", included.next).value;
    SuffixOneRoles(tokens, "INCLUDE", suffix);
    SuffixOneRoles(tokens, "WITH", included.next);
    UnionRoles(tokens, included.marks, with.marks);
  }

  lemma HeaderOpens(tokens: Tokens)
    requires HeaderOf(tokens).Some? && HeaderOf(tokens).value.open >= 0
    ensures OpensNoCall(tokens, HeaderOf(tokens).value.open)
  {
    hide HeaderOf;
  }

  lemma IndexHeaderDots(tokens: Tokens)
    requires IsIndex(tokens) && IndexHeader(tokens).Some?
    ensures forall i :: i in IndexHeader(tokens).value.marks.qualified ==> InName(tokens, i)
    ensures IndexHeader(tokens).value.marks.structural == {IndexHeader(tokens).value.open}
    ensures IndexHeader(tokens).value.marks.arrays == {}
  {
    hide InName, NameEnd, Dots, IsIdentifier;
    var first := if At(tokens, 1) == "UNIQUE" then 3 else 2;
    var name := if IfNotExists(tokens, first) then first + 3 else first;
    DotsRoles(tokens, name);
    DotsRoles(tokens, NameEnd(tokens, name) + 1);
  }

  lemma TableHeaderDots(tokens: Tokens)
    ensures TableHeader(tokens).Some? ==>
      && (forall i :: i in TableHeader(tokens).value.marks.qualified ==> InName(tokens, i))
      && TableHeader(tokens).value.marks.structural == {TableHeader(tokens).value.open}
      && TableHeader(tokens).value.marks.arrays == {}
    ensures AlterHeader(tokens).Some? ==>
      && (forall i :: i in AlterHeader(tokens).value.marks.qualified ==> InName(tokens, i))
      && AlterHeader(tokens).value.marks.structural == {} && AlterHeader(tokens).value.marks.arrays == {}
  {
    hide InName, NameEnd, Dots, IsIdentifier;
    DotsRoles(tokens, if IfNotExists(tokens, 2) then 5 else 2);
    DotsRoles(tokens, 2);
  }

  lemma HeaderRoles(tokens: Tokens)
    requires HeaderOf(tokens).Some?
    ensures Roles(tokens, HeaderOf(tokens).value.marks)
  {
    if HeaderOf(tokens).value.open >= 0 { HeaderOpens(tokens); }
    hide OpensNoCall, InName, InArrayType, IndexHeader, TableHeader, IsIndex, AlterHeader;
    if IsIndex(tokens) { IndexHeaderDots(tokens); }
    TableHeaderDots(tokens);
  }

  lemma BodyRoles(tokens: Tokens)
    requires BodyMarks(tokens).Some?
    ensures Roles(tokens, BodyMarks(tokens).value)
  {
    hide Roles, HeaderOf, IsIndex, KeysAllowed, SuffixMarks, ItemsMarks, NameEnd, Close, Union;
    var header := HeaderOf(tokens).value;
    HeaderRoles(tokens);
    var rest :=
      if IsIndex(tokens) then SuffixMarks(tokens, Close(tokens, header.open) + 1)
      else if header.open >= 0 then ItemsMarks(tokens, header.open + 1, Close(tokens, header.open), false)
      else ItemsMarks(tokens, NameEnd(tokens, 2), |tokens|, true);
    if IsIndex(tokens) { SuffixRoles(tokens, Close(tokens, header.open) + 1); }
    else if header.open >= 0 { ItemsRoles(tokens, header.open + 1, Close(tokens, header.open), false); }
    else { ItemsRoles(tokens, NameEnd(tokens, 2), |tokens|, true); }
    AlsoRoles(tokens, header.marks, rest);
  }

  // ---- The AS of a CAST ----

  /** Closing `inner` parentheses, then `depth` more, closes them all. */
  lemma {:induction false} SeekInner(tokens: Tokens, i: nat, inner: nat, depth: nat)
    requires inner > 0 && depth > 0
    ensures Seek(tokens, i, inner) < |tokens| ==> Seek(tokens, i, inner + depth) == Seek(tokens, Seek(tokens, i, inner) + 1, depth)
    ensures Seek(tokens, i, inner) >= |tokens| ==> Seek(tokens, i, inner + depth) >= |tokens|
    decreases |tokens| - i
  {
    if i < |tokens| {
      if tokens[i] == "(" { SeekInner(tokens, i + 1, inner + 1, depth); }
      else if tokens[i] == ")" { if inner > 1 { SeekInner(tokens, i + 1, inner - 1, depth); } }
      else { SeekInner(tokens, i + 1, inner, depth); }
    }
  }

  /** In a balanced statement every open parenthesis is closed. */
  lemma {:induction false} SeekFinds(tokens: Tokens, i: nat, depth: nat, inner: nat)
    requires Balanced(tokens, i, depth) && 0 < inner <= depth
    ensures Seek(tokens, i, inner) < |tokens|
    decreases |tokens| - i
  {
    if i < |tokens| {
      if tokens[i] == "(" { SeekFinds(tokens, i + 1, depth + 1, inner + 1); }
      else if tokens[i] == ")" { if inner > 1 { SeekFinds(tokens, i + 1, depth - 1, inner - 1); } }
      else { SeekFinds(tokens, i + 1, depth, inner); }
    }
  }

  lemma {:induction false} Closes(tokens: Tokens, from: nat, depth: nat, i: nat)
    requires Balanced(tokens, from, depth) && from <= i < |tokens| && tokens[i] == "("
    ensures Close(tokens, i) < |tokens|
    decreases i - from
  {
    hide Seek;
    if from == i { SeekFinds(tokens, i + 1, depth + 1, 1); }
    else if tokens[from] == "(" { Closes(tokens, from + 1, depth + 1, i); }
    else if tokens[from] == ")" { Closes(tokens, from + 1, depth - 1, i); }
    else { Closes(tokens, from + 1, depth, i); }
  }

  lemma SeekStep(tokens: Tokens, i: nat)
    requires i < |tokens|
    ensures tokens[i] == "(" ==> Seek(tokens, i, 1) == Seek(tokens, i + 1, 2)
    ensures tokens[i] == ")" ==> Seek(tokens, i, 1) == i
    ensures tokens[i] != "(" && tokens[i] != ")" ==> Seek(tokens, i, 1) == Seek(tokens, i + 1, 1)
  {
  }

  /** The search for AS stays inside the parentheses, and stops at an AS or at their end. */
  lemma {:induction false} AsInside(tokens: Tokens, i: nat, end: nat)
    requires i <= end < |tokens| && Seek(tokens, i, 1) == end
    ensures SeekAs(tokens, i, end) <= end
    ensures SeekAs(tokens, i, end) < end ==> At(tokens, SeekAs(tokens, i, end)) == "AS"
    decreases end - i
  {
    hide Seek;
    SeekStep(tokens, i);
    if i < end && At(tokens, i) != "AS" {
      if tokens[i] == "(" {
        SeekInner(tokens, i + 1, 1, 1);
        AsInside(tokens, Close(tokens, i) + 1, end);
      } else {
        AsInside(tokens, i + 1, end);
      }
    }
  }

  lemma CastOpen(tokens: Tokens, i: nat) returns (s: nat)
    requires CastMarks(tokens, i).Some?
    ensures s == SeekAs(tokens, i + 2, Close(tokens, i + 1)) && s != Close(tokens, i + 1)
    ensures CastMarks(tokens, i) == TypeMarks(tokens, s + 1)
    ensures At(tokens, s + 2) == "." ==> At(tokens, s + 1) == "PG_CATALOG" && At(tokens, s + 4) != "."
  {
    hide TypeMarks, SeekAs, Close;
    s := SeekAs(tokens, i + 2, Close(tokens, i + 1));
  }

  lemma CastRoles(tokens: Tokens, i: nat)
    requires Balanced(tokens, 0, 0) && IsCast(tokens, i) && CastMarks(tokens, i).Some?
    ensures Roles(tokens, CastMarks(tokens, i).value)
    ensures NamesType(tokens, i)
  {
    CastParenthesis(tokens, i);
    var s := CastOpen(tokens, i);
    Closes(tokens, 0, 0, i + 1);
    hide Roles, TypeMarks, CastMarks, SeekAs, Seek, Balanced, HeaderOf, NameEnd;
    AsInside(tokens, i + 2, Close(tokens, i + 1));
    TypeRoles(tokens, s + 1);
  }

  lemma CastParenthesis(tokens: Tokens, i: nat)
    requires IsCast(tokens, i)
    ensures i + 1 < |tokens| && tokens[i + 1] == "("
  {
  }

  lemma AllowedIsHarmless(tokens: Tokens, i: nat, marks: Marks)
    requires Roles(tokens, marks) && TokenAllowed(tokens, i, marks) && (IsCast(tokens, i) ==> NamesType(tokens, i))
    ensures Harmless(tokens, i)
  {
    hide IsCast, NamesType, OpensNoCall, InName, InArrayType, CallAllowed, DotAllowed, IsIdentifier, IsBracket;
  }

  lemma {:induction false} ExpressionsHarmless(tokens: Tokens, i: nat, marks: Marks)
    requires Balanced(tokens, 0, 0) && Roles(tokens, marks) && ExpressionsAllowed(tokens, i, marks)
    ensures forall j :: i <= j < |tokens| ==> Harmless(tokens, j)
    decreases |tokens| - i
  {
    hide Roles, TokenAllowed, Harmless, IsCast, CastMarks, Union, Balanced, NamesType;
    if i < |tokens| {
      var cast := if IsCast(tokens, i) then CastMarks(tokens, i).value else NOTHING;
      NothingRoles(tokens);
      if IsCast(tokens, i) { CastRoles(tokens, i); }
      UnionRoles(tokens, marks, cast);
      AllowedIsHarmless(tokens, i, Union(marks, cast));
      ExpressionsHarmless(tokens, i + 1, Union(marks, cast));
    }
  }

  /** In an admitted statement every name before a parenthesis belongs to the grammar or is an allowed call or construct,
  every dot is part of a name or qualifies an allowed call, every bracket is an array type's, and every CAST names its
  type. */
  lemma CallsAllowed(tokens: Tokens)
    requires Admitted(tokens)
    ensures forall i :: 0 <= i < |tokens| ==> Harmless(tokens, i)
  {
    hide Roles, Harmless, BodyMarks, ExpressionsAllowed, Paired, Balanced;
    BodyRoles(tokens);
    ExpressionsHarmless(tokens, 0, BodyMarks(tokens).value);
  }
}
