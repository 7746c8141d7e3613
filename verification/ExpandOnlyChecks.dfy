/** The expand-only reader's loops over one statement: a stack of open parentheses, and sets of marks that grow.

Each loop is proved to leave what the grammar's functions of the whole statement give.
*/
module ExpandOnlyChecks {
  import opened Basics
  import opened ExpandOnlyGrammar

  // ---- Parentheses ----

  /** `closing` has the closing parenthesis of every open one. */
  ghost predicate Matched(tokens: Tokens, closing: map<int, int>) {
    forall i: nat :: At(tokens, i) == "(" ==> i in closing && closing[i] == Close(tokens, i)
  }

  lemma {:induction false} SeekStep(tokens: Tokens, i: nat, depth: nat)
    requires i < |tokens| && depth > 0
    ensures tokens[i] == "(" ==> Seek(tokens, i, depth) == Seek(tokens, i + 1, depth + 1)
    ensures tokens[i] == ")" ==> Seek(tokens, i, depth) == if depth == 1 then i else Seek(tokens, i + 1, depth - 1)
    ensures tokens[i] != "(" && tokens[i] != ")" ==> Seek(tokens, i, depth) == Seek(tokens, i + 1, depth)
  {
  }

  lemma BalancedStep(tokens: Tokens, i: nat, depth: nat)
    requires i < |tokens|
    ensures Balanced(tokens, i, depth) ==
      if tokens[i] == "(" then Balanced(tokens, i + 1, depth + 1)
      else if tokens[i] == ")" then depth > 0 && Balanced(tokens, i + 1, depth - 1)
      else Balanced(tokens, i + 1, depth)
  {
  }

  lemma BalancedEnd(tokens: Tokens, depth: nat)
    ensures Balanced(tokens, |tokens|, depth) <==> depth == 0
  {
  }

  lemma PairedMeans(tokens: Tokens, i: nat)
    requires i < |tokens|
    ensures (tokens[i] == "[" && At(tokens, i + 1) != "]") || (tokens[i] == "]" && At(tokens, i - 1) != "[") ==> !Paired(tokens)
  {
  }

  /** Before `index`, every parenthesis is closed or on the stack, each at its depth. */
  ghost predicate Stacked(tokens: Tokens, index: nat, stack: seq<int>, closing: map<int, int>) {
    && (forall k :: 0 <= k < |stack| ==> 0 <= stack[k] < index && Close(tokens, stack[k]) == Seek(tokens, index, |stack| - k))
    && (forall i: nat :: i < index && i < |tokens| && tokens[i] == "(" ==>
      (i in closing && closing[i] == Close(tokens, i)) || i in stack)
  }

  lemma CloseIs(tokens: Tokens, i: nat)
    ensures Close(tokens, i) == Seek(tokens, i + 1, 1)
  {
  }

  lemma StackedStep(tokens: Tokens, index: nat, stack: seq<int>, closing: map<int, int>)
    requires index < |tokens| && Stacked(tokens, index, stack, closing)
    ensures tokens[index] == "(" ==> Stacked(tokens, index + 1, stack + [index], closing)
    ensures tokens[index] == ")" && stack != [] ==>
      Stacked(tokens, index + 1, stack[..|stack| - 1], closing[stack[|stack| - 1] := index])
    ensures tokens[index] != "(" && tokens[index] != ")" ==> Stacked(tokens, index + 1, stack, closing)
  {
    hide Seek, Close;
    CloseIs(tokens, index);
    var n := |stack|;
    forall k | 0 <= k < n
      ensures tokens[index] == "(" ==> Close(tokens, stack[k]) == Seek(tokens, index + 1, n + 1 - k)
      ensures tokens[index] == ")" && k < n - 1 ==> Close(tokens, stack[k]) == Seek(tokens, index + 1, n - 1 - k)
      ensures tokens[index] == ")" && k == n - 1 ==> Close(tokens, stack[k]) == index
      ensures tokens[index] != "(" && tokens[index] != ")" ==> Close(tokens, stack[k]) == Seek(tokens, index + 1, n - k)
    {
      SeekStep(tokens, index, n - k);
    }
    if tokens[index] == ")" && n > 0 {
      var top := stack[n - 1];
      assert stack == stack[..n - 1] + [top];
    }
  }

  /** The first loop: brackets only in empty pairs, and each parenthesis with the one that closes it. */
  method MatchParentheses(tokens: Tokens) returns (result: Option<map<int, int>>)
    ensures result.Some? <==> Paired(tokens) && Balanced(tokens, 0, 0)
    ensures result.Some? ==> Matched(tokens, result.value)
  {
    hide Paired, Balanced, Seek;
    var stack, closing: map<int, int> := [], map[];
    for index := 0 to |tokens|
      invariant Stacked(tokens, index, stack, closing)
      invariant Balanced(tokens, 0, 0) == Balanced(tokens, index, |stack|)
      invariant forall i :: 0 <= i < index ==>
        (tokens[i] == "[" ==> At(tokens, i + 1) == "]") && (tokens[i] == "]" ==> At(tokens, i - 1) == "[")
    {
      BalancedStep(tokens, index, |stack|);
      StackedStep(tokens, index, stack, closing);
      PairedMeans(tokens, index);
      if (tokens[index] == "[" && At(tokens, index + 1) != "]") || (tokens[index] == "]" && At(tokens, index - 1) != "[") {
        return None;
      }
      if tokens[index] == "(" { stack := stack + [index]; }
      else if tokens[index] == ")" {
        if stack == [] { return None; }
        var open := stack[|stack| - 1];
        stack, closing := stack[..|stack| - 1], closing[open := index];
      }
    }
    BalancedEnd(tokens, |stack|);
    PairedAll(tokens);
    if stack != [] { return None; }
    result := Some(closing);
  }

  lemma PairedAll(tokens: Tokens)
    ensures Paired(tokens) <==> forall i :: 0 <= i < |tokens| ==>
      (tokens[i] == "[" ==> At(tokens, i + 1) == "]") && (tokens[i] == "]" ==> At(tokens, i - 1) == "[")
  {
  }

  // ---- Names and types ----

  lemma DotsStep(tokens: Tokens, start: nat, end: nat)
    requires start < end && At(tokens, end) == "." && At(tokens, end + 1) != "."
    ensures Dots(tokens, start, end + 2) == Dots(tokens, start, end) + {end as int}
  {
  }

  lemma IdentifierIsNoDot(token: string)
    requires IsIdentifier(token)
    ensures token != "."
  {
  }

  lemma UnionTwice(a: Marks, b: Marks, c: Marks)
    ensures Union(Union(a, b), c) == Union(a, Union(b, c))
    ensures Union(a, NOTHING) == a && Union(NOTHING, a) == a
  {
    assert a.structural + {} == a.structural && a.qualified + {} == a.qualified && a.arrays + {} == a.arrays;
    assert {} + a.structural == a.structural && {} + a.qualified == a.qualified && {} + a.arrays == a.arrays;
    assert (a.structural + b.structural) + c.structural == a.structural + (b.structural + c.structural);
    assert (a.qualified + b.qualified) + c.qualified == a.qualified + (b.qualified + c.qualified);
    assert (a.arrays + b.arrays) + c.arrays == a.arrays + (b.arrays + c.arrays);
  }

  /** The dotted name at `start`, its dots marked. */
  method MarkName(tokens: Tokens, start: nat, marks: Marks) returns (end: int, marked: Marks)
    ensures end == NameEnd(tokens, start)
    ensures end >= 0 ==> marked == Union(marks, NameMarks(tokens, start, end))
  {
    hide IsIdentifier;
    marked := marks;
    if !IsIdentifier(At(tokens, start)) { return -1, marked; }
    end := start + 1;
    assert Dots(tokens, start, start + 1) == {};
    while At(tokens, end) == "."
      invariant start < end && DotsEnd(tokens, start + 1) == DotsEnd(tokens, end)
      invariant marked.structural == marks.structural && marked.arrays == marks.arrays
      invariant marked.qualified == marks.qualified + Dots(tokens, start, end)
      decreases |tokens| - end
    {
      if !IsIdentifier(At(tokens, end + 1)) { return -1, marked; }
      IdentifierIsNoDot(At(tokens, end + 1));
      DotsStep(tokens, start, end);
      marked := marked.(qualified := marked.qualified + {end});
      end := end + 2;
    }
    assert marked.structural == marks.structural + {} && marked.arrays == marks.arrays + {};
  }

  lemma BracketsStep(tokens: Tokens, start: nat, end: nat)
    requires start <= end && At(tokens, end) == "[" && At(tokens, end + 1) == "]"
    ensures Brackets(tokens, start, end + 2) == Brackets(tokens, start, end) + {end as int, end + 1}
  {
  }

  /** Empty brackets from `start` on, marked. */
  method MarkArrays(tokens: Tokens, start: nat, marks: Marks) returns (marked: Marks)
    ensures marked == Union(marks, Marks({}, {}, Brackets(tokens, start, ArraysEnd(tokens, start))))
  {
    marked := marks;
    var end := start;
    assert Brackets(tokens, start, start) == {};
    while At(tokens, end) == "[" && At(tokens, end + 1) == "]"
      invariant start <= end && ArraysEnd(tokens, start) == ArraysEnd(tokens, end)
      invariant marked.structural == marks.structural && marked.qualified == marks.qualified
      invariant marked.arrays == marks.arrays + Brackets(tokens, start, end)
      decreases |tokens| - end
    {
      BracketsStep(tokens, start, end);
      marked := marked.(arrays := marked.arrays + {end, end + 1});
      end := end + 2;
    }
    assert marks.structural + {} == marks.structural && marks.qualified + {} == marks.qualified;
  }

  /** A type in its three parts: name, modifier, brackets. */
  lemma TypeParts(tokens: Tokens, start: nat, end: nat, after: nat)
    requires end == NameEnd(tokens, start)
    requires after == if HasModifier(tokens, start, end) then Close(tokens, end) + 1 else end
    ensures TypeMarks(tokens, start) ==
      if HasModifier(tokens, start, end) && !OnlyLiterals(Between(tokens, end + 1, Close(tokens, end))) then None
      else if At(tokens, after) == "(" then None
      else Some(Marks(if HasModifier(tokens, start, end) then {end as int} else {}, Dots(tokens, start, end),
        Brackets(tokens, after, ArraysEnd(tokens, after))))
  {
    hide Close, NameEnd, HasModifier, OnlyLiterals, Between, Dots, Brackets, ArraysEnd;
  }

  lemma ThreeParts(marks: Marks, structural: set<int>, qualified: set<int>, arrays: set<int>)
    ensures Union(Union(Union(marks, Marks({}, qualified, {})), Marks(structural, {}, {})), Marks({}, {}, arrays)) ==
      Union(marks, Marks(structural, qualified, arrays))
  {
    assert forall s: set<int> :: s + {} == s;
  }

  lemma ModifierOpens(tokens: Tokens, start: nat, end: nat)
    requires HasModifier(tokens, start, end)
    ensures At(tokens, end) == "("
  {
  }

  /** The type at `start`, its modifier's parenthesis, its dots and its brackets marked. */
  method MarkType(tokens: Tokens, closing: map<int, int>, start: nat, marks: Marks) returns (ok: bool, marked: Marks)
    requires Matched(tokens, closing)
    ensures ok <==> TypeMarks(tokens, start).Some?
    ensures ok ==> marked == Union(marks, TypeMarks(tokens, start).value)
  {
    var name: int;
    name, marked := MarkName(tokens, start, marks);
    if name < 0 { return false, marked; }
    var end: nat := name;
    var modified := HasModifier(tokens, start, name);
    if modified {
      ModifierOpens(tokens, start, name);
      end := closing[name] + 1;
    }
    TypeParts(tokens, start, name, end);
    hide TypeMarks, HasModifier, Between, Union, NameEnd, Close, OnlyLiterals;
    if modified {
      marked := Union(marked, Marks({name}, {}, {}));
      if !OnlyLiterals(Between(tokens, name + 1, closing[name])) { return false, marked; }
    } else {
      MarkNothing(marked);
    }
    if At(tokens, end) == "(" { return false, marked; }
    ThreeParts(marks, if modified then {name} else {}, Dots(tokens, start, name), Brackets(tokens, end, ArraysEnd(tokens, end)));
    marked := MarkArrays(tokens, end, marked);
    ok := true;
  }

  lemma MarkNothing(marks: Marks)
    ensures Union(marks, Marks({}, {}, {})) == marks
  {
    UnionTwice(marks, marks, marks);
  }

  // ---- Index keys ----

  /** The end of the key at `start`. */
  method ReadKey(tokens: Tokens, closing: map<int, int>, start: nat) returns (key: int)
    requires Matched(tokens, closing)
    ensures key == KeyEnd(tokens, start)
  {
    hide Close, IsIdentifier;
    if At(tokens, start) == "(" { return closing[start] + 1; }
    key := start + 1;
    while At(tokens, key) == "."
      invariant start < key && SkipDots(tokens, start + 1) == SkipDots(tokens, key)
      decreases |tokens| - key
    {
      key := key + 2;
    }
    if At(tokens, key) == "(" { return closing[key] + 1; }
    if !IsIdentifier(At(tokens, start)) { return -1; }
  }

  lemma KeysUnfold(tokens: Tokens, start: nat, end: int)
    ensures KeysAllowed(tokens, start, end) <==>
      || start >= end
      || (var key := KeyEnd(tokens, start);
          key >= 0 && IsOrdering(Between(tokens, key, NextComma(tokens, key, end))) && KeysAllowed(tokens, NextComma(tokens, key, end) + 1, end))
  {
    hide KeyEnd, IsOrdering, Between;
  }

  lemma CommaStep(tokens: Tokens, i: nat, end: int)
    ensures NextComma(tokens, i, end) == if i < end && At(tokens, i) != "," then NextComma(tokens, i + 1, end) else i
  {
  }

  /** The loop over an index's keys. */
  method ReadKeys(tokens: Tokens, closing: map<int, int>, first: nat, end: int) returns (ok: bool)
    requires Matched(tokens, closing)
    ensures ok <==> KeysAllowed(tokens, first, end)
  {
    hide *;
    var start: int := first;
    while start < end
      invariant start >= 0 && KeysAllowed(tokens, first, end) == KeysAllowed(tokens, start, end)
      decreases end - start
    {
      KeysUnfold(tokens, start, end);
      var key := ReadKey(tokens, closing, start);
      if key < 0 { return false; }
      var next := key;
      while next < end && At(tokens, next) != ","
        invariant key <= next && NextComma(tokens, key, end) == NextComma(tokens, next, end)
      {
        CommaStep(tokens, next, end);
        next := next + 1;
      }
      CommaStep(tokens, next, end);
      if !IsOrdering(Between(tokens, key, next)) { return false; }
      start := next + 1;
    }
    KeysUnfold(tokens, start, end);
    ok := true;
  }

  /** INCLUDE and WITH lists, and what may follow them. */
  method MarkSuffix(tokens: Tokens, closing: map<int, int>, first: nat, marks: Marks) returns (ok: bool, marked: Marks)
    requires Matched(tokens, closing)
    ensures ok <==> SuffixMarks(tokens, first).Some?
    ensures ok ==> marked == Union(marks, SuffixMarks(tokens, first).value)
  {
    hide Close, IsColumnList, Between, Union;
    var suffix: nat, clauses := first, ["INCLUDE", "WITH"];
    marked := marks;
    ghost var found := NOTHING;
    UnionTwice(marks, NOTHING, NOTHING);
    for i := 0 to 2
      invariant marked == Union(marks, found)
      invariant i == 0 ==> suffix == first && found == NOTHING
      invariant i == 1 ==> ReadSuffix(tokens, "INCLUDE", first) == Some(Suffix(suffix, found))
      invariant i == 2 ==> exists included: Suffix, with: Suffix ::
        && ReadSuffix(tokens, "INCLUDE", first) == Some(included) && ReadSuffix(tokens, "WITH", included.next) == Some(with)
        && with.next == suffix && found == Union(included.marks, with.marks)
    {
      ghost var here, was := suffix, found;
      ghost var step := NOTHING;
      if At(tokens, suffix) == clauses[i] {
        if At(tokens, suffix + 1) != "(" { return false, marked; }
        var close := closing[suffix + 1];
        if clauses[i] == "INCLUDE" && !IsColumnList(Between(tokens, suffix + 2, close)) { return false, marked; }
        step := Marks({suffix + 1}, {}, {});
        marked := Union(marked, Marks({suffix + 1}, {}, {}));
        suffix := close + 1;
      } else {
        UnionTwice(marked, NOTHING, NOTHING);
      }
      assert ReadSuffix(tokens, clauses[i], here) == Some(Suffix(suffix, step));
      UnionTwice(marks, was, step);
      UnionTwice(step, NOTHING, NOTHING);
      found := Union(was, step);
    }
    if suffix < |tokens| && At(tokens, suffix) != "WHERE" { return false, marked; }
    ok := true;
  }

  // ---- Columns and constraints ----

  method MarkReferences(tokens: Tokens, i: nat, marks: Marks) returns (next: int, marked: Marks)
    ensures next >= 0 <==> ReadReferences(tokens, i).Some?
    ensures next >= 0 ==>
      next == ReadReferences(tokens, i).value.next && marked == Union(marks, ReadReferences(tokens, i).value.marks)
  {
    next, marked := MarkName(tokens, i + 1, marks);
    if next < 0 { return; }
    MarkedToo(marks, Dots(tokens, i + 1, next), Mark(tokens, next));
    if At(tokens, next) == "(" { marked := marked.(structural := marked.structural + {next}); }
  }

  lemma MarkedToo(marks: Marks, dots: set<int>, opens: set<int>)
    ensures
      var marked := Union(marks, Marks({}, dots, {}));
      marked.(structural := marked.structural + opens) == Union(marks, Marks(opens, dots, {}))
    ensures opens == {} ==> Union(marks, Marks({}, dots, {})) == Union(marks, Marks(opens, dots, {}))
  {
    assert forall s: set<int> :: s + {} == s;
  }

  method MarkOpen(tokens: Tokens, i: int, marks: Marks) returns (marked: Marks)
    ensures marked == Union(marks, Marks(Mark(tokens, i), {}, {}))
  {
    marked := marks;
    assert forall s: set<int> :: s + {} == s;
    if At(tokens, i) == "(" { marked := marked.(structural := marked.structural + {i}); }
  }

  /** The body of the loop over clauses. */
  method MarkClause(tokens: Tokens, closing: map<int, int>, i: nat, marks: Marks) returns (next: int, marked: Marks)
    requires Matched(tokens, closing)
    ensures next >= 0 <==> ReadClause(tokens, i).Some?
    ensures next >= 0 ==> next == ReadClause(tokens, i).value.next && marked == Union(marks, ReadClause(tokens, i).value.marks)
  {
    hide Union, Close, NameEnd, Mark, ReadReferences;
    var token := At(tokens, i);
    next, marked := i + 1, marks;
    UnionTwice(marks, NOTHING, NOTHING);
    if token == "REFERENCES" {
      next, marked := MarkReferences(tokens, i, marks);
    } else if token == "GENERATED" {
      var as_ :=
        if At(tokens, i + 1) == "ALWAYS" then i + 2
        else if At(tokens, i + 1) == "BY" && At(tokens, i + 2) == "DEFAULT" then i + 3
        else -1;
      if as_ < 0 || At(tokens, as_) != "AS" { return -1, marks; }
      next := if At(tokens, as_ + 1) == "IDENTITY" then as_ + 2 else as_ + 1;
      marked := MarkOpen(tokens, next, marks);
    } else if token == "(" {
      next := closing[i] + 1;
    } else if
      || token == "CHECK" || token == "UNIQUE"
      || (token == "KEY" && (At(tokens, i - 1) == "PRIMARY" || At(tokens, i - 1) == "FOREIGN"))
    {
      marked := MarkOpen(tokens, i + 1, marks);
    }
  }

  lemma ClausesUnfold(tokens: Tokens, i: nat, next: int)
    ensures ClausesMarks(tokens, i, next) ==
      if i >= next then Some(NOTHING)
      else if ReadClause(tokens, i).None? then None
      else Also(ReadClause(tokens, i).value.marks, ClausesMarks(tokens, ReadClause(tokens, i).value.next, next))
  {
    hide ReadClause, Also;
  }

  lemma AlsoMeans(a: Marks, rest: Option<Marks>)
    ensures Also(a, rest) == if rest.Some? then Some(Union(a, rest.value)) else None
  {
  }

  /** Marks so far, then a part, then the rest. */
  lemma AlsoThen(marks: Marks, part: Marks, rest: Option<Marks>)
    ensures Also(marks, Also(part, rest)) == Also(Union(marks, part), rest)
  {
    hide Union;
    if rest.Some? { UnionTwice(marks, part, rest.value); }
  }

  method MarkClauses(tokens: Tokens, closing: map<int, int>, first: nat, end: int, marks: Marks) returns (ok: bool, marked: Marks)
    requires Matched(tokens, closing)
    ensures (if ok then Some(marked) else None) == Also(marks, ClausesMarks(tokens, first, end))
  {
    hide *;
    var i: int := first;
    marked := marks;
    while i < end
      invariant i >= 0 && Also(marked, ClausesMarks(tokens, i, end)) == Also(marks, ClausesMarks(tokens, first, end))
      decreases end - i
    {
      ClausesUnfold(tokens, i, end);
      AlsoMeans(marked, None);
      var next, after := MarkClause(tokens, closing, i, marked);
      if next < 0 { return false, marked; }
      AlsoThen(marked, ReadClause(tokens, i).value.marks, ClausesMarks(tokens, next, end));
      i, marked := next, after;
    }
    ClausesUnfold(tokens, i, end);
    AlsoMeans(marked, Some(NOTHING));
    UnionTwice(marked, NOTHING, NOTHING);
    ok := true;
  }

  method MarkNamedClauses(tokens: Tokens, closing: map<int, int>, first: nat, end: int, marks: Marks) returns (ok: bool, marked: Marks)
    requires Matched(tokens, closing)
    ensures (if ok then Some(marked) else None) == Also(marks, NamedClauses(tokens, first, end))
  {
    hide IsIdentifier, ClausesMarks, Union;
    var index := first;
    if At(tokens, index) == "CONSTRAINT" {
      if !IsIdentifier(At(tokens, index + 1)) { return false, marks; }
      index := index + 2;
    }
    ok, marked := MarkClauses(tokens, closing, index, end, marks);
  }

  /** One column or constraint. */
  method MarkColumn(tokens: Tokens, closing: map<int, int>, column: nat, end: int, marks: Marks) returns (ok: bool, marked: Marks)
    requires Matched(tokens, closing)
    ensures (if ok then Some(marked) else None) == Also(marks, ColumnMarks(tokens, column, end))
  {
    hide IsIdentifier, NamedClauses, TypeMarks, Union;
    if At(tokens, column) in CONSTRAINTS {
      ok, marked := MarkNamedClauses(tokens, closing, column, end, marks);
      return;
    }
    if !IsIdentifier(At(tokens, column)) { return false, marks; }
    ok, marked := MarkType(tokens, closing, column + 1, marks);
    if !ok { return; }
    var index, _ := MarkName(tokens, column + 1, marked);
    TypeNamed(tokens, column + 1);
    AlsoThen(marks, TypeMarks(tokens, column + 1).value, NamedClauses(tokens, index, end));
    ok, marked := MarkNamedClauses(tokens, closing, index, end, marked);
  }

  lemma TypeNamed(tokens: Tokens, start: nat)
    ensures TypeMarks(tokens, start).Some? ==> NameEnd(tokens, start) >= 0
  {
  }

  method MarkItem(tokens: Tokens, closing: map<int, int>, start: nat, end: int, alter: bool, marks: Marks)
    returns (ok: bool, marked: Marks)
    requires Matched(tokens, closing)
    ensures (if ok then Some(marked) else None) == Also(marks, ItemMarks(tokens, start, end, alter))
  {
    hide ColumnMarks, Union, IfNotExists;
    var column := start;
    if alter {
      if At(tokens, column) != "ADD" { return false, marks; }
      column := column + 1;
      if At(tokens, column) == "COLUMN" { column := column + 1; }
      if IfNotExists(tokens, column) { column := column + 3; }
    }
    ok, marked := MarkColumn(tokens, closing, column, end, marks);
  }

  lemma ItemStep(tokens: Tokens, i: nat, end: int)
    ensures ItemEnd(tokens, i, end) ==
      if i >= end || At(tokens, i) == "," then i
      else if At(tokens, i) == "(" then ItemEnd(tokens, Close(tokens, i) + 1, end)
      else ItemEnd(tokens, i + 1, end)
  {
    hide Close;
  }

  lemma ItemsUnfold(tokens: Tokens, start: nat, end: int, alter: bool)
    ensures ItemsMarks(tokens, start, end, alter) ==
      if start >= end then Some(NOTHING)
      else
        var next := ItemEnd(tokens, start, end);
        var item := ItemMarks(tokens, start, next, alter);
        if item.None? then None else Also(item.value, ItemsMarks(tokens, next + 1, end, alter))
  {
    hide ItemMarks, Also, ItemEnd;
  }

  /** The loop over columns, constraints and actions. */
  method MarkItems(tokens: Tokens, closing: map<int, int>, first: nat, end: int, alter: bool, marks: Marks)
    returns (ok: bool, marked: Marks)
    requires Matched(tokens, closing)
    ensures (if ok then Some(marked) else None) == Also(marks, ItemsMarks(tokens, first, end, alter))
  {
    hide *;
    hide Close;
    var start: int := first;
    marked := marks;
    while start < end
      invariant start >= 0 && Also(marked, ItemsMarks(tokens, start, end, alter)) == Also(marks, ItemsMarks(tokens, first, end, alter))
      decreases end - start
    {
      var next := start;
      while next < end && At(tokens, next) != ","
        invariant start <= next && ItemEnd(tokens, start, end) == ItemEnd(tokens, next, end)
        decreases end - next
      {
        ItemStep(tokens, next, end);
        MatchedAt(tokens, closing, next);
        next := if At(tokens, next) == "(" then closing[next] + 1 else next + 1;
      }
      ItemStep(tokens, next, end);
      ItemsUnfold(tokens, start, end, alter);
      var item, after := MarkItem(tokens, closing, start, next, alter, marked);
      AlsoMeans(marked, ItemMarks(tokens, start, next, alter));
      AlsoMeans(marked, None);
      if !item { return false, marked; }
      AlsoThen(marked, ItemMarks(tokens, start, next, alter).value, ItemsMarks(tokens, next + 1, end, alter));
      start, marked := next + 1, after;
    }
    ItemsUnfold(tokens, start, end, alter);
    AlsoMeans(marked, Some(NOTHING));
    UnionTwice(marked, NOTHING, NOTHING);
    ok := true;
  }

  lemma MatchedAt(tokens: Tokens, closing: map<int, int>, i: nat)
    requires Matched(tokens, closing)
    ensures At(tokens, i) == "(" ==> i in closing && closing[i] == Close(tokens, i) > i
  {
    hide Close;
  }

  // ---- Headers ----

  method MarkIndexHeader(tokens: Tokens) returns (header: Option<Header>)
    ensures header == IndexHeader(tokens)
  {
    hide IsIdentifier, NameEnd, IfNotExists, Dots, Union;
    var first := if At(tokens, 1) == "UNIQUE" then 3 else 2;
    var name := if IfNotExists(tokens, first) then first + 3 else first;
    var on, marks := MarkName(tokens, name, NOTHING);
    if on < 0 || At(tokens, on) != "ON" { return None; }
    var open;
    open, marks := MarkName(tokens, on + 1, marks);
    if open < 0 { return None; }
    ghost var target := open;
    if At(tokens, open) == "USING" {
      if !IsIdentifier(At(tokens, open + 1)) { return None; }
      open := open + 2;
    }
    if At(tokens, open) != "(" { return None; }
    TwoNames(Dots(tokens, name, on), Dots(tokens, on + 1, target), open);
    header := Some(Header(open, marks.(structural := marks.structural + {open})));
  }

  lemma TwoNames(first: set<int>, second: set<int>, open: int)
    ensures
      var marks := Union(Union(NOTHING, Marks({}, first, {})), Marks({}, second, {}));
      marks.(structural := marks.structural + {open}) == Marks({open}, first + second, {})
  {
    assert forall s: set<int> :: {} + s == s && s + {} == s;
  }

  method MarkHeader(tokens: Tokens) returns (header: Option<Header>)
    ensures header == HeaderOf(tokens)
  {
    hide IsIdentifier, NameEnd, IfNotExists, IndexHeader;
    if IsIndex(tokens) {
      header := MarkIndexHeader(tokens);
    } else if At(tokens, 0) == "CREATE" {
      var open, marks := MarkName(tokens, if IfNotExists(tokens, 2) then 5 else 2, NOTHING);
      if open < 0 || At(tokens, open) != "(" { return None; }
      assert forall s: set<int> :: {} + s == s;
      header := Some(Header(open, marks.(structural := marks.structural + {open})));
    } else {
      var add, marks := MarkName(tokens, 2, NOTHING);
      if add < 0 || At(tokens, add) != "ADD" { return None; }
      UnionTwice(NameMarks(tokens, 2, add), NOTHING, NOTHING);
      header := Some(Header(-1, marks));
    }
  }

  lemma BodyUnfold(tokens: Tokens)
    ensures BodyMarks(tokens) ==
      if HeaderOf(tokens).None? then None
      else
        var header := HeaderOf(tokens).value;
        Also(header.marks,
          if IsIndex(tokens) then
            if KeysAllowed(tokens, header.open + 1, Close(tokens, header.open))
            then SuffixMarks(tokens, Close(tokens, header.open) + 1) else None
          else if header.open >= 0 then ItemsMarks(tokens, header.open + 1, Close(tokens, header.open), false)
          else ItemsMarks(tokens, NameEnd(tokens, 2), |tokens|, true))
  {
    hide HeaderOf, IsIndex, KeysAllowed, SuffixMarks, ItemsMarks, NameEnd, Close, Also;
  }

  method MarkBody(tokens: Tokens, closing: map<int, int>) returns (marks: Option<Marks>)
    requires Matched(tokens, closing)
    ensures marks == BodyMarks(tokens)
  {
    hide *;
    BodyUnfold(tokens);
    var header := MarkHeader(tokens);
    if header.None? { return None; }
    var open, found := header.value.open, header.value.marks;
    AlsoMeans(found, None);
    var ok, marked;
    if open >= 0 { MatchedAt(tokens, closing, open); }
    if IsIndex(tokens) {
      var keys := ReadKeys(tokens, closing, open + 1, closing[open]);
      if !keys { return None; }
      ok, marked := MarkSuffix(tokens, closing, closing[open] + 1, found);
      AlsoMeans(found, SuffixMarks(tokens, closing[open] + 1));
    } else if open >= 0 {
      ok, marked := MarkItems(tokens, closing, open + 1, closing[open], false, found);
    } else {
      var start, _ := MarkName(tokens, 2, found);
      ok, marked := MarkItems(tokens, closing, start, |tokens|, true, found);
    }
    marks := if ok then Some(marked) else None;
  }

  // ---- Expressions ----

  lemma AsStep(tokens: Tokens, i: nat, end: int)
    ensures SeekAs(tokens, i, end) ==
      if i >= end || At(tokens, i) == "AS" then i
      else if At(tokens, i) == "(" then SeekAs(tokens, Close(tokens, i) + 1, end)
      else SeekAs(tokens, i + 1, end)
  {
    hide Close;
  }

  lemma CastMeans(tokens: Tokens, i: nat)
    ensures
      var as_ := SeekAs(tokens, i + 2, Close(tokens, i + 1));
      CastMarks(tokens, i) ==
        if as_ == Close(tokens, i + 1) then None
        else if At(tokens, as_ + 2) == "." && (At(tokens, as_ + 1) != "PG_CATALOG" || At(tokens, as_ + 4) == ".") then None
        else TypeMarks(tokens, as_ + 1)
  {
    hide Close, SeekAs, TypeMarks;
  }

  /** The type after a CAST's own AS. */
  method MarkCast(tokens: Tokens, closing: map<int, int>, i: nat, marks: Marks) returns (ok: bool, marked: Marks)
    requires Matched(tokens, closing) && At(tokens, i + 1) == "("
    ensures ok <==> CastMarks(tokens, i).Some?
    ensures ok ==> marked == Union(marks, CastMarks(tokens, i).value)
  {
    hide *;
    MatchedAt(tokens, closing, i + 1);
    CastMeans(tokens, i);
    var end: int, as_ := closing[i + 1], i + 2;
    while as_ < end && At(tokens, as_) != "AS"
      invariant as_ >= i + 2 && SeekAs(tokens, i + 2, end) == SeekAs(tokens, as_, end)
      decreases end - as_
    {
      AsStep(tokens, as_, end);
      MatchedAt(tokens, closing, as_);
      as_ := if At(tokens, as_) == "(" then closing[as_] + 1 else as_ + 1;
    }
    AsStep(tokens, as_, end);
    if as_ == end { return false, marks; }
    if At(tokens, as_ + 2) == "." && (At(tokens, as_ + 1) != "PG_CATALOG" || At(tokens, as_ + 4) == ".") { return false, marks; }
    ok, marked := MarkType(tokens, closing, as_ + 1, marks);
  }

  lemma ExpressionsUnfold(tokens: Tokens, i: nat, marks: Marks)
    ensures i >= |tokens| ==> ExpressionsAllowed(tokens, i, marks)
    ensures i < |tokens| ==> (ExpressionsAllowed(tokens, i, marks) <==>
      var cast := if IsCast(tokens, i) then CastMarks(tokens, i) else Some(NOTHING);
      && cast.Some? && TokenAllowed(tokens, i, Union(marks, cast.value))
      && ExpressionsAllowed(tokens, i + 1, Union(marks, cast.value)))
  {
    hide IsCast, CastMarks, TokenAllowed, Union;
  }

  lemma CastOpens(tokens: Tokens, i: nat)
    ensures IsCast(tokens, i) ==> At(tokens, i + 1) == "("
  {
  }

  /** The whole check of one statement. */
  method ExpandOnlyExpressions(tokens: Tokens) returns (ok: bool)
    ensures ok <==> Admitted(tokens)
  {
    hide *;
    AdmittedMeans(tokens);
    var closing := MatchParentheses(tokens);
    if closing.None? { return false; }
    var body := MarkBody(tokens, closing.value);
    if body.None? { return false; }
    var marks := body.value;
    for i := 0 to |tokens|
      invariant ExpressionsAllowed(tokens, 0, body.value) <==> ExpressionsAllowed(tokens, i, marks)
    {
      ExpressionsUnfold(tokens, i, marks);
      CastOpens(tokens, i);
      UnionTwice(marks, NOTHING, NOTHING);
      if IsCast(tokens, i) {
        var cast;
        cast, marks := MarkCast(tokens, closing.value, i, marks);
        if !cast { return false; }
      }
      if !TokenAllowed(tokens, i, marks) { return false; }
    }
    ExpressionsUnfold(tokens, |tokens|, marks);
    ok := true;
  }

  lemma AdmittedMeans(tokens: Tokens)
    ensures Admitted(tokens) <==>
      && Paired(tokens) && Balanced(tokens, 0, 0) && BodyMarks(tokens).Some?
      && ExpressionsAllowed(tokens, 0, BodyMarks(tokens).value)
  {
  }
}
