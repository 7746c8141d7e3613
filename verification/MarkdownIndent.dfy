/** Indented code, blanked line by line. */
module MarkdownIndent {
  import opened Basics
  import opened TextSplit
  import opened MarkdownMasks

  /** Columns taken by a prefix, tabs going to the next multiple of four. */
  function Columns(prefix: string): (n: nat)
    ensures n >= |prefix|
    decreases |prefix|
  {
    if prefix == "" then 0
    else
      var n := Columns(prefix[..|prefix| - 1]);
      if prefix[|prefix| - 1] == '\t' then n + 4 - n % 4 else n + 1
  }

  /** The spaces and tabs a line starts with. */
  function Lead(line: string): (n: nat)
    ensures n <= |line| && (n < |line| ==> line[n] != ' ' && line[n] != '\t')
    ensures forall i :: 0 <= i < n ==> line[i] == ' ' || line[i] == '\t'
    decreases |line|
  {
    if line == "" || (line[0] != ' ' && line[0] != '\t') then 0 else 1 + Lead(line[1..])
  }

  function Indentation(line: string): nat { Columns(line[..Lead(line)]) }

  function Digits(s: string): (n: nat)
    ensures n <= |s|
    decreases |s|
  {
    if s == "" || !IsDigit(s[0]) then 0 else 1 + Digits(s[1..])
  }

  /** The length of a list marker: a bullet, or digits and a period or parenthesis. */
  function ListMarker(s: string): (n: nat)
    ensures n <= |s|
  {
    var n := Digits(s);
    if s != "" && s[0] in "-+*" then 1
    else if 0 < n < |s| && s[n] in ".)" then n + 1
    else 0
  }

  /** A surrogate pair. The code units from U+D800 to U+DFFF, which no `char` is, are stood for by the characters from
  0x10000 to 0x107ff. */
  predicate IsPair(line: string, i: nat) {
    && i + 1 < |line|
    && 0x10000 <= line[i] as int < 0x10400 <= line[i + 1] as int < 0x10800
  }

  /** The column where the content of a list item starts; one more if it starts with a surrogate pair, of which the
  pattern takes both units and the slice drops one. */
  function ItemContent(line: string): Option<nat> {
    var spaces := Run(line, ' ');
    var mark := ListMarker(line[spaces..]);
    var gap := Lead(line[spaces + mark..]);
    var content := spaces + mark + gap;
    if mark == 0 || gap == 0 || content == |line| || IsBlank(line[content]) then None
    else Some(Columns(line[..content]) + if IsPair(line, content) then 1 else 0)
  }

  /** An ATX heading: at most three spaces, one to six hashes, white space. */
  predicate IsHeading(line: string) {
    var rest := line[Min(Run(line, ' '), 3)..];
    var n := Run(rest, '#');
    1 <= n <= 6 && n < |rest| && IsBlank(rest[n])
  }

  /** The least indentation of code at `previous + 1`, found by looking back for a list item. */
  function CodeIndent(lines: seq<string>, previous: int, indentation: nat): (n: nat)
    requires previous < |lines|
    ensures n >= 4
    decreases previous
  {
    if previous < 0 then 4
    else if AllBlank(lines[previous]) then CodeIndent(lines, previous - 1, indentation)
    else
      match ItemContent(lines[previous])
      case None =>
        if IsHeading(lines[previous]) || Indentation(lines[previous]) == 0 then 4 else CodeIndent(lines, previous - 1, indentation)
      case Some(content) => if content <= indentation then content + 4 else 4
  }

  /** One line: what it becomes and the indentation of the code block open after it. */
  function IndentStep(lines: seq<string>, i: nat, active: Option<nat>): (string, Option<nat>)
    requires i < |lines|
  {
    var line := lines[i];
    if AllBlank(line) then (line, active)
    else
      var indentation := Indentation(line);
      if active.Some? && indentation >= active.value then (Blank(|line|), active)
      else if indentation < 4 then (line, None)
      else if i > 0 && !AllBlank(lines[i - 1]) then (line, None)
      else
        var least := CodeIndent(lines, i - 1, indentation);
        if indentation >= least then (Blank(|line|), Some(least)) else (line, None)
  }

  function UnindentedLines(lines: seq<string>, i: nat, active: Option<nat>): (r: seq<string>)
    requires i <= |lines|
    ensures |r| == |lines| - i
    decreases |lines| - i
  {
    if i == |lines| then []
    else
      var (line, next) := IndentStep(lines, i, active);
      [line] + UnindentedLines(lines, i + 1, next)
  }

  function Unindented(markdown: string): string { Join(UnindentedLines(Split(markdown, '\n'), 0, None), '\n') }

  method FindCodeIndent(lines: seq<string>, index: nat, indentation: nat) returns (codeIndent: nat)
    requires index < |lines|
    ensures codeIndent == CodeIndent(lines, index - 1, indentation)
  {
    hide AllBlank, ItemContent, IsHeading, Indentation;
    codeIndent := 4;
    var previous: int := index - 1;
    while previous >= 0
      invariant -1 <= previous < |lines|
      invariant codeIndent == 4
      invariant CodeIndent(lines, index - 1, indentation) == CodeIndent(lines, previous, indentation)
    {
      if AllBlank(lines[previous]) { previous := previous - 1; continue; }
      var item := ItemContent(lines[previous]);
      if item.None? {
        if IsHeading(lines[previous]) || Indentation(lines[previous]) == 0 { break; }
        previous := previous - 1;
        continue;
      }
      if item.value <= indentation { codeIndent := item.value + 4; }
      break;
    }
  }

  method MaskIndentedCode(markdown: string) returns (r: string)
    ensures r == Unindented(markdown)
  {
    hide AllBlank, Indentation, CodeIndent, Split, Join;
    var lines, active, kept: seq<string> := Split(markdown, '\n'), None, [];
    for i := 0 to |lines|
      invariant |kept| == i
      invariant UnindentedLines(lines, 0, None) == kept + UnindentedLines(lines, i, active)
    {
      var line := lines[i];
      var (masked, next) := IndentStep(lines, i, active);
      assert kept + ([masked] + UnindentedLines(lines, i + 1, next)) == kept + [masked] + UnindentedLines(lines, i + 1, next);
      if AllBlank(line) { kept := kept + [line]; continue; }
      var indentation := Indentation(line);
      if active.Some? && indentation >= active.value { kept := kept + [Blank(|line|)]; continue; }
      active := None;
      if indentation < 4 || (i > 0 && !AllBlank(lines[i - 1])) { kept := kept + [line]; continue; }
      var codeIndent := FindCodeIndent(lines, i, indentation);
      if indentation >= codeIndent {
        active := Some(codeIndent);
        kept := kept + [Blank(|line|)];
      } else {
        kept := kept + [line];
      }
    }
    assert kept + [] == kept;
    r := Join(kept, '\n');
  }

  // ---- What is blanked ----

  lemma {:induction false} UnindentedLinesBlanked(lines: seq<string>, i: nat, active: Option<nat>)
    requires i <= |lines|
    ensures LinesBlanked(UnindentedLines(lines, i, active), lines[i..])
    decreases |lines| - i
  {
    hide AllBlank, Indentation, CodeIndent;
    if i < |lines| {
      var (line, next) := IndentStep(lines, i, active);
      UnindentedLinesBlanked(lines, i + 1, next);
      assert lines[i..] == [lines[i]] + lines[i + 1..];
    }
  }

  /** Blanking indented code keeps the length and every newline. */
  lemma UnindentedBlanks(markdown: string)
    ensures Blanked(Unindented(markdown), markdown)
  {
    var lines := Split(markdown, '\n');
    UnindentedLinesBlanked(lines, 0, None);
    SplitParts(markdown, '\n');
    SplitJoins(markdown, '\n');
    assert lines[0..] == lines;
    hide UnindentedLines, Split, Join, Blanked, LinesBlanked;
    JoinBlanked(UnindentedLines(lines, 0, None), lines);
  }

  /** Line `i` belongs to a block of code that starts at `start`: nothing or a blank line before it, and every line of
  it is blank or indented at least four columns. */
  ghost predicate InCodeFrom(lines: seq<string>, start: nat, i: nat) {
    && start <= i < |lines|
    && (start == 0 || AllBlank(lines[start - 1]))
    && !AllBlank(lines[start]) && !AllBlank(lines[i])
    && forall k :: start <= k <= i ==> AllBlank(lines[k]) || Indentation(lines[k]) >= 4
  }

  /** A block is open before line `i`, from `start`. */
  ghost predicate OpenFrom(lines: seq<string>, start: nat, i: nat) {
    && start < i <= |lines|
    && (start == 0 || AllBlank(lines[start - 1]))
    && !AllBlank(lines[start])
    && forall k :: start <= k < i ==> AllBlank(lines[k]) || Indentation(lines[k]) >= 4
  }

  lemma {:induction false} BlankedFrom(lines: seq<string>, i: nat, active: Option<nat>, start: nat, k: nat)
    requires i <= k < |lines|
    requires active.Some? ==> active.value >= 4 && OpenFrom(lines, start, i)
    requires UnindentedLines(lines, i, active)[k - i] != lines[k]
    ensures exists s :: InCodeFrom(lines, s, k)
    decreases |lines| - i
  {
    hide AllBlank, Indentation, CodeIndent;
    var (line, next) := IndentStep(lines, i, active);
    if i == k {
      if active.Some? && Indentation(lines[i]) >= active.value {
        assert InCodeFrom(lines, start, i);
      } else {
        assert InCodeFrom(lines, i, i);
      }
    } else {
      var from := if active.Some? && next == active then start else i;
      BlankedFrom(lines, i + 1, next, from, k);
    }
  }

  /** Every blanked line stands in a block that begins after a blank line and is nowhere indented less than four
  columns. */
  lemma BlankedIsCode(markdown: string, k: nat)
    requires k < |Split(markdown, '\n')|
    requires UnindentedLines(Split(markdown, '\n'), 0, None)[k] != Split(markdown, '\n')[k]
    ensures exists s :: InCodeFrom(Split(markdown, '\n'), s, k)
  {
    hide UnindentedLines, InCodeFrom, Split;
    BlankedFrom(Split(markdown, '\n'), 0, None, 0, k);
  }

  // ---- Without list items ----

  predicate NoItems(lines: seq<string>) { forall j :: 0 <= j < |lines| ==> ItemContent(lines[j]).None? }

  lemma {:induction false} PlainCodeIndent(lines: seq<string>, previous: int, indentation: nat)
    requires previous < |lines| && NoItems(lines)
    ensures CodeIndent(lines, previous, indentation) == 4
    decreases previous
  {
    hide ItemContent, AllBlank, IsHeading, Indentation;
    if previous >= 0 { PlainCodeIndent(lines, previous - 1, indentation); }
  }

  lemma BlankIsBlank(line: string)
    requires line == Blank(|line|)
    ensures AllBlank(line)
  {
  }

  /** One line of a text without list items, with four columns the least indentation of an open block. */
  lemma PlainStep(lines: seq<string>, i: nat, active: Option<nat>)
    requires i < |lines| && NoItems(lines) && (active.None? || active == Some(4))
    ensures
      var code := !AllBlank(lines[i]) && Indentation(lines[i]) >= 4 && (active.Some? || i == 0 || AllBlank(lines[i - 1]));
      && (code <==> IndentStep(lines, i, active).0 != lines[i])
      && (AllBlank(lines[i]) ==> IndentStep(lines, i, active).1 == active)
      && (!AllBlank(lines[i]) ==> IndentStep(lines, i, active).1 == if code then Some(4) else None)
  {
    PlainCodeIndent(lines, i - 1, Indentation(lines[i]));
    if lines[i] == Blank(|lines[i]|) { BlankIsBlank(lines[i]); }
    hide ItemContent, AllBlank, CodeIndent, Indentation;
  }

  lemma {:induction false} CodeBlankedFrom(lines: seq<string>, i: nat, active: Option<nat>, s: nat, k: nat)
    requires i <= k && NoItems(lines) && InCodeFrom(lines, s, k)
    requires (i <= s && active.None?) || active == Some(4)
    ensures UnindentedLines(lines, i, active)[k - i] != lines[k]
    decreases k - i
  {
    hide *;
    InCodeAt(lines, s, k, i);
    PlainStep(lines, i, active);
    LinesUnfold(lines, i, active);
    if i < k { CodeBlankedFrom(lines, i + 1, IndentStep(lines, i, active).1, s, k); }
  }

  lemma LinesUnfold(lines: seq<string>, i: nat, active: Option<nat>)
    requires i < |lines|
    ensures UnindentedLines(lines, i, active) == [IndentStep(lines, i, active).0] + UnindentedLines(lines, i + 1, IndentStep(lines, i, active).1)
  {
    hide IndentStep;
  }

  lemma InCodeAt(lines: seq<string>, s: nat, k: nat, i: nat)
    requires InCodeFrom(lines, s, k) && i <= k
    ensures k < |lines| && s <= k && !AllBlank(lines[k])
    ensures s <= i ==> AllBlank(lines[i]) || Indentation(lines[i]) >= 4
    ensures i == s ==> !AllBlank(lines[i]) && (i == 0 || AllBlank(lines[i - 1]))
  {
    hide AllBlank, Indentation;
  }

  /** In a text without list items a line is blanked exactly if it stands in a block of lines indented at least four
  columns, blank ones apart, that begins the text or follows a blank line. */
  lemma CodeExactly(markdown: string, k: nat)
    requires k < |Split(markdown, '\n')| && NoItems(Split(markdown, '\n'))
    ensures UnindentedLines(Split(markdown, '\n'), 0, None)[k] != Split(markdown, '\n')[k] <==>
      exists s :: InCodeFrom(Split(markdown, '\n'), s, k)
  {
    var lines := Split(markdown, '\n');
    hide UnindentedLines, InCodeFrom, Split, NoItems;
    if UnindentedLines(lines, 0, None)[k] != lines[k] { BlankedIsCode(markdown, k); }
    if s: nat :| InCodeFrom(lines, s, k) { CodeBlankedFrom(lines, 0, None, s, k); }
  }

  // ---- Blocks of code, list items or not ----

  /** The least indentation of a block of code that starts at line `i`. */
  function Least(lines: seq<string>, i: nat): (n: nat)
    requires i < |lines|
    ensures n >= 4
  {
    CodeIndent(lines, i - 1, Indentation(lines[i]))
  }

  /** A line that starts a block unless it stands inside one: nothing or a blank line before it, and enough indentation. */
  predicate Starts(lines: seq<string>, i: nat) {
    && i < |lines| && !AllBlank(lines[i]) && (i == 0 || AllBlank(lines[i - 1]))
    && Indentation(lines[i]) >= Least(lines, i)
  }

  /** A line that goes on with the block that starts at `s`. */
  predicate GoesOn(lines: seq<string>, s: nat, j: nat)
    requires s < |lines| && j < |lines|
  {
    AllBlank(lines[j]) || Indentation(lines[j]) >= Least(lines, s)
  }

  function BlockEnd(lines: seq<string>, s: nat, j: nat): (e: nat)
    requires s < |lines| && j <= |lines|
    ensures j <= e <= |lines| && (forall i :: j <= i < e ==> GoesOn(lines, s, i)) && (e < |lines| ==> !GoesOn(lines, s, e))
    decreases |lines| - j
  {
    if j == |lines| || !GoesOn(lines, s, j) then j else BlockEnd(lines, s, j + 1)
  }

  type Block = (nat, nat)

  /** The blocks from line `i` on, ends excluded. */
  function Blocks(lines: seq<string>, i: nat): seq<Block>
    requires i <= |lines|
    decreases |lines| - i
  {
    if i == |lines| then []
    else if Starts(lines, i) then [(i, BlockEnd(lines, i, i + 1))] + Blocks(lines, BlockEnd(lines, i, i + 1))
    else Blocks(lines, i + 1)
  }

  predicate InBlocks(blocks: seq<Block>, k: int) { exists b :: 0 <= b < |blocks| && blocks[b].0 <= k < blocks[b].1 }

  lemma InBlocksFirst(first: Block, rest: seq<Block>, k: int)
    ensures InBlocks([first] + rest, k) <==> first.0 <= k < first.1 || InBlocks(rest, k)
  {
    var all := [first] + rest;
    if first.0 <= k < first.1 { assert all[0] == first; }
    if b :| 0 <= b < |rest| && rest[b].0 <= k < rest[b].1 { assert all[b + 1] == rest[b]; }
    if b :| 0 <= b < |all| && all[b].0 <= k < all[b].1 {
      if b > 0 { assert all[b] == rest[b - 1]; }
    }
  }

  lemma NoBlocks(k: int)
    ensures !InBlocks([], k)
  {
  }

  lemma {:induction false} BlocksLater(lines: seq<string>, i: nat, k: int)
    requires i <= |lines|
    ensures InBlocks(Blocks(lines, i), k) ==> i <= k < |lines|
    decreases |lines| - i
  {
    hide Starts, GoesOn;
    if i == |lines| {
      NoBlocks(k);
    } else if Starts(lines, i) {
      var e := BlockEnd(lines, i, i + 1);
      BlocksLater(lines, e, k);
      InBlocksFirst((i, e), Blocks(lines, e), k);
    } else {
      BlocksLater(lines, i + 1, k);
    }
  }

  /** One line outside a block. */
  lemma OutsideStep(lines: seq<string>, i: nat)
    requires i < |lines|
    ensures IndentStep(lines, i, None) == if Starts(lines, i) then (Blank(|lines[i]|), Some(Least(lines, i))) else (lines[i], None)
    ensures Starts(lines, i) ==> Blank(|lines[i]|) != lines[i]
  {
    if lines[i] == Blank(|lines[i]|) { BlankIsBlank(lines[i]); }
    hide AllBlank, Indentation, CodeIndent;
  }

  /** One line behind the start of a block: it goes on, or the line is read as if there were no block. */
  lemma InsideStep(lines: seq<string>, s: nat, i: nat)
    requires s < i < |lines|
    ensures GoesOn(lines, s, i) ==>
      IndentStep(lines, i, Some(Least(lines, s))) == (if AllBlank(lines[i]) then lines[i] else Blank(|lines[i]|), Some(Least(lines, s)))
    ensures GoesOn(lines, s, i) && !AllBlank(lines[i]) ==> Blank(|lines[i]|) != lines[i]
    ensures !GoesOn(lines, s, i) ==> IndentStep(lines, i, Some(Least(lines, s))) == IndentStep(lines, i, None)
  {
    if lines[i] == Blank(|lines[i]|) { BlankIsBlank(lines[i]); }
    hide AllBlank, Indentation, CodeIndent;
  }

  lemma {:induction false} InsideBlock(lines: seq<string>, s: nat, i: nat, k: nat)
    requires s < i <= |lines| && i <= k < |lines|
    ensures
      var e, masked := BlockEnd(lines, s, i), UnindentedLines(lines, i, Some(Least(lines, s)));
      if k < e then masked[k - i] != lines[k] <==> !AllBlank(lines[k])
      else masked[k - i] == UnindentedLines(lines, e, None)[k - e]
    decreases |lines| - i
  {
    var active := Some(Least(lines, s));
    InsideStep(lines, s, i);
    LinesUnfold(lines, i, active);
    LinesUnfold(lines, i, None);
    hide AllBlank, Indentation, CodeIndent, IndentStep, UnindentedLines, Least, GoesOn;
    if GoesOn(lines, s, i) && i < k { InsideBlock(lines, s, i + 1, k); }
  }

  lemma BlocksUnfold(lines: seq<string>, i: nat)
    requires i < |lines|
    ensures Starts(lines, i) ==>
      i < BlockEnd(lines, i, i + 1) <= |lines|
      && Blocks(lines, i) == [(i, BlockEnd(lines, i, i + 1))] + Blocks(lines, BlockEnd(lines, i, i + 1))
    ensures !Starts(lines, i) ==> Blocks(lines, i) == Blocks(lines, i + 1)
  {
    hide Starts, GoesOn;
  }

  lemma {:induction false} BlockLines(lines: seq<string>, i: nat, k: nat)
    requires i <= k < |lines|
    ensures UnindentedLines(lines, i, None)[k - i] != lines[k] <==> !AllBlank(lines[k]) && InBlocks(Blocks(lines, i), k)
    decreases |lines| - i
  {
    hide *;
    OutsideStep(lines, i);
    LinesUnfold(lines, i, None);
    StartsNotBlank(lines, i);
    BlocksUnfold(lines, i);
    if Starts(lines, i) {
      var e := BlockEnd(lines, i, i + 1);
      InBlocksFirst((i, e), Blocks(lines, e), k);
      if k > i { InsideBlock(lines, i, i + 1, k); }
      if k < e { BlocksLater(lines, e, k); } else { BlockLines(lines, e, k); }
    } else if k > i {
      BlockLines(lines, i + 1, k);
    } else {
      BlocksLater(lines, i + 1, k);
    }
  }

  lemma StartsNotBlank(lines: seq<string>, i: nat)
    ensures Starts(lines, i) ==> i < |lines| && !AllBlank(lines[i])
  {
  }

  /** `blocks` are blocks in order, each as long as its lines go on, and no line could start one outside them. */
  ghost predicate BlocksOf(lines: seq<string>, i: nat, blocks: seq<Block>) {
    && (forall b :: 0 <= b < |blocks| ==>
          i <= blocks[b].0 && Starts(lines, blocks[b].0) && blocks[b].1 == BlockEnd(lines, blocks[b].0, blocks[b].0 + 1))
    && (forall b, c :: 0 <= b < c < |blocks| ==> blocks[b].1 <= blocks[c].0)
    && (forall j :: i <= j < |lines| && Starts(lines, j) ==> InBlocks(blocks, j))
  }

  lemma {:induction false} BlocksFound(lines: seq<string>, i: nat)
    requires i <= |lines|
    ensures BlocksOf(lines, i, Blocks(lines, i))
    decreases |lines| - i
  {
    hide Starts, BlockEnd, InBlocks;
    if i < |lines| {
      if Starts(lines, i) {
        var e := BlockEnd(lines, i, i + 1);
        BlocksFound(lines, e);
        BlocksGrow(lines, i, e, Blocks(lines, e));
      } else {
        BlocksFound(lines, i + 1);
      }
    }
  }

  lemma BlocksGrow(lines: seq<string>, i: nat, e: nat, rest: seq<Block>)
    requires i < |lines| && Starts(lines, i) && e == BlockEnd(lines, i, i + 1) && BlocksOf(lines, e, rest)
    ensures BlocksOf(lines, i, [(i, e)] + rest)
  {
    hide Starts, InBlocks;
    forall j | i <= j < |lines| && Starts(lines, j)
      ensures InBlocks([(i, e)] + rest, j)
    {
      InBlocksFirst((i, e), rest, j);
    }
    hide BlockEnd;
  }

  /** These rules leave no choice. */
  lemma {:induction false} BlocksOnce(lines: seq<string>, i: nat, a: seq<Block>, b: seq<Block>)
    requires BlocksOf(lines, i, a) && BlocksOf(lines, i, b)
    ensures a == b
    decreases |a|
  {
    hide *;
    FirstBlock(lines, i, a, b);
    FirstBlock(lines, i, b, a);
    if a != [] {
      BlocksRest(lines, i, a);
      BlocksRest(lines, i, b);
      BlocksOnce(lines, a[0].1, a[1..], b[1..]);
      assert a == [a[0]] + a[1..] && b == [b[0]] + b[1..];
    }
  }

  lemma OpenBlocks(lines: seq<string>, i: nat, blocks: seq<Block>, b: nat)
    requires BlocksOf(lines, i, blocks) && b < |blocks|
    ensures i <= blocks[b].0 < |lines| && Starts(lines, blocks[b].0)
    ensures blocks[b].0 < blocks[b].1 == BlockEnd(lines, blocks[b].0, blocks[b].0 + 1)
    ensures b > 0 ==> blocks[0].1 <= blocks[b].0
  {
    StartsNotBlank(lines, blocks[b].0);
    hide Starts, InBlocks, GoesOn;
  }

  lemma EveryStart(lines: seq<string>, i: nat, blocks: seq<Block>, j: nat)
    requires BlocksOf(lines, i, blocks) && i <= j < |lines| && Starts(lines, j)
    ensures InBlocks(blocks, j)
  {
    hide Starts, InBlocks, BlockEnd;
  }

  lemma InBlocksAt(blocks: seq<Block>, k: int) returns (b: nat)
    requires InBlocks(blocks, k)
    ensures b < |blocks| && blocks[b].0 <= k < blocks[b].1
  {
    b :| 0 <= b < |blocks| && blocks[b].0 <= k < blocks[b].1;
  }

  lemma FirstBlock(lines: seq<string>, i: nat, a: seq<Block>, b: seq<Block>)
    requires BlocksOf(lines, i, a) && BlocksOf(lines, i, b)
    ensures a != [] ==> b != [] && b[0].0 <= a[0].0 && a[0].0 < |lines| && a[0].1 == BlockEnd(lines, a[0].0, a[0].0 + 1)
  {
    hide *;
    if a != [] {
      OpenBlocks(lines, i, a, 0);
      EveryStart(lines, i, b, a[0].0);
      var c := InBlocksAt(b, a[0].0);
      OpenBlocks(lines, i, b, c);
      OpenBlocks(lines, i, b, 0);
    }
  }

  lemma BlocksApart(lines: seq<string>, i: nat, blocks: seq<Block>, b: nat, c: nat)
    requires BlocksOf(lines, i, blocks) && b < c < |blocks|
    ensures blocks[b].1 <= blocks[c].0
  {
    hide Starts, InBlocks, BlockEnd;
  }

  lemma MakeBlocks(lines: seq<string>, i: nat, blocks: seq<Block>)
    requires forall b :: 0 <= b < |blocks| ==>
      i <= blocks[b].0 && Starts(lines, blocks[b].0) && blocks[b].1 == BlockEnd(lines, blocks[b].0, blocks[b].0 + 1)
    requires forall b, c :: 0 <= b < c < |blocks| ==> blocks[b].1 <= blocks[c].0
    requires forall j :: i <= j < |lines| && Starts(lines, j) ==> InBlocks(blocks, j)
    ensures BlocksOf(lines, i, blocks)
  {
    hide Starts, InBlocks, BlockEnd;
  }

  lemma BlocksRest(lines: seq<string>, i: nat, blocks: seq<Block>)
    requires BlocksOf(lines, i, blocks) && blocks != []
    ensures BlocksOf(lines, blocks[0].1, blocks[1..])
  {
    hide *;
    var first, rest := blocks[0], blocks[1..];
    OpenBlocks(lines, i, blocks, 0);
    forall b | 0 <= b < |rest|
      ensures first.1 <= rest[b].0 < |lines| && Starts(lines, rest[b].0) && rest[b].1 == BlockEnd(lines, rest[b].0, rest[b].0 + 1)
    {
      OpenBlocks(lines, i, blocks, b + 1);
    }
    forall b, c | 0 <= b < c < |rest|
      ensures rest[b].1 <= rest[c].0
    {
      BlocksApart(lines, i, blocks, b + 1, c + 1);
    }
    forall j | first.1 <= j < |lines| && Starts(lines, j)
      ensures InBlocks(rest, j)
    {
      EveryStart(lines, i, blocks, j);
      assert blocks == [first] + rest;
      InBlocksFirst(first, rest, j);
    }
    MakeBlocks(lines, first.1, rest);
  }

  /** Exactly the lines of the blocks are blanked, whatever list items the text has, and the blocks are the only ones
  that meet the rules. */
  lemma CodeBlocks(markdown: string, blocks: seq<Block>, k: nat)
    requires k < |Split(markdown, '\n')| && BlocksOf(Split(markdown, '\n'), 0, blocks)
    ensures
      var lines := Split(markdown, '\n');
      UnindentedLines(lines, 0, None)[k] != lines[k] <==> !AllBlank(lines[k]) && InBlocks(blocks, k)
  {
    hide *;
    var lines := Split(markdown, '\n');
    BlocksFound(lines, 0);
    BlocksOnce(lines, 0, blocks, Blocks(lines, 0));
    BlockLines(lines, 0, k);
  }

  /** A line at which the look-back stops: a list item, a heading, or a line without indentation. */
  predicate StopsLook(line: string) {
    !AllBlank(line) && (ItemContent(line).Some? || IsHeading(line) || Indentation(line) == 0)
  }

  /** A block's least indentation is four columns past the content of the list item it belongs to: the last line before
  it at which the look-back stops, `q` or none, if that is an item whose content is not indented deeper. Otherwise it is
  four. */
  lemma {:induction false} LookBack(lines: seq<string>, previous: int, indentation: nat, q: int)
    requires -1 <= q <= previous < |lines| && (q >= 0 ==> StopsLook(lines[q]))
    requires forall j :: q < j <= previous ==> !StopsLook(lines[j])
    ensures CodeIndent(lines, previous, indentation) ==
      if q >= 0 && ItemContent(lines[q]).Some? && ItemContent(lines[q]).value <= indentation then ItemContent(lines[q]).value + 4 else 4
    decreases previous
  {
    hide *;
    LookStep(lines, previous, indentation);
    if q < previous { LookBack(lines, previous - 1, indentation, q); }
  }

  lemma LookStep(lines: seq<string>, previous: int, indentation: nat)
    requires previous < |lines|
    ensures CodeIndent(lines, previous, indentation) ==
      if previous < 0 then 4
      else if !StopsLook(lines[previous]) then CodeIndent(lines, previous - 1, indentation)
      else
        var item := ItemContent(lines[previous]);
        if item.Some? && item.value <= indentation then item.value + 4 else 4
  {
    hide AllBlank, ItemContent, IsHeading, Indentation;
  }
}
