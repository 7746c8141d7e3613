/** The reader of documentation objects: specs are full names or `name:path`, and a spec may be reported missing. */
module ObjectReader {
  import opened Basics
  import opened BatchCodec
  import opened BatchReaders

  /** No line end, in ASCII or as the separators U+2028 and U+2029. */
  predicate OneLine(spec: Bytes) {
    && NEWLINE !in spec && RETURN !in spec
    && forall i :: 0 <= i < |spec| - 2 ==> !(spec[i] == 226 && spec[i + 1] == 128 && (spec[i + 2] == 168 || spec[i + 2] == 169))
  }

  predicate ValidSpec(spec: Bytes, validPath: Bytes -> bool) {
    && OneLine(spec)
    && (Hex40(spec) || (|spec| > 41 && Hex40(spec[..40]) && spec[40] == COLON && validPath(spec[41..])))
  }

  /** An object type: not empty, no ASCII white space. */
  predicate Kind(kind: Bytes) { kind != [] && forall b :: b in kind ==> b != SPACE && !(9 <= b <= 13) }

  /** Reads the answer to `spec` at `position`: an object or that it is missing, and where the next answer starts. */
  function ReadObject(batch: Bytes, position: nat, spec: Bytes): (r: Option<(Option<Bytes>, nat)>)
    ensures r.Some? ==> position < r.value.1 <= |batch|
  {
    var newline := IndexOf(batch, NEWLINE, position);
    if newline < 0 then None else Answer(batch, newline, spec, batch[position..newline])
  }

  function Answer(batch: Bytes, newline: nat, spec: Bytes, header: Bytes): (r: Option<(Option<Bytes>, nat)>)
    requires newline < |batch|
    ensures r.Some? ==> newline < r.value.1 <= |batch|
  {
    if header == spec + [SPACE] + MISSING then Some((None, newline + 1)) else Found(batch, newline, spec, Fields(header))
  }

  function Found(batch: Bytes, newline: nat, spec: Bytes, fields: seq<Bytes>): (r: Option<(Option<Bytes>, nat)>)
    requires newline < |batch|
    ensures r.Some? ==> newline < r.value.1 <= |batch|
    ensures r.Some? ==> r.value.0.Some?
  {
    if |fields| != 3 || !Hex40(fields[0]) || !Kind(fields[1]) || !AllDigits(fields[2]) || (Hex40(spec) && fields[0] != spec) then None
    else
      match Contents(batch, newline + 1, fields[2])
      case None => None
      case Some((contents, next)) => Some((Some(contents), next))
  }

  function ObjectsFrom(batch: Bytes, position: nat, specs: seq<Bytes>): Option<seq<Option<Bytes>>>
    decreases |specs|
  {
    if specs == [] then (if position == |batch| then Some([]) else None)
    else
      match ReadObject(batch, position, specs[0])
      case None => None
      case Some((object', next)) =>
        match ObjectsFrom(batch, next, specs[1..])
        case None => None
        case Some(rest) => Some([object'] + rest)
  }

  /** Invalid specs are refused; without specs nothing is read. */
  function Objects(batch: Bytes, specs: seq<Bytes>, validPath: Bytes -> bool): Option<seq<Option<Bytes>>> {
    if exists i :: 0 <= i < |specs| && !ValidSpec(specs[i], validPath) then None
    else if specs == [] then Some([])
    else ObjectsFrom(batch, 0, specs)
  }

  method ReadDocumentationObjects(batch: Bytes, specs: seq<Bytes>, validPath: Bytes -> bool) returns (objects: Option<seq<Option<Bytes>>>)
    ensures objects == Objects(batch, specs, validPath)
  {
    hide ValidSpec, ReadObject;
    for i := 0 to |specs|
      invariant forall j :: 0 <= j < i ==> ValidSpec(specs[j], validPath)
    {
      if !ValidSpec(specs[i], validPath) { return None; }
    }
    if specs == [] { return Some([]); }
    var position, found: seq<Option<Bytes>> := 0, [];
    assert specs[0..] == specs;
    for i := 0 to |specs|
      invariant ObjectsFrom(batch, 0, specs) == After(found, ObjectsFrom(batch, position, specs[i..]))
    {
      var read := ReadObject(batch, position, specs[i]);
      assert specs[i..][1..] == specs[i + 1..];
      if read.None? { return None; }
      AfterTwice(found, read.value.0, ObjectsFrom(batch, read.value.1, specs[i + 1..]));
      found := found + [read.value.0];
      position := read.value.1;
    }
    assert specs[|specs|..] == [];
    if position != |batch| { return None; }
    assert found + [] == found;
    objects := Some(found);
  }

  function After(found: seq<Option<Bytes>>, rest: Option<seq<Option<Bytes>>>): (r: Option<seq<Option<Bytes>>>)
    ensures found == [] ==> r == rest
  {
    match rest
    case None => None
    case Some(objects) =>
      assert [] + objects == objects;
      Some(found + objects)
  }

  lemma AfterTwice(found: seq<Option<Bytes>>, one: Option<Bytes>, rest: Option<seq<Option<Bytes>>>)
    ensures rest.Some? ==> After(found, Some([one] + rest.value)) == After(found + [one], rest)
  {
    if rest.Some? { assert found + ([one] + rest.value) == found + [one] + rest.value; }
  }

  // ---- What is read ----

  /** How git spells an answer. */
  datatype Reply = Missing | Present(oid: Bytes, kind: Bytes, size: Bytes)

  predicate Answers(spec: Bytes, object': Option<Bytes>, reply: Reply) {
    match reply
    case Missing => object' == None
    case Present(oid, kind, size) =>
      object'.Some? && Hex40(oid) && (Hex40(spec) ==> oid == spec) && Kind(kind) && Spells(size, object'.value)
  }

  function Printed(spec: Bytes, object': Option<Bytes>, reply: Reply): Bytes {
    match reply
    case Missing => spec + [SPACE] + MISSING + [NEWLINE]
    case Present(oid, kind, size) => Record(oid, kind, size, if object'.Some? then object'.value else [])
  }

  lemma KindClean(kind: Bytes)
    requires Kind(kind)
    ensures Clean(kind)
  {
  }

  /** A header that ends in a digit does not report a missing object. */
  lemma NotMissing(spec: Bytes, oid: Bytes, kind: Bytes, size: Bytes)
    requires AllDigits(size)
    ensures Header(oid, kind, size) != spec + [SPACE] + MISSING
  {
    var header, missing := Header(oid, kind, size), spec + [SPACE] + MISSING;
    assert IsDigitByte(size[|size| - 1]);
    assert header[|header| - 1] == size[|size| - 1];
    assert missing[|missing| - 1] == MISSING[6];
  }

  lemma ReadObjectIs(batch: Bytes, position: nat, spec: Bytes, newline: nat)
    requires IndexOf(batch, NEWLINE, position) == newline && position <= newline < |batch|
    ensures ReadObject(batch, position, spec) == Answer(batch, newline, spec, batch[position..newline])
  {
    hide IndexOf, Answer;
  }

  lemma FoundOpen(batch: Bytes, newline: nat, spec: Bytes, header: Bytes) returns (oid: Bytes, kind: Bytes, size: Bytes)
    requires newline < |batch| && Answer(batch, newline, spec, header).Some? && header != spec + [SPACE] + MISSING
    ensures Fields(header) == [oid, kind, size] && Hex40(oid) && Kind(kind) && AllDigits(size) && (Hex40(spec) ==> oid == spec)
    ensures Contents(batch, newline + 1, size).Some?
    ensures
      var (contents, next) := Contents(batch, newline + 1, size).value;
      Answer(batch, newline, spec, header) == Some((Some(contents), next))
  {
    hide Fields, Hex40, Kind, AllDigits, Contents;
    var fields := Fields(header);
    oid, kind, size := fields[0], fields[1], fields[2];
    assert fields == [oid, kind, size];
  }

  lemma FoundMake(batch: Bytes, newline: nat, spec: Bytes, header: Bytes, oid: Bytes, kind: Bytes, size: Bytes)
    requires newline < |batch| && header != spec + [SPACE] + MISSING
    requires Fields(header) == [oid, kind, size] && Hex40(oid) && Kind(kind) && AllDigits(size) && (Hex40(spec) ==> oid == spec)
    requires Contents(batch, newline + 1, size).Some?
    ensures
      var (contents, next) := Contents(batch, newline + 1, size).value;
      Answer(batch, newline, spec, header) == Some((Some(contents), next))
  {
    hide Fields, Hex40, Kind, AllDigits, Contents;
    var fields := Fields(header);
    assert |fields| == 3 && fields[0] == oid && fields[1] == kind && fields[2] == size;
  }

  lemma MissingStands(batch: Bytes, position: nat, spec: Bytes)
    ensures
      var header := spec + [SPACE] + MISSING;
      var newline := position + |header|;
      Stands(batch, position, Printed(spec, None, Missing)) <==>
        newline < |batch| && batch[newline] == NEWLINE && batch[position..newline] == header
    ensures |Printed(spec, None, Missing)| == |spec + [SPACE] + MISSING| + 1
  {
    var header := spec + [SPACE] + MISSING;
    StandsTogether(batch, position, header, [NEWLINE]);
    StandsOne(batch, position + |header|, NEWLINE);
  }

  lemma AnswerMissing(batch: Bytes, newline: nat, spec: Bytes)
    requires newline < |batch|
    ensures Answer(batch, newline, spec, spec + [SPACE] + MISSING) == Some((None, newline + 1))
  {
    hide Found;
  }

  /** An answer read is the print of a reply. */
  lemma ReadIsReply(batch: Bytes, position: nat, spec: Bytes) returns (reply: Reply)
    requires ReadObject(batch, position, spec).Some?
    ensures
      var (object', next) := ReadObject(batch, position, spec).value;
      && Answers(spec, object', reply) && Stands(batch, position, Printed(spec, object', reply))
      && next == position + |Printed(spec, object', reply)|
  {
    hide *;
    var newline := ReadObjectNewline(batch, position, spec);
    var header := batch[position..newline];
    ReadObjectIs(batch, position, spec, newline);
    if header == spec + [SPACE] + MISSING {
      reply := Missing;
      AnswerMissing(batch, newline, spec);
      MissingStands(batch, position, spec);
      MissingAnswers(spec);
    } else {
      var oid, kind, size := FoundOpen(batch, newline, spec, header);
      FoundStands(batch, position, newline, oid, kind, size);
      reply := Present(oid, kind, size);
      var contents := Contents(batch, newline + 1, size).value.0;
      PresentAnswers(spec, contents, oid, kind, size);
    }
  }

  lemma ReadObjectNewline(batch: Bytes, position: nat, spec: Bytes) returns (newline: nat)
    requires ReadObject(batch, position, spec).Some?
    ensures IndexOf(batch, NEWLINE, position) == newline && position <= newline < |batch| && batch[newline] == NEWLINE
  {
    newline := IndexOf(batch, NEWLINE, position);
    hide IndexOf, Answer;
  }

  lemma MissingAnswers(spec: Bytes)
    ensures Answers(spec, None, Missing)
  {
  }

  lemma PresentAnswers(spec: Bytes, contents: Bytes, oid: Bytes, kind: Bytes, size: Bytes)
    ensures Answers(spec, Some(contents), Present(oid, kind, size)) <==>
      Hex40(oid) && (Hex40(spec) ==> oid == spec) && Kind(kind) && Spells(size, contents)
    ensures Printed(spec, Some(contents), Present(oid, kind, size)) == Record(oid, kind, size, contents)
  {
    hide Hex40, Kind, Spells, Record;
  }

  /** The print of a reply is read. */
  lemma ReplyIsRead(batch: Bytes, position: nat, spec: Bytes, object': Option<Bytes>, reply: Reply)
    requires NEWLINE !in spec && Answers(spec, object', reply) && Stands(batch, position, Printed(spec, object', reply))
    ensures ReadObject(batch, position, spec) == Some((object', position + |Printed(spec, object', reply)|))
  {
    hide *;
    match reply {
      case Missing =>
        MissingNone(spec, object');
        var header := spec + [SPACE] + MISSING;
        var newline := position + |header|;
        MissingStands(batch, position, spec);
        MissingLine(spec);
        IndexIs(batch, NEWLINE, position, newline);
        ReadObjectIs(batch, position, spec, newline);
        AnswerMissing(batch, newline, spec);
      case Present(oid, kind, size) =>
        PresentSome(spec, object', reply);
        var contents := object'.value;
        PresentAnswers(spec, contents, oid, kind, size);
        HexClean(oid);
        KindClean(kind);
        var newline := StandsFound(batch, position, oid, kind, size, contents);
        NotMissing(spec, oid, kind, size);
        ReadObjectIs(batch, position, spec, newline);
        FoundMake(batch, newline, spec, batch[position..newline], oid, kind, size);
    }
  }

  lemma MissingNone(spec: Bytes, object': Option<Bytes>)
    requires Answers(spec, object', Missing)
    ensures object' == None
  {
  }

  lemma PresentSome(spec: Bytes, object': Option<Bytes>, reply: Reply)
    requires Answers(spec, object', reply) && reply.Present?
    ensures object'.Some?
  {
  }

  lemma MissingLine(spec: Bytes)
    requires NEWLINE !in spec
    ensures NEWLINE !in spec + [SPACE] + MISSING
  {
  }

  // ---- Round trip ----

  predicate AllAnswer(specs: seq<Bytes>, objects: seq<Option<Bytes>>, replies: seq<Reply>)
    decreases |specs|
  {
    && |specs| == |objects| == |replies|
    && (specs == [] || (Answers(specs[0], objects[0], replies[0]) && AllAnswer(specs[1..], objects[1..], replies[1..])))
  }

  function PrintReplies(specs: seq<Bytes>, objects: seq<Option<Bytes>>, replies: seq<Reply>): Bytes
    decreases |specs|
  {
    if specs == [] || objects == [] || replies == [] then []
    else Printed(specs[0], objects[0], replies[0]) + PrintReplies(specs[1..], objects[1..], replies[1..])
  }

  lemma ObjectsUnfold(batch: Bytes, position: nat, specs: seq<Bytes>)
    requires specs != []
    ensures
      var read := ReadObject(batch, position, specs[0]);
      ObjectsFrom(batch, position, specs) ==
        if read.None? then None
        else
          var rest := ObjectsFrom(batch, read.value.1, specs[1..]);
          if rest.None? then None else Some([read.value.0] + rest.value)
  {
    hide ReadObject;
  }

  lemma ObjectsNone(batch: Bytes, position: nat)
    requires position <= |batch|
    ensures ObjectsFrom(batch, position, []) == if position == |batch| then Some([]) else None
    ensures AllAnswer([], [], []) && PrintReplies([], [], []) == []
  {
  }

  lemma AnswerCons(specs: seq<Bytes>, objects: seq<Option<Bytes>>, replies: seq<Reply>)
    requires specs != [] && objects != [] && replies != []
    ensures AllAnswer(specs, objects, replies) <==>
      Answers(specs[0], objects[0], replies[0]) && AllAnswer(specs[1..], objects[1..], replies[1..])
    ensures PrintReplies(specs, objects, replies) ==
      Printed(specs[0], objects[0], replies[0]) + PrintReplies(specs[1..], objects[1..], replies[1..])
  {
    hide Answers, Printed;
  }

  lemma AnswerLengths(specs: seq<Bytes>, objects: seq<Option<Bytes>>, replies: seq<Reply>)
    requires AllAnswer(specs, objects, replies)
    ensures |specs| == |objects| == |replies|
  {
  }

  lemma {:induction false} ObjectsPrinted(batch: Bytes, position: nat, specs: seq<Bytes>) returns (replies: seq<Reply>)
    requires position <= |batch| && ObjectsFrom(batch, position, specs).Some?
    ensures AllAnswer(specs, ObjectsFrom(batch, position, specs).value, replies)
    ensures batch[position..] == PrintReplies(specs, ObjectsFrom(batch, position, specs).value, replies)
    decreases |specs|
  {
    hide *;
    replies := [];
    if specs == [] {
      ObjectsNone(batch, position);
    } else {
      ObjectsUnfold(batch, position, specs);
      var reply := ReadIsReply(batch, position, specs[0]);
      var (object', next) := ReadObject(batch, position, specs[0]).value;
      var rest := ObjectsPrinted(batch, next, specs[1..]);
      var objects := ObjectsFrom(batch, position, specs).value;
      replies := [reply] + rest;
      StandsThen(batch, position, Printed(specs[0], object', reply), PrintReplies(specs[1..], objects[1..], rest));
      AnswerCons(specs, objects, replies);
    }
  }

  lemma {:induction false} PrintedObjects(batch: Bytes, position: nat, specs: seq<Bytes>, objects: seq<Option<Bytes>>, replies: seq<Reply>)
    requires position <= |batch| && forall i :: 0 <= i < |specs| ==> NEWLINE !in specs[i]
    requires AllAnswer(specs, objects, replies) && batch[position..] == PrintReplies(specs, objects, replies)
    ensures ObjectsFrom(batch, position, specs) == Some(objects)
    decreases |specs|
  {
    hide *;
    AnswerLengths(specs, objects, replies);
    if specs == [] {
      ObjectsNone(batch, position);
    } else {
      ObjectsUnfold(batch, position, specs);
      AnswerCons(specs, objects, replies);
      var printed := Printed(specs[0], objects[0], replies[0]);
      StandsThen(batch, position, printed, PrintReplies(specs[1..], objects[1..], replies[1..]));
      ReplyIsRead(batch, position, specs[0], objects[0], replies[0]);
      PrintedObjects(batch, position + |printed|, specs[1..], objects[1..], replies[1..]);
      assert objects == [objects[0]] + objects[1..];
    }
  }

  /** The object reader accepts exactly the prints of replies to valid specs, with no byte left over. */
  lemma ObjectsExactly(batch: Bytes, specs: seq<Bytes>, validPath: Bytes -> bool, objects: seq<Option<Bytes>>)
    requires specs != []
    ensures Objects(batch, specs, validPath) == Some(objects) <==>
      && (forall i :: 0 <= i < |specs| ==> ValidSpec(specs[i], validPath))
      && exists replies :: AllAnswer(specs, objects, replies) && batch == PrintReplies(specs, objects, replies)
  {
    assert batch[0..] == batch;
    SpecLines(specs, validPath);
    hide ValidSpec, AllAnswer, PrintReplies, ObjectsFrom;
    if Objects(batch, specs, validPath) == Some(objects) {
      var replies := ObjectsPrinted(batch, 0, specs);
    }
    if forall i :: 0 <= i < |specs| ==> ValidSpec(specs[i], validPath) {
      if replies :| AllAnswer(specs, objects, replies) && batch == PrintReplies(specs, objects, replies) {
        PrintedObjects(batch, 0, specs, objects, replies);
      }
    }
  }

  lemma SpecLines(specs: seq<Bytes>, validPath: Bytes -> bool)
    ensures forall i :: 0 <= i < |specs| && ValidSpec(specs[i], validPath) ==> NEWLINE !in specs[i]
  {
    hide Hex40;
  }

  // ---- The three readers agree ----

  function Sizes(blobs: seq<Bytes>): (r: seq<Bytes>)
    ensures |r| == |blobs|
    decreases |blobs|
  {
    if blobs == [] then [] else [Decimal(|blobs[0]|)] + Sizes(blobs[1..])
  }

  function Somes(blobs: seq<Bytes>): (r: seq<Option<Bytes>>)
    ensures |r| == |blobs|
    decreases |blobs|
  {
    if blobs == [] then [] else [Some(blobs[0])] + Somes(blobs[1..])
  }

  function Presents(ids: seq<Bytes>, blobs: seq<Bytes>): (r: seq<Reply>)
    requires |ids| == |blobs|
    ensures |r| == |ids|
    decreases |ids|
  {
    if ids == [] then [] else [Present(ids[0], BLOB, Decimal(|blobs[0]|))] + Presents(ids[1..], blobs[1..])
  }

  predicate Storable(ids: seq<Bytes>, blobs: seq<Bytes>)
    decreases |ids|
  {
    && |ids| == |blobs|
    && (ids == [] || (Hex40(ids[0]) && |blobs[0]| <= MAX_SAFE && Storable(ids[1..], blobs[1..])))
  }

  lemma {:induction false} PrintSpells(ids: seq<Bytes>, blobs: seq<Bytes>)
    requires Storable(ids, blobs)
    ensures Printable(ids, blobs)
    ensures Spelled(ids, Sizes(blobs), blobs) && Print(ids, blobs) == PrintSpelled(ids, Sizes(blobs), blobs)
    ensures AllAnswer(ids, Somes(blobs), Presents(ids, blobs)) && Print(ids, blobs) == PrintReplies(ids, Somes(blobs), Presents(ids, blobs))
    decreases |ids|
  {
    hide Hex40, Decimal, Record, Value, AllDigits;
    if ids != [] {
      PrintSpells(ids[1..], blobs[1..]);
      HexClean(ids[0]);
      BlobKind();
      DecimalDigits(|blobs[0]|);
      DecimalFacts(|blobs[0]|);
      assert Spells(Decimal(|blobs[0]|), blobs[0]);
      assert Sizes(blobs)[1..] == Sizes(blobs[1..]) && Somes(blobs)[1..] == Somes(blobs[1..]);
      assert Presents(ids, blobs)[1..] == Presents(ids[1..], blobs[1..]);
      hide Spells, Clean, Kind, Print;
      PrintUnfolds(ids, blobs);
      PrintedFrom([], 0, ids, blobs);
    } else {
      PrintNone();
    }
  }

  lemma PrintNone()
    ensures Print([], []) == []
  {
  }

  lemma PrintUnfolds(ids: seq<Bytes>, blobs: seq<Bytes>)
    requires ids != [] && blobs != []
    ensures Print(ids, blobs) == Record(ids[0], BLOB, Decimal(|blobs[0]|), blobs[0]) + Print(ids[1..], blobs[1..])
  {
    hide Record, Decimal;
  }

  lemma BlobKind()
    ensures Kind(BLOB)
  {
  }

  lemma HexSpec(id: Bytes, validPath: Bytes -> bool)
    requires Hex40(id)
    ensures ValidSpec(id, validPath)
  {
    forall i | 0 <= i < 40
      ensures id[i] != NEWLINE && id[i] != RETURN && id[i] < 226
    {
      assert IsHex(id[i]);
    }
  }

  lemma {:induction false} HexSpecs(ids: seq<Bytes>, blobs: seq<Bytes>, validPath: Bytes -> bool)
    requires Storable(ids, blobs)
    ensures forall i :: 0 <= i < |ids| ==> ValidSpec(ids[i], validPath)
    decreases |ids|
  {
    hide ValidSpec, Hex40;
    if ids != [] {
      HexSpec(ids[0], validPath);
      HexSpecs(ids[1..], blobs[1..], validPath);
      assert ids == [ids[0]] + ids[1..];
    }
  }

  /** On the print of blobs under full names all three readers return those blobs. */
  lemma ReadersAgree(ids: seq<Bytes>, blobs: seq<Bytes>, validPath: Bytes -> bool)
    requires ids != [] && Storable(ids, blobs)
    ensures SplitFrom(Print(ids, blobs), 0, ids) == Some(blobs)
    ensures Blobs(Print(ids, blobs), ids) == Some(blobs)
    ensures Objects(Print(ids, blobs), ids, validPath) == Some(Somes(blobs))
  {
    hide *;
    PrintSpells(ids, blobs);
    HexSpecs(ids, blobs, validPath);
    SplitExactly(Print(ids, blobs), ids, blobs);
    BlobsExactly(Print(ids, blobs), ids, blobs);
    ObjectsExactly(Print(ids, blobs), ids, validPath, Somes(blobs));
  }
}
