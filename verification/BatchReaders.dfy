/** The two lenient readers of `git cat-file --batch` output, which take sizes with leading zeros. */
module BatchReaders {
  // The object reader also takes missing objects and other types.

  import opened Basics
  import opened BatchCodec

  const MISSING: Bytes := [109, 105, 115, 115, 105, 110, 103]
  const COLON: byte := 58
  const RETURN: byte := 13

  predicate IsHex(b: byte) { 48 <= b <= 57 || 97 <= b <= 102 }

  predicate Hex40(oid: Bytes) { |oid| == 40 && forall i :: 0 <= i < 40 ==> IsHex(oid[i]) }

  /** `subarray(from, to)` for a `to` that counts from the end when it is negative. */
  function Subarray(batch: Bytes, from: nat, to: int): Bytes {
    var end := if to < 0 then |batch| + to else to;
    if from <= end <= |batch| then batch[from..end] else []
  }

  /** The contents after a header that ends before `start`, if they end in a newline inside the batch. */
  function Contents(batch: Bytes, start: nat, size: Bytes): (r: Option<(Bytes, nat)>)
    requires AllDigits(size)
    ensures r.Some? ==> start < r.value.1 <= |batch|
  {
    var end := start + Value(size);
    if Value(size) > MAX_SAFE || end >= |batch| || batch[end] != NEWLINE then None else Some((batch[start..end], end + 1))
  }

  // ---- Blobs of a tree ----

  /** Reads the blob `oid` at `position`. Without a newline the header is everything but the last byte, and the contents
  are taken from the start of the batch. */
  function ReadBlob(batch: Bytes, position: nat, oid: Bytes): (r: Option<(Bytes, nat)>)
    ensures r.Some? ==> 0 < r.value.1 <= |batch|
  {
    var newline := IndexOf(batch, NEWLINE, position);
    var fields := Fields(Subarray(batch, position, newline));
    if |fields| != 3 || !Hex40(fields[0]) || fields[1] != BLOB || !AllDigits(fields[2]) || fields[0] != oid then None
    else Contents(batch, newline + 1, fields[2])
  }

  function BlobsFrom(batch: Bytes, position: nat, ids: seq<Bytes>): Option<seq<Bytes>>
    decreases |ids|
  {
    if ids == [] then (if position == |batch| then Some([]) else None)
    else
      match ReadBlob(batch, position, ids[0])
      case None => None
      case Some((contents, next)) => Prepend([contents], BlobsFrom(batch, next, ids[1..]))
  }

  /** Without ids nothing is read. */
  function Blobs(batch: Bytes, ids: seq<Bytes>): Option<seq<Bytes>> {
    if ids == [] then Some([]) else BlobsFrom(batch, 0, ids)
  }

  /** The ids without repetitions, in order of first occurrence. */
  function Distinct(ids: seq<Bytes>): (r: seq<Bytes>)
    ensures forall x :: x in r <==> x in ids
    ensures forall i, j :: 0 <= i < j < |r| ==> r[i] != r[j]
    decreases |ids|
  {
    if ids == [] then []
    else
      var front, last := Distinct(ids[..|ids| - 1]), ids[|ids| - 1];
      assert ids == ids[..|ids| - 1] + [last];
      if last in front then front else front + [last]
  }

  datatype Row = Row(path: string, mode: string, oid: Bytes)

  datatype Object = Object(mode: string, contents: Bytes)

  function BlobMap(ids: seq<Bytes>, blobs: seq<Bytes>): map<Bytes, Bytes>
    requires |ids| == |blobs|
    decreases |ids|
  {
    if ids == [] then map[] else BlobMap(ids[..|ids| - 1], blobs[..|ids| - 1])[ids[|ids| - 1] := blobs[|ids| - 1]]
  }

  function Oids(rows: seq<Row>): seq<Bytes> { seq(|rows|, i requires 0 <= i < |rows| => rows[i].oid) }

  /** Each path with the mode and the contents of its last row. */
  function Objects(rows: seq<Row>, blobs: map<Bytes, Bytes>): map<string, Object>
    requires forall row :: row in rows ==> row.oid in blobs
    decreases |rows|
  {
    if rows == [] then map[]
    else
      var front, last := rows[..|rows| - 1], rows[|rows| - 1];
      assert last in rows;
      Objects(front, blobs)[last.path := Object(last.mode, blobs[last.oid])]
  }

  lemma {:induction false} BlobMapKeys(ids: seq<Bytes>, blobs: seq<Bytes>)
    requires |ids| == |blobs|
    ensures forall x :: x in BlobMap(ids, blobs) <==> x in ids
    decreases |ids|
  {
    if ids != [] {
      BlobMapKeys(ids[..|ids| - 1], blobs[..|ids| - 1]);
      assert ids == ids[..|ids| - 1] + [ids[|ids| - 1]];
    }
  }

  lemma OidsIn(rows: seq<Row>)
    ensures forall row :: row in rows ==> row.oid in Distinct(Oids(rows))
  {
    forall row | row in rows
      ensures row.oid in Distinct(Oids(rows))
    {
      var i :| 0 <= i < |rows| && rows[i] == row;
      assert Oids(rows)[i] == row.oid;
    }
  }

  /** Reads one blob for each id. */
  method ReadBlobs(batch: Bytes, ids: seq<Bytes>) returns (blobs: Option<map<Bytes, Bytes>>, ghost found: seq<Bytes>)
    ensures BlobsFrom(batch, 0, ids) == if blobs.Some? then Some(found) else None
    ensures blobs.Some? ==> |found| == |ids| && blobs.value == BlobMap(ids, found)
  {
    hide ReadBlob;
    var position, all: map<Bytes, Bytes> := 0, map[];
    found := [];
    PrependEmpty(BlobsFrom(batch, 0, ids));
    assert ids[0..] == ids;
    for i := 0 to |ids|
      invariant |found| == i && all == BlobMap(ids[..i], found)
      invariant BlobsFrom(batch, 0, ids) == Prepend(found, BlobsFrom(batch, position, ids[i..]))
    {
      var read := ReadBlob(batch, position, ids[i]);
      assert ids[i..][1..] == ids[i + 1..];
      if read.None? { return None, found; }
      PrependTwice(found, [read.value.0], BlobsFrom(batch, read.value.1, ids[i + 1..]));
      assert ids[..i + 1][..i] == ids[..i] && (found + [read.value.0])[..i] == found;
      all := all[ids[i] := read.value.0];
      found := found + [read.value.0];
      position := read.value.1;
    }
    assert ids[|ids|..] == [] && ids[..|ids|] == ids;
    if position != |batch| { return None, found; }
    assert found + [] == found;
    blobs := Some(all);
  }

  method PlaceRows(rows: seq<Row>, blobs: map<Bytes, Bytes>) returns (objects: map<string, Object>)
    requires forall row :: row in rows ==> row.oid in blobs
    ensures objects == Objects(rows, blobs)
  {
    objects := map[];
    for i := 0 to |rows|
      invariant forall row :: row in rows[..i] ==> row.oid in blobs
      invariant objects == Objects(rows[..i], blobs)
    {
      assert rows[..i + 1][..i] == rows[..i] && rows[..i + 1] == rows[..i] + [rows[i]];
      assert rows[i] in rows;
      objects := objects[rows[i].path := Object(rows[i].mode, blobs[rows[i].oid])];
    }
    assert rows[..|rows|] == rows;
  }

  /** Reads the blobs of a tree's rows. */
  method MaterializeGitRows(batch: Bytes, rows: seq<Row>) returns (objects: Option<map<string, Object>>)
    ensures objects.Some? <==> Blobs(batch, Distinct(Oids(rows))).Some?
    ensures objects.Some? ==>
      var ids, contents := Distinct(Oids(rows)), Blobs(batch, Distinct(Oids(rows))).value;
      && |ids| == |contents| && (forall row :: row in rows ==> row.oid in BlobMap(ids, contents))
      && objects.value == Objects(rows, BlobMap(ids, contents))
  {
    hide BlobsFrom, BlobMap, Objects, Distinct, Oids;
    var ids := Distinct(Oids(rows));
    OidsIn(rows);
    if ids == [] {
      BlobMapKeys([], []);
      NoObjects(rows, BlobMap([], []));
      return Some(map[]);
    }
    var blobs, found := ReadBlobs(batch, ids);
    if blobs.None? { return None; }
    BlobMapKeys(ids, found);
    var placed := PlaceRows(rows, blobs.value);
    objects := Some(placed);
  }

  lemma NoObjects(rows: seq<Row>, blobs: map<Bytes, Bytes>)
    requires forall row :: row !in rows
    ensures Objects(rows, blobs) == map[]
  {
    FirstRow(rows);
  }

  lemma FirstRow(rows: seq<Row>)
    ensures rows != [] ==> rows[0] in rows
  {
  }

  // ---- Records with a spelled size ----

  /** `size` spells the length of `contents`. */
  predicate Spells(size: Bytes, contents: Bytes) { AllDigits(size) && Value(size) == |contents| && |contents| <= MAX_SAFE }

  lemma ContentsOpen(batch: Bytes, start: nat, size: Bytes)
    requires AllDigits(size) && Contents(batch, start, size).Some?
    ensures
      var (contents, next) := Contents(batch, start, size).value;
      && next == start + |contents| + 1 <= |batch| && batch[next - 1] == NEWLINE
      && contents == batch[start..start + |contents|] && Spells(size, contents)
  {
    hide Value, AllDigits;
  }

  lemma CleanMeans(part: Bytes)
    ensures Clean(part) <==> SPACE !in part && NEWLINE !in part
  {
  }

  lemma FoundStands(batch: Bytes, position: nat, newline: nat, oid: Bytes, kind: Bytes, size: Bytes)
    requires IndexOf(batch, NEWLINE, position) == newline && position <= newline < |batch|
    requires Fields(batch[position..newline]) == [oid, kind, size] && AllDigits(size)
    requires Contents(batch, newline + 1, size).Some?
    ensures
      var (contents, next) := Contents(batch, newline + 1, size).value;
      && Stands(batch, position, Record(oid, kind, size, contents)) && next == position + |Record(oid, kind, size, contents)|
      && Spells(size, contents)
    ensures Clean(oid) && Clean(kind)
  {
    hide *;
    ContentsOpen(batch, newline + 1, size);
    var (contents, next) := Contents(batch, newline + 1, size).value;
    FieldsHeader(batch[position..newline], oid, kind, size);
    CleanMeans(kind);
    StandsSlice(batch, position, newline);
    StandsSlice(batch, newline + 1, newline + 1 + |contents|);
    RecordStands(batch, position, oid, kind, size, contents);
  }

  lemma StandsFound(batch: Bytes, position: nat, oid: Bytes, kind: Bytes, size: Bytes, contents: Bytes) returns (newline: nat)
    requires Clean(oid) && Clean(kind) && Spells(size, contents)
    requires Stands(batch, position, Record(oid, kind, size, contents))
    ensures position <= newline < |batch| && IndexOf(batch, NEWLINE, position) == newline
    ensures batch[position..newline] == Header(oid, kind, size)
    ensures Fields(batch[position..newline]) == [oid, kind, size] && AllDigits(size)
    ensures Contents(batch, newline + 1, size) == Some((contents, position + |Record(oid, kind, size, contents)|))
  {
    hide *;
    newline := position + |Header(oid, kind, size)|;
    RecordStands(batch, position, oid, kind, size, contents);
    SpellsDigits(size, contents);
    HeaderFields(oid, kind, size);
    StandsIs(batch, position, Header(oid, kind, size));
    StandsIs(batch, newline + 1, contents);
    IndexIs(batch, NEWLINE, position, newline);
    ContentsMake(batch, newline + 1, size, contents);
  }

  lemma SpellsDigits(size: Bytes, contents: Bytes)
    requires Spells(size, contents)
    ensures AllDigits(size)
  {
    hide AllDigits, Value;
  }

  lemma ContentsMake(batch: Bytes, start: nat, size: Bytes, contents: Bytes)
    requires Spells(size, contents) && AllDigits(size)
    requires start + |contents| < |batch| && batch[start..start + |contents|] == contents && batch[start + |contents|] == NEWLINE
    ensures Contents(batch, start, size) == Some((contents, start + |contents| + 1))
  {
    hide AllDigits, Value;
  }

  // ---- Reading blobs ----

  /** Reading blobs to the end of the batch ends in a newline. */
  lemma {:induction false} LastNewline(batch: Bytes, position: nat, ids: seq<Bytes>)
    requires ids != [] && BlobsFrom(batch, position, ids).Some?
    ensures batch != [] && batch[|batch| - 1] == NEWLINE
    decreases |ids|
  {
    hide Fields, IndexOf, Value, AllDigits, Hex40;
    var (contents, next) := ReadBlob(batch, position, ids[0]).value;
    if |ids| == 1 {
      assert next == |batch|;
    } else {
      LastNewline(batch, next, ids[1..]);
    }
  }

  lemma BlobsUnfold(batch: Bytes, position: nat, ids: seq<Bytes>)
    requires ids != []
    ensures
      var read := ReadBlob(batch, position, ids[0]);
      BlobsFrom(batch, position, ids) ==
        if read.None? then None
        else
          var rest := BlobsFrom(batch, read.value.1, ids[1..]);
          if rest.None? then None else Some([read.value.0] + rest.value)
  {
    hide ReadBlob;
  }

  /** A header without a newline never leads to an accepted batch. */
  lemma NewlineFound(batch: Bytes, position: nat, ids: seq<Bytes>)
    requires ids != [] && BlobsFrom(batch, position, ids).Some?
    ensures IndexOf(batch, NEWLINE, position) >= 0
  {
    BlobsUnfold(batch, position, ids);
    LastNewline(batch, position, ids);
    ReadInside(batch, position, ids[0]);
    hide *;
    assert batch[position..][|batch| - 1 - position] == NEWLINE;
  }

  lemma ReadInside(batch: Bytes, position: nat, oid: Bytes)
    requires ReadBlob(batch, position, oid).Some?
    ensures position < |batch|
  {
    EmptyFields();
    hide Fields, IndexOf, Contents, Hex40, AllDigits;
  }

  lemma EmptyFields()
    ensures |Fields([])| == 1
  {
  }

  lemma HexClean(oid: Bytes)
    requires Hex40(oid)
    ensures Clean(oid)
  {
    assert forall i :: 0 <= i < 40 ==> IsHex(oid[i]);
  }

  /** The records of blobs whose sizes are spelled as given. */
  function PrintSpelled(ids: seq<Bytes>, sizes: seq<Bytes>, blobs: seq<Bytes>): Bytes
    decreases |ids|
  {
    if ids == [] || sizes == [] || blobs == [] then []
    else Record(ids[0], BLOB, sizes[0], blobs[0]) + PrintSpelled(ids[1..], sizes[1..], blobs[1..])
  }

  predicate Spelled(ids: seq<Bytes>, sizes: seq<Bytes>, blobs: seq<Bytes>)
    decreases |ids|
  {
    && |ids| == |sizes| == |blobs|
    && (ids == [] || (Hex40(ids[0]) && Spells(sizes[0], blobs[0]) && Spelled(ids[1..], sizes[1..], blobs[1..])))
  }

  lemma ReadBlobOpen(batch: Bytes, position: nat, oid: Bytes) returns (size: Bytes)
    requires ReadBlob(batch, position, oid).Some? && IndexOf(batch, NEWLINE, position) >= 0
    ensures
      var newline := IndexOf(batch, NEWLINE, position);
      && position <= newline < |batch| && Hex40(oid) && AllDigits(size)
      && Fields(batch[position..newline]) == [oid, BLOB, size]
      && ReadBlob(batch, position, oid) == Contents(batch, newline + 1, size)
  {
    var newline := IndexOf(batch, NEWLINE, position);
    hide Fields, IndexOf, Contents, Hex40, AllDigits;
    assert Subarray(batch, position, newline) == batch[position..newline];
    var fields := Fields(batch[position..newline]);
    size := fields[2];
    assert fields == [oid, BLOB, size];
  }

  lemma ReadBlobMake(batch: Bytes, position: nat, newline: nat, oid: Bytes, size: Bytes)
    requires IndexOf(batch, NEWLINE, position) == newline && position <= newline < |batch| && Hex40(oid) && AllDigits(size)
    requires Fields(batch[position..newline]) == [oid, BLOB, size]
    ensures ReadBlob(batch, position, oid) == Contents(batch, newline + 1, size)
  {
    hide Fields, IndexOf, Contents, Hex40, AllDigits;
    var fields := Fields(batch[position..newline]);
    assert |fields| == 3 && fields[0] == oid && fields[1] == BLOB && fields[2] == size;
  }

  lemma {:induction false} BlobsPrinted(batch: Bytes, position: nat, ids: seq<Bytes>) returns (sizes: seq<Bytes>)
    requires position <= |batch| && BlobsFrom(batch, position, ids).Some?
    ensures Spelled(ids, sizes, BlobsFrom(batch, position, ids).value)
    ensures batch[position..] == PrintSpelled(ids, sizes, BlobsFrom(batch, position, ids).value)
    decreases |ids|
  {
    hide *;
    sizes := [];
    if ids == [] {
      BlobsNone(batch, position);
    } else {
      BlobsUnfold(batch, position, ids);
      NewlineFound(batch, position, ids);
      var oid, newline := ids[0], IndexOf(batch, NEWLINE, position);
      var (contents, next) := ReadBlob(batch, position, oid).value;
      var size := ReadBlobOpen(batch, position, oid);
      FoundStands(batch, position, newline, oid, BLOB, size);
      var rest := BlobsPrinted(batch, next, ids[1..]);
      var blobs := BlobsFrom(batch, position, ids).value;
      sizes := [size] + rest;
      StandsThen(batch, position, Record(oid, BLOB, size, contents), PrintSpelled(ids[1..], rest, blobs[1..]));
      SpelledCons(ids, sizes, blobs);
    }
  }

  lemma SpelledCons(ids: seq<Bytes>, sizes: seq<Bytes>, blobs: seq<Bytes>)
    requires ids != [] && sizes != [] && blobs != []
    ensures Spelled(ids, sizes, blobs) <==> Hex40(ids[0]) && Spells(sizes[0], blobs[0]) && Spelled(ids[1..], sizes[1..], blobs[1..])
    ensures PrintSpelled(ids, sizes, blobs) == Record(ids[0], BLOB, sizes[0], blobs[0]) + PrintSpelled(ids[1..], sizes[1..], blobs[1..])
  {
    hide Hex40, Spells, Record;
  }

  lemma {:induction false} PrintedBlobs(batch: Bytes, position: nat, ids: seq<Bytes>, sizes: seq<Bytes>, blobs: seq<Bytes>)
    requires position <= |batch| && Spelled(ids, sizes, blobs) && batch[position..] == PrintSpelled(ids, sizes, blobs)
    ensures BlobsFrom(batch, position, ids) == Some(blobs)
    decreases |ids|
  {
    hide *;
    SpelledLengths(ids, sizes, blobs);
    if ids == [] {
      BlobsNone(batch, position);
    } else {
      BlobsUnfold(batch, position, ids);
      SpelledCons(ids, sizes, blobs);
      var oid, size, contents := ids[0], sizes[0], blobs[0];
      var record := Record(oid, BLOB, size, contents);
      StandsThen(batch, position, record, PrintSpelled(ids[1..], sizes[1..], blobs[1..]));
      HexClean(oid);
      BlobClean();
      var newline := StandsFound(batch, position, oid, BLOB, size, contents);
      ReadBlobMake(batch, position, newline, oid, size);
      PrintedBlobs(batch, position + |record|, ids[1..], sizes[1..], blobs[1..]);
      assert blobs == [contents] + blobs[1..];
    }
  }

  lemma SpelledLengths(ids: seq<Bytes>, sizes: seq<Bytes>, blobs: seq<Bytes>)
    requires Spelled(ids, sizes, blobs)
    ensures |ids| == |sizes| == |blobs|
  {
  }

  lemma BlobsNone(batch: Bytes, position: nat)
    requires position <= |batch|
    ensures BlobsFrom(batch, position, []) == if position == |batch| then Some([]) else None
    ensures Spelled([], [], []) && PrintSpelled([], [], []) == []
  {
  }

  /** The blob reader accepts exactly the prints of blobs under full hexadecimal names, with any digits for the sizes. */
  lemma BlobsExactly(batch: Bytes, ids: seq<Bytes>, blobs: seq<Bytes>)
    requires ids != []
    ensures Blobs(batch, ids) == Some(blobs) <==>
      exists sizes :: Spelled(ids, sizes, blobs) && batch == PrintSpelled(ids, sizes, blobs)
  {
    assert batch[0..] == batch;
    hide Spelled, PrintSpelled, BlobsFrom;
    if Blobs(batch, ids) == Some(blobs) {
      var sizes := BlobsPrinted(batch, 0, ids);
    }
    if sizes :| Spelled(ids, sizes, blobs) && batch == PrintSpelled(ids, sizes, blobs) {
      PrintedBlobs(batch, 0, ids, sizes, blobs);
    }
  }
}
