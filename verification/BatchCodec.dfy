/** The output of `git cat-file --batch`: header line, contents, newline; and the strict reader of it. */
module BatchCodec {
  import opened Basics

  type byte = x: int | 0 <= x < 256

  type Bytes = seq<byte>

  const NEWLINE: byte := 10
  const SPACE: byte := 32
  const BLOB: Bytes := [98, 108, 111, 98]
  const MAX_SAFE := 9007199254740991

  // ---- Decimal numbers ----

  predicate IsDigitByte(b: byte) { 48 <= b <= 57 }

  predicate AllDigits(ds: Bytes) { ds != [] && forall i :: 0 <= i < |ds| ==> IsDigitByte(ds[i]) }

  /** Digits without a leading zero. */
  predicate Canonical(ds: Bytes) { AllDigits(ds) && (ds[0] == 48 ==> |ds| == 1) }

  function Value(ds: Bytes): nat
    requires forall i :: 0 <= i < |ds| ==> IsDigitByte(ds[i])
    decreases |ds|
  {
    if ds == [] then 0
    else
      assert IsDigitByte(ds[|ds| - 1]);
      10 * Value(ds[..|ds| - 1]) + (ds[|ds| - 1] as int - 48)
  }

  function Decimal(n: nat): (ds: Bytes)
    ensures Canonical(ds) && Value(ds) == n && (n > 0 ==> ds[0] != 48)
  {
    if n < 10 then
      assert Value([48 + n][..0]) == 0;
      [48 + n]
    else
      var ds := Decimal(n / 10);
      assert (ds + [48 + n % 10])[..|ds|] == ds;
      ds + [48 + n % 10]
  }

  lemma {:induction false} CanonicalPositive(ds: Bytes)
    requires AllDigits(ds) && ds[0] != 48
    ensures Value(ds) > 0
    decreases |ds|
  {
    if |ds| > 1 {
      CanonicalPositive(ds[..|ds| - 1]);
    } else {
      assert ds[..0] == [];
    }
  }

  /** A number has one spelling without leading zeros. */
  lemma {:induction false} CanonicalUnique(ds: Bytes)
    requires Canonical(ds)
    ensures Decimal(Value(ds)) == ds
    decreases |ds|
  {
    var n := Value(ds);
    if |ds| == 1 {
      assert ds[..0] == [];
      assert ds == [ds[0]];
    } else {
      var front := ds[..|ds| - 1];
      CanonicalPositive(front);
      CanonicalUnique(front);
      assert n / 10 == Value(front) && n % 10 == ds[|ds| - 1] as int - 48;
      assert ds == front + [ds[|ds| - 1]];
    }
  }

  // ---- Searching and splitting ----

  /** First index of `x` at or after `from`, or -1. */
  function IndexOf(b: Bytes, x: byte, from: nat): (r: int)
    ensures r == -1 || from <= r < |b|
    ensures r >= 0 ==> b[r] == x && x !in b[from..r]
    ensures r < 0 && from <= |b| ==> x !in b[from..]
    decreases |b| - from
  {
    if from >= |b| then -1
    else if b[from] == x then from
    else
      var r := IndexOf(b, x, from + 1);
      assert r >= 0 ==> b[from..r] == [b[from]] + b[from + 1..r];
      assert b[from..] == [b[from]] + b[from + 1..];
      r
  }

  lemma IndexIs(b: Bytes, x: byte, from: nat, at: nat)
    requires from <= at < |b| && b[at] == x && x !in b[from..at]
    ensures IndexOf(b, x, from) == at
  {
    hide IndexOf;
    var r := IndexOf(b, x, from);
    assert b[from..][at - from] == x;
    assert forall k :: from <= k < at ==> b[k] == b[from..at][k - from];
    assert r >= 0 ==> forall k :: from <= k < r ==> b[k] == b[from..r][k - from];
  }

  /** `String.prototype.split` at single spaces. */
  function Fields(h: Bytes): (fs: seq<Bytes>)
    ensures fs != []
    decreases |h|
  {
    var at := IndexOf(h, SPACE, 0);
    if at < 0 then [h] else [h[..at]] + Fields(h[at + 1..])
  }

  function JoinFields(fs: seq<Bytes>): Bytes
    requires fs != []
    decreases |fs|
  {
    if |fs| == 1 then fs[0] else fs[0] + [SPACE] + JoinFields(fs[1..])
  }

  lemma {:induction false} FieldsJoin(h: Bytes)
    ensures JoinFields(Fields(h)) == h
    ensures forall f :: f in Fields(h) ==> SPACE !in f
    decreases |h|
  {
    var at := IndexOf(h, SPACE, 0);
    if at < 0 {
      assert h[0..] == h;
    } else {
      var rest := h[at + 1..];
      FieldsJoin(rest);
      assert h == h[..at] + [SPACE] + rest;
      assert h[0..at] == h[..at];
      assert ([h[..at]] + Fields(rest))[1..] == Fields(rest);
    }
  }

  lemma FieldsAfter(first: Bytes, rest: Bytes)
    requires SPACE !in first
    ensures Fields(first + [SPACE] + rest) == [first] + Fields(rest)
  {
    hide IndexOf;
    var h := first + [SPACE] + rest;
    assert h[0..|first|] == first && h[|first|] == SPACE && h[|first| + 1..] == rest;
    IndexIs(h, SPACE, 0, |first|);
  }

  lemma FieldsOne(h: Bytes)
    requires SPACE !in h
    ensures Fields(h) == [h]
  {
    hide IndexOf;
    assert forall k :: 0 <= k < |h| ==> h[k] != SPACE;
  }

  lemma {:induction false} JoinSplits(fs: seq<Bytes>)
    requires fs != [] && forall f :: f in fs ==> SPACE !in f
    ensures Fields(JoinFields(fs)) == fs
    decreases |fs|
  {
    hide Fields;
    if |fs| == 1 {
      FieldsOne(fs[0]);
      assert fs == [fs[0]];
    } else {
      JoinSplits(fs[1..]);
      FieldsAfter(fs[0], JoinFields(fs[1..]));
      assert fs == [fs[0]] + fs[1..];
    }
  }

  lemma ThreeFields(h: Bytes, a: Bytes, b: Bytes, c: Bytes)
    ensures Fields(h) == [a, b, c] <==> h == a + [SPACE] + b + [SPACE] + c && SPACE !in a && SPACE !in b && SPACE !in c
  {
    var fs := [a, b, c];
    assert JoinFields([c]) == c && fs[1..] == [b, c] && [b, c][1..] == [c];
    assert JoinFields(fs) == a + [SPACE] + (b + [SPACE] + c);
    assert a + [SPACE] + (b + [SPACE] + c) == a + [SPACE] + b + [SPACE] + c;
    FieldsJoin(h);
    if SPACE !in a && SPACE !in b && SPACE !in c { JoinSplits(fs); }
    if Fields(h) == fs { assert a in Fields(h) && b in Fields(h) && c in Fields(h); }
  }

  // ---- The strict reader ----

  /** Reads the record for `oid` at `offset`: its contents and where the next record starts. */
  function ReadRecord(batch: Bytes, offset: nat, oid: Bytes): (r: Option<(Bytes, nat)>)
    ensures r.Some? ==> offset < r.value.1 <= |batch|
  {
    var end := IndexOf(batch, NEWLINE, offset);
    if end < 0 then None else ReadContents(batch, end, oid, Fields(batch[offset..end]))
  }

  /** Reads the contents after a header that ends at `end`. */
  function ReadContents(batch: Bytes, end: nat, oid: Bytes, fields: seq<Bytes>): (r: Option<(Bytes, nat)>)
    requires fields != [] && end < |batch|
    ensures r.Some? ==> end < r.value.1 <= |batch|
  {
    var length := if |fields| > 2 && Canonical(fields[2]) then Value(fields[2]) else -1;
    if || fields[0] != oid || |fields| < 2 || fields[1] != BLOB || |fields| > 3 || length < 0 || length > MAX_SAFE
       || |batch| <= end + 1 + length || batch[end + 1 + length] != NEWLINE then None
    else Some((batch[end + 1..end + 1 + length], end + length + 2))
  }

  function SplitFrom(batch: Bytes, offset: nat, oids: seq<Bytes>): Option<seq<Bytes>>
    decreases |oids|
  {
    if oids == [] then (if offset == |batch| then Some([]) else None)
    else
      match ReadRecord(batch, offset, oids[0])
      case None => None
      case Some((contents, next)) => Prepend([contents], SplitFrom(batch, next, oids[1..]))
  }

  function Prepend(found: seq<Bytes>, rest: Option<seq<Bytes>>): Option<seq<Bytes>> {
    match rest
    case None => None
    case Some(blobs) => Some(found + blobs)
  }

  lemma PrependEmpty(rest: Option<seq<Bytes>>)
    ensures Prepend([], rest) == rest
  {
    if rest.Some? { assert [] + rest.value == rest.value; }
  }

  lemma PrependTwice(a: seq<Bytes>, b: seq<Bytes>, rest: Option<seq<Bytes>>)
    ensures Prepend(a, Prepend(b, rest)) == Prepend(a + b, rest)
  {
    if rest.Some? { assert a + (b + rest.value) == a + b + rest.value; }
  }

  /** Reads one blob after the other, each under the name asked for. */
  method SplitRemovalScanBatch(batch: Bytes, oids: seq<Bytes>) returns (r: Option<seq<Bytes>>)
    ensures r == SplitFrom(batch, 0, oids)
  {
    hide ReadRecord;
    var offset, blobs := 0, [];
    PrependEmpty(SplitFrom(batch, 0, oids));
    assert oids[0..] == oids;
    for i := 0 to |oids|
      invariant SplitFrom(batch, 0, oids) == Prepend(blobs, SplitFrom(batch, offset, oids[i..]))
    {
      var read := ReadRecord(batch, offset, oids[i]);
      assert oids[i..][1..] == oids[i + 1..];
      if read.None? { return None; }
      PrependTwice(blobs, [read.value.0], SplitFrom(batch, read.value.1, oids[i + 1..]));
      blobs := blobs + [read.value.0];
      offset := read.value.1;
    }
    assert oids[|oids|..] == [];
    if offset != |batch| { return None; }
    r := Some(blobs);
    assert blobs + [] == blobs;
  }

  // ---- The printer ----

  function Header(oid: Bytes, kind: Bytes, size: Bytes): Bytes { oid + [SPACE] + kind + [SPACE] + size }

  /** One record, its size spelled as given. */
  function Record(oid: Bytes, kind: Bytes, size: Bytes, contents: Bytes): Bytes {
    Header(oid, kind, size) + ([NEWLINE] + (contents + [NEWLINE]))
  }

  function Print(oids: seq<Bytes>, blobs: seq<Bytes>): Bytes
    decreases |oids|
  {
    if oids == [] || blobs == [] then [] else Record(oids[0], BLOB, Decimal(|blobs[0]|), blobs[0]) + Print(oids[1..], blobs[1..])
  }

  predicate Clean(oid: Bytes) { SPACE !in oid && NEWLINE !in oid }

  /** `part` is in `batch` from `at` on. */
  predicate Stands(batch: Bytes, at: nat, part: Bytes) {
    at + |part| <= |batch| && batch[at..at + |part|] == part
  }

  lemma StandsTogether(batch: Bytes, at: nat, a: Bytes, b: Bytes)
    ensures Stands(batch, at, a + b) <==> Stands(batch, at, a) && Stands(batch, at + |a|, b)
  {
    if at + |a| + |b| <= |batch| {
      assert batch[at..at + |a + b|] == batch[at..at + |a|] + batch[at + |a|..at + |a| + |b|];
      assert (a + b)[..|a|] == a && (a + b)[|a|..] == b;
      assert batch[at..at + |a + b|][..|a|] == batch[at..at + |a|];
      assert batch[at..at + |a + b|][|a|..] == batch[at + |a|..at + |a| + |b|];
    }
  }

  lemma StandsOne(batch: Bytes, at: nat, b: byte)
    ensures Stands(batch, at, [b]) <==> at < |batch| && batch[at] == b
  {
    if at < |batch| { assert batch[at..at + 1] == [batch[at]]; }
  }

  lemma StandsSlice(batch: Bytes, at: nat, end: nat)
    requires at <= end <= |batch|
    ensures Stands(batch, at, batch[at..end])
  {
  }

  lemma StandsIs(batch: Bytes, at: nat, part: Bytes)
    requires Stands(batch, at, part)
    ensures at + |part| <= |batch| && batch[at..at + |part|] == part
  {
  }

  /** A record stands where its header, its contents and its two newlines do. */
  lemma RecordStands(batch: Bytes, at: nat, oid: Bytes, kind: Bytes, size: Bytes, contents: Bytes)
    ensures
      var end := at + |Header(oid, kind, size)|;
      Stands(batch, at, Record(oid, kind, size, contents)) <==>
        && Stands(batch, at, Header(oid, kind, size))
        && end < |batch| && batch[end] == NEWLINE
        && Stands(batch, end + 1, contents)
        && end + 1 + |contents| < |batch| && batch[end + 1 + |contents|] == NEWLINE
    ensures |Record(oid, kind, size, contents)| == |Header(oid, kind, size)| + |contents| + 2
  {
    hide Stands, Header;
    var end := at + |Header(oid, kind, size)|;
    StandsTogether(batch, at, Header(oid, kind, size), [NEWLINE] + (contents + [NEWLINE]));
    StandsTogether(batch, end, [NEWLINE], contents + [NEWLINE]);
    StandsTogether(batch, end + 1, contents, [NEWLINE]);
    StandsOne(batch, end, NEWLINE);
    StandsOne(batch, end + 1 + |contents|, NEWLINE);
  }

  lemma DigitsClean(ds: Bytes)
    requires AllDigits(ds)
    ensures SPACE !in ds && NEWLINE !in ds
  {
    forall i | 0 <= i < |ds|
      ensures ds[i] != SPACE && ds[i] != NEWLINE
    {
      assert IsDigitByte(ds[i]);
    }
  }

  /** A header with clean parts has no newline, and reads back as its fields. */
  lemma HeaderFields(oid: Bytes, kind: Bytes, size: Bytes)
    requires Clean(oid) && Clean(kind) && AllDigits(size)
    ensures NEWLINE !in Header(oid, kind, size) && Fields(Header(oid, kind, size)) == [oid, kind, size]
  {
    DigitsClean(size);
    ThreeFields(Header(oid, kind, size), oid, kind, size);
  }

  lemma Parts(a: Bytes, part: Bytes, b: Bytes)
    ensures forall x :: x in part ==> x in a + part + b
  {
    assert forall i :: 0 <= i < |part| ==> (a + part + b)[|a| + i] == part[i];
  }

  lemma FieldsHeader(header: Bytes, oid: Bytes, kind: Bytes, size: Bytes)
    requires Fields(header) == [oid, kind, size] && NEWLINE !in header
    ensures header == Header(oid, kind, size) && Clean(oid) && SPACE !in kind && NEWLINE !in kind
  {
    ThreeFields(header, oid, kind, size);
    hide Fields;
    Parts(oid + [SPACE], kind, [SPACE] + size);
    Parts([], oid, [SPACE] + kind + [SPACE] + size);
    assert header == oid + [SPACE] + kind + ([SPACE] + size);
    assert header == [] + oid + ([SPACE] + kind + [SPACE] + size);
  }

  lemma BlobClean()
    ensures Clean(BLOB)
  {
  }

  /** What reading a record takes. */
  lemma ReadOpen(batch: Bytes, offset: nat, oid: Bytes) returns (end: nat, size: Bytes)
    requires ReadRecord(batch, offset, oid).Some?
    ensures
      var (contents, next) := ReadRecord(batch, offset, oid).value;
      && offset <= end < |batch| && batch[end] == NEWLINE && NEWLINE !in batch[offset..end]
      && Fields(batch[offset..end]) == [oid, BLOB, size]
      && size == Decimal(|contents|) && |contents| <= MAX_SAFE
      && next == end + |contents| + 2 && next <= |batch| && batch[next - 1] == NEWLINE
      && contents == batch[end + 1..end + 1 + |contents|]
  {
    end := IndexOf(batch, NEWLINE, offset);
    var fields := Fields(batch[offset..end]);
    size := fields[2];
    assert fields == [oid, BLOB, size];
    CanonicalUnique(size);
    hide Fields, IndexOf, Decimal, Value, Canonical;
  }

  lemma ReadMake(batch: Bytes, offset: nat, oid: Bytes, contents: Bytes, end: nat)
    requires end + 1 + |contents| < |batch| && offset <= end
    requires IndexOf(batch, NEWLINE, offset) == end && Fields(batch[offset..end]) == [oid, BLOB, Decimal(|contents|)]
    requires batch[end + 1 + |contents|] == NEWLINE && |contents| <= MAX_SAFE
    requires batch[end + 1..end + 1 + |contents|] == contents
    ensures ReadRecord(batch, offset, oid) == Some((contents, end + |contents| + 2))
  {
    var fields := Fields(batch[offset..end]);
    DecimalFacts(|contents|);
    ContentsAfter(batch, end, oid, fields, contents);
    hide ReadContents, Fields, IndexOf, Decimal, Value, Canonical;
  }

  lemma DecimalFacts(n: nat)
    ensures Canonical(Decimal(n)) && Value(Decimal(n)) == n
  {
  }

  lemma ContentsAfter(batch: Bytes, end: nat, oid: Bytes, fields: seq<Bytes>, contents: Bytes)
    requires |fields| == 3 && fields[0] == oid && fields[1] == BLOB && Canonical(fields[2]) && Value(fields[2]) == |contents|
    requires end + 1 + |contents| < |batch| && batch[end + 1 + |contents|] == NEWLINE && |contents| <= MAX_SAFE
    requires batch[end + 1..end + 1 + |contents|] == contents
    ensures ReadContents(batch, end, oid, fields) == Some((contents, end + |contents| + 2))
  {
    hide Value, Canonical, AllDigits, IsDigitByte;
  }

  /** A record read is a record that stands there, for a clean name. */
  lemma ReadIsRecord(batch: Bytes, offset: nat, oid: Bytes)
    requires ReadRecord(batch, offset, oid).Some?
    ensures
      var (contents, next) := ReadRecord(batch, offset, oid).value;
      var record := Record(oid, BLOB, Decimal(|contents|), contents);
      Clean(oid) && |contents| <= MAX_SAFE && Stands(batch, offset, record) && next == offset + |record|
  {
    hide *;
    var (contents, next) := ReadRecord(batch, offset, oid).value;
    var end, size := ReadOpen(batch, offset, oid);
    FieldsHeader(batch[offset..end], oid, BLOB, size);
    StandsSlice(batch, offset, end);
    StandsSlice(batch, end + 1, end + 1 + |contents|);
    RecordStands(batch, offset, oid, BLOB, size, contents);
  }

  /** A record that stands there for a clean name is read. */
  lemma RecordIsRead(batch: Bytes, offset: nat, oid: Bytes, contents: Bytes)
    requires Clean(oid) && |contents| <= MAX_SAFE
    requires Stands(batch, offset, Record(oid, BLOB, Decimal(|contents|), contents))
    ensures ReadRecord(batch, offset, oid) == Some((contents, offset + |Record(oid, BLOB, Decimal(|contents|), contents)|))
  {
    hide *;
    var size := Decimal(|contents|);
    var end := offset + |Header(oid, BLOB, size)|;
    RecordStands(batch, offset, oid, BLOB, size, contents);
    DecimalDigits(|contents|);
    BlobClean();
    HeaderFields(oid, BLOB, size);
    StandsIs(batch, offset, Header(oid, BLOB, size));
    StandsIs(batch, end + 1, contents);
    IndexIs(batch, NEWLINE, offset, end);
    ReadMake(batch, offset, oid, contents, end);
  }

  lemma DecimalDigits(n: nat)
    ensures AllDigits(Decimal(n))
  {
  }

  // ---- Round trip ----

  ghost predicate Printable(oids: seq<Bytes>, blobs: seq<Bytes>) {
    && |oids| == |blobs|
    && (forall i :: 0 <= i < |oids| ==> Clean(oids[i]))
    && (forall i :: 0 <= i < |blobs| ==> |blobs[i]| <= MAX_SAFE)
  }

  lemma SameLengths(oids: seq<Bytes>, blobs: seq<Bytes>)
    requires Printable(oids, blobs)
    ensures |oids| == |blobs|
  {
  }

  lemma {:induction false} SplitsFrom(batch: Bytes, offset: nat, oids: seq<Bytes>, blobs: seq<Bytes>)
    requires offset <= |batch|
    ensures SplitFrom(batch, offset, oids) == Some(blobs) <==> Printable(oids, blobs) && batch[offset..] == Print(oids, blobs)
    decreases |oids|
  {
    hide *;
    if oids == [] {
      SplitNone(batch, offset, blobs);
    } else {
      SplitUnfolds(batch, offset, oids);
      var oid, rest := oids[0], oids[1..];
      if SplitFrom(batch, offset, oids) == Some(blobs) {
        var (contents, next) := ReadRecord(batch, offset, oid).value;
        ReadIsRecord(batch, offset, oid);
        SplitsFrom(batch, next, rest, blobs[1..]);
        assert blobs[0] == contents;
        PrintedFrom(batch, offset, oids, blobs);
      }
      if Printable(oids, blobs) && batch[offset..] == Print(oids, blobs) {
        SameLengths(oids, blobs);
        PrintedFrom(batch, offset, oids, blobs);
        RecordIsRead(batch, offset, oid, blobs[0]);
        SplitsFrom(batch, offset + |Record(oid, BLOB, Decimal(|blobs[0]|), blobs[0])|, rest, blobs[1..]);
        assert blobs == [blobs[0]] + blobs[1..];
      }
    }
  }

  lemma SplitNone(batch: Bytes, offset: nat, blobs: seq<Bytes>)
    requires offset <= |batch|
    ensures SplitFrom(batch, offset, []) == Some(blobs) <==> Printable([], blobs) && batch[offset..] == Print([], blobs)
  {
  }

  lemma SplitUnfolds(batch: Bytes, offset: nat, oids: seq<Bytes>)
    requires oids != []
    ensures
      var read := ReadRecord(batch, offset, oids[0]);
      SplitFrom(batch, offset, oids) ==
        if read.None? then None
        else
          var rest := SplitFrom(batch, read.value.1, oids[1..]);
          if rest.None? then None else Some([read.value.0] + rest.value)
  {
    hide ReadRecord;
  }

  lemma StandsThen(batch: Bytes, offset: nat, record: Bytes, more: Bytes)
    requires offset <= |batch|
    ensures batch[offset..] == record + more <==> Stands(batch, offset, record) && batch[offset + |record|..] == more
  {
    if offset + |record| <= |batch| {
      var part := batch[offset..];
      assert part == batch[offset..offset + |record|] + batch[offset + |record|..];
      assert (record + more)[..|record|] == record && (record + more)[|record|..] == more;
      assert part[..|record|] == batch[offset..offset + |record|] && part[|record|..] == batch[offset + |record|..];
    }
  }

  /** A print stands at `offset` to the end where its first record does and the rest is the print of the rest. */
  lemma PrintedFrom(batch: Bytes, offset: nat, oids: seq<Bytes>, blobs: seq<Bytes>)
    requires offset <= |batch| && oids != [] && blobs != []
    ensures Printable(oids, blobs) <==> Clean(oids[0]) && |blobs[0]| <= MAX_SAFE && Printable(oids[1..], blobs[1..])
    ensures Printable(oids, blobs) ==>
      var record := Record(oids[0], BLOB, Decimal(|blobs[0]|), blobs[0]);
      (batch[offset..] == Print(oids, blobs) <==>
         Stands(batch, offset, record) && batch[offset + |record|..] == Print(oids[1..], blobs[1..]))
  {
    hide Record, Decimal, Clean, Stands;
    if |oids| == |blobs| {
      assert oids == [oids[0]] + oids[1..] && blobs == [blobs[0]] + blobs[1..];
      var record := Record(oids[0], BLOB, Decimal(|blobs[0]|), blobs[0]);
      StandsThen(batch, offset, record, Print(oids[1..], blobs[1..]));
    }
  }

  /** The strict reader accepts exactly the prints: whatever the blobs hold, printing them under clean names reads back,
  and an accepted batch is the print of what was read, with no byte left over. */
  lemma SplitExactly(batch: Bytes, oids: seq<Bytes>, blobs: seq<Bytes>)
    ensures SplitFrom(batch, 0, oids) == Some(blobs) <==> Printable(oids, blobs) && batch == Print(oids, blobs)
  {
    SplitsFrom(batch, 0, oids, blobs);
    assert batch[0..] == batch;
  }
}
