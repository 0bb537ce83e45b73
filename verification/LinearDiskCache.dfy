/** `LinearDiskCache`: a header and key-value records, appended one by one and read back from the start. */
module LinearDiskCache {
  import opened Bytes
  import opened Common

  /** The header, which depends on the build, and the sizes of the key type and of one value element. */
  datatype Format = Format(header: seq<byte>, keySize: nat, valueSize: nat)

  predicate FormatOk(f: Format) {
    f.keySize > 0 && f.valueSize > 0
  }

  /** A key and `count` value elements, as bytes. */
  datatype Entry = Entry(key: seq<byte>, value: seq<byte>, count: nat)

  predicate EntryOk(f: Format, e: Entry) {
    |e.key| == f.keySize && e.count < 0x1_0000_0000 && |e.value| == ByteSize(e.count, f.valueSize)
  }

  predicate EntriesOk(f: Format, es: seq<Entry>) {
    forall i :: 0 <= i < |es| ==> EntryOk(f, es[i])
  }

  /** What `Append` writes for the entry that becomes number `n`. */
  function Rec(f: Format, e: Entry, n: nat): (r: seq<byte>)
    requires EntryOk(f, e) && n < 0x1_0000_0000
    ensures |r| == 4 + |e.key| + |e.value| + 4
  {
    Bytes32(e.count) + (e.key + (e.value + Bytes32(n)))
  }

  /** The entries numbered from `n + 1`. */
  function Stored(f: Format, es: seq<Entry>, n: nat): seq<byte>
    requires EntriesOk(f, es) && n + |es| < 0x1_0000_0000
  {
    if es == [] then [] else Rec(f, es[0], n + 1) + Stored(f, es[1..], n + 1)
  }

  // ---------------------------------------------------------------- reading

  /** One round of the read loop at `pos`. The extent the source checks is short, but never too long. */
  function ReadEntry(f: Format, file: seq<byte>, pos: nat, n: nat): (r: Option<Entry>)
    requires FormatOk(f)
    ensures r.Some? ==> EntryOk(f, r.value) && pos + 4 + |r.value.key| + |r.value.value| + 4 <= |file|
  {
    if pos + 4 > |file| then None
    else
      var count := Word32(file[pos..pos + 4]);
      WordBound(file[pos..pos + 4]);
      if pos + 4 + count > |file| then None else ReadRest(f, file, pos, n, count, ByteSize(count, f.valueSize))
  }

  function ByteSize(count: nat, size: nat): nat {
    count * size
  }

  /** The rest of a record whose value takes `length` bytes. */
  function ReadRest(f: Format, file: seq<byte>, pos: nat, n: nat, count: nat, length: nat): (r: Option<Entry>)
    ensures r.Some? ==>
              && |r.value.key| == f.keySize && |r.value.value| == length && r.value.count == count
              && pos + 4 + f.keySize + length + 4 <= |file|
  {
    var key, value := pos + 4, pos + 4 + f.keySize;
    var number := value + length;
    if number + 4 > |file| || Word32(file[number..number + 4]) != n + 1 then None
    else Some(Entry(file[key..value], file[value..number], count))
  }

  lemma WordBound(p: seq<byte>)
    requires |p| >= 4
    ensures Word32(p) < 0x1_0000_0000
  {
  }

  function Parse(f: Format, file: seq<byte>, pos: nat, n: nat): (es: seq<Entry>)
    requires FormatOk(f)
    decreases |file| - pos
  {
    match ReadEntry(f, file, pos, n)
    case None => []
    case Some(e) => [e] + Parse(f, file, pos + (4 + |e.key| + |e.value| + 4), n + 1)
  }

  lemma ParseSome(f: Format, file: seq<byte>, pos: nat, n: nat, e: Entry, before: seq<Entry>)
    requires FormatOk(f) && ReadEntry(f, file, pos, n) == Some(e)
    ensures before + Parse(f, file, pos, n) == (before + [e]) + Parse(f, file, pos + (4 + |e.key| + |e.value| + 4), n + 1)
  {
    var rest := Parse(f, file, pos + (4 + |e.key| + |e.value| + 4), n + 1);
    assert before + ([e] + rest) == (before + [e]) + rest;
  }

  lemma ParseNone(f: Format, file: seq<byte>, pos: nat, n: nat)
    requires FormatOk(f) && ReadEntry(f, file, pos, n) == None
    ensures Parse(f, file, pos, n) == []
  {
  }

  predicate HasHeader(f: Format, file: seq<byte>) {
    f.header <= file
  }

  // ---------------------------------------------------------------- round trip

  lemma RecordParts(f: Format, e: Entry, n: nat, s: seq<byte>)
    requires FormatOk(f) && EntryOk(f, e) && n < 0x1_0000_0000 && Rec(f, e, n) <= s
    ensures Word32(s[..4]) == e.count
    ensures s[4..4 + |e.key|] == e.key && s[4 + |e.key|..4 + |e.key| + |e.value|] == e.value
    ensures Word32(s[4 + |e.key| + |e.value|..4 + |e.key| + |e.value| + 4]) == n
  {
    var r := Rec(f, e, n);
    assert r[..4] == Bytes32(e.count) && r[4..4 + |e.key|] == e.key;
    assert r[4 + |e.key|..4 + |e.key| + |e.value|] == e.value;
    assert r[4 + |e.key| + |e.value|..] == Bytes32(n);
    assert s[..|r|] == r;
    Word32Of(e.count, []);
    Word32Of(n, []);
  }

  lemma CountFits(count: nat, size: nat)
    requires size > 0
    ensures count <= count * size
  {
  }

  lemma ReadsRecord(f: Format, file: seq<byte>, pos: nat, e: Entry, n: nat)
    requires FormatOk(f) && EntryOk(f, e) && n + 1 < 0x1_0000_0000 && pos <= |file| && Rec(f, e, n + 1) <= file[pos..]
    ensures ReadEntry(f, file, pos, n) == Some(e)
  {
    var s := file[pos..];
    RecordParts(f, e, n + 1, s);
    CountFits(e.count, f.valueSize);
    var key, value := 4 + |e.key|, 4 + |e.key| + |e.value|;
    assert file[pos..pos + 4] == s[..4] && file[pos + 4..pos + key] == s[4..key];
    assert file[pos + key..pos + value] == s[key..value] && file[pos + value..pos + value + 4] == s[value..value + 4];
  }

  /** A record that has been cut off is not read. */
  lemma CutRecord(f: Format, file: seq<byte>, pos: nat, e: Entry, n: nat)
    requires FormatOk(f) && EntryOk(f, e) && n + 1 < 0x1_0000_0000 && pos <= |file| && file[pos..] < Rec(f, e, n + 1)
    ensures ReadEntry(f, file, pos, n) == None
  {
    if pos + 4 <= |file| {
      RecordParts(f, e, n + 1, Rec(f, e, n + 1));
      assert file[pos..pos + 4] == Rec(f, e, n + 1)[..4];
    }
  }

  // ---------------------------------------------------------------- the bytes of a record

  /** Four bytes, the least significant first. */
  function LowFirst(n: nat): seq<byte> {
    [n % 0x100, n / 0x100 % 0x100, n / 0x1_0000 % 0x100, n / 0x100_0000 % 0x100]
  }

  lemma LowFirstIs(n: nat)
    requires n < 0x1_0000_0000
    ensures Bytes32(n) == LowFirst(n)
  {
    var low, high := n % 0x1_0000, n / 0x1_0000;
    assert low % 0x100 == n % 0x100 && low / 0x100 == n / 0x100 % 0x100;
    assert high / 0x100 == n / 0x100_0000;
  }

  lemma WordIsBytes(p: seq<byte>)
    requires |p| == 4
    ensures Word32(p) < 0x1_0000_0000 && p == Bytes32(Word32(p))
  {
    var low, high := Word16(p[0], p[1]), Word16(p[2], p[3]);
    var l: int, h: int := low, high;
    assert Word32(p) == l + 0x1_0000 * h;
    WordHalves(l, h, Word32(p));
    assert Bytes16(low) == [p[0], p[1]] && Bytes16(high) == [p[2], p[3]];
  }

  lemma WordHalves(l: nat, h: nat, n: nat)
    requires l < 0x1_0000 && h < 0x1_0000 && n == l + 0x1_0000 * h
    ensures n < 0x1_0000_0000 && n % 0x1_0000 == l && n / 0x1_0000 == h
  {
  }

  /** The number of elements, the key, the value and the record's own number, counted from one. */
  predicate IsRecord(r: seq<byte>, e: Entry, n: nat) {
    r == LowFirst(e.count) + e.key + e.value + LowFirst(n)
  }

  lemma RecordIs(f: Format, e: Entry, n: nat)
    requires EntryOk(f, e) && n < 0x1_0000_0000
    ensures IsRecord(Rec(f, e, n), e, n)
  {
    LowFirstIs(e.count);
    LowFirstIs(n);
    assert Rec(f, e, n) == LowFirst(e.count) + e.key + e.value + LowFirst(n);
  }

  /** The record with this number stands at `pos`. */
  predicate StandsAt(f: Format, file: seq<byte>, pos: nat, e: Entry, n: nat) {
    && EntryOk(f, e) && n < 0x1_0000_0000 && pos <= |file|
    && Rec(f, e, n) <= file[pos..]
  }

  /** Whatever the file holds: an entry is read exactly where its whole record, with the next number, stands. */
  lemma ReadsIffRecord(f: Format, file: seq<byte>, pos: nat, n: nat, e: Entry)
    requires FormatOk(f)
    ensures ReadEntry(f, file, pos, n) == Some(e) <==> StandsAt(f, file, pos, e, n + 1)
  {
    if StandsAt(f, file, pos, e, n + 1) {
      ReadsRecord(f, file, pos, e, n);
    }
    if ReadEntry(f, file, pos, n) == Some(e) {
      var key, value, number := pos + 4, pos + 4 + |e.key|, pos + 4 + |e.key| + |e.value|;
      WordIsBytes(file[pos..key]);
      WordIsBytes(file[number..number + 4]);
      Adjacent(file, pos, key, value, number, number + 4);
    }
  }

  lemma Adjacent(file: seq<byte>, a: nat, b: nat, c: nat, d: nat, e: nat)
    requires a <= b <= c <= d <= e <= |file|
    ensures file[a..b] + (file[b..c] + (file[c..d] + file[d..e])) <= file[a..]
  {
    assert file[c..d] + file[d..e] == file[c..e];
    assert file[b..c] + file[c..e] == file[b..e];
    assert file[a..b] + file[b..e] == file[a..e] == file[a..][..e - a];
  }

  /** These entries, numbered from `n + 1`, stand one behind the other from `pos`. */
  predicate StandFrom(f: Format, file: seq<byte>, pos: nat, n: nat, es: seq<Entry>)
    decreases |es|
  {
    es == [] || (StandsAt(f, file, pos, es[0], n + 1) &&
                 StandFrom(f, file, pos + (4 + |es[0].key| + |es[0].value| + 4), n + 1, es[1..]))
  }

  lemma ParseFirst(f: Format, file: seq<byte>, pos: nat, n: nat, e: Entry, next: nat)
    requires FormatOk(f) && ReadEntry(f, file, pos, n) == Some(e) && next == pos + (4 + |e.key| + |e.value| + 4)
    ensures Parse(f, file, pos, n) == [e] + Parse(f, file, next, n + 1)
  {
  }

  lemma StandFirst(f: Format, file: seq<byte>, pos: nat, n: nat, e: Entry, es: seq<Entry>, next: nat)
    requires next == pos + (4 + |e.key| + |e.value| + 4)
    ensures StandFrom(f, file, pos, n, [e] + es) <==> StandsAt(f, file, pos, e, n + 1) && StandFrom(f, file, next, n + 1, es)
  {
    assert ([e] + es)[1..] == es;
  }

  /** What is read of any file is a run of records, correctly numbered, that stands there, */
  lemma {:induction false} ReadsARun(f: Format, file: seq<byte>, pos: nat, n: nat)
    requires FormatOk(f)
    ensures StandFrom(f, file, pos, n, Parse(f, file, pos, n))
    decreases |file| - pos
  {
    var first := ReadEntry(f, file, pos, n);
    if first.None? {
      ParseNone(f, file, pos, n);
    } else {
      var e, next := first.value, pos + (4 + |first.value.key| + |first.value.value| + 4);
      ParseFirst(f, file, pos, n, e, next);
      ReadsIffRecord(f, file, pos, n, e);
      ReadsARun(f, file, next, n + 1);
      StandFirst(f, file, pos, n, e, Parse(f, file, next, n + 1), next);
    }
  }

  /** and any such run is a part of it, from its start. */
  lemma {:induction false} ReadsTheLongestRun(f: Format, file: seq<byte>, pos: nat, n: nat, es: seq<Entry>)
    requires FormatOk(f) && StandFrom(f, file, pos, n, es)
    ensures es <= Parse(f, file, pos, n)
    decreases |es|
  {
    if es != [] {
      var e, rest, next := es[0], es[1..], pos + (4 + |es[0].key| + |es[0].value| + 4);
      assert es == [e] + rest;
      StandFirst(f, file, pos, n, e, rest, next);
      ReadsIffRecord(f, file, pos, n, e);
      ParseFirst(f, file, pos, n, e, next);
      ReadsTheLongestRun(f, file, next, n + 1, rest);
    }
  }

  /** How many of the first entries lie wholly within `size` bytes. */
  function Complete(es: seq<Entry>, size: nat): (k: nat)
    ensures k <= |es|
  {
    if es == [] then 0
    else
      var r := 4 + |es[0].key| + |es[0].value| + 4;
      if size < r then 0 else 1 + Complete(es[1..], size - r)
  }

  lemma FirstOfStored(f: Format, es: seq<Entry>, n: nat)
    requires EntriesOk(f, es) && es != [] && n + |es| < 0x1_0000_0000
    ensures var r := Rec(f, es[0], n + 1);
            && Stored(f, es, n) == r + Stored(f, es[1..], n + 1)
            && Stored(f, es, n)[..|r|] == r && Stored(f, es, n)[|r|..] == Stored(f, es[1..], n + 1)
  {
  }

  lemma Prefixes(s: seq<byte>, r: seq<byte>, rest: seq<byte>)
    requires s <= r + rest
    ensures if |s| < |r| then s < r else r <= s && s[|r|..] <= rest
  {
    if |s| < |r| {
      assert s == (r + rest)[..|s|] == r[..|s|];
    } else {
      assert s[..|r|] == (r + rest)[..|r|] == r;
      assert s[|r|..] == (r + rest)[|r|..|s|] == rest[..|s| - |r|];
    }
  }

  /** From `pos` the file is a part of the stored entries, from their start. */
  predicate Continues(f: Format, file: seq<byte>, pos: nat, n: nat, es: seq<Entry>)
    requires EntriesOk(f, es) && n + |es| < 0x1_0000_0000
  {
    pos <= |file| && file[pos..] <= Stored(f, es, n)
  }

  predicate ReadsComplete(f: Format, file: seq<byte>, pos: nat, n: nat, es: seq<Entry>)
    requires FormatOk(f) && pos <= |file|
  {
    Parse(f, file, pos, n) == es[..Complete(es, |file| - pos)]
  }

  lemma {:induction false} ParseStored(f: Format, file: seq<byte>, pos: nat, n: nat, es: seq<Entry>)
    requires FormatOk(f) && EntriesOk(f, es) && n + |es| < 0x1_0000_0000
    requires Continues(f, file, pos, n, es)
    ensures ReadsComplete(f, file, pos, n, es)
    decreases |es|
  {
    if es == [] {
      AtTheEnd(f, file, pos, n);
      NothingComplete(f, file, pos, n, es);
    } else {
      var next := pos + (4 + |es[0].key| + |es[0].value| + 4);
      StoredStep(f, file, pos, n, es, next);
      if |file| < next {
        NothingComplete(f, file, pos, n, es);
      } else {
        ParseStored(f, file, next, n + 1, es[1..]);
        ParseMore(f, file, pos, n, es, next);
      }
    }
  }

  lemma AtTheEnd(f: Format, file: seq<byte>, pos: nat, n: nat)
    requires FormatOk(f) && n < 0x1_0000_0000 && Continues(f, file, pos, n, [])
    ensures |file| == pos && ReadEntry(f, file, pos, n) == None
  {
    assert |file[pos..]| == 0;
  }

  lemma NothingComplete(f: Format, file: seq<byte>, pos: nat, n: nat, es: seq<Entry>)
    requires FormatOk(f) && pos <= |file| && ReadEntry(f, file, pos, n) == None
    requires es == [] || |file| - pos < 4 + |es[0].key| + |es[0].value| + 4
    ensures ReadsComplete(f, file, pos, n, es)
  {
    ParseNone(f, file, pos, n);
  }

  /** The first record is read if it is complete, and nothing if it is cut off. */
  lemma StoredStep(f: Format, file: seq<byte>, pos: nat, n: nat, es: seq<Entry>, next: nat)
    requires FormatOk(f) && EntriesOk(f, es) && n + |es| < 0x1_0000_0000 && es != []
    requires next == pos + (4 + |es[0].key| + |es[0].value| + 4) && Continues(f, file, pos, n, es)
    ensures |file| < next ==> ReadEntry(f, file, pos, n) == None
    ensures next <= |file| ==> ReadEntry(f, file, pos, n) == Some(es[0]) && Continues(f, file, next, n + 1, es[1..])
  {
    var r := Rec(f, es[0], n + 1);
    FirstOfStored(f, es, n);
    Prefixes(file[pos..], r, Stored(f, es[1..], n + 1));
    if |file| - pos < |r| {
      CutRecord(f, file, pos, es[0], n);
    } else {
      ReadsRecord(f, file, pos, es[0], n);
      assert file[pos..][|r|..] == file[pos + |r|..];
    }
  }

  lemma ParseMore(f: Format, file: seq<byte>, pos: nat, n: nat, es: seq<Entry>, next: nat)
    requires FormatOk(f) && es != [] && pos <= next <= |file| && next == pos + (4 + |es[0].key| + |es[0].value| + 4)
    requires ReadEntry(f, file, pos, n) == Some(es[0]) && ReadsComplete(f, file, next, n + 1, es[1..])
    ensures ReadsComplete(f, file, pos, n, es)
  {
    var k := Complete(es[1..], |file| - next);
    assert es[..1 + k] == [es[0]] + es[1..][..k];
  }

  /** A cache that was written, and perhaps cut off behind its header, gives back exactly the entries that are complete. */
  lemma TruncatedFile(f: Format, es: seq<Entry>, size: nat)
    requires FormatOk(f) && EntriesOk(f, es) && |es| < 0x1_0000_0000
    requires |f.header| <= size <= |f.header + Stored(f, es, 0)|
    ensures HasHeader(f, (f.header + Stored(f, es, 0))[..size])
    ensures Parse(f, (f.header + Stored(f, es, 0))[..size], |f.header|, 0) == es[..Complete(es, size - |f.header|)]
  {
    CutBehind(f.header, Stored(f, es, 0), size);
    ParseStored(f, (f.header + Stored(f, es, 0))[..size], |f.header|, 0, es);
  }

  lemma CutBehind(header: seq<byte>, content: seq<byte>, size: nat)
    requires |header| <= size <= |header + content|
    ensures header <= (header + content)[..size] && (header + content)[..size][|header|..] <= content
  {
  }

  lemma {:induction false} AllComplete(f: Format, es: seq<Entry>, n: nat)
    requires EntriesOk(f, es) && n + |es| < 0x1_0000_0000
    ensures Complete(es, |Stored(f, es, n)|) == |es|
    decreases |es|
  {
    if es != [] {
      AllComplete(f, es[1..], n + 1);
    }
  }

  /** A whole one gives back all of them. */
  lemma WholeFile(f: Format, es: seq<Entry>)
    requires FormatOk(f) && EntriesOk(f, es) && |es| < 0x1_0000_0000
    ensures Parse(f, f.header + Stored(f, es, 0), |f.header|, 0) == es
  {
    var whole := f.header + Stored(f, es, 0);
    AllComplete(f, es, 0);
    TruncatedFile(f, es, |whole|);
    assert whole[..|whole|] == whole && es[..|es|] == es;
  }

  lemma {:induction false} StoredSnoc(f: Format, es: seq<Entry>, e: Entry, n: nat)
    requires EntriesOk(f, es) && EntryOk(f, e) && n + |es| + 1 < 0x1_0000_0000
    ensures EntriesOk(f, es + [e]) && Stored(f, es + [e], n) == Stored(f, es, n) + Rec(f, e, n + |es| + 1)
    decreases |es|
  {
    if es == [] {
      assert (es + [e])[1..] == [];
      assert Stored(f, es + [e], n) == Rec(f, e, n + 1) + [];
    } else {
      assert (es + [e])[1..] == es[1..] + [e];
      StoredSnoc(f, es[1..], e, n + 1);
    }
  }

  // ---------------------------------------------------------------- the class

  /** `entries` have been read from `start` to `pos`. */
  predicate ReadSoFar(f: Format, file: seq<byte>, start: nat, entries: seq<Entry>, pos: nat)
    requires FormatOk(f)
  {
    entries + Parse(f, file, pos, |entries|) == Parse(f, file, start, 0)
  }

  lemma ReadMore(f: Format, file: seq<byte>, start: nat, entries: seq<Entry>, pos: nat, e: Entry)
    requires FormatOk(f) && ReadSoFar(f, file, start, entries, pos) && ReadEntry(f, file, pos, |entries|) == Some(e)
    ensures ReadSoFar(f, file, start, entries + [e], pos + (4 + |e.key| + |e.value| + 4))
  {
    ParseSome(f, file, pos, |entries|, e, entries);
  }

  lemma ReadAll(f: Format, file: seq<byte>, start: nat, entries: seq<Entry>, pos: nat)
    requires FormatOk(f) && ReadSoFar(f, file, start, entries, pos) && ReadEntry(f, file, pos, |entries|) == None
    ensures entries == Parse(f, file, start, 0)
  {
    ParseNone(f, file, pos, |entries|);
    assert entries + [] == entries;
  }

  lemma ReadNothing(f: Format, file: seq<byte>, start: nat)
    requires FormatOk(f)
    ensures ReadSoFar(f, file, start, [], start)
  {
  }

  /** The read loop. */
  method ReadEntries(f: Format, file: seq<byte>, start: nat) returns (entries: seq<Entry>)
    requires FormatOk(f)
    ensures entries == Parse(f, file, start, 0)
  {
    entries := [];
    var lastPos := start;
    var next := ReadEntry(f, file, start, 0);
    ReadNothing(f, file, start);
    while next.Some?
      invariant next == ReadEntry(f, file, lastPos, |entries|)
      invariant ReadSoFar(f, file, start, entries, lastPos)
      decreases |file| - lastPos
    {
      var e := next.value;
      ReadMore(f, file, start, entries, lastPos, e);
      entries := entries + [e];
      lastPos := lastPos + (4 + |e.key| + |e.value| + 4);
      next := ReadEntry(f, file, lastPos, |entries|);
    }
    ReadAll(f, file, start, entries, lastPos);
  }

  class LinearDiskCache {
    const format: Format
    var file: seq<byte>
    var numEntries: nat

    /** The file holds these entries and nothing else. */
    ghost predicate Contains(es: seq<Entry>)
      reads this
    {
      && FormatOk(format) && EntriesOk(format, es) && |es| < 0x1_0000_0000
      && file == format.header + Stored(format, es, 0) && numEntries == |es|
    }

    constructor (format: Format, file: seq<byte>)
      ensures this.format == format && this.file == file
    {
      this.format, this.file, numEntries := format, file, 0;
    }

    /** Passes the entries to the reader, or starts a new file if the header is another one's. */
    method OpenAndRead() returns (entries: seq<Entry>)
      requires FormatOk(format)
      modifies this`file, this`numEntries
      ensures format.header <= old(file) ==> file == old(file) && entries == Parse(format, file, |format.header|, 0)
      ensures !(format.header <= old(file)) ==> entries == [] && file == format.header && Contains([])
      ensures numEntries == |entries|
    {
      entries := [];
      if format.header <= file {
        entries := ReadEntries(format, file, |format.header|);
      } else {
        file := format.header;
        assert format.header + [] == format.header;
      }
      numEntries := |entries|;
    }

    /** At the end of the file, after it has been created, read to its last entry or appended to. */
    method Append(e: Entry, ghost es: seq<Entry>)
      requires Contains(es) && EntryOk(format, e) && numEntries + 1 < 0x1_0000_0000
      modifies this`file, this`numEntries
      ensures Contains(es + [e])
    {
      StoredSnoc(format, es, e, 0);
      var before := file;
      file := file + Bytes32(e.count);
      file := file + e.key;
      file := file + e.value;
      numEntries := numEntries + 1;
      file := file + Bytes32(numEntries);
      assert file == before + Rec(format, e, numEntries);
    }
  }
}
