/** The index file, and how its offsets relate to positions in the chunk file written beside it. */
module Index {
  import opened Base
  import opened LittleEndian
  import opened Chunk

  const INDEX_BYTES := 40

  datatype IndexEntryData = IndexEntryData(offset: u64, uuid: u64, timestamp: i64, roomId: u32, dataLen: u32)

  function IndexMagic(): seq<byte> {
    [0x5A, 0x49, 0x44, 0x58]
  }

  /** The entries fit the engine's 1024 payload bytes. */
  ghost predicate Exportable(es: seq<MessageEntryData>) {
    AllFramed(es) && forall i :: 0 <= i < |es| ==> es[i].dataLen <= 1024
  }

  // ----- Encoding -----

  /** The exporter's running offset before entry `i`. */
  function OffsetOf(es: seq<MessageEntryData>, i: nat): nat
    requires i <= |es|
  {
    if i == 0 then 0 else OffsetOf(es, i - 1) + INDEX_BYTES + es[i - 1].dataLen
  }

  /** A running offset as the 64-bit word that holds it. */
  function Word(offset: nat): u64 {
    offset % 0x1_0000_0000_0000_0000
  }

  function IndexEntry(d: MessageEntryData, offset: nat): IndexEntryData {
    IndexEntryData(Word(offset), d.uuid, d.timestamp, d.roomId, d.dataLen)
  }

  function IndexRecord(x: IndexEntryData, prevHash: u64): (bytes: seq<byte>)
    ensures |bytes| == INDEX_BYTES
  {
    LE(x.offset, 8) + LE(x.uuid, 8) + LE(Unsigned(x.timestamp), 8) + LE(x.roomId, 4) + LE(x.dataLen, 4)
      + LE(prevHash, 8)
  }

  function IndexEntries(es: seq<MessageEntryData>, offset: nat): (xs: seq<IndexEntryData>)
    ensures |xs| == |es|
  {
    if es == [] then []
    else [IndexEntry(es[0], offset)] + IndexEntries(es[1..], offset + INDEX_BYTES + es[0].dataLen)
  }

  function IndexRecords(es: seq<MessageEntryData>, offset: nat): seq<byte> {
    if es == [] then []
    else
      IndexRecord(IndexEntry(es[0], offset), es[0].prevHash)
      + IndexRecords(es[1..], offset + INDEX_BYTES + es[0].dataLen)
  }

  function IndexFile(es: seq<MessageEntryData>): seq<byte> {
    Preamble(IndexMagic(), LE(1, 4), |es|) + IndexRecords(es, 0)
  }

  lemma IndexRecordsOf(es: seq<MessageEntryData>, first: MessageEntryData, rest: seq<MessageEntryData>, offset: nat)
    requires es == [first] + rest
    ensures IndexRecords(es, offset)
         == IndexRecord(IndexEntry(first, offset), first.prevHash)
           + IndexRecords(rest, offset + INDEX_BYTES + first.dataLen)
  {
    assert es[0] == first && es[1..] == rest;
  }

  lemma {:induction false} OffsetOfRest(es: seq<MessageEntryData>, i: nat)
    requires 0 < i <= |es|
    ensures OffsetOf(es, i) == INDEX_BYTES + es[0].dataLen + OffsetOf(es[1..], i - 1)
    decreases i
  {
    if i > 1 {
      OffsetOfRest(es, i - 1);
      assert es[1..][i - 2] == es[i - 1];
    }
  }

  lemma SnocBehindFirst(first: MessageEntryData, rest: seq<MessageEntryData>, d: MessageEntryData, offset: nat,
                        last: seq<byte>)
    requires var next := offset + INDEX_BYTES + first.dataLen;
      IndexRecords(rest + [d], next) == IndexRecords(rest, next) + last
    ensures IndexRecords([first] + rest + [d], offset) == IndexRecords([first] + rest, offset) + last
  {
    IndexRecordsOf([first] + rest, first, rest, offset);
    IndexRecordsOf([first] + rest + [d], first, rest + [d], offset);
    Regroup(IndexRecord(IndexEntry(first, offset), first.prevHash),
            IndexRecords(rest, offset + INDEX_BYTES + first.dataLen), last);
  }

  lemma SnocBehind(es: seq<MessageEntryData>, first: MessageEntryData, rest: seq<MessageEntryData>, d: MessageEntryData,
                   offset: nat, next: nat, last: seq<byte>)
    requires es == [first] + rest && next == offset + INDEX_BYTES + first.dataLen
    requires IndexRecords(rest + [d], next) == IndexRecords(rest, next) + last
    ensures IndexRecords(es + [d], offset) == IndexRecords(es, offset) + last
  {
    SnocBehindFirst(first, rest, d, offset, last);
  }

  lemma SnocAlone(d: MessageEntryData, offset: nat)
    ensures IndexRecords([] + [d], offset) == IndexRecords([], offset) + IndexRecord(IndexEntry(d, offset), d.prevHash)
  {
    var last := IndexRecord(IndexEntry(d, offset), d.prevHash);
    IndexRecordsOf([] + [d], d, [], offset);
    assert last + [] == [] + last;
  }

  lemma FirstAndRest<T>(s: seq<T>)
    requires s != []
    ensures s == [s[0]] + s[1..]
  {
  }

  lemma {:induction false} IndexRecordsSnoc(es: seq<MessageEntryData>, d: MessageEntryData, offset: nat, end: nat)
    requires end == offset + OffsetOf(es, |es|)
    ensures IndexRecords(es + [d], offset) == IndexRecords(es, offset) + IndexRecord(IndexEntry(d, end), d.prevHash)
    decreases |es|
  {
    if es == [] {
      SnocAlone(d, offset);
    } else {
      var last := IndexRecord(IndexEntry(d, end), d.prevHash);
      var rest, next := es[1..], offset + INDEX_BYTES + es[0].dataLen;
      OffsetOfRest(es, |es|);
      IndexRecordsSnoc(rest, d, next, end);
      FirstAndRest(es);
      SnocBehind(es, es[0], rest, d, offset, next, last);
    }
  }

  lemma {:induction false} OffsetOfPrefix(es: seq<MessageEntryData>, i: nat, n: nat)
    requires i <= n <= |es|
    ensures OffsetOf(es[..n], i) == OffsetOf(es, i)
    decreases i
  {
    if i > 0 {
      OffsetOfPrefix(es, i - 1, n);
    }
  }

  lemma IndexRecordsUpTo(es: seq<MessageEntryData>, i: nat)
    requires i < |es|
    ensures IndexRecords(es[..i + 1], 0)
      == IndexRecords(es[..i], 0) + IndexRecord(IndexEntry(es[i], OffsetOf(es, i)), es[i].prevHash)
  {
    assert es[..i + 1] == es[..i] + [es[i]];
    OffsetOfPrefix(es, i, i);
    IndexRecordsSnoc(es[..i], es[i], 0, OffsetOf(es, i));
  }

  // ----- Decoding -----

  datatype IndexProgress = IndexProgress(entries: seq<IndexEntryData>, failed: bool)

  datatype IndexDecoded = IndexDecoded(error: Option<Failure>, entries: Option<seq<IndexEntryData>>)

  function BlankEntry(): IndexEntryData {
    IndexEntryData(0, 0, 0, 0, 0)
  }

  /** An index entry that was allocated and not filled. */
  lemma BlankEntryIsZero()
    ensures var x := BlankEntry(); x.offset == 0 && x.uuid == 0 && x.timestamp == 0 && x.roomId == 0 && x.dataLen == 0
  {
  }

  function BlankIndex(n: nat): (blanks: seq<IndexEntryData>)
    ensures |blanks| == n && forall i :: 0 <= i < n ==> blanks[i] == BlankEntry()
  {
    if n == 0 then [] else BlankIndex(n - 1) + [BlankEntry()]
  }

  /** One index record; the previous hash is read and dropped. */
  function IndexFrom(bytes: seq<byte>): IndexEntryData
    requires |bytes| == INDEX_BYTES
  {
    IndexEntryData(Word64(bytes[0..8]), Word64(bytes[8..16]), Signed(Word64(bytes[16..24])), Word32(bytes[24..28]),
                   Word32(bytes[28..32]))
  }

  function TakeIndex(input: seq<byte>, count: nat): (p: IndexProgress)
    ensures |p.entries| <= count && (p.failed <==> |p.entries| < count)
    decreases count
  {
    if count == 0 then IndexProgress([], false)
    else if |input| < INDEX_BYTES then IndexProgress([], true)
    else
      var p := TakeIndex(input[INDEX_BYTES..], count - 1);
      IndexProgress([IndexFrom(input[..INDEX_BYTES])] + p.entries, p.failed)
  }

  function DecodeIndexRecords(input: seq<byte>, count: nat): IndexDecoded {
    var p := TakeIndex(input, count);
    IndexDecoded(if p.failed then Some(EndOfInput) else None, Some(p.entries + BlankIndex(count - |p.entries|)))
  }

  function DecodeIndex(file: seq<byte>): IndexDecoded {
    if file == [] then IndexDecoded(Some(EndOfInput), None)
    else if Buffer(file, 4) != IndexMagic() then IndexDecoded(Some(BadFormat), None)
    else if |file| < 12 then IndexDecoded(Some(EndOfInput), None)
    else DecodeIndexRecords(file[12..], Word32(file[8..12]))
  }

  // ----- Round trip -----

  lemma IndexSlices(x: IndexEntryData, prevHash: u64)
    ensures var r := IndexRecord(x, prevHash);
      && r[0..8] == LE(x.offset, 8) && r[8..16] == LE(x.uuid, 8) && r[16..24] == LE(Unsigned(x.timestamp), 8)
      && r[24..28] == LE(x.roomId, 4) && r[28..32] == LE(x.dataLen, 4) && r[32..40] == LE(prevHash, 8)
  {
  }

  lemma IndexAt(x: IndexEntryData, prevHash: u64, i: nat)
    requires i < 8
    ensures var r := IndexRecord(x, prevHash);
      && r[i] == r[0..8][i] && r[8 + i] == r[8..16][i] && r[16 + i] == r[16..24][i] && r[32 + i] == r[32..40][i]
      && (i < 4 ==> r[24 + i] == r[24..28][i] && r[28 + i] == r[28..32][i])
  {
  }

  /** Every byte of an index record: lowest byte first, the timestamp in two's complement. */
  lemma IndexBytes(x: IndexEntryData, prevHash: u64, i: nat)
    requires i < 8
    ensures var r := IndexRecord(x, prevHash);
      && r[i] == x.offset / Power256(i) % 256 && r[8 + i] == x.uuid / Power256(i) % 256
      && r[16 + i] == x.timestamp / Power256(i) % 256 && r[32 + i] == prevHash / Power256(i) % 256
    ensures var r := IndexRecord(x, prevHash);
      i < 4 ==> r[24 + i] == x.roomId / Power256(i) % 256 && r[28 + i] == x.dataLen / Power256(i) % 256
  {
    IndexSlices(x, prevHash);
    IndexAt(x, prevHash, i);
    ByteWeight(x.offset, 8, i);
    ByteWeight(x.uuid, 8, i);
    SignedByteWeight(x.timestamp, i);
    ByteWeight(prevHash, 8, i);
    if i < 4 {
      ByteWeight(x.roomId, 4, i);
      ByteWeight(x.dataLen, 4, i);
    }
  }

  /** What loading makes of an index record: each field is the little-endian number at its place, the timestamp up to a
      multiple of 2^64. */
  lemma LoadedIndexIs(bytes: seq<byte>)
    requires |bytes| == INDEX_BYTES
    ensures |bytes| == 40
    ensures var x := IndexFrom(bytes);
      && x.offset == Nat(bytes[0..8]) && x.uuid == Nat(bytes[8..16]) && x.roomId == Nat(bytes[24..28])
      && x.dataLen == Nat(bytes[28..32]) && (x.timestamp - Nat(bytes[16..24])) % 0x1_0000_0000_0000_0000 == 0
  {
    TwosComplement(0, Word64(bytes[16..24]));
  }

  lemma IndexMagicSpells()
    ensures |IndexMagic()| == 4 && forall i :: 0 <= i < 4 ==> IndexMagic()[i] == "ZIDX"[i] as int
  {
  }

  /** An index file spells ZIDX, is of version 1 and counts its entries; the records follow. */
  lemma IndexFileStarts(es: seq<MessageEntryData>, i: nat)
    requires |es| < TWO_32 && i < 4
    ensures var file := IndexFile(es);
      && |file| == 12 + |IndexRecords(es, 0)| && file[12..] == IndexRecords(es, 0)
      && file[i] == "ZIDX"[i] as int && file[4 + i] == (if i == 0 then 1 else 0)
      && file[8 + i] == |es| / Power256(i) % 256
  {
    PreambleBytes(IndexMagic(), |es|, IndexRecords(es, 0), i);
  }

  lemma IndexRecordRoundTrip(x: IndexEntryData, prevHash: u64)
    ensures IndexFrom(IndexRecord(x, prevHash)) == x
  {
    IndexSlices(x, prevHash);
    Word64Of(x.offset);
    Word64Of(x.uuid);
    Word64Of(Unsigned(x.timestamp));
    SignedOf(x.timestamp);
    Word32Of(x.roomId);
    Word32Of(x.dataLen);
  }

  lemma TakeIndexCons(x: IndexEntryData, prevHash: u64, rest: seq<byte>, count: nat)
    ensures var p := TakeIndex(rest, count);
      TakeIndex(IndexRecord(x, prevHash) + rest, count + 1) == IndexProgress([x] + p.entries, p.failed)
  {
    var input := IndexRecord(x, prevHash) + rest;
    assert input[..INDEX_BYTES] == IndexRecord(x, prevHash) && input[INDEX_BYTES..] == rest;
    IndexRecordRoundTrip(x, prevHash);
  }

  lemma IndexRecordsCons(es: seq<MessageEntryData>, offset: nat, tail: seq<byte>)
    requires es != []
    ensures IndexRecords(es, offset) + tail
         == IndexRecord(IndexEntry(es[0], offset), es[0].prevHash)
            + (IndexRecords(es[1..], offset + INDEX_BYTES + es[0].dataLen) + tail)
  {
  }

  lemma TakeMoreIndex(es: seq<MessageEntryData>, offset: nat, tail: seq<byte>)
    requires es != []
    requires var next := offset + INDEX_BYTES + es[0].dataLen;
      TakeIndex(IndexRecords(es[1..], next) + tail, |es| - 1) == IndexProgress(IndexEntries(es[1..], next), false)
    ensures TakeIndex(IndexRecords(es, offset) + tail, |es|) == IndexProgress(IndexEntries(es, offset), false)
  {
    var rest := IndexRecords(es[1..], offset + INDEX_BYTES + es[0].dataLen) + tail;
    IndexRecordsCons(es, offset, tail);
    TakeIndexCons(IndexEntry(es[0], offset), es[0].prevHash, rest, |es| - 1);
  }

  lemma {:induction false} TakeEncodedIndex(es: seq<MessageEntryData>, offset: nat, tail: seq<byte>)
    ensures TakeIndex(IndexRecords(es, offset) + tail, |es|) == IndexProgress(IndexEntries(es, offset), false)
    decreases |es|
  {
    if es != [] {
      TakeEncodedIndex(es[1..], offset + INDEX_BYTES + es[0].dataLen, tail);
      TakeMoreIndex(es, offset, tail);
    } else {
      assert IndexRecords(es, offset) + tail == tail;
    }
  }

  lemma DecodeIndexAfterPreamble(file: seq<byte>)
    requires |file| >= 12 && file[..4] == IndexMagic()
    ensures DecodeIndex(file) == DecodeIndexRecords(file[12..], Word32(file[8..12]))
  {
  }

  /** Loading an exported index gives back the index entries, whatever bytes follow it. */
  lemma IndexRoundTrip(es: seq<MessageEntryData>, trailing: seq<byte>)
    requires AllFramed(es)
    ensures DecodeIndex(IndexFile(es) + trailing) == IndexDecoded(None, Some(IndexEntries(es, 0)))
  {
    var file := IndexFile(es) + trailing;
    var records := IndexRecords(es, 0) + trailing;
    assert file == Preamble(IndexMagic(), LE(1, 4), |es|) + records;
    PreambleSlices(IndexMagic(), LE(1, 4), |es|, records);
    Word32Of(|es|);
    DecodeIndexAfterPreamble(file);
    TakeEncodedIndex(es, 0, trailing);
    assert IndexEntries(es, 0) + BlankIndex(0) == IndexEntries(es, 0);
  }

  lemma {:induction false} TakeIndexExactlyWhen(input: seq<byte>, count: nat)
    ensures TakeIndex(input, count).failed <==> |input| < INDEX_BYTES * count
    decreases count
  {
    if count > 0 && |input| >= INDEX_BYTES {
      TakeIndexExactlyWhen(input[INDEX_BYTES..], count - 1);
    }
  }

  /** An index file loads exactly when it names its format and holds as many records as it counts. */
  lemma IndexLoadsExactlyWhen(file: seq<byte>)
    ensures DecodeIndex(file).error.None? <==>
      && |file| >= 12 && file[..4] == IndexMagic()
      && |file| >= 12 + INDEX_BYTES * Word32(file[8..12])
  {
    if |file| >= 12 && file[..4] == IndexMagic() {
      DecodeIndexAfterPreamble(file);
      TakeIndexExactlyWhen(file[12..], Word32(file[8..12]));
    }
  }

  // ----- Index against chunk -----

  lemma {:induction false} IndexEntryAt(es: seq<MessageEntryData>, offset: nat, i: nat)
    requires i < |es|
    ensures IndexEntries(es, offset)[i] == IndexEntry(es[i], offset + OffsetOf(es, i))
    decreases i
  {
    if i > 0 {
      var next := offset + INDEX_BYTES + es[0].dataLen;
      IndexEntryAt(es[1..], next, i - 1);
      OffsetOfRest(es, i);
      assert IndexEntries(es, offset)[i] == IndexEntries(es[1..], next)[i - 1];
    }
  }

  /** The running offset never wraps, however many entries there are. */
  lemma {:induction false} OffsetFits(es: seq<MessageEntryData>, i: nat)
    requires Exportable(es) && i <= |es|
    ensures OffsetOf(es, i) <= 1064 * i < TWO_64
    decreases i
  {
    if i > 0 {
      OffsetFits(es, i - 1);
    }
  }

  /** The records before entry `i` take four bytes an entry more in the chunk than the index counts. */
  lemma {:induction false} RecordsBefore(es: seq<MessageEntryData>, i: nat)
    requires AllFramed(es) && i <= |es|
    ensures |Records(es[..i])| == OffsetOf(es, i) + 4 * i
    decreases i
  {
    if i > 0 {
      var d := es[i - 1];
      assert es[..i] == es[..i - 1] + [d];
      RecordsAppend(es[..i - 1], [d]);
      RecordsBefore(es, i - 1);
      RecordsCons([d], []);
      assert Framed(d);
    }
  }

  lemma WordHolds(offset: nat)
    requires offset < TWO_64
    ensures Word(offset) == offset
  {
  }

  lemma EntryHolds(d: MessageEntryData, offset: nat)
    requires offset < TWO_64
    ensures IndexEntry(d, offset) == IndexEntryData(offset, d.uuid, d.timestamp, d.roomId, d.dataLen)
  {
    WordHolds(offset);
  }

  lemma EntryOfIndex(es: seq<MessageEntryData>, i: nat, offset: nat)
    requires Exportable(es) && i < |es| && offset == OffsetOf(es, i)
    ensures var d := es[i];
      offset < TWO_64 && IndexEntries(es, 0)[i] == IndexEntryData(offset, d.uuid, d.timestamp, d.roomId, d.dataLen)
  {
    IndexEntryAt(es, 0, i);
    OffsetFits(es, i);
    EntryHolds(es[i], offset);
  }

  lemma SliceBehind(front: seq<byte>, back: seq<byte>)
    ensures (front + back)[|front|..] == back
  {
  }

  lemma JoinTrailing(preamble: seq<byte>, before: seq<byte>, after: seq<byte>, trailing: seq<byte>)
    ensures preamble + (before + after) + trailing == preamble + (before + (after + trailing))
  {
  }

  lemma FileBefore(es: seq<MessageEntryData>, i: nat, trailing: seq<byte>) returns (front: seq<byte>)
    requires AllFramed(es) && i < |es|
    ensures |front| == 12 + OffsetOf(es, i) + 4 * i
    ensures ChunkFile(es) + trailing == front + (Record(es[i]) + (Records(es[i + 1..]) + trailing))
  {
    var preamble, before, after := Preamble(Magic(), LE(1, 4), |es|), es[..i], es[i..];
    RecordsBefore(es, i);
    assert es == before + after && after[1..] == es[i + 1..];
    RecordsAppend(before, after);
    RecordsCons(after, trailing);
    JoinTrailing(preamble, Records(before), Records(after), trailing);
    front := preamble + Records(before);
    Regroup(preamble, Records(before), Records(after) + trailing);
  }

  /** One record decoded at byte `at` is that of `d`, and `rest` follows it. */
  ghost predicate HoldsRecord(file: seq<byte>, at: nat, d: MessageEntryData, rest: seq<byte>) {
    at <= |file| && TakeRecord(OsFile, file[at..]) == Some(Taken(d, rest))
  }

  lemma RecordFound(es: seq<MessageEntryData>, i: nat, at: nat, trailing: seq<byte>)
    requires AllFramed(es) && i < |es| && at == 12 + OffsetOf(es, i) + 4 * i
    ensures HoldsRecord(ChunkFile(es) + trailing, at, es[i], Records(es[i + 1..]) + trailing)
  {
    var front := FileBefore(es, i, trailing);
    var rest := Records(es[i + 1..]) + trailing;
    SliceBehind(front, Record(es[i]) + rest);
    assert Framed(es[i]);
    TakeEncodedRecord(OsFile, es[i], rest);
  }

  /** Record `i` of the chunk starts twelve plus `4 * i` bytes beyond what index entry `i` records: one entry
      decoded there is entry `i`, and index entry `i` agrees with it. */
  lemma IndexFindsRecord(es: seq<MessageEntryData>, i: nat, at: nat, trailing: seq<byte>)
    requires Exportable(es) && i < |es| && at == 12 + IndexEntries(es, 0)[i].offset + 4 * i
    ensures var file := ChunkFile(es) + trailing;
      at <= |file| && TakeRecord(OsFile, file[at..]) == Some(Taken(es[i], Records(es[i + 1..]) + trailing))
    ensures var x := IndexEntries(es, 0)[i];
      x.uuid == es[i].uuid && x.timestamp == es[i].timestamp && x.roomId == es[i].roomId && x.dataLen == es[i].dataLen
  {
    EntryOfIndex(es, i, OffsetOf(es, i));
    RecordFound(es, i, at, trailing);
  }
}
