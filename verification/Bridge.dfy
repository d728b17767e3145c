/** The Go side of the database: an object over the engine with its own counters and loaded files. */
module Bridge {
  import opened Base
  import opened Entry
  import opened LittleEndian
  import opened Chunk
  import opened Index
  import opened Layout
  import opened MessageLog
  import opened StateHash
  import opened Sync
  import Engine
  import TextSearch

  datatype Error =
    | ShuttingDown
    | RegionFull
    | NoMessages
    | NoChunkLoaded
    | EmptyQuery

  function NextUuid(counter: u64): u64 {
    if counter == TWO_64 - 1 then 0 else counter + 1
  }

  /** The counter after `n` accepted writes. */
  function CounterAfter(start: u64, n: nat): u64 {
    if n == 0 then start else NextUuid(CounterAfter(start, n - 1))
  }

  lemma {:induction false} CounterAfterIs(start: u64, n: nat)
    ensures CounterAfter(start, n) == (start + n) % 0x1_0000_0000_0000_0000
    decreases n
  {
    if n == 0 {
      NothingToWrap(start);
    } else {
      var x, counter := start + (n - 1), CounterAfter(start, n - 1);
      CounterAfterIs(start, n - 1);
      WrapsOn(x, counter, NextUuid(counter));
    }
  }

  // ----- Reading files -----

  /** A `binary.Read` of four or eight bytes: all of them, or nothing. */
  method Read32(file: seq<byte>, at: nat) returns (word: Option<u32>)
    requires at <= |file|
    ensures word == if at + 4 <= |file| then Some(Word32(file[at..at + 4])) else None
  {
    if |file| - at < 4 {
      return None;
    }
    return Some(Word32(file[at..at + 4]));
  }

  method Read64(file: seq<byte>, at: nat) returns (word: Option<u64>)
    requires at <= |file|
    ensures word == if at + 8 <= |file| then Some(Word64(file[at..at + 8])) else None
  {
    if |file| - at < 8 {
      return None;
    }
    return Some(Word64(file[at..at + 8]));
  }

  /** The magic by a plain read, then version and count; the version's value is ignored. */
  method ReadPreamble(reader: Reader, file: seq<byte>, magic: seq<byte>) returns (count: Result<u32, Failure>)
    requires |magic| == 4 && magic[3] != 0
    ensures count.Ok? ==> |file| >= 12 && file[..4] == magic && count.value == Word32(file[8..12])
    ensures count.Err? ==> file == [] || Buffer(file, 4) != magic || |file| < 12
    ensures count.Err? ==> count.error == if file != [] && Buffer(file, 4) != magic then BadFormat else EndOfInput
  {
    var got := PlainRead(reader, file, 4);
    if got.None? {
      return Err(EndOfInput);
    }
    var buffer := Buffer(file, 4);
    if buffer != magic {
      return Err(BadFormat);
    }
    WholeMagic(file, magic);
    var version := Read32(file, 4);
    if version.None? {
      return Err(EndOfInput);
    }
    var counted := Read32(file, 8);
    if counted.None? {
      return Err(EndOfInput);
    }
    return Ok(counted.value);
  }

  /** The seven reads that fill a record's fixed fields, in the record's order. */
  method ReadHeader(input: seq<byte>) returns (r: Option<MessageEntryData>)
    ensures r == if |input| < HEADER_BYTES then None else Some(HeaderFrom(input[..HEADER_BYTES]))
  {
    var roomId := Read32(input, 0);
    if roomId.None? {
      return None;
    }
    var uuid := Read64(input, 4);
    if uuid.None? {
      return None;
    }
    var timestamp := Read64(input, 12);
    if timestamp.None? {
      return None;
    }
    var prevHash := Read64(input, 20);
    if prevHash.None? {
      return None;
    }
    var stateHash := Read64(input, 28);
    if stateHash.None? {
      return None;
    }
    var dataLen := Read32(input, 36);
    if dataLen.None? {
      return None;
    }
    var checksum := Read32(input, 40);
    if checksum.None? {
      return None;
    }
    HeaderFromPrefix(input);
    return Some(MessageEntryData(roomId.value, uuid.value, Signed(timestamp.value), prevHash.value, stateHash.value,
                                 dataLen.value, checksum.value, []));
  }

  // ----- Reading through an entry pointer -----

  /** The payload that a reader gets, if any. */
  method ReadPayload(e: MessageEntry) returns (data: Option<seq<byte>>)
    requires WellFormed(e)
    ensures var m := Content(e); data == if m.payload == [] then None else Some(m.payload)
  {
    var image := Image(e);
    PointerReads(e);
    var dataLen := Load32(image, 36);
    if 0 < dataLen <= 1024 {
      return Some(image[44..44 + dataLen]);
    }
    return None;
  }

  /** One record of the chunk file. */
  method ChunkRecord(e: MessageEntry) returns (record: seq<byte>)
    requires WellFormed(e)
    ensures record == Record(DataOf(e))
  {
    var image := Image(e);
    PointerReads(e);
    var roomId, uuid, timestamp := Load32(image, 0), Load64(image, 4), Signed(Load64(image, 12));
    var prevHash, stateHash := Load64(image, 20), Load64(image, 28);
    var dataLen, checksum := Load32(image, 36), Load32(image, 40);
    record := LE(roomId, 4) + LE(uuid, 8) + LE(Unsigned(timestamp), 8) + LE(prevHash, 8) + LE(stateHash, 8)
              + LE(dataLen, 4) + LE(checksum, 4);
    assert record == Header(DataOf(e));
    if 0 < dataLen <= 1024 {
      record := record + image[44..44 + dataLen];
    }
  }

  /** The index record of an entry at an offset, and the offset behind it. */
  predicate IsIndexRecord(d: MessageEntryData, offset: u64, record: seq<byte>, next: u64) {
    record == IndexRecord(IndexEntry(d, offset), d.prevHash) && next == Word(offset + INDEX_BYTES + d.dataLen)
  }

  /** One record of the index file. */
  method RecordForIndex(e: MessageEntry, offset: u64) returns (record: seq<byte>, next: u64)
    requires WellFormed(e)
    ensures IsIndexRecord(DataOf(e), offset, record, next)
  {
    var image := Image(e);
    PointerReads(e);
    var roomId, uuid, timestamp := Load32(image, 0), Load64(image, 4), Signed(Load64(image, 12));
    var dataLen, prevHash := Load32(image, 36), Load64(image, 20);
    WordHolds(offset);
    record := LE(offset, 8) + LE(uuid, 8) + LE(Unsigned(timestamp), 8) + LE(roomId, 4) + LE(dataLen, 4)
      + LE(prevHash, 8);
    next := Word(offset + 8 + 8 + 8 + 4 + 4 + 8 + dataLen);
  }

  lemma ChunkGrows(live: seq<MessageEntryData>, i: nat, file: seq<byte>, count: u32)
    requires i < |live| && file == Preamble(Magic(), LE(1, 4), count) + Records(live[..i])
    ensures file + Record(live[i]) == Preamble(Magic(), LE(1, 4), count) + Records(live[..i + 1])
  {
    RecordsUpTo(live, i);
    Regroup(Preamble(Magic(), LE(1, 4), count), Records(live[..i]), Record(live[i]));
  }

  lemma ChunkStarts(live: seq<MessageEntryData>, count: u32)
    ensures Magic() + LE(1, 4) + LE(count, 4) == Preamble(Magic(), LE(1, 4), count) + Records(live[..0])
  {
  }

  lemma ChunkEnds(live: seq<MessageEntryData>, file: seq<byte>)
    requires file == Preamble(Magic(), LE(1, 4), |live|) + Records(live[..|live|])
    ensures file == ChunkFile(live)
  {
    assert live[..|live|] == live;
  }

  /** The index file with `i` records written and the running offset behind them. */
  ghost predicate IndexIsAt(live: seq<MessageEntryData>, i: nat, file: seq<byte>, offset: nat) {
    && i <= |live| < TWO_32 && offset == OffsetOf(live, i)
    && file == Preamble(IndexMagic(), LE(1, 4), |live|) + IndexRecords(live[..i], 0)
  }

  lemma IndexStarts(live: seq<MessageEntryData>)
    requires |live| < TWO_32
    ensures IndexIsAt(live, 0, IndexMagic() + LE(1, 4) + LE(|live|, 4), 0)
  {
  }

  lemma IndexEnds(live: seq<MessageEntryData>, file: seq<byte>, offset: nat)
    requires IndexIsAt(live, |live|, file, offset)
    ensures file == IndexFile(live)
  {
    assert live[..|live|] == live;
  }

  lemma IndexGrows(live: seq<MessageEntryData>, i: nat, d: MessageEntryData, file: seq<byte>, offset: u64,
                   record: seq<byte>, next: u64)
    requires Exportable(live) && i < |live| && live[i] == d && IndexIsAt(live, i, file, offset)
    requires IsIndexRecord(d, offset, record, next)
    ensures IndexIsAt(live, i + 1, file + record, next)
  {
    IndexRecordsUpTo(live, i);
    Regroup(Preamble(IndexMagic(), LE(1, 4), |live|), IndexRecords(live[..i], 0), record);
    OffsetFits(live, i + 1);
    WordHolds(OffsetOf(live, i + 1));
  }

  /** One record: its fixed fields, then a plain read into a buffer of the length they name. */
  method ReadRecord(reader: Reader, input: seq<byte>) returns (t: Option<Taken>)
    ensures t == TakeRecord(reader, input)
  {
    var header := ReadHeader(input);
    if header.None? {
      return None;
    }
    var entry := header.value;
    var body := input[HEADER_BYTES..];
    var n := PlainRead(reader, body, entry.dataLen);
    if n.None? {
      return None;
    }
    entry := entry.(data := Buffer(body, entry.dataLen));
    return Some(Taken(entry, body[n.value..]));
  }

  // ----- The loading loops -----

  /** With `done` read and `left` records to go, the chunk loop will end with `done` and what is still to come. */
  ghost predicate Remaining(reader: Reader, input: seq<byte>, count: nat, done: seq<MessageEntryData>,
                            rest: seq<byte>, left: nat) {
    var p := TakeRecords(reader, rest, left);
    |done| + left == count && TakeRecords(reader, input, count) == Progress(done + p.entries, p.rest, p.failed)
  }

  lemma LoadSteps(reader: Reader, input: seq<byte>, count: nat, done: seq<MessageEntryData>, rest: seq<byte>,
                  left: nat, t: Taken)
    requires Remaining(reader, input, count, done, rest, left + 1) && TakeRecord(reader, rest) == Some(t)
    ensures Remaining(reader, input, count, done + [t.entry], t.rest, left)
  {
    var more := TakeRecords(reader, t.rest, left).entries;
    TakeRecordsCons(reader, rest, t, left);
    Regroup(done, [t.entry], more);
  }

  lemma OneMore<T>(s: seq<T>, i: nat, x: T)
    requires i < |s|
    ensures s[i := x][..i + 1] == s[..i] + [x]
  {
  }

  /** The entries from `i` on are still as they were allocated. */
  ghost predicate StillBlank(loaded: seq<MessageEntryData>, i: nat)
    requires i <= |loaded|
  {
    loaded[i..] == Blanks(|loaded| - i)
  }

  lemma BlankAfter(loaded: seq<MessageEntryData>, i: nat, entry: MessageEntryData)
    requires i < |loaded| && StillBlank(loaded, i)
    ensures StillBlank(loaded[i := entry], i + 1)
  {
    var n := |loaded| - i;
    assert loaded[i := entry][i + 1..] == loaded[i..][1..];
    assert forall k :: 0 <= k < n - 1 ==> Blanks(n)[1..][k] == BlankData() && Blanks(n - 1)[k] == BlankData();
    assert Blanks(n)[1..] == Blanks(n - 1);
  }

  lemma LoadFails(reader: Reader, input: seq<byte>, count: nat, done: seq<MessageEntryData>, rest: seq<byte>, left: nat)
    requires Remaining(reader, input, count, done, rest, left) && left > 0 && TakeRecord(reader, rest) == None
    ensures DecodeRecords(reader, input, count) == Decoded(Some(EndOfInput), Some(done + Blanks(left)), rest)
  {
    assert done + [] == done;
  }

  lemma Extended<T>(done: seq<T>, i: nat, x: T, more: seq<T>)
    requires i < |done|
    ensures done[i := x][..i + 1] + more == done[..i] + ([x] + more)
  {
  }

  ghost predicate IndexLoadIsAt(input: seq<byte>, loaded: seq<IndexEntryData>, i: nat, rest: seq<byte>) {
    && i <= |loaded|
    && (forall k :: i <= k < |loaded| ==> loaded[k] == BlankEntry())
    && var p := TakeIndex(rest, |loaded| - i);
      TakeIndex(input, |loaded|) == IndexProgress(loaded[..i] + p.entries, p.failed)
  }

  lemma IndexLoadStarts(input: seq<byte>, count: nat)
    ensures IndexLoadIsAt(input, BlankIndex(count), 0, input)
  {
    var p := TakeIndex(input, count);
    assert BlankIndex(count)[..0] + p.entries == p.entries;
  }

  lemma IndexLoadSteps(input: seq<byte>, loaded: seq<IndexEntryData>, i: nat, rest: seq<byte>)
    requires IndexLoadIsAt(input, loaded, i, rest) && i < |loaded| && |rest| >= INDEX_BYTES
    ensures IndexLoadIsAt(input, loaded[i := IndexFrom(rest[..INDEX_BYTES])], i + 1, rest[INDEX_BYTES..])
  {
    var x := IndexFrom(rest[..INDEX_BYTES]);
    var p := TakeIndex(rest[INDEX_BYTES..], |loaded| - i - 1);
    Extended(loaded, i, x, p.entries);
  }

  lemma IndexLoadFails(input: seq<byte>, loaded: seq<IndexEntryData>, i: nat, rest: seq<byte>)
    requires IndexLoadIsAt(input, loaded, i, rest) && i < |loaded| && |rest| < INDEX_BYTES
    ensures DecodeIndexRecords(input, |loaded|) == IndexDecoded(Some(EndOfInput), Some(loaded))
  {
    assert loaded[..i] + [] == loaded[..i];
    assert loaded == loaded[..i] + BlankIndex(|loaded| - i);
  }

  lemma IndexLoadEnds(input: seq<byte>, loaded: seq<IndexEntryData>, rest: seq<byte>)
    requires IndexLoadIsAt(input, loaded, |loaded|, rest)
    ensures DecodeIndexRecords(input, |loaded|) == IndexDecoded(None, Some(loaded))
  {
    assert loaded[..|loaded|] + [] == loaded;
    assert loaded + BlankIndex(0) == loaded;
  }

  lemma IndexFields(input: seq<byte>)
    requires |input| >= INDEX_BYTES
    ensures IndexFrom(input[..INDEX_BYTES])
         == IndexEntryData(Word64(input[0..8]), Word64(input[8..16]), Signed(Word64(input[16..24])),
                           Word32(input[24..28]), Word32(input[28..32]))
  {
    SliceOfPrefix(input, 0, 8, 40);
    SliceOfPrefix(input, 8, 16, 40);
    SliceOfPrefix(input, 16, 24, 40);
    SliceOfPrefix(input, 24, 28, 40);
    SliceOfPrefix(input, 28, 32, 40);
  }

  /** The six reads of an index record; the last one's value is dropped. */
  method ReadIndexRecord(input: seq<byte>) returns (r: Option<IndexEntryData>)
    ensures r == if |input| < INDEX_BYTES then None else Some(IndexFrom(input[..INDEX_BYTES]))
  {
    var offset := Read64(input, 0);
    if offset.None? {
      return None;
    }
    var uuid := Read64(input, 8);
    if uuid.None? {
      return None;
    }
    var timestamp := Read64(input, 16);
    if timestamp.None? {
      return None;
    }
    var roomId := Read32(input, 24);
    if roomId.None? {
      return None;
    }
    var dataLen := Read32(input, 28);
    if dataLen.None? {
      return None;
    }
    var prevHash := Read64(input, 32);
    if prevHash.None? {
      return None;
    }
    IndexFields(input);
    return Some(IndexEntryData(offset.value, uuid.value, Signed(timestamp.value), roomId.value, dataLen.value));
  }

  ghost predicate LoadIsAt(reader: Reader, input: seq<byte>, entries: seq<MessageEntryData>, i: nat, rest: seq<byte>) {
    && i <= |entries| && StillBlank(entries, i)
    && Remaining(reader, input, |entries|, entries[..i], rest, |entries| - i)
  }

  /** One round of the record loop. */
  method FillEntry(reader: Reader, ghost input: seq<byte>, entries: seq<MessageEntryData>, i: nat, rest: seq<byte>)
    returns (filled: Option<seq<MessageEntryData>>, next: seq<byte>)
    requires LoadIsAt(reader, input, entries, i, rest) && i < |entries|
    ensures filled.None? ==> DecodeRecords(reader, input, |entries|) == Decoded(Some(EndOfInput), Some(entries), rest)
    ensures filled.Some? ==> |filled.value| == |entries| && LoadIsAt(reader, input, filled.value, i + 1, next)
  {
    var taken := ReadRecord(reader, rest);
    if taken.None? {
      LoadFails(reader, input, |entries|, entries[..i], rest, |entries| - i);
      assert entries == entries[..i] + entries[i..];
      return None, rest;
    }
    LoadSteps(reader, input, |entries|, entries[..i], rest, |entries| - i - 1, taken.value);
    OneMore(entries, i, taken.value.entry);
    BlankAfter(entries, i, taken.value.entry);
    return Some(entries[i := taken.value.entry]), taken.value.rest;
  }

  lemma LoadStarts(reader: Reader, input: seq<byte>, count: nat)
    ensures LoadIsAt(reader, input, Blanks(count), 0, input)
  {
    var p := TakeRecords(reader, input, count);
    assert Blanks(count)[..0] + p.entries == p.entries;
    assert Blanks(count)[0..] == Blanks(count);
  }

  lemma LoadEnds(reader: Reader, input: seq<byte>, entries: seq<MessageEntryData>, rest: seq<byte>)
    requires LoadIsAt(reader, input, entries, |entries|, rest)
    ensures DecodeRecords(reader, input, |entries|) == Decoded(None, Some(entries), rest)
  {
    assert entries[..|entries|] + [] == entries;
    assert entries + Blanks(0) == entries;
  }

  /** The record loop: allocates `count` blank entries and fills them until the input gives out. */
  method ReadRecords(reader: Reader, input: seq<byte>, count: u32)
    returns (error: Option<Failure>, entries: seq<MessageEntryData>)
    ensures var d := DecodeRecords(reader, input, count); error == d.error && Some(entries) == d.entries
  {
    entries := Blanks(count);
    LoadStarts(reader, input, count);
    var rest := input;
    var i := 0;
    while i < count
      invariant i <= count == |entries|
      invariant LoadIsAt(reader, input, entries, i, rest)
    {
      var filled, next := FillEntry(reader, input, entries, i, rest);
      if filled.None? {
        return Some(EndOfInput), entries;
      }
      entries, rest := filled.value, next;
      i := i + 1;
    }
    LoadEnds(reader, input, entries, rest);
    return None, entries;
  }

  method ReadIndexRecords(input: seq<byte>, count: u32) returns (error: Option<Failure>, entries: seq<IndexEntryData>)
    ensures var d := DecodeIndexRecords(input, count); error == d.error && Some(entries) == d.entries
  {
    entries := BlankIndex(count);
    IndexLoadStarts(input, count);
    var rest := input;
    var i := 0;
    while i < count
      invariant i <= count == |entries|
      invariant IndexLoadIsAt(input, entries, i, rest)
    {
      var entry := ReadIndexRecord(rest);
      if entry.None? {
        IndexLoadFails(input, entries, i, rest);
        return Some(EndOfInput), entries;
      }
      IndexLoadSteps(input, entries, i, rest);
      entries := entries[i := entry.value];
      rest := rest[INDEX_BYTES..];
      i := i + 1;
    }
    IndexLoadEnds(input, entries, rest);
    return None, entries;
  }

  // ----- The hashing and syncing loops -----

  function HashStep(hash: u64, uuid: u64, timestamp: i64): u64 {
    Widths();
    XorBelow(hash, uuid, 8);
    XorBelow(Xor(hash, uuid), Unsigned(timestamp), 8);
    Xor(Xor(hash, uuid), Unsigned(timestamp))
  }

  /** One round of the hash loop, through an entry pointer. */
  method HashEntry(hash: u64, e: MessageEntry) returns (next: u64)
    requires WellFormed(e)
    ensures next == HashStep(hash, e.uuid, e.timestamp)
  {
    var image := Image(e);
    PointerReads(e);
    var uuid, timestamp := Load64(image, 4), Signed(Load64(image, 12));
    next := HashStep(hash, uuid, timestamp);
  }

  lemma HashGrows(es: seq<MessageEntryData>, i: nat)
    requires i < |es|
    ensures HashOf(es[..i]) < TWO_64
    ensures HashOf(es[..i + 1]) == HashStep(HashOf(es[..i]), es[i].uuid, es[i].timestamp)
  {
    StateHashFits(es[..i]);
    assert es[..i + 1] == es[..i] + [es[i]];
    StateHashSnoc(es[..i], es[i]);
  }

  lemma AnswerGrows(es: seq<MessageEntryData>, i: nat, since: i64)
    requires i < |es|
    ensures Answer(es[..i + 1], since) == Considered(Answer(es[..i], since), es[i], since)
  {
    assert es[..i + 1][..i] == es[..i];
  }

  /** What a peer's entries become here: payloads cut to the limit, all in room zero. */
  function Applied(es: seq<MessageEntryData>): (log: seq<Message>)
    ensures |log| == |es| && forall i :: 0 <= i < |es| ==> log[i] == Kept(Message(0, es[i].data))
    decreases |es|
  {
    if es == [] then [] else Applied(es[..|es| - 1]) + [Kept(Message(0, es[|es| - 1].data))]
  }

  lemma {:induction false} AppliedPrefix(es: seq<MessageEntryData>, i: nat)
    requires i <= |es|
    ensures Applied(es[..i]) == Applied(es)[..i]
    decreases |es|
  {
    if i < |es| {
      var n := |es| - 1;
      AppliedPrefix(es[..n], i);
      assert es[..n][..i] == es[..i];
    } else {
      assert es[..i] == es;
    }
  }

  /** `log` with the first `i` of a peer's entries behind it. */
  ghost predicate AppliedUpTo(log: seq<Message>, es: seq<MessageEntryData>, i: nat, now: seq<Message>) {
    i <= |es| && now == log + Applied(es[..i])
  }

  lemma AppliedStarts(log: seq<Message>, es: seq<MessageEntryData>)
    ensures AppliedUpTo(log, es, 0, log)
  {
    assert log + [] == log;
  }

  lemma AppliedGrows(log: seq<Message>, es: seq<MessageEntryData>, i: nat, now: seq<Message>)
    requires AppliedUpTo(log, es, i, now) && i < |es|
    ensures AppliedUpTo(log, es, i + 1, now + [Kept(Message(0, es[i].data))])
  {
    var more := [Kept(Message(0, es[i].data))];
    assert es[..i + 1][..i] == es[..i];
    Regroup(log, Applied(es[..i]), more);
  }

  /** A log that took the first `i` entries and is full, or took all, is the whole of them cut to what fits. */
  lemma AppliedEnds(log: seq<Message>, es: seq<MessageEntryData>, i: nat, now: seq<Message>, maxSlots: nat)
    requires AppliedUpTo(log, es, i, now) && |log| + i <= maxSlots && (i < |es| ==> |log| + i == maxSlots)
    ensures var all := log + Applied(es); now == all[..Min(|all|, maxSlots)]
  {
    AppliedPrefix(es, i);
    assert (log + Applied(es))[..|log| + i] == log + Applied(es)[..i];
  }

  // ----- The database object -----

  class ZigoDB {
    const db: Engine.ZigoDB
    var isShuttingDown: bool
    var uuidCounter: u64
    var loadedChunkEntries: seq<MessageEntryData>
    var loadedIndexEntries: seq<IndexEntryData>
    var chunkLoaded: bool

    constructor (engine: Engine.ZigoDB)
      requires engine.Valid()
      ensures Valid() && db == engine && !isShuttingDown && uuidCounter == 0
      ensures loadedChunkEntries == [] && loadedIndexEntries == [] && !chunkLoaded
    {
      db := engine;
      isShuttingDown, uuidCounter, loadedChunkEntries, loadedIndexEntries, chunkLoaded := false, 0, [], [], false;
    }

    ghost predicate Valid()
      reads this, db, db.rwA, db.rwB, db.rwA.entries, db.rwB.entries
    {
      db.Valid()
    }

    /** The committed entries of the active region, as read through pointers. */
    ghost function Live(): (live: seq<MessageEntryData>)
      requires Valid()
      reads this, db, db.rwA, db.rwB, db.rwA.entries, db.rwB.entries
      ensures |live| == db.Count()
    {
      Exposed(db.Active().entries[..], db.Count())
    }

    lemma LiveAt(i: nat)
      requires Valid() && i < db.Count()
      ensures |Live()| == |db.Log()| == db.Count() && db.GetEntry(i).Some? && WellFormed(db.GetEntry(i).value)
      ensures Live()[i] == DataOf(db.GetEntry(i).value) && Content(db.GetEntry(i).value) == db.Log()[i]
    {
      db.EntriesAreTheLog();
    }

    /** The live entries carry exactly the log. */
    lemma LiveIsLog()
      requires Valid()
      ensures |Live()| == |db.Log()| == db.Count() && Exportable(Live())
      ensures forall i :: 0 <= i < |Live()| ==> Message(Live()[i].roomId, Live()[i].data) == db.Log()[i]
    {
      db.EntriesAreTheLog();
      forall i | 0 <= i < |Live()|
        ensures Message(Live()[i].roomId, Live()[i].data) == db.Log()[i] && Live()[i].dataLen <= 1024
      {
        LiveAt(i);
      }
    }

    lemma LogFits()
      requires Valid()
      ensures |db.Log()| <= db.maxSlots
    {
      db.EntriesAreTheLog();
    }

    // ----- Writing and draining -----

    /** Appends to the active region. Unless the database is shutting down, the address of the first byte is taken,
        so there must be one. */
    method WriteToRoom(roomId: u32, data: seq<byte>) returns (r: Result<u64, Error>)
      requires Valid() && (!isShuttingDown ==> data != [])
      modifies `uuidCounter, db.Active(), db.Active().entries
      ensures Valid()
      ensures r.Ok? <==> !isShuttingDown && |old(db.Log())| < db.maxSlots
      ensures r.Err? ==> r.error == if isShuttingDown then ShuttingDown else RegionFull
      ensures r.Ok? ==>
        r.value == uuidCounter == if old(uuidCounter) == 0xFFFF_FFFF_FFFF_FFFF then 0 else old(uuidCounter) + 1
      ensures r.Err? ==> uuidCounter == old(uuidCounter)
      ensures db.Log() == if r.Ok? then old(db.Log()) + [Kept(Message(roomId, data))] else old(db.Log())
      ensures db.Active().Value() == if isShuttingDown then old(db.Active().Value())
                                     else Engine.Appended(old(db.Active().Value()), db.maxSlots, Message(roomId, data))
    {
      if isShuttingDown {
        return Err(ShuttingDown);
      }
      var res := db.WriteRaw(Message(roomId, data));
      if res == -1 {
        return Err(RegionFull);
      }
      uuidCounter := NextUuid(uuidCounter);
      return Ok(uuidCounter);
    }

    method TriggerDrain()
      requires Valid()
      modifies db, db.Active()
      ensures Valid() && db.Log() == [] && db.totalEntries == old(db.totalEntries) + |old(db.Log())|
      ensures db.Active() == old(db.Inactive()) && db.totalDrains == old(db.totalDrains) + 1
    {
      var drained := db.SwitchAndDrain();
    }

    // ----- Reading messages -----

    /** The last message of the log; nothing when there is none or it is empty. */
    method ReadLast() returns (data: Option<seq<byte>>)
      requires Valid()
      ensures var log := db.Log();
        data == if log == [] || log[|log| - 1].payload == [] then None else Some(log[|log| - 1].payload)
    {
      LiveIsLog();
      var count := db.Count();
      if count == 0 {
        return None;
      }
      LiveAt(count - 1);
      var entry := db.GetEntry(count - 1);
      if entry.None? {
        assert false;
        return None;
      }
      data := ReadPayload(entry.value);
    }

    /** One round of the scan: what entry `i` holds for the room. */
    method ReadIfRoom(i: u32, roomId: u32) returns (data: Option<seq<byte>>)
      requires Valid() && i < db.Count() == |db.Log()|
      ensures var m := db.Log()[i]; data == if m.room == roomId && m.payload != [] then Some(m.payload) else None
    {
      LiveAt(i);
      data := None;
      var entry := db.GetEntry(i);
      if entry.Some? {
        if entry.value.roomId == roomId {
          data := ReadPayload(entry.value);
        }
      }
    }

    /** The room's last message. The scan counts an unsigned index down, so it needs a message to stop at. */
    method ReadLastFromRoom(roomId: u32) returns (r: Result<seq<byte>, Error>)
      requires Valid()
      requires var log := db.Log();
        log != [] ==> exists i :: 0 <= i < |log| && log[i].room == roomId && log[i].payload != []
      ensures db.Log() == [] ==> r == Err(NoMessages)
      ensures var log := db.Log(); log != [] ==> r.Ok? && exists i ::
        && 0 <= i < |log| && log[i].room == roomId && log[i].payload == r.value != []
        && forall j :: i < j < |log| ==> log[j].room != roomId || log[j].payload == []
    {
      LiveIsLog();
      ghost var log := db.Log();
      var count := db.Count();
      if count == 0 {
        return Err(NoMessages);
      }
      ghost var last := LastOfRoom(log, roomId);
      var i := Dec32(count);
      ghost var above: nat := count;
      while i >= 0
        invariant last < above && i == above - 1 < count == |log| && log == db.Log()
        decreases above
      {
        var data := ReadIfRoom(i, roomId);
        if data.Some? {
          assert i == last;
          return Ok(data.value);
        }
        above := above - 1;
        i := Dec32(i);
      }
    }

    // ----- Exporting -----

    method ExportChunk() returns (r: Result<seq<byte>, Error>)
      requires Valid()
      ensures r == if Live() == [] then Err(NoMessages) else Ok(ChunkFile(Live()))
    {
      LiveIsLog();
      ghost var live := Live();
      var count := db.Count();
      if count == 0 {
        return Err(NoMessages);
      }
      var file := Magic() + LE(1, 4) + LE(count, 4);
      var i := 0;
      ChunkStarts(live, count);
      while i < count
        invariant i <= count == |live| && live == Live()
        invariant file == Preamble(Magic(), LE(1, 4), count) + Records(live[..i])
      {
        LiveAt(i);
        var entry := db.GetEntry(i);
        if entry.None? {
          assert false;
          break;
        }
        var record := ChunkRecord(entry.value);
        ChunkGrows(live, i, file, count);
        file := file + record;
        i := i + 1;
      }
      ChunkEnds(live, file);
      return Ok(file);
    }

    /** One round: the record of live entry `i` and the offset behind it. */
    method ExportIndexEntry(i: u32, file: seq<byte>, offset: u64) returns (file': seq<byte>, next: u64)
      requires Valid() && i < db.Count() && Exportable(Live()) && IndexIsAt(Live(), i, file, offset)
      ensures IndexIsAt(Live(), i + 1, file', next)
    {
      LiveAt(i);
      var entry := db.GetEntry(i);
      if entry.None? {
        assert false;
        return file, offset;
      }
      var record;
      record, next := RecordForIndex(entry.value, offset);
      IndexGrows(Live(), i, DataOf(entry.value), file, offset, record, next);
      file' := file + record;
    }

    method ExportIndex() returns (r: Result<seq<byte>, Error>)
      requires Valid()
      ensures r == if Live() == [] then Err(NoMessages) else Ok(IndexFile(Live()))
    {
      LiveIsLog();
      ghost var live := Live();
      var count := db.Count();
      if count == 0 {
        return Err(NoMessages);
      }
      var file := IndexMagic() + LE(1, 4) + LE(count, 4);
      var offset: u64 := 0;
      var i := 0;
      IndexStarts(live);
      while i < count
        invariant i <= count == |live| && live == Live()
        invariant IndexIsAt(live, i, file, offset)
      {
        file, offset := ExportIndexEntry(i, file, offset);
        i := i + 1;
      }
      IndexEnds(live, file, offset);
      return Ok(file);
    }

    // ----- Loading -----

    /** The parse that `LoadChunk` and `MmapChunk` share in all but the reader. A failed load keeps the flag but
        not the old entries, once the count has been read. */
    method ParseChunk(reader: Reader, file: seq<byte>) returns (error: Option<Failure>)
      modifies `loadedChunkEntries, `chunkLoaded
      ensures var d := Decode(reader, file);
        && error == d.error && chunkLoaded == (old(chunkLoaded) || error == None)
        && loadedChunkEntries == if d.entries.Some? then d.entries.value else old(loadedChunkEntries)
    {
      var counted := ReadPreamble(reader, file, Magic());
      if counted.Err? {
        return Some(counted.error);
      }
      DecodeAfterPreamble(reader, file);
      error, loadedChunkEntries := ReadRecords(reader, file[12..], counted.value);
      if error.None? {
        chunkLoaded := true;
      }
    }

    method LoadChunk(file: seq<byte>) returns (error: Option<Failure>)
      modifies `loadedChunkEntries, `chunkLoaded
      ensures var d := Decode(OsFile, file);
        && error == d.error && chunkLoaded == (old(chunkLoaded) || error == None)
        && loadedChunkEntries == if d.entries.Some? then d.entries.value else old(loadedChunkEntries)
    {
      error := ParseChunk(OsFile, file);
    }

    method MmapChunk(file: seq<byte>) returns (error: Option<Failure>)
      modifies `loadedChunkEntries, `chunkLoaded
      ensures var d := Decode(BytesReader, file);
        && error == d.error && chunkLoaded == (old(chunkLoaded) || error == None)
        && loadedChunkEntries == if d.entries.Some? then d.entries.value else old(loadedChunkEntries)
    {
      error := ParseChunk(BytesReader, file);
    }

    method LoadIndex(file: seq<byte>) returns (error: Option<Failure>)
      modifies `loadedIndexEntries
      ensures var d := DecodeIndex(file);
        && error == d.error
        && loadedIndexEntries == if d.entries.Some? then d.entries.value else old(loadedIndexEntries)
    {
      var counted := ReadPreamble(OsFile, file, IndexMagic());
      if counted.Err? {
        return Some(counted.error);
      }
      DecodeIndexAfterPreamble(file);
      error, loadedIndexEntries := ReadIndexRecords(file[12..], counted.value);
    }

    // ----- Hashing and syncing -----

    /** One round over the live entries. */
    method HashLiveEntry(hash: u64, i: u32) returns (next: u64)
      requires Valid() && i < db.Count() && hash == HashOf(Live()[..i])
      ensures next == HashOf(Live()[..i + 1])
    {
      LiveAt(i);
      HashGrows(Live(), i);
      next := hash;
      var entry := db.GetEntry(i);
      if entry.Some? {
        next := HashEntry(hash, entry.value);
      }
    }

    method HashLive() returns (hash: u64)
      requires Valid()
      ensures hash == HashOf(Live())
    {
      ghost var live := Live();
      StateHashFits([]);
      hash := 0;
      var count := db.Count();
      var i := 0;
      while i < count
        invariant i <= count == |live| && live == Live()
        invariant hash == HashOf(live[..i])
      {
        hash := HashLiveEntry(hash, i);
        i := i + 1;
      }
      assert live[..|live|] == live;
    }

    method HashLoaded() returns (hash: u64)
      ensures hash == HashOf(loadedChunkEntries)
    {
      ghost var loaded := loadedChunkEntries;
      StateHashFits([]);
      hash := 0;
      var i := 0;
      while i < |loadedChunkEntries|
        invariant i <= |loaded| && loaded == loadedChunkEntries
        invariant hash == HashOf(loaded[..i])
      {
        HashGrows(loaded, i);
        var entry := loadedChunkEntries[i];
        hash := HashStep(hash, entry.uuid, entry.timestamp);
        i := i + 1;
      }
      assert loaded[..|loaded|] == loaded;
    }

    method ComputeStateHash() returns (hash: u64)
      requires Valid()
      ensures chunkLoaded ==> hash == HashOf(loadedChunkEntries)
      ensures !chunkLoaded ==> hash == HashOf(Live())
    {
      if !chunkLoaded {
        hash := HashLive();
      } else {
        hash := HashLoaded();
      }
    }

    /** One round over the live entries. */
    method AnswerLiveEntry(req: SyncRequest, before: SyncResponse, i: u32) returns (r: SyncResponse)
      requires Valid() && i < db.Count() && before == Answer(Live()[..i], req.timestamp)
      ensures r == Answer(Live()[..i + 1], req.timestamp)
    {
      LiveAt(i);
      AnswerGrows(Live(), i, req.timestamp);
      r := before;
      var entry := db.GetEntry(i);
      if entry.Some? {
        var image := Image(entry.value);
        PointerReads(entry.value);
        var timestamp := Signed(Load64(image, 12));
        if timestamp > req.timestamp {
          var read := ReadEntry(image);
          r := r.(entries := r.entries + [read]);
          if timestamp > r.timestamp {
            r := r.(timestamp := timestamp, lastHash := read.prevHash);
          }
        }
      }
    }

    method AnswerLive(req: SyncRequest) returns (r: SyncResponse)
      requires Valid()
      ensures r == Answer(Live(), req.timestamp)
    {
      ghost var live := Live();
      r := SyncResponse([], 0, 0);
      var count := db.Count();
      var i := 0;
      while i < count
        invariant i <= count == |live| && live == Live()
        invariant r == Answer(live[..i], req.timestamp)
      {
        r := AnswerLiveEntry(req, r, i);
        i := i + 1;
      }
      assert live[..|live|] == live;
    }

    method AnswerLoaded(req: SyncRequest) returns (r: SyncResponse)
      ensures r == Answer(loadedChunkEntries, req.timestamp)
    {
      ghost var loaded := loadedChunkEntries;
      r := SyncResponse([], 0, 0);
      var i := 0;
      while i < |loadedChunkEntries|
        invariant i <= |loaded| && loaded == loadedChunkEntries
        invariant r == Answer(loaded[..i], req.timestamp)
      {
        var entry := loadedChunkEntries[i];
        AnswerGrows(loaded, i, req.timestamp);
        if entry.timestamp > req.timestamp {
          r := r.(entries := r.entries + [entry]);
          if entry.timestamp > r.timestamp {
            r := r.(timestamp := entry.timestamp, lastHash := entry.prevHash);
          }
        }
        i := i + 1;
      }
      assert loaded[..|loaded|] == loaded;
    }

    method HandleSync(req: SyncRequest) returns (r: SyncResponse)
      requires Valid()
      ensures chunkLoaded ==> r == Answer(loadedChunkEntries, req.timestamp)
      ensures !chunkLoaded ==> r == Answer(Live(), req.timestamp)
      ensures forall d :: d in r.entries <==>
        (if chunkLoaded then d in loadedChunkEntries else d in Live()) && d.timestamp > req.timestamp
    {
      ghost var looked := if chunkLoaded then loadedChunkEntries else Live();
      if chunkLoaded {
        r := AnswerLoaded(req);
      } else {
        r := AnswerLive(req);
      }
      AnswerMeans(looked, req.timestamp);
      forall d ensures d in r.entries <==> d in looked && d.timestamp > req.timestamp {
        NewerHolds(looked, req.timestamp, d);
      }
    }

    /** The first `i` of a peer's entries are in the log, and the counter has moved on by as many. */
    ghost predicate ApplyIsAt(log: seq<Message>, start: u64, es: seq<MessageEntryData>, i: nat)
      reads this, db, db.rwA, db.rwB, db.rwA.entries, db.rwB.entries
    {
      && Valid() && AppliedUpTo(log, es, i, db.Log()) && |db.Log()| == |log| + i
      && uuidCounter == CounterAfter(start, i)
      && if isShuttingDown then i == 0 else |log| + i <= db.maxSlots
    }

    /** One round: a peer's entry goes to room zero. */
    method ApplyEntry(ghost log: seq<Message>, ghost start: u64, es: seq<MessageEntryData>, i: nat)
      returns (r: Result<u64, Error>)
      requires ApplyIsAt(log, start, es, i) && i < |es| && (!isShuttingDown ==> es[i].data != [])
      modifies `uuidCounter, db.Active(), db.Active().entries
      ensures r.Ok? ==> ApplyIsAt(log, start, es, i + 1)
      ensures r.Err? ==> ApplyIsAt(log, start, es, i) && (isShuttingDown || |log| + i == db.maxSlots)
      ensures r.Err? ==> r.error == if isShuttingDown then ShuttingDown else RegionFull
    {
      AppliedGrows(log, es, i, db.Log());
      assert CounterAfter(start, i + 1) == NextUuid(uuidCounter);
      r := WriteToRoom(0, es[i].data);
    }

    /** Writes a peer's entries, in order, until one is refused. Only those that are tried need data. */
    method ApplySync(resp: SyncResponse) returns (error: Option<Error>)
      requires Valid()
      requires !isShuttingDown ==>
        forall i :: 0 <= i < |resp.entries| && |db.Log()| + i <= db.maxSlots ==> resp.entries[i].data != []
      modifies `uuidCounter, db.Active(), db.Active().entries
      ensures Valid()
      ensures var log, all := old(db.Log()), Applied(resp.entries);
        if isShuttingDown then db.Log() == log && (error == None <==> all == [])
        else
          && (error == None <==> |log| + |all| <= db.maxSlots)
          && db.Log() == (log + all)[..Min(|log + all|, db.maxSlots)]
      ensures |db.Log()| >= |old(db.Log())|
      ensures uuidCounter == CounterAfter(old(uuidCounter), |db.Log()| - |old(db.Log())|)
      ensures error.Some? ==> error.value == if isShuttingDown then ShuttingDown else RegionFull
    {
      ghost var log, start := db.Log(), uuidCounter;
      LogFits();
      AppliedStarts(log, resp.entries);
      var i := 0;
      while i < |resp.entries|
        invariant i <= |resp.entries| && db.Active() == old(db.Active()) && ApplyIsAt(log, start, resp.entries, i)
      {
        var r := ApplyEntry(log, start, resp.entries, i);
        if r.Err? {
          if !isShuttingDown {
            AppliedEnds(log, resp.entries, i, db.Log(), db.maxSlots);
          }
          return Some(r.error);
        }
        i := i + 1;
      }
      if !isShuttingDown {
        AppliedEnds(log, resp.entries, i, db.Log(), db.maxSlots);
      }
      return None;
    }

    // ----- Searching -----

    method Search(query: seq<byte>) returns (r: Result<seq<TextSearch.SearchResult>, Error>)
      ensures r.Err? <==> !chunkLoaded || query == []
      ensures r.Err? ==> r.error == if !chunkLoaded then NoChunkLoaded else EmptyQuery
      ensures r.Ok? && TextSearch.AllAscii(loadedChunkEntries, query) ==>
        r.value == TextSearch.Hits(loadedChunkEntries, query)
    {
      if !chunkLoaded {
        return Err(NoChunkLoaded);
      }
      if query == [] {
        return Err(EmptyQuery);
      }
      var queryLower := TextSearch.AsciiLower(query);
      var results := [];
      for i := 0 to |loadedChunkEntries|
        invariant results == TextSearch.Hits(loadedChunkEntries[..i], query)
      {
        var entry := loadedChunkEntries[i];
        assert loadedChunkEntries[..i + 1][..i] == loadedChunkEntries[..i];
        if entry.dataLen == 0 || |entry.data| == 0 {
          continue;
        }
        var dataStr := TextSearch.AsciiLower(entry.data);
        if TextSearch.FirstIndex(dataStr, queryLower).Some? {
          var snippet := TextSearch.Snippet(entry.data, query, TextSearch.CONTEXT);
          results := results + [TextSearch.SearchResult("", i, entry.roomId, entry.timestamp, snippet)];
        }
      }
      assert loadedChunkEntries[..|loadedChunkEntries|] == loadedChunkEntries;
      return Ok(results);
    }

    method SearchPaged(query: seq<byte>, page: int, perPage: int)
      returns (r: Result<seq<TextSearch.SearchResult>, Error>)
      ensures r.Err? <==> !chunkLoaded || query == []
      ensures r.Err? ==> r.error == if !chunkLoaded then NoChunkLoaded else EmptyQuery
      ensures r.Ok? && TextSearch.AllAscii(loadedChunkEntries, query) ==>
        r.value == TextSearch.Page(TextSearch.Hits(loadedChunkEntries, query), page, perPage)
    {
      var page', perPage' := page, perPage;
      if page' < 1 {
        page' := 1;
      }
      if perPage' < 1 {
        perPage' := 10;
      }
      var found := Search(query);
      if found.Err? {
        return found;
      }
      var allResults := found.value;
      var start := (page' - 1) * perPage';
      TextSearch.PageIs(allResults, page, perPage, perPage', start);
      if start >= |allResults| {
        return Ok([]);
      }
      var end := start + perPage';
      if end > |allResults| {
        end := |allResults|;
      }
      return Ok(allResults[start..end]);
    }

    method SearchInRoom(query: seq<byte>, roomId: u32) returns (r: Result<seq<TextSearch.SearchResult>, Error>)
      ensures r.Err? <==> !chunkLoaded
      ensures r.Err? ==> r.error == NoChunkLoaded
      ensures r.Ok? && TextSearch.AllAscii(loadedChunkEntries, query) ==>
        r.value == TextSearch.HitsInRoom(loadedChunkEntries, query, roomId)
    {
      if !chunkLoaded {
        return Err(NoChunkLoaded);
      }
      var queryLower := TextSearch.AsciiLower(query);
      var results := [];
      for i := 0 to |loadedChunkEntries|
        invariant results == TextSearch.HitsInRoom(loadedChunkEntries[..i], query, roomId)
      {
        var entry := loadedChunkEntries[i];
        assert loadedChunkEntries[..i + 1][..i] == loadedChunkEntries[..i];
        if entry.roomId != roomId {
          continue;
        }
        if entry.dataLen == 0 || |entry.data| == 0 {
          continue;
        }
        var dataStr := TextSearch.AsciiLower(entry.data);
        if TextSearch.FirstIndex(dataStr, queryLower).Some? {
          var snippet := TextSearch.Snippet(entry.data, query, TextSearch.CONTEXT);
          results := results + [TextSearch.SearchResult("", i, entry.roomId, entry.timestamp, snippet)];
        }
      }
      assert loadedChunkEntries[..|loadedChunkEntries|] == loadedChunkEntries;
      return Ok(results);
    }
  }
}
