/** The chunk file: its encoding, and the decoder over the two kinds of reader that load it. */
module Chunk {
  import opened Base
  import opened LittleEndian

  const HEADER_BYTES := 44

  datatype MessageEntryData = MessageEntryData(
    roomId: u32,
    uuid: u64,
    timestamp: i64,
    prevHash: u64,
    stateHash: u64,
    dataLen: u32,
    checksum: u32,
    data: seq<byte>
  )

  function BlankData(): MessageEntryData {
    MessageEntryData(0, 0, 0, 0, 0, 0, 0, [])
  }

  function Blanks(n: nat): (blanks: seq<MessageEntryData>)
    ensures |blanks| == n && forall i :: 0 <= i < n ==> blanks[i] == BlankData()
  {
    if n == 0 then [] else Blanks(n - 1) + [BlankData()]
  }

  // ----- Encoding -----

  function Magic(): seq<byte> {
    [0x5A, 0x49, 0x47, 0x4F]
  }

  function Header(d: MessageEntryData): (bytes: seq<byte>)
    ensures |bytes| == HEADER_BYTES
  {
    LE(d.roomId, 4) + LE(d.uuid, 8) + LE(Unsigned(d.timestamp), 8) + LE(d.prevHash, 8) + LE(d.stateHash, 8)
    + LE(d.dataLen, 4) + LE(d.checksum, 4)
  }

  predicate Framed(d: MessageEntryData) {
    |d.data| == d.dataLen
  }

  ghost predicate AllFramed(es: seq<MessageEntryData>) {
    |es| < TWO_32 && forall i :: 0 <= i < |es| ==> Framed(es[i])
  }

  function Record(d: MessageEntryData): (bytes: seq<byte>)
    ensures |bytes| == HEADER_BYTES + |d.data|
  {
    Header(d) + d.data
  }

  function Records(es: seq<MessageEntryData>): (bytes: seq<byte>)
    ensures es != [] ==> |bytes| >= HEADER_BYTES
  {
    if es == [] then [] else Record(es[0]) + Records(es[1..])
  }

  /** Everything before the records: the magic, four version bytes, the count. */
  function Preamble(magic: seq<byte>, version: seq<byte>, count: nat): seq<byte> {
    magic + version + LE(count, 4)
  }

  function ChunkFile(es: seq<MessageEntryData>): seq<byte> {
    Preamble(Magic(), LE(1, 4), |es|) + Records(es)
  }

  lemma Regroup<T>(a: seq<T>, b: seq<T>, c: seq<T>)
    ensures a + (b + c) == a + b + c
  {
  }

  lemma {:induction false} RecordsAppend(a: seq<MessageEntryData>, b: seq<MessageEntryData>)
    ensures Records(a + b) == Records(a) + Records(b)
    decreases |a|
  {
    if a == [] {
      assert a + b == b;
    } else {
      var more := a[1..];
      assert (a + b)[0] == a[0] && (a + b)[1..] == more + b;
      RecordsAppend(more, b);
      Regroup(Record(a[0]), Records(more), Records(b));
    }
  }

  lemma RecordsUpTo(es: seq<MessageEntryData>, i: nat)
    requires i < |es|
    ensures Records(es[..i + 1]) == Records(es[..i]) + Record(es[i])
  {
    assert es[..i + 1] == es[..i] + [es[i]];
    RecordsAppend(es[..i], [es[i]]);
    assert [es[i]][1..] == [];
    assert Record(es[i]) + [] == Record(es[i]);
  }

  // ----- Decoding -----

  /** `os.File` for `LoadChunk`, `bytes.Reader` for `MmapChunk`. */
  datatype Reader = OsFile | BytesReader

  datatype Failure = EndOfInput | BadFormat

  datatype Taken = Taken(entry: MessageEntryData, rest: seq<byte>)

  /** How far a loop over `count` records gets. */
  datatype Progress = Progress(entries: seq<MessageEntryData>, rest: seq<byte>, failed: bool)

  /** What a load leaves behind: the entry slice is replaced as soon as the count has been read. */
  datatype Decoded = Decoded(error: Option<Failure>, entries: Option<seq<MessageEntryData>>, rest: seq<byte>)

  function Zeros(n: nat): (zeros: seq<byte>)
    ensures |zeros| == n && forall i :: 0 <= i < n ==> zeros[i] == 0
  {
    if n == 0 then [] else Zeros(n - 1) + [0]
  }

  /** A zeroed buffer of `n` bytes after as much input as fits was copied to its front. */
  function Buffer(input: seq<byte>, n: nat): (buffer: seq<byte>)
    ensures |buffer| == n
  {
    if n <= |input| then input[..n] else input + Zeros(n - |input|)
  }

  /** A plain `Read` into a buffer of `n` bytes: how many bytes it delivers, or none at end of input. */
  function PlainRead(reader: Reader, input: seq<byte>, n: nat): Option<nat> {
    if input == [] && (n > 0 || reader == BytesReader) then None else Some(Min(n, |input|))
  }

  function HeaderFrom(bytes: seq<byte>): MessageEntryData
    requires |bytes| == HEADER_BYTES
  {
    MessageEntryData(Word32(bytes[0..4]), Word64(bytes[4..12]), Signed(Word64(bytes[12..20])), Word64(bytes[20..28]),
                     Word64(bytes[28..36]), Word32(bytes[36..40]), Word32(bytes[40..44]), [])
  }

  function TakeBody(reader: Reader, header: MessageEntryData, body: seq<byte>): Option<Taken> {
    match PlainRead(reader, body, header.dataLen)
    case None => None
    case Some(n) => Some(Taken(header.(data := Buffer(body, header.dataLen)), body[n..]))
  }

  function TakeRecord(reader: Reader, input: seq<byte>): Option<Taken> {
    if |input| < HEADER_BYTES then None
    else TakeBody(reader, HeaderFrom(input[..HEADER_BYTES]), input[HEADER_BYTES..])
  }

  function TakeRecords(reader: Reader, input: seq<byte>, count: nat): (p: Progress)
    ensures |p.entries| <= count && (p.failed <==> |p.entries| < count)
    decreases count
  {
    if count == 0 then Progress([], input, false)
    else match TakeRecord(reader, input)
      case None => Progress([], input, true)
      case Some(t) =>
        var p := TakeRecords(reader, t.rest, count - 1);
        Progress([t.entry] + p.entries, p.rest, p.failed)
  }

  function DecodeRecords(reader: Reader, input: seq<byte>, count: nat): Decoded {
    var p := TakeRecords(reader, input, count);
    Decoded(if p.failed then Some(EndOfInput) else None, Some(p.entries + Blanks(count - |p.entries|)), p.rest)
  }

  function Decode(reader: Reader, file: seq<byte>): Decoded {
    if file == [] then Decoded(Some(EndOfInput), None, file)
    else if Buffer(file, 4) != Magic() then Decoded(Some(BadFormat), None, file)
    else if |file| < 12 then Decoded(Some(EndOfInput), None, file)
    else DecodeRecords(reader, file[12..], Word32(file[8..12]))
  }

  lemma ShortBuffer(file: seq<byte>)
    requires |file| < 4
    ensures Buffer(file, 4)[3] == 0
  {
    assert Zeros(4 - |file|)[3 - |file|] == 0;
  }

  /** A file that passes for the magic, though short reads are filled with zeros, starts with all of it. */
  lemma WholeMagic(file: seq<byte>, magic: seq<byte>)
    requires |magic| == 4 && magic[3] != 0 && Buffer(file, 4) == magic
    ensures |file| >= 4 && file[..4] == magic
  {
    if |file| < 4 {
      ShortBuffer(file);
    }
  }

  // ----- Fields -----

  lemma HeaderSlices(d: MessageEntryData)
    ensures var h := Header(d);
      && h[0..4] == LE(d.roomId, 4) && h[4..12] == LE(d.uuid, 8) && h[12..20] == LE(Unsigned(d.timestamp), 8)
      && h[20..28] == LE(d.prevHash, 8) && h[28..36] == LE(d.stateHash, 8)
      && h[36..40] == LE(d.dataLen, 4) && h[40..44] == LE(d.checksum, 4)
  {
  }

  lemma HeaderAt(d: MessageEntryData, i: nat)
    requires i < 8
    ensures var h := Header(d);
      && h[4 + i] == h[4..12][i] && h[12 + i] == h[12..20][i] && h[20 + i] == h[20..28][i] && h[28 + i] == h[28..36][i]
      && (i < 4 ==> h[i] == h[0..4][i] && h[36 + i] == h[36..40][i] && h[40 + i] == h[40..44][i])
  {
  }

  /** Every byte of a record's fixed part: lowest byte first, the timestamp in two's complement. */
  lemma HeaderBytes(d: MessageEntryData, i: nat)
    requires i < 8
    ensures var h := Header(d);
      && h[4 + i] == d.uuid / Power256(i) % 256 && h[12 + i] == d.timestamp / Power256(i) % 256
      && h[20 + i] == d.prevHash / Power256(i) % 256 && h[28 + i] == d.stateHash / Power256(i) % 256
    ensures var h := Header(d);
      i < 4 ==> && h[i] == d.roomId / Power256(i) % 256 && h[36 + i] == d.dataLen / Power256(i) % 256
                && h[40 + i] == d.checksum / Power256(i) % 256
  {
    HeaderSlices(d);
    HeaderAt(d, i);
    ByteWeight(d.uuid, 8, i);
    SignedByteWeight(d.timestamp, i);
    ByteWeight(d.prevHash, 8, i);
    ByteWeight(d.stateHash, 8, i);
    if i < 4 {
      ByteWeight(d.roomId, 4, i);
      ByteWeight(d.dataLen, 4, i);
      ByteWeight(d.checksum, 4, i);
    }
  }

  lemma HeaderRoundTrip(d: MessageEntryData)
    ensures HeaderFrom(Header(d)) == d.(data := [])
  {
    HeaderSlices(d);
    Word32Of(d.roomId);
    Word64Of(d.uuid);
    Word64Of(Unsigned(d.timestamp));
    SignedOf(d.timestamp);
    Word64Of(d.prevHash);
    Word64Of(d.stateHash);
    Word32Of(d.dataLen);
    Word32Of(d.checksum);
  }

  lemma SliceOfPrefix(s: seq<byte>, i: nat, j: nat, k: nat)
    requires i <= j <= k <= |s|
    ensures s[..k][i..j] == s[i..j]
  {
  }

  lemma HeaderFromPrefix(input: seq<byte>)
    requires |input| >= HEADER_BYTES
    ensures HeaderFrom(input[..HEADER_BYTES])
         == MessageEntryData(Word32(input[0..4]), Word64(input[4..12]), Signed(Word64(input[12..20])),
                             Word64(input[20..28]),
                             Word64(input[28..36]), Word32(input[36..40]), Word32(input[40..44]), [])
  {
    SliceOfPrefix(input, 0, 4, 44);
    SliceOfPrefix(input, 4, 12, 44);
    SliceOfPrefix(input, 12, 20, 44);
    SliceOfPrefix(input, 20, 28, 44);
    SliceOfPrefix(input, 28, 36, 44);
    SliceOfPrefix(input, 36, 40, 44);
    SliceOfPrefix(input, 40, 44, 44);
  }

  lemma TakenHeader(reader: Reader, header: MessageEntryData, body: seq<byte>, t: Taken)
    requires TakeBody(reader, header, body) == Some(t)
    ensures t.entry == header.(data := t.entry.data) && |t.entry.data| == header.dataLen
    ensures forall i :: 0 <= i < header.dataLen ==> t.entry.data[i] == if i < |body| then body[i] else 0
    ensures t.rest == body[Min(header.dataLen, |body|)..]
  {
  }

  /** What loading makes of a record's bytes: each field is the little-endian number at its place, the timestamp up to a
      multiple of 2^64, and the payload is the bytes behind them, with zeros for those that are missing. */
  lemma TakenRecordIs(reader: Reader, input: seq<byte>, t: Taken)
    requires TakeRecord(reader, input) == Some(t)
    ensures |input| >= 44
    ensures var d := t.entry;
      && d.roomId == Nat(input[0..4]) && d.uuid == Nat(input[4..12]) && d.prevHash == Nat(input[20..28])
      && (d.timestamp - Nat(input[12..20])) % 0x1_0000_0000_0000_0000 == 0
      && d.stateHash == Nat(input[28..36]) && d.dataLen == Nat(input[36..40]) && d.checksum == Nat(input[40..44])
    ensures var d := t.entry;
      && |d.data| == d.dataLen
      && (forall i :: 0 <= i < |d.data| ==> d.data[i] == if 44 + i < |input| then input[44 + i] else 0)
      && t.rest == if 44 + d.dataLen <= |input| then input[44 + d.dataLen..] else []
  {
    HeaderFromPrefix(input);
    TakenHeader(reader, HeaderFrom(input[..HEADER_BYTES]), input[HEADER_BYTES..], t);
    TwosComplement(0, Word64(input[12..20]));
    if 44 + t.entry.dataLen > |input| {
      assert input[44..][|input| - 44..] == [];
    }
  }

  lemma FieldBytes(bytes: seq<byte>)
    requires |bytes| == HEADER_BYTES
    ensures var d := HeaderFrom(bytes);
      && LE(d.roomId, 4) == bytes[0..4] && LE(d.uuid, 8) == bytes[4..12]
        && LE(Unsigned(d.timestamp), 8) == bytes[12..20]
      && LE(d.prevHash, 8) == bytes[20..28] && LE(d.stateHash, 8) == bytes[28..36]
      && LE(d.dataLen, 4) == bytes[36..40] && LE(d.checksum, 4) == bytes[40..44]
  {
    UnsignedOf(Word64(bytes[12..20]));
    EncodeDecoded(bytes[0..4]);
    EncodeDecoded(bytes[4..12]);
    EncodeDecoded(bytes[12..20]);
    EncodeDecoded(bytes[20..28]);
    EncodeDecoded(bytes[28..36]);
    EncodeDecoded(bytes[36..40]);
    EncodeDecoded(bytes[40..44]);
  }

  lemma SplitAt<T>(s: seq<T>, i: nat, j: nat)
    requires i <= j <= |s|
    ensures s[..j] == s[..i] + s[i..j]
  {
  }

  lemma FieldsConcatenate(bytes: seq<byte>)
    requires |bytes| == HEADER_BYTES
    ensures bytes[0..4] + bytes[4..12] + bytes[12..20] + bytes[20..28] + bytes[28..36] + bytes[36..40] + bytes[40..44]
      == bytes
  {
    SplitAt(bytes, 4, 12);
    SplitAt(bytes, 12, 20);
    SplitAt(bytes, 20, 28);
    SplitAt(bytes, 28, 36);
    SplitAt(bytes, 36, 40);
    SplitAt(bytes, 40, 44);
    assert bytes[0..4] == bytes[..4] && bytes[..44] == bytes;
  }

  lemma HeaderOfDecoded(bytes: seq<byte>)
    requires |bytes| == HEADER_BYTES
    ensures Header(HeaderFrom(bytes)) == bytes
  {
    FieldBytes(bytes);
    FieldsConcatenate(bytes);
  }

  // ----- Round trip -----

  lemma TakeAfterHeader(reader: Reader, d: MessageEntryData, body: seq<byte>)
    ensures TakeRecord(reader, Header(d) + body) == TakeBody(reader, d.(data := []), body)
  {
    var input := Header(d) + body;
    assert input[..HEADER_BYTES] == Header(d) && input[HEADER_BYTES..] == body;
    HeaderRoundTrip(d);
  }

  lemma TakeEncodedBody(reader: Reader, d: MessageEntryData, tail: seq<byte>)
    requires Framed(d) && (reader == OsFile || d.dataLen > 0 || tail != [])
    ensures TakeBody(reader, d.(data := []), d.data + tail) == Some(Taken(d, tail))
  {
    assert (d.data + tail)[..d.dataLen] == d.data && (d.data + tail)[d.dataLen..] == tail;
  }

  lemma TakeEncodedRecord(reader: Reader, d: MessageEntryData, tail: seq<byte>)
    requires Framed(d) && (reader == OsFile || d.dataLen > 0 || tail != [])
    ensures TakeRecord(reader, Record(d) + tail) == Some(Taken(d, tail))
  {
    assert Record(d) + tail == Header(d) + (d.data + tail);
    TakeAfterHeader(reader, d, d.data + tail);
    TakeEncodedBody(reader, d, tail);
  }

  lemma TakeRecordsCons(reader: Reader, input: seq<byte>, t: Taken, count: nat)
    requires TakeRecord(reader, input) == Some(t)
    ensures var p := TakeRecords(reader, t.rest, count);
      TakeRecords(reader, input, count + 1) == Progress([t.entry] + p.entries, p.rest, p.failed)
  {
  }

  lemma RecordsCons(es: seq<MessageEntryData>, tail: seq<byte>)
    requires es != []
    ensures Records(es) + tail == Record(es[0]) + (Records(es[1..]) + tail)
  {
  }

  lemma FramedRest(es: seq<MessageEntryData>)
    requires AllFramed(es) && es != []
    ensures Framed(es[0]) && AllFramed(es[1..])
    ensures |es| > 1 ==> es[1..][|es[1..]| - 1] == es[|es| - 1]
    ensures [es[0]] + es[1..] == es
  {
  }

  /** A last record with payload, or bytes behind it, keeps either reader from hitting its end. */
  predicate Roomy(reader: Reader, es: seq<MessageEntryData>, tail: seq<byte>) {
    reader == OsFile || tail != [] || es == [] || es[|es| - 1].dataLen > 0
  }

  lemma {:induction false} TakeEncodedRecords(reader: Reader, es: seq<MessageEntryData>, tail: seq<byte>)
    requires AllFramed(es) && Roomy(reader, es, tail)
    ensures TakeRecords(reader, Records(es) + tail, |es|) == Progress(es, tail, false)
    decreases |es|
  {
    if es == [] {
      assert Records(es) + tail == tail;
    } else {
      var rest := Records(es[1..]) + tail;
      FramedRest(es);
      RecordsCons(es, tail);
      TakeEncodedRecord(reader, es[0], rest);
      TakeEncodedRecords(reader, es[1..], tail);
      TakeRecordsCons(reader, Record(es[0]) + rest, Taken(es[0], rest), |es| - 1);
    }
  }

  lemma MagicSpells()
    ensures |Magic()| == 4 && forall i :: 0 <= i < 4 ==> Magic()[i] == "ZIGO"[i] as int
  {
  }

  /** A blank entry is zero in every field, and empty. */
  lemma BlankDataIsZero()
    ensures var d := BlankData();
      && d.roomId == 0 && d.uuid == 0 && d.timestamp == 0 && d.prevHash == 0 && d.stateHash == 0
      && d.dataLen == 0 && d.checksum == 0 && d.data == []
  {
  }

  lemma PreambleSlices(magic: seq<byte>, version: seq<byte>, count: u32, records: seq<byte>)
    requires |magic| == 4 && |version| == 4
    ensures var file := Preamble(magic, version, count) + records;
      && |file| == 12 + |records| && file[..4] == magic && file[4..8] == version
      && file[8..12] == LE(count, 4) && file[12..] == records
  {
  }

  lemma VersionOne(i: nat)
    requires i < 4
    ensures LE(1, 4)[i] == if i == 0 then 1 else 0
  {
    assert LE(1, 4) == [1] + LE(0, 3) && LE(0, 3) == [0] + LE(0, 2) && LE(0, 2) == [0] + LE(0, 1)
      && LE(0, 1) == [0] + LE(0, 0);
  }

  lemma PreambleBytes(magic: seq<byte>, count: u32, records: seq<byte>, i: nat)
    requires |magic| == 4 && i < 4
    ensures var file := Preamble(magic, LE(1, 4), count) + records;
      && |file| == 12 + |records| && file[12..] == records
      && file[i] == magic[i] && file[4 + i] == (if i == 0 then 1 else 0) && file[8 + i] == count / Power256(i) % 256
  {
    var file := Preamble(magic, LE(1, 4), count) + records;
    PreambleSlices(magic, LE(1, 4), count, records);
    assert file[i] == file[..4][i] && file[4 + i] == file[4..8][i] && file[8 + i] == file[8..12][i];
    VersionOne(i);
    ByteWeight(count, 4, i);
  }

  /** A chunk file spells ZIGO, is of version 1 and counts its entries; the records follow. */
  lemma ChunkFileStarts(es: seq<MessageEntryData>, i: nat)
    requires |es| < TWO_32 && i < 4
    ensures var file := ChunkFile(es);
      && |file| == 12 + |Records(es)| && file[12..] == Records(es)
      && file[i] == "ZIGO"[i] as int && file[4 + i] == (if i == 0 then 1 else 0)
      && file[8 + i] == |es| / Power256(i) % 256
  {
    PreambleBytes(Magic(), |es|, Records(es), i);
  }

  lemma DecodeAfterPreamble(reader: Reader, file: seq<byte>)
    requires |file| >= 12 && file[..4] == Magic()
    ensures Decode(reader, file) == DecodeRecords(reader, file[12..], Word32(file[8..12]))
  {
  }

  lemma DecodePreamble(reader: Reader, version: seq<byte>, count: u32, records: seq<byte>)
    requires |version| == 4
    ensures Decode(reader, Preamble(Magic(), version, count) + records) == DecodeRecords(reader, records, count)
  {
    var file := Preamble(Magic(), version, count) + records;
    PreambleSlices(Magic(), version, count, records);
    Word32Of(count);
    DecodeAfterPreamble(reader, file);
  }

  lemma DecodeWhatIsTaken(reader: Reader, input: seq<byte>, es: seq<MessageEntryData>, rest: seq<byte>)
    requires TakeRecords(reader, input, |es|) == Progress(es, rest, false)
    ensures DecodeRecords(reader, input, |es|) == Decoded(None, Some(es), rest)
  {
    assert es + Blanks(0) == es;
  }

  lemma DecodeEncodedRecords(reader: Reader, es: seq<MessageEntryData>, tail: seq<byte>)
    requires AllFramed(es) && Roomy(reader, es, tail)
    ensures DecodeRecords(reader, Records(es) + tail, |es|) == Decoded(None, Some(es), tail)
  {
    TakeEncodedRecords(reader, es, tail);
    DecodeWhatIsTaken(reader, Records(es) + tail, es, tail);
  }

  /** Loading an exported chunk gives back exactly the exported entries, whatever bytes follow it. */
  lemma ChunkRoundTrip(es: seq<MessageEntryData>, trailing: seq<byte>)
    requires AllFramed(es)
    ensures Decode(OsFile, ChunkFile(es) + trailing) == Decoded(None, Some(es), trailing)
    ensures trailing != [] || es == [] || es[|es| - 1].dataLen > 0 ==>
              Decode(BytesReader, ChunkFile(es) + trailing) == Decoded(None, Some(es), trailing)
  {
    assert ChunkFile(es) + trailing == Preamble(Magic(), LE(1, 4), |es|) + (Records(es) + trailing);
    DecodePreamble(OsFile, LE(1, 4), |es|, Records(es) + trailing);
    DecodeEncodedRecords(OsFile, es, trailing);
    if Roomy(BytesReader, es, trailing) {
      DecodePreamble(BytesReader, LE(1, 4), |es|, Records(es) + trailing);
      DecodeEncodedRecords(BytesReader, es, trailing);
    }
  }
}
