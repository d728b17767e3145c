/** Which byte strings the chunk decoders accept: cut files, foreign files, and where the two readers differ. */
module ChunkTheorems {
  import opened Base
  import opened LittleEndian
  import opened Chunk

  function Last(es: seq<MessageEntryData>): MessageEntryData
    requires es != []
  {
    es[|es| - 1]
  }

  lemma NoZeros(s: seq<byte>)
    ensures Zeros(0) == [] && s + Zeros(0) == s
  {
  }

  // ----- Single steps of the record loop -----

  lemma EmptyInputFails(reader: Reader, count: nat)
    requires count > 0
    ensures TakeRecords(reader, [], count) == Progress([], [], true)
  {
  }

  lemma TakeRecordsFail(reader: Reader, input: seq<byte>, count: nat)
    requires TakeRecord(reader, input) == None && count > 0
    ensures TakeRecords(reader, input, count) == Progress([], input, true)
  {
  }

  /** An input that a record uses up entirely. */
  lemma TakeLastRecord(reader: Reader, input: seq<byte>, entry: MessageEntryData, count: nat)
    requires TakeRecord(reader, input) == Some(Taken(entry, [])) && count > 0
    ensures TakeRecords(reader, input, count) == Progress([entry], [], count > 1)
  {
    TakeRecordsCons(reader, input, Taken(entry, []), count - 1);
    assert [entry] + [] == [entry];
    if count > 1 {
      EmptyInputFails(reader, count - 1);
    }
  }

  // ----- An accepted file is an encoding, except for bytes missing at its very end -----

  lemma TakenBodyJoins(reader: Reader, header: MessageEntryData, body: seq<byte>, t: Taken) returns (pad: nat)
    requires TakeBody(reader, header, body) == Some(t)
    ensures Framed(t.entry) && t.entry == header.(data := t.entry.data)
    ensures body + Zeros(pad) == t.entry.data + t.rest
    ensures pad > 0 ==> t.rest == [] && pad < t.entry.dataLen
  {
    if header.dataLen <= |body| {
      pad := 0;
      NoZeros(body);
      assert body == body[..header.dataLen] + body[header.dataLen..];
    } else {
      pad := header.dataLen - |body|;
      assert t.entry.data + [] == t.entry.data;
    }
  }

  lemma TakenRecordEncodes(reader: Reader, input: seq<byte>, t: Taken) returns (pad: nat)
    requires TakeRecord(reader, input) == Some(t)
    ensures Framed(t.entry) && input + Zeros(pad) == Record(t.entry) + t.rest
    ensures pad > 0 ==> t.rest == [] && pad < t.entry.dataLen
  {
    var front, body := input[..HEADER_BYTES], input[HEADER_BYTES..];
    pad := TakenBodyJoins(reader, HeaderFrom(front), body, t);
    HeaderOfDecoded(front);
    assert Header(t.entry) == front;
    assert input + Zeros(pad) == front + (body + Zeros(pad));
    assert Record(t.entry) + t.rest == front + (t.entry.data + t.rest);
  }

  lemma JoinEncodings(input: seq<byte>, first: MessageEntryData, middle: seq<byte>, es: seq<MessageEntryData>,
                      pad: nat, rest: seq<byte>)
    requires input == Record(first) + middle
    requires middle + Zeros(pad) == Records(es) + rest
    ensures input + Zeros(pad) == Records([first] + es) + rest
  {
    assert ([first] + es)[1..] == es;
    assert input + Zeros(pad) == Record(first) + (middle + Zeros(pad));
    assert Record(first) + (Records(es) + rest) == (Record(first) + Records(es)) + rest;
  }

  ghost predicate Fits(input: seq<byte>, pad: nat, es: seq<MessageEntryData>, rest: seq<byte>) {
    && (forall i :: 0 <= i < |es| ==> Framed(es[i]))
    && input + Zeros(pad) == Records(es) + rest
    && (pad > 0 ==> rest == [] && es != [] && pad < Last(es).dataLen)
  }

  lemma FitsCons(input: seq<byte>, t: Taken, pad: nat, es: seq<MessageEntryData>, rest: seq<byte>)
    requires Fits(t.rest, pad, es, rest) && Framed(t.entry) && input == Record(t.entry) + t.rest
    ensures Fits(input, pad, [t.entry] + es, rest)
  {
    JoinEncodings(input, t.entry, t.rest, es, pad, rest);
    if es != [] {
      assert Last([t.entry] + es) == Last(es);
    }
  }

  lemma NothingFits(input: seq<byte>)
    ensures Fits(input, 0, [], input)
  {
    NoZeros(input);
    assert Records([]) + input == input;
  }

  lemma OneRecordFits(input: seq<byte>, pad: nat, t: Taken)
    requires Framed(t.entry) && input + Zeros(pad) == Record(t.entry) + t.rest
    requires pad > 0 ==> t.rest == [] && pad < t.entry.dataLen
    ensures Fits(input, pad, [t.entry], t.rest)
  {
    assert [t.entry][1..] == [];
    assert Records([t.entry]) == Record(t.entry) + [];
    assert Record(t.entry) + [] == Record(t.entry);
  }

  lemma {:induction false} TakenRecordsEncode(reader: Reader, input: seq<byte>, count: nat) returns (pad: nat)
    requires !TakeRecords(reader, input, count).failed
    ensures var p := TakeRecords(reader, input, count); |p.entries| == count && Fits(input, pad, p.entries, p.rest)
    decreases count
  {
    if count == 0 {
      pad := 0;
      NothingFits(input);
    } else {
      var first := TakeRecord(reader, input);
      if first.None? {
        TakeRecordsFail(reader, input, count);
      }
      var t := first.value;
      pad := TakenRecordEncodes(reader, input, t);
      if pad > 0 {
        TakeLastRecord(reader, input, t.entry, count);
        OneRecordFits(input, pad, t);
      } else {
        NoZeros(input);
        TakeRecordsCons(reader, input, t, count - 1);
        pad := TakenRecordsEncode(reader, t.rest, count - 1);
        var p := TakeRecords(reader, t.rest, count - 1);
        FitsCons(input, t, pad, p.entries, p.rest);
      }
    }
  }

  lemma JoinPreamble(file: seq<byte>, zeros: seq<byte>, count: u32, records: seq<byte>, rest: seq<byte>)
    requires |file| >= 12 && file[..4] == Magic() && LE(count, 4) == file[8..12]
    requires file[12..] + zeros == records + rest
    ensures file + zeros == Preamble(Magic(), file[4..8], count) + records + rest
  {
    var front := Preamble(Magic(), file[4..8], count);
    assert file == front + file[12..];
    assert file + zeros == front + (file[12..] + zeros);
    assert front + (records + rest) == front + records + rest;
  }

  /** A file that loads is a chunk file for the loaded entries, with any version and any trailing bytes; all it
      may lack is a part, but not the whole, of the last payload. */
  lemma AcceptedFileIsEncoding(reader: Reader, file: seq<byte>) returns (pad: nat)
    requires Decode(reader, file).error.None?
    ensures var d := Decode(reader, file);
      && |file| >= 12 && d.entries.Some? && AllFramed(d.entries.value)
      && file + Zeros(pad) == Preamble(Magic(), file[4..8], |d.entries.value|) + Records(d.entries.value) + d.rest
      && (pad > 0 ==> d.rest == [] && d.entries.value != [] && pad < Last(d.entries.value).dataLen)
  {
    DecodeAfterPreamble(reader, file);
    var count := Word32(file[8..12]);
    var p := TakeRecords(reader, file[12..], count);
    assert p.entries + Blanks(0) == p.entries;
    pad := TakenRecordsEncode(reader, file[12..], count);
    EncodeDecoded(file[8..12]);
    JoinPreamble(file, Zeros(pad), count, Records(p.entries), p.rest);
  }

  // ----- Cut files -----

  /** An entry with the last `missing` bytes of its payload read as zeros. */
  function CutData(d: MessageEntryData, missing: nat): MessageEntryData
    requires missing <= |d.data|
  {
    d.(data := d.data[..|d.data| - missing] + Zeros(missing))
  }

  function CutLast(es: seq<MessageEntryData>, missing: nat): seq<MessageEntryData>
    requires es != [] && missing <= |Last(es).data|
  {
    es[..|es| - 1] + [CutData(Last(es), missing)]
  }

  lemma PrefixOfBody(reader: Reader, d: MessageEntryData, n: nat)
    requires Framed(d) && n < |d.data|
    ensures TakeBody(reader, d.(data := []), d.data[..n])
         == if n == 0 then None else Some(Taken(CutData(d, |d.data| - n), []))
  {
    assert d.data[..0] == [];
    assert d.data[..n][n..] == [];
  }

  lemma PrefixOfRecord(reader: Reader, d: MessageEntryData, k: nat)
    requires Framed(d) && k < |Record(d)|
    ensures k <= HEADER_BYTES ==> TakeRecord(reader, Record(d)[..k]) == None
    ensures k > HEADER_BYTES ==> TakeRecord(reader, Record(d)[..k]) == Some(Taken(CutData(d, |Record(d)| - k), []))
  {
    if k >= HEADER_BYTES {
      var n := k - HEADER_BYTES;
      assert Record(d)[..k] == Header(d) + d.data[..n];
      TakeAfterHeader(reader, d, d.data[..n]);
      PrefixOfBody(reader, d, n);
    }
  }

  lemma {:induction false} RecordsHoldLast(es: seq<MessageEntryData>)
    requires es != []
    ensures |Records(es)| >= HEADER_BYTES + |Last(es).data|
  {
    if |es| > 1 {
      RecordsHoldLast(es[1..]);
    }
  }

  lemma CutAfterFirst(es: seq<MessageEntryData>, missing: nat)
    requires |es| > 1 && missing <= |Last(es).data|
    ensures Last(es[1..]) == Last(es) && [es[0]] + CutLast(es[1..], missing) == CutLast(es, missing)
  {
  }

  lemma EmptyRecordAtEnd(d: MessageEntryData)
    requires Framed(d) && d.dataLen == 0
    ensures TakeRecord(BytesReader, Record(d) + []) == None
  {
    assert Record(d) + [] == Header(d) + [];
    TakeAfterHeader(BytesReader, d, []);
  }

  /** A cut before or inside the first of several records leaves nothing for the next. */
  lemma CutInFirst(reader: Reader, es: seq<MessageEntryData>, k: nat)
    requires |es| > 1 && Framed(es[0]) && k <= |Record(es[0])|
    ensures TakeRecords(reader, Record(es[0])[..k], |es|).failed
  {
    var input := Record(es[0])[..k];
    if k < |Record(es[0])| {
      PrefixOfRecord(reader, es[0], k);
      if k > HEADER_BYTES {
        TakeLastRecord(reader, input, CutData(es[0], |Record(es[0])| - k), |es|);
      } else {
        TakeRecordsFail(reader, input, |es|);
      }
    } else {
      assert input == Record(es[0]) + [];
      if reader == OsFile || es[0].dataLen > 0 {
        TakeEncodedRecord(reader, es[0], []);
        TakeLastRecord(reader, input, es[0], |es|);
      } else {
        EmptyRecordAtEnd(es[0]);
        TakeRecordsFail(reader, input, |es|);
      }
    }
  }

  /** `input` is what remains of the records of `es` without their last `missing` bytes. */
  predicate CutTo(es: seq<MessageEntryData>, input: seq<byte>, missing: nat) {
    missing > 0 && |input| + missing == |Records(es)| && input == Records(es)[..|input|]
  }

  lemma CutIsInFirst(es: seq<MessageEntryData>, input: seq<byte>, missing: nat)
    requires es != [] && CutTo(es, input, missing) && |input| <= |Record(es[0])|
    ensures input == Record(es[0])[..|input|]
    ensures |es| > 1 ==> missing >= |Last(es).data|
  {
    if |es| > 1 {
      RecordsHoldLast(es[1..]);
    }
  }

  lemma CutIsBehindFirst(es: seq<MessageEntryData>, input: seq<byte>, missing: nat) returns (rest: seq<byte>)
    requires es != [] && CutTo(es, input, missing) && |input| > |Record(es[0])|
    ensures input == Record(es[0]) + rest && CutTo(es[1..], rest, missing) && rest != []
  {
    rest := input[|Record(es[0])|..];
  }

  /** What is left of reading `es` when the last `missing` bytes of their records are gone. */
  ghost predicate CutReads(p: Progress, es: seq<MessageEntryData>, missing: nat)
    requires AllFramed(es) && es != []
  {
    if missing < Last(es).dataLen then p == Progress(CutLast(es, missing), [], false) else p.failed
  }

  lemma OneRecordCut(reader: Reader, es: seq<MessageEntryData>, input: seq<byte>, missing: nat)
    requires AllFramed(es) && |es| == 1 && CutTo(es, input, missing)
    ensures CutReads(TakeRecords(reader, input, 1), es, missing)
  {
    var d, k := es[0], |input|;
    assert Records(es) == Record(d) by {
      assert Records(es[1..]) == [];
      assert Record(d) + [] == Record(d);
    }
    PrefixOfRecord(reader, d, k);
    if k > HEADER_BYTES {
      TakeLastRecord(reader, Record(d)[..k], CutData(d, missing), 1);
      assert CutLast(es, missing) == [CutData(d, missing)];
    } else {
      TakeRecordsFail(reader, Record(d)[..k], 1);
    }
  }

  lemma CutReadsCons(es: seq<MessageEntryData>, missing: nat, p: Progress)
    requires |es| > 1 && AllFramed(es) && AllFramed(es[1..]) && CutReads(p, es[1..], missing)
    ensures CutReads(Progress([es[0]] + p.entries, p.rest, p.failed), es, missing)
  {
    if missing < Last(es).dataLen {
      CutAfterFirst(es, missing);
    }
  }

  lemma CutAfterRecord(reader: Reader, es: seq<MessageEntryData>, rest: seq<byte>, p: Progress)
    requires |es| > 1 && Framed(es[0]) && rest != []
    requires p == TakeRecords(reader, rest, |es| - 1)
    ensures TakeRecords(reader, Record(es[0]) + rest, |es|) == Progress([es[0]] + p.entries, p.rest, p.failed)
  {
    TakeEncodedRecord(reader, es[0], rest);
    TakeRecordsCons(reader, Record(es[0]) + rest, Taken(es[0], rest), |es| - 1);
  }

  lemma PrefixOfMore(reader: Reader, es: seq<MessageEntryData>, rest: seq<byte>, missing: nat)
    requires |es| > 1 && AllFramed(es) && AllFramed(es[1..]) && rest != []
    requires CutReads(TakeRecords(reader, rest, |es[1..]|), es[1..], missing)
    ensures CutReads(TakeRecords(reader, Record(es[0]) + rest, |es|), es, missing)
  {
    var p := TakeRecords(reader, rest, |es| - 1);
    CutReadsCons(es, missing, p);
    CutAfterRecord(reader, es, rest, p);
  }

  lemma {:induction false} PrefixOfRecords(reader: Reader, es: seq<MessageEntryData>, input: seq<byte>, missing: nat)
    requires AllFramed(es) && es != [] && CutTo(es, input, missing)
    ensures CutReads(TakeRecords(reader, input, |es|), es, missing)
    decreases |es|
  {
    if |es| == 1 {
      OneRecordCut(reader, es, input, missing);
    } else if |input| <= |Record(es[0])| {
      CutIsInFirst(es, input, missing);
      CutInFirst(reader, es, |input|);
    } else {
      FramedRest(es);
      var rest := CutIsBehindFirst(es, input, missing);
      PrefixOfRecords(reader, es[1..], rest, missing);
      PrefixOfMore(reader, es, rest, missing);
    }
  }

  lemma CutInPreamble(reader: Reader, file: seq<byte>, k: nat)
    requires |file| >= 12 && file[..4] == Magic() && k < 12
    ensures Decode(reader, file[..k]).error == Some(if 0 < k < 4 then BadFormat else EndOfInput)
    ensures Decode(reader, file[..k]).entries == None
  {
    var cut := file[..k];
    if 0 < k < 4 {
      assert Buffer(cut, 4)[3] == 0;
      assert Magic()[3] == 0x4F;
    } else if k >= 4 {
      assert Buffer(cut, 4) == cut[..4] == file[..4];
    }
  }

  /** A chunk file cut short is refused by both decoders, except when the cut leaves at least one byte of the
      last payload: then it loads, with zeros for the bytes that are gone. */
  lemma CutChunkLoadsExactlyWhen(reader: Reader, es: seq<MessageEntryData>, k: nat)
    requires AllFramed(es) && es != [] && k < |ChunkFile(es)|
    ensures var d := Decode(reader, ChunkFile(es)[..k]);
      var missing := |ChunkFile(es)| - k;
      && (d.error.None? <==> missing < Last(es).dataLen)
      && (d.error.None? ==> d == Decoded(None, Some(CutLast(es, missing)), []))
      && (d.error == Some(BadFormat) <==> 0 < k < 4)
  {
    var file := ChunkFile(es);
    RecordsHoldLast(es);
    PreambleSlices(Magic(), LE(1, 4), |es|, Records(es));
    if k < 12 {
      CutInPreamble(reader, file, k);
    } else {
      PrefixOfRecords(reader, es, Records(es)[..k - 12], |file| - k);
      assert file[..k] == Preamble(Magic(), LE(1, 4), |es|) + Records(es)[..k - 12];
      DecodePreamble(reader, LE(1, 4), |es|, Records(es)[..k - 12]);
      if |file| - k < Last(es).dataLen {
        assert CutLast(es, |file| - k) + Blanks(0) == CutLast(es, |file| - k);
      }
    }
  }

  // ----- The two decoders -----

  ghost predicate EndsEmpty(p: Progress) {
    !p.failed && p.entries != [] && Last(p.entries).dataLen == 0 && p.rest == []
  }

  lemma ReadersOnOneRecord(input: seq<byte>)
    ensures var o := TakeRecord(OsFile, input);
      TakeRecord(BytesReader, input) == if o.Some? && o.value.entry.dataLen == 0 && o.value.rest == [] then None else o
  {
  }

  /** How the second reader's progress follows from the first's. */
  ghost predicate Agree(o: Progress, b: Progress) {
    (b.failed <==> o.failed || EndsEmpty(o)) && (!b.failed ==> b == o)
  }

  lemma AgreeCons(t: Taken, o: Progress, b: Progress)
    requires Agree(o, b) && (o.entries == [] && !o.failed ==> t.entry.dataLen > 0 || o.rest != [])
    ensures Agree(Progress([t.entry] + o.entries, o.rest, o.failed), Progress([t.entry] + b.entries, b.rest, b.failed))
  {
    if o.entries != [] {
      assert Last([t.entry] + o.entries) == Last(o.entries);
    }
  }

  lemma ReadersDone(input: seq<byte>)
    ensures Agree(TakeRecords(OsFile, input, 0), TakeRecords(BytesReader, input, 0))
    ensures TakeRecords(OsFile, input, 0) == Progress([], input, false)
  {
  }

  lemma ReadersAtEnd(input: seq<byte>, t: Taken, count: nat)
    requires TakeRecord(OsFile, input) == Some(t) && t.entry.dataLen == 0 && t.rest == [] && count > 0
    ensures Agree(TakeRecords(OsFile, input, count), TakeRecords(BytesReader, input, count))
  {
    ReadersOnOneRecord(input);
    TakeRecordsFail(BytesReader, input, count);
    TakeLastRecord(OsFile, input, t.entry, count);
  }

  lemma ReadersOnMore(input: seq<byte>, t: Taken, count: nat)
    requires TakeRecord(OsFile, input) == TakeRecord(BytesReader, input) == Some(t)
    requires count == 0 ==> t.entry.dataLen > 0 || t.rest != []
    requires Agree(TakeRecords(OsFile, t.rest, count), TakeRecords(BytesReader, t.rest, count))
    ensures Agree(TakeRecords(OsFile, input, count + 1), TakeRecords(BytesReader, input, count + 1))
  {
    var o, b := TakeRecords(OsFile, t.rest, count), TakeRecords(BytesReader, t.rest, count);
    TakeRecordsCons(OsFile, input, t, count);
    TakeRecordsCons(BytesReader, input, t, count);
    if count == 0 {
      ReadersDone(t.rest);
    }
    AgreeCons(t, o, b);
  }

  lemma {:induction false} ReadersOnRecords(input: seq<byte>, count: nat)
    ensures Agree(TakeRecords(OsFile, input, count), TakeRecords(BytesReader, input, count))
    decreases count
  {
    if count == 0 {
      ReadersDone(input);
    } else {
      ReadersOnOneRecord(input);
      var first := TakeRecord(OsFile, input);
      match first
      case None =>
        TakeRecordsFail(OsFile, input, count);
        TakeRecordsFail(BytesReader, input, count);
      case Some(t) =>
        if t.entry.dataLen == 0 && t.rest == [] {
          ReadersAtEnd(input, t, count);
        } else {
          ReadersOnRecords(t.rest, count - 1);
          ReadersOnMore(input, t, count - 1);
        }
    }
  }

  /** The file is complete and its final counted record carries no payload. */
  ghost predicate EndsInEmptyRecord(file: seq<byte>) {
    && |file| >= 12
    && exists es :: es != [] && AllFramed(es) && Last(es).dataLen == 0
         && file == Preamble(Magic(), file[4..8], |es|) + Records(es)
  }

  lemma EmptyEndDecodes(file: seq<byte>, es: seq<MessageEntryData>)
    requires |file| >= 12 && es != [] && AllFramed(es) && Last(es).dataLen == 0
    requires file == Preamble(Magic(), file[4..8], |es|) + Records(es)
    ensures Decode(OsFile, file) == Decoded(None, Some(es), [])
  {
    DecodePreamble(OsFile, file[4..8], |es|, Records(es));
    DecodeEncodedRecords(OsFile, es, []);
    assert Records(es) + [] == Records(es);
  }

  lemma EmptyEndOfFile(file: seq<byte>)
    requires Decode(OsFile, file).error.None?
    ensures |file| >= 12 && EndsInEmptyRecord(file) <==> EndsEmpty(TakeRecords(OsFile, file[12..], Word32(file[8..12])))
  {
    var d := Decode(OsFile, file);
    DecodeAfterPreamble(OsFile, file);
    var p := TakeRecords(OsFile, file[12..], Word32(file[8..12]));
    assert p.entries + Blanks(0) == p.entries;
    if EndsEmpty(p) {
      var pad := AcceptedFileIsEncoding(OsFile, file);
      assert file + Zeros(0) == file;
      assert file == Preamble(Magic(), file[4..8], |p.entries|) + Records(p.entries);
    }
    if EndsInEmptyRecord(file) {
      var es :| es != [] && AllFramed(es) && Last(es).dataLen == 0
             && file == Preamble(Magic(), file[4..8], |es|) + Records(es);
      EmptyEndDecodes(file, es);
    }
  }

  /** On every byte string the two decoders accept alike and load alike, but for one family: complete files whose
      last record is empty, which only `LoadChunk` takes. */
  lemma DecodersDifferExactlyWhen(file: seq<byte>)
    ensures Decode(BytesReader, file).error.None? <==>
      && Decode(OsFile, file).error.None?
      && !exists es: seq<MessageEntryData> :: |es| > 0 && AllFramed(es) && es[|es| - 1].dataLen == 0 && |file| >= 12
           && file == Preamble(Magic(), file[4..8], |es|) + Records(es)
    ensures Decode(BytesReader, file).error.None? ==> Decode(BytesReader, file) == Decode(OsFile, file)
  {
    if |file| >= 12 && file[..4] == Magic() {
      DecodeAfterPreamble(OsFile, file);
      DecodeAfterPreamble(BytesReader, file);
      ReadersOnRecords(file[12..], Word32(file[8..12]));
      if Decode(OsFile, file).error.None? {
        EmptyEndOfFile(file);
      }
    }
  }
}
