/** The packed memory image of an entry, and what the Go side reads through a pointer to it. */
module Layout {
  import opened Base
  import opened Entry
  import opened LittleEndian
  import opened Chunk

  const ENTRY_BYTES := 1068

  /** An entry as the value that the chunk format carries. */
  function DataOf(e: MessageEntry): (d: MessageEntryData)
    requires WellFormed(e)
    ensures Framed(d)
  {
    MessageEntryData(e.roomId, e.uuid, e.timestamp, e.prevHash, e.stateHash, e.dataLen, e.checksum,
                     e.jsonData[..e.dataLen])
  }

  /** The fields in declaration order with no gaps between them. */
  function Image(e: MessageEntry): (image: seq<byte>)
    requires WellFormed(e)
    ensures |image| == ENTRY_BYTES
  {
    LE(e.roomId, 4) + LE(e.uuid, 8) + LE(Unsigned(e.timestamp), 8) + LE(e.prevHash, 8) + LE(e.stateHash, 8)
    + LE(e.dataLen, 4) + LE(e.checksum, 4) + e.jsonData
  }

  function Load32(image: seq<byte>, at: nat): u32
    requires at + 4 <= |image|
  {
    Word32(image[at..at + 4])
  }

  function Load64(image: seq<byte>, at: nat): u64
    requires at + 8 <= |image|
  {
    Word64(image[at..at + 8])
  }

  /** What `HandleSync` assembles from the bytes behind an entry pointer. */
  function ReadEntry(image: seq<byte>): MessageEntryData
    requires |image| == ENTRY_BYTES && Load32(image, 36) <= 1024
  {
    var dataLen := Load32(image, 36);
    MessageEntryData(Load32(image, 0), Load64(image, 4), Signed(Load64(image, 12)), Load64(image, 20),
                     Load64(image, 28), dataLen, Load32(image, 40), image[44..44 + dataLen])
  }

  lemma ImageIsHeaderAndData(e: MessageEntry)
    requires WellFormed(e)
    ensures Image(e)[..44] == Header(DataOf(e)) && Image(e)[44..] == e.jsonData
  {
  }

  /** An entry takes 1068 bytes, and the offsets 0, 4, 12, 20, 28, 36, 40 and 44 find the fields. */
  lemma PointerReads(e: MessageEntry)
    requires WellFormed(e)
    ensures |Image(e)| == 1068
    ensures var image := Image(e);
      && Load32(image, 0) == e.roomId && Load64(image, 4) == e.uuid && Signed(Load64(image, 12)) == e.timestamp
      && Load64(image, 20) == e.prevHash && Load64(image, 28) == e.stateHash
      && Load32(image, 36) == e.dataLen && Load32(image, 40) == e.checksum
      && image[44..44 + e.dataLen] == e.jsonData[..e.dataLen]
      && ReadEntry(image) == DataOf(e)
    ensures var d := DataOf(e);
      && d.roomId == e.roomId && d.uuid == e.uuid && d.timestamp == e.timestamp && d.prevHash == e.prevHash
      && d.stateHash == e.stateHash && d.dataLen == e.dataLen && d.checksum == e.checksum
      && d.data == e.jsonData[..e.dataLen]
  {
    var image := Image(e);
    ImageIsHeaderAndData(e);
    HeaderRoundTrip(DataOf(e));
    SliceOfPrefix(image, 0, 4, 44);
    SliceOfPrefix(image, 4, 12, 44);
    SliceOfPrefix(image, 12, 20, 44);
    SliceOfPrefix(image, 20, 28, 44);
    SliceOfPrefix(image, 28, 36, 44);
    SliceOfPrefix(image, 36, 40, 44);
    SliceOfPrefix(image, 40, 44, 44);
    assert image[44..44 + e.dataLen] == image[44..][..e.dataLen];
  }

  /** The first `n` entries of a region as the Go side sees them. */
  function Exposed(entries: seq<MessageEntry>, n: nat): (es: seq<MessageEntryData>)
    requires n <= |entries| && forall i :: 0 <= i < n ==> WellFormed(entries[i])
    ensures |es| == n && forall i :: 0 <= i < n ==> es[i] == DataOf(entries[i])
  {
    if n == 0 then [] else Exposed(entries, n - 1) + [DataOf(entries[n - 1])]
  }
}
