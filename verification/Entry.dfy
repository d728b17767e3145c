/** The log entry (`MessageEntry`) and the two stores with which a writer fills it. */
module Entry {
  import opened Base

  const PAYLOAD_LIMIT := 992
  const JSON_BYTES := 1024

  datatype MessageEntry = MessageEntry(
    roomId: u32,
    uuid: u64,
    timestamp: i64,
    prevHash: u64,
    stateHash: u64,
    dataLen: u32,
    checksum: u32,
    jsonData: seq<byte>
  )

  /** What a caller of the raw write path hands over, and what a reader gets back. */
  datatype Message = Message(room: u32, payload: seq<byte>)

  /** The entry is backed by all of its 1024 payload bytes and its length fits them. */
  predicate WellFormed(e: MessageEntry) {
    |e.jsonData| == JSON_BYTES && e.dataLen <= JSON_BYTES
  }

  /** An entry as `MessageEntry.init` leaves it, over zero bytes. */
  function Blank(): MessageEntry {
    MessageEntry(0, 0, 0, 0, 0, 0, 0, seq(JSON_BYTES, i => 0))
  }

  /** The length the engine stores for a payload whose length arrived as a 32-bit number. */
  function KeptLength(payload: seq<byte>): (n: u32)
    ensures n <= |payload| && n <= PAYLOAD_LIMIT
  {
    Min(|payload| % 0x1_0000_0000, PAYLOAD_LIMIT)
  }

  /** The message as it is kept: cut to the engine's payload limit. */
  function Kept(m: Message): Message {
    Message(m.room, m.payload[..KeptLength(m.payload)])
  }

  /** The header stores of the write path: room, zero timestamp, length. */
  function WithHeader(e: MessageEntry, m: Message): MessageEntry {
    e.(roomId := m.room, timestamp := 0, dataLen := KeptLength(m.payload))
  }

  /** The payload copy: overwrites a prefix and leaves the older bytes behind it in place. */
  function WithPayload(e: MessageEntry, m: Message): MessageEntry
    requires WellFormed(e)
  {
    var n := KeptLength(m.payload);
    e.(jsonData := m.payload[..n] + e.jsonData[n..])
  }

  /** What a reader sees through the length field. */
  function Content(e: MessageEntry): Message
    requires WellFormed(e)
  {
    Message(e.roomId, e.jsonData[..e.dataLen])
  }

  /** A message keeps its room. A payload of at most 992 bytes is kept whole, a longer one loses its tail. */
  lemma KeptIsPrefixOfLimit(m: Message)
    requires |m.payload| < 0x1_0000_0000
    ensures Kept(m).room == m.room
    ensures Kept(m).payload == if |m.payload| <= 992 then m.payload else m.payload[..992]
  {
  }

  /** Of a payload of 4 GiB and more only the length modulo 2^32 arrives, so that hardly anything may be kept. */
  lemma KeptOfHuge(m: Message, k: nat, r: nat)
    requires |m.payload| == k * 0x1_0000_0000 + r && r < 0x1_0000_0000
    ensures Kept(m).room == m.room
    ensures Kept(m).payload == if r <= 992 then m.payload[..r] else m.payload[..992]
  {
    assert |m.payload| % 0x1_0000_0000 == r;
  }

  /** A blank entry is zero in every field and every byte. */
  lemma BlankIsZero()
    ensures WellFormed(Blank()) && Content(Blank()) == Message(0, [])
    ensures var e := Blank();
      && e.uuid == 0 && e.timestamp == 0 && e.prevHash == 0 && e.stateHash == 0 && e.dataLen == 0 && e.checksum == 0
      && |e.jsonData| == 1024 && forall i :: 0 <= i < 1024 ==> e.jsonData[i] == 0
  {
  }

  /** Header and payload stores together make the entry read back as the kept message. */
  lemma FilledEntryReads(e: MessageEntry, m: Message)
    requires WellFormed(e)
    ensures WellFormed(WithPayload(WithHeader(e, m), m))
    ensures Content(WithPayload(WithHeader(e, m), m)) == Kept(m)
  {
    var n := KeptLength(m.payload);
    assert (m.payload[..n] + e.jsonData[n..])[..n] == m.payload[..n];
  }

  /** They set the timestamp to zero and leave the identifier, both hashes, the checksum and all bytes behind the kept
      payload as they were. */
  lemma FilledEntryKeepsRest(e: MessageEntry, m: Message)
    requires WellFormed(e)
    ensures var f := WithPayload(WithHeader(e, m), m);
      && f.timestamp == 0 && f.uuid == e.uuid && f.prevHash == e.prevHash && f.stateHash == e.stateHash
      && f.checksum == e.checksum && |f.jsonData| == |e.jsonData| && f.dataLen == |Kept(m).payload|
      && forall i :: f.dataLen <= i < |f.jsonData| ==> f.jsonData[i] == e.jsonData[i]
  {
  }
}
