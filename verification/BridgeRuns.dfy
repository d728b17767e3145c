/** Whole runs of the Go-side object: the append log over any sequence of calls, and answers before and after a
    reload. */
module BridgeRuns {
  import opened Base
  import opened Entry
  import opened Chunk
  import opened MessageLog
  import opened StateHash
  import opened Sync
  import opened Bridge

  // ----- The append log -----

  predicate Stampless(e: MessageEntry) {
    e.uuid == 0 && e.timestamp == 0 && e.prevHash == 0 && e.stateHash == 0
  }

  /** Nothing in either region carries a uuid, a time or a hash. */
  ghost predicate Unstamped(db: Engine.ZigoDB)
    reads db.rwA.entries, db.rwB.entries
  {
    && (forall i :: 0 <= i < db.rwA.entries.Length ==> Stampless(db.rwA.entries[i]))
    && (forall i :: 0 <= i < db.rwB.entries.Length ==> Stampless(db.rwB.entries[i]))
  }

  ghost predicate Playable(calls: seq<Call>) {
    forall i :: 0 <= i < |calls| && calls[i].Write? ==> calls[i].data != []
  }

  lemma AppendedStaysStampless(c: Engine.Cells, maxSlots: u32, m: Message, i: nat)
    requires (c.cursor < maxSlots ==> c.cursor < |c.entries|) && i < |c.entries| && Stampless(c.entries[i])
    ensures Stampless(Engine.Appended(c, maxSlots, m).entries[i])
  {
  }

  /** A new database over `slots` entries a region. */
  method New(slots: u32) returns (z: Bridge.ZigoDB)
    requires slots < TWO_31
    ensures fresh(z) && fresh(z.db) && z.Valid() && Unstamped(z.db) && z.db.maxSlots == slots
    ensures z.db.Log() == [] && z.db.totalEntries == 0 && z.uuidCounter == 0 && !z.isShuttingDown && !z.chunkLoaded
  {
    var engine := new Engine.ZigoDB(slots);
    z := new Bridge.ZigoDB(engine);
  }

  /** One more write on the object. */
  method PlayWrite(z: Bridge.ZigoDB, roomId: u32, data: seq<byte>) returns (r: Result<u64, Error>)
    requires z.Valid() && !z.isShuttingDown && data != [] && Unstamped(z.db)
    modifies z`uuidCounter, z.db.Active(), z.db.Active().entries
    ensures z.Valid() && Unstamped(z.db)
    ensures z.db.Log() == if r.Ok? then old(z.db.Log()) + [Kept(Message(roomId, data))] else old(z.db.Log())
    ensures r.Ok? <==> |old(z.db.Log())| < z.db.maxSlots
    ensures r.Ok? ==> r.value == z.uuidCounter == Bridge.NextUuid(old(z.uuidCounter))
    ensures r.Err? ==> z.uuidCounter == old(z.uuidCounter)
  {
    ghost var active, was := z.db.Active(), z.db.Active().Value();
    r := z.WriteToRoom(roomId, data);
    forall i | 0 <= i < active.entries.Length
      ensures Stampless(active.entries[i])
    {
      AppendedStaysStampless(was, z.db.maxSlots, Message(roomId, data), i);
      assert active.entries[i] == active.Value().entries[i];
    }
  }

  /** The identifiers handed out so far count on from `start`, modulo 2^64. */
  ghost predicate Numbered(start: u64, counter: u64, uuids: seq<u64>) {
    && counter == Bridge.CounterAfter(start, |uuids|)
    && forall n :: 0 <= n < |uuids| ==> uuids[n] == Bridge.CounterAfter(start, n + 1)
  }

  lemma NumberedOn(start: u64, counter: u64, uuids: seq<u64>)
    requires Numbered(start, counter, uuids)
    ensures var next := Bridge.NextUuid(counter); Numbered(start, next, uuids + [next])
  {
  }

  lemma Apart(x: nat, y: nat)
    requires x < y < x + 0x1_0000_0000_0000_0000
    ensures x % 0x1_0000_0000_0000_0000 != y % 0x1_0000_0000_0000_0000
  {
  }

  /** 2^64 of them are pairwise distinct. */
  lemma NumberedApart(start: u64, counter: u64, uuids: seq<u64>)
    requires Numbered(start, counter, uuids) && |uuids| <= 0x1_0000_0000_0000_0000
    ensures forall i, j :: 0 <= i < j < |uuids| ==> uuids[i] != uuids[j]
  {
    forall i, j | 0 <= i < j < |uuids| ensures uuids[i] != uuids[j] {
      Bridge.CounterAfterIs(start, i + 1);
      Bridge.CounterAfterIs(start, j + 1);
      Apart(start + i + 1, start + j + 1);
    }
  }

  ghost predicate PlayedTo(z: Bridge.ZigoDB, calls: seq<Call>, start: u64, uuids: seq<u64>)
    reads z, z.db, z.db.rwA, z.db.rwB, z.db.rwA.entries, z.db.rwB.entries
  {
    && z.Valid() && Unstamped(z.db)
    && z.db.Log() == LogAfter(calls, z.db.maxSlots)
    && z.db.totalEntries == DrainedBy(calls, z.db.maxSlots)
    && |uuids| == z.db.totalEntries + |z.db.Log()| && Numbered(start, z.uuidCounter, uuids)
  }

  method PlayCall(z: Bridge.ZigoDB, ghost before: seq<Call>, call: Call, ghost start: u64, uuids: seq<u64>)
    returns (more: seq<u64>)
    requires PlayedTo(z, before, start, uuids) && !z.isShuttingDown && (call.Write? ==> call.data != [])
    modifies z`uuidCounter, z.db, z.db.rwA, z.db.rwB, z.db.rwA.entries, z.db.rwB.entries
    ensures PlayedTo(z, before + [call], start, more)
  {
    more := uuids;
    match call {
      case Write(roomId, data) =>
        WriteExtends(before, roomId, data, z.db.maxSlots);
        ghost var counter := z.uuidCounter;
        var r := PlayWrite(z, roomId, data);
        if r.Ok? {
          NumberedOn(start, counter, uuids);
          more := uuids + [r.value];
        }
      case Drain =>
        DrainEmpties(before, z.db.maxSlots);
        z.TriggerDrain();
    }
  }

  /** After any sequence of non-empty writes and drains, the region holds exactly the messages since the last drain,
      as many as fit, and the total counts what the drains found. Every accepted write has returned its number,
      counted on from where the object's counter stood, modulo 2^64: no two of fewer than 2^64 are the same. */
  method Replay(z: Bridge.ZigoDB, calls: seq<Call>) returns (uuids: seq<u64>)
    requires z.Valid() && !z.isShuttingDown && z.db.Log() == [] && z.db.totalEntries == 0 && Unstamped(z.db)
    requires Playable(calls)
    modifies z`uuidCounter, z.db, z.db.rwA, z.db.rwB, z.db.rwA.entries, z.db.rwB.entries
    ensures z.Valid() && Unstamped(z.db)
    ensures z.db.Log() == LogAfter(calls, z.db.maxSlots)
    ensures z.db.totalEntries == DrainedBy(calls, z.db.maxSlots)
    ensures |uuids| == z.db.totalEntries + |z.db.Log()|
    ensures forall n :: 0 <= n < |uuids| ==> uuids[n] == (old(z.uuidCounter) + n + 1) % 0x1_0000_0000_0000_0000
    ensures |uuids| <= 0x1_0000_0000_0000_0000 ==> forall i, j :: 0 <= i < j < |uuids| ==> uuids[i] != uuids[j]
  {
    ghost var start := z.uuidCounter;
    uuids := [];
    assert calls[..0] == [];
    for k := 0 to |calls|
      invariant PlayedTo(z, calls[..k], start, uuids)
    {
      assert calls[..k + 1] == calls[..k] + [calls[k]];
      uuids := PlayCall(z, calls[..k], calls[k], start, uuids);
    }
    assert calls[..|calls|] == calls;
    forall n | 0 <= n < |uuids| ensures uuids[n] == (start + n + 1) % 0x1_0000_0000_0000_0000 {
      Bridge.CounterAfterIs(start, n + 1);
    }
    if |uuids| <= 0x1_0000_0000_0000_0000 {
      NumberedApart(start, z.uuidCounter, uuids);
    }
  }

  // ----- Entries without stamps -----

  lemma {:induction false} UnstampedHash(es: seq<MessageEntryData>)
    requires forall i :: 0 <= i < |es| ==> es[i].uuid == 0 && es[i].timestamp == 0
    ensures HashOf(es) == 0
    decreases |es|
  {
    if es != [] {
      UnstampedHash(es[..|es| - 1]);
      XorZero(0);
    }
  }

  lemma {:induction false} UnstampedNewer(es: seq<MessageEntryData>, since: i64)
    requires forall i :: 0 <= i < |es| ==> es[i].timestamp == 0
    ensures Newer(es, since) == if since < 0 then es else []
    decreases |es|
  {
    if es != [] {
      UnstampedNewer(es[1..], since);
      assert es == [es[0]] + es[1..];
    }
  }

  /** The write path stamps nothing, so the live state hash is always zero, and a peer that asks for what came
      after time zero or later is told of nothing. */
  lemma WrittenEntriesAreInvisibleToPeers(z: Bridge.ZigoDB, since: i64)
    requires z.Valid() && Unstamped(z.db)
    ensures HashOf(z.Live()) == 0
    ensures Answer(z.Live(), since) == SyncResponse(if since < 0 then z.Live() else [], 0, 0)
  {
    var live := z.Live();
    forall i | 0 <= i < |live|
      ensures live[i].uuid == 0 && live[i].timestamp == 0
    {
      z.LiveIsLog();
      z.LiveAt(i);
    }
    UnstampedHash(live);
    AnswerMeans(live, since);
    UnstampedNewer(live, since);
  }

  // ----- Live and loaded -----

  lemma ReloadedEntries(es: seq<MessageEntryData>, trailing: seq<byte>)
    requires AllFramed(es)
    ensures var d := Decode(OsFile, ChunkFile(es) + trailing); d.error == None && d.entries == Some(es)
  {
    ChunkRoundTrip(es, trailing);
  }

  /** Exporting the live region and loading the file back, whatever bytes follow it. */
  method Reload(z: Bridge.ZigoDB, trailing: seq<byte>)
    requires z.Valid() && !z.chunkLoaded
    modifies z`loadedChunkEntries, z`chunkLoaded
    ensures z.Valid() && z.Live() == old(z.Live())
    ensures z.chunkLoaded <==> z.Live() != []
    ensures z.chunkLoaded ==> z.loadedChunkEntries == z.Live()
  {
    ghost var live := z.Live();
    z.LiveIsLog();
    var file := z.ExportChunk();
    if file.Ok? {
      ReloadedEntries(live, trailing);
      var error := z.LoadChunk(file.value + trailing);
    }
  }

  /** Hash and answer of the entries looked at. */
  method Answers(z: Bridge.ZigoDB, req: SyncRequest, ghost looked: seq<MessageEntryData>)
    returns (hash: u64, response: SyncResponse)
    requires z.Valid() && looked == if z.chunkLoaded then z.loadedChunkEntries else z.Live()
    ensures hash == HashOf(looked) && response == Answer(looked, req.timestamp)
  {
    hash := z.ComputeStateHash();
    response := z.HandleSync(req);
  }

  /** The state hash and the answer to any sync request are the same from the live region and from its reloaded
      export. */
  method ReloadAnswersAlike(z: Bridge.ZigoDB, req: SyncRequest, trailing: seq<byte>)
    returns (hash: u64, reloadedHash: u64, response: SyncResponse, reloadedResponse: SyncResponse)
    requires z.Valid() && !z.chunkLoaded
    modifies z`loadedChunkEntries, z`chunkLoaded
    ensures hash == HashOf(old(z.Live())) && response == Answer(old(z.Live()), req.timestamp)
    ensures reloadedHash == hash && reloadedResponse == response
  {
    ghost var live := z.Live();
    hash, response := Answers(z, req, live);
    Reload(z, trailing);
    reloadedHash, reloadedResponse := Answers(z, req, live);
  }

  // ----- Writes after a load -----

  /** Once a chunk is loaded, hash and answers stay those of the file, whatever is written and drained afterwards. */
  method AnswersStayTheFiles(z: Bridge.ZigoDB, file: seq<byte>, calls: seq<Call>, req: SyncRequest)
    returns (hash: u64, response: SyncResponse)
    requires z.Valid() && !z.isShuttingDown && Decode(OsFile, file).error == None && Playable(calls)
    modifies z`loadedChunkEntries, z`chunkLoaded, z`uuidCounter
    modifies z.db, z.db.rwA, z.db.rwB, z.db.rwA.entries, z.db.rwB.entries
    ensures z.Valid() && z.chunkLoaded && Decode(OsFile, file).entries == Some(z.loadedChunkEntries)
    ensures hash == HashOf(z.loadedChunkEntries) && response == Answer(z.loadedChunkEntries, req.timestamp)
  {
    var error := z.LoadChunk(file);
    ghost var loaded := z.loadedChunkEntries;
    for k := 0 to |calls|
      invariant z.Valid() && z.chunkLoaded && z.loadedChunkEntries == loaded
    {
      match calls[k] {
        case Write(roomId, data) => var r := z.WriteToRoom(roomId, data);
        case Drain => z.TriggerDrain();
      }
    }
    hash := z.ComputeStateHash();
    response := z.HandleSync(req);
  }
}
