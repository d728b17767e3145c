/** The append log that writes and drains are meant to keep, and the scan for a room's last message. */
module MessageLog {
  import opened Base
  import opened Entry

  /** A message that the backward scan for `room` stops at. */
  predicate Speaks(m: Message, room: u32) {
    m.room == room && m.payload != []
  }

  function LastInRoom(log: seq<Message>, room: u32): Option<seq<byte>> {
    if log == [] then None
    else
      var m := log[|log| - 1];
      if Speaks(m, room) then Some(m.payload) else LastInRoom(log[..|log| - 1], room)
  }

  lemma LastSpeaks(log: seq<Message>, room: u32, data: seq<byte>) returns (i: nat)
    requires LastInRoom(log, room) == Some(data)
    ensures i < |log| && log[i].room == room && log[i].payload == data && data != []
    ensures forall j :: i < j < |log| ==> log[j].room != room || log[j].payload == []
    decreases |log|
  {
    var n := |log| - 1;
    if Speaks(log[n], room) {
      i := n;
    } else {
      i := LastSpeaks(log[..n], room, data);
      assert forall j :: 0 <= j < n ==> log[..n][j] == log[j];
    }
  }

  lemma {:induction false} NoneSpeaks(log: seq<Message>, room: u32)
    requires LastInRoom(log, room) == None
    ensures forall j :: 0 <= j < |log| ==> log[j].room != room || log[j].payload == []
    decreases |log|
  {
    if log != [] {
      var n := |log| - 1;
      NoneSpeaks(log[..n], room);
      assert forall j :: 0 <= j < n ==> log[..n][j] == log[j];
    }
  }

  /** The last message of a room is the payload of an entry of that room that is not empty, and behind it there is no
      such entry; there is one exactly when the room has such an entry at all. */
  lemma LastInRoomIs(log: seq<Message>, room: u32)
    ensures LastInRoom(log, room).Some? <==> exists i :: 0 <= i < |log| && log[i].room == room && log[i].payload != []
    ensures LastInRoom(log, room).Some? ==> exists i ::
      && 0 <= i < |log| && log[i].room == room && log[i].payload != [] && LastInRoom(log, room) == Some(log[i].payload)
      && forall j :: i < j < |log| ==> log[j].room != room || log[j].payload == []
  {
    match LastInRoom(log, room) {
      case None => NoneSpeaks(log, room);
      case Some(data) => var i := LastSpeaks(log, room, data);
    }
  }

  lemma LastOfRoom(log: seq<Message>, room: u32) returns (i: nat)
    requires exists k :: 0 <= k < |log| && log[k].room == room && log[k].payload != []
    ensures i < |log| && log[i].room == room && log[i].payload != []
    ensures forall j :: i < j < |log| ==> log[j].room != room || log[j].payload == []
  {
    LastInRoomIs(log, room);
    i := LastSpeaks(log, room, LastInRoom(log, room).value);
  }

  // ----- The unsigned counter of the scan -----

  /** The counter after `k` rounds: it starts below the message count and wraps below zero. */
  function CounterAt(count: u32, k: nat): u32 {
    if k == 0 then Dec32(count) else Dec32(CounterAt(count, k - 1))
  }

  /** It counts down from the last index modulo 2^32. */
  lemma {:induction false} CounterIs(count: u32, k: nat)
    ensures CounterAt(count, k) == (count - 1 - k) % 0x1_0000_0000
    decreases k
  {
    if k > 0 {
      CounterIs(count, k - 1);
    }
  }

  lemma {:induction false} CounterDescends(count: u32, k: nat)
    requires k < count
    ensures CounterAt(count, k) == count - 1 - k
  {
    if k > 0 {
      CounterDescends(count, k - 1);
    }
  }

  /** The scan over a log that is not empty ever stops exactly when the room has a message: without one the
      counter passes zero, wraps, and goes round for ever. */
  lemma ScanStopsExactlyWhen(log: seq<Message>, room: u32)
    requires 0 < |log| < TWO_32
    ensures (exists k: nat :: var i := CounterAt(|log|, k); i < |log| && log[i].room == room && log[i].payload != [])
       <==> (exists i :: 0 <= i < |log| && log[i].room == room && log[i].payload != [])
  {
    if i :| 0 <= i < |log| && log[i].room == room && log[i].payload != [] {
      CounterDescends(|log|, |log| - 1 - i);
      assert CounterAt(|log|, |log| - 1 - i) == i;
    }
  }

  // ----- Any sequence of writes and drains -----

  datatype Call = Write(room: u32, data: seq<byte>) | Drain

  /** Every message written since the last drain, whether or not there was room. */
  function Written(calls: seq<Call>): seq<Message> {
    if calls == [] then []
    else match calls[|calls| - 1]
      case Write(room, data) => Written(calls[..|calls| - 1]) + [Kept(Message(room, data))]
      case Drain => []
  }

  /** The log is their longest prefix that fits. */
  function LogAfter(calls: seq<Call>, maxSlots: nat): seq<Message> {
    var w := Written(calls);
    if |w| <= maxSlots then w else w[..maxSlots]
  }

  /** What the drains have counted: the log before each of them. */
  function DrainedBy(calls: seq<Call>, maxSlots: nat): nat {
    if calls == [] then 0
    else
      var before := calls[..|calls| - 1];
      DrainedBy(before, maxSlots)
        + match calls[|calls| - 1] case Write(_, _) => 0 case Drain => |LogAfter(before, maxSlots)|
  }

  lemma WriteExtends(calls: seq<Call>, room: u32, data: seq<byte>, maxSlots: nat)
    ensures var log := LogAfter(calls, maxSlots);
      LogAfter(calls + [Write(room, data)], maxSlots)
      == if |log| < maxSlots then log + [Kept(Message(room, data))] else log
    ensures DrainedBy(calls + [Write(room, data)], maxSlots) == DrainedBy(calls, maxSlots)
  {
    var after := calls + [Write(room, data)];
    assert after[..|after| - 1] == calls;
  }

  lemma DrainEmpties(calls: seq<Call>, maxSlots: nat)
    ensures LogAfter(calls + [Drain], maxSlots) == []
    ensures DrainedBy(calls + [Drain], maxSlots) == DrainedBy(calls, maxSlots) + |LogAfter(calls, maxSlots)|
  {
    var after := calls + [Drain];
    assert after[..|after| - 1] == calls;
  }
}
