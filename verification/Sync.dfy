/** What a peer's sync request is answered with. */
module Sync {
  import opened Base
  import opened Chunk

  datatype SyncRequest = SyncRequest(fromNode: string, lastHash: u64, timestamp: i64)

  datatype SyncResponse = SyncResponse(entries: seq<MessageEntryData>, lastHash: u64, timestamp: i64)

  /** The response grown by one more entry, as the loop does. */
  function Considered(r: SyncResponse, d: MessageEntryData, since: i64): SyncResponse {
    if d.timestamp <= since then r
    else if d.timestamp > r.timestamp then SyncResponse(r.entries + [d], d.prevHash, d.timestamp)
    else r.(entries := r.entries + [d])
  }

  function Answer(es: seq<MessageEntryData>, since: i64): SyncResponse {
    if es == [] then SyncResponse([], 0, 0)
    else Considered(Answer(es[..|es| - 1], since), es[|es| - 1], since)
  }

  /** The entries newer than `since`, in order. */
  function Newer(es: seq<MessageEntryData>, since: i64): seq<MessageEntryData> {
    if es == [] then []
    else if es[0].timestamp > since then [es[0]] + Newer(es[1..], since)
    else Newer(es[1..], since)
  }

  lemma {:induction false} NewerSnoc(es: seq<MessageEntryData>, d: MessageEntryData, since: i64)
    ensures Newer(es + [d], since) == Newer(es, since) + if d.timestamp > since then [d] else []
    decreases |es|
  {
    if es == [] {
      assert es + [d] == [d];
    } else {
      assert (es + [d])[0] == es[0] && (es + [d])[1..] == es[1..] + [d];
      NewerSnoc(es[1..], d, since);
    }
  }

  lemma {:induction false} NewerHolds(es: seq<MessageEntryData>, since: i64, d: MessageEntryData)
    ensures d in Newer(es, since) <==> d in es && d.timestamp > since
    decreases |es|
  {
    if es != [] {
      NewerHolds(es[1..], since, d);
      assert d in es <==> d == es[0] || d in es[1..];
    }
  }

  ghost predicate FirstNewest(r: SyncResponse, i: nat)
    requires i < |r.entries|
  {
    && r.entries[i].timestamp == r.timestamp
    && forall j :: 0 <= j < i ==> r.entries[j].timestamp < r.timestamp
  }

  /** The timestamp of a response is the newest one it contains, or zero, and its hash is the previous hash of
      the first entry that carries it. */
  ghost predicate Dated(r: SyncResponse) {
    && r.timestamp >= 0
    && (forall i :: 0 <= i < |r.entries| ==> r.entries[i].timestamp <= r.timestamp)
    && (r.timestamp == 0 ==> r.lastHash == 0)
    && (r.timestamp > 0 ==>
          exists i :: 0 <= i < |r.entries| && FirstNewest(r, i) && r.entries[i].prevHash == r.lastHash)
  }

  lemma ConsideredDated(r: SyncResponse, d: MessageEntryData, since: i64)
    requires Dated(r)
    ensures Dated(Considered(r, d, since))
  {
    var r' := Considered(r, d, since);
    if d.timestamp > since {
      var n := |r.entries|;
      assert forall i :: 0 <= i < n ==> r'.entries[i] == r.entries[i];
      if d.timestamp > r.timestamp {
        assert r'.entries[n] == d;
        assert FirstNewest(r', n);
      } else if r.timestamp > 0 {
        var i :| 0 <= i < n && FirstNewest(r, i) && r.entries[i].prevHash == r.lastHash;
        assert FirstNewest(r', i);
      }
    }
  }

  lemma {:induction false} AnswerMeans(es: seq<MessageEntryData>, since: i64)
    ensures Answer(es, since).entries == Newer(es, since) && Dated(Answer(es, since))
    ensures var r := Answer(es, since);
      && r.timestamp >= 0 && (forall i :: 0 <= i < |r.entries| ==> r.entries[i].timestamp <= r.timestamp)
      && (r.timestamp == 0 ==> r.lastHash == 0)
      && (r.timestamp > 0 ==> exists i ::
            && 0 <= i < |r.entries| && r.entries[i].timestamp == r.timestamp && r.entries[i].prevHash == r.lastHash
            && forall j :: 0 <= j < i ==> r.entries[j].timestamp < r.timestamp)
    decreases |es|
  {
    if es != [] {
      var front, d := es[..|es| - 1], es[|es| - 1];
      AnswerMeans(front, since);
      NewerSnoc(front, d, since);
      assert es == front + [d];
      ConsideredDated(Answer(front, since), d, since);
    }
  }

  lemma NewestIsNewer(r: SyncResponse, es: seq<MessageEntryData>, since: i64)
    requires Dated(r) && r.entries == Newer(es, since) && r.entries != []
    ensures forall d :: d in Newer(es, since) ==> d.timestamp <= r.timestamp
    ensures since < r.timestamp
  {
    var d := r.entries[0];
    assert d in r.entries;
    NewerHolds(es, since, d);
  }

  /** Asking again with the timestamp of a response brings nothing new, unless the response was empty and there
      is an entry after time zero. */
  lemma AskingAgainBringsNothingExactlyWhen(es: seq<MessageEntryData>, since: i64)
    ensures Answer(es, Answer(es, since).timestamp).entries == []
       <==> Newer(es, since) != [] || forall d :: d in es ==> d.timestamp <= 0
  {
    var r := Answer(es, since);
    var again := Newer(es, r.timestamp);
    AnswerMeans(es, since);
    AnswerMeans(es, r.timestamp);
    if again != [] {
      var d := again[0];
      assert d in again;
      NewerHolds(es, r.timestamp, d);
      NewerHolds(es, since, d);
      if r.entries != [] {
        NewestIsNewer(r, es, since);
      }
    } else if r.entries == [] {
      forall d | d in es
        ensures d.timestamp <= 0
      {
        NewerHolds(es, r.timestamp, d);
      }
    }
  }
}
