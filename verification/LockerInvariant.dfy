/** The invariant of the Locker Writer protocol, kept by every action of every thread when the tail of a
    drain runs as one step, and what it says about reservations, slots and drains. */
module LockerInvariant {
  import opened Base
  import opened Entry
  import opened LockerWriter

  // ----- Counting threads -----

  /** What a thread contributes to: tickets held, cursor increments to be rolled back,
      slots reserved but not filled, slots filled but not committed. */
  datatype Kind = Holding | Pending | Unfilled | Uncommitted

  function Weight(k: Kind, b: Side, w: Writer): nat {
    if w.Idle? || w.LookedUp? || w.side != b then 0
    else match k
      case Holding => 1
      case Pending => if w.Overflowed? then 1 else 0
      case Unfilled => if w.Reserved? || w.HeaderWritten? then 1 else 0
      case Uncommitted => if w.Filled? then 1 else 0
  }

  /** How many threads contribute to `k` on side `b`. */
  function Tally(ws: seq<Writer>, k: Kind, b: Side): nat {
    if ws == [] then 0 else Tally(ws[..|ws| - 1], k, b) + Weight(k, b, ws[|ws| - 1])
  }

  lemma {:induction false} TallyUpdate(ws: seq<Writer>, t: nat, w: Writer, k: Kind, b: Side)
    requires t < |ws|
    ensures Tally(ws[t := w], k, b) == Tally(ws, k, b) - Weight(k, b, ws[t]) + Weight(k, b, w)
  {
    var n := |ws| - 1;
    if t == n {
      assert ws[t := w][..n] == ws[..n];
    } else {
      assert ws[t := w][..n] == ws[..n][t := w];
      TallyUpdate(ws[..n], t, w, k, b);
    }
  }

  lemma {:induction false} TallyAtLeast(ws: seq<Writer>, t: nat, k: Kind, b: Side)
    requires t < |ws|
    ensures Weight(k, b, ws[t]) <= Tally(ws, k, b)
  {
    if t < |ws| - 1 {
      TallyAtLeast(ws[..|ws| - 1], t, k, b);
    }
  }

  lemma {:induction false} TallyAtLeastTwo(ws: seq<Writer>, t: nat, u: nat, k: Kind, b: Side)
    requires t < u < |ws|
    ensures Weight(k, b, ws[t]) + Weight(k, b, ws[u]) <= Tally(ws, k, b)
  {
    if u < |ws| - 1 {
      TallyAtLeastTwo(ws[..|ws| - 1], t, u, k, b);
    } else {
      TallyAtLeast(ws[..|ws| - 1], t, k, b);
    }
  }

  lemma {:induction false} TallyAtMost(ws: seq<Writer>, k: Kind, b: Side)
    ensures Tally(ws, k, b) <= |ws|
    ensures k != Holding ==> Tally(ws, k, b) <= Tally(ws, Holding, b)
  {
    if ws != [] {
      TallyAtMost(ws[..|ws| - 1], k, b);
    }
  }

  lemma {:induction false} TallyOfIdle(ws: seq<Writer>, k: Kind, b: Side)
    requires forall t :: 0 <= t < |ws| ==> ws[t].Idle?
    ensures Tally(ws, k, b) == 0
  {
    if ws != [] {
      TallyOfIdle(ws[..|ws| - 1], k, b);
    }
  }

  // ----- The invariant -----

  predicate HasSlot(w: Writer) {
    w.Reserved? || w.HeaderWritten? || w.Filled? || w.Committed?
  }

  /** The header of `e` is the one the write of `m` stores. */
  ghost predicate HeaderOf(e: MessageEntry, m: Message) {
    e.roomId == m.room && e.dataLen == KeptLength(m.payload)
  }

  /** A thread with a slot of side `b` owns that slot's claim, and has got exactly as far as it should have. */
  ghost predicate WriterFits(r: Region, b: Side, t: nat, w: Writer) {
    HasSlot(w) && w.side == b ==>
      && w.slot in r.claims && r.claims[w.slot] == Claim(t, Kept(w.message))
      && (w.slot in r.filled <==> w.Filled? || w.Committed?)
      && (w.slot in r.committed <==> w.Committed?)
      && (w.HeaderWritten? && w.slot < |r.entries| ==> HeaderOf(r.entries[w.slot], w.message))
  }

  /** A slot that is not committed is still in the hands of the thread that reserved it. */
  ghost predicate SlotInHand(r: Region, b: Side, ws: seq<Writer>, i: nat)
    requires i in r.claims
  {
    var t := r.claims[i].owner;
    t < |ws| && HasSlot(ws[t]) && !ws[t].Committed? && ws[t].side == b && ws[t].slot == i
  }

  /** The messages of the first `n` slots, as their writers claimed them. */
  function ClaimedMessages(claims: map<nat, Claim>, n: nat): multiset<Message>
    requires forall i :: 0 <= i < n ==> i in claims
  {
    if n == 0 then multiset{} else ClaimedMessages(claims, n - 1) + multiset{claims[n - 1].message}
  }

  ghost predicate CountersFit(r: Region, b: Side, ws: seq<Writer>, maxSlots: nat) {
    && r.cursor == |r.claims| + Tally(ws, Pending, b)
    && (Tally(ws, Pending, b) > 0 ==> |r.claims| == maxSlots)
    && |r.claims| <= maxSlots
    && r.activeWriters == Tally(ws, Holding, b)
    && r.committedEntries == |r.committed|
    && |r.filled| + Tally(ws, Unfilled, b) == |r.claims|
    && |r.committed| + Tally(ws, Uncommitted, b) == |r.filled|
  }

  /** The slots handed out are 0, 1, ... without a gap, and account for every message accepted. */
  ghost predicate ClaimsFit(claims: map<nat, Claim>, n: nat, accepted: multiset<Message>) {
    && (forall i :: i in claims <==> 0 <= i < n)
    && accepted == ClaimedMessages(claims, n)
  }

  /** Written slots hold the message of their claim. */
  ghost predicate CellsFit(r: Region) {
    && (forall i :: 0 <= i < |r.entries| ==> WellFormed(r.entries[i]))
    && r.filled <= r.claims.Keys && r.committed <= r.filled
    && (forall i :: i in r.filled ==> 0 <= i < |r.entries| && Content(r.entries[i]) == r.claims[i].message)
  }

  ghost predicate SlotsFit(r: Region, maxSlots: nat) {
    && ClaimsFit(r.claims, |r.claims|, r.accepted)
    && |r.claims| <= |r.entries| == maxSlots
    && CellsFit(r)
  }

  ghost predicate ThreadsFit(r: Region, b: Side, ws: seq<Writer>) {
    && (forall t :: 0 <= t < |ws| ==> WriterFits(r, b, t, ws[t]))
    && (forall i :: i in r.claims && i !in r.committed ==> SlotInHand(r, b, ws, i))
  }

  ghost predicate RegionFits(r: Region, b: Side, ws: seq<Writer>, maxSlots: nat) {
    CountersFit(r, b, ws, maxSlots) && SlotsFit(r, maxSlots) && ThreadsFit(r, b, ws)
  }

  /** Few enough threads and slots for the 32-bit counters; the engine has 31250 slots. */
  predicate Sized(s: State) {
    s.maxSlots < TWO_31 && |s.writers| < TWO_31 - 1
  }

  ghost predicate RegionsFit(s: State) {
    && Sized(s)
    && RegionFits(s.rwA, 0, s.writers, s.maxSlots)
    && RegionFits(s.rwB, 1, s.writers, s.maxSlots)
  }

  /** The messages found in memory by the drains so far. */
  function DrainedMessages(drains: seq<DrainResult>): multiset<Message> {
    if drains == [] then multiset{}
    else
      var last := drains[|drains| - 1];
      DrainedMessages(drains[..|drains| - 1]) + multiset(Stored(last.entries, last.entriesWritten))
  }

  /** Every message accepted so far was drained or is in exactly one region, and the totals count them. */
  ghost predicate Conserved(s: State) {
    && s.acceptedEver == DrainedMessages(s.drains) + s.rwA.accepted + s.rwB.accepted
    && |s.acceptedEver| == s.totalEntries + |s.rwA.claims| + |s.rwB.claims|
  }

  ghost predicate Inv(s: State) {
    RegionsFit(s) && Conserved(s)
  }

  // ----- Preservation -----

  lemma TallyUpdates(ws: seq<Writer>, t: nat, w: Writer, b: Side)
    requires t < |ws|
    ensures forall k :: Tally(ws[t := w], k, b) == Tally(ws, k, b) - Weight(k, b, ws[t]) + Weight(k, b, w)
  {
    forall k ensures Tally(ws[t := w], k, b) == Tally(ws, k, b) - Weight(k, b, ws[t]) + Weight(k, b, w) {
      TallyUpdate(ws, t, w, k, b);
    }
  }

  function Change(k: Kind, b: Side, v: Writer, w: Writer): int {
    Weight(k, b, w) - Weight(k, b, v)
  }

  /** Thread `t` goes on to `w` and the region to `r'`: the counters move with the thread's own contribution. */
  lemma CountersStep(r: Region, r': Region, b: Side, ws: seq<Writer>, maxSlots: nat, t: nat, w: Writer)
    requires CountersFit(r, b, ws, maxSlots) && t < |ws|
    requires r'.activeWriters == r.activeWriters + Change(Holding, b, ws[t], w)
    requires r'.cursor == r.cursor + |r'.claims| - |r.claims| + Change(Pending, b, ws[t], w)
    requires |r'.claims| <= maxSlots
    requires |r'.claims| == |r.claims| || Tally(ws, Pending, b) == Weight(Pending, b, w) == 0
    requires Weight(Pending, b, w) > Weight(Pending, b, ws[t]) ==> |r'.claims| == maxSlots
    requires |r'.filled| + Change(Unfilled, b, ws[t], w) - |r'.claims| == |r.filled| - |r.claims|
    requires |r'.committed| + Change(Uncommitted, b, ws[t], w) - |r'.filled| == |r.committed| - |r.filled|
    requires r'.committedEntries == r.committedEntries + |r'.committed| - |r.committed|
    ensures CountersFit(r', b, ws[t := w], maxSlots)
  {
    TallyUpdates(ws, t, w, b);
  }

  /** No counter of a fitting region is near its limit. */
  lemma NoWrap(r: Region, b: Side, ws: seq<Writer>, maxSlots: nat)
    requires CountersFit(r, b, ws, maxSlots) && |ws| < TWO_31 - 1 && maxSlots < TWO_31
    ensures 0 <= r.activeWriters < TWO_31 - 1
    ensures r.cursor <= maxSlots + |ws| < TWO_32 - 1
    ensures r.committedEntries <= |r.claims| <= maxSlots
  {
    TallyAtMost(ws, Holding, b);
    TallyAtMost(ws, Pending, b);
  }

  // ----- Ticket and cursor operations: only the counters move -----

  ghost predicate Untouched(b: Side, w: Writer) {
    w.Idle? || w.LookedUp? || w.side != b
  }

  lemma OtherSideCounts(r: Region, b: Side, ws: seq<Writer>, maxSlots: nat, t: nat, w: Writer)
    requires CountersFit(r, b, ws, maxSlots) && t < |ws|
    requires Untouched(b, ws[t]) && Untouched(b, w)
    ensures CountersFit(r, b, ws[t := w], maxSlots)
  {
    CountersStep(r, r, b, ws, maxSlots, t, w);
  }

  lemma EnteredCounts(r: Region, b: Side, ws: seq<Writer>, maxSlots: nat, t: nat, m: Message)
    requires CountersFit(r, b, ws, maxSlots) && t < |ws| < TWO_31 - 1 && maxSlots < TWO_31
    requires ws[t] == LookedUp(b, m)
    ensures CountersFit(Entered(r), b, ws[t := Ticketed(b, m)], maxSlots)
  {
    NoWrap(r, b, ws, maxSlots);
    CountersStep(r, Entered(r), b, ws, maxSlots, t, Ticketed(b, m));
  }

  lemma LeftCounts(r: Region, b: Side, ws: seq<Writer>, maxSlots: nat, t: nat)
    requires CountersFit(r, b, ws, maxSlots) && t < |ws| < TWO_31 - 1 && maxSlots < TWO_31
    requires (ws[t].RolledBack? || ws[t].Committed?) && ws[t].side == b
    ensures CountersFit(Left(r), b, ws[t := Idle], maxSlots)
  {
    NoWrap(r, b, ws, maxSlots);
    CountersStep(r, Left(r), b, ws, maxSlots, t, Idle);
  }

  lemma BumpedCounts(r: Region, b: Side, ws: seq<Writer>, maxSlots: nat, t: nat)
    requires CountersFit(r, b, ws, maxSlots) && t < |ws| < TWO_31 - 1 && maxSlots < TWO_31
    requires ws[t].Ticketed? && ws[t].side == b && r.cursor >= maxSlots
    ensures CountersFit(Bumped(r), b, ws[t := Overflowed(b)], maxSlots)
  {
    NoWrap(r, b, ws, maxSlots);
    CountersStep(r, Bumped(r), b, ws, maxSlots, t, Overflowed(b));
  }

  lemma UnbumpedCounts(r: Region, b: Side, ws: seq<Writer>, maxSlots: nat, t: nat)
    requires CountersFit(r, b, ws, maxSlots) && t < |ws|
    requires ws[t] == Overflowed(b)
    ensures CountersFit(Unbumped(r), b, ws[t := RolledBack(b)], maxSlots)
  {
    TallyAtLeast(ws, t, Pending, b);
    CountersStep(r, Unbumped(r), b, ws, maxSlots, t, RolledBack(b));
  }

  /** Thread `t` goes on to `w` and the region to `r'`: nobody else's slot is touched, and `t` is where it should be. */
  lemma ThreadsStep(r: Region, r': Region, b: Side, ws: seq<Writer>, t: nat, w: Writer)
    requires ThreadsFit(r, b, ws) && t < |ws|
    requires |r'.entries| == |r.entries|
    requires forall i :: i in r.claims ==> i in r'.claims && r'.claims[i] == r.claims[i]
    requires forall i :: i in r'.claims && i !in r.claims ==> r'.claims[i].owner == t
    requires forall i :: i in r.claims && r.claims[i].owner != t ==>
      && (i in r'.filled <==> i in r.filled) && (i in r'.committed <==> i in r.committed)
      && (i < |r.entries| ==> r'.entries[i] == r.entries[i])
    requires WriterFits(r', b, t, w)
    requires forall i :: i in r'.claims && i !in r'.committed && r'.claims[i].owner == t ==>
      HasSlot(w) && !w.Committed? && w.side == b && w.slot == i
    ensures ThreadsFit(r', b, ws[t := w])
  {
    var ws' := ws[t := w];
    forall u | 0 <= u < |ws'| ensures WriterFits(r', b, u, ws'[u]) {
      if u != t {
        assert WriterFits(r, b, u, ws[u]);
      }
    }
    forall i | i in r'.claims && i !in r'.committed ensures SlotInHand(r', b, ws', i) {
      if r'.claims[i].owner != t {
        assert SlotInHand(r, b, ws, i);
      }
    }
  }

  /** The thread's own uncommitted claims: only the slot it has in hand. */
  lemma OwnSlot(r: Region, b: Side, ws: seq<Writer>, t: nat)
    requires ThreadsFit(r, b, ws) && t < |ws|
    ensures WriterFits(r, b, t, ws[t])
    ensures forall i :: i in r.claims && i !in r.committed && r.claims[i].owner == t ==>
      HasSlot(ws[t]) && !ws[t].Committed? && ws[t].side == b && ws[t].slot == i
  {
    forall i | i in r.claims && i !in r.committed && r.claims[i].owner == t
      ensures HasSlot(ws[t]) && !ws[t].Committed? && ws[t].side == b && ws[t].slot == i
    {
      assert SlotInHand(r, b, ws, i);
    }
  }

  /** A step that moves only counters, of a thread with no uncommitted slot of side `b` before or after. */
  lemma SameSlots(r: Region, r': Region, b: Side, ws: seq<Writer>, maxSlots: nat, t: nat, w: Writer)
    requires SlotsFit(r, maxSlots) && ThreadsFit(r, b, ws) && t < |ws|
    requires r' == r.(cursor := r'.cursor, activeWriters := r'.activeWriters)
    requires HasSlot(ws[t]) && ws[t].side == b ==> ws[t].Committed?
    requires HasSlot(w) ==> w.side != b
    ensures SlotsFit(r', maxSlots) && ThreadsFit(r', b, ws[t := w])
  {
    OwnSlot(r, b, ws, t);
    ThreadsStep(r, r', b, ws, t, w);
  }

  // ----- The cursor fetch-add that hands out a slot -----

  lemma ClaimedCounts(r: Region, b: Side, ws: seq<Writer>, maxSlots: nat, t: nat, m: Message)
    requires CountersFit(r, b, ws, maxSlots) && t < |ws| && maxSlots < TWO_31
    requires ws[t] == Ticketed(b, m) && r.cursor < maxSlots && r.cursor !in r.claims
    ensures CountersFit(Claimed(r, t, m), b, ws[t := Reserved(b, r.cursor, m)], maxSlots)
  {
    CountersStep(r, Claimed(r, t, m), b, ws, maxSlots, t, Reserved(b, r.cursor, m));
  }

  lemma {:induction false} SameClaimsBelow(claims: map<nat, Claim>, more: map<nat, Claim>, n: nat)
    requires forall i :: 0 <= i < n ==> i in claims && i in more && claims[i] == more[i]
    ensures ClaimedMessages(claims, n) == ClaimedMessages(more, n)
  {
    if n > 0 {
      SameClaimsBelow(claims, more, n - 1);
    }
  }

  lemma OneMoreClaim(claims: map<nat, Claim>, more: map<nat, Claim>, n: nat, accepted: multiset<Message>, c: Claim)
    requires ClaimsFit(claims, n, accepted) && more == claims[n := c]
    ensures ClaimsFit(more, n + 1, accepted + multiset{c.message})
  {
    SameClaimsBelow(claims, more, n);
  }

  lemma ClaimedClaims(r: Region, t: nat, m: Message)
    requires ClaimsFit(r.claims, |r.claims|, r.accepted) && |r.claims| == r.cursor
    ensures var r' := Claimed(r, t, m); |r'.claims| == |r.claims| + 1 && ClaimsFit(r'.claims, |r'.claims|, r'.accepted)
  {
    OneMoreClaim(r.claims, Claimed(r, t, m).claims, |r.claims|, r.accepted, Claim(t, Kept(m)));
  }

  lemma ClaimedCells(r: Region, t: nat, m: Message)
    requires CellsFit(r) && r.cursor !in r.claims
    ensures CellsFit(Claimed(r, t, m))
  {
  }

  lemma ClaimedThreads(r: Region, b: Side, ws: seq<Writer>, maxSlots: nat, t: nat, m: Message)
    requires ThreadsFit(r, b, ws) && SlotsFit(r, maxSlots) && t < |ws|
    requires ws[t] == Ticketed(b, m) && r.cursor !in r.claims
    ensures ThreadsFit(Claimed(r, t, m), b, ws[t := Reserved(b, r.cursor, m)])
  {
    OwnSlot(r, b, ws, t);
    ThreadsStep(r, Claimed(r, t, m), b, ws, t, Reserved(b, r.cursor, m));
  }

  // ----- The stores into the slot -----

  lemma HeaderStoredFits(r: Region, b: Side, ws: seq<Writer>, maxSlots: nat, t: nat, i: nat, m: Message)
    requires SlotsFit(r, maxSlots) && ThreadsFit(r, b, ws) && t < |ws|
    requires ws[t] == Reserved(b, i, m)
    ensures SlotsFit(HeaderStored(r, i, m), maxSlots)
    ensures ThreadsFit(HeaderStored(r, i, m), b, ws[t := HeaderWritten(b, i, m)])
  {
    OwnSlot(r, b, ws, t);
    ThreadsStep(r, HeaderStored(r, i, m), b, ws, t, HeaderWritten(b, i, m));
  }

  lemma PayloadCopiedCounts(r: Region, b: Side, ws: seq<Writer>, maxSlots: nat, t: nat, i: nat, m: Message)
    requires CountersFit(r, b, ws, maxSlots) && t < |ws|
    requires ws[t] == HeaderWritten(b, i, m) && i !in r.filled
    ensures CountersFit(PayloadCopied(r, i, m), b, ws[t := Filled(b, i, m)], maxSlots)
  {
    CountersStep(r, PayloadCopied(r, i, m), b, ws, maxSlots, t, Filled(b, i, m));
  }

  lemma PayloadCopiedSlots(r: Region, b: Side, ws: seq<Writer>, maxSlots: nat, t: nat, i: nat, m: Message)
    requires SlotsFit(r, maxSlots) && t < |ws|
    requires i in r.claims && r.claims[i].message == Kept(m) && HeaderOf(r.entries[i], m)
    ensures SlotsFit(PayloadCopied(r, i, m), maxSlots)
  {
    var n := KeptLength(m.payload);
    assert (m.payload[..n] + r.entries[i].jsonData[n..])[..n] == m.payload[..n];
  }

  lemma PayloadCopiedThreads(r: Region, b: Side, ws: seq<Writer>, maxSlots: nat, t: nat, i: nat, m: Message)
    requires SlotsFit(r, maxSlots) && ThreadsFit(r, b, ws) && t < |ws|
    requires ws[t] == HeaderWritten(b, i, m)
    ensures ThreadsFit(PayloadCopied(r, i, m), b, ws[t := Filled(b, i, m)])
  {
    OwnSlot(r, b, ws, t);
    ThreadsStep(r, PayloadCopied(r, i, m), b, ws, t, Filled(b, i, m));
  }

  // ----- The commit -----

  lemma CommitCountedCounts(r: Region, b: Side, ws: seq<Writer>, maxSlots: nat, t: nat, i: nat, m: Message)
    requires CountersFit(r, b, ws, maxSlots) && t < |ws| < TWO_31 - 1 && maxSlots < TWO_31
    requires ws[t] == Filled(b, i, m) && i !in r.committed
    ensures CountersFit(CommitCounted(r, i), b, ws[t := Committed(b, i, m)], maxSlots)
  {
    NoWrap(r, b, ws, maxSlots);
    CountersStep(r, CommitCounted(r, i), b, ws, maxSlots, t, Committed(b, i, m));
  }

  lemma CommitCountedFits(r: Region, b: Side, ws: seq<Writer>, maxSlots: nat, t: nat, i: nat, m: Message)
    requires SlotsFit(r, maxSlots) && ThreadsFit(r, b, ws) && t < |ws|
    requires ws[t] == Filled(b, i, m)
    ensures SlotsFit(CommitCounted(r, i), maxSlots)
    ensures ThreadsFit(CommitCounted(r, i), b, ws[t := Committed(b, i, m)])
  {
    OwnSlot(r, b, ws, t);
    ThreadsStep(r, CommitCounted(r, i), b, ws, t, Committed(b, i, m));
  }

  // ----- One step of a writer on its own side, and on the other -----

  lemma EnteredFits(r: Region, b: Side, ws: seq<Writer>, maxSlots: nat, t: nat, m: Message)
    requires RegionFits(r, b, ws, maxSlots) && t < |ws| < TWO_31 - 1 && maxSlots < TWO_31
    requires ws[t] == LookedUp(b, m)
    ensures RegionFits(Entered(r), b, ws[t := Ticketed(b, m)], maxSlots)
  {
    EnteredCounts(r, b, ws, maxSlots, t, m);
    SameSlots(r, Entered(r), b, ws, maxSlots, t, Ticketed(b, m));
  }

  lemma LeftFits(r: Region, b: Side, ws: seq<Writer>, maxSlots: nat, t: nat)
    requires RegionFits(r, b, ws, maxSlots) && t < |ws| < TWO_31 - 1 && maxSlots < TWO_31
    requires (ws[t].RolledBack? || ws[t].Committed?) && ws[t].side == b
    ensures RegionFits(Left(r), b, ws[t := Idle], maxSlots)
  {
    LeftCounts(r, b, ws, maxSlots, t);
    SameSlots(r, Left(r), b, ws, maxSlots, t, Idle);
  }

  lemma BumpedFits(r: Region, b: Side, ws: seq<Writer>, maxSlots: nat, t: nat)
    requires RegionFits(r, b, ws, maxSlots) && t < |ws| < TWO_31 - 1 && maxSlots < TWO_31
    requires ws[t].Ticketed? && ws[t].side == b && r.cursor >= maxSlots
    ensures RegionFits(Bumped(r), b, ws[t := Overflowed(b)], maxSlots)
  {
    BumpedCounts(r, b, ws, maxSlots, t);
    SameSlots(r, Bumped(r), b, ws, maxSlots, t, Overflowed(b));
  }

  lemma UnbumpedFits(r: Region, b: Side, ws: seq<Writer>, maxSlots: nat, t: nat)
    requires RegionFits(r, b, ws, maxSlots) && t < |ws|
    requires ws[t] == Overflowed(b)
    ensures RegionFits(Unbumped(r), b, ws[t := RolledBack(b)], maxSlots)
  {
    UnbumpedCounts(r, b, ws, maxSlots, t);
    SameSlots(r, Unbumped(r), b, ws, maxSlots, t, RolledBack(b));
  }

  lemma ClaimedFits(r: Region, b: Side, ws: seq<Writer>, maxSlots: nat, t: nat, m: Message)
    requires RegionFits(r, b, ws, maxSlots) && t < |ws| && maxSlots < TWO_31
    requires ws[t] == Ticketed(b, m) && r.cursor < maxSlots
    ensures r.cursor == |r.claims| && r.cursor !in r.claims
    ensures RegionFits(Claimed(r, t, m), b, ws[t := Reserved(b, r.cursor, m)], maxSlots)
  {
    ClaimedCounts(r, b, ws, maxSlots, t, m);
    ClaimedClaims(r, t, m);
    ClaimedCells(r, t, m);
    ClaimedThreads(r, b, ws, maxSlots, t, m);
  }

  lemma HeaderFits(r: Region, b: Side, ws: seq<Writer>, maxSlots: nat, t: nat, i: nat, m: Message)
    requires RegionFits(r, b, ws, maxSlots) && t < |ws|
    requires ws[t] == Reserved(b, i, m)
    ensures RegionFits(HeaderStored(r, i, m), b, ws[t := HeaderWritten(b, i, m)], maxSlots)
  {
    CountersStep(r, HeaderStored(r, i, m), b, ws, maxSlots, t, HeaderWritten(b, i, m));
    HeaderStoredFits(r, b, ws, maxSlots, t, i, m);
  }

  lemma PayloadFits(r: Region, b: Side, ws: seq<Writer>, maxSlots: nat, t: nat, i: nat, m: Message)
    requires RegionFits(r, b, ws, maxSlots) && t < |ws|
    requires ws[t] == HeaderWritten(b, i, m)
    ensures RegionFits(PayloadCopied(r, i, m), b, ws[t := Filled(b, i, m)], maxSlots)
  {
    assert WriterFits(r, b, t, ws[t]);
    PayloadCopiedCounts(r, b, ws, maxSlots, t, i, m);
    PayloadCopiedSlots(r, b, ws, maxSlots, t, i, m);
    PayloadCopiedThreads(r, b, ws, maxSlots, t, i, m);
  }

  lemma CommitFits(r: Region, b: Side, ws: seq<Writer>, maxSlots: nat, t: nat, i: nat, m: Message)
    requires RegionFits(r, b, ws, maxSlots) && t < |ws| < TWO_31 - 1 && maxSlots < TWO_31
    requires ws[t] == Filled(b, i, m)
    ensures RegionFits(CommitCounted(r, i), b, ws[t := Committed(b, i, m)], maxSlots)
  {
    assert WriterFits(r, b, t, ws[t]);
    CommitCountedCounts(r, b, ws, maxSlots, t, i, m);
    CommitCountedFits(r, b, ws, maxSlots, t, i, m);
  }

  lemma OtherSideFits(r: Region, b: Side, ws: seq<Writer>, maxSlots: nat, t: nat, w: Writer)
    requires RegionFits(r, b, ws, maxSlots) && t < |ws|
    requires Untouched(b, ws[t]) && Untouched(b, w)
    ensures RegionFits(r, b, ws[t := w], maxSlots)
  {
    OtherSideCounts(r, b, ws, maxSlots, t, w);
    SameSlots(r, r, b, ws, maxSlots, t, w);
  }

  // ----- The whole state -----

  lemma SideFits(s: State, b: Side)
    requires RegionsFit(s)
    ensures RegionFits(s.At(b), b, s.writers, s.maxSlots)
  {
    if b == 0 {
      assert s.At(b) == s.rwA;
    } else {
      assert s.At(b) == s.rwB;
    }
  }

  lemma BothSidesFit(s: State, b: Side)
    requires Sized(s) && RegionFits(s.At(b), b, s.writers, s.maxSlots)
    requires RegionFits(s.At(Other(b)), Other(b), s.writers, s.maxSlots)
    ensures RegionsFit(s)
  {
    if b == 0 {
      assert s.At(b) == s.rwA && s.At(Other(b)) == s.rwB;
    } else {
      assert s.At(b) == s.rwB && s.At(Other(b)) == s.rwA;
    }
  }

  lemma MovedSides(s: State, b: Side, r: Region, t: nat, w: Writer)
    requires t < |s.writers|
    ensures var m := Moved(s, b, r, t, w);
      m.At(b) == r && m.At(Other(b)) == s.At(Other(b)) && m.writers == s.writers[t := w] && m.maxSlots == s.maxSlots
  {
  }

  /** A step on side `b` keeps both regions fitting if it keeps its own. */
  lemma MovedFits(s: State, b: Side, r: Region, t: nat, w: Writer)
    requires RegionsFit(s) && t < |s.writers|
    requires RegionFits(r, b, s.writers[t := w], s.maxSlots)
    requires Untouched(Other(b), s.writers[t]) && Untouched(Other(b), w)
    ensures RegionsFit(Moved(s, b, r, t, w))
  {
    SideFits(s, Other(b));
    OtherSideFits(s.At(Other(b)), Other(b), s.writers, s.maxSlots, t, w);
    MovedSides(s, b, r, t, w);
    BothSidesFit(Moved(s, b, r, t, w), b);
  }

  lemma LookUpKeeps(s: State, t: nat, m: Message)
    requires RegionsFit(s) && Enabled(s, LookUp(t, m))
    ensures RegionsFit(AfterWriter(s, LookUp(t, m)))
  {
    var w := LookedUp(s.regionBit, m);
    OtherSideFits(s.rwA, 0, s.writers, s.maxSlots, t, w);
    OtherSideFits(s.rwB, 1, s.writers, s.maxSlots, t, w);
  }

  /** A step that accepts nothing moves its region and its thread, and that is all. */
  lemma MovesOnly(s: State, a: Action)
    requires ByWriter(a) && !a.LookUp? && Enabled(s, a)
      && !Accepts(s.At(s.writers[a.t].side), s.maxSlots, s.writers[a.t])
    ensures var w := s.writers[a.t];
      var r := s.At(w.side);
      AfterWriter(s, a) == Moved(s, w.side, RegionAfter(r, s.maxSlots, a.t, w), a.t, WriterAfter(r, s.maxSlots, w))
  {
  }

  lemma TakeTicketKeeps(s: State, t: nat)
    requires RegionsFit(s) && Enabled(s, TakeTicket(t))
    ensures RegionsFit(AfterWriter(s, TakeTicket(t)))
  {
    var w := s.writers[t];
    var b, r := w.side, s.At(w.side);
    MovesOnly(s, TakeTicket(t));
    SideFits(s, b);
    EnteredFits(r, b, s.writers, s.maxSlots, t, w.message);
    MovedFits(s, b, Entered(r), t, Ticketed(b, w.message));
  }

  lemma OverflowKeeps(s: State, t: nat)
    requires RegionsFit(s) && Enabled(s, FetchAdd(t)) && s.At(s.writers[t].side).cursor >= s.maxSlots
    ensures RegionsFit(AfterWriter(s, FetchAdd(t)))
  {
    var b := s.writers[t].side;
    SideFits(s, b);
    BumpedFits(s.At(b), b, s.writers, s.maxSlots, t);
    MovedFits(s, b, Bumped(s.At(b)), t, Overflowed(b));
  }

  lemma ReserveKeeps(s: State, t: nat)
    requires RegionsFit(s) && Enabled(s, FetchAdd(t)) && s.At(s.writers[t].side).cursor < s.maxSlots
    ensures RegionsFit(AfterWriter(s, FetchAdd(t)))
  {
    var w := s.writers[t];
    var b, r := w.side, s.At(w.side);
    var moved := Moved(s, b, Claimed(r, t, w.message), t, Reserved(b, r.cursor, w.message));
    SideFits(s, b);
    ClaimedFits(r, b, s.writers, s.maxSlots, t, w.message);
    MovedFits(s, b, Claimed(r, t, w.message), t, Reserved(b, r.cursor, w.message));
    assert AfterWriter(s, FetchAdd(t)) == moved.(acceptedEver := s.acceptedEver + multiset{Kept(w.message)});
  }

  lemma FetchAddKeeps(s: State, t: nat)
    requires RegionsFit(s) && Enabled(s, FetchAdd(t))
    ensures RegionsFit(AfterWriter(s, FetchAdd(t)))
  {
    if s.At(s.writers[t].side).cursor >= s.maxSlots {
      OverflowKeeps(s, t);
    } else {
      ReserveKeeps(s, t);
    }
  }

  lemma RollBackKeeps(s: State, t: nat)
    requires RegionsFit(s) && Enabled(s, RollBack(t))
    ensures RegionsFit(AfterWriter(s, RollBack(t)))
  {
    var w := s.writers[t];
    var b, r := w.side, s.At(w.side);
    MovesOnly(s, RollBack(t));
    SideFits(s, b);
    UnbumpedFits(r, b, s.writers, s.maxSlots, t);
    MovedFits(s, b, Unbumped(r), t, RolledBack(b));
  }

  lemma StoreHeaderKeeps(s: State, t: nat)
    requires RegionsFit(s) && Enabled(s, StoreHeader(t))
    ensures RegionsFit(AfterWriter(s, StoreHeader(t)))
  {
    var w := s.writers[t];
    var b, r := w.side, s.At(w.side);
    MovesOnly(s, StoreHeader(t));
    SideFits(s, b);
    HeaderFits(r, b, s.writers, s.maxSlots, t, w.slot, w.message);
    MovedFits(s, b, HeaderStored(r, w.slot, w.message), t, HeaderWritten(b, w.slot, w.message));
  }

  lemma CopyPayloadKeeps(s: State, t: nat)
    requires RegionsFit(s) && Enabled(s, CopyPayload(t))
    ensures RegionsFit(AfterWriter(s, CopyPayload(t)))
  {
    var w := s.writers[t];
    var b, r := w.side, s.At(w.side);
    MovesOnly(s, CopyPayload(t));
    SideFits(s, b);
    PayloadFits(r, b, s.writers, s.maxSlots, t, w.slot, w.message);
    MovedFits(s, b, PayloadCopied(r, w.slot, w.message), t, Filled(b, w.slot, w.message));
  }

  lemma CommitKeeps(s: State, t: nat)
    requires RegionsFit(s) && Enabled(s, Commit(t))
    ensures RegionsFit(AfterWriter(s, Commit(t)))
  {
    var w := s.writers[t];
    var b, r := w.side, s.At(w.side);
    MovesOnly(s, Commit(t));
    SideFits(s, b);
    CommitFits(r, b, s.writers, s.maxSlots, t, w.slot, w.message);
    MovedFits(s, b, CommitCounted(r, w.slot), t, Committed(b, w.slot, w.message));
  }

  lemma ReturnTicketKeeps(s: State, t: nat)
    requires RegionsFit(s) && Enabled(s, ReturnTicket(t))
    ensures RegionsFit(AfterWriter(s, ReturnTicket(t)))
  {
    var w := s.writers[t];
    var b, r := w.side, s.At(w.side);
    MovesOnly(s, ReturnTicket(t));
    SideFits(s, b);
    LeftFits(r, b, s.writers, s.maxSlots, t);
    MovedFits(s, b, Left(r), t, Idle);
  }

  lemma WriterKeepsRegions(s: State, a: Action)
    requires RegionsFit(s) && ByWriter(a) && Enabled(s, a)
    ensures RegionsFit(AfterWriter(s, a))
  {
    match a {
      case LookUp(t, m) => LookUpKeeps(s, t, m);
      case TakeTicket(t) => TakeTicketKeeps(s, t);
      case FetchAdd(t) => FetchAddKeeps(s, t);
      case RollBack(t) => RollBackKeeps(s, t);
      case StoreHeader(t) => StoreHeaderKeeps(s, t);
      case CopyPayload(t) => CopyPayloadKeeps(s, t);
      case Commit(t) => CommitKeeps(s, t);
      case ReturnTicket(t) => ReturnTicketKeeps(s, t);
    }
  }

  /** A successful fetch-add on side `b` puts its message both into what was accepted and into its region. */
  predicate AcceptsOne(s: State, s': State, b: Side, k: Message) {
    && s'.drains == s.drains && s'.totalEntries == s.totalEntries
    && s'.acceptedEver == s.acceptedEver + multiset{k}
    && s'.At(b).accepted == s.At(b).accepted + multiset{k} && s'.At(Other(b)).accepted == s.At(Other(b)).accepted
    && |s'.At(b).claims| == |s.At(b).claims| + 1 && s'.At(Other(b)).claims == s.At(Other(b)).claims
  }

  lemma ReserveAccepts(s: State, t: nat)
    requires Enabled(s, FetchAdd(t))
    requires var r := s.At(s.writers[t].side); r.cursor < s.maxSlots && r.cursor !in r.claims
    ensures AcceptsOne(s, AfterWriter(s, FetchAdd(t)), s.writers[t].side, Kept(s.writers[t].message))
  {
    WriterSteps(s, FetchAdd(t));
    WriterKeepsRest(s, FetchAdd(t));
  }

  lemma AddToFirst(found: multiset<Message>, a: multiset<Message>, b: multiset<Message>, one: multiset<Message>)
    ensures found + (a + one) + b == (found + a + b) + one
    ensures found + a + (b + one) == (found + a + b) + one
  {
  }

  lemma AcceptsOneConserves(s: State, s': State, b: Side, k: Message)
    requires Conserved(s) && AcceptsOne(s, s', b, k)
    ensures Conserved(s')
  {
    AddToFirst(DrainedMessages(s.drains), s.rwA.accepted, s.rwB.accepted, multiset{k});
  }

  predicate SameAccounts(s: State, s': State) {
    && s'.acceptedEver == s.acceptedEver && s'.drains == s.drains && s'.totalEntries == s.totalEntries
    && s'.rwA.claims == s.rwA.claims && s'.rwB.claims == s.rwB.claims
    && s'.rwA.accepted == s.rwA.accepted && s'.rwB.accepted == s.rwB.accepted
  }

  lemma RegionKeepsAccounts(r: Region, maxSlots: u32, t: nat, w: Writer)
    requires !w.Idle? && !Accepts(r, maxSlots, w)
    ensures var r' := RegionAfter(r, maxSlots, t, w); r'.claims == r.claims && r'.accepted == r.accepted
  {
  }

  lemma NoAcceptanceSameAccounts(s: State, a: Action)
    requires ByWriter(a) && Enabled(s, a)
    requires a.LookUp? || (!s.writers[a.t].Idle? && !Accepts(s.At(s.writers[a.t].side), s.maxSlots, s.writers[a.t]))
    ensures SameAccounts(s, AfterWriter(s, a))
  {
    WriterKeepsRest(s, a);
    if !a.LookUp? {
      WriterSteps(s, a);
      RegionKeepsAccounts(s.At(s.writers[a.t].side), s.maxSlots, a.t, s.writers[a.t]);
    }
  }

  lemma SameAccountsConserve(s: State, s': State)
    requires Conserved(s) && SameAccounts(s, s')
    ensures Conserved(s')
  {
  }

  lemma FetchAddConserves(s: State, t: nat)
    requires Conserved(s) && Enabled(s, FetchAdd(t))
    requires var r := s.At(s.writers[t].side); r.cursor < s.maxSlots ==> r.cursor !in r.claims
    ensures Conserved(AfterWriter(s, FetchAdd(t)))
  {
    var b, s' := s.writers[t].side, AfterWriter(s, FetchAdd(t));
    if s.At(b).cursor < s.maxSlots {
      ReserveAccepts(s, t);
      AcceptsOneConserves(s, s', b, Kept(s.writers[t].message));
    } else {
      NoAcceptanceSameAccounts(s, FetchAdd(t));
      SameAccountsConserve(s, s');
    }
  }

  lemma OtherStepsKeepAccounts(s: State, a: Action)
    requires ByWriter(a) && !a.FetchAdd? && Enabled(s, a)
    ensures SameAccounts(s, AfterWriter(s, a))
  {
    NoAcceptanceSameAccounts(s, a);
  }

  /** A successful fetch-add returns the first slot not handed out yet. */
  lemma FetchAddIsFresh(s: State, t: nat)
    requires RegionsFit(s) && Enabled(s, FetchAdd(t))
    ensures var r := s.At(s.writers[t].side); r.cursor < s.maxSlots ==> r.cursor == |r.claims| && r.cursor !in r.claims
  {
    var b := s.writers[t].side;
    if s.At(b).cursor < s.maxSlots {
      ClaimedFits(s.At(b), b, s.writers, s.maxSlots, t, s.writers[t].message);
    }
  }

  lemma WriterKeeps(s: State, a: Action)
    requires Inv(s) && ByWriter(a) && Enabled(s, a)
    ensures Inv(AfterWriter(s, a))
  {
    WriterKeepsRegions(s, a);
    if a.FetchAdd? {
      FetchAddIsFresh(s, a.t);
      FetchAddConserves(s, a.t);
    } else {
      OtherStepsKeepAccounts(s, a);
      SameAccountsConserve(s, AfterWriter(s, a));
    }
  }

  // ----- A region without tickets -----

  lemma {:induction false} StoredClaims(entries: seq<MessageEntry>, claims: map<nat, Claim>, n: nat)
    requires n <= |entries|
    requires forall i :: 0 <= i < n ==> i in claims && Read(entries[i]) == claims[i].message
    ensures multiset(Stored(entries, n)) == ClaimedMessages(claims, n)
  {
    if n > 0 {
      StoredClaims(entries, claims, n - 1);
    }
  }

  lemma {:induction false} SubsetOfSameSize<T>(small: set<T>, big: set<T>)
    requires small <= big && |small| == |big|
    ensures small == big
  {
    if x :| x in small {
      SubsetOfSameSize(small - {x}, big - {x});
    }
  }

  /** Once nobody holds a ticket on a region, everything reserved there is written and committed, the
      cursor counts exactly that, and the entries below it hold exactly the accepted messages. */
  lemma QuiescentRegion(r: Region, b: Side, ws: seq<Writer>, maxSlots: nat)
    requires RegionFits(r, b, ws, maxSlots) && r.activeWriters <= 0
    ensures r.cursor == r.committedEntries == |r.claims| <= maxSlots
    ensures r.claims.Keys == r.filled == r.committed
    ensures multiset(Stored(r.entries, r.cursor)) == r.accepted
  {
    TallyAtMost(ws, Pending, b);
    TallyAtMost(ws, Unfilled, b);
    TallyAtMost(ws, Uncommitted, b);
    SubsetOfSameSize(r.filled, r.claims.Keys);
    SubsetOfSameSize(r.committed, r.filled);
    StoredClaims(r.entries, r.claims, |r.claims|);
  }

  lemma ResetFits(r: Region, b: Side, ws: seq<Writer>, maxSlots: nat)
    requires RegionFits(r, b, ws, maxSlots) && r.activeWriters <= 0
    ensures RegionFits(Reset(r), b, ws, maxSlots)
  {
    TallyAtMost(ws, Pending, b);
    TallyAtMost(ws, Unfilled, b);
    TallyAtMost(ws, Uncommitted, b);
    forall t | 0 <= t < |ws| ensures WriterFits(Reset(r), b, t, ws[t]) {
      TallyAtLeast(ws, t, Holding, b);
    }
  }

  lemma DrainedSides(s: State, b: Side)
    ensures var e := Drained(s, b);
      && e.At(b) == Reset(s.At(b)) && e.At(Other(b)) == s.At(Other(b))
      && e.writers == s.writers && e.maxSlots == s.maxSlots
  {
  }

  lemma DrainedFits(s: State, b: Side)
    requires RegionsFit(s) && s.At(b).activeWriters <= 0
    ensures RegionsFit(Drained(s, b))
  {
    SideFits(s, b);
    SideFits(s, Other(b));
    ResetFits(s.At(b), b, s.writers, s.maxSlots);
    DrainedSides(s, b);
    BothSidesFit(Drained(s, b), b);
  }

  lemma OneMoreDrain(drains: seq<DrainResult>, d: DrainResult)
    ensures DrainedMessages(drains + [d]) == DrainedMessages(drains) + multiset(Stored(d.entries, d.entriesWritten))
  {
    assert (drains + [d])[..|drains|] == drains;
  }

  lemma DrainedConserves(s: State, b: Side)
    requires Conserved(s)
    requires var r := s.At(b); r.cursor == |r.claims| && multiset(Stored(r.entries, r.cursor)) == r.accepted
    ensures Conserved(Drained(s, b))
  {
    OneMoreDrain(s.drains, DrainResult(s.At(b).entries, s.At(b).cursor));
  }

  lemma QuiescentSide(s: State, b: Side)
    requires RegionsFit(s) && s.At(b).activeWriters <= 0
    ensures var r := s.At(b);
      && r.cursor == r.committedEntries == |r.claims| <= s.maxSlots
      && r.claims.Keys == r.filled == r.committed
      && multiset(Stored(r.entries, r.cursor)) == r.accepted
  {
    if b == 0 {
      QuiescentRegion(s.rwA, 0, s.writers, s.maxSlots);
    } else {
      QuiescentRegion(s.rwB, 1, s.writers, s.maxSlots);
    }
  }

  lemma DrainedKeeps(s: State, b: Side)
    requires Inv(s) && s.At(b).activeWriters <= 0
    ensures Inv(Drained(s, b))
  {
    DrainedFits(s, b);
    QuiescentSide(s, b);
    DrainedConserves(s, b);
  }

  /** Every atomic step of every thread, and the tail of a drain as one step, keeps the invariant. */
  lemma StepKeeps(s: State, a: Action)
    requires Inv(s) && Enabled(s, a) && AtomicTail(a)
    ensures Inv(After(s, a))
  {
    if ByWriter(a) {
      WriterKeeps(s, a);
    } else if a.DrainTail? {
      DrainedKeeps(s, s.drainers[a.d].side);
    }
  }

  lemma HeadKeeps(s: State, actions: seq<Action>) returns (m: State)
    requires Inv(s) && AtomicTails(actions) && actions != [] && Enabled(s, actions[0])
    ensures m == After(s, actions[0]) && Inv(m) && AtomicTails(actions[1..])
  {
    assert AtomicTail(actions[0]);
    StepKeeps(s, actions[0]);
    m := After(s, actions[0]);
  }

  lemma {:induction false} RunKeeps(s: State, actions: seq<Action>, e: State)
    requires Inv(s) && AtomicTails(actions) && Run(s, actions) == Some(e)
    ensures Inv(e)
    decreases |actions|
  {
    if actions != [] {
      var m := HeadKeeps(s, actions);
      RunKeeps(m, actions[1..], e);
    }
  }

  lemma InitialFits(s: State)
    requires Initial(s)
    ensures Inv(s)
  {
    TallyOfIdle(s.writers, Holding, 0);
    TallyOfIdle(s.writers, Holding, 1);
    forall k: Kind, b: Side ensures Tally(s.writers, k, b) == 0 {
      TallyAtMost(s.writers, k, b);
      TallyOfIdle(s.writers, k, b);
    }
  }
}
