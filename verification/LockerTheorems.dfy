/** What the protocol guarantees over every run of any number of writers and drainers, stale region
    look-ups included, when the tail of a drain runs as one step. */
module LockerTheorems {
  import opened Base
  import opened Entry
  import opened LockerWriter
  import opened LockerInvariant

  /** `s` is where some schedule takes the initial database `s0`. */
  ghost predicate Reached(s0: State, actions: seq<Action>, s: State) {
    Initial(s0) && AtomicTails(actions) && Run(s0, actions) == Some(s)
  }

  lemma ReachedKeepsInvariant(s0: State, actions: seq<Action>, s: State)
    requires Reached(s0, actions, s)
    ensures Inv(s)
  {
    InitialFits(s0);
    RunKeeps(s0, actions, s);
  }

  lemma ReachedSideFits(s0: State, actions: seq<Action>, s: State, b: Side)
    requires Reached(s0, actions, s)
    ensures RegionFits(s.At(b), b, s.writers, s.maxSlots) && Sized(s)
  {
    ReachedKeepsInvariant(s0, actions, s);
    SideFits(s, b);
  }

  /** The fetch-add of `a`, taken in `s`, hands out a slot. */
  predicate Succeeds(s: State, a: Action)
    requires Enabled(s, a)
  {
    a.FetchAdd? && s.At(s.writers[a.t].side).cursor < s.maxSlots
  }

  /** How many reservations succeed along a schedule. */
  function Successes(s: State, actions: seq<Action>): nat
    requires Run(s, actions).Some?
    decreases |actions|
  {
    if actions == [] then 0
    else (if Succeeds(s, actions[0]) then 1 else 0) + Successes(After(s, actions[0]), actions[1..])
  }

  lemma OneSuccess(s: State, a: Action)
    requires Enabled(s, a) && AtomicTail(a)
    ensures |After(s, a).acceptedEver| == |s.acceptedEver| + if Succeeds(s, a) then 1 else 0
  {
  }

  lemma {:induction false} SuccessesAreAccepted(s: State, actions: seq<Action>)
    requires Run(s, actions).Some? && AtomicTails(actions)
    ensures |Run(s, actions).value.acceptedEver| == |s.acceptedEver| + Successes(s, actions)
    decreases |actions|
  {
    if actions != [] {
      assert AtomicTail(actions[0]);
      OneSuccess(s, actions[0]);
      SuccessesAreAccepted(After(s, actions[0]), actions[1..]);
    }
  }

  lemma {:induction false} ClaimedCount(claims: map<nat, Claim>, n: nat)
    requires forall i :: 0 <= i < n ==> i in claims
    ensures |ClaimedMessages(claims, n)| == n
  {
    if n > 0 {
      ClaimedCount(claims, n - 1);
    }
  }

  /** No accepted message is lost or counted twice by a switch: each is in what was drained or in exactly
      one region, and the total and the regions' slots count the successful reservations. */
  lemma NothingLost(s0: State, actions: seq<Action>, s: State)
    requires Reached(s0, actions, s)
    ensures s.acceptedEver == DrainedMessages(s.drains) + s.rwA.accepted + s.rwB.accepted
    ensures Successes(s0, actions) == s.totalEntries + |s.rwA.claims| + |s.rwB.claims|
    ensures |DrainedMessages(s.drains)| == s.totalEntries
    ensures |s.rwA.accepted| == |s.rwA.claims| && |s.rwB.accepted| == |s.rwB.claims|
  {
    ReachedKeepsInvariant(s0, actions, s);
    SuccessesAreAccepted(s0, actions);
    ClaimedCount(s.rwA.claims, |s.rwA.claims|);
    ClaimedCount(s.rwB.claims, |s.rwB.claims|);
  }

  predicate SameSlot(v: Writer, w: Writer) {
    HasSlot(v) && HasSlot(w) && v.side == w.side && v.slot == w.slot
  }

  /** Two threads with a slot on one side have different ones, since each is the owner of its claim. */
  lemma OwnersDiffer(s: State, t: nat, u: nat)
    requires RegionsFit(s) && t < u < |s.writers| && HasSlot(s.writers[t]) && HasSlot(s.writers[u])
    ensures s.writers[t].side != s.writers[u].side || s.writers[t].slot != s.writers[u].slot
  {
    var b := s.writers[t].side;
    SideFits(s, b);
    assert WriterFits(s.At(b), b, t, s.writers[t]) && WriterFits(s.At(b), b, u, s.writers[u]);
  }

  /** The slots handed out on a side are 0, 1, ..., n-1, once each, and never more than there are; a cursor
      above that counts fetch-adds about to be rolled back, and then the region is full. */
  lemma SlotsAreExclusive(s0: State, actions: seq<Action>, s: State, b: Side)
    requires Reached(s0, actions, s)
    ensures var r := s.At(b);
      && (forall i :: i in r.claims <==> 0 <= i < |r.claims|)
      && |r.accepted| == |r.claims| <= s.maxSlots
      && r.cursor == |r.claims| + Tally(s.writers, Pending, b)
      && (r.cursor > |r.claims| ==> |r.claims| == s.maxSlots)
    ensures forall t, u :: 0 <= t < u < |s.writers| ==> !SameSlot(s.writers[t], s.writers[u])
    ensures forall t, u :: 0 <= t < u < |s.writers| && HasSlot(s.writers[t]) && HasSlot(s.writers[u]) ==>
      s.writers[t].side != s.writers[u].side || s.writers[t].slot != s.writers[u].slot
  {
    ReachedKeepsInvariant(s0, actions, s);
    SideFits(s, b);
    ClaimedCount(s.At(b).claims, |s.At(b).claims|);
    forall t, u | 0 <= t < u < |s.writers| && HasSlot(s.writers[t]) && HasSlot(s.writers[u])
      ensures s.writers[t].side != s.writers[u].side || s.writers[t].slot != s.writers[u].slot
    {
      OwnersDiffer(s, t, u);
    }
  }

  /** What a drain finds once it has seen no tickets: the cursor, the commits and the slots agree, and
      the entries hold exactly the messages accepted there since the last reset. */
  lemma DrainFindsEverything(s0: State, actions: seq<Action>, s: State, b: Side)
    requires Reached(s0, actions, s) && s.At(b).activeWriters <= 0
    ensures var r := s.At(b);
      && r.cursor == r.committedEntries == |r.claims| <= s.maxSlots
      && r.filled == r.committed == r.claims.Keys
      && multiset(Stored(r.entries, r.cursor)) == r.accepted
  {
    ReachedSideFits(s0, actions, s, b);
    QuiescentRegion(s.At(b), b, s.writers, s.maxSlots);
  }

  /** The 32-bit counters never come near their limits, so none of them ever wraps. */
  lemma CountersStayInRange(s0: State, actions: seq<Action>, s: State, b: Side)
    requires Reached(s0, actions, s)
    ensures 0 <= s.At(b).activeWriters <= |s.writers|
    ensures s.At(b).cursor <= s.maxSlots + |s.writers| < TWO_32 - 1
    ensures s.At(b).committedEntries <= s.maxSlots
  {
    ReachedSideFits(s0, actions, s, b);
    NoWrap(s.At(b), b, s.writers, s.maxSlots);
    TallyAtMost(s.writers, Holding, b);
  }

  // ----- Runs at the grain of the code -----

  predicate AtCodeGrain(actions: seq<Action>) {
    forall i :: 0 <= i < |actions| ==> !actions[i].DrainTail?
  }

  /** A run of the code as it is, with no condition on when anything happens. */
  ghost predicate CodeRun(s0: State, actions: seq<Action>, s: State) {
    Initial(s0) && AtCodeGrain(actions) && Run(s0, actions) == Some(s)
  }

  lemma CodeRunGoesOn(s0: State, first: seq<Action>, s: State, second: seq<Action>, e: State)
    requires CodeRun(s0, first, s) && AtCodeGrain(second) && Run(s, second) == Some(e)
    ensures CodeRun(s0, first + second, e)
  {
    RunConcat(s0, first, second);
  }

  // ----- Readers -----

  predicate HasUnwritten(w: Writer, b: Side, i: nat) {
    (w.Reserved? || w.HeaderWritten?) && w.side == b && w.slot == i
  }

  ghost predicate SomeoneStillWrites(ws: seq<Writer>, b: Side, i: nat) {
    exists t :: 0 <= t < |ws| && HasUnwritten(ws[t], b, i)
  }

  lemma WrittenOrInHand(r: Region, b: Side, ws: seq<Writer>, i: nat)
    requires ThreadsFit(r, b, ws) && i in r.claims && r.committed <= r.filled
    ensures i in r.filled <==> !SomeoneStillWrites(ws, b, i)
  {
    if i in r.filled {
      forall t | 0 <= t < |ws| ensures !HasUnwritten(ws[t], b, i) {
        assert WriterFits(r, b, t, ws[t]);
      }
    } else {
      assert SlotInHand(r, b, ws, i);
      var t := r.claims[i].owner;
      assert WriterFits(r, b, t, ws[t]);
      assert HasUnwritten(ws[t], b, i);
    }
  }

  lemma {:induction false} SubsetIsSmaller<T>(small: set<T>, big: set<T>)
    requires small <= big
    ensures |small| <= |big|
  {
    if x :| x in small {
      SubsetIsSmaller(small - {x}, big - {x});
    }
  }

  /** The slots below the commit count that are not fully written. */
  ghost function Unwritten(r: Region): set<nat> {
    set i: nat | i < r.committedEntries && i !in r.filled
  }

  lemma FewUnwritten(r: Region, b: Side, ws: seq<Writer>, maxSlots: nat)
    requires CountersFit(r, b, ws, maxSlots) && r.filled <= r.claims.Keys
    requires forall i :: 0 <= i < |r.claims| ==> i in r.claims
    ensures |Unwritten(r)| <= Tally(ws, Unfilled, b)
  {
    var open := r.claims.Keys - r.filled;
    assert r.claims.Keys == open + r.filled;
    SubsetIsSmaller(Unwritten(r), open);
  }

  /** The entry at a readable index is the complete write that claimed it. */
  ghost predicate ReadsAsWritten(r: Region, i: nat) {
    i in r.claims && Read(EntryAt(r.entries, i)) == r.claims[i].message
  }

  lemma FilledReadsAsWritten(r: Region, i: nat)
    requires CellsFit(r) && i in r.filled
    ensures ReadsAsWritten(r, i)
  {
  }

  /** What readers of a region get, whatever brought it there. */
  lemma RegionReads(r: Region, b: Side, ws: seq<Writer>, maxSlots: nat)
    requires RegionFits(r, b, ws, maxSlots) && |ws| < TWO_31 - 1 && maxSlots < TWO_31
    ensures r.committedEntries <= |r.claims| <= maxSlots
    ensures forall i :: 0 <= i < r.committedEntries ==> (i in r.filled <==> !SomeoneStillWrites(ws, b, i))
    ensures forall i :: 0 <= i < r.committedEntries && i in r.filled ==> ReadsAsWritten(r, i)
    ensures |Unwritten(r)| <= Tally(ws, Unfilled, b)
  {
    NoWrap(r, b, ws, maxSlots);
    FewUnwritten(r, b, ws, maxSlots);
    forall i | 0 <= i < r.committedEntries ensures i in r.filled <==> !SomeoneStillWrites(ws, b, i) {
      WrittenOrInHand(r, b, ws, i);
    }
    forall i | 0 <= i < r.committedEntries && i in r.filled ensures ReadsAsWritten(r, i) {
      FilledReadsAsWritten(r, i);
    }
  }

  /** Commits count, they do not order: an index that a reader is let through to is fully written exactly
      when no thread still has that slot in hand, and then it reads as the message accepted for it; at most as
      many slots below the commit count are unwritten as there are threads between their reservation and the
      end of their copy. */
  lemma ReadersSee(s0: State, actions: seq<Action>, s: State, b: Side)
    requires Reached(s0, actions, s)
    ensures var r := s.At(b);
      && r.committedEntries <= |r.claims| <= s.maxSlots
      && (forall i :: 0 <= i < r.committedEntries ==> (i in r.filled <==> !SomeoneStillWrites(s.writers, b, i)))
      && (forall i :: 0 <= i < r.committedEntries && i in r.filled ==>
            i in r.claims && Read(EntryAt(r.entries, i)) == r.claims[i].message)
      && (forall i :: i in Unwritten(r) <==> 0 <= i < r.committedEntries && i !in r.filled)
      && |Unwritten(r)| <= Tally(s.writers, Unfilled, b)
  {
    ReachedSideFits(s0, actions, s, b);
    RegionReads(s.At(b), b, s.writers, s.maxSlots);
  }

  // ----- One writer at a time -----

  /** At most one thread holds a ticket on each region. */
  predicate AtMostOneTicket(s: State) {
    Tally(s.writers, Holding, 0) <= 1 && Tally(s.writers, Holding, 1) <= 1
  }

  predicate OneWriterAtATime(s: State, actions: seq<Action>)
    requires Run(s, actions).Some?
    decreases |actions|
  {
    AtMostOneTicket(s) && (actions != [] ==> OneWriterAtATime(After(s, actions[0]), actions[1..]))
  }

  /** Thread `w` holds a ticket of side `b`. */
  predicate HasTicket(w: Writer, b: Side) {
    !w.Idle? && !w.LookedUp? && w.side == b
  }

  lemma {:induction false} OneHolder(ws: seq<Writer>, b: Side) returns (t: nat)
    requires Tally(ws, Holding, b) >= 1
    ensures t < |ws| && HasTicket(ws[t], b)
    decreases |ws|
  {
    t := |ws| - 1;
    if !HasTicket(ws[t], b) {
      t := OneHolder(ws[..t], b);
    }
  }

  lemma {:induction false} TwoHolders(ws: seq<Writer>, b: Side) returns (t: nat, u: nat)
    requires Tally(ws, Holding, b) >= 2
    ensures t < u < |ws| && HasTicket(ws[t], b) && HasTicket(ws[u], b)
    decreases |ws|
  {
    u := |ws| - 1;
    if HasTicket(ws[u], b) {
      t := OneHolder(ws[..u], b);
    } else {
      t, u := TwoHolders(ws[..u], b);
    }
  }

  lemma AtMostOneHolder(ws: seq<Writer>, b: Side)
    ensures Tally(ws, Holding, b) <= 1 <==>
      forall t, u :: 0 <= t < u < |ws| ==> !HasTicket(ws[t], b) || !HasTicket(ws[u], b)
  {
    if Tally(ws, Holding, b) >= 2 {
      var t, u := TwoHolders(ws, b);
    }
    forall t, u | 0 <= t < u < |ws| && HasTicket(ws[t], b) && HasTicket(ws[u], b)
      ensures Tally(ws, Holding, b) >= 2
    {
      TallyAtLeastTwo(ws, t, u, Holding, b);
    }
  }

  /** That is: no two threads are past their tickets on the same side. */
  lemma OneTicketMeans(s: State)
    ensures AtMostOneTicket(s) <==>
      forall t, u :: 0 <= t < u < |s.writers| ==>
        || s.writers[t].Idle? || s.writers[t].LookedUp? || s.writers[u].Idle? || s.writers[u].LookedUp?
        || s.writers[t].side != s.writers[u].side
  {
    AtMostOneHolder(s.writers, 0);
    AtMostOneHolder(s.writers, 1);
    if AtMostOneTicket(s) {
      forall t, u | 0 <= t < u < |s.writers|
        ensures s.writers[t].Idle? || s.writers[t].LookedUp? || !HasTicket(s.writers[u], s.writers[t].side)
      {
      }
    }
  }

  /** Writers come one at a time in a run exactly when they do in each of its states. */
  lemma {:induction false} OneWriterAtATimeMeans(s: State, actions: seq<Action>)
    requires Run(s, actions).Some?
    ensures OneWriterAtATime(s, actions) <==>
      forall i, m :: 0 <= i <= |actions| && Run(s, actions[..i]) == Some(m) ==> AtMostOneTicket(m)
    decreases |actions|
  {
    assert Run(s, actions[..0]) == Some(s);
    if actions != [] {
      var next, rest := After(s, actions[0]), actions[1..];
      OneWriterAtATimeMeans(next, rest);
      forall i | 0 < i <= |actions| ensures Run(s, actions[..i]) == Run(next, rest[..i - 1]) {
        RunOfPrefix(s, actions, i);
      }
      if AtMostOneTicket(s) && !OneWriterAtATime(next, rest) {
        var i, m :| 0 <= i <= |rest| && Run(next, rest[..i]) == Some(m) && !AtMostOneTicket(m);
        assert Run(s, actions[..i + 1]) == Some(m);
      }
    }
  }

  /** Only the last slot handed out can still be uncommitted. */
  ghost predicate InOrder(r: Region) {
    forall i :: i in r.claims && i !in r.committed ==> i == |r.claims| - 1
  }

  /** A thread that is about to reserve is the only ticket holder, so nothing is uncommitted. */
  lemma AloneMeansCommitted(r: Region, b: Side, ws: seq<Writer>, t: nat)
    requires ThreadsFit(r, b, ws) && Tally(ws, Holding, b) <= 1
    requires t < |ws| && ws[t].Ticketed? && ws[t].side == b
    ensures r.claims.Keys <= r.committed
  {
    forall i | i in r.claims && i !in r.committed ensures false {
      assert SlotInHand(r, b, ws, i);
      var u := r.claims[i].owner;
      if t < u {
        TallyAtLeastTwo(ws, t, u, Holding, b);
      } else {
        TallyAtLeastTwo(ws, u, t, Holding, b);
      }
    }
  }

  lemma FetchAddInOrder(s: State, t: nat)
    requires RegionsFit(s) && AtMostOneTicket(s) && Enabled(s, FetchAdd(t))
    requires InOrder(s.rwA) && InOrder(s.rwB)
    ensures var s' := AfterWriter(s, FetchAdd(t)); InOrder(s'.rwA) && InOrder(s'.rwB)
  {
    var b := s.writers[t].side;
    AloneMeansCommitted(s.At(b), b, s.writers, t);
    FetchAddIsFresh(s, t);
  }

  lemma RegionStaysInOrder(r: Region, maxSlots: u32, t: nat, w: Writer)
    requires !w.Idle? && !w.Ticketed? && InOrder(r)
    ensures InOrder(RegionAfter(r, maxSlots, t, w))
  {
  }

  lemma OtherStepsInOrder(s: State, a: Action)
    requires Enabled(s, a) && AtomicTail(a) && !a.FetchAdd?
    requires InOrder(s.rwA) && InOrder(s.rwB)
    ensures InOrder(After(s, a).rwA) && InOrder(After(s, a).rwB)
  {
    if ByWriter(a) && !a.LookUp? {
      RegionStaysInOrder(s.At(s.writers[a.t].side), s.maxSlots, a.t, s.writers[a.t]);
    }
  }

  lemma StepInOrder(s: State, a: Action)
    requires RegionsFit(s) && AtMostOneTicket(s) && Enabled(s, a) && AtomicTail(a)
    requires InOrder(s.rwA) && InOrder(s.rwB)
    ensures InOrder(After(s, a).rwA) && InOrder(After(s, a).rwB)
  {
    if a.FetchAdd? {
      FetchAddInOrder(s, a.t);
    } else {
      OtherStepsInOrder(s, a);
    }
  }

  lemma {:induction false} RunInOrder(s: State, actions: seq<Action>)
    requires Inv(s) && AtomicTails(actions) && Run(s, actions).Some?
    requires OneWriterAtATime(s, actions) && InOrder(s.rwA) && InOrder(s.rwB)
    ensures var e := Run(s, actions).value; InOrder(e.rwA) && InOrder(e.rwB)
    decreases |actions|
  {
    if actions != [] {
      var m := HeadKeeps(s, actions);
      StepInOrder(s, actions[0]);
      RunInOrder(m, actions[1..]);
    }
  }

  lemma CommitsArePrefix(r: Region, b: Side, ws: seq<Writer>, maxSlots: nat, i: nat)
    requires CountersFit(r, b, ws, maxSlots) && SlotsFit(r, maxSlots) && InOrder(r) && i < r.committedEntries
    ensures i in r.filled && Content(r.entries[i]) == r.claims[i].message
  {
    if i !in r.committed {
      assert i in r.claims;
      var others := r.claims.Keys - {i};
      assert r.committed <= others;
      SubsetIsSmaller(r.committed, others);
    }
  }

  /** If writers never overlap on a region, every index a reader is let through to is a fully written entry. */
  lemma SerialReadersAreSafe(s0: State, actions: seq<Action>, s: State, b: Side, i: nat)
    requires Reached(s0, actions, s) && OneWriterAtATime(s0, actions) && i < s.At(b).committedEntries
    ensures var r := s.At(b);
      && i in r.filled && i in r.claims
      && Read(EntryAt(r.entries, i)) == r.claims[i].message
  {
    ReachedSideFits(s0, actions, s, b);
    assert InOrder(s.At(b)) by {
      InitialFits(s0);
      RunInOrder(s0, actions);
    }
    CommitsArePrefix(s.At(b), b, s.writers, s.maxSlots, i);
  }

  /** Thread `t` alone takes the first slot of region A up to its reservation. */
  lemma ReservesAlone(s: State, t: nat, m: Message) returns (actions: seq<Action>)
    requires s.regionBit == 0 && t < |s.writers| && s.writers[t].Idle?
    requires s.rwA.cursor < s.maxSlots && s.rwA.cursor < TWO_31
    ensures forall i :: 0 <= i < |actions| ==> ByWriter(actions[i])
    ensures Run(s, actions) == Some(s.(
        rwA := Claimed(Entered(s.rwA), t, m),
        writers := s.writers[t := Reserved(0, s.rwA.cursor, m)],
        acceptedEver := s.acceptedEver + multiset{Kept(m)}))
  {
    actions := [LookUp(t, m)];
    var s1 := s.(writers := s.writers[t := LookedUp(0, m)]);
    RunSnoc(s, [], s, LookUp(t, m));
    assert [] + [LookUp(t, m)] == actions;
    assert Run(s, actions) == Some(s1);
    RunSnoc(s, actions, s1, TakeTicket(t));
    var s2 := s.(rwA := Entered(s.rwA), writers := s.writers[t := Ticketed(0, m)]);
    assert s1.writers[t := Ticketed(0, m)] == s2.writers;
    actions := actions + [TakeTicket(t)];
    RunSnoc(s, actions, s2, FetchAdd(t));
    assert s2.writers[t := Reserved(0, s.rwA.cursor, m)] == s.writers[t := Reserved(0, s.rwA.cursor, m)];
    actions := actions + [FetchAdd(t)];
  }

  /** The thread goes on from its reservation in region A to its commit. */
  lemma CommitsAlone(s: State, t: nat) returns (actions: seq<Action>)
    requires t < |s.writers| && s.writers[t].Reserved? && s.writers[t].side == 0
    ensures forall i :: 0 <= i < |actions| ==> ByWriter(actions[i])
    ensures
      var w := s.writers[t];
      Run(s, actions) == Some(s.(
        rwA := CommitCounted(PayloadCopied(HeaderStored(s.rwA, w.slot, w.message), w.slot, w.message), w.slot),
        writers := s.writers[t := Committed(0, w.slot, w.message)]))
  {
    var w := s.writers[t];
    var s1 := s.(rwA := HeaderStored(s.rwA, w.slot, w.message),
                 writers := s.writers[t := HeaderWritten(0, w.slot, w.message)]);
    RunSnoc(s, [], s, StoreHeader(t));
    actions := [StoreHeader(t)];
    assert [] + [StoreHeader(t)] == actions;
    assert Run(s, actions) == Some(s1);
    var s2 := s1.(rwA := PayloadCopied(s1.rwA, w.slot, w.message),
                  writers := s.writers[t := Filled(0, w.slot, w.message)]);
    RunSnoc(s, actions, s1, CopyPayload(t));
    assert s1.writers[t := Filled(0, w.slot, w.message)] == s2.writers;
    actions := actions + [CopyPayload(t)];
    RunSnoc(s, actions, s2, Commit(t));
    assert s2.writers[t := Committed(0, w.slot, w.message)] == s.writers[t := Committed(0, w.slot, w.message)];
    actions := actions + [Commit(t)];
  }

  /** With two writers the prefix claim fails: a reader is let through to slot 0 while it is still blank. */
  lemma OverlappingWritersExposeBlankSlot(s0: State, m: Message) returns (actions: seq<Action>, s: State)
    requires Initial(s0) && s0.maxSlots >= 2 && |s0.writers| >= 2
    ensures Reached(s0, actions, s) && s.drainers == s0.drainers && WritersOnly(actions)
    ensures 0 < s.rwA.committedEntries && 0 !in s.rwA.filled
    ensures EntryAt(s.rwA.entries, 0) == EntryAt(s0.rwA.entries, 0)
    ensures 0 in s.rwA.claims && s.rwA.claims[0].message == Kept(m)
  {
    var first := ReservesAlone(s0, 0, m);
    var s1 := Run(s0, first).value;
    var second := ReservesAlone(s1, 1, m);
    var s2 := Run(s1, second).value;
    var third := CommitsAlone(s2, 1);
    s := Run(s2, third).value;
    actions := first + second + third;
    RunConcat(s0, first, second);
    RunConcat(s0, first + second, third);
  }

  // ----- When readers are safe -----

  lemma WriterKeepsSizes(s: State, a: Action)
    requires ByWriter(a) && Enabled(s, a)
    ensures var s' := AfterWriter(s, a);
      |s'.writers| == |s.writers| && s'.drainers == s.drainers && s'.maxSlots == s.maxSlots
  {
  }

  lemma DrainerKeepsSizes(s: State, a: Action)
    requires !ByWriter(a) && Enabled(s, a)
    ensures var s' := AfterDrainer(s, a);
      s'.writers == s.writers && |s'.drainers| == |s.drainers| && s'.maxSlots == s.maxSlots
  {
  }

  lemma SizesStay(s: State, a: Action)
    requires Enabled(s, a)
    ensures var s' := After(s, a);
      |s'.writers| == |s.writers| && |s'.drainers| == |s.drainers| && s'.maxSlots == s.maxSlots
  {
    if ByWriter(a) {
      WriterKeepsSizes(s, a);
    } else {
      DrainerKeepsSizes(s, a);
    }
  }

  lemma {:induction false} RunSizesStay(s: State, actions: seq<Action>, e: State)
    requires Run(s, actions) == Some(e)
    ensures |e.writers| == |s.writers| && |e.drainers| == |s.drainers| && e.maxSlots == s.maxSlots
    decreases |actions|
  {
    if actions != [] {
      SizesStay(s, actions[0]);
      RunSizesStay(After(s, actions[0]), actions[1..], e);
    }
  }

  lemma {:induction false} LoneWriterNeverOverlaps(s: State, actions: seq<Action>)
    requires Run(s, actions).Some? && |s.writers| <= 1
    ensures OneWriterAtATime(s, actions)
    decreases |actions|
  {
    TallyAtMost(s.writers, Holding, 0);
    TallyAtMost(s.writers, Holding, 1);
    if actions != [] {
      SizesStay(s, actions[0]);
      LoneWriterNeverOverlaps(After(s, actions[0]), actions[1..]);
    }
  }

  /** With one slot, a commit can only be that slot's. */
  lemma OneSlotIsCommitted(r: Region, b: Side, ws: seq<Writer>, maxSlots: nat, i: nat)
    requires CountersFit(r, b, ws, maxSlots) && SlotsFit(r, maxSlots) && maxSlots <= 1 && i < r.committedEntries
    ensures i in r.filled
  {
    SubsetIsSmaller(r.committed, r.claims.Keys);
    if i !in r.committed {
      SubsetIsSmaller(r.committed, r.claims.Keys - {i});
    }
  }

  /** Some run lets a reader of side `b` through to index `i` in state `s`. */
  ghost predicate LetsThrough(s0: State, actions: seq<Action>, s: State, b: Side, i: nat) {
    Reached(s0, actions, s) && i < s.At(b).committedEntries
  }

  lemma FewMakeReadersSafe(s0: State, actions: seq<Action>, s: State, b: Side, i: nat)
    requires LetsThrough(s0, actions, s, b, i) && (|s0.writers| <= 1 || s0.maxSlots <= 1)
    ensures i in s.At(b).filled && ReadsAsWritten(s.At(b), i)
  {
    ReachedSideFits(s0, actions, s, b);
    if |s0.writers| <= 1 {
      LoneWriterNeverOverlaps(s0, actions);
      SerialReadersAreSafe(s0, actions, s, b, i);
    } else {
      RunSizesStay(s0, actions, s);
      OneSlotIsCommitted(s.At(b), b, s.writers, s.maxSlots, i);
      FilledReadsAsWritten(s.At(b), i);
    }
  }

  /** A message that is kept as something else than `m`. */
  function Different(m: Message): (other: Message)
    ensures Kept(other) != m
  {
    Message(if m.room == 0 then 1 else 0, [])
  }

  lemma FewMeansEveryReaderIsSafe(s0: State)
    requires Initial(s0) && (|s0.writers| <= 1 || s0.maxSlots <= 1)
    ensures forall actions, s, b, i :: LetsThrough(s0, actions, s, b, i) ==>
      i in s.At(b).filled && ReadsAsWritten(s.At(b), i)
  {
    forall actions, s, b, i | LetsThrough(s0, actions, s, b, i)
      ensures i in s.At(b).filled && ReadsAsWritten(s.At(b), i)
    {
      FewMakeReadersSafe(s0, actions, s, b, i);
    }
  }

  /** In every run every index a reader is let through to is fully written, and in every run it reads as the
      message accepted for it: both exactly when there is at most one writer or at most one slot. */
  lemma ReadersAreSafeExactlyWhen(s0: State)
    requires Initial(s0)
    ensures (forall actions, s, b, i :: LetsThrough(s0, actions, s, b, i) ==> i in s.At(b).filled)
       <==> |s0.writers| <= 1 || s0.maxSlots <= 1
    ensures (forall actions, s, b, i :: LetsThrough(s0, actions, s, b, i) ==> ReadsAsWritten(s.At(b), i))
       <==> |s0.writers| <= 1 || s0.maxSlots <= 1
  {
    if |s0.writers| <= 1 || s0.maxSlots <= 1 {
      FewMeansEveryReaderIsSafe(s0);
    } else {
      var actions, s := OverlappingWritersExposeBlankSlot(s0, Different(Read(EntryAt(s0.rwA.entries, 0))));
      assert LetsThrough(s0, actions, s, 0, 0);
      assert 0 !in s.At(0).filled && !ReadsAsWritten(s.At(0), 0);
    }
  }
}
