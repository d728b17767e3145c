/** Which databases never give one slot to two threads, and never show a reader something else than what was accepted
    for its index, in any run of the code: the runs that do, and the exact conditions. */
module LockerSharing {
  import opened Base
  import opened Entry
  import opened LockerWriter
  import opened LockerInvariant
  import opened LockerTheorems
  import opened LockerSolo
  import opened LockerLoss
  import opened LockerFate

  // ----- A reservation that outlives the reset -----

  lemma FreshStaysReset(r: LockerWriter.Region, maxSlots: nat, t: nat, m: Message)
    requires FreshRegion(r, maxSlots)
    ensures Reset(Claimed(Entered(r), t, m)) == r
  {
  }

  /** Thread 0 has reserved slot 0 of region A after the cursor read. */
  lemma SlotReservedLate(s0: State, m: Message) returns (actions: seq<Action>, s: State)
    requires Initial(s0) && Threads(s0) && 0 < s0.maxSlots
    ensures CodeRun(s0, actions, s) && s.rwA == Claimed(Entered(s0.rwA), 0, m) && s.rwB == s0.rwB
    ensures s.writers == s0.writers[0 := Reserved(0, 0, m)] && s.drainers == s0.drainers[0 := GotTotal(0, 0, 0)]
    ensures s.regionBit == 1 && s.maxSlots == s0.maxSlots && s.totalEntries == 0
  {
    var first, loaded := StaleLoaded(s0, m);
    StaleReserve(loaded, m);
    s := StaleReserved(loaded, m);
    CodeRunGoesOn(s0, first, loaded, LateTicket(), s);
    actions := first + LateTicket();
    assert loaded.writers[0 := Reserved(0, 0, m)] == s0.writers[0 := Reserved(0, 0, m)];
    assert loaded.drainers == s0.drainers[0 := GotTotal(0, 0, 0)];
  }

  /** And then the drain goes through its reset. */
  lemma SlotOutlivesReset(s0: State, m: Message) returns (actions: seq<Action>, s: State)
    requires Initial(s0) && Threads(s0) && 0 < s0.maxSlots
    ensures CodeRun(s0, actions, s)
    ensures s.writers == s0.writers[0 := Reserved(0, 0, m)] && s.drainers == s0.drainers && s.maxSlots == s0.maxSlots
    ensures s.regionBit == 1 && s.rwA == s0.rwA && s.rwB == s0.rwB
  {
    var first, reserved := SlotReservedLate(s0, m);
    s := CountedAndCleared(reserved, 0, 0, 0);
    CountsAndClears(reserved, 0);
    CodeRunGoesOn(s0, first, reserved, CountAndClear(), s);
    actions := first + CountAndClear();
    FreshStaysReset(s0.rwA, s0.maxSlots, 0, m);
    ClearedRests(s0, reserved, 0, GotTotal(0, 0, 0));
  }

  lemma DrainIsAtCodeGrain(actions: seq<Action>, d: nat)
    requires StepsOfDrainer(actions, d)
    ensures AtCodeGrain(actions)
  {
  }

  /** A drain of the untouched region B makes region A active again. */
  lemma FlipsBack(s0: State, before: seq<Action>, s: State) returns (actions: seq<Action>, e: State)
    requires CodeRun(s0, before, s) && s.drainers != [] && s.drainers[0].Resting?
    requires s.regionBit == 1 && s.rwB.activeWriters == 0
    ensures CodeRun(s0, actions, e) && e.regionBit == 0 && e.rwA == s.rwA
    ensures e.writers == s.writers && e.drainers == s.drainers && e.maxSlots == s.maxSlots
  {
    var drain := DrainAlone(s, 0);
    DrainIsAtCodeGrain(drain, 0);
    e := Run(s, drain).value;
    CodeRunGoesOn(s0, before, s, drain, e);
    actions := before + drain;
  }

  // ----- One slot, two threads -----

  /** The slot that outlived the reset is handed out again. */
  lemma StaleSlotIsShared(s0: State, m: Message, m': Message) returns (actions: seq<Action>, s: State)
    requires Initial(s0) && Threads(s0) && |s0.writers| >= 2 && 0 < s0.maxSlots
    ensures CodeRun(s0, actions, s) && s.drainers == s0.drainers
    ensures s.writers == s0.writers[0 := Reserved(0, 0, m)][1 := Reserved(0, 0, m')]
      && SameSlot(s.writers[0], s.writers[1])
  {
    var first, reset := SlotOutlivesReset(s0, m);
    var second, back := FlipsBack(s0, first, reset);
    s := TakesSlot(back, 1, m');
    CodeRunGoesOn(s0, second, back, ReserveSchedule(1, m'), s);
    actions := second + ReserveSchedule(1, m');
  }

  /** Nobody has a slot. */
  predicate NoneHasSlot(ws: seq<Writer>) {
    forall t :: 0 <= t < |ws| ==> !HasSlot(ws[t])
  }

  /** Nothing is committed on either side. */
  predicate NoneCommitted(s: State) {
    s.rwA.committedEntries == s.rwB.committedEntries == 0
  }

  lemma WriterGetsNoSlot(r: LockerWriter.Region, t: nat, w: Writer)
    requires !w.Idle? && !HasSlot(w)
    ensures !HasSlot(WriterAfter(r, 0, w)) && RegionAfter(r, 0, t, w).committedEntries == r.committedEntries
  {
  }

  lemma WriterWithoutSlots(s: State, a: Action)
    requires s.maxSlots == 0 && NoneHasSlot(s.writers) && NoneCommitted(s) && ByWriter(a) && Enabled(s, a)
    ensures NoneHasSlot(AfterWriter(s, a).writers) && NoneCommitted(AfterWriter(s, a))
  {
    if !a.LookUp? {
      var w := s.writers[a.t];
      WriterSteps(s, a);
      WriterGetsNoSlot(s.At(w.side), a.t, w);
    }
  }

  lemma DrainerCommitsNothing(s: State, a: Action)
    requires NoneCommitted(s) && !ByWriter(a) && Enabled(s, a)
    ensures NoneCommitted(AfterDrainer(s, a)) && AfterDrainer(s, a).writers == s.writers
  {
  }

  lemma WithoutSlotsStays(s: State, a: Action)
    requires s.maxSlots == 0 && NoneHasSlot(s.writers) && NoneCommitted(s) && Enabled(s, a)
    ensures NoneHasSlot(After(s, a).writers) && NoneCommitted(After(s, a))
  {
    if ByWriter(a) {
      WriterWithoutSlots(s, a);
    } else {
      DrainerCommitsNothing(s, a);
    }
  }

  lemma {:induction false} WithoutSlotsRun(s: State, actions: seq<Action>, e: State)
    requires s.maxSlots == 0 && NoneHasSlot(s.writers) && Run(s, actions) == Some(e)
    requires NoneCommitted(s)
    ensures NoneHasSlot(e.writers) && NoneCommitted(e)
    decreases |actions|
  {
    if actions != [] {
      SizesStay(s, actions[0]);
      WithoutSlotsStays(s, actions[0]);
      WithoutSlotsRun(After(s, actions[0]), actions[1..], e);
    }
  }

  /** In some run of the code two threads hold one slot. */
  ghost predicate Shares(s0: State, actions: seq<Action>, s: State, t: nat, u: nat) {
    CodeRun(s0, actions, s) && t < u < |s.writers| && SameSlot(s.writers[t], s.writers[u])
  }

  lemma FewShareNothing(s0: State, actions: seq<Action>, s: State, t: nat, u: nat)
    requires CodeRun(s0, actions, s) && t < u < |s.writers|
    requires |s0.writers| <= 1 || |s0.drainers| == 0 || s0.maxSlots == 0
    ensures !SameSlot(s.writers[t], s.writers[u])
  {
    RunSizesStay(s0, actions, s);
    if s0.maxSlots == 0 {
      WithoutSlotsRun(s0, actions, s);
    } else {
      OnlyWritersRun(s0, actions);
      SlotsAreExclusive(s0, actions, s, 0);
    }
  }

  /** No two threads ever hold the same slot, in any run of the code, exactly when there is at most one writer, no
      drainer or no slot. */
  lemma SlotsAreExclusiveExactlyWhen(s0: State)
    requires Initial(s0)
    ensures (forall actions, s, t: nat, u: nat :: !Shares(s0, actions, s, t, u))
       <==> |s0.writers| <= 1 || |s0.drainers| == 0 || s0.maxSlots == 0
  {
    if |s0.writers| <= 1 || |s0.drainers| == 0 || s0.maxSlots == 0 {
      forall actions, s, t: nat, u: nat ensures !Shares(s0, actions, s, t, u) {
        if CodeRun(s0, actions, s) && t < u < |s.writers| {
          FewShareNothing(s0, actions, s, t, u);
        }
      }
    } else {
      var actions, s := StaleSlotIsShared(s0, Message(0, []), Message(0, []));
      assert Shares(s0, actions, s, 0, 1);
    }
  }

  // ----- A commit that outlives the reset -----

  /** Region A after a write whose reservation outlived the reset. */
  function LateFilled(r: LockerWriter.Region, m: Message): LockerWriter.Region {
    Left(CommitCounted(PayloadCopied(HeaderStored(r, 0, m), 0, m), 0))
  }

  lemma LateFilledReads(r: LockerWriter.Region, maxSlots: nat, m: Message)
    requires FreshRegion(r, maxSlots) && 0 < maxSlots
    ensures var f := LateFilled(r, m);
      && f.cursor == 0 && f.committedEntries == 1 && Read(EntryAt(f.entries, 0)) == Kept(m)
  {
    FilledEntryReads(r.entries[0], m);
  }

  lemma CommitOutlivesReset(s0: State, m: Message) returns (actions: seq<Action>, s: State)
    requires Initial(s0) && Threads(s0) && 0 < s0.maxSlots
    ensures CodeRun(s0, actions, s) && s.writers == s0.writers && s.drainers == s0.drainers && s.maxSlots == s0.maxSlots
    ensures s.regionBit == 1 && s.rwA == LateFilled(s0.rwA, m) && s.rwB == s0.rwB
  {
    var first, reset := SlotOutlivesReset(s0, m);
    FinishAlone(reset, 0, 0, 0, m);
    s := Run(reset, LateFinish()).value;
    CodeRunGoesOn(s0, first, reset, LateFinish(), s);
    actions := first + LateFinish();
    assert reset.writers[0 := Idle] == s0.writers;
  }

  lemma ClaimsFirst(s: State, m: Message) returns (e: State)
    requires s.writers != [] && s.writers[0].Idle? && s.regionBit == 0 && s.rwA.cursor == 0 < s.maxSlots
    ensures Run(s, ReserveSchedule(0, m)) == Some(e) && e.rwA == Claimed(Entered(s.rwA), 0, m)
    ensures e.regionBit == 0 && e.drainers == s.drainers
  {
    ReserveAlone(s, 0, m);
    e := Run(s, ReserveSchedule(0, m)).value;
  }

  /** One writer is enough: its stale commit lets readers of the region, once it is active again, through to slot 0,
      where they read the old message although the slot belongs to a new one. */
  lemma StaleCommitShowsOldMessage(s0: State, m: Message, m': Message) returns (actions: seq<Action>, s: State)
    requires Initial(s0) && Threads(s0) && 0 < s0.maxSlots
    ensures CodeRun(s0, actions, s) && s.regionBit == 0 && s.drainers == s0.drainers
    ensures s.rwA.committedEntries == 1 && 0 in s.rwA.claims && s.rwA.claims[0].message == Kept(m')
    ensures Read(EntryAt(s.rwA.entries, 0)) == Kept(m)
  {
    var first, late := CommitOutlivesReset(s0, m);
    var second, back := FlipsBack(s0, first, late);
    LateFilledReads(s0.rwA, s0.maxSlots, m);
    s := ClaimsFirst(back, m');
    CodeRunGoesOn(s0, second, back, ReserveSchedule(0, m'), s);
    actions := second + ReserveSchedule(0, m');
  }

  // ----- When readers get what was accepted -----

  /** Some run of the code lets a reader of side `b` through to index `i`. */
  ghost predicate ReaderGetsTo(s0: State, actions: seq<Action>, s: State, b: Side, i: nat) {
    CodeRun(s0, actions, s) && i < s.At(b).committedEntries
  }

  /** And does so in the active region, with every drain at rest. */
  ghost predicate ReaderGetsToAtRest(s0: State, actions: seq<Action>, s: State, i: nat) {
    ReaderGetsTo(s0, actions, s, s.regionBit, i) && s.drainers == s0.drainers
  }

  lemma {:induction false} NoCommitsRun(s: State, actions: seq<Action>, e: State)
    requires |s.writers| == 0 && NoneCommitted(s) && Run(s, actions) == Some(e)
    ensures NoneCommitted(e)
    decreases |actions|
  {
    if actions != [] {
      DrainerCommitsNothing(s, actions[0]);
      NoCommitsRun(After(s, actions[0]), actions[1..], e);
    }
  }

  lemma NobodyCommits(s0: State, actions: seq<Action>, s: State, b: Side)
    requires CodeRun(s0, actions, s) && (|s0.writers| == 0 || s0.maxSlots == 0)
    ensures s.At(b).committedEntries == 0
  {
    if s0.maxSlots == 0 {
      WithoutSlotsRun(s0, actions, s);
    } else {
      NoCommitsRun(s0, actions, s);
    }
  }

  /** The databases whose readers always get what was accepted. */
  predicate ReadersSafe(s0: State) {
    || |s0.writers| == 0 || s0.maxSlots == 0
    || (|s0.drainers| == 0 && (|s0.writers| <= 1 || s0.maxSlots <= 1))
  }

  lemma SafeReads(s0: State, actions: seq<Action>, s: State, b: Side, i: nat)
    requires ReaderGetsTo(s0, actions, s, b, i) && ReadersSafe(s0)
    ensures ReadsAsWritten(s.At(b), i)
  {
    if |s0.writers| == 0 || s0.maxSlots == 0 {
      NobodyCommits(s0, actions, s, b);
    } else {
      OnlyWritersRun(s0, actions);
      FewMakeReadersSafe(s0, actions, s, b, i);
    }
  }

  lemma WritersAreAtCodeGrain(actions: seq<Action>)
    requires WritersOnly(actions)
    ensures AtCodeGrain(actions)
  {
    forall i | 0 <= i < |actions| ensures !actions[i].DrainTail? {
      assert ByWriter(actions[i]);
    }
  }

  lemma {:induction false} WritersKeepBit(s: State, actions: seq<Action>, e: State)
    requires WritersOnly(actions) && Run(s, actions) == Some(e)
    ensures e.regionBit == s.regionBit
    decreases |actions|
  {
    if actions != [] {
      WriterKeepsRest(s, actions[0]);
      WritersKeepBit(After(s, actions[0]), actions[1..], e);
    }
  }

  /** Otherwise a run shows a reader of the active region something else, while every drain rests. */
  lemma UnsafeReads(s0: State) returns (actions: seq<Action>, s: State)
    requires Initial(s0) && !ReadersSafe(s0)
    ensures ReaderGetsToAtRest(s0, actions, s, 0) && !ReadsAsWritten(s.At(s.regionBit), 0)
  {
    if |s0.drainers| == 0 {
      actions, s := OverlappingWritersExposeBlankSlot(s0, Different(Read(EntryAt(s0.rwA.entries, 0))));
      WritersAreAtCodeGrain(actions);
      WritersKeepBit(s0, actions, s);
    } else {
      var m := Message(0, []);
      actions, s := StaleCommitShowsOldMessage(s0, m, Different(Kept(m)));
    }
  }

  /** Every index that any reader is let through to, in any run of the code and at any moment, reads as the message
      accepted for it, exactly when there are no writers, no slots, or no drainers and at most one writer or slot;
      and the same for readers of the active region while every drain is at rest. */
  lemma ReadersGetAcceptedExactlyWhen(s0: State)
    requires Initial(s0)
    ensures (forall actions, s, b, i :: ReaderGetsTo(s0, actions, s, b, i) ==> ReadsAsWritten(s.At(b), i))
      <==> ReadersSafe(s0)
    ensures (forall actions, s, i :: ReaderGetsToAtRest(s0, actions, s, i) ==> ReadsAsWritten(s.At(s.regionBit), i))
       <==> ReadersSafe(s0)
  {
    if ReadersSafe(s0) {
      forall actions, s, b, i | ReaderGetsTo(s0, actions, s, b, i) ensures ReadsAsWritten(s.At(b), i) {
        SafeReads(s0, actions, s, b, i);
      }
    } else {
      var actions, s := UnsafeReads(s0);
      assert ReaderGetsTo(s0, actions, s, s.regionBit, 0);
    }
  }
}
