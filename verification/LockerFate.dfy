/** Which databases keep every accepted message in every run of the code, with nothing assumed about when the
    steps of a drain and of stale writers happen. */
module LockerFate {
  import opened Base
  import opened Entry
  import opened LockerWriter
  import opened LockerInvariant
  import opened LockerTheorems
  import opened LockerWindow
  import opened LockerSolo
  import opened LockerLoss

  /** A run of the code that ends with no drain in its tail. */
  ghost predicate RestRun(s0: State, actions: seq<Action>, s: State) {
    CodeRun(s0, actions, s) && NoTail(s.drainers)
  }

  // ----- No drainers -----

  lemma AtomicTailsCons(actions: seq<Action>)
    requires actions != [] && AtomicTail(actions[0]) && AtomicTails(actions[1..])
    ensures AtomicTails(actions)
  {
    forall i | 0 <= i < |actions| ensures AtomicTail(actions[i]) {
      if i > 0 {
        assert actions[i] == actions[1..][i - 1];
      }
    }
  }

  lemma {:induction false} OnlyWritersRun(s: State, actions: seq<Action>)
    requires |s.drainers| == 0 && Run(s, actions).Some?
    ensures AtomicTails(actions)
    decreases |actions|
  {
    if actions != [] {
      SizesStay(s, actions[0]);
      OnlyWritersRun(After(s, actions[0]), actions[1..]);
      AtomicTailsCons(actions);
    }
  }

  lemma NoDrainersConserve(s0: State, actions: seq<Action>, s: State)
    requires CodeRun(s0, actions, s) && |s0.drainers| == 0
    ensures MessagesConserved(s)
  {
    OnlyWritersRun(s0, actions);
    NothingLost(s0, actions, s);
  }

  // ----- No writers -----

  /** Nothing was ever written. */
  predicate Unwritten(s: State) {
    && |s.writers| == 0 && s.rwA.cursor == s.rwB.cursor == 0
    && s.acceptedEver == s.rwA.accepted == s.rwB.accepted == multiset{}
  }

  predicate CountsNothing(p: Drainer) {
    p.GotCursor? || p.GotTotal? ==> p.count == 0
  }

  /** Nor has any drain counted anything. */
  predicate Deserted(s: State) {
    && Unwritten(s) && DrainedMessages(s.drains) == multiset{}
    && forall d :: 0 <= d < |s.drainers| ==> CountsNothing(s.drainers[d])
  }

  lemma UnwrittenStays(s: State, a: Action)
    requires Unwritten(s) && Enabled(s, a) && !a.DrainTail?
    ensures !ByWriter(a) && Unwritten(After(s, a))
  {
    if !a.ClearCursor? && !a.ClearWriters? && !a.ClearCommitted? {
      DrainerLeavesRegions(s, a);
    }
  }

  lemma CountsNothingStays(s: State, a: Action)
    requires Deserted(s) && Enabled(s, a) && !a.DrainTail? && !ByWriter(a)
    ensures var p' := After(s, a).drainers; |p'| == |s.drainers| && CountsNothing(p'[a.d])
    ensures forall d :: 0 <= d < |s.drainers| && d != a.d ==> After(s, a).drainers[d] == s.drainers[d]
  {
    assert CountsNothing(s.drainers[a.d]);
  }

  lemma FindsNothing(s: State, a: Action)
    requires Deserted(s) && Enabled(s, a) && !a.DrainTail? && !ByWriter(a)
    ensures DrainedMessages(After(s, a).drains) == multiset{}
  {
    assert CountsNothing(s.drainers[a.d]);
    if a.StoreTotal? {
      OneMoreDrain(s.drains, DrainResult(s.At(s.drainers[a.d].side).entries, 0));
    }
  }

  lemma DesertedStays(s: State, a: Action)
    requires Deserted(s) && Enabled(s, a) && !a.DrainTail?
    ensures Deserted(After(s, a))
  {
    UnwrittenStays(s, a);
    CountsNothingStays(s, a);
    FindsNothing(s, a);
  }

  lemma {:induction false} DesertedRun(s: State, actions: seq<Action>, e: State)
    requires Deserted(s) && AtCodeGrain(actions) && Run(s, actions) == Some(e)
    ensures Deserted(e)
    decreases |actions|
  {
    if actions != [] {
      assert !actions[0].DrainTail?;
      DesertedStays(s, actions[0]);
      DesertedRun(After(s, actions[0]), actions[1..], e);
    }
  }

  // ----- No slots -----

  lemma NothingAcceptedStays(s: State, a: Action)
    requires s.maxSlots == 0 && s.acceptedEver == multiset{} && Enabled(s, a)
    ensures After(s, a).acceptedEver == multiset{}
  {
    if ByWriter(a) && !a.FetchAdd? {
      OtherStepsKeepAccounts(s, a);
    }
  }

  lemma {:induction false} NothingAcceptedRun(s: State, actions: seq<Action>, e: State)
    requires s.maxSlots == 0 && s.acceptedEver == multiset{} && Run(s, actions) == Some(e)
    ensures e.acceptedEver == multiset{}
    decreases |actions|
  {
    if actions != [] {
      SizesStay(s, actions[0]);
      NothingAcceptedStays(s, actions[0]);
      NothingAcceptedRun(After(s, actions[0]), actions[1..], e);
    }
  }

  // ----- An entry that nobody wrote -----

  lemma WriteIsAtCodeGrain(t: nat, m: Message)
    ensures AtCodeGrain(WriteSchedule(t, m))
  {
  }

  /** Thread 0 writes `k` times into region A, with nobody else around. */
  lemma {:induction false} FillsUp(s0: State, k: nat, m: Message) returns (actions: seq<Action>, s: State)
    requires Initial(s0) && Threads(s0) && k <= s0.maxSlots
    ensures CodeRun(s0, actions, s) && s == s0.(rwA := s.rwA, acceptedEver := s.acceptedEver)
    ensures s.rwA.cursor == k && s.rwA.activeWriters == 0 && |s.rwA.entries| == s0.maxSlots && |s.acceptedEver| == k
    decreases k
  {
    if k == 0 {
      actions, s := [], s0;
    } else {
      var before, full := FillsUp(s0, k - 1, m);
      WriteAlone(full, 0, m);
      s := Run(full, WriteSchedule(0, m)).value;
      WriteIsAtCodeGrain(0, m);
      CodeRunGoesOn(s0, before, full, WriteSchedule(0, m), s);
      actions := before + WriteSchedule(0, m);
      assert CellsOf(s.At(0)) == Engine.Appended(CellsOf(full.At(0)), s0.maxSlots, m);
    }
  }

  lemma PhantomFound(drains: seq<DrainResult>, entries: seq<MessageEntry>, n: nat)
    requires drains == [DrainResult(entries, n)]
    ensures |DrainedMessages(drains)| == n
  {
    OneMoreDrain([], DrainResult(entries, n));
    assert drains == [] + [DrainResult(entries, n)];
    Engine.StoredLength(entries, n);
  }

  lemma ClearedRests(s0: State, loaded: State, n: nat, p: Drainer)
    requires Initial(s0) && Threads(s0) && loaded.drainers == s0.drainers[0 := p]
    ensures CountedAndCleared(loaded, 0, 0, n).drainers == s0.drainers && NoTail(s0.drainers)
  {
    assert s0.drainers[0 := p][0 := Resting] == s0.drainers;
  }

  /** The only drain so far hands over one entry more than the region has. */
  predicate PhantomDrained(s: State) {
    && s.totalEntries == s.maxSlots + 1 && |DrainedMessages(s.drains)| == s.maxSlots + 1
    && |s.drains| == 1 && s.drains[0].entriesWritten == |s.drains[0].entries| + 1
  }

  lemma PhantomBooks(loaded: State)
    requires loaded.drainers != [] && loaded.totalEntries == 0 && loaded.drains == []
    requires |loaded.rwA.entries| == loaded.maxSlots
    ensures PhantomDrained(CountedAndCleared(loaded, 0, 0, loaded.maxSlots + 1))
  {
    PhantomFound(CountedAndCleared(loaded, 0, 0, loaded.maxSlots + 1).drains, loaded.rwA.entries, loaded.maxSlots + 1);
  }

  lemma PhantomCounted(s0: State, before: seq<Action>, loaded: State) returns (actions: seq<Action>, s: State)
    requires CodeRun(s0, before, loaded) && Threads(s0)
    requires loaded.drainers == s0.drainers[0 := GotTotal(0, loaded.maxSlots + 1, 0)]
    requires loaded.totalEntries == 0 && loaded.drains == [] && |loaded.rwA.entries| == loaded.maxSlots
    ensures RestRun(s0, actions, s) && s.acceptedEver == loaded.acceptedEver && s.maxSlots == loaded.maxSlots
      && PhantomDrained(s)
  {
    var n := loaded.maxSlots + 1;
    s := CountedAndCleared(loaded, 0, 0, n);
    CountsAndClears(loaded, n);
    CodeRunGoesOn(s0, before, loaded, CountAndClear(), s);
    actions := before + CountAndClear();
    ClearedRests(s0, loaded, n, GotTotal(0, n, 0));
    PhantomBooks(loaded);
  }

  lemma PhantomLoaded(s0: State, before: seq<Action>, over: State) returns (actions: seq<Action>, s: State)
    requires CodeRun(s0, before, over) && Threads(s0) && over.drainers == s0.drainers[0 := SawZero(0)]
    ensures CodeRun(s0, actions, s) && s == over.WithDrainer(0, GotTotal(0, over.rwA.cursor, over.totalEntries))
  {
    var load := [ReadCursor(0)] + [LoadTotal(0)];
    s := over.WithDrainer(0, GotTotal(0, over.rwA.cursor, over.totalEntries));
    ReadsAndLoads(over);
    OneStep(over, ReadCursor(0), After(over, ReadCursor(0)));
    RunConcat(over, [ReadCursor(0)], [LoadTotal(0)]);
    CodeRunGoesOn(s0, before, over, load, s);
    actions := before + load;
  }

  /** From a full region: thread 0 looks it up, the drain flips and sees zero, thread 0 overflows. */
  lemma PhantomReserved(s0: State, first: seq<Action>, full: State, m: Message)
    returns (actions: seq<Action>, over: State)
    requires CodeRun(s0, first, full) && Threads(full) && full.writers[0].Idle? && full.drainers[0].Resting?
    requires full.regionBit == 0 && full.rwA.cursor == full.maxSlots && full.rwA.activeWriters == 0
    ensures CodeRun(s0, actions, over) && over == StaleOverflowed(Stale(full, m).WithDrainer(0, SawZero(0)))
  {
    var stale := Stale(full, m);
    var seen := stale.WithDrainer(0, SawZero(0));
    GoesStale(full, m);
    CodeRunGoesOn(s0, first, full, StaleSchedule(m), stale);
    SeesZero(stale, 0, 0);
    OneStep(stale, SeeZero(0), seen);
    CodeRunGoesOn(s0, first + StaleSchedule(m), stale, [SeeZero(0)], seen);
    StaleOverflow(seen, m);
    over := StaleOverflowed(seen);
    CodeRunGoesOn(s0, first + StaleSchedule(m) + [SeeZero(0)], seen, LateTicket(), over);
    actions := first + StaleSchedule(m) + [SeeZero(0)] + LateTicket();
  }

  lemma OverflowedFull(full: State, m: Message)
    requires Threads(full) && full.rwA.cursor == full.maxSlots < TWO_31
    ensures var over := StaleOverflowed(Stale(full, m).WithDrainer(0, SawZero(0)));
      && over.rwA.cursor == full.maxSlots + 1 && over.rwA.entries == full.rwA.entries && over.maxSlots == full.maxSlots
      && over.drainers == full.drainers[0 := SawZero(0)] && over.acceptedEver == full.acceptedEver
      && over.totalEntries == full.totalEntries && over.drains == full.drains
  {
    assert full.drainers[0 := Spinning(0)][0 := SawZero(0)] == full.drainers[0 := SawZero(0)];
  }

  /** A full region of any size: a fetch-add not yet rolled back is counted by the drain as an entry, so that the drain
      reports one message more than the region has slots, which nobody wrote. */
  lemma PhantomIsDrained(s0: State, m: Message) returns (actions: seq<Action>, s: State)
    requires Initial(s0) && Threads(s0)
    ensures RestRun(s0, actions, s) && |s.acceptedEver| == s.maxSlots == s0.maxSlots && PhantomDrained(s)
    ensures !MessagesConserved(s)
  {
    var before, full := FillsUp(s0, s0.maxSlots, m);
    var first, over := PhantomReserved(s0, before, full, m);
    OverflowedFull(full, m);
    var second, loaded := PhantomLoaded(s0, first, over);
    var p := GotTotal(0, s0.maxSlots + 1, 0);
    assert loaded.drainers == s0.drainers[0 := SawZero(0)][0 := p] == s0.drainers[0 := p];
    actions, s := PhantomCounted(s0, second, loaded);
  }

  // ----- The exact conditions -----

  lemma FewConserve(s0: State, actions: seq<Action>, s: State)
    requires CodeRun(s0, actions, s) && (|s0.writers| == 0 || |s0.drainers| == 0)
    ensures MessagesConserved(s)
  {
    if |s0.drainers| == 0 {
      NoDrainersConserve(s0, actions, s);
    } else {
      DesertedRun(s0, actions, s);
    }
  }

  /** Every run of the code that ends outside all tails keeps every accepted message, exactly when there are no
      writers, no drainers or no slots. */
  lemma NoneGoesMissingExactlyWhen(s0: State)
    requires Initial(s0)
    ensures (forall actions, s :: RestRun(s0, actions, s) ==> NoneMissing(s))
       <==> |s0.writers| == 0 || |s0.drainers| == 0 || s0.maxSlots == 0
  {
    if |s0.writers| == 0 || |s0.drainers| == 0 || s0.maxSlots == 0 {
      forall actions, s | RestRun(s0, actions, s) ensures NoneMissing(s) {
        if s0.maxSlots == 0 {
          NothingAcceptedRun(s0, actions, s);
        } else {
          FewConserve(s0, actions, s);
        }
      }
    } else {
      var actions, s := StaleWriterIsLost(s0, Message(0, []));
      assert RestRun(s0, actions, s);
    }
  }

  /** And keeps exactly the accepted messages, none missing and none made up, exactly when there are no writers
      or no drainers: otherwise a message can be made up. */
  lemma MessagesAreConservedExactlyWhen(s0: State)
    requires Initial(s0)
    ensures (forall actions, s :: RestRun(s0, actions, s) ==> MessagesConserved(s))
       <==> |s0.writers| == 0 || |s0.drainers| == 0
  {
    if |s0.writers| == 0 || |s0.drainers| == 0 {
      forall actions, s | RestRun(s0, actions, s) ensures MessagesConserved(s) {
        FewConserve(s0, actions, s);
      }
    } else {
      var actions, s := PhantomIsDrained(s0, Message(0, []));
      assert RestRun(s0, actions, s) && !MessagesConserved(s);
    }
  }
}
