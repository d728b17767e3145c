/** What a roll-back does that comes after the reset: both counters of the region end below zero, and the region
    refuses writes that come one by one and shares its slots between those that overlap. */
module LockerWrap {
  import opened Base
  import opened Entry
  import opened LockerWriter
  import opened LockerInvariant
  import opened LockerDrift
  import opened LockerTheorems
  import opened LockerSolo
  import opened LockerLoss
  import opened LockerFate

  // ----- The roll-back after the reset -----

  /** Region A as the late roll-back and the late return of the ticket leave it. */
  function Jammed(r: LockerWriter.Region): LockerWriter.Region {
    Reset(r).(cursor := TWO_32 - 1, activeWriters := -1)
  }

  lemma RollsBack(s: State)
    requires s.writers != [] && s.writers[0] == Overflowed(0)
    ensures Enabled(s, RollBack(0))
    ensures After(s, RollBack(0)) == s.(rwA := Unbumped(s.rwA), writers := s.writers[0 := RolledBack(0)])
  {
  }

  lemma ReturnsTicket(s: State)
    requires s.writers != [] && s.writers[0] == RolledBack(0)
    ensures Enabled(s, ReturnTicket(0))
    ensures After(s, ReturnTicket(0)) == s.(rwA := Left(s.rwA), writers := s.writers[0 := Idle])
  {
  }

  function RestSchedule(): (actions: seq<Action>)
    ensures AtCodeGrain(actions)
  {
    [ClearWriters(0), ClearCommitted(0), ReturnTicket(0)]
  }

  lemma WrapsToRest(s: State)
    requires Threads(s) && s.writers[0] == RolledBack(0) && s.drainers[0] == ClearedCursor(0)
    ensures Run(s, RestSchedule())
         == Some(s.(rwA := s.rwA.(activeWriters := -1, committedEntries := 0),
                    writers := s.writers[0 := Idle], drainers := s.drainers[0 := Resting]))
  {
    var s1 := s.(rwA := s.rwA.(activeWriters := 0), drainers := s.drainers[0 := ClearedWriters(0)]);
    ClearsWriters(s, 0, 0);
    var s2 := s1.(rwA := s1.rwA.(committedEntries := 0), drainers := s1.drainers[0 := Resting]);
    ClearsCommitted(s1, 0, 0);
    ReturnsTicket(s2);
    assert s1.drainers[0 := Resting] == s.drainers[0 := Resting];
    ThreeSteps(s, ClearWriters(0), s1, ClearCommitted(0), s2,
               ReturnTicket(0), s2.(rwA := Left(s2.rwA), writers := s2.writers[0 := Idle]));
  }

  function WrapSchedule(): (actions: seq<Action>)
    ensures AtCodeGrain(actions)
  {
    [ClearCursor(0), RollBack(0)] + RestSchedule()
  }

  /** The late writer has rolled back right after the store of the cursor. */
  function RolledBackLate(s: State): State
    requires Threads(s)
  {
    s.(rwA := Unbumped(CursorCleared(s.rwA)), writers := s.writers[0 := RolledBack(0)],
       drainers := s.drainers[0 := ClearedCursor(0)])
  }

  lemma ClearsThenRollsBack(s: State, n: nat)
    requires Threads(s) && s.writers[0] == Overflowed(0) && s.drainers[0] == CountedDrain(0, n)
    ensures Run(s, [ClearCursor(0), RollBack(0)]) == Some(RolledBackLate(s))
  {
    var s1 := s.(rwA := CursorCleared(s.rwA), drainers := s.drainers[0 := ClearedCursor(0)]);
    ClearsCursor(s, 0, 0, n);
    RollsBack(s1);
    TwoSteps(s, ClearCursor(0), s1, RollBack(0), RolledBackLate(s));
  }

  lemma RolledBackRests(s: State)
    requires Threads(s)
    ensures var c := RolledBackLate(s);
      && c.writers[0 := Idle] == s.writers[0 := Idle] && c.drainers[0 := Resting] == s.drainers[0 := Resting]
      && c.rwA.(activeWriters := -1, committedEntries := 0) == Jammed(s.rwA)
  {
  }

  lemma WrapsAround(s: State, n: nat)
    requires Threads(s) && s.writers[0] == Overflowed(0) && s.drainers[0] == CountedDrain(0, n)
    ensures Run(s, WrapSchedule())
         == Some(s.(rwA := Jammed(s.rwA), writers := s.writers[0 := Idle], drainers := s.drainers[0 := Resting]))
  {
    ClearsThenRollsBack(s, n);
    WrapsToRest(RolledBackLate(s));
    RunConcat(s, [ClearCursor(0), RollBack(0)], RestSchedule());
    RolledBackRests(s);
  }

  function CountSchedule(): (actions: seq<Action>)
    ensures AtCodeGrain(actions)
  {
    [StoreTotal(0), CountDrain(0)]
  }

  lemma CountsOverflow(s: State, n: nat)
    requires s.drainers != [] && s.drainers[0] == GotTotal(0, n, s.totalEntries)
    ensures Run(s, CountSchedule()) == Some(CountedDown(s, 0, 0, n))
  {
    CountAlone(s, 0, 0, n);
  }

  /** The stale writer overflows after the cursor read. */
  lemma OverflowsLate(s: State, m: Message) returns (actions: seq<Action>, over: State)
    requires Threads(s) && s.writers[0].Idle? && s.drainers[0].Resting? && s.regionBit == 0
    requires s.rwA.cursor == s.maxSlots && s.rwA.activeWriters == 0
    ensures AtCodeGrain(actions) && Run(s, actions) == Some(over)
    ensures over == StaleOverflowed(Stale(s, m).WithDrainer(0, GotTotal(0, s.maxSlots, s.totalEntries)))
  {
    var loaded := Stale(s, m).WithDrainer(0, GotTotal(0, s.maxSlots, s.totalEntries));
    GoesStale(s, m);
    LoadAlone(Stale(s, m), 0, 0);
    StaleOverflow(loaded, m);
    over := StaleOverflowed(loaded);
    RunConcat(s, StaleSchedule(m), SeeAndLoad());
    RunConcat(s, StaleSchedule(m) + SeeAndLoad(), LateTicket());
    actions := StaleSchedule(m) + SeeAndLoad() + LateTicket();
  }

  lemma CountedDownRests(s: State, n: nat)
    requires s.drainers != []
    ensures var c := CountedDown(s, 0, 0, n);
      c.rwA == s.rwA && c.writers == s.writers && c.drainers[0 := Resting] == s.drainers[0 := Resting]
  {
  }

  /** And rolls back after the reset. */
  lemma RollsBackLate(over: State, n: nat) returns (e: State)
    requires Threads(over) && over.writers[0] == Overflowed(0) && over.drainers[0] == GotTotal(0, n, over.totalEntries)
    ensures Run(over, CountSchedule() + WrapSchedule()) == Some(e)
    ensures e == CountedDown(over, 0, 0, n).(rwA := Jammed(over.rwA), writers := over.writers[0 := Idle],
                                       drainers := over.drainers[0 := Resting])
  {
    var counted := CountedDown(over, 0, 0, n);
    CountsOverflow(over, n);
    WrapsAround(counted, n);
    RunConcat(over, CountSchedule(), WrapSchedule());
    CountedDownRests(over, n);
    e := counted.(rwA := Jammed(over.rwA), writers := over.writers[0 := Idle], drainers := over.drainers[0 := Resting]);
  }

  /** From a full region A at rest: a stale writer overflows after the cursor read and rolls back after the reset. */
  lemma StaleRollBack(s: State, m: Message) returns (actions: seq<Action>, e: State)
    requires Threads(s) && s.writers[0].Idle? && s.drainers[0].Resting? && s.regionBit == 0
    requires s.rwA.cursor == s.maxSlots && s.rwA.activeWriters == 0
    ensures AtCodeGrain(actions) && Run(s, actions) == Some(e)
    ensures e.rwA == Jammed(s.rwA) && e.writers == s.writers && e.drainers == s.drainers
    ensures e.regionBit == 1 && e.maxSlots == s.maxSlots && e.totalEntries == s.totalEntries + s.maxSlots
  {
    var first, over := OverflowsLate(s, m);
    e := RollsBackLate(over, s.maxSlots);
    RunConcat(s, first, CountSchedule() + WrapSchedule());
    actions := first + (CountSchedule() + WrapSchedule());
    assert e.writers == s.writers && e.drainers == s.drainers;
  }

  /** What is owed to the counters of the jammed region: one roll-back and one ticket. */
  lemma JammedIsOwedOne(s0: State, actions: seq<Action>, s: State)
    requires Initial(s0) && Run(s0, actions) == Some(s) && s.writers == s0.writers
    requires s.rwA.cursor == TWO_32 - 1 && s.rwA.activeWriters == -1 && s.rwA.accepted == multiset{}
    ensures Owed(s0, actions, Pending, 0, 0) == 1 && Owed(s0, actions, Holding, 0, 0) == 1
  {
    CountersAre(s0, actions, s, 0);
    TallyOfIdle(s.writers, Pending, 0);
    TallyOfIdle(s.writers, Holding, 0);
  }

  /** For a region of any size: fill it, then let a stale writer overflow between the cursor read and the reset.
      Every thread comes to rest with the cursor at 2^32 - 1 and the ticket count at -1. */
  lemma StaleRollBackWraps(s0: State, m: Message) returns (actions: seq<Action>, s: State)
    requires Initial(s0) && Threads(s0)
    ensures CodeRun(s0, actions, s) && s.writers == s0.writers && s.drainers == s0.drainers
    ensures s.rwA.cursor == TWO_32 - 1 && s.rwA.activeWriters == -1 && s.rwA.accepted == multiset{}
    ensures Owed(s0, actions, Pending, 0, 0) == 1 && Owed(s0, actions, Holding, 0, 0) == 1
    ensures s.regionBit == 1 && s.maxSlots == s0.maxSlots && s.totalEntries == s0.maxSlots
  {
    var before, full := FillsUp(s0, s0.maxSlots, m);
    var after;
    after, s := StaleRollBack(full, m);
    CodeRunGoesOn(s0, before, full, after, s);
    actions := before + after;
    JammedIsOwedOne(s0, actions, s);
  }

  /** Once active again the jammed region refuses a write that nobody overlaps and stays as it is; and a drain of it
      that nobody overlaps adds 2^32 - 1 to the total. */
  lemma JammedRegionRefuses(s: State, t: nat, m: Message, d: nat) returns (drain: seq<Action>, e: State)
    requires s.At(s.regionBit).cursor == TWO_32 - 1 && s.At(s.regionBit).activeWriters == -1
    requires t < |s.writers| && s.writers[t].Idle? && d < |s.drainers| && s.drainers[d].Resting?
    ensures s.maxSlots < TWO_31 ==> Run(s, RefusedSchedule(t, m)) == Some(s)
    ensures StepsOfDrainer(drain, d) && Run(s, drain) == Some(e)
    ensures e.totalEntries == s.totalEntries + TWO_32 - 1 && e.acceptedEver == s.acceptedEver
  {
    if s.maxSlots < TWO_31 {
      RefusedAlone(s, t, m);
    }
    drain := DrainAlone(s, d);
    e := Run(s, drain).value;
  }

  // ----- Overlapping writes in the jammed region -----

  /** Thread `t` is refused on the active region and has not rolled back yet. */
  lemma OverflowsAlone(s: State, t: nat, m: Message)
    requires t < |s.writers| && s.writers[t].Idle? && s.maxSlots <= s.At(s.regionBit).cursor
    ensures var b := s.regionBit;
      Run(s, [LookUp(t, m), TakeTicket(t)] + [FetchAdd(t)])
        == Some(Moved(s, b, Bumped(Entered(s.At(b))), t, Overflowed(b)))
  {
    var b, r := s.regionBit, Entered(s.At(s.regionBit));
    var s1 := Moved(s, b, r, t, Ticketed(b, m));
    EnterAlone(s, t, m);
    MovedTwice(s, b, r, t, Ticketed(b, m), Bumped(r), Overflowed(b));
    OneStep(s1, FetchAdd(t), Moved(s, b, Bumped(r), t, Overflowed(b)));
    RunConcat(s, [LookUp(t, m), TakeTicket(t)], [FetchAdd(t)]);
  }

  lemma GivesBackAlone(s: State, t: nat, b: Side)
    requires t < |s.writers| && s.writers[t] == Overflowed(b)
    ensures Run(s, [RollBack(t), ReturnTicket(t)]) == Some(Moved(s, b, Left(Unbumped(s.At(b))), t, Idle))
  {
    var r := Unbumped(s.At(b));
    var s1 := Moved(s, b, r, t, RolledBack(b));
    MovedTwice(s, b, r, t, RolledBack(b), Left(r), Idle);
    TwoSteps(s, RollBack(t), s1, ReturnTicket(t), Moved(s, b, Left(r), t, Idle));
  }

  lemma OverflowsThenTakes(s: State, m: Message, m': Message) returns (e: State)
    requires |s.writers| >= 2 && s.writers[0].Idle? && s.writers[1].Idle? && 0 < s.maxSlots
    requires s.At(s.regionBit).cursor == TWO_32 - 1
    ensures var b := s.regionBit;
      && Run(s, ReserveSchedule(0, m) + ReserveSchedule(1, m')) == Some(e)
      && e.regionBit == b && e.maxSlots == s.maxSlots
      && e.writers == s.writers[0 := Overflowed(b)][1 := Reserved(b, 0, m')] && e.At(b).cursor == 1
  {
    OverflowsAlone(s, 0, m);
    e := TakesSlot(Run(s, ReserveSchedule(0, m)).value, 1, m');
    RunConcat(s, ReserveSchedule(0, m), ReserveSchedule(1, m'));
  }

  lemma GivesBackThenTakes(s: State, m: Message) returns (e: State)
    requires s.writers != [] && s.writers[0] == Overflowed(s.regionBit) && s.At(s.regionBit).cursor == 1 <= s.maxSlots
    ensures Run(s, [RollBack(0), ReturnTicket(0)] + ReserveSchedule(0, m)) == Some(e)
    ensures e.writers == s.writers[0 := Reserved(s.regionBit, 0, m)]
  {
    var b := s.regionBit;
    var back := Moved(s, b, Left(Unbumped(s.At(b))), 0, Idle);
    GivesBackAlone(s, 0, b);
    e := TakesSlot(back, 0, m);
    RunConcat(s, [RollBack(0), ReturnTicket(0)], ReserveSchedule(0, m));
    assert s.writers[0 := Idle][0 := Reserved(b, 0, m)] == s.writers[0 := Reserved(b, 0, m)];
  }

  lemma WritersJoin(first: seq<Action>, second: seq<Action>)
    requires WritersOnly(first) && WritersOnly(second)
    ensures WritersOnly(first + second)
  {
  }

  /** The first write makes the cursor wrap to zero and is refused; before it rolls back, the second is handed slot 0;
      after it has, its next attempt is handed slot 0 as well. */
  lemma JammedRegionSharesSlot(s: State, m: Message, m': Message) returns (actions: seq<Action>, e: State)
    requires |s.writers| >= 2 && s.writers[0].Idle? && s.writers[1].Idle? && 0 < s.maxSlots
    requires s.At(s.regionBit).cursor == TWO_32 - 1
    ensures WritersOnly(actions) && Run(s, actions) == Some(e)
    ensures e.writers == s.writers[0 := Reserved(s.regionBit, 0, m)][1 := Reserved(s.regionBit, 0, m')]
    ensures SameSlot(e.writers[0], e.writers[1])
  {
    var first := ReserveSchedule(0, m) + ReserveSchedule(1, m');
    var second := [RollBack(0), ReturnTicket(0)] + ReserveSchedule(0, m);
    var middle := OverflowsThenTakes(s, m, m');
    e := GivesBackThenTakes(middle, m);
    RunConcat(s, first, second);
    WritersJoin(ReserveSchedule(0, m), ReserveSchedule(1, m'));
    WritersJoin([RollBack(0), ReturnTicket(0)], ReserveSchedule(0, m));
    WritersJoin(first, second);
    actions := first + second;
  }

  /** Until its next reset the jammed region hands out a slot exactly when reservations and pending roll-backs there
      number between one and the slots. */
  lemma JammedRefusesExactlyWhen(s: State, b: Side, more: seq<Action>, e: State, t: nat)
    requires Sized(s) && s.At(b).cursor == TWO_32 - 1 && s.At(b).activeWriters == -1 && s.At(b).accepted == multiset{}
    requires Tally(s.writers, Pending, b) == Tally(s.writers, Holding, b) == 0
    requires Run(s, more) == Some(e) && Owed(s, more, Pending, b, 1) == 1
    requires Enabled(e, FetchAdd(t)) && e.writers[t].side == b
    ensures var n := |e.At(b).accepted| + Tally(e.writers, Pending, b);
      !Succeeds(e, FetchAdd(t)) <==> n == 0 || n > e.maxSlots
  {
    RunDrifts(s, more, e, b, 1, 1);
  }

  // ----- Exactly when both counters come back to zero -----

  /** In every run, once no thread has a ticket on the side: the ticket count is the number of tickets that were out
      when it was last cleared, negated; the cursor is what has been accepted since its reset less the roll-backs
      pending then, modulo 2^32. So both are back at zero exactly when no ticket was out at the store of the tickets
      and as many slots were reserved since as roll-backs were pending. */
  lemma CountersReturnExactlyWhen(s0: State, actions: seq<Action>, s: State, b: Side)
    requires Initial(s0) && Run(s0, actions) == Some(s) && Tally(s.writers, Holding, b) == 0
    ensures var r, owed, out := s.At(b), Owed(s0, actions, Pending, b, 0), Owed(s0, actions, Holding, b, 0);
      && r.activeWriters + out == 0
      && r.cursor == |r.accepted| - owed + (if |r.accepted| < owed then TWO_32 else 0)
      && (r.cursor == r.activeWriters == 0 <==> out == 0 && |r.accepted| == owed)
  {
    CountersAre(s0, actions, s, b);
    OwedIsFew(s0, actions, Pending, b, 0);
    RunSizesStay(s0, actions, s);
    TallyAtMost(s.writers, Pending, b);
  }

  // ----- Which databases never wrap -----

  /** Both regions' counters are where they can be without wrapping. */
  predicate InRange(s: State) {
    && 0 <= s.rwA.activeWriters <= |s.writers| && 0 <= s.rwB.activeWriters <= |s.writers|
    && s.rwA.cursor <= s.maxSlots + |s.writers| && s.rwB.cursor <= s.maxSlots + |s.writers|
  }

  lemma NoDrainersInRange(s0: State, actions: seq<Action>, s: State)
    requires CodeRun(s0, actions, s) && |s0.drainers| == 0
    ensures InRange(s)
  {
    OnlyWritersRun(s0, actions);
    CountersStayInRange(s0, actions, s, 0);
    CountersStayInRange(s0, actions, s, 1);
  }

  predicate NoTickets(s: State) {
    |s.writers| == 0 && s.rwA.activeWriters == s.rwB.activeWriters == 0
  }

  lemma {:induction false} NoTicketsRun(s: State, actions: seq<Action>, e: State)
    requires NoTickets(s) && Run(s, actions) == Some(e)
    ensures NoTickets(e)
    decreases |actions|
  {
    if actions != [] {
      NoTicketsRun(After(s, actions[0]), actions[1..], e);
    }
  }

  /** No counter of a region ever wraps in any run of the code exactly when there are no writers or no drainers. */
  lemma CountersStayInRangeExactlyWhen(s0: State)
    requires Initial(s0)
    ensures (forall actions, s :: CodeRun(s0, actions, s) ==> InRange(s)) <==> |s0.writers| == 0 || |s0.drainers| == 0
  {
    if |s0.writers| == 0 || |s0.drainers| == 0 {
      forall actions, s | CodeRun(s0, actions, s) ensures InRange(s) {
        if |s0.drainers| == 0 {
          NoDrainersInRange(s0, actions, s);
        } else {
          NoTicketsRun(s0, actions, s);
          DesertedRun(s0, actions, s);
        }
      }
    } else {
      var actions, s := StaleRollBackWraps(s0, Message(0, []));
      assert CodeRun(s0, actions, s) && !InRange(s);
    }
  }
}
