/** Why the window matters: a run that loses an accepted message, and exactly when the totals come out right. */
module LockerLoss {
  import opened Base
  import opened Entry
  import opened LockerWriter
  import opened LockerInvariant
  import opened LockerTheorems
  import opened LockerWindow
  import opened LockerSolo

  /** The accepted messages are exactly those found by the drains and those in the regions. */
  predicate MessagesConserved(s: State) {
    s.acceptedEver == DrainedMessages(s.drains) + s.rwA.accepted + s.rwB.accepted
  }

  /** No accepted message is missing from them. */
  predicate NoneMissing(s: State) {
    s.acceptedEver <= DrainedMessages(s.drains) + s.rwA.accepted + s.rwB.accepted
  }

  // ----- A stale writer inside the window -----

  predicate Threads(s: State) {
    s.writers != [] && s.drainers != []
  }

  /** Thread 0 has looked region A up, and drainer 0 has flipped away from it. */
  function Stale(s0: State, m: Message): State
    requires Threads(s0)
  {
    s0.(writers := s0.writers[0 := LookedUp(0, m)], drainers := s0.drainers[0 := Spinning(0)], regionBit := 1)
  }

  function StaleSchedule(m: Message): (actions: seq<Action>)
    ensures AtCodeGrain(actions)
  {
    [LookUp(0, m), LoadBit(0), FlipBit(0)]
  }

  lemma GoesStale(s: State, m: Message)
    requires Threads(s) && s.writers[0].Idle? && s.drainers[0].Resting? && s.regionBit == 0
    ensures Run(s, StaleSchedule(m)) == Some(Stale(s, m)) && RespectsWindows(s, StaleSchedule(m))
  {
    var actions := StaleSchedule(m);
    var s1 := s.(writers := s.writers[0 := LookedUp(0, m)]);
    RunCons(s, actions, s1);
    var s2 := s1.(drainers := s1.drainers[0 := LoadedBit(0)]);
    RunCons(s1, actions[1..], s2);
    assert s2.drainers[0 := Spinning(0)] == s.drainers[0 := Spinning(0)];
    RunCons(s2, actions[1..][1..], Stale(s, m));
    assert RespectsWindows(s2, actions[1..][1..]);
    assert RespectsWindows(s1, actions[1..]);
  }

  lemma StaleSpin(s0: State, m: Message) returns (before: seq<Action>)
    requires Initial(s0) && Threads(s0)
    ensures CodeRun(s0, before, Stale(s0, m)) && RespectsWindows(s0, before) && NoTail(Stale(s0, m).drainers)
  {
    before := StaleSchedule(m);
    GoesStale(s0, m);
  }

  /** Thread 0 takes its ticket on region A and reserves a slot there. */
  function StaleReserved(s: State, m: Message): State
    requires s.writers != []
  {
    s.(rwA := Claimed(Entered(s.rwA), 0, m), writers := s.writers[0 := Reserved(0, s.rwA.cursor, m)],
       acceptedEver := s.acceptedEver + multiset{Kept(m)})
  }

  predicate LateWriter(s: State, m: Message) {
    s.writers != [] && s.writers[0] == LookedUp(0, m)
  }

  function LateTicket(): (actions: seq<Action>)
    ensures AtCodeGrain(actions)
  {
    [TakeTicket(0), FetchAdd(0)]
  }

  lemma StaleReserve(s: State, m: Message)
    requires LateWriter(s, m) && s.rwA.cursor < s.maxSlots
    ensures Run(s, LateTicket()) == Some(StaleReserved(s, m))
  {
    var s1 := s.(rwA := Entered(s.rwA), writers := s.writers[0 := Ticketed(0, m)]);
    RunCons(s, LateTicket(), s1);
    var w := Reserved(0, s.rwA.cursor, m);
    assert s1.writers[0 := w] == s.writers[0 := w];
    RunCons(s1, LateTicket()[1..], StaleReserved(s, m));
  }

  /** Or finds the region full, and is about to roll its fetch-add back. */
  function StaleOverflowed(s: State): State
    requires s.writers != []
  {
    s.(rwA := Bumped(Entered(s.rwA)), writers := s.writers[0 := Overflowed(0)])
  }

  lemma StaleOverflow(s: State, m: Message)
    requires LateWriter(s, m) && s.rwA.cursor >= s.maxSlots
    ensures Run(s, LateTicket()) == Some(StaleOverflowed(s))
  {
    var s1 := s.(rwA := Entered(s.rwA), writers := s.writers[0 := Ticketed(0, m)]);
    RunCons(s, LateTicket(), s1);
    assert s1.writers[0 := Overflowed(0)] == s.writers[0 := Overflowed(0)];
    RunCons(s1, LateTicket()[1..], StaleOverflowed(s));
  }

  // ----- A write up to its slot -----

  function ReserveSchedule(t: nat, m: Message): (actions: seq<Action>)
    ensures AtCodeGrain(actions) && WritersOnly(actions)
  {
    [LookUp(t, m), TakeTicket(t)] + [FetchAdd(t)]
  }

  /** Thread `t` reserves the slot that the cursor of the active region names. */
  lemma TakesSlot(s: State, t: nat, m: Message) returns (e: State)
    requires t < |s.writers| && s.writers[t].Idle? && s.At(s.regionBit).cursor < s.maxSlots
    ensures var b, i := s.regionBit, s.At(s.regionBit).cursor;
      && Run(s, ReserveSchedule(t, m)) == Some(e) && e.writers == s.writers[t := Reserved(b, i, m)]
      && e.regionBit == b && e.At(b).cursor == i + 1 && e.maxSlots == s.maxSlots && e.drainers == s.drainers
  {
    ReserveAlone(s, t, m);
    e := Run(s, ReserveSchedule(t, m)).value;
  }

  // ----- The tail of drainer 0 -----

  lemma ReadsAndLoads(s: State)
    requires s.drainers != [] && s.drainers[0] == SawZero(0)
    ensures Enabled(s, ReadCursor(0))
    ensures Run(After(s, ReadCursor(0)), [LoadTotal(0)])
      == Some(s.WithDrainer(0, GotTotal(0, s.rwA.cursor, s.totalEntries)))
  {
    var n := s.rwA.cursor;
    ReadsCursor(s, 0, 0);
    LoadsTotal(s.WithDrainer(0, GotCursor(0, n)), 0, 0, n);
    DrainerTwice(s, 0, GotCursor(0, n), GotTotal(0, n, s.totalEntries));
    OneStep(s.WithDrainer(0, GotCursor(0, n)), LoadTotal(0), s.WithDrainer(0, GotTotal(0, n, s.totalEntries)));
  }

  // ----- A message accepted, reported as written, and gone -----

  function LateFinish(): (actions: seq<Action>)
    ensures AtCodeGrain(actions)
  {
    [StoreHeader(0), CopyPayload(0)] + [Commit(0), ReturnTicket(0)]
  }

  lemma StaleFinish(s: State, i: nat, m: Message) returns (e: State)
    requires s.writers != [] && s.writers[0] == Reserved(0, i, m)
    ensures Run(s, LateFinish()) == Some(e) && e == s.(rwA := e.rwA, writers := s.writers[0 := Idle])
  {
    FinishAlone(s, 0, 0, i, m);
    e := Run(s, LateFinish()).value;
  }

  lemma ReservedRests(s: State, m: Message)
    requires s.writers != []
    ensures StaleReserved(s, m).writers[0 := Idle] == s.writers[0 := Idle]
  {
  }

  /** The late writer reserves after the cursor read, fills, commits and returns before the total is stored. */
  lemma StaleWriteInWindow(s: State, m: Message) returns (actions: seq<Action>, e: State)
    requires LateWriter(s, m) && s.rwA.cursor < s.maxSlots && 0 <= s.rwA.activeWriters < TWO_31 - 1
    ensures AtCodeGrain(actions) && Run(s, actions) == Some(e)
    ensures e == s.(rwA := e.rwA, writers := s.writers[0 := Idle], acceptedEver := s.acceptedEver + multiset{Kept(m)})
  {
    var reserved := StaleReserved(s, m);
    StaleReserve(s, m);
    e := StaleFinish(reserved, s.rwA.cursor, m);
    RunConcat(s, LateTicket(), LateFinish());
    actions := LateTicket() + LateFinish();
    ReservedRests(s, m);
  }

  /** The rest of the tail of drainer 0 from its total load. */
  function CountAndClear(): (actions: seq<Action>)
    ensures AtCodeGrain(actions)
  {
    [StoreTotal(0), CountDrain(0)] + [ClearCursor(0), ClearWriters(0), ClearCommitted(0)]
  }

  lemma CountsAndClears(s: State, n: nat)
    requires s.drainers != [] && s.drainers[0] == GotTotal(0, n, s.totalEntries)
    ensures Run(s, CountAndClear()) == Some(CountedAndCleared(s, 0, 0, n))
  {
    CountAndClearAlone(s, 0, 0, n);
  }

  function SeeAndLoad(): (actions: seq<Action>)
    ensures AtCodeGrain(actions)
  {
    [SeeZero(0), ReadCursor(0), LoadTotal(0)]
  }

  lemma StaleLoaded(s0: State, m: Message) returns (actions: seq<Action>, s: State)
    requires Initial(s0) && Threads(s0)
    ensures CodeRun(s0, actions, s) && s == Stale(s0, m).WithDrainer(0, GotTotal(0, 0, 0))
  {
    var before := StaleSpin(s0, m);
    LoadAlone(Stale(s0, m), 0, 0);
    s := Stale(s0, m).WithDrainer(0, GotTotal(0, 0, 0));
    CodeRunGoesOn(s0, before, Stale(s0, m), SeeAndLoad(), s);
    actions := before + SeeAndLoad();
  }

  lemma StaleWritten(s0: State, m: Message) returns (actions: seq<Action>, s: State)
    requires Initial(s0) && Threads(s0) && 0 < s0.maxSlots
    ensures CodeRun(s0, actions, s) && s.drainers == s0.drainers[0 := GotTotal(0, 0, 0)] && s.writers == s0.writers
    ensures s.rwB == s0.rwB && s.totalEntries == 0 && s.drains == [] && s.acceptedEver == multiset{Kept(m)}
  {
    var first, loaded := StaleLoaded(s0, m);
    var second;
    second, s := StaleWriteInWindow(loaded, m);
    CodeRunGoesOn(s0, first, loaded, second, s);
    actions := first + second;
    assert loaded.writers[0 := Idle] == s0.writers;
    assert Stale(s0, m).drainers[0 := GotTotal(0, 0, 0)] == s0.drainers[0 := GotTotal(0, 0, 0)];
  }

  /** Without the side condition the code loses a message: the write was accepted and has returned success,
      every thread is at rest, and the message is neither drained nor in a region nor counted nor readable. */
  lemma StaleWriterIsLost(s0: State, m: Message) returns (actions: seq<Action>, s: State)
    requires Initial(s0) && Threads(s0) && 0 < s0.maxSlots
    ensures CodeRun(s0, actions, s) && s.writers == s0.writers && s.drainers == s0.drainers
    ensures s.acceptedEver == multiset{Kept(m)} && DrainedMessages(s.drains) == multiset{}
    ensures s.rwA.accepted == s.rwB.accepted == multiset{} && s.rwA.claims == s.rwB.claims == map[]
    ensures s.totalEntries == s.rwA.cursor == s.rwB.cursor == s.rwA.committedEntries == s.rwB.committedEntries == 0
    ensures !NoneMissing(s)
  {
    var first, written := StaleWritten(s0, m);
    s := CountedAndCleared(written, 0, 0, 0);
    CountsAndClears(written, 0);
    CodeRunGoesOn(s0, first, written, CountAndClear(), s);
    actions := first + CountAndClear();
    assert s.drainers == s0.drainers;
    OneMoreDrain([], DrainResult(written.rwA.entries, 0));
    assert Kept(m) in s.acceptedEver;
  }

  // ----- Exactly when the totals come out right -----

  /** The total and the regions' slots count every acceptance. */
  predicate Counted(s: State) {
    |s.acceptedEver| == s.totalEntries + |s.rwA.claims| + |s.rwB.claims|
  }

  /** A step of a writer, a switch by any drainer, or a step of `d` short of its resets. */
  predicate Quiet(a: Action, d: nat) {
    ByWriter(a) || a.LoadBit? || a.FlipBit? || a == LoadTotal(d) || a == StoreTotal(d) || a == CountDrain(d)
  }

  predicate AllQuiet(actions: seq<Action>, d: nat) {
    forall i :: 0 <= i < |actions| ==> Quiet(actions[i], d)
  }

  function Counting(p: Drainer): nat {
    match p
    case GotCursor(_, n) => n
    case GotTotal(_, n, _) => n
    case AddedTotal(_, n) => n
    case CountedDrain(_, n) => n
    case _ => 0
  }

  /** The books while `d` is between its zero load and its resets: once the total is stored, what it added
      is counted twice, in the total and in the slots that are not reset yet. */
  predicate Booked(s: State, d: nat, b: Side, n: nat) {
    && d < |s.drainers|
    && var p := s.drainers[d];
      && (p.SawZero? || p.GotCursor? || p.GotTotal? || p.AddedTotal? || p.CountedDrain?) && p.side == b
      && (p.SawZero? || Counting(p) == n)
      && (p.GotTotal? ==> p.total == s.totalEntries)
      && |s.acceptedEver| + (if TotalStored(p) then n else 0) == s.totalEntries + |s.rwA.claims| + |s.rwB.claims|
  }

  lemma FetchAddKeepsBooks(s: State, d: nat, b: Side, n: nat, t: nat)
    requires Booked(s, d, b, n) && Enabled(s, FetchAdd(t))
    requires var r := s.At(s.writers[t].side); r.cursor < s.maxSlots ==> r.cursor !in r.claims
    ensures Booked(AfterWriter(s, FetchAdd(t)), d, b, n)
  {
  }

  lemma WritersLeaveDrainers(s: State, a: Action)
    requires ByWriter(a) && Enabled(s, a)
    ensures AfterWriter(s, a).drainers == s.drainers
  {
  }

  lemma WriterKeepsBooks(s: State, d: nat, b: Side, n: nat, a: Action)
    requires RegionsFit(s) && Booked(s, d, b, n) && ByWriter(a) && Enabled(s, a)
    ensures Booked(AfterWriter(s, a), d, b, n)
  {
    if a.FetchAdd? {
      FetchAddIsFresh(s, a.t);
      FetchAddKeepsBooks(s, d, b, n, a.t);
    } else {
      OtherStepsKeepAccounts(s, a);
      WritersLeaveDrainers(s, a);
    }
  }

  lemma DrainerKeepsBooks(s: State, d: nat, b: Side, n: nat, a: Action)
    requires Booked(s, d, b, n) && Quiet(a, d) && !ByWriter(a) && Enabled(s, a)
    ensures Booked(AfterDrainer(s, a), d, b, n)
  {
  }

  lemma DrainerKeepsRegions(s: State, d: nat, a: Action)
    requires RegionsFit(s) && (Quiet(a, d) || a.SeeZero? || a.ReadCursor?) && !ByWriter(a) && Enabled(s, a)
    ensures RegionsFit(AfterDrainer(s, a))
  {
    var s' := AfterDrainer(s, a);
    assert s'.rwA == s.rwA && s'.rwB == s.rwB && s'.writers == s.writers && s'.maxSlots == s.maxSlots;
  }

  lemma QuietStepKeepsBooks(s: State, d: nat, b: Side, n: nat, a: Action)
    requires RegionsFit(s) && Booked(s, d, b, n) && Quiet(a, d) && Enabled(s, a)
    ensures RegionsFit(After(s, a)) && Booked(After(s, a), d, b, n)
  {
    if ByWriter(a) {
      WriterKeepsRegions(s, a);
      WriterKeepsBooks(s, d, b, n, a);
    } else {
      DrainerKeepsRegions(s, d, a);
      DrainerKeepsBooks(s, d, b, n, a);
    }
  }

  lemma QuietHeadKeepsBooks(s: State, d: nat, b: Side, n: nat, actions: seq<Action>) returns (m: State)
    requires RegionsFit(s) && Booked(s, d, b, n) && AllQuiet(actions, d) && actions != [] && Enabled(s, actions[0])
    ensures m == After(s, actions[0]) && RegionsFit(m) && Booked(m, d, b, n) && AllQuiet(actions[1..], d)
  {
    assert Quiet(actions[0], d);
    QuietStepKeepsBooks(s, d, b, n, actions[0]);
    m := After(s, actions[0]);
  }

  lemma {:induction false} QuietRunKeepsBooks(s: State, d: nat, b: Side, n: nat, actions: seq<Action>, e: State)
    requires RegionsFit(s) && Booked(s, d, b, n) && AllQuiet(actions, d) && Run(s, actions) == Some(e)
    ensures RegionsFit(e) && Booked(e, d, b, n)
    decreases |actions|
  {
    if actions != [] {
      var m := QuietHeadKeepsBooks(s, d, b, n, actions);
      QuietRunKeepsBooks(m, d, b, n, actions[1..], e);
    }
  }

  lemma BooksOpen(s0: State, before: seq<Action>, m: State, d: nat, n: nat)
    requires Initial(s0) && Run(s0, before) == Some(m) && RespectsWindows(s0, before) && NoTail(m.drainers)
    requires Enabled(m, SeeZero(d))
    ensures var s := AfterDrainer(m, SeeZero(d)); RegionsFit(s) && Booked(s, d, m.drainers[d].side, n)
  {
    CodeLosesNothing(s0, before, m);
    var abs := CodeRefinesAtomicDrains(s0, before, m);
    ReachedKeepsInvariant(s0, Coarsen(before), m);
    DrainerKeepsRegions(m, d, SeeZero(d));
  }

  lemma BooksReadCursor(s: State, d: nat, b: Side, n: nat)
    requires Booked(s, d, b, n) && Enabled(s, ReadCursor(d)) && n == s.At(b).cursor
    ensures Booked(AfterDrainer(s, ReadCursor(d)), d, b, n)
  {
  }

  lemma BooksClose(e: State, d: nat, b: Side, n: nat)
    requires Booked(e, d, b, n) && Enabled(e, ClearCursor(d))
    ensures Counted(After(e, ClearCursor(d))) <==> |e.At(b).claims| == n
  {
  }

  lemma CursorParts(s: State, b: Side)
    requires RegionsFit(s)
    ensures s.At(b).cursor == |s.At(b).claims| + Tally(s.writers, Pending, b)
    ensures |s.At(b).claims| <= s.maxSlots
    ensures Tally(s.writers, Pending, b) > 0 ==> |s.At(b).claims| == s.maxSlots
  {
  }

  lemma MaxSlotsStay(s: State, actions: seq<Action>, e: State)
    requires Run(s, actions) == Some(e)
    ensures e.maxSlots == s.maxSlots
    decreases |actions|
  {
    if actions != [] {
      MaxSlotsStay(After(s, actions[0]), actions[1..], e);
    }
  }

  lemma BooksFromReadToReset(s: State, d: nat, b: Side, during: seq<Action>, e: State)
    requires RegionsFit(s) && Booked(s, d, b, s.At(b).cursor)
    requires Enabled(s, ReadCursor(d)) && AllQuiet(during, d) && Run(After(s, ReadCursor(d)), during) == Some(e)
    requires Enabled(e, ClearCursor(d))
    ensures Counted(After(e, ClearCursor(d))) <==> |e.At(b).claims| == s.At(b).cursor
    ensures |e.At(b).claims| <= s.maxSlots
  {
    BooksReadCursor(s, d, b, s.At(b).cursor);
    DrainerKeepsRegions(s, d, ReadCursor(d));
    QuietRunKeepsBooks(After(s, ReadCursor(d)), d, b, s.At(b).cursor, during, e);
    BooksClose(e, d, b, s.At(b).cursor);
    CursorParts(e, b);
    MaxSlotsStay(After(s, ReadCursor(d)), during, e);
  }

  lemma BooksFromZeroToRead(s0: State, before: seq<Action>, m: State, d: nat, between: seq<Action>, s: State, n: nat)
    requires Initial(s0) && Run(s0, before) == Some(m) && RespectsWindows(s0, before) && NoTail(m.drainers)
    requires Enabled(m, SeeZero(d)) && AllQuiet(between, d) && Run(After(m, SeeZero(d)), between) == Some(s)
    ensures RegionsFit(s) && Booked(s, d, m.drainers[d].side, n)
  {
    var z := AfterDrainer(m, SeeZero(d));
    BooksOpen(s0, before, m, d, n);
    QuietRunKeepsBooks(z, d, m.drainers[d].side, n, between, s);
  }

  /** A drain passes its zero load in `m`, reads the cursor in `s` and is about to reset it in `e`; meanwhile
      writers do what they like, stale tickets included. The totals are right after the reset exactly when
      no roll-back was pending at the cursor read and nothing was reserved there between read and reset. */
  lemma TotalsAreRightExactlyWhen(s0: State, before: seq<Action>, m: State, d: nat,
                                  between: seq<Action>, s: State, during: seq<Action>, e: State)
    requires Initial(s0) && Run(s0, before) == Some(m) && RespectsWindows(s0, before) && NoTail(m.drainers)
    requires Enabled(m, SeeZero(d)) && AllQuiet(between, d) && Run(After(m, SeeZero(d)), between) == Some(s)
    requires Enabled(s, ReadCursor(d)) && AllQuiet(during, d) && Run(After(s, ReadCursor(d)), during) == Some(e)
    requires Enabled(e, ClearCursor(d))
    ensures var b := m.drainers[d].side;
      Counted(After(e, ClearCursor(d))) <==>
        Tally(s.writers, Pending, b) == 0 && |e.At(b).claims| == |s.At(b).claims|
  {
    var b := m.drainers[d].side;
    BooksFromZeroToRead(s0, before, m, d, between, s, s.At(b).cursor);
    BooksFromReadToReset(s, d, b, during, e);
    CursorParts(s, b);
  }
}
