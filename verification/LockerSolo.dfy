/** The sequential engine is the protocol with one thread running: a write or a drain taken alone, step by
    step, does to the counters and entries exactly what the engine's methods do. */
module LockerSolo {
  import opened Base
  import opened Entry
  import opened LockerWriter
  import opened Engine

  function CellsOf(r: LockerWriter.Region): Cells {
    Cells(r.cursor, r.activeWriters, r.committedEntries, r.entries)
  }

  lemma MovedTwice(s: State, b: LockerWriter.Side, r: LockerWriter.Region, t: nat, w: Writer, r': LockerWriter.Region,
                   w': Writer)
    requires t < |s.writers|
    ensures Moved(Moved(s, b, r, t, w), b, r', t, w') == Moved(s, b, r', t, w')
    ensures Moved(s, b, r, t, w).At(b) == r && Moved(s, b, r, t, w).writers[t] == w
  {
    assert s.writers[t := w][t := w'] == s.writers[t := w'];
  }

  /** The schedule of thread `t` writing alone in a region with room. */
  function WriteSchedule(t: nat, m: Message): seq<Action> {
    [LookUp(t, m), TakeTicket(t), FetchAdd(t), StoreHeader(t), CopyPayload(t), Commit(t), ReturnTicket(t)]
  }

  /** The schedule when the region is full. */
  function RefusedSchedule(t: nat, m: Message): seq<Action> {
    [LookUp(t, m), TakeTicket(t), FetchAdd(t), RollBack(t), ReturnTicket(t)]
  }

  lemma EnterAlone(s: State, t: nat, m: Message)
    requires t < |s.writers| && s.writers[t].Idle?
    ensures var b := s.regionBit;
      Run(s, [LookUp(t, m), TakeTicket(t)]) == Some(Moved(s, b, Entered(s.At(b)), t, Ticketed(b, m)))
  {
    var b := s.regionBit;
    var s1 := s.WithWriter(t, LookedUp(b, m));
    RunCons(s, [LookUp(t, m), TakeTicket(t)], s1);
    assert s1.writers[t := Ticketed(b, m)] == s.writers[t := Ticketed(b, m)];
    var s2 := Moved(s, b, Entered(s.At(b)), t, Ticketed(b, m));
    assert After(s1, TakeTicket(t)) == s2;
    RunCons(s1, [TakeTicket(t)], s2);
  }

  lemma FillAlone(s: State, t: nat, b: LockerWriter.Side, i: nat, m: Message)
    requires t < |s.writers| && s.writers[t] == Reserved(b, i, m)
    ensures Run(s, [StoreHeader(t), CopyPayload(t)])
         == Some(Moved(s, b, PayloadCopied(HeaderStored(s.At(b), i, m), i, m), t, Filled(b, i, m)))
  {
    var r1 := HeaderStored(s.At(b), i, m);
    var s1 := Moved(s, b, r1, t, HeaderWritten(b, i, m));
    RunCons(s, [StoreHeader(t), CopyPayload(t)], s1);
    MovedTwice(s, b, r1, t, HeaderWritten(b, i, m), PayloadCopied(r1, i, m), Filled(b, i, m));
    RunCons(s1, [CopyPayload(t)], Moved(s, b, PayloadCopied(r1, i, m), t, Filled(b, i, m)));
  }

  lemma LeaveAlone(s: State, t: nat, b: LockerWriter.Side, i: nat, m: Message)
    requires t < |s.writers| && s.writers[t] == Filled(b, i, m)
    ensures Run(s, [Commit(t), ReturnTicket(t)]) == Some(Moved(s, b, Left(CommitCounted(s.At(b), i)), t, Idle))
  {
    var r1 := CommitCounted(s.At(b), i);
    var s1 := Moved(s, b, r1, t, Committed(b, i, m));
    RunCons(s, [Commit(t), ReturnTicket(t)], s1);
    MovedTwice(s, b, r1, t, Committed(b, i, m), Left(r1), Idle);
    RunCons(s1, [ReturnTicket(t)], Moved(s, b, Left(r1), t, Idle));
  }

  /** The region after a whole write has passed through it. */
  function Passed(r: LockerWriter.Region, t: nat, m: Message): LockerWriter.Region {
    var i := r.cursor;
    Left(CommitCounted(PayloadCopied(HeaderStored(Claimed(Entered(r), t, m), i, m), i, m), i))
  }

  lemma PassedCells(r: LockerWriter.Region, t: nat, m: Message, maxSlots: u32)
    requires r.cursor < maxSlots && r.cursor < |r.entries| && 0 <= r.activeWriters < TWO_31 - 1
    ensures CellsOf(Passed(r, t, m)) == Appended(CellsOf(r), maxSlots, m)
  {
  }

  lemma ReserveAlone(s: State, t: nat, m: Message)
    requires t < |s.writers| && s.writers[t].Idle? && s.At(s.regionBit).cursor < s.maxSlots
    ensures var b, r := s.regionBit, s.At(s.regionBit);
      Run(s, [LookUp(t, m), TakeTicket(t)] + [FetchAdd(t)])
        == Some(Moved(s, b, Claimed(Entered(r), t, m), t, Reserved(b, r.cursor, m))
                .(acceptedEver := s.acceptedEver + multiset{Kept(m)}))
  {
    var b, r := s.regionBit, s.At(s.regionBit);
    EnterAlone(s, t, m);
    var s2 := Moved(s, b, Entered(r), t, Ticketed(b, m));
    MovedTwice(s, b, Entered(r), t, Ticketed(b, m), Claimed(Entered(r), t, m), Reserved(b, r.cursor, m));
    RunCons(s2, [FetchAdd(t)], After(s2, FetchAdd(t)));
    RunConcat(s, [LookUp(t, m), TakeTicket(t)], [FetchAdd(t)]);
  }

  lemma FinishAlone(s: State, t: nat, b: LockerWriter.Side, i: nat, m: Message)
    requires t < |s.writers| && s.writers[t] == Reserved(b, i, m)
    ensures
      var r := CommitCounted(PayloadCopied(HeaderStored(s.At(b), i, m), i, m), i);
      Run(s, [StoreHeader(t), CopyPayload(t)] + [Commit(t), ReturnTicket(t)]) == Some(Moved(s, b, Left(r), t, Idle))
  {
    FillAlone(s, t, b, i, m);
    var r1 := PayloadCopied(HeaderStored(s.At(b), i, m), i, m);
    var s1 := Moved(s, b, r1, t, Filled(b, i, m));
    LeaveAlone(s1, t, b, i, m);
    MovedTwice(s, b, r1, t, Filled(b, i, m), Left(CommitCounted(r1, i)), Idle);
    RunConcat(s, [StoreHeader(t), CopyPayload(t)], [Commit(t), ReturnTicket(t)]);
  }

  lemma WriteScheduleParts(t: nat, m: Message)
    ensures WriteSchedule(t, m)
         == ([LookUp(t, m), TakeTicket(t)] + [FetchAdd(t)])
           + ([StoreHeader(t), CopyPayload(t)] + [Commit(t), ReturnTicket(t)])
  {
  }

  /** A whole write, alone, into a region with room. */
  lemma WriteAlone(s: State, t: nat, m: Message)
    requires t < |s.writers| && s.writers[t].Idle?
    requires var r := s.At(s.regionBit); r.cursor < s.maxSlots == |r.entries| && 0 <= r.activeWriters < TWO_31 - 1
    ensures Run(s, WriteSchedule(t, m)).Some?
    ensures var e, b := Run(s, WriteSchedule(t, m)).value, s.regionBit;
      && e == s.With(b, e.At(b)).(acceptedEver := s.acceptedEver + multiset{Kept(m)})
      && CellsOf(e.At(b)) == Appended(CellsOf(s.At(b)), s.maxSlots, m)
  {
    var b, r := s.regionBit, s.At(s.regionBit);
    ReserveAlone(s, t, m);
    var s3 := Moved(s, b, Claimed(Entered(r), t, m), t, Reserved(b, r.cursor, m)).(
      acceptedEver := s.acceptedEver + multiset{Kept(m)});
    FinishAlone(s3, t, b, r.cursor, m);
    WriteScheduleParts(t, m);
    RunConcat(s, [LookUp(t, m), TakeTicket(t)] + [FetchAdd(t)],
              [StoreHeader(t), CopyPayload(t)] + [Commit(t), ReturnTicket(t)]);
    PassedCells(r, t, m, s.maxSlots);
    assert s3.writers[t := Idle] == s.writers;
  }

  /** The fetch-add is undone, and so is the ticket. */
  lemma BumpsAndLeaves(s: State, t: nat, b: LockerWriter.Side, m: Message)
    requires t < |s.writers| && s.maxSlots <= s.At(b).cursor && -TWO_31 <= s.At(b).activeWriters < TWO_31
    ensures Run(Moved(s, b, Entered(s.At(b)), t, Ticketed(b, m)), [FetchAdd(t), RollBack(t), ReturnTicket(t)])
         == Some(Moved(s, b, s.At(b), t, Idle))
  {
    var r := s.At(b);
    var r1 := Bumped(Entered(r));
    var s2 := Moved(s, b, Entered(r), t, Ticketed(b, m));
    MovedTwice(s, b, Entered(r), t, Ticketed(b, m), r1, Overflowed(b));
    MovedTwice(s, b, r1, t, Overflowed(b), Entered(r), RolledBack(b));
    MovedTwice(s, b, Entered(r), t, RolledBack(b), r, Idle);
    assert Unbumped(r1) == Entered(r) && Left(Entered(r)) == r;
    ThreeSteps(s2, FetchAdd(t), Moved(s, b, r1, t, Overflowed(b)), RollBack(t),
               Moved(s, b, Entered(r), t, RolledBack(b)),
               ReturnTicket(t), Moved(s, b, r, t, Idle));
  }

  /** A refused write, alone, leaves the database as it was. */
  lemma RefusedAlone(s: State, t: nat, m: Message)
    requires t < |s.writers| && s.writers[t].Idle?
    requires var r := s.At(s.regionBit); s.maxSlots <= r.cursor && -TWO_31 <= r.activeWriters < TWO_31
    ensures Run(s, RefusedSchedule(t, m)) == Some(s)
  {
    var b, r := s.regionBit, s.At(s.regionBit);
    var s2 := Moved(s, b, Entered(r), t, Ticketed(b, m));
    EnterAlone(s, t, m);
    BumpsAndLeaves(s, t, b, m);
    RunConcat(s, [LookUp(t, m), TakeTicket(t)], [FetchAdd(t), RollBack(t), ReturnTicket(t)]);
    assert RefusedSchedule(t, m) == [LookUp(t, m), TakeTicket(t)] + [FetchAdd(t), RollBack(t), ReturnTicket(t)];
    assert s.writers[t := Idle] == s.writers;
  }

  // ----- A drain alone -----

  lemma SwitchAlone(s: State, d: nat)
    requires d < |s.drainers| && s.drainers[d].Resting?
    ensures Run(s, [LoadBit(d), FlipBit(d)])
         == Some(s.(regionBit := Other(s.regionBit)).WithDrainer(d, Spinning(s.regionBit)))
  {
    var b := s.regionBit;
    var s1 := s.WithDrainer(d, LoadedBit(b));
    RunCons(s, [LoadBit(d), FlipBit(d)], s1);
    assert s1.drainers[d := Spinning(b)] == s.drainers[d := Spinning(b)];
    RunCons(s1, [FlipBit(d)], After(s1, FlipBit(d)));
  }

  lemma LoadAlone(s: State, d: nat, b: LockerWriter.Side)
    requires d < |s.drainers| && s.drainers[d] == Spinning(b) && s.At(b).activeWriters <= 0
    ensures Run(s, [SeeZero(d), ReadCursor(d), LoadTotal(d)])
         == Some(s.WithDrainer(d, GotTotal(b, s.At(b).cursor, s.totalEntries)))
  {
    var n := s.At(b).cursor;
    var s1, s2 := s.WithDrainer(d, SawZero(b)), s.WithDrainer(d, GotCursor(b, n));
    SeesZero(s, d, b);
    ReadsCursor(s1, d, b);
    DrainerTwice(s, d, SawZero(b), GotCursor(b, n));
    LoadsTotal(s2, d, b, n);
    DrainerTwice(s, d, GotCursor(b, n), GotTotal(b, n, s.totalEntries));
    ThreeSteps(s, SeeZero(d), s1, ReadCursor(d), s2, LoadTotal(d), s.WithDrainer(d, GotTotal(b, n, s.totalEntries)));
  }

  /** Drainer `d` has added the `n` entries of side `b` to the total and counted the drain. */
  function CountedDown(s: State, d: nat, b: LockerWriter.Side, n: nat): State
    requires d < |s.drainers|
  {
    s.(totalEntries := s.totalEntries + n, totalDrains := s.totalDrains + 1,
       drains := s.drains + [DrainResult(s.At(b).entries, n)]).WithDrainer(d, CountedDrain(b, n))
  }

  lemma CountAlone(s: State, d: nat, b: LockerWriter.Side, n: nat)
    requires d < |s.drainers| && s.drainers[d] == GotTotal(b, n, s.totalEntries)
    ensures Run(s, [StoreTotal(d), CountDrain(d)]) == Some(CountedDown(s, d, b, n))
  {
    var stored := s.(totalEntries := s.totalEntries + n, drains := s.drains + [DrainResult(s.At(b).entries, n)]);
    StoresTotal(s, d, b, n, s.totalEntries);
    CountsDrain(stored.WithDrainer(d, AddedTotal(b, n)), d, b, n);
    DrainerTwice(stored.(totalDrains := s.totalDrains + 1), d, AddedTotal(b, n), CountedDrain(b, n));
    TwoSteps(s, StoreTotal(d), stored.WithDrainer(d, AddedTotal(b, n)), CountDrain(d), CountedDown(s, d, b, n));
  }

  /** A region and a drainer replaced twice. */
  lemma ReplacedTwice(s: State, b: LockerWriter.Side, r: LockerWriter.Region, d: nat, p: Drainer,
                      r': LockerWriter.Region, q: Drainer)
    requires d < |s.drainers|
    ensures s.With(b, r).WithDrainer(d, p).With(b, r').WithDrainer(d, q) == s.With(b, r').WithDrainer(d, q)
    ensures s.With(b, r).WithDrainer(d, p).At(b) == r
  {
    DrainerTwice(s.With(b, r'), d, p, q);
  }

  lemma ClearRestAlone(s: State, d: nat, b: LockerWriter.Side)
    requires d < |s.drainers| && s.drainers[d] == ClearedCursor(b)
    ensures Run(s, [ClearWriters(d), ClearCommitted(d)])
         == Some(s.With(b, s.At(b).(activeWriters := 0, committedEntries := 0)).WithDrainer(d, Resting))
  {
    var r1 := s.At(b).(activeWriters := 0);
    var s1 := s.With(b, r1).WithDrainer(d, ClearedWriters(b));
    ClearsWriters(s, d, b);
    ClearsCommitted(s1, d, b);
    ReplacedTwice(s, b, r1, d, ClearedWriters(b), r1.(committedEntries := 0), Resting);
    TwoSteps(s, ClearWriters(d), s1, ClearCommitted(d), s.With(b, r1.(committedEntries := 0)).WithDrainer(d, Resting));
  }

  lemma ClearAlone(s: State, d: nat, b: LockerWriter.Side, n: nat)
    requires d < |s.drainers| && s.drainers[d] == CountedDrain(b, n)
    ensures Run(s, [ClearCursor(d), ClearWriters(d), ClearCommitted(d)])
         == Some(s.With(b, Reset(s.At(b))).WithDrainer(d, Resting))
  {
    var r1 := CursorCleared(s.At(b));
    var s1 := s.With(b, r1).WithDrainer(d, ClearedCursor(b));
    ClearsCursor(s, d, b, n);
    RunCons(s, [ClearCursor(d), ClearWriters(d), ClearCommitted(d)], s1);
    ReplacedTwice(s, b, r1, d, ClearedCursor(b), Reset(s.At(b)), Resting);
    ClearRestAlone(s1, d, b);
    assert r1.(activeWriters := 0, committedEntries := 0) == Reset(s.At(b));
  }

  /** Drainer `d` has flipped the bit, seen zero and loaded the cursor and the total. */
  function SwitchedAndLoaded(s: State, d: nat): State
    requires d < |s.drainers|
  {
    var b := s.regionBit;
    s.(regionBit := Other(b)).WithDrainer(d, GotTotal(b, s.At(b).cursor, s.totalEntries))
  }

  lemma SwitchAndLoadAlone(s: State, d: nat)
    requires d < |s.drainers| && s.drainers[d].Resting? && s.At(s.regionBit).activeWriters <= 0
    ensures Run(s, [LoadBit(d), FlipBit(d)] + [SeeZero(d), ReadCursor(d), LoadTotal(d)])
      == Some(SwitchedAndLoaded(s, d))
  {
    var b := s.regionBit;
    var switched := s.(regionBit := Other(b)).WithDrainer(d, Spinning(b));
    var got := GotTotal(b, s.At(b).cursor, s.totalEntries);
    SwitchAlone(s, d);
    LoadAlone(switched, d, b);
    assert switched.drainers[d := got] == s.drainers[d := got];
    RunConcat(s, [LoadBit(d), FlipBit(d)], [SeeZero(d), ReadCursor(d), LoadTotal(d)]);
  }

  /** Side `b` had `n` entries when drainer `d` read the cursor; now it is counted and reset. */
  function CountedAndCleared(s: State, d: nat, b: LockerWriter.Side, n: nat): State
    requires d < |s.drainers|
  {
    s.(totalEntries := s.totalEntries + n, totalDrains := s.totalDrains + 1,
       drains := s.drains + [DrainResult(s.At(b).entries, n)]).With(b, Reset(s.At(b))).WithDrainer(d, Resting)
  }

  lemma ClearedAfterCount(s: State, d: nat, b: LockerWriter.Side, n: nat)
    requires d < |s.drainers|
    ensures var c := CountedDown(s, d, b, n);
      c.At(b) == s.At(b) && c.With(b, Reset(s.At(b))).WithDrainer(d, Resting) == CountedAndCleared(s, d, b, n)
  {
    assert s.drainers[d := CountedDrain(b, n)][d := Resting] == s.drainers[d := Resting];
  }

  lemma CountAndClearAlone(s: State, d: nat, b: LockerWriter.Side, n: nat)
    requires d < |s.drainers| && s.drainers[d] == GotTotal(b, n, s.totalEntries)
    ensures Run(s, [StoreTotal(d), CountDrain(d)] + [ClearCursor(d), ClearWriters(d), ClearCommitted(d)])
         == Some(CountedAndCleared(s, d, b, n))
  {
    CountAlone(s, d, b, n);
    ClearAlone(CountedDown(s, d, b, n), d, b, n);
    ClearedAfterCount(s, d, b, n);
    RunConcat(s, [StoreTotal(d), CountDrain(d)], [ClearCursor(d), ClearWriters(d), ClearCommitted(d)]);
  }

  /** Every step is one of drainer `d`, at the grain of the code. */
  predicate StepsOfDrainer(actions: seq<Action>, d: nat) {
    forall i :: 0 <= i < |actions| ==> !ByWriter(actions[i]) && !actions[i].DrainTail? && actions[i].d == d
  }

  function LoadSchedule(d: nat): (actions: seq<Action>)
    ensures StepsOfDrainer(actions, d)
  {
    [LoadBit(d), FlipBit(d)] + [SeeZero(d), ReadCursor(d), LoadTotal(d)]
  }

  function ClearSchedule(d: nat): (actions: seq<Action>)
    ensures StepsOfDrainer(actions, d)
  {
    [StoreTotal(d), CountDrain(d)] + [ClearCursor(d), ClearWriters(d), ClearCommitted(d)]
  }

  lemma DrainedAlone(s: State, d: nat)
    requires d < |s.drainers| && s.drainers[d].Resting?
    ensures var b := s.regionBit;
      CountedAndCleared(SwitchedAndLoaded(s, d), d, b, s.At(b).cursor) == Drained(s, b).(regionBit := Other(b))
  {
    assert SwitchedAndLoaded(s, d).drainers[d := Resting] == s.drainers;
  }

  /** A whole drain, alone, at the grain of the code: the bit flips, the old region is counted and emptied. */
  lemma DrainAlone(s: State, d: nat) returns (actions: seq<Action>)
    requires d < |s.drainers| && s.drainers[d].Resting? && s.At(s.regionBit).activeWriters <= 0
    ensures StepsOfDrainer(actions, d)
    ensures Run(s, actions) == Some(Drained(s, s.regionBit).(regionBit := Other(s.regionBit)))
  {
    SwitchAndLoadAlone(s, d);
    CountAndClearAlone(SwitchedAndLoaded(s, d), d, s.regionBit, s.At(s.regionBit).cursor);
    DrainedAlone(s, d);
    actions := LoadSchedule(d) + ClearSchedule(d);
    RunConcat(s, LoadSchedule(d), ClearSchedule(d));
  }
}
