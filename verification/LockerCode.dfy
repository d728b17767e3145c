/** The guarantees at the grain of the code: every run that respects the windows stands for one with atomic drain
    tails, and what holds of a region there holds of it here unless its own drain is in its tail; and then nobody
    is in it and it still holds everything, up to its reset. */
module LockerCode {
  import opened Base
  import opened LockerWriter
  import opened LockerInvariant
  import opened LockerTheorems
  import opened LockerWindow

  /** A run at the grain of the code that respects the windows. */
  ghost predicate WindowRun(s0: State, actions: seq<Action>, s: State) {
    Initial(s0) && Run(s0, actions) == Some(s) && RespectsWindows(s0, actions)
  }

  /** A drain of side `b` is in its tail. */
  ghost predicate SideInTail(s: State, b: Side) {
    exists d :: 0 <= d < |s.drainers| && InTail(s.drainers[d]) && s.drainers[d].side == b
  }

  // ----- The region whose drain is in its tail -----

  /** Everything reserved is written and committed, slot by slot, and the entries hold exactly the messages accepted. */
  ghost predicate Complete(r: Region, maxSlots: nat) {
    && r.cursor == r.committedEntries == |r.claims|
    && r.claims.Keys == r.filled == r.committed
    && multiset(Stored(r.entries, r.cursor)) == r.accepted
    && SlotsFit(r, maxSlots)
  }

  ghost predicate QuietUnder(p: Drainer, r: Region, maxSlots: nat) {
    && r.activeWriters == 0 && r.cursor <= maxSlots && r.committedEntries <= maxSlots
    && (p.ClearedCursor? || p.ClearedWriters? || Complete(r, maxSlots))
  }

  ghost predicate TailsQuiet(s: State) {
    forall d :: 0 <= d < |s.drainers| && InTail(s.drainers[d]) ==>
      QuietUnder(s.drainers[d], s.At(s.drainers[d].side), s.maxSlots)
  }

  lemma ZeroRegionIsQuiet(s: State, b: Side)
    requires RegionsFit(s) && s.At(b).activeWriters <= 0
    ensures QuietUnder(SawZero(b), s.At(b), s.maxSlots)
  {
    QuiescentSide(s, b);
    SideFits(s, b);
    assert s.At(b).activeWriters == Tally(s.writers, Holding, b);
  }

  lemma SeesQuiet(s: State, d: nat)
    requires NoTail(s.drainers) && Enabled(s, SeeZero(d))
    requires QuietUnder(SawZero(s.drainers[d].side), s.At(s.drainers[d].side), s.maxSlots)
    ensures TailsQuiet(AfterDrainer(s, SeeZero(d)))
  {
  }

  lemma ZeroIsQuiet(s: State, d: nat)
    requires RegionsFit(s) && NoTail(s.drainers) && Enabled(s, SeeZero(d))
    ensures TailsQuiet(AfterDrainer(s, SeeZero(d)))
  {
    ZeroRegionIsQuiet(s, s.drainers[d].side);
    SeesQuiet(s, d);
  }

  /** The one drainer in its tail goes on to `p`. */
  lemma OnlyTailQuiet(s: State, d: nat, p: Drainer, s': State)
    requires OnlyTail(s.drainers, d) && s'.drainers == s.drainers[d := p]
    requires InTail(p) ==> QuietUnder(p, s'.At(p.side), s'.maxSlots)
    ensures TailsQuiet(s')
  {
    forall i | 0 <= i < |s'.drainers| && InTail(s'.drainers[i])
      ensures QuietUnder(s'.drainers[i], s'.At(s'.drainers[i].side), s'.maxSlots)
    {
      assert i == d;
    }
  }

  lemma LoadQuiet(s: State, d: nat, a: Action)
    requires OnlyTail(s.drainers, d) && TailsQuiet(s) && !ByWriter(a) && !a.DrainTail? && !a.SeeZero? && Enabled(s, a)
    requires !a.ClearCursor? && !a.ClearWriters? && !a.ClearCommitted?
    ensures TailsQuiet(AfterDrainer(s, a))
  {
    var s' := AfterDrainer(s, a);
    DrainerLeavesRegions(s, a);
    assert QuietUnder(s.drainers[d], s.At(s.drainers[d].side), s.maxSlots);
    forall i | 0 <= i < |s'.drainers| && InTail(s'.drainers[i])
      ensures QuietUnder(s'.drainers[i], s'.At(s'.drainers[i].side), s'.maxSlots)
    {
      assert i == d;
    }
  }

  lemma ClearCursorQuiet(s: State, d: nat)
    requires OnlyTail(s.drainers, d) && TailsQuiet(s) && Enabled(s, ClearCursor(d))
    ensures TailsQuiet(AfterDrainer(s, ClearCursor(d)))
  {
    var p := s.drainers[d];
    assert QuietUnder(p, s.At(p.side), s.maxSlots);
    ClearsCursor(s, d, p.side, p.count);
    OnlyTailQuiet(s, d, ClearedCursor(p.side), AfterDrainer(s, ClearCursor(d)));
  }

  lemma ClearWritersQuiet(s: State, d: nat)
    requires OnlyTail(s.drainers, d) && TailsQuiet(s) && Enabled(s, ClearWriters(d))
    ensures TailsQuiet(AfterDrainer(s, ClearWriters(d)))
  {
    var p := s.drainers[d];
    assert QuietUnder(p, s.At(p.side), s.maxSlots);
    ClearsWriters(s, d, p.side);
    OnlyTailQuiet(s, d, ClearedWriters(p.side), AfterDrainer(s, ClearWriters(d)));
  }

  lemma ClearQuiet(s: State, d: nat, a: Action)
    requires OnlyTail(s.drainers, d) && TailsQuiet(s) && Enabled(s, a)
    requires a.ClearCursor? || a.ClearWriters? || a.ClearCommitted?
    ensures TailsQuiet(AfterDrainer(s, a))
  {
    assert a.d == d;
    match a {
      case ClearCursor(_) => ClearCursorQuiet(s, d);
      case ClearWriters(_) => ClearWritersQuiet(s, d);
      case ClearCommitted(_) =>
        ClearsCommitted(s, d, s.drainers[d].side);
        OnlyTailQuiet(s, d, Resting, AfterDrainer(s, a));
    }
  }

  lemma TailStepQuiet(s: State, d: nat, a: Action)
    requires OnlyTail(s.drainers, d) && TailsQuiet(s) && !ByWriter(a) && !a.DrainTail? && !a.SeeZero? && Enabled(s, a)
    ensures TailsQuiet(AfterDrainer(s, a))
  {
    if a.ClearCursor? || a.ClearWriters? || a.ClearCommitted? {
      ClearQuiet(s, d, a);
    } else {
      LoadQuiet(s, d, a);
    }
  }

  lemma OtherSideStays(s: State, a: Action, b: Side)
    requires ByWriter(a) && Enabled(s, a) && (a.LookUp? || s.writers[a.t].side == Other(b))
    ensures var s' := AfterWriter(s, a); s'.At(b) == s.At(b)
  {
  }

  lemma WriterStepQuiet(s: State, d: nat, a: Action)
    requires OnlyTail(s.drainers, d) && TailsQuiet(s) && RegionsFit(Finished(s, d))
    requires ByWriter(a) && Enabled(s, a) && RespectsWindow(s, a)
    ensures TailsQuiet(AfterWriter(s, a))
  {
    var b, s' := s.drainers[d].side, AfterWriter(s, a);
    WriterKeepsOut(s, d, a);
    OtherSideStays(s, a, b);
    WriterKeepsSizes(s, a);
    assert QuietUnder(s.drainers[d], s.At(b), s.maxSlots);
    forall i | 0 <= i < |s'.drainers| && InTail(s'.drainers[i])
      ensures QuietUnder(s'.drainers[i], s'.At(s'.drainers[i].side), s'.maxSlots)
    {
      assert i == d;
    }
  }

  lemma StepKeepsTailsQuiet(s: State, a: Action, abs: State)
    requires StandsFor(s, abs) && RegionsFit(abs) && TailsQuiet(s) && Enabled(s, a) && RespectsWindow(s, a)
    ensures TailsQuiet(After(s, a))
  {
    if NoTail(s.drainers) {
      if a.SeeZero? {
        ZeroIsQuiet(s, a.d);
      } else {
        NoTailStays(s, a);
      }
    } else {
      var d :| StandsForFinished(s, abs, d);
      if ByWriter(a) {
        WriterStepQuiet(s, d, a);
      } else {
        TailStepQuiet(s, d, a);
      }
    }
  }

  lemma {:induction false} RunKeepsTailsQuiet(s0: State, done: seq<Action>, s: State, actions: seq<Action>, e: State,
                                              abs: State)
    requires Reached(s0, done, abs) && StandsFor(s, abs) && TailsQuiet(s)
    requires Run(s, actions) == Some(e) && RespectsWindows(s, actions)
    ensures TailsQuiet(e)
    decreases |actions|
  {
    if actions != [] {
      ReachedKeepsInvariant(s0, done, abs);
      StepKeepsTailsQuiet(s, actions[0], abs);
      var mid := StepRefines(s0, done, s, actions[0], abs);
      RunKeepsTailsQuiet(s0, done + Coarse(actions[0]), After(s, actions[0]), actions[1..], e, mid);
    }
  }

  lemma NobodyInside(s: State, d: nat)
    requires d < |s.drainers| && InTail(s.drainers[d]) && RegionsFit(Finished(s, d))
    ensures forall t :: 0 <= t < |s.writers| ==> Untouched(s.drainers[d].side, s.writers[t])
  {
    var b := s.drainers[d].side;
    FinishedSide(s, d);
    SideFits(Finished(s, d), b);
    forall t | 0 <= t < |s.writers| ensures Untouched(b, s.writers[t]) {
      ResetHasNoHolders(s.At(b), b, s.writers, s.maxSlots, t);
    }
  }

  /** While a drain is in its tail nobody is in its region, and up to the reset the region is complete: what the
      drain reads, counts and hands over is everything that was accepted there. */
  lemma CodeDrainFindsEverything(s0: State, actions: seq<Action>, s: State, d: nat)
    requires WindowRun(s0, actions, s) && d < |s.drainers| && InTail(s.drainers[d])
    ensures QuietUnder(s.drainers[d], s.At(s.drainers[d].side), s.maxSlots)
    ensures forall t :: 0 <= t < |s.writers| ==> Untouched(s.drainers[d].side, s.writers[t])
  {
    assert NoTail(s0.drainers) && Reached(s0, [], s0);
    RunKeepsTailsQuiet(s0, [], s0, actions, s, s0);
    var abs := CodeRefinesAtomicDrains(s0, actions, s);
    ReachedKeepsInvariant(s0, Coarsen(actions), abs);
    var i :| StandsForFinished(s, abs, i);
    assert i == d;
    NobodyInside(s, d);
  }

  // ----- The other regions -----

  lemma FinishedLeavesOther(s: State, d: nat, b: Side)
    requires d < |s.drainers| && InTail(s.drainers[d]) && s.drainers[d].side != b
    ensures var f := Finished(s, d); f.At(b) == s.At(b) && f.writers == s.writers && f.maxSlots == s.maxSlots
  {
  }

  lemma StandsForLeavesOther(s: State, abs: State, b: Side)
    requires StandsFor(s, abs) && !SideInTail(s, b)
    ensures abs.At(b) == s.At(b) && abs.writers == s.writers && abs.maxSlots == s.maxSlots
  {
    if !NoTail(s.drainers) {
      var d: nat :| StandsForFinished(s, abs, d);
      assert s.drainers[d].side != b;
      FinishedLeavesOther(s, d, b);
    }
  }

  /** Side `b` is in every respect as in a run with atomic tails, unless its own drain is in its tail. */
  lemma CodeSideIsReached(s0: State, actions: seq<Action>, s: State, b: Side) returns (abs: State)
    requires WindowRun(s0, actions, s) && !SideInTail(s, b)
    ensures Reached(s0, Coarsen(actions), abs)
    ensures abs.At(b) == s.At(b) && abs.writers == s.writers && abs.maxSlots == s.maxSlots
  {
    abs := CodeRefinesAtomicDrains(s0, actions, s);
    StandsForLeavesOther(s, abs, b);
  }

  lemma HasNoSlot(s0: State, actions: seq<Action>, s: State, b: Side, t: nat)
    requires WindowRun(s0, actions, s) && SideInTail(s, b) && t < |s.writers|
    ensures Untouched(b, s.writers[t])
  {
    var d :| 0 <= d < |s.drainers| && InTail(s.drainers[d]) && s.drainers[d].side == b;
    CodeDrainFindsEverything(s0, actions, s, d);
  }

  /** The slots handed out are 0, 1, ..., n-1, once each, on a side whose drain is not in its tail, and no two
      threads ever hold the same slot. */
  lemma CodeSlotsAreExclusive(s0: State, actions: seq<Action>, s: State, b: Side)
    requires WindowRun(s0, actions, s)
    ensures !SideInTail(s, b) ==> var r := s.At(b);
      && (forall i :: i in r.claims <==> 0 <= i < |r.claims|)
      && |r.accepted| == |r.claims| <= s.maxSlots
      && r.cursor == |r.claims| + Tally(s.writers, Pending, b)
      && (r.cursor > |r.claims| ==> |r.claims| == s.maxSlots)
    ensures forall t, u :: 0 <= t < u < |s.writers| ==> !SameSlot(s.writers[t], s.writers[u])
    ensures forall t, u :: 0 <= t < u < |s.writers| && HasSlot(s.writers[t]) && HasSlot(s.writers[u]) ==>
      s.writers[t].side != s.writers[u].side || s.writers[t].slot != s.writers[u].slot
  {
    if !SideInTail(s, b) {
      var abs := CodeSideIsReached(s0, actions, s, b);
      SlotsAreExclusive(s0, Coarsen(actions), abs, b);
    }
    forall t, u | 0 <= t < u < |s.writers| ensures !SameSlot(s.writers[t], s.writers[u]) {
      if SameSlot(s.writers[t], s.writers[u]) {
        var c := s.writers[t].side;
        if SideInTail(s, c) {
          HasNoSlot(s0, actions, s, c, t);
        } else {
          var abs := CodeSideIsReached(s0, actions, s, c);
          SlotsAreExclusive(s0, Coarsen(actions), abs, c);
        }
      }
    }
  }

  lemma CountersOfReached(s0: State, actions: seq<Action>, s: State, b: Side)
    requires WindowRun(s0, actions, s) && !SideInTail(s, b)
    ensures 0 <= s.At(b).activeWriters <= |s.writers|
    ensures s.At(b).cursor <= s.maxSlots + |s.writers| < TWO_32 - 1
    ensures s.At(b).committedEntries <= s.maxSlots
  {
    var abs := CodeSideIsReached(s0, actions, s, b);
    CountersStayInRange(s0, Coarsen(actions), abs, b);
  }

  /** The 32-bit counters of both regions stay far from their limits, inside tails and outside. */
  lemma CodeCountersStayInRange(s0: State, actions: seq<Action>, s: State, b: Side)
    requires WindowRun(s0, actions, s)
    ensures 0 <= s.At(b).activeWriters <= |s.writers|
    ensures s.At(b).cursor <= s.maxSlots + |s.writers| < TWO_32 - 1
    ensures s.At(b).committedEntries <= s.maxSlots
  {
    if SideInTail(s, b) {
      var d :| 0 <= d < |s.drainers| && InTail(s.drainers[d]) && s.drainers[d].side == b;
      CodeDrainFindsEverything(s0, actions, s, d);
      RunSizesStay(s0, actions, s);
    } else {
      CountersOfReached(s0, actions, s, b);
    }
  }

  // ----- Readers -----

  /** A drain of side `b` is between the first and the last store of its reset. */
  ghost predicate SideInReset(s: State, b: Side) {
    exists d :: 0 <= d < |s.drainers| && (s.drainers[d].ClearedCursor? || s.drainers[d].ClearedWriters?)
      && s.drainers[d].side == b
  }

  /** A complete region with nobody inside: everything a reader is let through to is written. */
  lemma CompleteReads(r: Region, b: Side, ws: seq<Writer>, maxSlots: nat, i: nat)
    requires Complete(r, maxSlots) && i < r.committedEntries && forall t :: 0 <= t < |ws| ==> Untouched(b, ws[t])
    ensures i in r.filled && ReadsAsWritten(r, i) && !SomeoneStillWrites(ws, b, i)
  {
    assert i in r.claims;
    FilledReadsAsWritten(r, i);
  }

  lemma TailReadsWhole(s0: State, actions: seq<Action>, s: State, b: Side)
    requires WindowRun(s0, actions, s) && SideInTail(s, b) && !SideInReset(s, b)
    ensures s.maxSlots == s0.maxSlots && Complete(s.At(b), s.maxSlots) && s.At(b).cursor <= s.maxSlots
    ensures forall t :: 0 <= t < |s.writers| ==> Untouched(b, s.writers[t])
  {
    var d :| 0 <= d < |s.drainers| && InTail(s.drainers[d]) && s.drainers[d].side == b;
    CodeDrainFindsEverything(s0, actions, s, d);
    RunSizesStay(s0, actions, s);
  }

  lemma NoneUnwritten(r: Region, maxSlots: nat)
    requires Complete(r, maxSlots)
    ensures Unwritten(r) == {}
  {
    forall i: nat | i < r.committedEntries ensures i in r.filled {
      assert i in r.claims;
    }
  }

  /** What readers of a region get, up to the reset of its drain. */
  lemma CodeReadersSee(s0: State, actions: seq<Action>, s: State, b: Side)
    requires WindowRun(s0, actions, s) && !SideInReset(s, b)
    ensures var r := s.At(b);
      && r.committedEntries <= |r.claims| <= s.maxSlots
      && (forall i :: 0 <= i < r.committedEntries ==> (i in r.filled <==> !SomeoneStillWrites(s.writers, b, i)))
      && (forall i :: 0 <= i < r.committedEntries && i in r.filled ==>
            i in r.claims && Read(EntryAt(r.entries, i)) == r.claims[i].message)
      && (forall i :: i in Unwritten(r) <==> 0 <= i < r.committedEntries && i !in r.filled)
      && |Unwritten(r)| <= Tally(s.writers, Unfilled, b)
  {
    if SideInTail(s, b) {
      TailReadsWhole(s0, actions, s, b);
      NoneUnwritten(s.At(b), s.maxSlots);
      forall i | 0 <= i < s.At(b).committedEntries
        ensures i in s.At(b).filled && ReadsAsWritten(s.At(b), i) && !SomeoneStillWrites(s.writers, b, i)
      {
        CompleteReads(s.At(b), b, s.writers, s.maxSlots, i);
      }
    } else {
      var abs := CodeSideIsReached(s0, actions, s, b);
      ReadersSee(s0, Coarsen(actions), abs, b);
    }
  }

  /** Some run lets a reader of a region through to index `i`, outside the reset of its drain. */
  ghost predicate CodeLetsThrough(s0: State, actions: seq<Action>, s: State, b: Side, i: nat) {
    WindowRun(s0, actions, s) && !SideInReset(s, b) && i < s.At(b).committedEntries
  }

  lemma FewMakeCodeReadersSafe(s0: State, actions: seq<Action>, s: State, b: Side, i: nat)
    requires CodeLetsThrough(s0, actions, s, b, i) && (|s0.writers| <= 1 || s0.maxSlots <= 1)
    ensures ReadsAsWritten(s.At(b), i)
  {
    if SideInTail(s, b) {
      TailReadsWhole(s0, actions, s, b);
      CompleteReads(s.At(b), b, s.writers, s.maxSlots, i);
    } else {
      var abs := CodeSideIsReached(s0, actions, s, b);
      FewMakeReadersSafe(s0, Coarsen(actions), abs, b, i);
    }
  }

  lemma {:induction false} WritersRespectWindows(s: State, actions: seq<Action>)
    requires WritersOnly(actions) && Run(s, actions).Some? && NoTail(s.drainers)
    ensures RespectsWindows(s, actions)
    decreases |actions|
  {
    if actions != [] {
      WriterKeepsSizes(s, actions[0]);
      WritersRespectWindows(After(s, actions[0]), actions[1..]);
    }
  }

  /** At the grain of the code as well, readers always get what was accepted exactly when there is at most one
      writer or at most one slot. */
  lemma CodeReadersAreSafeExactlyWhen(s0: State)
    requires Initial(s0)
    ensures (forall actions, s, b, i :: CodeLetsThrough(s0, actions, s, b, i) ==> ReadsAsWritten(s.At(b), i))
       <==> |s0.writers| <= 1 || s0.maxSlots <= 1
  {
    if |s0.writers| <= 1 || s0.maxSlots <= 1 {
      forall actions, s, b, i | CodeLetsThrough(s0, actions, s, b, i) ensures ReadsAsWritten(s.At(b), i) {
        FewMakeCodeReadersSafe(s0, actions, s, b, i);
      }
    } else {
      var actions, s := OverlappingWritersExposeBlankSlot(s0, Different(Read(EntryAt(s0.rwA.entries, 0))));
      assert NoTail(s0.drainers);
      WritersRespectWindows(s0, actions);
      assert s.drainers == s0.drainers;
      assert CodeLetsThrough(s0, actions, s, 0, 0) && !ReadsAsWritten(s.At(0), 0);
    }
  }
}
