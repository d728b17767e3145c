/** The drain at the grain of the code: zero load, cursor read, total load and store, three stores of a reset.
    As long as no ticket is taken on the old region inside that window and no two windows overlap, the code
    refines the protocol whose tail is one step; without that, a message can be accepted and lost. */
module LockerWindow {
  import opened Base
  import opened Entry
  import opened LockerWriter
  import opened LockerInvariant
  import opened LockerTheorems

  predicate InTail(p: Drainer) {
    !p.Resting? && !p.LoadedBit? && !p.Spinning?
  }

  predicate NoTail(drainers: seq<Drainer>) {
    forall d :: 0 <= d < |drainers| ==> !InTail(drainers[d])
  }

  /** Drainer `d` is in its tail and no other drainer is. */
  predicate OnlyTail(drainers: seq<Drainer>, d: nat) {
    d < |drainers| && InTail(drainers[d])
    && forall i :: 0 <= i < |drainers| && i != d ==> !InTail(drainers[i])
  }

  predicate StepOfTail(a: Action) {
    a.ReadCursor? || a.LoadTotal? || a.StoreTotal? || a.CountDrain?
    || a.ClearCursor? || a.ClearWriters? || a.ClearCommitted?
  }

  // ----- The side condition -----

  /** No ticket is taken on a region whose drain is past its zero load, and no drain passes its zero load
      while another is in its tail. */
  predicate RespectsWindow(s: State, a: Action)
    requires Enabled(s, a)
  {
    && !a.DrainTail?
    && (a.SeeZero? ==> NoTail(s.drainers))
    && (a.TakeTicket? ==>
          forall d :: 0 <= d < |s.drainers| && InTail(s.drainers[d]) ==> s.drainers[d].side != s.writers[a.t].side)
  }

  predicate RespectsWindows(s: State, actions: seq<Action>)
    requires Run(s, actions).Some?
    decreases |actions|
  {
    actions != [] ==> RespectsWindow(s, actions[0]) && RespectsWindows(After(s, actions[0]), actions[1..])
  }

  /** What one step must respect, written out: it is not a whole tail; no drainer passes its zero load unless all are at
      rest, about to flip or spinning; and no ticket is taken on the side of a drainer that is past that. */
  lemma WindowIs(s: State, a: Action)
    requires Enabled(s, a)
    ensures RespectsWindow(s, a) <==>
      && !a.DrainTail?
      && (a.SeeZero? ==> forall i :: 0 <= i < |s.drainers| ==>
            s.drainers[i].Resting? || s.drainers[i].LoadedBit? || s.drainers[i].Spinning?)
      && (a.TakeTicket? ==> forall i :: 0 <= i < |s.drainers| && s.drainers[i] != Resting ==>
            s.drainers[i].LoadedBit? || s.drainers[i].Spinning? || s.drainers[i].side != s.writers[a.t].side)
  {
  }

  /** A run respects the windows exactly when each of its steps does, in the state it is taken in. */
  lemma {:induction false} WindowsAre(s: State, actions: seq<Action>)
    requires Run(s, actions).Some?
    ensures RespectsWindows(s, actions) <==>
      forall i, m :: 0 <= i < |actions| && Run(s, actions[..i]) == Some(m) && Enabled(m, actions[i]) ==>
        RespectsWindow(m, actions[i])
    decreases |actions|
  {
    if actions != [] {
      var next, rest := After(s, actions[0]), actions[1..];
      WindowsAre(next, rest);
      assert Run(s, actions[..0]) == Some(s);
      forall i | 0 < i < |actions| ensures Run(s, actions[..i]) == Run(next, rest[..i - 1]) {
        RunOfPrefix(s, actions, i);
      }
      if RespectsWindows(next, rest) && RespectsWindow(s, actions[0]) {
        forall i, m | 0 <= i < |actions| && Run(s, actions[..i]) == Some(m) && Enabled(m, actions[i])
          ensures RespectsWindow(m, actions[i])
        {
          assert i > 0 ==> rest[i - 1] == actions[i];
        }
      } else if RespectsWindow(s, actions[0]) {
        var i, m :| 0 <= i < |rest| && Run(next, rest[..i]) == Some(m) && Enabled(m, rest[i])
          && !RespectsWindow(m, rest[i]);
        assert Run(s, actions[..i + 1]) == Some(m) && actions[i + 1] == rest[i];
      }
    }
  }

  // ----- The abstraction: a drain takes effect as a whole at its zero load -----

  predicate TotalStored(p: Drainer) {
    !p.SawZero? && !p.GotCursor? && !p.GotTotal?
  }

  // ----- What the tail of a drain still owes to the totals -----

  function OwedEntries(p: Drainer, r: Region): nat {
    if TotalStored(p) then 0 else r.cursor
  }

  function OwedDrains(p: Drainer): nat {
    if TotalStored(p) && !p.AddedTotal? then 0 else 1
  }

  function OwedResult(p: Drainer, r: Region): seq<DrainResult> {
    if TotalStored(p) then [] else [DrainResult(r.entries, r.cursor)]
  }

  /** The state as if the tail of drainer `d` had already run to its end. */
  function Finished(s: State, d: nat): State
    requires d < |s.drainers| && InTail(s.drainers[d])
  {
    var p := s.drainers[d];
    var r := s.At(p.side);
    s.With(p.side, Reset(r)).WithDrainer(d, Resting).(
      totalEntries := s.totalEntries + OwedEntries(p, r),
      totalDrains := s.totalDrains + OwedDrains(p),
      drains := s.drains + OwedResult(p, r))
  }

  /** What the drainer has in its registers is still what is in memory. */
  predicate TailFits(s: State, d: nat)
    requires d < |s.drainers|
  {
    var p := s.drainers[d];
    InTail(p) ==>
      var r := s.At(p.side);
      && ((p.GotCursor? || p.GotTotal?) ==> p.count == r.cursor)
      && (p.GotTotal? ==> p.total == s.totalEntries)
      && ((p.ClearedCursor? || p.ClearedWriters?) ==>
            r.cursor == 0 && r.claims == map[] && r.filled == {} && r.committed == {} && r.accepted == multiset{})
      && (p.ClearedWriters? ==> r.activeWriters == 0)
  }

  predicate StandsForFinished(s: State, abs: State, d: nat) {
    OnlyTail(s.drainers, d) && TailFits(s, d) && abs == Finished(s, d)
  }

  /** The atomic-tail state that a state at the grain of the code stands for. */
  ghost predicate StandsFor(s: State, abs: State) {
    || (NoTail(s.drainers) && abs == s)
    || exists d :: StandsForFinished(s, abs, d)
  }

  /** The zero load becomes the whole tail; its other steps disappear. */
  function Coarse(a: Action): seq<Action> {
    if a.SeeZero? then [DrainTail(a.d)] else if StepOfTail(a) then [] else [a]
  }

  function Coarsen(actions: seq<Action>): seq<Action> {
    if actions == [] then [] else Coarse(actions[0]) + Coarsen(actions[1..])
  }

  // ----- One step -----

  /** A region that reads as reset has no ticket holders. */
  lemma ResetHasNoHolders(r: Region, b: Side, ws: seq<Writer>, maxSlots: nat, t: nat)
    requires CountersFit(Reset(r), b, ws, maxSlots) && t < |ws|
    ensures Untouched(b, ws[t])
  {
    TallyAtLeast(ws, t, Holding, b);
  }

  lemma FinishedSide(s: State, d: nat)
    requires d < |s.drainers| && InTail(s.drainers[d])
    ensures var b, f := s.drainers[d].side, Finished(s, d);
      f.At(b) == Reset(s.At(b)) && f.writers == s.writers && f.maxSlots == s.maxSlots
  {
  }

  /** Inside the window every writer step happens on the other side, or is a look-up. */
  lemma WriterKeepsOut(s: State, d: nat, a: Action)
    requires OnlyTail(s.drainers, d) && RegionsFit(Finished(s, d))
    requires ByWriter(a) && Enabled(s, a) && RespectsWindow(s, a)
    ensures a.LookUp? || s.writers[a.t].side == Other(s.drainers[d].side)
  {
    var b := s.drainers[d].side;
    FinishedSide(s, d);
    SideFits(Finished(s, d), b);
    ResetHasNoHolders(s.At(b), b, s.writers, s.maxSlots, a.t);
  }

  /** What a step changes on the other side does not depend on whether the tail has run. */
  lemma MovedFinishes(s: State, d: nat, c: Side, r: Region, t: nat, w: Writer)
    requires d < |s.drainers| && InTail(s.drainers[d]) && c == Other(s.drainers[d].side) && t < |s.writers|
    ensures Finished(Moved(s, c, r, t, w), d) == Moved(Finished(s, d), c, r, t, w)
  {
    if c == 0 {
    } else {
    }
  }

  lemma MovedKeepsTail(s: State, d: nat, c: Side, r: Region, t: nat, w: Writer)
    requires OnlyTail(s.drainers, d) && TailFits(s, d) && c == Other(s.drainers[d].side) && t < |s.writers|
    ensures OnlyTail(Moved(s, c, r, t, w).drainers, d) && TailFits(Moved(s, c, r, t, w), d)
  {
  }

  lemma MovedCommutes(s: State, d: nat, c: Side, r: Region, t: nat, w: Writer)
    requires OnlyTail(s.drainers, d) && TailFits(s, d) && c == Other(s.drainers[d].side) && t < |s.writers|
    ensures OnlyTail(Moved(s, c, r, t, w).drainers, d) && TailFits(Moved(s, c, r, t, w), d)
    ensures Finished(Moved(s, c, r, t, w), d) == Moved(Finished(s, d), c, r, t, w)
    ensures Finished(s, d).At(c) == s.At(c) && Finished(s, d).writers == s.writers
  {
    MovedFinishes(s, d, c, r, t, w);
    MovedKeepsTail(s, d, c, r, t, w);
  }

  lemma LookUpKeepsTail(s: State, d: nat, t: nat, m: Message)
    requires OnlyTail(s.drainers, d) && TailFits(s, d) && Enabled(s, LookUp(t, m))
    ensures var s' := AfterWriter(s, LookUp(t, m)); OnlyTail(s'.drainers, d) && TailFits(s', d)
  {
  }

  lemma WriterFinishes(s: State, d: nat, t: nat, w: Writer)
    requires d < |s.drainers| && InTail(s.drainers[d]) && t < |s.writers|
    ensures Finished(s.WithWriter(t, w), d) == Finished(s, d).WithWriter(t, w)
  {
    if s.drainers[d].side == 0 {
    } else {
    }
  }

  lemma LookUpFinishes(s: State, d: nat, t: nat, m: Message)
    requires d < |s.drainers| && InTail(s.drainers[d]) && Enabled(s, LookUp(t, m))
    ensures Enabled(Finished(s, d), LookUp(t, m))
    ensures Finished(AfterWriter(s, LookUp(t, m)), d) == AfterWriter(Finished(s, d), LookUp(t, m))
  {
    var f := Finished(s, d);
    assert f.writers == s.writers && f.regionBit == s.regionBit;
    WriterFinishes(s, d, t, LookedUp(s.regionBit, m));
  }

  lemma AcceptedFinishes(s: State, d: nat, accepted: multiset<Message>)
    requires d < |s.drainers| && InTail(s.drainers[d])
    ensures Finished(s.(acceptedEver := accepted), d) == Finished(s, d).(acceptedEver := accepted)
  {
  }

  lemma MoveSimulates(s: State, d: nat, a: Action)
    requires OnlyTail(s.drainers, d) && TailFits(s, d)
    requires ByWriter(a) && !a.LookUp? && Enabled(s, a) && s.writers[a.t].side == Other(s.drainers[d].side)
    requires !Accepts(s.At(s.writers[a.t].side), s.maxSlots, s.writers[a.t])
    ensures OnlyTail(AfterWriter(s, a).drainers, d) && TailFits(AfterWriter(s, a), d)
    ensures Enabled(Finished(s, d), a) && Finished(AfterWriter(s, a), d) == AfterWriter(Finished(s, d), a)
  {
    var w := s.writers[a.t];
    var c, r := w.side, s.At(w.side);
    MovedCommutes(s, d, c, RegionAfter(r, s.maxSlots, a.t, w), a.t, WriterAfter(r, s.maxSlots, w));
    MovesOnly(s, a);
    MovesOnly(Finished(s, d), a);
  }

  lemma AcceptSimulates(s: State, d: nat, t: nat)
    requires OnlyTail(s.drainers, d) && TailFits(s, d)
    requires Enabled(s, FetchAdd(t)) && s.writers[t].side == Other(s.drainers[d].side)
    requires Accepts(s.At(s.writers[t].side), s.maxSlots, s.writers[t])
    ensures var a := FetchAdd(t);
      && OnlyTail(AfterWriter(s, a).drainers, d) && TailFits(AfterWriter(s, a), d)
      && Enabled(Finished(s, d), a) && Finished(AfterWriter(s, a), d) == AfterWriter(Finished(s, d), a)
  {
    var w := s.writers[t];
    var c, r := w.side, s.At(w.side);
    var r', w' := Claimed(r, t, w.message), Reserved(c, r.cursor, w.message);
    MovedCommutes(s, d, c, r', t, w');
    AcceptedFinishes(Moved(s, c, r', t, w'), d, s.acceptedEver + multiset{Kept(w.message)});
  }

  lemma WriterSimulates(s: State, d: nat, a: Action)
    requires OnlyTail(s.drainers, d) && TailFits(s, d)
    requires ByWriter(a) && !a.LookUp? && Enabled(s, a) && s.writers[a.t].side == Other(s.drainers[d].side)
    ensures OnlyTail(AfterWriter(s, a).drainers, d) && TailFits(AfterWriter(s, a), d)
    ensures Enabled(Finished(s, d), a)
    ensures Finished(AfterWriter(s, a), d) == AfterWriter(Finished(s, d), a)
  {
    if Accepts(s.At(s.writers[a.t].side), s.maxSlots, s.writers[a.t]) {
      AcceptSimulates(s, d, a.t);
    } else {
      MoveSimulates(s, d, a);
    }
  }

  // ----- Steps of drainers -----

  lemma OtherDrainerFinishes(s: State, d: nat, i: nat, p: Drainer, bit: Side)
    requires d < |s.drainers| && InTail(s.drainers[d]) && i < |s.drainers| && i != d
    ensures Finished(s.(regionBit := bit).WithDrainer(i, p), d) == Finished(s, d).(regionBit := bit).WithDrainer(i, p)
  {
    assert s.drainers[i := p][d := Resting] == s.drainers[d := Resting][i := p];
    if s.drainers[d].side == 0 {
    } else {
    }
  }

  lemma SwitchSimulates(s: State, d: nat, a: Action)
    requires OnlyTail(s.drainers, d) && TailFits(s, d) && (a.LoadBit? || a.FlipBit?) && Enabled(s, a)
    ensures OnlyTail(AfterDrainer(s, a).drainers, d) && TailFits(AfterDrainer(s, a), d)
    ensures Enabled(Finished(s, d), a)
    ensures Finished(AfterDrainer(s, a), d) == AfterDrainer(Finished(s, d), a)
  {
    var p := s.drainers[a.d];
    assert a.d != d;
    assert Finished(s, d).drainers[a.d] == p && Finished(s, d).regionBit == s.regionBit;
    if a.LoadBit? {
      OtherDrainerFinishes(s, d, a.d, LoadedBit(s.regionBit), s.regionBit);
    } else {
      OtherDrainerFinishes(s, d, a.d, Spinning(p.side), Other(p.side));
    }
  }

  lemma SeeZeroSimulates(s: State, d: nat)
    requires NoTail(s.drainers) && Enabled(s, SeeZero(d))
    ensures OnlyTail(AfterDrainer(s, SeeZero(d)).drainers, d) && TailFits(AfterDrainer(s, SeeZero(d)), d)
    ensures Enabled(s, DrainTail(d))
    ensures Finished(AfterDrainer(s, SeeZero(d)), d) == AfterDrainer(s, DrainTail(d))
  {
    var b := s.drainers[d].side;
    assert s.drainers[d := SawZero(b)][d := Resting] == s.drainers[d := Resting];
    if b == 0 {
    } else {
    }
  }

  lemma TailStepKeepsTail(s: State, d: nat, a: Action)
    requires OnlyTail(s.drainers, d) && TailFits(s, d) && StepOfTail(a) && !a.ClearCommitted? && Enabled(s, a)
    ensures a.d == d && OnlyTail(AfterDrainer(s, a).drainers, d) && TailFits(AfterDrainer(s, a), d)
  {
  }

  /** Once the cursor and the total are in registers, what remains to be done is fixed. */
  lemma LoadsStutter(s: State, d: nat, a: Action)
    requires d < |s.drainers| && (a == ReadCursor(d) || a == LoadTotal(d) || a == CountDrain(d)) && Enabled(s, a)
    ensures Finished(AfterDrainer(s, a), d) == Finished(s, d)
  {
    assert AfterDrainer(s, a).drainers[d := Resting] == s.drainers[d := Resting];
    if s.drainers[d].side == 0 {
    } else {
    }
  }

  lemma StoreTotalStutters(s: State, d: nat)
    requires OnlyTail(s.drainers, d) && TailFits(s, d) && Enabled(s, StoreTotal(d))
    ensures Finished(AfterDrainer(s, StoreTotal(d)), d) == Finished(s, d)
  {
    assert AfterDrainer(s, StoreTotal(d)).drainers[d := Resting] == s.drainers[d := Resting];
    if s.drainers[d].side == 0 {
    } else {
    }
  }

  lemma ClearsStutter(s: State, d: nat, a: Action)
    requires d < |s.drainers| && (a == ClearCursor(d) || a == ClearWriters(d)) && Enabled(s, a)
    ensures Finished(AfterDrainer(s, a), d) == Finished(s, d)
  {
    assert AfterDrainer(s, a).drainers[d := Resting] == s.drainers[d := Resting];
    if s.drainers[d].side == 0 {
    } else {
    }
  }

  /** The loads and stores between the zero load and the last store of the reset change nothing abstractly. */
  lemma TailStepStutters(s: State, d: nat, a: Action)
    requires OnlyTail(s.drainers, d) && TailFits(s, d) && StepOfTail(a) && !a.ClearCommitted? && Enabled(s, a)
    ensures a.d == d && OnlyTail(AfterDrainer(s, a).drainers, d) && TailFits(AfterDrainer(s, a), d)
    ensures Finished(AfterDrainer(s, a), d) == Finished(s, d)
  {
    TailStepKeepsTail(s, d, a);
    if a.StoreTotal? {
      StoreTotalStutters(s, d);
    } else if a.ClearCursor? || a.ClearWriters? {
      ClearsStutter(s, d, a);
    } else {
      LoadsStutter(s, d, a);
    }
  }

  lemma LastStepEndsTail(s: State, d: nat)
    requires OnlyTail(s.drainers, d) && TailFits(s, d) && Enabled(s, ClearCommitted(d))
    ensures NoTail(AfterDrainer(s, ClearCommitted(d)).drainers)
    ensures AfterDrainer(s, ClearCommitted(d)) == Finished(s, d)
  {
  }

  // ----- Whole runs -----

  lemma OneStepRun(s: State, a: Action)
    requires Enabled(s, a)
    ensures Run(s, [a]) == Some(After(s, a))
  {
    assert Run(After(s, a), []) == Some(After(s, a));
  }

  lemma DrainerStaysOut(s: State, a: Action)
    requires !ByWriter(a) && Enabled(s, a) && !a.SeeZero? && !InTail(s.drainers[a.d])
    ensures var s' := AfterDrainer(s, a);
      s'.drainers == s.drainers[a.d := s'.drainers[a.d]] && !InTail(s'.drainers[a.d])
  {
  }

  lemma NoTailStays(s: State, a: Action)
    requires NoTail(s.drainers) && Enabled(s, a) && !a.SeeZero?
    ensures NoTail(After(s, a).drainers)
  {
    if ByWriter(a) {
      WriterKeepsRest(s, a);
    } else {
      DrainerStaysOut(s, a);
    }
  }

  /** Outside all tails a step means itself, and a zero load means the whole tail. */
  lemma StepOutsideRefines(s: State, a: Action) returns (abs': State)
    requires NoTail(s.drainers) && Enabled(s, a) && RespectsWindow(s, a)
    ensures StandsFor(After(s, a), abs') && Run(s, Coarse(a)) == Some(abs') && AtomicTails(Coarse(a))
  {
    if a.SeeZero? {
      SeeZeroSimulates(s, a.d);
      abs' := AfterDrainer(s, DrainTail(a.d));
      OneStepRun(s, DrainTail(a.d));
      assert StandsForFinished(After(s, a), abs', a.d);
    } else {
      abs' := After(s, a);
      OneStepRun(s, a);
      assert NoTail(After(s, a).drainers) by {
        NoTailStays(s, a);
      }
    }
  }

  lemma WriterInsideSimulates(s: State, d: nat, a: Action)
    requires OnlyTail(s.drainers, d) && TailFits(s, d) && RegionsFit(Finished(s, d))
    requires ByWriter(a) && Enabled(s, a) && RespectsWindow(s, a)
    ensures OnlyTail(After(s, a).drainers, d) && TailFits(After(s, a), d)
    ensures Enabled(Finished(s, d), a) && Finished(After(s, a), d) == After(Finished(s, d), a)
  {
    WriterKeepsOut(s, d, a);
    if a.LookUp? {
      LookUpKeepsTail(s, d, a.t, a.message);
      LookUpFinishes(s, d, a.t, a.message);
    } else {
      WriterSimulates(s, d, a);
    }
  }

  lemma TailStepRefines(s: State, d: nat, a: Action)
    requires OnlyTail(s.drainers, d) && TailFits(s, d) && StepOfTail(a) && Enabled(s, a)
    ensures StandsFor(After(s, a), Finished(s, d))
  {
    if a.ClearCommitted? {
      assert a.d == d;
      LastStepEndsTail(s, d);
    } else {
      TailStepStutters(s, d, a);
      assert StandsForFinished(After(s, a), Finished(s, d), d);
    }
  }

  /** A step outside the tail, as the finished state takes it. */
  lemma OtherStepSimulates(s: State, d: nat, a: Action)
    requires OnlyTail(s.drainers, d) && TailFits(s, d) && RegionsFit(Finished(s, d))
    requires Enabled(s, a) && RespectsWindow(s, a) && !StepOfTail(a)
    ensures Enabled(Finished(s, d), a) && StandsForFinished(After(s, a), After(Finished(s, d), a), d)
  {
    if ByWriter(a) {
      WriterInsideSimulates(s, d, a);
    } else {
      SwitchSimulates(s, d, a);
    }
  }

  /** Inside the tail of `d`, its own steps disappear and every other step means itself. */
  lemma StepInsideRefines(s: State, d: nat, a: Action, f: State) returns (abs': State)
    requires StandsForFinished(s, f, d) && RegionsFit(f)
    requires Enabled(s, a) && RespectsWindow(s, a)
    ensures StandsFor(After(s, a), abs') && Run(f, Coarse(a)) == Some(abs') && AtomicTails(Coarse(a))
  {
    if StepOfTail(a) {
      abs' := f;
      TailStepRefines(s, d, a);
    } else {
      OtherStepSimulates(s, d, a);
      abs' := After(f, a);
      OneStepRun(f, a);
    }
  }

  lemma StepFromRefines(s: State, a: Action, abs: State) returns (abs': State)
    requires StandsFor(s, abs) && RegionsFit(abs)
    requires Enabled(s, a) && RespectsWindow(s, a)
    ensures StandsFor(After(s, a), abs') && Run(abs, Coarse(a)) == Some(abs') && AtomicTails(Coarse(a))
  {
    if NoTail(s.drainers) {
      abs' := StepOutsideRefines(s, a);
    } else {
      var d :| StandsForFinished(s, abs, d);
      abs' := StepInsideRefines(s, d, a, abs);
    }
  }

  /** One step at the grain of the code is one step, the whole tail, or nothing. */
  lemma StepRefines(s0: State, done: seq<Action>, s: State, a: Action, abs: State) returns (abs': State)
    requires Reached(s0, done, abs) && StandsFor(s, abs)
    requires Enabled(s, a) && RespectsWindow(s, a)
    ensures Reached(s0, done + Coarse(a), abs') && StandsFor(After(s, a), abs')
  {
    assert RegionsFit(abs) by {
      ReachedKeepsInvariant(s0, done, abs);
    }
    abs' := StepFromRefines(s, a, abs);
    RunConcat(s0, done, Coarse(a));
  }

  lemma CoarsenHead(done: seq<Action>, actions: seq<Action>)
    requires actions != []
    ensures done + Coarse(actions[0]) + Coarsen(actions[1..]) == done + Coarsen(actions)
  {
  }

  lemma {:induction false} RunRefines(s0: State, done: seq<Action>, s: State, actions: seq<Action>, e: State,
                                      abs: State)
    returns (all: seq<Action>, abs': State)
    requires Reached(s0, done, abs) && StandsFor(s, abs)
    requires Run(s, actions) == Some(e) && RespectsWindows(s, actions)
    ensures all == done + Coarsen(actions) && Reached(s0, all, abs') && StandsFor(e, abs')
    decreases |actions|
  {
    if actions == [] {
      all, abs' := done, abs;
    } else {
      var mid := StepRefines(s0, done, s, actions[0], abs);
      all, abs' := RunRefines(s0, done + Coarse(actions[0]), After(s, actions[0]), actions[1..], e, mid);
      CoarsenHead(done, actions);
    }
  }

  /** Every run at the grain of the code that respects the windows does what the run with each drain's tail
      moved, as one step, to its zero load does; so everything proved about those runs holds of it. */
  lemma CodeRefinesAtomicDrains(s0: State, actions: seq<Action>, s: State) returns (abs: State)
    requires Initial(s0) && Run(s0, actions) == Some(s) && RespectsWindows(s0, actions)
    ensures Reached(s0, Coarsen(actions), abs) && StandsFor(s, abs)
  {
    assert NoTail(s0.drainers);
    assert Reached(s0, [], s0);
    var all;
    all, abs := RunRefines(s0, [], s0, actions, s, s0);
    assert all == Coarsen(actions);
  }

  /** In particular, whenever no drain is in its tail, no accepted message is lost or counted twice. */
  lemma CodeLosesNothing(s0: State, actions: seq<Action>, s: State)
    requires Initial(s0) && Run(s0, actions) == Some(s) && RespectsWindows(s0, actions) && NoTail(s.drainers)
    ensures s.acceptedEver == DrainedMessages(s.drains) + s.rwA.accepted + s.rwB.accepted
    ensures |s.acceptedEver| == s.totalEntries + |s.rwA.claims| + |s.rwB.claims|
    ensures |DrainedMessages(s.drains)| == s.totalEntries
  {
    var abs := CodeRefinesAtomicDrains(s0, actions, s);
    assert abs == s;
    NothingLost(s0, Coarsen(actions), s);
    ReachedKeepsInvariant(s0, Coarsen(actions), s);
  }
}
