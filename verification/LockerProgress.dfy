/** The spin of a drain ends: with one drainer, nobody can look up the old region after the flip, and every
    step of a thread that had looked it up brings the ticket count closer to zero. */
module LockerProgress {
  import opened Base
  import opened Entry
  import opened LockerWriter
  import opened LockerInvariant
  import opened LockerDrift
  import opened LockerTheorems

  /** The steps thread `w` has left to take on side `b`, at most. */
  function Remaining(b: Side, w: Writer): nat {
    if w.Idle? || w.side != b then 0
    else match w
      case LookedUp(_, _) => 6
      case Ticketed(_, _) => 5
      case Reserved(_, _, _) => 4
      case HeaderWritten(_, _, _) => 3
      case Filled(_, _, _) => 2
      case Committed(_, _, _) => 1
      case Overflowed(_) => 2
      case RolledBack(_) => 1
  }

  function TotalRemaining(ws: seq<Writer>, b: Side): nat {
    if ws == [] then 0 else TotalRemaining(ws[..|ws| - 1], b) + Remaining(b, ws[|ws| - 1])
  }

  /** How many threads have looked side `b` up and not come back from it. */
  function Visitors(ws: seq<Writer>, b: Side): nat {
    if ws == [] then 0
    else Visitors(ws[..|ws| - 1], b) + (if Remaining(b, ws[|ws| - 1]) > 0 then 1 else 0)
  }

  lemma {:induction false} TotalUpdate(ws: seq<Writer>, t: nat, w: Writer, b: Side)
    requires t < |ws|
    ensures TotalRemaining(ws[t := w], b) == TotalRemaining(ws, b) - Remaining(b, ws[t]) + Remaining(b, w)
  {
    var n := |ws| - 1;
    if t == n {
      assert ws[t := w][..n] == ws[..n];
    } else {
      assert ws[t := w][..n] == ws[..n][t := w];
      TotalUpdate(ws[..n], t, w, b);
    }
  }

  lemma {:induction false} TotalBounds(ws: seq<Writer>, b: Side)
    ensures Tally(ws, Holding, b) <= TotalRemaining(ws, b) <= 6 * Visitors(ws, b)
  {
    if ws != [] {
      TotalBounds(ws[..|ws| - 1], b);
    }
  }

  /** If there are steps left on side `b`, some thread is there to take one. */
  lemma {:induction false} SomeVisitor(ws: seq<Writer>, b: Side) returns (t: nat)
    requires TotalRemaining(ws, b) > 0
    ensures t < |ws| && Remaining(b, ws[t]) > 0
  {
    t := |ws| - 1;
    if Remaining(b, ws[t]) == 0 {
      t := SomeVisitor(ws[..t], b);
    }
  }

  /** The next operation of a thread that is inside a write; it is never blocked. */
  function NextOf(t: nat, w: Writer): Action
    requires !w.Idle?
  {
    match w
    case LookedUp(_, _) => TakeTicket(t)
    case Ticketed(_, _) => FetchAdd(t)
    case Overflowed(_) => RollBack(t)
    case Reserved(_, _, _) => StoreHeader(t)
    case HeaderWritten(_, _, _) => CopyPayload(t)
    case Filled(_, _, _) => Commit(t)
    case RolledBack(_) => ReturnTicket(t)
    case Committed(_, _, _) => ReturnTicket(t)
  }

  lemma NextIsEnabled(s: State, t: nat)
    requires t < |s.writers| && !s.writers[t].Idle?
    ensures Enabled(s, NextOf(t, s.writers[t]))
  {
  }

  predicate OnSide(s: State, a: Action, b: Side)
    requires ByWriter(a) && Enabled(s, a)
  {
    !s.writers[a.t].Idle? && s.writers[a.t].side == b
  }

  /** How many steps of a schedule are taken by threads that are on side `b` at that moment. */
  function StepsOn(s: State, actions: seq<Action>, b: Side): nat
    requires WritersOnly(actions) && Run(s, actions).Some?
    decreases |actions|
  {
    if actions == [] then 0
    else (if OnSide(s, actions[0], b) then 1 else 0) + StepsOn(After(s, actions[0]), actions[1..], b)
  }

  lemma OnlyOwnThreadMoves(s: State, a: Action)
    requires ByWriter(a) && Enabled(s, a)
    ensures var s' := AfterWriter(s, a);
      && s'.regionBit == s.regionBit && s'.drainers == s.drainers
      && |s'.writers| == |s.writers| && s'.writers == s.writers[a.t := s'.writers[a.t]]
  {
    WriterKeepsRest(s, a);
    if !a.LookUp? {
      WriterSteps(s, a);
    }
  }

  /** Each step of a thread uses up one of its remaining steps. */
  lemma WriterGoesOn(r: Region, maxSlots: u32, w: Writer, b: Side)
    requires !w.Idle?
    ensures Remaining(b, WriterAfter(r, maxSlots, w)) + (if w.side == b then 1 else 0) <= Remaining(b, w)
  {
  }

  lemma OwnStepsLeft(s: State, a: Action, b: Side)
    requires ByWriter(a) && Enabled(s, a) && s.regionBit == Other(b)
    ensures Remaining(b, AfterWriter(s, a).writers[a.t])
      + (if OnSide(s, a, b) then 1 else 0) <= Remaining(b, s.writers[a.t])
  {
    if a.LookUp? {
      assert AfterWriter(s, a).writers[a.t] == LookedUp(s.regionBit, a.message);
    } else {
      WriterSteps(s, a);
      WriterGoesOn(s.At(s.writers[a.t].side), s.maxSlots, s.writers[a.t], b);
    }
  }

  lemma StepBringsCloser(s: State, a: Action, b: Side)
    requires ByWriter(a) && Enabled(s, a) && s.regionBit == Other(b)
    ensures var s' := AfterWriter(s, a);
      && s'.regionBit == Other(b) && s'.drainers == s.drainers
      && TotalRemaining(s'.writers, b) + (if OnSide(s, a, b) then 1 else 0) <= TotalRemaining(s.writers, b)
  {
    OnlyOwnThreadMoves(s, a);
    OwnStepsLeft(s, a, b);
    TotalUpdate(s.writers, a.t, AfterWriter(s, a).writers[a.t], b);
  }

  lemma {:induction false} RunBringsCloser(s: State, actions: seq<Action>, b: Side)
    requires WritersOnly(actions) && Run(s, actions).Some? && s.regionBit == Other(b)
    ensures var e := Run(s, actions).value;
      && e.regionBit == Other(b) && e.drainers == s.drainers
      && TotalRemaining(e.writers, b) + StepsOn(s, actions, b) <= TotalRemaining(s.writers, b)
    decreases |actions|
  {
    if actions != [] {
      StepBringsCloser(s, actions[0], b);
      RunBringsCloser(After(s, actions[0]), actions[1..], b);
    }
  }

  // ----- A single drainer really flips -----

  ghost predicate Flipped(s: State) {
    && |s.drainers| == 1
    && (s.drainers[0].LoadedBit? ==> s.regionBit == s.drainers[0].side)
    && (s.drainers[0].Spinning? ==> s.regionBit == Other(s.drainers[0].side))
  }

  lemma DrainerFlips(s: State, a: Action)
    requires Flipped(s) && !ByWriter(a) && Enabled(s, a)
    ensures Flipped(AfterDrainer(s, a))
  {
  }

  lemma StepFlips(s: State, a: Action)
    requires Flipped(s) && Enabled(s, a)
    ensures Flipped(After(s, a))
  {
    if ByWriter(a) {
      OnlyOwnThreadMoves(s, a);
    } else {
      DrainerFlips(s, a);
    }
  }

  lemma {:induction false} RunFlips(s: State, actions: seq<Action>)
    requires Flipped(s) && Run(s, actions).Some?
    ensures Flipped(Run(s, actions).value)
    decreases |actions|
  {
    if actions != [] {
      StepFlips(s, actions[0]);
      RunFlips(After(s, actions[0]), actions[1..]);
    }
  }

  // ----- The theorems -----

  /** After any run, at either grain, the database's only drainer has flipped away from side `b` and spins. */
  ghost predicate SpinsAlone(s0: State, before: seq<Action>, s: State, b: Side) {
    Initial(s0) && Run(s0, before) == Some(s) && |s0.drainers| == 1 && s.drainers != [] && s.drainers[0] == Spinning(b)
  }

  lemma SpinnerHasFlipped(s0: State, before: seq<Action>, s: State, b: Side)
    requires SpinsAlone(s0, before, s, b)
    ensures s.regionBit == Other(b) && |s.drainers| == 1
  {
    RunFlips(s0, before);
    RunSizesStay(s0, before, s);
  }

  lemma StillSpins(s0: State, before: seq<Action>, s: State, b: Side, during: seq<Action>, e: State)
    requires SpinsAlone(s0, before, s, b) && WritersOnly(during) && Run(s, during) == Some(e)
    ensures e.drainers == s.drainers && |e.drainers| == 1
    ensures StepsOn(s, during, b) + TotalRemaining(e.writers, b) <= 6 * Visitors(s.writers, b)
    ensures e.At(b).activeWriters <= Tally(e.writers, Holding, b) <= TotalRemaining(e.writers, b)
  {
    RunConcat(s0, before, during);
    SpinnerHasFlipped(s0, before, s, b);
    RunBringsCloser(s, during, b);
    TotalBounds(s.writers, b);
    TotalBounds(e.writers, b);
    CountersAre(s0, before + during, e, b);
  }

  /** However the writers are scheduled while the drainer spins, and whatever stale writers did before: the steps taken
      on the old side plus the tickets still counted there never exceed six per thread that was on that side at the
      flip, and as long as a ticket is counted some thread there has a step to take. So once the threads of the old
      side have taken all their steps no ticket is counted and the drain goes on. */
  lemma SpinEnds(s0: State, before: seq<Action>, s: State, b: Side, during: seq<Action>, e: State)
    requires SpinsAlone(s0, before, s, b)
    requires WritersOnly(during) && Run(s, during) == Some(e)
    ensures StepsOn(s, during, b) + e.At(b).activeWriters <= 6 * Visitors(s.writers, b)
    ensures e.At(b).activeWriters > 0 ==>
      exists t :: 0 <= t < |e.writers| && Remaining(b, e.writers[t]) > 0 && Enabled(e, NextOf(t, e.writers[t]))
    ensures StepsOn(s, during, b) == 6 * Visitors(s.writers, b) ==> Enabled(e, SeeZero(0)) && Enabled(e, DrainTail(0))
  {
    StillSpins(s0, before, s, b, during, e);
    if e.At(b).activeWriters > 0 {
      var t := SomeVisitor(e.writers, b);
      NextIsEnabled(e, t);
    }
  }

  lemma {:induction false} FinishOldSide(s: State, b: Side) returns (during: seq<Action>)
    requires s.regionBit == Other(b)
    ensures WritersOnly(during) && |during| <= TotalRemaining(s.writers, b)
    ensures Run(s, during).Some? && TotalRemaining(Run(s, during).value.writers, b) == 0
    decreases TotalRemaining(s.writers, b)
  {
    if TotalRemaining(s.writers, b) == 0 {
      during := [];
    } else {
      var t := SomeVisitor(s.writers, b);
      var a := NextOf(t, s.writers[t]);
      StepBringsCloser(s, a, b);
      var rest := FinishOldSide(After(s, a), b);
      during := [a] + rest;
      assert during[1..] == rest;
    }
  }

  /** And there is such a schedule, no longer than six steps per thread that was on the old side. After it no thread
      has a ticket there, so the count is zero, or below it by the tickets owed to an earlier reset. */
  lemma SpinCanEnd(s0: State, before: seq<Action>, s: State, b: Side) returns (during: seq<Action>, e: State)
    requires SpinsAlone(s0, before, s, b)
    ensures WritersOnly(during) && |during| <= 6 * Visitors(s.writers, b)
    ensures Run(s, during) == Some(e) && Run(s0, before + during) == Some(e)
    ensures Tally(e.writers, Holding, b) == 0 && e.At(b).activeWriters + Owed(s0, before + during, Holding, b, 0) == 0
    ensures Enabled(e, SeeZero(0)) && Enabled(e, DrainTail(0))
  {
    SpinnerHasFlipped(s0, before, s, b);
    during := FinishOldSide(s, b);
    e := Run(s, during).value;
    TotalBounds(s.writers, b);
    StillSpins(s0, before, s, b, during, e);
    RunConcat(s0, before, during);
    CountersAre(s0, before + during, e, b);
  }

  // ----- Two drains at once -----

  /** Two drains that both load the bit before either stores it spin on the same side, and the bit flips once. */
  lemma TwoDrainsFlipOnce(s: State, d: nat, d': nat) returns (e: State)
    requires d < |s.drainers| && d' < |s.drainers| && d != d' && s.drainers[d].Resting? && s.drainers[d'].Resting?
    ensures Run(s, [LoadBit(d), LoadBit(d')] + [FlipBit(d), FlipBit(d')]) == Some(e)
    ensures var b := s.regionBit;
      e == s.(regionBit := 1 - b, drainers := s.drainers[d := Spinning(b)][d' := Spinning(b)])
  {
    var b := s.regionBit;
    var s1 := s.WithDrainer(d, LoadedBit(b));
    var s2 := s1.WithDrainer(d', LoadedBit(b));
    var s3 := s2.(regionBit := Other(b)).WithDrainer(d, Spinning(b));
    e := s3.WithDrainer(d', Spinning(b));
    LoadsBit(s, d);
    LoadsBit(s1, d');
    TwoSteps(s, LoadBit(d), s1, LoadBit(d'), s2);
    FlipsBit(s2, d, b);
    FlipsBit(s3, d', b);
    TwoSteps(s2, FlipBit(d), s3, FlipBit(d'), e);
    RunConcat(s, [LoadBit(d), LoadBit(d')], [FlipBit(d), FlipBit(d')]);
    assert e.drainers == s.drainers[d := Spinning(b)][d' := Spinning(b)];
  }

  /** Two drains that both load the total before either stores it count only what the later one found. */
  lemma TwoDrainsCountOnce(s: State, d: nat, b: Side, n: nat, d': nat, b': Side, n': nat) returns (e: State)
    requires d < |s.drainers| && d' < |s.drainers| && d != d'
    requires s.drainers[d] == GotCursor(b, n) && s.drainers[d'] == GotCursor(b', n')
    ensures Run(s, [LoadTotal(d), LoadTotal(d')] + [StoreTotal(d), StoreTotal(d')]) == Some(e)
    ensures e.totalEntries == s.totalEntries + n'
    ensures e.drains == s.drains + [DrainResult(s.At(b).entries, n), DrainResult(s.At(b').entries, n')]
  {
    var s1 := s.WithDrainer(d, GotTotal(b, n, s.totalEntries));
    var s2 := s1.WithDrainer(d', GotTotal(b', n', s.totalEntries));
    LoadsTotal(s, d, b, n);
    LoadsTotal(s1, d', b', n');
    TwoSteps(s, LoadTotal(d), s1, LoadTotal(d'), s2);
    var found, found' := DrainResult(s.At(b).entries, n), DrainResult(s.At(b').entries, n');
    StoresTotal(s2, d, b, n, s.totalEntries);
    var s3 := s2.(totalEntries := s.totalEntries + n, drains := s.drains + [found]).WithDrainer(d, AddedTotal(b, n));
    StoresTotal(s3, d', b', n', s.totalEntries);
    assert s3.drains + [found'] == s.drains + [found, found'];
    e := s3.(totalEntries := s.totalEntries + n', drains := s.drains + [found, found'])
         .WithDrainer(d', AddedTotal(b', n'));
    TwoSteps(s2, StoreTotal(d), s3, StoreTotal(d'), e);
    RunConcat(s, [LoadTotal(d), LoadTotal(d')], [StoreTotal(d), StoreTotal(d')]);
  }

  // ----- When the bound holds -----

  /** After some run of the code drainer `d` has flipped away from side `b` and spins; then only writers run. */
  ghost predicate SpinRun(s0: State, before: seq<Action>, s: State, d: nat, b: Side, during: seq<Action>, e: State) {
    && CodeRun(s0, before, s) && d < |s.drainers| && s.drainers[d] == Spinning(b)
    && WritersOnly(during) && Run(s, during) == Some(e)
  }

  /** The steps taken on the side, and the tickets still out, stay within six for each thread that was there. */
  predicate WithinBound(s: State, b: Side, during: seq<Action>, e: State)
    requires WritersOnly(during) && Run(s, during) == Some(e)
  {
    StepsOn(s, during, b) + e.At(b).activeWriters <= 6 * Visitors(s.writers, b)
  }

  lemma {:induction false} NobodyVisits(ws: seq<Writer>, b: Side)
    requires forall t :: 0 <= t < |ws| ==> ws[t].Idle?
    ensures Visitors(ws, b) == 0
  {
    if ws != [] {
      NobodyVisits(ws[..|ws| - 1], b);
    }
  }

  /** Two drainers flip the bit away from region A and back to it. */
  lemma FlipTwice(s0: State) returns (before: seq<Action>, s: State)
    requires Initial(s0) && |s0.drainers| >= 2
    ensures CodeRun(s0, before, s)
    ensures s == s0.(drainers := s0.drainers[0 := Spinning(0)][1 := Spinning(1)])
  {
    before := [LoadBit(0), FlipBit(0), LoadBit(1), FlipBit(1)];
    var s1 := s0.(drainers := s0.drainers[0 := LoadedBit(0)]);
    RunCons(s0, before, s1);
    var s2 := s0.(drainers := s0.drainers[0 := Spinning(0)], regionBit := 1);
    assert s1.drainers[0 := Spinning(0)] == s2.drainers;
    RunCons(s1, before[1..], s2);
    var s3 := s2.(drainers := s2.drainers[1 := LoadedBit(1)]);
    RunCons(s2, before[1..][1..], s3);
    s := s0.(drainers := s0.drainers[0 := Spinning(0)][1 := Spinning(1)]);
    assert s3.drainers[1 := Spinning(1)] == s.drainers;
    RunCons(s3, before[1..][1..][1..], s);
  }

  /** A writer that comes after both flips takes a ticket on the region that the first drainer waits for. */
  lemma TicketAfterFlips(s: State, m: Message) returns (during: seq<Action>, e: State)
    requires s.regionBit == 0 && s.writers != [] && s.writers[0].Idle? && s.rwA.activeWriters == 0
    ensures WritersOnly(during) && Run(s, during) == Some(e)
    ensures StepsOn(s, during, 0) == 1 && e.rwA.activeWriters == 1
  {
    during := [LookUp(0, m), TakeTicket(0)];
    var s1 := s.(writers := s.writers[0 := LookedUp(0, m)]);
    RunCons(s, during, s1);
    e := After(s1, TakeTicket(0));
    RunCons(s1, during[1..], e);
    assert StepsOn(s1, during[1..], 0) == 1 + StepsOn(e, during[1..][1..], 0);
    assert StepsOn(s, during, 0) == StepsOn(s1, during[1..], 0);
  }

  /** With a second drainer the bound fails: threads come to the old side after the flip. */
  lemma SecondDrainerBreaksBound(s0: State, m: Message)
    returns (before: seq<Action>, s: State, during: seq<Action>, e: State)
    requires Initial(s0) && |s0.drainers| >= 2 && |s0.writers| >= 1
    ensures SpinRun(s0, before, s, 0, 0, during, e) && !WithinBound(s, 0, during, e)
  {
    before, s := FlipTwice(s0);
    during, e := TicketAfterFlips(s, m);
    NobodyVisits(s.writers, 0);
  }

  lemma NoWritersWithinBound(s0: State, before: seq<Action>, s: State, d: nat, b: Side, during: seq<Action>, e: State)
    requires SpinRun(s0, before, s, d, b, during, e) && |s0.writers| == 0
    ensures WithinBound(s, b, during, e)
  {
    RunSizesStay(s0, before, s);
    assert during == [] by {
      assert during != [] ==> ByWriter(during[0]);
    }
    CountersAre(s0, before, s, b);
  }

  lemma LoneDrainerWithinBound(s0: State, before: seq<Action>, s: State, d: nat, b: Side, during: seq<Action>, e: State)
    requires SpinRun(s0, before, s, d, b, during, e) && |s0.drainers| <= 1
    ensures WithinBound(s, b, during, e)
  {
    RunSizesStay(s0, before, s);
    SpinEnds(s0, before, s, b, during, e);
  }

  /** The bound on the spin holds in every run of the code exactly when there are no writers or at most one drainer. */
  lemma SpinIsBoundedExactlyWhen(s0: State)
    requires Initial(s0)
    ensures (forall before, s, d, b, during, e ::
               SpinRun(s0, before, s, d, b, during, e) ==> WithinBound(s, b, during, e))
       <==> |s0.writers| == 0 || |s0.drainers| <= 1
  {
    if |s0.writers| == 0 || |s0.drainers| <= 1 {
      forall before, s, d, b, during, e | SpinRun(s0, before, s, d, b, during, e)
        ensures WithinBound(s, b, during, e)
      {
        if |s0.writers| == 0 {
          NoWritersWithinBound(s0, before, s, d, b, during, e);
        } else {
          LoneDrainerWithinBound(s0, before, s, d, b, during, e);
        }
      }
    } else {
      var before, s, during, e := SecondDrainerBreaksBound(s0, Message(0, []));
    }
  }
}
