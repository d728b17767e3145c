/** Both counters of a region in every run, at either grain and with nothing assumed about when anything happens:
    what they ought to be, less what was still out when they were last stored as zero. */
module LockerDrift {
  import opened Base
  import opened Entry
  import opened LockerWriter
  import opened LockerInvariant
  import opened LockerTheorems

  /** The cursor of side `b` counts what was accepted and what is to be rolled back, less the `owed` roll-backs
      that were pending at the reset, modulo 2^32. */
  ghost predicate CursorDrifts(s: State, b: Side, owed: nat) {
    var r, pending := s.At(b), Tally(s.writers, Pending, b);
    var v := |r.accepted| + pending - owed;
    && Sized(s) && owed < TWO_31 && |r.accepted| - owed <= s.maxSlots && pending <= |s.writers|
    && r.cursor == (if v < 0 then v + TWO_32 else v)
  }

  /** The ticket count of side `b` is what it should be less the `owed` tickets that were out at its reset. */
  ghost predicate TicketsDrift(s: State, b: Side, owed: nat) {
    Sized(s) && owed < TWO_31 - 1 && s.At(b).activeWriters == Tally(s.writers, Holding, b) - owed
  }

  /** What one step of a thread does to a region's cursor, with `up` more roll-backs pending. */
  predicate CursorStep(r: Region, r': Region, maxSlots: u32, up: int) {
    || (r'.cursor == r.cursor && r'.accepted == r.accepted && up == 0)
    || (r'.cursor == Inc32(r.cursor) && r.cursor >= maxSlots && r'.accepted == r.accepted && up == 1)
    || (r'.cursor == Inc32(r.cursor) && r.cursor < maxSlots && |r'.accepted| == |r.accepted| + 1 && up == 0)
    || (r'.cursor == Dec32(r.cursor) && r'.accepted == r.accepted && up == -1)
  }

  /** And to its ticket count, with `up` more tickets out. */
  predicate TicketStep(r: Region, r': Region, up: int) {
    || (r'.activeWriters == r.activeWriters && up == 0)
    || (r'.activeWriters == IncSigned32(r.activeWriters) && up == 1)
    || (r'.activeWriters == DecSigned32(r.activeWriters) && up == -1)
  }

  /** What a step of thread `t` to `w` changes about side `b`. */
  predicate CursorMoves(s: State, s': State, b: Side, t: nat, w: Writer) {
    && t < |s.writers| && s'.writers == s.writers[t := w] && s'.maxSlots == s.maxSlots
    && CursorStep(s.At(b), s'.At(b), s.maxSlots, Change(Pending, b, s.writers[t], w))
  }

  lemma CursorMoveDrifts(s: State, s': State, b: Side, t: nat, w: Writer, owed: nat)
    requires CursorDrifts(s, b, owed) && CursorMoves(s, s', b, t, w)
    ensures CursorDrifts(s', b, owed)
  {
    TallyUpdate(s.writers, t, w, Pending, b);
    TallyAtMost(s'.writers, Pending, b);
  }

  predicate TicketsMove(s: State, s': State, b: Side, t: nat, w: Writer) {
    && t < |s.writers| && s'.writers == s.writers[t := w] && s'.maxSlots == s.maxSlots
    && TicketStep(s.At(b), s'.At(b), Change(Holding, b, s.writers[t], w))
  }

  lemma TicketMoveDrifts(s: State, s': State, b: Side, t: nat, w: Writer, owed: nat)
    requires TicketsDrift(s, b, owed) && TicketsMove(s, s', b, t, w)
    ensures TicketsDrift(s', b, owed)
  {
    TallyUpdate(s.writers, t, w, Holding, b);
    TallyAtMost(s.writers, Holding, b);
    TallyAtMost(s'.writers, Holding, b);
  }

  lemma RegionMoves(r: Region, maxSlots: u32, t: nat, w: Writer, b: Side)
    requires !w.Idle? && w.side == b
    ensures var r', w' := RegionAfter(r, maxSlots, t, w), WriterAfter(r, maxSlots, w);
      CursorStep(r, r', maxSlots, Change(Pending, b, w, w')) && TicketStep(r, r', Change(Holding, b, w, w'))
  {
  }

  /** A thread on the other side contributes nothing here, before or after its step. */
  lemma OtherSideWeighsNothing(r: Region, maxSlots: u32, w: Writer, k: Kind, b: Side)
    requires !w.Idle? && w.side != b
    ensures Weight(k, b, w) == Weight(k, b, WriterAfter(r, maxSlots, w)) == 0
  {
  }

  lemma MovesInParts(s: State, s': State, b: Side, t: nat, w: Writer, r: Region)
    requires t < |s.writers| && s'.writers == s.writers[t := w] && s'.maxSlots == s.maxSlots && s'.At(b) == r
    requires CursorStep(s.At(b), r, s.maxSlots, Change(Pending, b, s.writers[t], w))
    requires TicketStep(s.At(b), r, Change(Holding, b, s.writers[t], w))
    ensures CursorMoves(s, s', b, t, w) && TicketsMove(s, s', b, t, w)
  {
  }

  lemma LookUpMoves(s: State, t: nat, m: Message, b: Side)
    requires Enabled(s, LookUp(t, m))
    ensures var s', w := AfterWriter(s, LookUp(t, m)), LookedUp(s.regionBit, m);
      CursorMoves(s, s', b, t, w) && TicketsMove(s, s', b, t, w)
  {
  }

  lemma SameSideMoves(s: State, a: Action, w: Writer, b: Side, r: Region)
    requires ByWriter(a) && !a.LookUp? && Enabled(s, a) && s.writers[a.t] == w && !w.Idle? && w.side == b
      && s.At(b) == r
    ensures var s', w' := AfterWriter(s, a), WriterAfter(r, s.maxSlots, w);
      CursorMoves(s, s', b, a.t, w') && TicketsMove(s, s', b, a.t, w')
  {
    WriterSteps(s, a);
    WriterKeepsRest(s, a);
    RegionMoves(r, s.maxSlots, a.t, w, b);
    MovesInParts(s, AfterWriter(s, a), b, a.t, WriterAfter(r, s.maxSlots, w), RegionAfter(r, s.maxSlots, a.t, w));
  }

  lemma OtherSideMoves(s: State, a: Action, w: Writer, b: Side, r: Region)
    requires ByWriter(a) && !a.LookUp? && Enabled(s, a) && s.writers[a.t] == w && !w.Idle? && w.side == Other(b)
    requires s.At(w.side) == r
    ensures var s', w' := AfterWriter(s, a), WriterAfter(r, s.maxSlots, w);
      CursorMoves(s, s', b, a.t, w') && TicketsMove(s, s', b, a.t, w')
  {
    WriterSteps(s, a);
    WriterKeepsRest(s, a);
    OtherSideWeighsNothing(r, s.maxSlots, w, Pending, b);
    OtherSideWeighsNothing(r, s.maxSlots, w, Holding, b);
    MovesInParts(s, AfterWriter(s, a), b, a.t, WriterAfter(r, s.maxSlots, w), s.At(b));
  }

  lemma WriterMoves(s: State, a: Action, b: Side) returns (w: Writer)
    requires ByWriter(a) && Enabled(s, a)
    ensures var s' := AfterWriter(s, a); CursorMoves(s, s', b, a.t, w) && TicketsMove(s, s', b, a.t, w)
  {
    if a.LookUp? {
      LookUpMoves(s, a.t, a.message, b);
      w := LookedUp(s.regionBit, a.message);
    } else {
      var v := s.writers[a.t];
      var r := s.At(v.side);
      w := WriterAfter(r, s.maxSlots, v);
      if v.side == b {
        SameSideMoves(s, a, v, b, r);
      } else {
        OtherSideMoves(s, a, v, b, r);
      }
    }
  }

  // ----- Whole runs -----

  /** The step stores zero into the counter of side `b` that counts `k`: the cursor if what is pending, the ticket
      count if what is held. */
  predicate Clears(s: State, a: Action, k: Kind, b: Side)
    requires Enabled(s, a)
  {
    if a.DrainTail? || (a.ClearCursor? && k == Pending) || (a.ClearWriters? && k == Holding) then
      s.drainers[a.d].side == b
    else false
  }

  /** What is still owed to the counter after a schedule: how many threads counted into it when it was last stored
      as zero, or `owed` if it was not. */
  function Owed(s: State, actions: seq<Action>, k: Kind, b: Side, owed: nat): nat
    requires Run(s, actions).Some?
    decreases |actions|
  {
    if actions == [] then owed
    else Owed(After(s, actions[0]), actions[1..], k, b,
              if Clears(s, actions[0], k, b) then Tally(s.writers, k, b) else owed)
  }

  /** Both counters of side `b`, less what is owed to them. */
  ghost predicate BothDrift(s: State, b: Side, cursorOwed: nat, ticketsOwed: nat) {
    CursorDrifts(s, b, cursorOwed) && TicketsDrift(s, b, ticketsOwed)
  }

  /** What a step of a drain does to the counters of side `b`. */
  lemma DrainerCounters(s: State, a: Action, b: Side)
    requires !ByWriter(a) && Enabled(s, a)
    ensures var s' := AfterDrainer(s, a);
      var r, r' := s.At(b), s'.At(b);
      && s'.writers == s.writers && s'.maxSlots == s.maxSlots
      && (if Clears(s, a, Pending, b) then r'.cursor == 0 && r'.accepted == multiset{}
          else r'.cursor == r.cursor && r'.accepted == r.accepted)
      && r'.activeWriters == if Clears(s, a, Holding, b) then 0 else r.activeWriters
  {
  }

  lemma ClearedDrift(s: State, b: Side)
    requires Sized(s)
    ensures s.At(b).cursor == 0 && s.At(b).accepted == multiset{} ==> CursorDrifts(s, b, Tally(s.writers, Pending, b))
    ensures s.At(b).activeWriters == 0 ==> TicketsDrift(s, b, Tally(s.writers, Holding, b))
  {
    TallyAtMost(s.writers, Pending, b);
    TallyAtMost(s.writers, Holding, b);
  }

  lemma DrainerDrifts(s: State, a: Action, b: Side, c: nat, h: nat)
    requires BothDrift(s, b, c, h) && !ByWriter(a) && Enabled(s, a)
    ensures BothDrift(AfterDrainer(s, a), b, if Clears(s, a, Pending, b) then Tally(s.writers, Pending, b) else c,
                      if Clears(s, a, Holding, b) then Tally(s.writers, Holding, b) else h)
  {
    DrainerCounters(s, a, b);
    ClearedDrift(AfterDrainer(s, a), b);
  }

  lemma WriterDrifts(s: State, a: Action, b: Side, c: nat, h: nat)
    requires BothDrift(s, b, c, h) && ByWriter(a) && Enabled(s, a)
    ensures BothDrift(AfterWriter(s, a), b, c, h)
  {
    var w := WriterMoves(s, a, b);
    CursorMoveDrifts(s, AfterWriter(s, a), b, a.t, w, c);
    TicketMoveDrifts(s, AfterWriter(s, a), b, a.t, w, h);
  }

  lemma {:induction false} RunDrifts(s: State, actions: seq<Action>, e: State, b: Side, c: nat, h: nat)
    requires BothDrift(s, b, c, h) && Run(s, actions) == Some(e)
    ensures BothDrift(e, b, Owed(s, actions, Pending, b, c), Owed(s, actions, Holding, b, h))
    decreases |actions|
  {
    if actions != [] {
      var a := actions[0];
      var c' := if Clears(s, a, Pending, b) then Tally(s.writers, Pending, b) else c;
      var h' := if Clears(s, a, Holding, b) then Tally(s.writers, Holding, b) else h;
      if ByWriter(a) {
        WriterDrifts(s, a, b, c, h);
      } else {
        DrainerDrifts(s, a, b, c, h);
      }
      RunDrifts(After(s, a), actions[1..], e, b, c', h');
    }
  }

  lemma InitialDrifts(s0: State, b: Side)
    requires Initial(s0)
    ensures BothDrift(s0, b, 0, 0)
  {
    TallyOfIdle(s0.writers, Pending, b);
    TallyOfIdle(s0.writers, Holding, b);
  }

  lemma {:induction false} OwedIsFew(s: State, actions: seq<Action>, k: Kind, b: Side, owed: nat)
    requires Run(s, actions).Some? && owed <= |s.writers|
    ensures Owed(s, actions, k, b, owed) <= |s.writers|
    decreases |actions|
  {
    if actions != [] {
      SizesStay(s, actions[0]);
      TallyAtMost(s.writers, k, b);
      OwedIsFew(After(s, actions[0]), actions[1..], k, b,
                if Clears(s, actions[0], k, b) then Tally(s.writers, k, b) else owed);
    }
  }

  /** Every run there is: the ticket count is the tickets out less those that were out when it was last cleared, and
      the cursor is what was accepted since its reset and is to be rolled back less what was to be rolled back at
      the reset, modulo 2^32. */
  lemma CountersAre(s0: State, actions: seq<Action>, s: State, b: Side)
    requires Initial(s0) && Run(s0, actions) == Some(s)
    ensures s.At(b).activeWriters == Tally(s.writers, Holding, b) - Owed(s0, actions, Holding, b, 0)
    ensures -|s.writers| <= s.At(b).activeWriters <= |s.writers|
    ensures var v := |s.At(b).accepted| + Tally(s.writers, Pending, b) - Owed(s0, actions, Pending, b, 0);
      -|s.writers| <= v <= s.maxSlots + |s.writers| && s.At(b).cursor == if v < 0 then v + TWO_32 else v
  {
    InitialDrifts(s0, b);
    RunDrifts(s0, actions, s, b, 0, 0);
    OwedIsFew(s0, actions, Holding, b, 0);
    OwedIsFew(s0, actions, Pending, b, 0);
    RunSizesStay(s0, actions, s);
    TallyAtMost(s.writers, Holding, b);
  }

  /** So a fetch-add is refused exactly when fewer slots were reserved and are to be rolled back than roll-backs were
      pending at the reset, when the cursor has wrapped, or more than those and all the slots. */
  lemma RefusedExactlyWhen(s0: State, actions: seq<Action>, s: State, t: nat)
    requires Initial(s0) && Run(s0, actions) == Some(s) && Enabled(s, FetchAdd(t))
    ensures var b := s.writers[t].side;
      var n, owed := |s.At(b).accepted| + Tally(s.writers, Pending, b), Owed(s0, actions, Pending, b, 0);
      !Succeeds(s, FetchAdd(t)) <==> n < owed || n >= owed + s.maxSlots
  {
    CountersAre(s0, actions, s, s.writers[t].side);
    RunSizesStay(s0, actions, s);
  }
}
