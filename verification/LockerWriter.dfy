/** The double-buffered Locker Writer and its drain as a step relation.
    Each action is one atomic operation of one thread; all atomics are taken to be sequentially consistent.
    Threads are numbered 0, 1, ...; any number of writers and of drainers run. */
module LockerWriter {
  import opened Base
  import opened Entry

  /** The two write regions: 0 is rw_a and 1 is rw_b. */
  type Side = b: int | 0 <= b < 2

  /** Who reserved a slot, and the message as it will be kept. */
  datatype Claim = Claim(owner: nat, message: Message)

  /** The first four fields are the engine's own. The others are history since the last reset:
      slots handed out, slots fully written, slots committed, and the messages accepted. */
  datatype Region = Region(
    cursor: u32,
    activeWriters: int,
    committedEntries: u32,
    entries: seq<MessageEntry>,
    claims: map<nat, Claim>,
    filled: set<nat>,
    committed: set<nat>,
    accepted: multiset<Message>
  )

  /** Where a thread stands inside the raw write. */
  datatype Writer =
    | Idle
    | LookedUp(side: Side, message: Message)
    | Ticketed(side: Side, message: Message)
    | Overflowed(side: Side)
    | RolledBack(side: Side)
    | Reserved(side: Side, slot: nat, message: Message)
    | HeaderWritten(side: Side, slot: nat, message: Message)
    | Filled(side: Side, slot: nat, message: Message)
    | Committed(side: Side, slot: nat, message: Message)

  /** Where a thread stands inside the drain. From `SawZero` on it is in the tail of the drain. */
  datatype Drainer =
    | Resting
    | LoadedBit(side: Side)
    | Spinning(side: Side)
    | SawZero(side: Side)
    | GotCursor(side: Side, count: nat)
    | GotTotal(side: Side, count: nat, total: nat)
    | AddedTotal(side: Side, count: nat)
    | CountedDrain(side: Side, count: nat)
    | ClearedCursor(side: Side)
    | ClearedWriters(side: Side)

  /** What one drain collected: the entries of the region and how many of them it counted. */
  datatype DrainResult = DrainResult(entries: seq<MessageEntry>, entriesWritten: nat)

  /** The last two fields are history: every message ever accepted, every drain so far. */
  datatype State = State(
    maxSlots: u32,
    regionBit: Side,
    totalEntries: nat,
    totalDrains: nat,
    rwA: Region,
    rwB: Region,
    writers: seq<Writer>,
    drainers: seq<Drainer>,
    acceptedEver: multiset<Message>,
    drains: seq<DrainResult>
  ) {
    function At(b: Side): Region {
      if b == 0 then rwA else rwB
    }

    function With(b: Side, r: Region): State {
      if b == 0 then this.(rwA := r) else this.(rwB := r)
    }

    function WithWriter(t: nat, w: Writer): State
      requires t < |writers|
    {
      this.(writers := writers[t := w])
    }

    function WithDrainer(d: nat, p: Drainer): State
      requires d < |drainers|
    {
      this.(drainers := drainers[d := p])
    }
  }

  function Other(b: Side): Side {
    1 - b
  }

  /** One atomic operation of writer `t` or of drainer `d`. `DrainTail` runs the whole tail of a drain
      at once; the nine actions after it are the same tail at the grain of the code. */
  datatype Action =
    | LookUp(t: nat, message: Message)
    | TakeTicket(t: nat)
    | FetchAdd(t: nat)
    | RollBack(t: nat)
    | StoreHeader(t: nat)
    | CopyPayload(t: nat)
    | Commit(t: nat)
    | ReturnTicket(t: nat)
    | LoadBit(d: nat)
    | FlipBit(d: nat)
    | DrainTail(d: nat)
    | SeeZero(d: nat)
    | ReadCursor(d: nat)
    | LoadTotal(d: nat)
    | StoreTotal(d: nat)
    | CountDrain(d: nat)
    | ClearCursor(d: nat)
    | ClearWriters(d: nat)
    | ClearCommitted(d: nat)

  predicate ByWriter(a: Action) {
    a.LookUp? || a.TakeTicket? || a.FetchAdd? || a.RollBack?
    || a.StoreHeader? || a.CopyPayload? || a.Commit? || a.ReturnTicket?
  }

  /** `a` is the next operation of its thread. A spinning drainer that still sees tickets has none. */
  predicate Enabled(s: State, a: Action) {
    if ByWriter(a) then
      a.t < |s.writers| &&
      var w := s.writers[a.t];
      match a
      case LookUp(_, _) => w.Idle?
      case TakeTicket(_) => w.LookedUp?
      case FetchAdd(_) => w.Ticketed?
      case RollBack(_) => w.Overflowed?
      case StoreHeader(_) => w.Reserved?
      case CopyPayload(_) => w.HeaderWritten?
      case Commit(_) => w.Filled?
      case ReturnTicket(_) => w.RolledBack? || w.Committed?
      case _ => false
    else
      a.d < |s.drainers| &&
      var p := s.drainers[a.d];
      match a
      case LoadBit(_) => p.Resting?
      case FlipBit(_) => p.LoadedBit?
      case DrainTail(_) => p.Spinning? && s.At(p.side).activeWriters <= 0
      case SeeZero(_) => p.Spinning? && s.At(p.side).activeWriters <= 0
      case ReadCursor(_) => p.SawZero?
      case LoadTotal(_) => p.GotCursor?
      case StoreTotal(_) => p.GotTotal?
      case CountDrain(_) => p.AddedTotal?
      case ClearCursor(_) => p.CountedDrain?
      case ClearWriters(_) => p.ClearedCursor?
      case ClearCommitted(_) => p.ClearedWriters?
      case _ => false
  }

  // ----- What each operation does to a region -----

  function Entered(r: Region): Region {
    r.(activeWriters := IncSigned32(r.activeWriters))
  }

  function Left(r: Region): Region {
    r.(activeWriters := DecSigned32(r.activeWriters))
  }

  function Bumped(r: Region): Region {
    r.(cursor := Inc32(r.cursor))
  }

  function Unbumped(r: Region): Region {
    r.(cursor := Dec32(r.cursor))
  }

  /** The fetch-add on the cursor that handed the old value to thread `t` as its slot. */
  function Claimed(r: Region, t: nat, m: Message): Region {
    Bumped(r).(claims := r.claims[r.cursor := Claim(t, Kept(m))], accepted := r.accepted + multiset{Kept(m)})
  }

  /** Replaces entry `i`, if there is one. */
  function SetEntry(entries: seq<MessageEntry>, i: nat, e: MessageEntry): seq<MessageEntry> {
    if i < |entries| then entries[i := e] else entries
  }

  function EntryAt(entries: seq<MessageEntry>, i: nat): MessageEntry {
    if i < |entries| then entries[i] else Blank()
  }

  function HeaderStored(r: Region, slot: nat, m: Message): Region {
    r.(entries := SetEntry(r.entries, slot, WithHeader(EntryAt(r.entries, slot), m)))
  }

  /** The payload copy into whatever entry is there. */
  function Copied(e: MessageEntry, m: Message): MessageEntry {
    if WellFormed(e) then WithPayload(e, m) else e
  }

  function PayloadCopied(r: Region, slot: nat, m: Message): Region {
    r.(entries := SetEntry(r.entries, slot, Copied(EntryAt(r.entries, slot), m)), filled := r.filled + {slot})
  }

  function CommitCounted(r: Region, slot: nat): Region {
    r.(committedEntries := Inc32(r.committedEntries), committed := r.committed + {slot})
  }

  function Read(e: MessageEntry): Message {
    if WellFormed(e) then Content(e) else Message(0, [])
  }

  /** The messages that the first `n` entries hold in memory. */
  function Stored(entries: seq<MessageEntry>, n: nat): seq<Message> {
    if n == 0 then [] else Stored(entries, n - 1) + [Read(EntryAt(entries, n - 1))]
  }

  /** The counters back at zero; the entries keep their bytes. */
  function Reset(r: Region): Region {
    Region(0, 0, 0, r.entries, map[], {}, {}, multiset{})
  }

  /** The whole tail of a drain of side `b`, on a state in which nothing interferes. */
  function Drained(s: State, b: Side): State {
    var r := s.At(b);
    s.With(b, Reset(r)).(
      totalEntries := s.totalEntries + r.cursor,
      totalDrains := s.totalDrains + 1,
      drains := s.drains + [DrainResult(r.entries, r.cursor)])
  }

  /** Thread `t` goes on to `w` and the region of side `b` to `r`. */
  function Moved(s: State, b: Side, r: Region, t: nat, w: Writer): State
    requires t < |s.writers|
  {
    s.With(b, r).WithWriter(t, w)
  }

  /** The next operation of a thread at `w`, as its region sees it. */
  function RegionAfter(r: Region, maxSlots: u32, t: nat, w: Writer): Region
    requires !w.Idle?
  {
    match w
    case LookedUp(_, _) => Entered(r)
    case Ticketed(_, m) => if r.cursor >= maxSlots then Bumped(r) else Claimed(r, t, m)
    case Overflowed(_) => Unbumped(r)
    case Reserved(_, slot, m) => HeaderStored(r, slot, m)
    case HeaderWritten(_, slot, m) => PayloadCopied(r, slot, m)
    case Filled(_, slot, _) => CommitCounted(r, slot)
    case RolledBack(_) => Left(r)
    case Committed(_, _, _) => Left(r)
  }

  /** And as the thread itself goes on. */
  function WriterAfter(r: Region, maxSlots: u32, w: Writer): Writer
    requires !w.Idle?
  {
    match w
    case LookedUp(b, m) => Ticketed(b, m)
    case Ticketed(b, m) => if r.cursor >= maxSlots then Overflowed(b) else Reserved(b, r.cursor, m)
    case Overflowed(b) => RolledBack(b)
    case Reserved(b, slot, m) => HeaderWritten(b, slot, m)
    case HeaderWritten(b, slot, m) => Filled(b, slot, m)
    case Filled(b, slot, m) => Committed(b, slot, m)
    case RolledBack(_) => Idle
    case Committed(_, _, _) => Idle
  }

  /** A fetch-add that hands out a slot accepts the message. */
  predicate Accepts(r: Region, maxSlots: u32, w: Writer) {
    w.Ticketed? && r.cursor < maxSlots
  }

  function AfterWriter(s: State, a: Action): State
    requires ByWriter(a) && Enabled(s, a)
  {
    var w := s.writers[a.t];
    if a.LookUp? then s.WithWriter(a.t, LookedUp(s.regionBit, a.message))
    else
      var r := s.At(w.side);
      var moved := Moved(s, w.side, RegionAfter(r, s.maxSlots, a.t, w), a.t, WriterAfter(r, s.maxSlots, w));
      if Accepts(r, s.maxSlots, w) then moved.(acceptedEver := s.acceptedEver + multiset{Kept(w.message)}) else moved
  }

  function AfterDrainer(s: State, a: Action): State
    requires !ByWriter(a) && Enabled(s, a)
  {
    var d := a.d;
    var p := s.drainers[d];
    match a
    case LoadBit(_) => s.WithDrainer(d, LoadedBit(s.regionBit))
    case FlipBit(_) => s.(regionBit := Other(p.side)).WithDrainer(d, Spinning(p.side))
    case DrainTail(_) => Drained(s, p.side).WithDrainer(d, Resting)
    case SeeZero(_) => s.WithDrainer(d, SawZero(p.side))
    case ReadCursor(_) => s.WithDrainer(d, GotCursor(p.side, s.At(p.side).cursor))
    case LoadTotal(_) => s.WithDrainer(d, GotTotal(p.side, p.count, s.totalEntries))
    case StoreTotal(_) =>
      s.(totalEntries := p.total + p.count,
         drains := s.drains + [DrainResult(s.At(p.side).entries, p.count)])
      .WithDrainer(d, AddedTotal(p.side, p.count))
    case CountDrain(_) => s.(totalDrains := s.totalDrains + 1).WithDrainer(d, CountedDrain(p.side, p.count))
    case ClearCursor(_) =>
      s.With(p.side, s.At(p.side).(cursor := 0, claims := map[], filled := {}, committed := {}, accepted := multiset{}))
      .WithDrainer(d, ClearedCursor(p.side))
    case ClearWriters(_) =>
      s.With(p.side, s.At(p.side).(activeWriters := 0)).WithDrainer(d, ClearedWriters(p.side))
    case ClearCommitted(_) =>
      s.With(p.side, s.At(p.side).(committedEntries := 0)).WithDrainer(d, Resting)
  }

  function After(s: State, a: Action): State
    requires Enabled(s, a)
  {
    if ByWriter(a) then AfterWriter(s, a) else AfterDrainer(s, a)
  }

  /** The state a schedule leads to, if each of its actions is the next one of its thread. */
  function Run(s: State, actions: seq<Action>): Option<State>
    decreases |actions|
  {
    if actions == [] then Some(s)
    else if Enabled(s, actions[0]) then Run(After(s, actions[0]), actions[1..])
    else None
  }

  /** A fresh region over whatever bytes the entries happen to hold. */
  predicate FreshRegion(r: Region, maxSlots: nat) {
    && r == Reset(r)
    && |r.entries| == maxSlots
    && forall i :: 0 <= i < |r.entries| ==> WellFormed(r.entries[i])
  }

  /** The freshly initialised database, with all threads at rest. The bounds keep the 32-bit counters
      from wrapping: `maxSlots` is 31250 in the engine. */
  predicate Initial(s: State) {
    && s.maxSlots < TWO_31 && |s.writers| < TWO_31 - 1
    && s.regionBit == 0 && s.totalEntries == 0 && s.totalDrains == 0
    && FreshRegion(s.rwA, s.maxSlots) && FreshRegion(s.rwB, s.maxSlots)
    && (forall t :: 0 <= t < |s.writers| ==> s.writers[t].Idle?)
    && (forall d :: 0 <= d < |s.drainers| ==> s.drainers[d].Resting?)
    && s.acceptedEver == multiset{} && s.drains == []
  }

  /** There is one for every number of slots, of threads, and whatever the entries hold. */
  lemma StartsWithAny(maxSlots: u32, writers: nat, drainers: nat, a: seq<MessageEntry>, b: seq<MessageEntry>)
    requires maxSlots < TWO_31 && writers < TWO_31 - 1 && |a| == |b| == maxSlots
    requires forall i :: 0 <= i < |a| ==> WellFormed(a[i]) && WellFormed(b[i])
    ensures var rwA := Region(0, 0, 0, a, map[], {}, {}, multiset{});
      var rwB := Region(0, 0, 0, b, map[], {}, {}, multiset{});
      Initial(State(maxSlots, 0, 0, 0, rwA, rwB, seq(writers, t => Idle), seq(drainers, d => Resting), multiset{}, []))
  {
  }

  /** A drain whose tail runs as one step. */
  predicate AtomicTail(a: Action) {
    ByWriter(a) || a.LoadBit? || a.FlipBit? || a.DrainTail?
  }

  predicate AtomicTails(actions: seq<Action>) {
    forall i :: 0 <= i < |actions| ==> AtomicTail(actions[i])
  }

  predicate WritersOnly(actions: seq<Action>) {
    forall i :: 0 <= i < |actions| ==> ByWriter(actions[i])
  }

  lemma RunCons(s: State, actions: seq<Action>, next: State)
    requires actions != [] && Enabled(s, actions[0]) && After(s, actions[0]) == next
    ensures Run(s, actions) == Run(next, actions[1..])
  {
  }

  lemma {:induction false} RunConcat(s: State, first: seq<Action>, second: seq<Action>)
    ensures Run(s, first + second) == (match Run(s, first) case None => None case Some(m) => Run(m, second))
    decreases |first|
  {
    if first == [] {
      assert first + second == second;
    } else {
      assert (first + second)[0] == first[0];
      assert (first + second)[1..] == first[1..] + second;
      if Enabled(s, first[0]) {
        RunConcat(After(s, first[0]), first[1..], second);
      }
    }
  }

  lemma RunOfPrefix(s: State, actions: seq<Action>, i: nat)
    requires 0 < i <= |actions| && Enabled(s, actions[0])
    ensures Run(s, actions[..i]) == Run(After(s, actions[0]), actions[1..][..i - 1])
  {
    assert actions[..i][1..] == actions[1..][..i - 1];
  }

  /** A schedule extended by one more enabled action. */
  lemma RunSnoc(s: State, actions: seq<Action>, m: State, a: Action)
    requires Run(s, actions) == Some(m) && Enabled(m, a)
    ensures Run(s, actions + [a]) == Some(After(m, a))
  {
    RunConcat(s, actions, [a]);
    assert Run(m, [a]) == Run(After(m, a), []);
  }

  /** One, two or three known steps. */
  lemma OneStep(s: State, a: Action, e: State)
    requires Enabled(s, a) && After(s, a) == e
    ensures Run(s, [a]) == Some(e)
  {
    assert [a][1..] == [];
  }

  lemma TwoSteps(s: State, a: Action, m: State, a': Action, e: State)
    requires Enabled(s, a) && After(s, a) == m && Enabled(m, a') && After(m, a') == e
    ensures Run(s, [a, a']) == Some(e)
  {
    assert [a, a'][1..] == [a'];
    OneStep(m, a', e);
  }

  lemma ThreeSteps(s: State, a: Action, m: State, a': Action, m': State, a'': Action, e: State)
    requires Enabled(s, a) && After(s, a) == m && Enabled(m, a') && After(m, a') == m'
    requires Enabled(m', a'') && After(m', a'') == e
    ensures Run(s, [a, a', a'']) == Some(e)
  {
    assert [a, a', a''][1..] == [a', a''];
    TwoSteps(m, a', m', a'', e);
  }

  // ----- What the steps do, one by one -----

  /** A writer step other than a look-up moves its thread and its region, and at most one message is accepted. */
  lemma WriterSteps(s: State, a: Action)
    requires ByWriter(a) && !a.LookUp? && Enabled(s, a)
    ensures !s.writers[a.t].Idle?
    ensures var w, s' := s.writers[a.t], AfterWriter(s, a);
      var r := s.At(w.side);
      && s'.At(w.side) == RegionAfter(r, s.maxSlots, a.t, w) && s'.At(Other(w.side)) == s.At(Other(w.side))
      && s'.writers == s.writers[a.t := WriterAfter(r, s.maxSlots, w)]
      && s'.acceptedEver == if Accepts(r, s.maxSlots, w) then s.acceptedEver + multiset{Kept(w.message)}
        else s.acceptedEver
  {
  }

  /** Nothing else changes, whatever the step. */
  lemma WriterKeepsRest(s: State, a: Action)
    requires ByWriter(a) && Enabled(s, a)
    ensures var s' := AfterWriter(s, a);
      && s'.maxSlots == s.maxSlots && s'.regionBit == s.regionBit && s'.drainers == s.drainers
      && s'.totalEntries == s.totalEntries && s'.totalDrains == s.totalDrains && s'.drains == s.drains
  {
  }

  lemma LoadsBit(s: State, d: nat)
    requires d < |s.drainers| && s.drainers[d].Resting?
    ensures Enabled(s, LoadBit(d)) && After(s, LoadBit(d)) == s.WithDrainer(d, LoadedBit(s.regionBit))
  {
  }

  /** What is stored is the other of the bit that was loaded, whatever the bit is by now. */
  lemma FlipsBit(s: State, d: nat, b: Side)
    requires d < |s.drainers| && s.drainers[d] == LoadedBit(b)
    ensures Enabled(s, FlipBit(d))
    ensures After(s, FlipBit(d)) == s.(regionBit := if b == 0 then 1 else 0).WithDrainer(d, Spinning(b))
  {
  }

  lemma SeesZero(s: State, d: nat, b: Side)
    requires d < |s.drainers| && s.drainers[d] == Spinning(b) && s.At(b).activeWriters <= 0
    ensures Enabled(s, SeeZero(d)) && After(s, SeeZero(d)) == s.WithDrainer(d, SawZero(b))
  {
  }

  lemma ReadsCursor(s: State, d: nat, b: Side)
    requires d < |s.drainers| && s.drainers[d] == SawZero(b)
    ensures Enabled(s, ReadCursor(d)) && After(s, ReadCursor(d)) == s.WithDrainer(d, GotCursor(b, s.At(b).cursor))
  {
  }

  lemma LoadsTotal(s: State, d: nat, b: Side, n: nat)
    requires d < |s.drainers| && s.drainers[d] == GotCursor(b, n)
    ensures Enabled(s, LoadTotal(d)) && After(s, LoadTotal(d)) == s.WithDrainer(d, GotTotal(b, n, s.totalEntries))
  {
  }

  lemma StoresTotal(s: State, d: nat, b: Side, n: nat, total: nat)
    requires d < |s.drainers| && s.drainers[d] == GotTotal(b, n, total)
    ensures Enabled(s, StoreTotal(d))
    ensures After(s, StoreTotal(d))
         == s.(totalEntries := total + n, drains := s.drains + [DrainResult(s.At(b).entries, n)])
            .WithDrainer(d, AddedTotal(b, n))
  {
  }

  lemma CountsDrain(s: State, d: nat, b: Side, n: nat)
    requires d < |s.drainers| && s.drainers[d] == AddedTotal(b, n)
    ensures Enabled(s, CountDrain(d))
    ensures After(s, CountDrain(d)) == s.(totalDrains := s.totalDrains + 1).WithDrainer(d, CountedDrain(b, n))
  {
  }

  /** The region after the first store of the reset, which also closes the books on its slots. */
  function CursorCleared(r: Region): Region {
    r.(cursor := 0, claims := map[], filled := {}, committed := {}, accepted := multiset{})
  }

  lemma ClearsCursor(s: State, d: nat, b: Side, n: nat)
    requires d < |s.drainers| && s.drainers[d] == CountedDrain(b, n)
    ensures Enabled(s, ClearCursor(d))
    ensures After(s, ClearCursor(d)) == s.With(b, CursorCleared(s.At(b))).WithDrainer(d, ClearedCursor(b))
  {
  }

  lemma ClearsWriters(s: State, d: nat, b: Side)
    requires d < |s.drainers| && s.drainers[d] == ClearedCursor(b)
    ensures Enabled(s, ClearWriters(d))
    ensures After(s, ClearWriters(d)) == s.With(b, s.At(b).(activeWriters := 0)).WithDrainer(d, ClearedWriters(b))
  {
  }

  lemma ClearsCommitted(s: State, d: nat, b: Side)
    requires d < |s.drainers| && s.drainers[d] == ClearedWriters(b)
    ensures Enabled(s, ClearCommitted(d))
    ensures After(s, ClearCommitted(d)) == s.With(b, s.At(b).(committedEntries := 0)).WithDrainer(d, Resting)
  {
  }

  lemma DrainerTwice(s: State, d: nat, p: Drainer, q: Drainer)
    requires d < |s.drainers|
    ensures s.WithDrainer(d, p).WithDrainer(d, q) == s.WithDrainer(d, q)
  {
    assert s.drainers[d := p][d := q] == s.drainers[d := q];
  }

  /** Every step of a drain short of the reset leaves the regions and the writers alone. */
  lemma DrainerLeavesRegions(s: State, a: Action)
    requires !ByWriter(a) && Enabled(s, a) && !a.DrainTail? && !a.ClearCursor? && !a.ClearWriters? && !a.ClearCommitted?
    ensures var s' := AfterDrainer(s, a);
      s'.rwA == s.rwA && s'.rwB == s.rwB && s'.writers == s.writers && s'.maxSlots == s.maxSlots
        && s'.acceptedEver == s.acceptedEver
  {
  }
}
