/** Which accepted messages survive a drain, for runs at the grain of the code: exactly when one drain finds what
    was accepted, and exactly which databases never lose or invent a message in any run. */
module LockerMessages {
  import opened Base
  import opened Entry
  import opened LockerWriter
  import opened LockerInvariant
  import opened LockerTheorems
  import opened LockerWindow
  import opened LockerSolo
  import opened LockerLoss

  // ----- Exactly when the messages survive -----

  /** A quiet step other than the store of the total. */
  predicate Calm(a: Action, d: nat) {
    ByWriter(a) || a.LoadBit? || a.FlipBit? || a == LoadTotal(d) || a == CountDrain(d)
  }

  predicate AllCalm(actions: seq<Action>, d: nat) {
    forall i :: 0 <= i < |actions| ==> Calm(actions[i], d)
  }

  /** What the drains found and the regions hold, against what was accepted: `extra` is in there twice. */
  predicate MessagesOff(s: State, extra: multiset<Message>) {
    s.acceptedEver + extra == DrainedMessages(s.drains) + s.rwA.accepted + s.rwB.accepted
  }

  ghost predicate ClaimsKept(r: LockerWriter.Region, later: LockerWriter.Region) {
    forall i :: i in r.claims ==> i in later.claims && later.claims[i] == r.claims[i]
  }

  lemma AcceptsOneBalances(s: State, s': State, b: Side, k: Message, extra: multiset<Message>)
    requires MessagesOff(s, extra) && AcceptsOne(s, s', b, k)
    ensures MessagesOff(s', extra)
  {
    AddToFirst(DrainedMessages(s.drains), s.rwA.accepted, s.rwB.accepted, multiset{k});
    assert s.acceptedEver + multiset{k} + extra == (s.acceptedEver + extra) + multiset{k};
  }

  lemma FetchAddKeepsMessages(s: State, t: nat, extra: multiset<Message>)
    requires MessagesOff(s, extra) && Enabled(s, FetchAdd(t))
    requires var r := s.At(s.writers[t].side); r.cursor < s.maxSlots ==> r.cursor !in r.claims
    ensures MessagesOff(AfterWriter(s, FetchAdd(t)), extra)
  {
    var b, s' := s.writers[t].side, AfterWriter(s, FetchAdd(t));
    if s.At(b).cursor < s.maxSlots {
      ReserveAccepts(s, t);
      AcceptsOneBalances(s, s', b, Kept(s.writers[t].message), extra);
    } else {
      NoAcceptanceSameAccounts(s, FetchAdd(t));
    }
  }

  lemma ReserveKeepsClaims(s: State, t: nat, b: Side)
    requires Enabled(s, FetchAdd(t))
    requires var r := s.At(s.writers[t].side); r.cursor < s.maxSlots ==> r.cursor !in r.claims
    ensures ClaimsKept(s.At(b), AfterWriter(s, FetchAdd(t)).At(b))
  {
  }

  lemma SwitchKeepsAccounts(s: State, a: Action)
    requires !ByWriter(a) && Enabled(s, a)
      && (a.LoadBit? || a.FlipBit? || a.ReadCursor? || a.LoadTotal? || a.CountDrain?)
    ensures SameAccounts(s, AfterDrainer(s, a))
  {
  }

  lemma SameAccountsSameMessages(s: State, s': State, b: Side, extra: multiset<Message>)
    requires MessagesOff(s, extra) && SameAccounts(s, s')
    ensures MessagesOff(s', extra) && ClaimsKept(s.At(b), s'.At(b))
  {
  }

  lemma CalmStepKeepsMessages(s: State, d: nat, b: Side, extra: multiset<Message>, a: Action)
    requires RegionsFit(s) && MessagesOff(s, extra) && Calm(a, d) && Enabled(s, a)
    ensures RegionsFit(After(s, a)) && MessagesOff(After(s, a), extra) && ClaimsKept(s.At(b), After(s, a).At(b))
  {
    if !ByWriter(a) {
      DrainerKeepsRegions(s, d, a);
      SwitchKeepsAccounts(s, a);
      SameAccountsSameMessages(s, AfterDrainer(s, a), b, extra);
    } else {
      WriterKeepsRegions(s, a);
      if a.FetchAdd? {
        FetchAddIsFresh(s, a.t);
        FetchAddKeepsMessages(s, a.t, extra);
        ReserveKeepsClaims(s, a.t, b);
      } else {
        OtherStepsKeepAccounts(s, a);
        SameAccountsSameMessages(s, AfterWriter(s, a), b, extra);
      }
    }
  }

  lemma CalmHeadKeepsMessages(s: State, d: nat, b: Side, extra: multiset<Message>, actions: seq<Action>)
    returns (m: State)
    requires RegionsFit(s) && MessagesOff(s, extra) && AllCalm(actions, d) && actions != [] && Enabled(s, actions[0])
    ensures m == After(s, actions[0]) && RegionsFit(m) && MessagesOff(m, extra) && AllCalm(actions[1..], d)
    ensures ClaimsKept(s.At(b), m.At(b))
  {
    assert Calm(actions[0], d);
    CalmStepKeepsMessages(s, d, b, extra, actions[0]);
    m := After(s, actions[0]);
  }

  lemma {:induction false} CalmRunKeepsMessages(s: State, d: nat, b: Side, extra: multiset<Message>,
                                                actions: seq<Action>, e: State)
    requires RegionsFit(s) && MessagesOff(s, extra) && AllCalm(actions, d) && Run(s, actions) == Some(e)
    ensures RegionsFit(e) && MessagesOff(e, extra) && ClaimsKept(s.At(b), e.At(b))
    decreases |actions|
  {
    if actions != [] {
      var m := CalmHeadKeepsMessages(s, d, b, extra, actions);
      CalmRunKeepsMessages(m, d, b, extra, actions[1..], e);
    }
  }

  /** One drain's tail from its zero load in `start` over its cursor read in `read` and its total store in
      `stored` to its cursor reset in `closing`; in between writers do what they like, stale tickets included. */
  datatype TailRun = TailRun(
    before: seq<Action>, start: State,
    between: seq<Action>, read: State,
    first: seq<Action>, stored: State,
    second: seq<Action>, closing: State
  )

  ghost predicate RunOpens(s0: State, d: nat, run: TailRun) {
    && Initial(s0) && Run(s0, run.before) == Some(run.start)
    && d < |run.start.drainers| && run.start.drainers[d].Spinning?
    && RespectsWindows(s0, run.before) && NoTail(run.start.drainers)
    && Enabled(run.start, SeeZero(d)) && AllCalm(run.between, d)
    && Run(After(run.start, SeeZero(d)), run.between) == Some(run.read)
  }

  ghost predicate RunReads(d: nat, run: TailRun) {
    && Enabled(run.read, ReadCursor(d)) && AllCalm(run.first, d)
    && Run(After(run.read, ReadCursor(d)), run.first) == Some(run.stored)
  }

  ghost predicate RunStores(d: nat, run: TailRun) {
    && Enabled(run.stored, StoreTotal(d)) && AllCalm(run.second, d)
    && Run(After(run.stored, StoreTotal(d)), run.second) == Some(run.closing)
    && Enabled(run.closing, ClearCursor(d))
  }

  ghost predicate IsTailRun(s0: State, d: nat, run: TailRun) {
    RunOpens(s0, d, run) && RunReads(d, run) && RunStores(d, run)
  }

  function SideOf(d: nat, run: TailRun): Side
    requires d < |run.start.drainers| && run.start.drainers[d].Spinning?
  {
    run.start.drainers[d].side
  }

  /** Nothing was being rolled back when the cursor was read, nothing was reserved from then to the reset, and
      nothing counted was still being written when the total was stored. */
  predicate TailUndisturbed(d: nat, run: TailRun)
    requires d < |run.start.drainers| && run.start.drainers[d].Spinning?
  {
    var b := SideOf(d, run);
    && Tally(run.read.writers, Pending, b) == 0
    && |run.closing.At(b).claims| == |run.read.At(b).claims|
    && Tally(run.stored.writers, Unfilled, b) == 0
  }

  /** What the drain found: as many entries as the cursor said, as they were when the total was stored. */
  function Found(d: nat, run: TailRun): multiset<Message>
    requires d < |run.start.drainers| && run.start.drainers[d].Spinning?
  {
    var b := SideOf(d, run);
    multiset(Stored(run.stored.At(b).entries, run.read.At(b).cursor))
  }

  // ----- The books over one tail -----

  /** Regions in order, messages off by `extra`, and drainer `d` in its tail of side `b` with `n` counted. */
  ghost predicate OnBooks(s: State, d: nat, b: Side, n: nat, extra: multiset<Message>) {
    RegionsFit(s) && MessagesOff(s, extra) && Booked(s, d, b, n)
  }

  lemma CalmIsQuiet(actions: seq<Action>, d: nat)
    requires AllCalm(actions, d)
    ensures AllQuiet(actions, d)
  {
    forall i | 0 <= i < |actions| ensures Quiet(actions[i], d) {
      assert Calm(actions[i], d);
    }
  }

  lemma CalmRunStaysOnBooks(s: State, d: nat, b: Side, n: nat, extra: multiset<Message>, actions: seq<Action>, e: State)
    requires OnBooks(s, d, b, n, extra) && AllCalm(actions, d) && Run(s, actions) == Some(e)
    ensures OnBooks(e, d, b, n, extra) && ClaimsKept(s.At(b), e.At(b))
  {
    CalmRunKeepsMessages(s, d, b, extra, actions, e);
    CalmIsQuiet(actions, d);
    QuietRunKeepsBooks(s, d, b, n, actions, e);
  }

  lemma ZeroOpensBooks(s0: State, before: seq<Action>, m: State, d: nat, n: nat)
    requires Initial(s0) && Run(s0, before) == Some(m) && RespectsWindows(s0, before) && NoTail(m.drainers)
    requires Enabled(m, SeeZero(d))
    ensures OnBooks(AfterDrainer(m, SeeZero(d)), d, m.drainers[d].side, n, multiset{})
  {
    BooksOpen(s0, before, m, d, n);
    CodeLosesNothing(s0, before, m);
  }

  lemma ReadStaysOnBooks(s: State, d: nat, b: Side)
    requires OnBooks(s, d, b, s.At(b).cursor, multiset{}) && Enabled(s, ReadCursor(d))
    ensures var s' := AfterDrainer(s, ReadCursor(d));
      OnBooks(s', d, b, s.At(b).cursor, multiset{}) && s'.At(b) == s.At(b)
  {
    BooksReadCursor(s, d, b, s.At(b).cursor);
    DrainerKeepsRegions(s, d, ReadCursor(d));
    SwitchKeepsAccounts(s, ReadCursor(d));
    SameAccountsSameMessages(s, AfterDrainer(s, ReadCursor(d)), b, multiset{});
  }

  lemma GapOpens(found: multiset<Message>, more: multiset<Message>, a: multiset<Message>, b: multiset<Message>,
                 all: multiset<Message>)
    requires all + multiset{} == found + a + b
    ensures all + more == (found + more) + a + b
  {
    assert (found + more) + a + b == (found + a + b) + more;
  }

  lemma StoreOpensGap(s: State, d: nat, result: DrainResult)
    requires MessagesOff(s, multiset{}) && Enabled(s, StoreTotal(d))
    requires result == DrainResult(s.At(s.drainers[d].side).entries, s.drainers[d].count)
    ensures MessagesOff(AfterDrainer(s, StoreTotal(d)), multiset(Stored(result.entries, result.entriesWritten)))
  {
    var more := multiset(Stored(result.entries, result.entriesWritten));
    var s' := AfterDrainer(s, StoreTotal(d));
    OneMoreDrain(s.drains, result);
    assert s'.drains == s.drains + [result] && s'.acceptedEver == s.acceptedEver;
    assert s'.rwA == s.rwA && s'.rwB == s.rwB;
    GapOpens(DrainedMessages(s.drains), more, s.rwA.accepted, s.rwB.accepted, s.acceptedEver);
  }

  lemma StoreStaysOnBooks(s: State, d: nat, b: Side, n: nat)
    requires OnBooks(s, d, b, n, multiset{}) && Enabled(s, StoreTotal(d))
    ensures var s' := AfterDrainer(s, StoreTotal(d));
      OnBooks(s', d, b, n, multiset(Stored(s.At(b).entries, n))) && s'.At(b) == s.At(b)
  {
    StoreOpensGap(s, d, DrainResult(s.At(b).entries, n));
    DrainerKeepsRegions(s, d, StoreTotal(d));
    DrainerKeepsBooks(s, d, b, n, StoreTotal(d));
  }

  /** Up to the cursor read nothing is off. */
  lemma TailOpens(s0: State, d: nat, run: TailRun)
    requires IsTailRun(s0, d, run)
    ensures var b := SideOf(d, run); OnBooks(run.read, d, b, run.read.At(b).cursor, multiset{})
  {
    var b := SideOf(d, run);
    var n := run.read.At(b).cursor;
    ZeroOpensBooks(s0, run.before, run.start, d, n);
    CalmRunStaysOnBooks(AfterDrainer(run.start, SeeZero(d)), d, b, n, multiset{}, run.between, run.read);
  }

  /** Up to the store of the total nothing is off, and the drainer still has the cursor it read. */
  lemma TailReads(s0: State, d: nat, run: TailRun)
    requires IsTailRun(s0, d, run)
    ensures var b := SideOf(d, run);
      OnBooks(run.stored, d, b, run.read.At(b).cursor, multiset{}) && ClaimsKept(run.read.At(b), run.stored.At(b))
  {
    var b := SideOf(d, run);
    TailOpens(s0, d, run);
    ReadStaysOnBooks(run.read, d, b);
    CalmRunStaysOnBooks(AfterDrainer(run.read, ReadCursor(d)), d, b, run.read.At(b).cursor, multiset{}, run.first,
                        run.stored);
  }

  /** From the store of the total to the reset, what was found is in the books twice. */
  lemma TailStores(s0: State, d: nat, run: TailRun)
    requires IsTailRun(s0, d, run)
    ensures var b := SideOf(d, run);
      OnBooks(run.closing, d, b, run.read.At(b).cursor, Found(d, run))
        && ClaimsKept(run.stored.At(b), run.closing.At(b))
  {
    var b := SideOf(d, run);
    var n := run.read.At(b).cursor;
    TailReads(s0, d, run);
    StoreStaysOnBooks(run.stored, d, b, n);
    CalmRunStaysOnBooks(AfterDrainer(run.stored, StoreTotal(d)), d, b, n, Found(d, run), run.second, run.closing);
  }

  /** `found` is in the books where `gone` ought to be. */
  predicate MessagesOffBy(s: State, found: multiset<Message>, gone: multiset<Message>) {
    s.acceptedEver + found == DrainedMessages(s.drains) + s.rwA.accepted + s.rwB.accepted + gone
  }

  lemma ResetClosesGap(e: State, d: nat, b: Side, n: nat, extra: multiset<Message>)
    requires OnBooks(e, d, b, n, extra) && Enabled(e, ClearCursor(d))
    ensures MessagesOffBy(AfterDrainer(e, ClearCursor(d)), extra, e.At(b).accepted)
  {
    var x := AfterDrainer(e, ClearCursor(d));
    assert x.drains == e.drains && x.acceptedEver == e.acceptedEver;
    if b == 0 {
      assert x.rwA.accepted == multiset{} && x.rwB.accepted == e.rwB.accepted;
    } else {
      assert x.rwB.accepted == multiset{} && x.rwA.accepted == e.rwA.accepted;
    }
  }

  // ----- The exact condition for one drain -----

  lemma MoreClaims(r: LockerWriter.Region, later: LockerWriter.Region)
    requires ClaimsKept(r, later)
    ensures |r.claims| <= |later.claims|
  {
    assert r.claims.Keys <= later.claims.Keys;
    SubsetIsSmaller(r.claims.Keys, later.claims.Keys);
  }

  /** A region whose first `n` slots are all written has nothing reserved and unwritten among its `n` slots. */
  lemma AllWrittenExactlyWhen(r: LockerWriter.Region, b: Side, ws: seq<Writer>, maxSlots: nat, n: nat)
    requires CountersFit(r, b, ws, maxSlots) && SlotsFit(r, maxSlots) && n == |r.claims|
    ensures (forall i :: 0 <= i < n ==> i in r.filled) <==> Tally(ws, Unfilled, b) == 0
  {
    if Tally(ws, Unfilled, b) == 0 {
      SubsetOfSameSize(r.filled, r.claims.Keys);
    } else if forall i :: 0 <= i < n ==> i in r.filled {
      assert r.claims.Keys <= r.filled;
      SubsetIsSmaller(r.claims.Keys, r.filled);
    }
  }

  lemma WrittenIsClaimed(r: LockerWriter.Region, maxSlots: nat, n: nat)
    requires SlotsFit(r, maxSlots) && n == |r.claims| && forall i :: 0 <= i < n ==> i in r.filled
    ensures multiset(Stored(r.entries, n)) == ClaimedMessages(r.claims, n)
  {
    StoredClaims(r.entries, r.claims, n);
  }

  lemma ClaimedIsAccepted(claims: map<nat, Claim>, later: map<nat, Claim>, n: nat,
                          before: multiset<Message>, accepted: multiset<Message>)
    requires ClaimsFit(claims, n, before) && ClaimsFit(later, n, accepted)
    requires forall i :: i in claims ==> i in later && later[i] == claims[i]
    ensures ClaimedMessages(claims, n) == accepted
  {
    SameClaimsBelow(claims, later, n);
  }

  /** What `n` written slots hold is what was accepted, if nothing has been accepted since. */
  lemma WrittenIsAccepted(r: LockerWriter.Region, maxSlots: nat, later: LockerWriter.Region, n: nat)
    requires SlotsFit(r, maxSlots) && SlotsFit(later, maxSlots) && ClaimsKept(r, later)
    requires n == |r.claims| == |later.claims| && forall i :: 0 <= i < n ==> i in r.filled
    ensures multiset(Stored(r.entries, n)) == later.accepted
  {
    WrittenIsClaimed(r, maxSlots, n);
    ClaimedIsAccepted(r.claims, later.claims, n, r.accepted, later.accepted);
  }

  /** Everything the drain counted is written when it stores the total. */
  ghost predicate AllCountedWritten(d: nat, run: TailRun)
    requires d < |run.start.drainers| && run.start.drainers[d].Spinning?
  {
    var b := SideOf(d, run);
    forall i :: 0 <= i < run.read.At(b).cursor ==> i in run.stored.At(b).filled
  }

  /** Side `b` at the cursor read, at the store of the total and at the reset. */
  lemma UndisturbedExactlyWhen(r: LockerWriter.Region, ws: seq<Writer>, p: LockerWriter.Region, ps: seq<Writer>,
                               e: LockerWriter.Region, es: seq<Writer>, b: Side, maxSlots: nat)
    requires CountersFit(r, b, ws, maxSlots) && CountersFit(p, b, ps, maxSlots) && CountersFit(e, b, es, maxSlots)
    requires SlotsFit(p, maxSlots) && ClaimsKept(r, p) && ClaimsKept(p, e)
    ensures (|e.claims| == r.cursor && forall i :: 0 <= i < r.cursor ==> i in p.filled)
      <==> Tally(ws, Pending, b) == 0 && |e.claims| == |r.claims| && Tally(ps, Unfilled, b) == 0
  {
    MoreClaims(r, p);
    MoreClaims(p, e);
    if |p.claims| == r.cursor {
      AllWrittenExactlyWhen(p, b, ps, maxSlots, r.cursor);
    }
  }

  lemma FilledIsClaimed(r: LockerWriter.Region, maxSlots: nat, n: nat)
    requires SlotsFit(r, maxSlots) && |r.claims| < n
    ensures !(forall i :: 0 <= i < n ==> i in r.filled)
  {
    var i := |r.claims|;
    assert i !in r.claims && i !in r.filled;
  }

  lemma TailSizes(s0: State, d: nat, run: TailRun)
    requires IsTailRun(s0, d, run)
    ensures run.read.maxSlots == run.stored.maxSlots == run.closing.maxSlots
  {
    RunSizesStay(AfterDrainer(run.read, ReadCursor(d)), run.first, run.stored);
    RunSizesStay(AfterDrainer(run.stored, StoreTotal(d)), run.second, run.closing);
  }

  /** What stands in the books after the reset: what the drain found instead of what was accepted. */
  lemma TailBooks(s0: State, d: nat, run: TailRun)
    requires IsTailRun(s0, d, run)
    ensures var b, x := SideOf(d, run), After(run.closing, ClearCursor(d));
      && MessagesOffBy(x, Found(d, run), run.closing.At(b).accepted)
      && (Counted(x) <==> |run.closing.At(b).claims| == run.read.At(b).cursor)
  {
    var b := SideOf(d, run);
    var n := run.read.At(b).cursor;
    TailStores(s0, d, run);
    ResetClosesGap(run.closing, d, b, n, Found(d, run));
    BooksClose(run.closing, d, b, n);
  }

  lemma OffByNothingExactlyWhen(s: State, found: multiset<Message>, gone: multiset<Message>)
    requires MessagesOffBy(s, found, gone)
    ensures MessagesConserved(s) <==> found == gone
  {
    var here := DrainedMessages(s.drains) + s.rwA.accepted + s.rwB.accepted;
    forall x ensures s.acceptedEver[x] + found[x] == here[x] + gone[x] {
      assert (s.acceptedEver + found)[x] == (here + gone)[x];
    }
    if found == gone {
      assert s.acceptedEver == here;
    }
    if s.acceptedEver == here {
      assert found == gone;
    }
  }

  lemma UndisturbedFinds(p: LockerWriter.Region, ps: seq<Writer>, e: LockerWriter.Region, b: Side, maxSlots: nat,
                         n: nat)
    requires CountersFit(p, b, ps, maxSlots) && SlotsFit(p, maxSlots) && SlotsFit(e, maxSlots) && ClaimsKept(p, e)
    requires |e.claims| == n && forall i :: 0 <= i < n ==> i in p.filled
    ensures multiset(Stored(p.entries, n)) == e.accepted
  {
    MoreClaims(p, e);
    if |p.claims| < n {
      FilledIsClaimed(p, maxSlots, n);
    }
    WrittenIsAccepted(p, maxSlots, e, n);
  }

  lemma TailFinds(s0: State, d: nat, run: TailRun)
    requires IsTailRun(s0, d, run)
    ensures var b := SideOf(d, run);
      (|run.closing.At(b).claims| == run.read.At(b).cursor && AllCountedWritten(d, run) <==> TailUndisturbed(d, run))
      && (TailUndisturbed(d, run) ==> Found(d, run) == run.closing.At(b).accepted)
  {
    var b := SideOf(d, run);
    var s, p, e := run.read, run.stored, run.closing;
    TailOpens(s0, d, run);
    TailReads(s0, d, run);
    TailStores(s0, d, run);
    TailSizes(s0, d, run);
    SideFits(s, b);
    SideFits(p, b);
    SideFits(e, b);
    UndisturbedExactlyWhen(s.At(b), s.writers, p.At(b), p.writers, e.At(b), e.writers, b, s.maxSlots);
    if TailUndisturbed(d, run) {
      UndisturbedFinds(p.At(b), p.writers, e.At(b), b, s.maxSlots, s.At(b).cursor);
    }
  }

  /** After the reset the totals are right and everything counted was written exactly when the tail was
      undisturbed; and then every accepted message is in what was drained or in one region, once. Whatever
      happened, the messages come out right exactly when the drain found what had been accepted by the reset. */
  lemma MessagesSurviveExactlyWhen(s0: State, d: nat, run: TailRun)
    requires IsTailRun(s0, d, run)
    ensures var b, x := SideOf(d, run), After(run.closing, ClearCursor(d));
      && (Counted(x) && AllCountedWritten(d, run) <==> TailUndisturbed(d, run))
      && (TailUndisturbed(d, run) ==> MessagesConserved(x))
      && (MessagesConserved(x) <==> Found(d, run) == run.closing.At(b).accepted)
  {
    var b, x := SideOf(d, run), After(run.closing, ClearCursor(d));
    TailFinds(s0, d, run);
    TailBooks(s0, d, run);
    OffByNothingExactlyWhen(x, Found(d, run), run.closing.At(b).accepted);
  }

  // ----- Counted, and lost all the same -----

  /** The run of `StaleWriterIsLost` seen from its tail: the reservation falls between cursor read and reset. */
  function LateRun(s0: State, before: seq<Action>, m: Message): TailRun
    requires Initial(s0) && Threads(s0)
  {
    var start := Stale(s0, m);
    var read := start.WithDrainer(0, SawZero(0));
    var stored := StaleReserved(read.WithDrainer(0, GotTotal(0, 0, 0)), m);
    TailRun(before, start, [], read,
            [LoadTotal(0)] + LateTicket(), stored, [CountDrain(0)], CountedDown(stored, 0, 0, 0))
  }

  /** The same with the reservation before the cursor read. */
  function EarlyRun(s0: State, before: seq<Action>, m: Message): TailRun
    requires Initial(s0) && Threads(s0)
  {
    var start := Stale(s0, m);
    var read := StaleReserved(start.WithDrainer(0, SawZero(0)), m);
    var stored := read.WithDrainer(0, GotTotal(0, 1, 0));
    TailRun(before, start, LateTicket(), read, [LoadTotal(0)], stored, [CountDrain(0)], CountedDown(stored, 0, 0, 1))
  }

  lemma CountsDown(s: State, n: nat)
    requires s.drainers != [] && s.drainers[0] == GotTotal(0, n, s.totalEntries)
    ensures Enabled(s, StoreTotal(0)) && Run(After(s, StoreTotal(0)), [CountDrain(0)]) == Some(CountedDown(s, 0, 0, n))
    ensures Enabled(CountedDown(s, 0, 0, n), ClearCursor(0))
  {
    var stored := s.(totalEntries := s.totalEntries + n, drains := s.drains + [DrainResult(s.rwA.entries, n)]);
    StoresTotal(s, 0, 0, n, s.totalEntries);
    CountsDrain(stored.WithDrainer(0, AddedTotal(0, n)), 0, 0, n);
    DrainerTwice(stored.(totalDrains := s.totalDrains + 1), 0, AddedTotal(0, n), CountedDrain(0, n));
    OneStep(stored.WithDrainer(0, AddedTotal(0, n)), CountDrain(0), CountedDown(s, 0, 0, n));
    ClearsCursor(CountedDown(s, 0, 0, n), 0, 0, n);
  }

  lemma LoadsThenReserves(s: State, m: Message)
    requires s.drainers != [] && s.drainers[0] == SawZero(0) && LateWriter(s, m) && s.rwA.cursor < s.maxSlots
    ensures Enabled(s, ReadCursor(0))
    ensures Run(After(s, ReadCursor(0)), [LoadTotal(0)] + LateTicket())
         == Some(StaleReserved(s.WithDrainer(0, GotTotal(0, s.rwA.cursor, s.totalEntries)), m))
  {
    var loaded := s.WithDrainer(0, GotTotal(0, s.rwA.cursor, s.totalEntries));
    ReadsAndLoads(s);
    StaleReserve(loaded, m);
    RunConcat(After(s, ReadCursor(0)), [LoadTotal(0)], LateTicket());
  }

  lemma LateRunOpens(s0: State, m: Message) returns (run: TailRun)
    requires Initial(s0) && Threads(s0)
    ensures run == LateRun(s0, run.before, m) && RunOpens(s0, 0, run)
  {
    var before := StaleSpin(s0, m);
    run := LateRun(s0, before, m);
    SeesZero(run.start, 0, 0);
    assert Run(run.read, []) == Some(run.read);
  }

  lemma LateRunIsTailRun(s0: State, m: Message) returns (run: TailRun)
    requires Initial(s0) && Threads(s0) && 0 < s0.maxSlots
    ensures run == LateRun(s0, run.before, m) && IsTailRun(s0, 0, run)
  {
    run := LateRunOpens(s0, m);
    assert RunReads(0, run) by {
      LoadsThenReserves(run.read, m);
    }
    assert RunStores(0, run) by {
      CountsDown(run.stored, 0);
    }
  }

  lemma EarlyRunOpens(s0: State, m: Message) returns (run: TailRun)
    requires Initial(s0) && Threads(s0) && 0 < s0.maxSlots
    ensures run == EarlyRun(s0, run.before, m) && RunOpens(s0, 0, run)
  {
    var before := StaleSpin(s0, m);
    run := EarlyRun(s0, before, m);
    SeesZero(run.start, 0, 0);
    StaleReserve(run.start.WithDrainer(0, SawZero(0)), m);
  }

  lemma EarlyRunIsTailRun(s0: State, m: Message) returns (run: TailRun)
    requires Initial(s0) && Threads(s0) && 0 < s0.maxSlots
    ensures run == EarlyRun(s0, run.before, m) && IsTailRun(s0, 0, run)
  {
    run := EarlyRunOpens(s0, m);
    assert RunReads(0, run) by {
      ReadsAndLoads(run.read);
    }
    assert RunStores(0, run) by {
      CountsDown(run.stored, 1);
    }
  }

  /** Reserved between cursor read and reset: the totals come out wrong, and the message is in no books. */
  lemma StaleRunMiscounts(s0: State, m: Message) returns (run: TailRun)
    requires Initial(s0) && Threads(s0) && 0 < s0.maxSlots
    ensures IsTailRun(s0, 0, run)
    ensures var x := After(run.closing, ClearCursor(0)); !Counted(x) && !NoneMissing(x)
  {
    run := LateRunIsTailRun(s0, m);
    var x := After(run.closing, ClearCursor(0));
    assert x.totalEntries == 0 && x.rwA.claims == map[] && x.rwB.claims == map[];
    assert x.acceptedEver == multiset{Kept(m)} && x.rwA.accepted == x.rwB.accepted == multiset{};
    OneMoreDrain([], DrainResult(run.stored.rwA.entries, 0));
    assert x.drains == [] + [DrainResult(run.stored.rwA.entries, 0)];
    assert Kept(m) in x.acceptedEver;
  }

  /** One slot reserved on the fresh region A, and nothing but the drainer moves from there on. */
  lemma EarlyRunRegions(s0: State, m: Message, run: TailRun)
    requires Initial(s0) && Threads(s0) && 0 < s0.maxSlots && run == EarlyRun(s0, run.before, m)
    ensures run.read.rwA.cursor == 1 && run.read.rwA.claims.Keys == {0} && |run.read.rwA.claims| == 1
    ensures run.stored.rwA == run.read.rwA && run.closing.rwA == run.read.rwA && run.read.rwA.entries == s0.rwA.entries
    ensures SideOf(0, run) == 0
  {
    assert |run.read.rwA.claims.Keys| == |run.read.rwA.claims|;
  }

  lemma EarlyRunCounts(s0: State, m: Message, run: TailRun)
    requires Initial(s0) && Threads(s0) && 0 < s0.maxSlots && run == EarlyRun(s0, run.before, m)
      && IsTailRun(s0, 0, run)
    ensures Tally(run.read.writers, Pending, 0) == 0 && |run.closing.rwA.claims| == |run.read.rwA.claims|
    ensures Counted(After(run.closing, ClearCursor(0)))
  {
    EarlyRunRegions(s0, m, run);
    TailOpens(s0, 0, run);
    CursorParts(run.read, 0);
    TailBooks(s0, 0, run);
  }

  /** What the blank slot held is drained, and the accepted message is not. */
  predicate BlankDrained(s: State, m: Message, entries: seq<MessageEntry>) {
    && s.acceptedEver == multiset{Kept(m)} && s.rwA.accepted == s.rwB.accepted == multiset{}
    && DrainedMessages(s.drains) == multiset{Read(EntryAt(entries, 0))}
  }

  lemma EarlyRunBooks(s0: State, m: Message, run: TailRun)
    requires Initial(s0) && Threads(s0) && 0 < s0.maxSlots && run == EarlyRun(s0, run.before, m)
    ensures var e := run.closing;
      && e.acceptedEver == multiset{Kept(m)} && e.rwB.accepted == multiset{}
      && e.drains == [DrainResult(s0.rwA.entries, 1)] && e.drainers[0] == CountedDrain(0, 1)
  {
  }

  lemma BlankFound(drains: seq<DrainResult>, entries: seq<MessageEntry>)
    requires drains == [DrainResult(entries, 1)]
    ensures DrainedMessages(drains) == multiset{Read(EntryAt(entries, 0))}
  {
    OneMoreDrain([], DrainResult(entries, 1));
    assert drains == [] + [DrainResult(entries, 1)];
    assert Stored(entries, 1) == [Read(EntryAt(entries, 0))];
  }

  lemma EarlyRunDrainsBlank(s0: State, m: Message, run: TailRun)
    requires Initial(s0) && Threads(s0) && 0 < s0.maxSlots && run == EarlyRun(s0, run.before, m)
    requires Enabled(run.closing, ClearCursor(0))
    ensures BlankDrained(After(run.closing, ClearCursor(0)), m, s0.rwA.entries)
  {
    EarlyRunBooks(s0, m, run);
    ClearsCursor(run.closing, 0, 0, 1);
    BlankFound(run.closing.drains, s0.rwA.entries);
  }

  lemma BlankDrainedIsMissing(s: State, m: Message, entries: seq<MessageEntry>)
    requires BlankDrained(s, m, entries) && Kept(m) != Read(EntryAt(entries, 0))
    ensures !NoneMissing(s) && !MessagesConserved(s)
  {
    assert Kept(m) in s.acceptedEver;
  }

  /** Reserved before the cursor read but written after the total was stored: the totals come out right, since
      nothing was rolled back and nothing reserved in between, and yet the message is lost: the drain found what
      the slot held before. */
  lemma CountedAndLost(s0: State, m: Message) returns (run: TailRun)
    requires Initial(s0) && Threads(s0) && 0 < s0.maxSlots && Kept(m) != Read(EntryAt(s0.rwA.entries, 0))
    ensures IsTailRun(s0, 0, run) && !TailUndisturbed(0, run)
    ensures Tally(run.read.writers, Pending, 0) == 0 && |run.closing.rwA.claims| == |run.read.rwA.claims|
    ensures var x := After(run.closing, ClearCursor(0));
      Counted(x) && BlankDrained(x, m, s0.rwA.entries) && !NoneMissing(x)
  {
    run := EarlyRunIsTailRun(s0, m);
    EarlyRunCounts(s0, m, run);
    EarlyRunDrainsBlank(s0, m, run);
    BlankDrainedIsMissing(After(run.closing, ClearCursor(0)), m, s0.rwA.entries);
    MessagesSurviveExactlyWhen(s0, 0, run);
  }
}
