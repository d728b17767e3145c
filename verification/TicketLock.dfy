/** The ticket lock (`WriteLock`): counters that wrap at `w` (2^32 in the engine), any number of threads,
    each taking a ticket, spinning until it is served, and releasing. */
module TicketLock {
  import opened Base

  // ----- The two counters -----

  datatype Lock = Lock(ticket: nat, serving: nat)

  /** An atomic fetch-add of one on a counter that wraps at `w`. */
  function Inc(w: nat, x: nat): nat {
    if x + 1 == w then 0 else x + 1
  }

  function Taken(w: nat, l: Lock): Lock {
    l.(ticket := Inc(w, l.ticket))
  }

  function Served(w: nat, l: Lock): Lock {
    l.(serving := Inc(w, l.serving))
  }

  /** The lock as the engine holds it. */
  class WriteLock {
    var ticket: u32
    var serving: u32

    function Value(): Lock
      reads this
    {
      Lock(ticket, serving)
    }

    constructor ()
      ensures ticket == serving == 0 && Value() == Lock(0, 0)
    {
      ticket, serving := 0, 0;
    }

    method AcquireTicket() returns (mine: u32)
      modifies this
      ensures mine == old(ticket) && ticket == (mine + 1) % 0x1_0000_0000 && serving == old(serving)
      ensures Value() == Taken(TWO_32, old(Value()))
    {
      mine := ticket;
      ticket := Inc32(ticket);
    }

    /** One round of the spin in `waitForTurn`. */
    method IsMyTurn(mine: u32) returns (go: bool)
      ensures go <==> serving == mine
    {
      go := serving == mine;
    }

    method Release()
      modifies this
      ensures serving == (old(serving) + 1) % 0x1_0000_0000 && ticket == old(ticket)
      ensures Value() == Served(TWO_32, old(Value()))
    {
      serving := Inc32(serving);
    }
  }

  // ----- Threads -----

  datatype Thread = Outside | Waiting(mine: nat) | Inside(mine: nat)

  /** The last three fields are history: who holds an unreleased ticket, in the order the tickets were
      taken; everyone who ever took one, in that order; everyone who ever got in, in the order they did. */
  datatype State = State(
    lock: Lock,
    threads: seq<Thread>,
    queue: seq<nat>,
    arrived: seq<nat>,
    entered: seq<nat>
  )

  datatype Action = Acquire(t: nat) | Enter(t: nat) | Release(t: nat)

  /** A thread whose ticket is not served yet keeps spinning: it has no step. */
  predicate Enabled(s: State, a: Action) {
    a.t < |s.threads| &&
    match a
    case Acquire(t) => s.threads[t].Outside?
    case Enter(t) => s.threads[t].Waiting? && s.lock.serving == s.threads[t].mine
    case Release(t) => s.threads[t].Inside?
  }

  function Without(q: seq<nat>): seq<nat> {
    if q == [] then [] else q[1..]
  }

  function After(w: nat, s: State, a: Action): State
    requires Enabled(s, a)
  {
    match a
    case Acquire(t) =>
      s.(lock := Taken(w, s.lock), threads := s.threads[t := Waiting(s.lock.ticket)],
         queue := s.queue + [t], arrived := s.arrived + [t])
    case Enter(t) => s.(threads := s.threads[t := Inside(s.threads[t].mine)], entered := s.entered + [t])
    case Release(t) => s.(lock := Served(w, s.lock), threads := s.threads[t := Outside], queue := Without(s.queue))
  }

  function Run(w: nat, s: State, actions: seq<Action>): Option<State>
    decreases |actions|
  {
    if actions == [] then Some(s)
    else if Enabled(s, actions[0]) then Run(w, After(w, s, actions[0]), actions[1..])
    else None
  }

  function Initial(n: nat): State {
    State(Lock(0, 0), seq(n, i => Outside), [], [], [])
  }

  // ----- The invariant -----

  /** The counter value `i` steps ahead of `x`, for `i` at most one turn of the wheel. */
  function Ahead(w: nat, x: nat, i: nat): nat {
    if x + i >= w then x + i - w else x + i
  }

  predicate Distinct(q: seq<nat>) {
    forall i, j :: 0 <= i < j < |q| ==> q[i] != q[j]
  }

  /** The unreleased tickets are consecutive from the one being served, and only the first may be inside. */
  ghost predicate QueueFits(w: nat, s: State) {
    && (forall i :: 0 <= i < |s.queue| ==> s.queue[i] < |s.threads|)
    && Distinct(s.queue)
    && (forall t :: 0 <= t < |s.threads| ==> (!s.threads[t].Outside? <==> t in s.queue))
    && (forall i :: 0 <= i < |s.queue| ==>
          !s.threads[s.queue[i]].Outside? && s.threads[s.queue[i]].mine == Ahead(w, s.lock.serving, i))
    && (forall i :: 0 < i < |s.queue| ==> s.threads[s.queue[i]].Waiting?)
  }

  predicate FirstInside(s: State) {
    s.queue != [] && s.queue[0] < |s.threads| && s.threads[s.queue[0]].Inside?
  }

  /** Everyone who arrived either has come and gone or is queued, and they got in in that order. */
  ghost predicate OrderFits(s: State) {
    && |s.queue| <= |s.arrived|
    && var gone := |s.arrived| - |s.queue|;
      && s.arrived[gone..] == s.queue
      && s.entered == (if FirstInside(s) then s.arrived[..gone + 1] else s.arrived[..gone])
  }

  ghost predicate Inv(w: nat, s: State) {
    && |s.threads| <= w
    && s.lock.serving < w && |s.queue| <= w
    && s.lock.ticket == Ahead(w, s.lock.serving, |s.queue|)
    && QueueFits(w, s) && OrderFits(s)
  }

  lemma {:induction false} DistinctBelow(q: seq<nat>, n: nat)
    requires Distinct(q) && forall i :: 0 <= i < |q| ==> q[i] < n
    ensures |q| <= n
  {
    assert q != [] ==> q[0] < n;
    if n == 0 {
    } else if n - 1 in q {
      var k :| 0 <= k < |q| && q[k] == n - 1;
      var rest := q[..k] + q[k + 1..];
      DistinctBelow(rest, n - 1);
    } else {
      DistinctBelow(q, n - 1);
    }
  }

  lemma InitialFits(w: nat, n: nat)
    requires 0 < w && n <= w
    ensures Inv(w, Initial(n))
  {
  }

  lemma AcquireQueue(w: nat, s: State, t: nat)
    requires QueueFits(w, s) && s.lock.ticket == Ahead(w, s.lock.serving, |s.queue|) && Enabled(s, Acquire(t))
    ensures QueueFits(w, After(w, s, Acquire(t)))
  {
    var s' := After(w, s, Acquire(t));
    assert s'.queue[|s.queue|] == t;
    forall u | 0 <= u < |s'.threads| ensures !s'.threads[u].Outside? <==> u in s'.queue {
      assert u in s'.queue <==> u in s.queue || u == t;
    }
  }

  lemma ArrivedSnoc(arrived: seq<nat>, gone: nat, t: nat)
    requires gone <= |arrived|
    ensures (arrived + [t])[gone..] == arrived[gone..] + [t] && (arrived + [t])[..gone] == arrived[..gone]
    ensures gone < |arrived| ==> (arrived + [t])[..gone + 1] == arrived[..gone + 1]
  {
  }

  lemma AcquireLeavesFirst(w: nat, s: State, t: nat)
    requires QueueFits(w, s) && Enabled(s, Acquire(t))
    ensures FirstInside(After(w, s, Acquire(t))) <==> FirstInside(s)
  {
    if s.queue != [] {
      assert s.queue[0] != t;
    }
  }

  lemma AcquireOrder(w: nat, s: State, t: nat)
    requires QueueFits(w, s) && OrderFits(s) && Enabled(s, Acquire(t))
    ensures OrderFits(After(w, s, Acquire(t)))
  {
    ArrivedSnoc(s.arrived, |s.arrived| - |s.queue|, t);
    AcquireLeavesFirst(w, s, t);
  }

  lemma AcquireKeeps(w: nat, s: State, t: nat)
    requires Inv(w, s) && Enabled(s, Acquire(t))
    ensures Inv(w, After(w, s, Acquire(t)))
  {
    AcquireQueue(w, s, t);
    AcquireOrder(w, s, t);
    DistinctBelow(After(w, s, Acquire(t)).queue, |s.threads|);
  }

  /** Only the thread at the head of the queue finds its ticket served. */
  lemma ServedIsFirst(w: nat, s: State, t: nat)
    requires Inv(w, s) && t < |s.threads| && !s.threads[t].Outside? && s.threads[t].mine == s.lock.serving
    ensures s.queue != [] && s.queue[0] == t
  {
    var i :| 0 <= i < |s.queue| && s.queue[i] == t;
    assert s.threads[t].mine == Ahead(w, s.lock.serving, i);
  }

  lemma EnterQueue(w: nat, s: State, t: nat)
    requires QueueFits(w, s) && Enabled(s, Enter(t)) && s.queue != [] && s.queue[0] == t
    ensures QueueFits(w, After(w, s, Enter(t)))
  {
  }

  lemma EnterOrder(w: nat, s: State, t: nat)
    requires OrderFits(s) && Enabled(s, Enter(t)) && s.queue != [] && s.queue[0] == t
    ensures OrderFits(After(w, s, Enter(t)))
  {
    var gone := |s.arrived| - |s.queue|;
    assert s.arrived[gone] == s.arrived[gone..][0];
    assert s.arrived[..gone + 1] == s.arrived[..gone] + [t];
  }

  lemma EnterKeeps(w: nat, s: State, t: nat)
    requires Inv(w, s) && Enabled(s, Enter(t))
    ensures Inv(w, After(w, s, Enter(t)))
  {
    ServedIsFirst(w, s, t);
    EnterQueue(w, s, t);
    EnterOrder(w, s, t);
  }

  lemma InsideIsFirst(w: nat, s: State, t: nat)
    requires Inv(w, s) && t < |s.threads| && s.threads[t].Inside?
    ensures s.queue != [] && s.queue[0] == t
  {
    var i :| 0 <= i < |s.queue| && s.queue[i] == t;
  }

  lemma ReleaseQueue(w: nat, s: State, t: nat)
    requires QueueFits(w, s) && s.lock.serving < w && |s.queue| <= w
    requires Enabled(s, Release(t)) && s.queue != [] && s.queue[0] == t
    ensures QueueFits(w, After(w, s, Release(t)))
  {
    var s' := After(w, s, Release(t));
    forall i | 0 <= i < |s'.queue|
      ensures s'.queue[i] == s.queue[i + 1] && s'.queue[i] != t
      ensures s'.threads[s'.queue[i]].mine == Ahead(w, s'.lock.serving, i)
    {
    }
    forall u | 0 <= u < |s'.threads| ensures !s'.threads[u].Outside? <==> u in s'.queue {
      assert s.queue == [t] + s'.queue;
    }
  }

  lemma ReleaseOrder(w: nat, s: State, t: nat)
    requires QueueFits(w, s) && OrderFits(s)
    requires Enabled(s, Release(t)) && s.queue != [] && s.queue[0] == t
    ensures OrderFits(After(w, s, Release(t)))
  {
    var gone := |s.arrived| - |s.queue|;
    assert s.arrived[gone + 1..] == s.arrived[gone..][1..];
  }

  lemma ReleaseKeeps(w: nat, s: State, t: nat)
    requires Inv(w, s) && Enabled(s, Release(t))
    ensures Inv(w, After(w, s, Release(t)))
  {
    InsideIsFirst(w, s, t);
    ReleaseQueue(w, s, t);
    ReleaseOrder(w, s, t);
  }

  lemma StepKeeps(w: nat, s: State, a: Action)
    requires Inv(w, s) && Enabled(s, a)
    ensures Inv(w, After(w, s, a))
  {
    match a {
      case Acquire(t) => AcquireKeeps(w, s, t);
      case Enter(t) => EnterKeeps(w, s, t);
      case Release(t) => ReleaseKeeps(w, s, t);
    }
  }

  lemma {:induction false} RunKeeps(w: nat, s: State, actions: seq<Action>, e: State)
    requires Inv(w, s) && Run(w, s, actions) == Some(e)
    ensures Inv(w, e)
    decreases |actions|
  {
    if actions != [] {
      StepKeeps(w, s, actions[0]);
      RunKeeps(w, After(w, s, actions[0]), actions[1..], e);
    }
  }

  // ----- What the lock guarantees -----

  ghost predicate Reached(w: nat, n: nat, actions: seq<Action>, s: State) {
    Run(w, Initial(n), actions) == Some(s)
  }

  lemma ReachedFits(w: nat, n: nat, actions: seq<Action>, s: State)
    requires 0 < w && n <= w && Reached(w, n, actions, s)
    ensures Inv(w, s)
  {
    InitialFits(w, n);
    RunKeeps(w, Initial(n), actions, s);
  }

  predicate AtMostOneInside(s: State) {
    forall t, u :: 0 <= t < u < |s.threads| ==> !(s.threads[t].Inside? && s.threads[u].Inside?)
  }

  lemma MutualExclusion(w: nat, n: nat, actions: seq<Action>, s: State)
    requires 0 < w && n <= w && Reached(w, n, actions, s)
    ensures forall t, u :: 0 <= t < u < |s.threads| ==> !(s.threads[t].Inside? && s.threads[u].Inside?)
    ensures AtMostOneInside(s)
  {
    ReachedFits(w, n, actions, s);
    forall t, u | 0 <= t < u < |s.threads| ensures !(s.threads[t].Inside? && s.threads[u].Inside?) {
      if s.threads[t].Inside? && s.threads[u].Inside? {
        InsideIsFirst(w, s, t);
        InsideIsFirst(w, s, u);
      }
    }
  }

  /** Threads get in strictly in the order in which they took their tickets, and nobody is skipped. */
  lemma FirstComeFirstServed(w: nat, n: nat, actions: seq<Action>, s: State)
    requires 0 < w && n <= w && Reached(w, n, actions, s)
    ensures s.entered <= s.arrived
    ensures |s.arrived| - |s.queue| <= |s.entered|
  {
    ReachedFits(w, n, actions, s);
  }

  /** As long as somebody holds a ticket, the first in line can get in or is in and can release. */
  lemma NeverStuck(w: nat, n: nat, actions: seq<Action>, s: State)
    requires 0 < w && n <= w && Reached(w, n, actions, s) && s.queue != []
    ensures s.queue[0] < |s.threads|
    ensures Enabled(s, Enter(s.queue[0])) || Enabled(s, Release(s.queue[0]))
  {
    ReachedFits(w, n, actions, s);
  }

  /** How far the served number is from the thread's ticket, on the wheel of `w` numbers. */
  function Distance(w: nat, s: State, t: nat): int
    requires t < |s.threads| && !s.threads[t].Outside?
  {
    var mine := s.threads[t].mine;
    if mine >= s.lock.serving then mine - s.lock.serving else mine + w - s.lock.serving
  }

  function Releases(actions: seq<Action>): nat {
    if actions == [] then 0 else (if actions[0].Release? then 1 else 0) + Releases(actions[1..])
  }

  /** Thread `t` does not step in the schedule. */
  predicate StaysOut(t: nat, actions: seq<Action>) {
    forall i :: 0 <= i < |actions| ==> actions[i].t != t
  }

  lemma DistanceIsPosition(w: nat, s: State, t: nat) returns (i: nat)
    requires Inv(w, s) && t < |s.threads| && !s.threads[t].Outside?
    ensures i < |s.queue| && s.queue[i] == t && Distance(w, s, t) == i
  {
    i :| 0 <= i < |s.queue| && s.queue[i] == t;
  }

  lemma StepBringsCloser(w: nat, s: State, a: Action, t: nat)
    requires Inv(w, s) && Enabled(s, a) && a.t != t && t < |s.threads| && !s.threads[t].Outside?
    ensures var s' := After(w, s, a);
      && t < |s'.threads| && s'.threads[t] == s.threads[t]
      && Distance(w, s, t) == Distance(w, s', t) + (if a.Release? then 1 else 0)
  {
    var i := DistanceIsPosition(w, s, t);
    if a.Release? {
      InsideIsFirst(w, s, a.t);
    }
  }

  lemma RestStaysOut(t: nat, actions: seq<Action>)
    requires StaysOut(t, actions) && actions != []
    ensures StaysOut(t, actions[1..]) && actions[0].t != t
  {
  }

  lemma HeadBringsCloser(w: nat, s: State, actions: seq<Action>, t: nat) returns (m: State)
    requires Inv(w, s) && StaysOut(t, actions) && actions != [] && Enabled(s, actions[0])
    requires t < |s.threads| && !s.threads[t].Outside?
    ensures m == After(w, s, actions[0]) && Inv(w, m) && StaysOut(t, actions[1..])
    ensures t < |m.threads| && m.threads[t] == s.threads[t]
    ensures Distance(w, s, t) == Distance(w, m, t) + (if actions[0].Release? then 1 else 0)
  {
    var a := actions[0];
    m := After(w, s, a);
    RestStaysOut(t, actions);
    StepBringsCloser(w, s, a, t);
    StepKeeps(w, s, a);
  }

  lemma {:induction false} RunBringsCloser(w: nat, s: State, actions: seq<Action>, e: State, t: nat)
    requires Inv(w, s) && Run(w, s, actions) == Some(e) && StaysOut(t, actions)
    requires t < |s.threads| && !s.threads[t].Outside?
    ensures t < |e.threads| && e.threads[t] == s.threads[t]
    ensures Distance(w, s, t) == Distance(w, e, t) + Releases(actions)
    decreases |actions|
  {
    if actions != [] {
      var m := HeadBringsCloser(w, s, actions, t);
      RunBringsCloser(w, m, actions[1..], e, t);
    }
  }

  /** A waiting thread's distance falls by exactly one at each release by another and by nothing else; it
      is its place in the queue, so after that many releases, and not before, it is the thread's turn. */
  lemma EveryWaiterIsReached(w: nat, n: nat, before: seq<Action>, s: State, during: seq<Action>, e: State, t: nat)
    requires 0 < w && n <= w && Reached(w, n, before, s) && Run(w, s, during) == Some(e) && StaysOut(t, during)
    requires t < |s.threads| && s.threads[t].Waiting?
    ensures 0 <= Distance(w, s, t) < |s.queue| && s.queue[Distance(w, s, t)] == t
    ensures t < |e.threads| && e.threads[t] == s.threads[t]
    ensures Distance(w, s, t) == Distance(w, e, t) + Releases(during)
    ensures Releases(during) <= Distance(w, s, t)
    ensures Enabled(e, Enter(t)) <==> Releases(during) == Distance(w, s, t)
  {
    ReachedFits(w, n, before, s);
    var i := DistanceIsPosition(w, s, t);
    RunBringsCloser(w, s, during, e, t);
    RunKeeps(w, s, during, e);
    var j := DistanceIsPosition(w, e, t);
  }

  // ----- One thread too many -----

  /** The state after threads 0 to `k - 1` have each taken a ticket, for `k` at most one turn and one more. */
  function AllWaiting(w: nat, n: nat, k: nat): State
    requires 0 < w && k <= n
  {
    State(Lock(if k < w then k else if k == w then 0 else Inc(w, 0), 0),
          seq(n, (i: nat) => if i < k then Waiting(Ahead(w, 0, i)) else Outside),
          seq(k, (i: nat) => i), seq(k, (i: nat) => i), [])
  }

  lemma {:induction false} RunSnoc(w: nat, s: State, actions: seq<Action>, m: State, a: Action)
    requires Run(w, s, actions) == Some(m) && Enabled(m, a)
    ensures Run(w, s, actions + [a]) == Some(After(w, m, a))
    decreases |actions|
  {
    if actions == [] {
      assert actions + [a] == [a];
      assert Run(w, After(w, s, a), []) == Some(After(w, s, a));
    } else {
      assert (actions + [a])[1..] == actions[1..] + [a];
      RunSnoc(w, After(w, s, actions[0]), actions[1..], m, a);
    }
  }

  lemma {:induction false} AcquireAll(w: nat, n: nat, k: nat) returns (actions: seq<Action>)
    requires 0 < w && k <= n && k <= w + 1
    ensures Reached(w, n, actions, AllWaiting(w, n, k))
  {
    if k == 0 {
      actions := [];
      assert AllWaiting(w, n, 0) == Initial(n);
    } else {
      actions := AcquireAll(w, n, k - 1);
      var m := AllWaiting(w, n, k - 1);
      RunSnoc(w, Initial(n), actions, m, Acquire(k - 1));
      var s := After(w, m, Acquire(k - 1));
      assert s.threads == AllWaiting(w, n, k).threads;
      assert s.queue == AllWaiting(w, n, k).queue;
      assert s.arrived == AllWaiting(w, n, k).arrived;
      actions := actions + [Acquire(k - 1)];
    }
  }

  /** With more threads than numbers on the wheel, thread `w` draws the number of thread 0 and both get in. */
  lemma TooManyThreads(w: nat, n: nat) returns (actions: seq<Action>, s: State)
    requires 0 < w < n
    ensures Reached(w, n, actions, s) && !AtMostOneInside(s)
  {
    actions := AcquireAll(w, n, w + 1);
    var m := AllWaiting(w, n, w + 1);
    RunSnoc(w, Initial(n), actions, m, Enter(0));
    var m' := After(w, m, Enter(0));
    RunSnoc(w, Initial(n), actions + [Enter(0)], m', Enter(w));
    s := After(w, m', Enter(w));
    actions := actions + [Enter(0)] + [Enter(w)];
    assert s.threads[0].Inside? && s.threads[w].Inside?;
  }

  /** The lock excludes on every run exactly when there are no more threads than ticket numbers. */
  lemma ExcludesExactlyUpToWrap(w: nat, n: nat)
    requires 0 < w
    ensures (forall actions, s :: Reached(w, n, actions, s) ==> AtMostOneInside(s)) <==> n <= w
  {
    if n <= w {
      forall actions, s | Reached(w, n, actions, s) ensures AtMostOneInside(s) {
        MutualExclusion(w, n, actions, s);
      }
    } else {
      var actions, s := TooManyThreads(w, n);
    }
  }
}
