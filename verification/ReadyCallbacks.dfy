/** Handing callbacks to the player when it becomes ready (daemon/api_server.go).

  `SetPlayerReady` swaps an atomic flag outside the lock and then drains the list of waiting
  callbacks inside it; `OnPlayerReady` tests the flag inside the lock and either runs its callback
  or leaves it in the list.  Each call is a thread that moves one atomic step at a time, and an
  interleaving is any sequence of thread starts and steps.  A registration is named by the thread
  that makes it.
 */
module ReadyCallbacks {
  import opened Options

  type Thread = nat

  /** Where a call is: `Set...` in `SetPlayerReady`, `On...` in `OnPlayerReady`. */
  datatype Pc =
    | SetSwap(ready: bool)
    | SetLock
    | SetTake
    | SetClear(fns: seq<Thread>)
    | SetUnlock(fns: seq<Thread>)
    | SetRun(fns: seq<Thread>)
    | OnLock
    | OnTest
    | OnUnlockReady
    | OnRun
    | OnAppend
    | OnUnlockWaiting

  datatype State = State(
    ready: bool,
    lock: Option<Thread>,
    waiting: seq<Thread>,
    ran: seq<Thread>,
    threads: map<Thread, Pc>,
    started: set<Thread>,
    registered: set<Thread>)

  const INITIAL := State(false, None, [], [], map[], {}, {})

  datatype Event = StartSet(t: Thread, ready: bool) | StartOn(t: Thread) | Advance(t: Thread)

  function Goto(st: State, t: Thread, pc: Pc): State { st.(threads := st.threads[t := pc]) }

  function Return(st: State, t: Thread): State { st.(threads := st.threads - {t}) }

  /** One atomic step of a running call; a call that waits for the lock does not move. */
  function Move(st: State, t: Thread): State
    requires t in st.threads
  {
    match st.threads[t]
    case SetSwap(ready) =>
      var swapped := st.(ready := ready);
      if !ready || st.ready then Return(swapped, t) else Goto(swapped, t, SetLock)
    case SetLock =>
      if st.lock.None? then Goto(st.(lock := Some(t)), t, SetTake) else st
    case SetTake => Goto(st, t, SetClear(st.waiting))
    case SetClear(fns) => Goto(st.(waiting := []), t, SetUnlock(fns))
    case SetUnlock(fns) => Goto(st.(lock := None), t, SetRun(fns))
    case SetRun(fns) =>
      if fns == [] then Return(st, t) else Goto(st.(ran := st.ran + [fns[0]]), t, SetRun(fns[1..]))
    case OnLock =>
      if st.lock.None? then Goto(st.(lock := Some(t)), t, OnTest) else st
    case OnTest => Goto(st, t, if st.ready then OnUnlockReady else OnAppend)
    case OnUnlockReady => Goto(st.(lock := None), t, OnRun)
    case OnRun => Return(st.(ran := st.ran + [t]), t)
    case OnAppend => Goto(st.(waiting := st.waiting + [t]), t, OnUnlockWaiting)
    case OnUnlockWaiting => Return(st.(lock := None), t)
  }

  /** Events that cannot happen change nothing, so every sequence of events is a run. */
  function Step(st: State, e: Event): State {
    match e
    case StartSet(t, ready) =>
      if t in st.started then st else Goto(st.(started := st.started + {t}), t, SetSwap(ready))
    case StartOn(t) =>
      if t in st.started then st
      else Goto(st.(started := st.started + {t}, registered := st.registered + {t}), t, OnLock)
    case Advance(t) => if t in st.threads then Move(st, t) else st
  }

  function Run(events: seq<Event>): State {
    if events == [] then INITIAL else Step(Run(events[..|events| - 1]), events[|events| - 1])
  }

  // ----- The lock -----

  predicate Critical(pc: Pc) {
    pc.SetTake? || pc.SetClear? || pc.SetUnlock? || pc.OnTest? || pc.OnUnlockReady? || pc.OnAppend? || pc.OnUnlockWaiting?
  }

  /** Exactly the thread inside a critical section holds the lock. */
  ghost predicate Locked(st: State) {
    && (st.lock.Some? ==> st.lock.value in st.threads && Critical(st.threads[st.lock.value]))
    && (forall t :: t in st.threads && Critical(st.threads[t]) ==> st.lock == Some(t))
    && (forall t :: t in st.threads && st.threads[t].SetClear? ==> st.threads[t].fns == st.waiting)
    && st.threads.Keys <= st.started
  }

  predicate IsSet(pc: Pc) {
    pc.SetSwap? || pc.SetLock? || pc.SetTake? || pc.SetClear? || pc.SetUnlock? || pc.SetRun?
  }

  lemma LockedSetMove(st: State, t: Thread)
    requires Locked(st) && t in st.threads && IsSet(st.threads[t])
    ensures Locked(Move(st, t))
  {
  }

  lemma LockedOnMove(st: State, t: Thread)
    requires Locked(st) && t in st.threads && !IsSet(st.threads[t])
    ensures Locked(Move(st, t))
  {
  }

  lemma LockedStep(st: State, e: Event)
    requires Locked(st)
    ensures Locked(Step(st, e))
  {
    if e.Advance? && e.t in st.threads {
      if IsSet(st.threads[e.t]) {
        LockedSetMove(st, e.t);
      } else {
        LockedOnMove(st, e.t);
      }
    }
  }

  // ----- Nobody waits while ready -----

  predicate Draining(pc: Pc) { pc.SetLock? || pc.SetTake? || pc.SetClear? }

  ghost predicate SomeDrainer(st: State) { exists t :: t in st.threads && Draining(st.threads[t]) }

  /** Whenever the flag is up and a callback waits, or is about to, a drainer is on its way. */
  ghost predicate Drained(st: State) {
    && (st.ready && st.waiting != [] ==> SomeDrainer(st))
    && (forall t :: t in st.threads && st.threads[t].OnAppend? && st.ready ==> SomeDrainer(st))
  }

  lemma DrainerStays(st: State, e: Event, d: Thread)
    requires d in st.threads && Draining(st.threads[d])
    requires e == Advance(d) ==> !st.threads[d].SetClear?
    requires Locked(st)
    ensures SomeDrainer(Step(st, e))
  {
    var st' := Step(st, e);
    assert d in st'.threads && Draining(st'.threads[d]);
  }

  lemma DrainedStep(st: State, e: Event)
    requires Locked(st) && Drained(st)
    ensures Drained(Step(st, e))
  {
    var st' := Step(st, e);
    if SomeDrainer(st) {
      var d :| d in st.threads && Draining(st.threads[d]);
      if e == Advance(d) && st.threads[d].SetClear? {
        assert st'.waiting == [];
      } else {
        DrainerStays(st, e, d);
      }
    } else if e.Advance? && e.t in st.threads && st.threads[e.t].SetSwap? && st'.ready && !st.ready {
      assert Draining(st'.threads[e.t]);
    }
  }

  // ----- Each callback runs at most once, and none is lost -----

  /** The callbacks a thread is responsible for. */
  function Holding(pc: Pc, t: Thread): seq<Thread> {
    match pc
    case SetUnlock(fns) => fns
    case SetRun(fns) => fns
    case OnLock => [t]
    case OnTest => [t]
    case OnUnlockReady => [t]
    case OnRun => [t]
    case OnAppend => [t]
    case _ => []
  }

  ghost predicate Distinct(s: seq<Thread>) { forall i, j :: 0 <= i < j < |s| ==> s[i] != s[j] }

  ghost predicate Holds(st: State, t: Thread, cb: Thread) { t in st.threads && cb in Holding(st.threads[t], t) }

  /** A callback is in one place: with one thread, in the list, or in the log of those run. */
  ghost predicate Single(st: State) {
    && Distinct(st.waiting) && Distinct(st.ran)
    && (forall t :: t in st.threads ==> Distinct(Holding(st.threads[t], t)))
    && (forall cb :: cb in st.waiting ==> cb !in st.ran)
    && (forall t, cb :: Holds(st, t, cb) ==> cb !in st.waiting && cb !in st.ran)
    && (forall t, u, cb :: Holds(st, t, cb) && Holds(st, u, cb) ==> t == u)
    && (forall cb :: cb in st.waiting || cb in st.ran ==> cb in st.registered)
    && (forall t, cb :: Holds(st, t, cb) ==> cb in st.registered)
    && st.registered <= st.started
  }

  ghost predicate Somewhere(st: State, cb: Thread) {
    cb in st.waiting || cb in st.ran || exists t :: Holds(st, t, cb)
  }

  ghost predicate NoneLost(st: State) { forall cb :: cb in st.registered ==> Somewhere(st, cb) }

  lemma SingleStartSet(st: State, t: Thread, ready: bool)
    requires Locked(st) && Single(st)
    ensures Single(Step(st, StartSet(t, ready)))
  {
    var st' := Step(st, StartSet(t, ready));
    assert forall u, cb :: Holds(st', u, cb) ==> Holds(st, u, cb);
  }

  lemma SingleStartOn(st: State, t: Thread)
    requires Locked(st) && Single(st) && t !in st.started
    ensures Single(Step(st, StartOn(t)))
  {
    var st' := Step(st, StartOn(t));
    assert forall u, cb :: Holds(st', u, cb) ==> Holds(st, u, cb) || (u == t && cb == t);
  }

  lemma SingleSetMove(st: State, t: Thread)
    requires Locked(st) && Single(st) && t in st.threads
    requires st.threads[t].SetSwap? || st.threads[t].SetLock? || st.threads[t].SetTake? || st.threads[t].SetUnlock?
          || st.threads[t] == SetRun([])
    ensures Single(Move(st, t))
  {
    var st' := Move(st, t);
    assert forall u, cb :: Holds(st', u, cb) ==> Holds(st, u, cb);
  }

  lemma SingleSetClear(st: State, t: Thread)
    requires Locked(st) && Single(st) && t in st.threads && st.threads[t].SetClear?
    ensures Single(Move(st, t))
  {
    var st' := Move(st, t);
    assert forall u, cb :: Holds(st', u, cb) && u != t ==> Holds(st, u, cb);
    assert forall cb :: Holds(st', t, cb) ==> cb in st.waiting;
  }

  /** Running the first callback of a list takes it out of every thread's hands. */
  lemma SetRunHolds(st: State, t: Thread, u: Thread, cb: Thread)
    requires Locked(st) && Single(st) && t in st.threads && st.threads[t].SetRun? && st.threads[t].fns != []
    requires Holds(Move(st, t), u, cb)
    ensures Holds(st, u, cb) && cb != st.threads[t].fns[0]
  {
    var fns := st.threads[t].fns;
    assert Holds(st, t, fns[0]);
    if u == t {
      assert Distinct(Holding(st.threads[t], t)) && cb in fns[1..];
    } else {
      assert Holds(st, u, cb);
    }
  }

  lemma SingleSetRun(st: State, t: Thread)
    requires Locked(st) && Single(st) && t in st.threads && st.threads[t].SetRun? && st.threads[t].fns != []
    ensures Single(Move(st, t))
  {
    var st', fns := Move(st, t), st.threads[t].fns;
    assert Holds(st, t, fns[0]);
    forall u, cb | Holds(st', u, cb)
      ensures Holds(st, u, cb) && cb != fns[0]
    {
      SetRunHolds(st, t, u, cb);
    }
  }

  lemma SingleOnMove(st: State, t: Thread)
    requires Locked(st) && Single(st) && t in st.threads
    requires st.threads[t].OnLock? || st.threads[t].OnTest? || st.threads[t].OnUnlockReady? || st.threads[t].OnUnlockWaiting?
    ensures Single(Move(st, t))
  {
    var st' := Move(st, t);
    assert forall u, cb :: Holds(st', u, cb) ==> Holds(st, u, cb);
  }

  lemma SingleOnLeave(st: State, t: Thread)
    requires Locked(st) && Single(st) && t in st.threads
    requires st.threads[t].OnRun? || st.threads[t].OnAppend?
    ensures Single(Move(st, t))
  {
    var st' := Move(st, t);
    assert Holds(st, t, t);
    assert forall u, cb :: Holds(st', u, cb) ==> Holds(st, u, cb) && u != t;
  }

  lemma SingleStep(st: State, e: Event)
    requires Locked(st) && Single(st)
    ensures Single(Step(st, e))
  {
    if e.StartSet? {
      SingleStartSet(st, e.t, e.ready);
    } else if e.StartOn? {
      if e.t !in st.started {
        SingleStartOn(st, e.t);
      }
    } else if e.t in st.threads {
      match st.threads[e.t]
      case SetClear(_) => SingleSetClear(st, e.t);
      case SetRun(fns) => if fns == [] { SingleSetMove(st, e.t); } else { SingleSetRun(st, e.t); }
      case SetSwap(_) => SingleSetMove(st, e.t);
      case SetLock => SingleSetMove(st, e.t);
      case SetTake => SingleSetMove(st, e.t);
      case SetUnlock(_) => SingleSetMove(st, e.t);
      case OnRun => SingleOnLeave(st, e.t);
      case OnAppend => SingleOnLeave(st, e.t);
      case _ => SingleOnMove(st, e.t);
    }
  }

  /** Wherever a callback is, one step later it is still somewhere. */
  lemma StaysSomewhere(st: State, e: Event, cb: Thread)
    requires Locked(st) && Somewhere(st, cb)
    ensures Somewhere(Step(st, e), cb)
  {
    if exists t :: Holds(st, t, cb) {
      var t :| Holds(st, t, cb);
      if e == Advance(t) {
        HeldStays(st, t, cb);
      } else {
        assert Holds(Step(st, e), t, cb);
      }
    } else {
      ListedStays(st, e, cb);
    }
  }

  lemma ListedStays(st: State, e: Event, cb: Thread)
    requires Locked(st) && (cb in st.waiting || cb in st.ran)
    ensures Somewhere(Step(st, e), cb)
  {
    var st' := Step(st, e);
    if cb in st.waiting && cb !in st'.waiting {
      assert Holds(st', e.t, cb);
    }
  }

  lemma HeldStays(st: State, t: Thread, cb: Thread)
    requires Locked(st) && Holds(st, t, cb)
    ensures Somewhere(Move(st, t), cb)
  {
    var st', pc := Move(st, t), st.threads[t];
    if pc.SetRun? {
      assert cb == pc.fns[0] || cb in pc.fns[1..];
      if cb == pc.fns[0] {
        assert st'.ran[|st.ran|] == cb;
      } else {
        assert Holds(st', t, cb);
      }
    } else if pc.OnRun? {
      assert st'.ran[|st.ran|] == cb;
    } else if pc.OnAppend? {
      assert st'.waiting[|st.waiting|] == cb;
    } else {
      assert Holds(st', t, cb);
    }
  }

  lemma NoneLostStep(st: State, e: Event)
    requires Locked(st) && NoneLost(st)
    ensures NoneLost(Step(st, e))
  {
    var st' := Step(st, e);
    forall cb | cb in st'.registered
      ensures Somewhere(st', cb)
    {
      if cb in st.registered {
        StaysSomewhere(st, e, cb);
      } else {
        assert Holds(st', cb, cb);
      }
    }
  }

  // ----- Every interleaving -----

  lemma {:induction false} RunInvariant(events: seq<Event>)
    ensures
      var st := Run(events);
      Locked(st) && Drained(st) && Single(st) && NoneLost(st)
  {
    if events != [] {
      var front, e := events[..|events| - 1], events[|events| - 1];
      RunInvariant(front);
      LockedStep(Run(front), e);
      DrainedStep(Run(front), e);
      SingleStep(Run(front), e);
      NoneLostStep(Run(front), e);
    }
  }

  /** No callback ever runs twice. */
  lemma AtMostOnce(events: seq<Event>)
    ensures Distinct(Run(events).ran)
  {
    RunInvariant(events);
  }

  /** When no call is in progress and the player is ready, nobody is left waiting, and every
    callback that was ever registered has run. */
  lemma QuietAndReady(events: seq<Event>)
    requires Run(events).threads == map[] && Run(events).ready
    ensures Run(events).waiting == []
    ensures forall cb :: cb in Run(events).registered <==> cb in Run(events).ran
  {
    RunInvariant(events);
    var st := Run(events);
    forall cb | cb in st.registered
      ensures cb in st.ran
    {
      assert Somewhere(st, cb);
    }
  }

  /** When no call is in progress and the player is not ready, each registered callback either has
    run or waits for the next time it is. */
  lemma QuietAndNotReady(events: seq<Event>, cb: Thread)
    requires Run(events).threads == map[] && cb in Run(events).registered
    ensures cb in Run(events).ran <==> cb !in Run(events).waiting
  {
    RunInvariant(events);
    assert Somewhere(Run(events), cb);
  }

  // ----- Why a callback has run, or waits -----

  /** Step `n` is the test of the flag in the registration of `cb`. */
  ghost predicate Tests(events: seq<Event>, n: nat, cb: Thread) {
    && n < |events| && events[n] == Advance(cb)
    && cb in Run(events[..n]).threads && Run(events[..n]).threads[cb].OnTest?
  }

  /** Step `n` of call `t` swaps the flag from down to up. */
  ghost predicate SwapsUp(events: seq<Event>, n: nat, t: Thread) {
    && n < |events| && events[n] == Advance(t)
    && t in Run(events[..n]).threads && Run(events[..n]).threads[t] == SetSwap(true) && !Run(events[..n]).ready
  }

  function Front(events: seq<Event>): seq<Event>
    requires events != []
  {
    events[..|events| - 1]
  }

  lemma Longer(events: seq<Event>, n: nat)
    requires events != [] && n < |events|
    ensures Front(events)[..n] == events[..n]
    ensures n < |events| - 1 ==> Front(events)[n] == events[n]
  {
  }

  lemma LastStep(events: seq<Event>)
    requires events != []
    ensures Run(events) == Step(Run(Front(events)), events[|events| - 1]) && events[..|events| - 1] == Front(events)
  {
  }

  /** Where the place of call `t` comes from. */
  lemma PcBefore(st: State, e: Event, t: Thread)
    requires t in Step(st, e).threads && st.threads.Keys <= st.started
    ensures
      var pc := Step(st, e).threads[t];
      if t !in st.threads then (e == StartOn(t) && pc.OnLock?) || (e.StartSet? && e.t == t && pc == SetSwap(e.ready))
      else if e != Advance(t) || pc == st.threads[t] then pc == st.threads[t]
      else
        && (IsSet(pc) <==> IsSet(st.threads[t]))
        && (pc.OnUnlockReady? ==> st.threads[t].OnTest? && st.ready)
        && (pc.OnAppend? ==> st.threads[t].OnTest? && !st.ready)
        && (pc.OnRun? ==> st.threads[t].OnUnlockReady?)
        && (IsSet(pc) ==> !pc.SetSwap? && (st.threads[t].SetSwap? ==> st.threads[t] == SetSwap(true) && !st.ready))
  {
  }

  /** A registering call was started as such. */
  lemma {:induction false} OnStarted(events: seq<Event>, t: Thread) returns (i: nat)
    requires t in Run(events).threads && !IsSet(Run(events).threads[t])
    ensures i < |events| && events[i] == StartOn(t)
    decreases |events|
  {
    var st := Run(Front(events));
    LastStep(events);
    RunInvariant(Front(events));
    PcBefore(st, events[|events| - 1], t);
    i := |events| - 1;
    if t in st.threads {
      i := OnStarted(Front(events), t);
      Longer(events, i);
    }
  }

  /** The test of the flag in the registration of `cb`, after its start `i`, found it `up` or not. */
  ghost predicate Tested(events: seq<Event>, i: nat, n: nat, cb: Thread, up: bool) {
    i < n && Tests(events, n, cb) && Run(events[..n]).ready == up && events[i] == StartOn(cb)
  }

  lemma TestedNow(events: seq<Event>, t: Thread) returns (i: nat)
    requires events != [] && events[|events| - 1] == Advance(t)
    requires t in Run(Front(events)).threads && Run(Front(events)).threads[t].OnTest?
    ensures Tested(events, i, |events| - 1, t, Run(Front(events)).ready)
  {
    i := OnStarted(Front(events), t);
    Longer(events, i);
    LastStep(events);
  }

  lemma TestedLonger(events: seq<Event>, i: nat, n: nat, cb: Thread, up: bool)
    requires events != [] && Tested(Front(events), i, n, cb, up)
    ensures Tested(events, i, n, cb, up)
  {
    Longer(events, n);
    Longer(events, i);
  }

  predicate Admitted(pc: Pc) { pc.OnUnlockReady? || pc.OnRun? }

  /** A call that is about to run its own callback saw the flag up, after it was started; one that is
    about to leave it in the list saw the flag down. */
  lemma {:induction false} SawFlag(events: seq<Event>, t: Thread) returns (i: nat, n: nat)
    requires t in Run(events).threads && (Admitted(Run(events).threads[t]) || Run(events).threads[t].OnAppend?)
    ensures Tested(events, i, n, t, Admitted(Run(events).threads[t]))
    decreases |events|
  {
    var st := Run(Front(events));
    LastStep(events);
    RunInvariant(Front(events));
    PcBefore(st, events[|events| - 1], t);
    if st.threads[t].OnTest? {
      n := |events| - 1;
      i := TestedNow(events, t);
    } else {
      i, n := SawFlag(Front(events), t);
      TestedLonger(events, i, n, t, Admitted(st.threads[t]));
    }
  }

  /** A call that drains has swapped the flag from down to up. */
  lemma {:induction false} Swapped(events: seq<Event>, t: Thread) returns (n: nat)
    requires t in Run(events).threads && IsSet(Run(events).threads[t]) && !Run(events).threads[t].SetSwap?
    ensures SwapsUp(events, n, t)
    decreases |events|
  {
    var st := Run(Front(events));
    LastStep(events);
    RunInvariant(Front(events));
    PcBefore(st, events[|events| - 1], t);
    if st.threads[t].SetSwap? {
      n := |events| - 1;
    } else {
      n := Swapped(Front(events), t);
      Longer(events, n);
    }
  }

  /** Step `m` runs `cb`: in its own call, or in call `t` that has it next in its list. */
  ghost predicate RunsAt(events: seq<Event>, m: nat, t: Thread, cb: Thread) {
    && m < |events| && events[m] == Advance(t) && t in Run(events[..m]).threads
    && var pc := Run(events[..m]).threads[t];
    (pc.OnRun? && t == cb) || (pc.SetRun? && pc.fns != [] && pc.fns[0] == cb)
  }

  lemma Appended(st: State, e: Event, cb: Thread)
    requires cb in Step(st, e).ran && cb !in st.ran
    ensures e.Advance? && e.t in st.threads
    ensures (st.threads[e.t].OnRun? && e.t == cb) ||
            (st.threads[e.t].SetRun? && st.threads[e.t].fns != [] && st.threads[e.t].fns[0] == cb)
  {
  }

  lemma Listed(st: State, e: Event, cb: Thread)
    requires cb in Step(st, e).waiting && cb !in st.waiting
    ensures e == Advance(cb) && cb in st.threads && st.threads[cb].OnAppend?
  {
  }

  /** Why step `m` of call `t` could run `cb`: the call saw the flag up after it was started, or it
    swapped the flag from down to up. */
  ghost predicate Reason(events: seq<Event>, i: nat, n: nat, m: nat, t: Thread, cb: Thread) {
    && RunsAt(events, m, t, cb) && n < m
    && if Run(events[..m]).threads[t].OnRun? then t == cb && Tested(events, i, n, cb, true) else SwapsUp(events, n, t)
  }

  lemma ReasonLonger(events: seq<Event>, i: nat, n: nat, m: nat, t: Thread, cb: Thread)
    requires events != [] && Reason(Front(events), i, n, m, t, cb)
    ensures Reason(events, i, n, m, t, cb)
  {
    Longer(events, m);
    Longer(events, n);
    if Run(events[..m]).threads[t].OnRun? {
      TestedLonger(events, i, n, cb, true);
    }
  }

  lemma ReasonNow(events: seq<Event>, cb: Thread) returns (i: nat, n: nat)
    requires events != [] && cb in Run(events).ran && cb !in Run(Front(events)).ran
    ensures events[|events| - 1].Advance? && Reason(events, i, n, |events| - 1, events[|events| - 1].t, cb)
  {
    var st := Run(Front(events));
    LastStep(events);
    Appended(st, events[|events| - 1], cb);
    var t := events[|events| - 1].t;
    i := 0;
    if st.threads[t].OnRun? {
      i, n := SawFlag(Front(events), t);
      TestedLonger(events, i, n, cb, true);
    } else {
      n := Swapped(Front(events), t);
      Longer(events, n);
    }
  }

  /** Every callback that has run was run by its own call, which saw the flag up after it was
    started; or by a call that had swapped the flag from down to up.  (In the second case the flag
    may have gone down again meanwhile.) */
  lemma {:induction false} RanBecause(events: seq<Event>, cb: Thread) returns (i: nat, n: nat, m: nat, t: Thread)
    requires cb in Run(events).ran
    ensures Reason(events, i, n, m, t, cb)
    decreases |events|
  {
    if cb in Run(Front(events)).ran {
      i, n, m, t := RanBecause(Front(events), cb);
      ReasonLonger(events, i, n, m, t, cb);
    } else {
      i, n := ReasonNow(events, cb);
      m, t := |events| - 1, events[|events| - 1].t;
    }
  }

  /** Every callback in the list saw the flag down when it was registered. */
  lemma {:induction false} WaitsBecause(events: seq<Event>, cb: Thread) returns (i: nat, n: nat)
    requires cb in Run(events).waiting
    ensures Tested(events, i, n, cb, false)
    decreases |events|
  {
    if cb in Run(Front(events)).waiting {
      i, n := WaitsBecause(Front(events), cb);
    } else {
      LastStep(events);
      Listed(Run(Front(events)), events[|events| - 1], cb);
      i, n := SawFlag(Front(events), cb);
    }
    TestedLonger(events, i, n, cb, false);
  }

  /** Step `n` writes `up` into the flag. */
  ghost predicate Swaps(events: seq<Event>, n: nat, up: bool) {
    && n < |events| && events[n].Advance? && events[n].t in Run(events[..n]).threads
    && Run(events[..n]).threads[events[n].t] == SetSwap(up)
  }

  ghost predicate LastSwap(events: seq<Event>, n: nat, up: bool) {
    Swaps(events, n, up) && forall k: nat, b :: n < k ==> !Swaps(events, k, b)
  }

  lemma SwapsFront(events: seq<Event>, n: nat, up: bool)
    requires events != [] && n < |events| - 1
    ensures Swaps(events, n, up) <==> Swaps(Front(events), n, up)
  {
    Longer(events, n);
  }

  lemma LastSwapFront(events: seq<Event>, n: nat, up: bool)
    requires events != [] && LastSwap(Front(events), n, up)
    requires !Swaps(events, |events| - 1, true) && !Swaps(events, |events| - 1, false)
    ensures LastSwap(events, n, up)
  {
    SwapsFront(events, n, up);
    forall k: nat, b | n < k < |events|
      ensures !Swaps(events, k, b)
    {
      if k < |events| - 1 {
        SwapsFront(events, k, b);
      }
    }
  }

  /** The flag is up exactly when the latest swap was that of a call that says so. */
  lemma {:induction false} FlagFollowsCalls(events: seq<Event>) returns (n: nat)
    ensures Run(events).ready ==> LastSwap(events, n, true)
    ensures !Run(events).ready ==> LastSwap(events, n, false) || forall k: nat, b :: !Swaps(events, k, b)
    decreases |events|
  {
    n := 0;
    if events != [] {
      LastStep(events);
      n := FlagFollowsCalls(Front(events));
      if Swaps(events, |events| - 1, true) || Swaps(events, |events| - 1, false) {
        n := |events| - 1;
      } else if LastSwap(Front(events), n, Run(events).ready) {
        LastSwapFront(events, n, Run(events).ready);
      } else {
        forall k: nat, b
          ensures !Swaps(events, k, b)
        {
          if k < |events| - 1 {
            SwapsFront(events, k, b);
          }
        }
      }
    }
  }

  /** No call says that the player is ready. */
  ghost predicate NeverReady(events: seq<Event>) {
    forall k :: 0 <= k < |events| && events[k].StartSet? ==> !events[k].ready
  }

  lemma {:induction false} StaysDown(events: seq<Event>)
    requires NeverReady(events)
    ensures !Run(events).ready
    ensures forall t :: t in Run(events).threads ==> Run(events).threads[t] != SetSwap(true)
    decreases |events|
  {
    if events != [] {
      var front, e := events[..|events| - 1], events[|events| - 1];
      StaysDown(front);
    }
  }

  /** Then no callback runs, and when no call is in progress every registered one waits. */
  lemma NothingRuns(events: seq<Event>)
    requires NeverReady(events)
    ensures Run(events).ran == []
    ensures Run(events).threads == map[] ==> forall cb :: cb in Run(events).registered <==> cb in Run(events).waiting
  {
    RunInvariant(events);
    if Run(events).ran != [] {
      var i, n, m, t := RanBecause(events, Run(events).ran[0]);
      StaysDown(events[..n]);
    }
    if Run(events).threads == map[] {
      forall cb | cb in Run(events).registered
        ensures cb in Run(events).waiting
      {
        assert Somewhere(Run(events), cb);
      }
    }
  }
}
