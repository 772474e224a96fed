/** The in-process bind/connect rendezvous of socket/ZMQHandler.cpp: any number of
    threads bind or connect addresses; a mutex protects the set of bound addresses
    and is held during `connect`. One step is one access to shared state. */
module Rendezvous {
  import opened Wrappers

  datatype Pc =
    | BindCall      // 86: socket->bind
    | BindLock      // 88
    | Insert        // 89
    | BindUnlock    // end of BindInproc: the guard's destructor
    | BindDone
    | ConnectLock   // 93 and 98
    | Test          // 94
    | RetryUnlock   // 95
    | Sleep         // 97
    | Connect       // 100
    | ConnectUnlock // 101
    | ConnectDone
    | Thrown        // 100 left by an exception

  datatype Thread = Thread(pc: Pc, address: string)

  datatype Event = Bound(thread: nat, address: string) | Connected(thread: nat, address: string)

  /** `bound` is boundAddresses_, `holder` the owner of connectMutex_; `events` is the
      order in which socket calls completed. */
  datatype State = State(threads: map<nat, Thread>, holder: Option<nat>, bound: set<string>, events: seq<Event>)

  /** `throws` is the environment's choice for the call to `socket->connect`. */
  datatype Step = Start(t: nat, thread: Thread) | Run(t: nat, throws: bool)

  predicate Init(s: State) {
    s == State(map[], None, {}, [])
  }

  predicate Enabled(s: State, step: Step) {
    match step
    case Start(t, thread) => t !in s.threads && (thread.pc.BindCall? || thread.pc.ConnectLock?)
    case Run(t, throws) =>
      && t in s.threads
      && (match s.threads[t].pc
          case BindLock => s.holder.None?
          case ConnectLock => s.holder.None?
          case BindDone => false
          case ConnectDone => false
          case Thrown => false
          case _ => true)
      && (throws ==> s.threads[t].pc.Connect?)
  }

  function Goto(s: State, t: nat, pc: Pc): State
    requires t in s.threads
  {
    s.(threads := s.threads[t := s.threads[t].(pc := pc)])
  }

  function Apply(s: State, step: Step): State
    requires Enabled(s, step)
  {
    match step
    case Start(t, thread) => s.(threads := s.threads[t := thread])
    case Run(t, throws) =>
      var a := s.threads[t].address;
      match s.threads[t].pc
      case BindCall => Goto(s, t, BindLock).(events := s.events + [Bound(t, a)])
      case BindLock => Goto(s, t, Insert).(holder := Some(t))
      case Insert => Goto(s, t, BindUnlock).(bound := s.bound + {a})
      case BindUnlock => Goto(s, t, BindDone).(holder := None)
      case ConnectLock => Goto(s, t, Test).(holder := Some(t))
      case Test => Goto(s, t, if a in s.bound then Connect else RetryUnlock)
      case RetryUnlock => Goto(s, t, Sleep).(holder := None)
      case Sleep => Goto(s, t, ConnectLock)
      case Connect =>
        if throws then Goto(s, t, Thrown)
        else Goto(s, t, ConnectUnlock).(events := s.events + [Connected(t, a)])
      case ConnectUnlock => Goto(s, t, ConnectDone).(holder := None)
      case _ => s
  }

  ghost predicate Next(s: State, s': State) {
    exists step :: Enabled(s, step) && s' == Apply(s, step)
  }

  ghost predicate IsRun(run: seq<State>) {
    && |run| > 0 && Init(run[0])
    && forall i :: 0 <= i < |run| - 1 ==> Next(run[i], run[i + 1])
  }

  // ----- the invariant -----

  /** Between taking and giving back the mutex. */
  predicate Critical(pc: Pc) {
    pc.Insert? || pc.BindUnlock? || pc.Test? || pc.RetryUnlock? || pc.Connect? || pc.ConnectUnlock? || pc.Thrown?
  }

  ghost predicate WasBound(events: seq<Event>, n: nat, a: string) {
    exists i :: 0 <= i < n && i < |events| && events[i].Bound? && events[i].address == a
  }

  ghost predicate MutexInv(s: State) {
    forall t :: (t in s.threads && Critical(s.threads[t].pc)) <==> s.holder == Some(t)
  }

  ghost predicate BoundInv(s: State) {
    && (forall a <- s.bound :: WasBound(s.events, |s.events|, a))
    && (forall t <- s.threads :: s.threads[t].pc.BindLock? || s.threads[t].pc.Insert? ==>
          WasBound(s.events, |s.events|, s.threads[t].address))
    && (forall t <- s.threads :: s.threads[t].pc.Connect? ==> s.threads[t].address in s.bound)
  }

  ghost predicate EventsInv(events: seq<Event>) {
    forall j :: 0 <= j < |events| && events[j].Connected? ==> WasBound(events, j, events[j].address)
  }

  ghost predicate Inv(s: State) {
    MutexInv(s) && BoundInv(s) && EventsInv(s.events)
  }

  lemma WasBoundGrows(events: seq<Event>, e: Event, n: nat, a: string)
    requires n <= |events| && WasBound(events, n, a)
    ensures WasBound(events + [e], n, a) && WasBound(events + [e], |events| + 1, a)
  {
    var i :| 0 <= i < n && i < |events| && events[i].Bound? && events[i].address == a;
    assert (events + [e])[i] == events[i];
  }

  lemma MutexStep(s: State, step: Step)
    requires Enabled(s, step) && MutexInv(s)
    ensures MutexInv(Apply(s, step))
  {
    if step.Run? && Critical(s.threads[step.t].pc) {
      assert s.holder == Some(step.t);
    }
  }

  lemma BoundStep(s: State, step: Step)
    requires Enabled(s, step) && BoundInv(s)
    ensures BoundInv(Apply(s, step))
  {
    var s' := Apply(s, step);
    if s'.events != s.events {
      var e := s'.events[|s.events|];
      assert s'.events == s.events + [e];
      forall a | WasBound(s.events, |s.events|, a) ensures WasBound(s'.events, |s'.events|, a) {
        WasBoundGrows(s.events, e, |s.events|, a);
      }
      if e.Bound? {
        assert s'.events[|s.events|] == e;
        assert WasBound(s'.events, |s'.events|, e.address);
      }
    }
  }

  lemma EventsStep(s: State, step: Step)
    requires Enabled(s, step) && BoundInv(s) && EventsInv(s.events)
    ensures EventsInv(Apply(s, step).events)
  {
    var s' := Apply(s, step);
    if s'.events != s.events {
      var e := s'.events[|s.events|];
      assert s'.events == s.events + [e];
      forall j | 0 <= j < |s'.events| && s'.events[j].Connected?
        ensures WasBound(s'.events, j, s'.events[j].address)
      {
        WasBoundGrows(s.events, e, j, s'.events[j].address);
      }
    }
  }

  lemma {:induction false} RunInv(run: seq<State>, i: nat)
    requires IsRun(run) && i < |run|
    ensures Inv(run[i])
    decreases i
  {
    hide Apply, MutexInv, BoundInv, EventsInv;
    if i == 0 {
      InitInv(run[0]);
    } else {
      RunInv(run, i - 1);
      assert Next(run[i - 1], run[i - 1 + 1]);
      var step :| Enabled(run[i - 1], step) && run[i] == Apply(run[i - 1], step);
      MutexStep(run[i - 1], step);
      BoundStep(run[i - 1], step);
      EventsStep(run[i - 1], step);
    }
  }

  lemma InitInv(s: State)
    requires Init(s)
    ensures Inv(s)
  {
  }

  // ----- guarantees -----

  /** In every state of every schedule: every connect comes after a completed bind of
      the same address, at most one thread is between lock and unlock, and a thread
      about to connect holds the mutex and finds its address registered. */
  lemma ConnectAfterBind(run: seq<State>, i: nat)
    requires IsRun(run) && i < |run|
    ensures forall j :: 0 <= j < |run[i].events| && run[i].events[j].Connected? ==>
              exists k :: 0 <= k < j && run[i].events[k].Bound? && run[i].events[k].address == run[i].events[j].address
    ensures forall t, u | t in run[i].threads && u in run[i].threads ::
              Critical(run[i].threads[t].pc) && Critical(run[i].threads[u].pc) ==> t == u
    ensures forall t :: t in run[i].threads && run[i].threads[t].pc.Connect? ==>
              run[i].holder == Some(t) && run[i].threads[t].address in run[i].bound
  {
    RunInv(run, i);
    forall j | 0 <= j < |run[i].events| && run[i].events[j].Connected?
      ensures exists k :: 0 <= k < j && run[i].events[k].Bound? && run[i].events[k].address == run[i].events[j].address
    {
      assert WasBound(run[i].events, j, run[i].events[j].address);
    }
  }

  predicate Finished(pc: Pc) {
    pc.BindDone? || pc.ConnectDone? || pc.Thrown?
  }

  predicate AnyThrown(s: State) {
    exists t <- s.threads :: s.threads[t].pc.Thrown?
  }

  /** Exactly a thrown `connect` blocks the mutex: otherwise whoever holds it can
      move, and while nobody holds it every unfinished thread can. */
  lemma OnlyAThrowBlocks(run: seq<State>, i: nat)
    requires IsRun(run) && i < |run|
    ensures AnyThrown(run[i]) <==>
              run[i].holder.Some? && forall throws :: !Enabled(run[i], Run(run[i].holder.value, throws))
    ensures run[i].holder.None? ==>
              forall t <- run[i].threads :: !Finished(run[i].threads[t].pc) ==> Enabled(run[i], Run(t, false))
  {
    RunInv(run, i);
    var s := run[i];
    if s.holder.Some? {
      var u := s.holder.value;
      assert u in s.threads && Critical(s.threads[u].pc);
      assert s.threads[u].pc.Thrown? || Enabled(s, Run(u, false));
    }
  }

  function Connects(events: seq<Event>): nat {
    if |events| == 0 then 0 else Connects(events[..|events| - 1]) + if events[|events| - 1].Connected? then 1 else 0
  }

  lemma ThrownStays(s: State, step: Step, t: nat)
    requires Enabled(s, step) && MutexInv(s) && t in s.threads && s.threads[t].pc.Thrown?
    ensures var s' := Apply(s, step);
            && t in s'.threads && s'.threads[t].pc.Thrown?
            && Connects(s'.events) == Connects(s.events)
  {
    assert s.holder == Some(t);
    assert step.Run? && Critical(s.threads[step.t].pc) ==> s.holder == Some(step.t);
    var s' := Apply(s, step);
    assert s'.events != s.events ==> s'.events[..|s.events|] == s.events;
  }

  /** Where the guarantee ends: after `connect` throws, the mutex stays locked in the
      rest of the run and no thread ever connects again. */
  lemma {:induction false} ThrowLocksForever(run: seq<State>, i: nat, j: nat, t: nat)
    requires IsRun(run) && i <= j < |run| && t in run[i].threads && run[i].threads[t].pc.Thrown?
    ensures t in run[j].threads && run[j].threads[t].pc.Thrown? && run[j].holder == Some(t)
    ensures Connects(run[j].events) == Connects(run[i].events)
    decreases j - i
  {
    hide Apply, Connects, BoundInv, EventsInv;
    RunInv(run, j);
    if i < j {
      ThrowLocksForever(run, i, j - 1, t);
      RunInv(run, j - 1);
      assert Next(run[j - 1], run[j - 1 + 1]);
      var step :| Enabled(run[j - 1], step) && run[j] == Apply(run[j - 1], step);
      ThrownStays(run[j - 1], step, t);
    }
  }

  /** `n` steps of thread `t` alone, stopping where it has to wait. */
  function RunAlone(s: State, t: nat, n: nat): State
    decreases n
  {
    if n == 0 || !Enabled(s, Run(t, false)) then s else RunAlone(Apply(s, Run(t, false)), t, n - 1)
  }

  lemma FourSteps(s: State, t: nat)
    requires Enabled(s, Run(t, false))
    requires Enabled(Apply(s, Run(t, false)), Run(t, false))
    requires var s2 := Apply(Apply(s, Run(t, false)), Run(t, false));
             Enabled(s2, Run(t, false)) && Enabled(Apply(s2, Run(t, false)), Run(t, false))
    ensures var s2 := Apply(Apply(s, Run(t, false)), Run(t, false));
            RunAlone(s, t, 4) == Apply(Apply(s2, Run(t, false)), Run(t, false))
  {
    hide Enabled, Apply;
    var s1 := Apply(s, Run(t, false));
    var s2 := Apply(s1, Run(t, false));
    var s3 := Apply(s2, Run(t, false));
    assert RunAlone(s3, t, 1) == RunAlone(Apply(s3, Run(t, false)), t, 0);
    assert RunAlone(s2, t, 2) == RunAlone(s3, t, 1);
    assert RunAlone(s1, t, 3) == RunAlone(s2, t, 2);
  }

  lemma BindAlone(s: State, t: nat)
    requires t in s.threads && s.holder.None? && s.threads[t].pc.BindCall?
    ensures var a := s.threads[t].address;
            RunAlone(s, t, 4) == s.(threads := s.threads[t := Thread(BindDone, a)], bound := s.bound + {a},
                                    events := s.events + [Bound(t, a)])
  {
    FourSteps(s, t);
  }

  lemma ConnectAlone(s: State, u: nat)
    requires u in s.threads && s.holder.None? && s.threads[u].pc.ConnectLock?
    ensures var a := s.threads[u].address;
            RunAlone(s, u, 4) ==
            if a !in s.bound then s
            else s.(threads := s.threads[u := Thread(ConnectDone, a)], events := s.events + [Connected(u, a)])
  {
    FourSteps(s, u);
    var a := s.threads[u].address;
    assert s.threads[u := Thread(ConnectLock, a)] == s.threads;
  }

  /** The meeting works: a connecting thread that finds its address unbound gives the
      mutex back and returns to its test; after the binding thread's call it connects,
      and the mutex is free again. */
  lemma BindLetsConnect(s: State, t: nat, u: nat)
    requires t != u && t in s.threads && u in s.threads && s.holder.None?
    requires s.threads[t] == Thread(BindCall, s.threads[u].address) && s.threads[u].pc.ConnectLock?
    requires s.threads[u].address !in s.bound
    ensures RunAlone(s, u, 4) == s
    ensures var a := s.threads[u].address;
            RunAlone(RunAlone(s, t, 4), u, 4) ==
            s.(threads := s.threads[t := Thread(BindDone, a)][u := Thread(ConnectDone, a)],
               bound := s.bound + {a}, events := s.events + [Bound(t, a)] + [Connected(u, a)])
  {
    hide RunAlone;
    ConnectAlone(s, u);
    BindAlone(s, t);
    ConnectAlone(RunAlone(s, t, 4), u);
  }

  // ----- calls and their arguments -----

  /** BindInproc called with `a`, run alone, binds and registers `a`. */
  lemma BindInproc(s: State, t: nat, a: string)
    requires t !in s.threads && s.holder.None?
    ensures Enabled(s, Start(t, Thread(BindCall, a)))
    ensures RunAlone(Apply(s, Start(t, Thread(BindCall, a))), t, 4) ==
            s.(threads := s.threads[t := Thread(BindDone, a)], bound := s.bound + {a}, events := s.events + [Bound(t, a)])
  {
    var u := Apply(s, Start(t, Thread(BindCall, a)));
    BindAlone(u, t);
    assert u.threads[t := Thread(BindDone, a)] == s.threads[t := Thread(BindDone, a)];
  }

  /** ConnectInproc called with `a`, run alone, connects to `a` if that is registered, and
      otherwise is back at its call without effect. */
  lemma ConnectInproc(s: State, t: nat, a: string)
    requires t !in s.threads && s.holder.None?
    ensures Enabled(s, Start(t, Thread(ConnectLock, a)))
    ensures RunAlone(Apply(s, Start(t, Thread(ConnectLock, a))), t, 4) ==
            if a in s.bound
            then s.(threads := s.threads[t := Thread(ConnectDone, a)], events := s.events + [Connected(t, a)])
            else s.(threads := s.threads[t := Thread(ConnectLock, a)])
  {
    var u := Apply(s, Start(t, Thread(ConnectLock, a)));
    ConnectAlone(u, t);
    assert u.threads[t := Thread(ConnectDone, a)] == s.threads[t := Thread(ConnectDone, a)];
  }

  predicate Executable(s: State, path: seq<Step>)
    decreases |path|
  {
    path == [] || (Enabled(s, path[0]) && Executable(Apply(s, path[0]), path[1..]))
  }

  function Execute(s: State, path: seq<Step>): State
    requires Executable(s, path)
    decreases |path|
  {
    if path == [] then s else Execute(Apply(s, path[0]), path[1..])
  }

  /** The socket calls of thread `t`, with their addresses. */
  predicate OwnCalls(events: seq<Event>, t: nat, a: string) {
    forall i :: 0 <= i < |events| && events[i].thread == t ==> events[i].address == a
  }

  lemma AddressStep(s: State, step: Step, t: nat, a: string)
    requires Enabled(s, step) && t in s.threads && s.threads[t].address == a && OwnCalls(s.events, t, a)
    ensures var u := Apply(s, step);
            t in u.threads && u.threads[t].address == a && OwnCalls(u.events, t, a)
  {
  }

  /** In every schedule, whatever a thread binds or connects is the address it was
      called with. */
  lemma {:induction false} CallsKeepTheirAddress(s: State, path: seq<Step>, t: nat, a: string)
    requires Executable(s, path) && t in s.threads && s.threads[t].address == a && OwnCalls(s.events, t, a)
    ensures var u := Execute(s, path);
            t in u.threads && u.threads[t].address == a && OwnCalls(u.events, t, a)
    decreases |path|
  {
    hide Apply, Enabled, OwnCalls;
    if path != [] {
      AddressStep(s, path[0], t, a);
      CallsKeepTheirAddress(Apply(s, path[0]), path[1..], t, a);
    }
  }
}
