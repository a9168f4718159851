/** GUSIContext::Yield, SwitchOut, SwitchIn and Terminate cut into the steps between which an interrupt
    may call Wakeup, for any number of cooperative threads; and the thread counters of GUSIProcess. */
module Wakeup {

  type Tid = nat

  /** kApplicationThreadID: the one thread that never stops itself. */
  const MAIN: Tid := 2

  /** The Thread Manager's view of a thread. */
  datatype Run = Running | Ready | Stopped

  datatype Pc =
    | User         // outside Yield
    | Suspending   // in the Yield loop, before SetThreadState or YieldToAnyThread
    | Leaving      // the state is set; SwitchOut has not read it yet
    | SawStopped   // SwitchOut read kStoppedThreadState, has not tested fWakeup yet
    | MakingReady  // fWakeup was set
    | Dozing       // fWakeup was clear; the asleep flag is not set yet
    | Uncounting   // the asleep flag is set; fReadyThreads is not decremented yet
    | Out          // switched out
    | Entering     // in SwitchIn, before the test of the asleep flag
    | Counting     // the asleep flag is cleared; fReadyThreads is not incremented yet
    | Testing      // at the loop condition
    | Clearing     // before `fWakeup = false`
    | Ending       // in Terminate, fExistingThreads is decremented
    | Gone

  /** `block` is `wait == kGUSIBlock`; `yielding` tells a switched-out Yield from a new thread. */
  datatype Thread = Thread(run: Run, pc: Pc, wakeup: bool, asleep: bool, block: bool, yielding: bool)

  datatype Current = Nobody | Runs(t: Tid)

  datatype System = System(threads: map<Tid, Thread>, current: Current, ready: int, existing: int)

  datatype Event =
    | Spawn(t: Tid)
    | CallYield(block: bool)
    | Advance(signal: bool)
    | Schedule(t: Tid)
    | CallTerminate
    | Dispose(t: Tid)
    | Wake(t: Tid)      // Wakeup called at interrupt level, or by the running thread

  predicate InYield(pc: Pc) {
    pc.Leaving? || pc.SawStopped? || pc.MakingReady? || pc.Dozing? || pc.Uncounting?
  }

  predicate OnCpu(pc: Pc) {
    pc.User? || pc.Suspending? || pc.Entering? || pc.Counting? || pc.Testing? || pc.Clearing? || pc.Ending?
  }

  // ----- steps -----

  /** GUSIContext::Wakeup: a second call does nothing; SetThreadReadyGivenTaskRef only affects a
      stopped thread. */
  function Woken(t: Tid, th: Thread): Thread {
    if th.wakeup then th
    else th.(wakeup := true, run := if t != MAIN && th.run.Stopped? then Ready else th.run)
  }

  /** The next step of the running thread inside Yield, SwitchOut, SwitchIn or Terminate. */
  function Moved(t: Tid, th: Thread, signal: bool): Thread {
    match th.pc
    case Suspending =>
      if signal then th.(pc := Clearing)
      else if th.block && t != MAIN then th.(run := Stopped, pc := Leaving)
      else th.(run := Ready, pc := Leaving)
    case Leaving => if th.run.Stopped? then th.(pc := SawStopped) else th.(pc := Out)
    case SawStopped => if th.wakeup then th.(pc := MakingReady) else th.(pc := Dozing)
    case MakingReady => th.(run := Ready, pc := Out)
    case Dozing => th.(asleep := true, pc := Uncounting)
    case Uncounting => th.(pc := Out)
    case Entering =>
      if th.asleep then th.(asleep := false, pc := Counting)
      else if th.yielding then th.(pc := Testing) else th.(pc := User)
    case Counting => if th.yielding then th.(pc := Testing) else th.(pc := User)
    case Testing => if th.block && !th.wakeup then th.(pc := Suspending) else th.(pc := Clearing)
    case Clearing => th.(wakeup := false, pc := User, yielding := false)
    case Ending => th.(pc := Gone)
    case _ => th
  }

  /** How that step changes fReadyThreads. */
  function ReadyChange(th: Thread): int {
    match th.pc
    case Uncounting => -1
    case Counting => 1
    case Ending => if th.asleep then 0 else -1
    case _ => 0
  }

  predicate Enabled(s: System, e: Event) {
    match e
    case Spawn(t) => t !in s.threads && (s.current.Runs? ==> s.current.t in s.threads && s.threads[s.current.t].pc.User?)
    case CallYield(_) => s.current.Runs? && s.current.t in s.threads && s.threads[s.current.t].pc.User?
    case Advance(_) => s.current.Runs? && s.current.t in s.threads && !s.threads[s.current.t].pc.User?
    case Schedule(t) => s.current.Nobody? && t in s.threads && s.threads[t].pc.Out? && s.threads[t].run.Ready?
    case CallTerminate =>
      s.current.Runs? && s.current.t in s.threads && s.threads[s.current.t].pc.User? && s.current.t != MAIN
    case Dispose(t) =>
      s.current.Runs? && s.current.t in s.threads && s.threads[s.current.t].pc.User?
      && t != MAIN && t in s.threads && s.threads[t].pc.Out?
    case Wake(t) => t in s.threads && !s.threads[t].pc.Gone?
  }

  function Step(s: System, e: Event): System {
    if !Enabled(s, e) then s else
      match e
      case Spawn(t) =>
        s.(threads := s.threads[t := Thread(Ready, Out, false, false, false, false)],
           ready := s.ready + 1, existing := s.existing + 1)
      case CallYield(block) =>
        var t := s.current.t;
        s.(threads := s.threads[t := s.threads[t].(pc := Suspending, block := block, yielding := true)])
      case Advance(signal) =>
        var t := s.current.t;
        var th := Moved(t, s.threads[t], signal);
        s.(threads := s.threads[t := th], ready := s.ready + ReadyChange(s.threads[t]),
           current := if th.pc.Out? || th.pc.Gone? then Nobody else s.current)
      case Schedule(t) =>
        s.(threads := s.threads[t := s.threads[t].(run := Running, pc := Entering)], current := Runs(t))
      case CallTerminate =>
        var t := s.current.t;
        s.(threads := s.threads[t := s.threads[t].(pc := Ending)], existing := s.existing - 1)
      case Dispose(t) =>
        s.(threads := s.threads[t := s.threads[t].(pc := Gone)], existing := s.existing - 1,
           ready := if s.threads[t].asleep then s.ready else s.ready - 1)
      case Wake(t) => s.(threads := s.threads[t := Woken(t, s.threads[t])])
  }

  function Exec(s: System, es: seq<Event>): System
    decreases |es|
  {
    if es == [] then s else Exec(Step(s, es[0]), es[1..])
  }

  /** GUSIContext::Setup: only the application thread, running. */
  function Start(): System {
    System(map[MAIN := Thread(Running, User, false, false, false, false)], Runs(MAIN), 1, 1)
  }

  // ----- the invariant -----

  predicate ThreadInv(t: Tid, th: Thread, current: Current) {
    && (OnCpu(th.pc) ==> th.run.Running? && current == Runs(t))
    && (InYield(th.pc) ==> !th.run.Running? && current == Runs(t) && th.yielding && (th.block || th.run.Ready?))
    && (th.pc.Out? ==> !th.run.Running? && current != Runs(t))
    && (th.pc.Gone? ==> current != Runs(t))
    && (t == MAIN ==> !th.run.Stopped? && !th.asleep && !th.pc.SawStopped? && !th.pc.MakingReady?
                      && !th.pc.Dozing? && !th.pc.Uncounting?)
    && (th.asleep ==> th.pc.Uncounting? || th.pc.Out? || th.pc.Entering? || th.pc.Gone?)
    // once fWakeup has been found clear, a wakeup must have made the thread ready
    && (th.pc.Dozing? || th.pc.Uncounting? || th.pc.Out? ==> (th.run.Stopped? ==> !th.wakeup))
    && (th.pc.Uncounting? ==> th.asleep)
    && (th.pc.Suspending? || th.pc.Testing? || th.pc.Clearing? ==> th.yielding)
    && (th.pc.Out? && th.run.Stopped? ==> th.asleep)
    // a blocking Yield stops its thread until it is woken
    && ((InYield(th.pc) || th.pc.Out?) && th.yielding && th.block && t != MAIN && !th.wakeup ==> th.run.Stopped?)
    && (th.pc.MakingReady? ==> th.wakeup)
  }

  ghost function Existing(threads: map<Tid, Thread>): set<Tid> {
    set t | t in threads && !threads[t].pc.Ending? && !threads[t].pc.Gone?
  }

  ghost function Awake(threads: map<Tid, Thread>): set<Tid> {
    set t | t in threads && !threads[t].pc.Gone? && !threads[t].asleep
  }

  /** The step between a flag and its counter. */
  function LagOf(th: Thread): int {
    if th.pc.Uncounting? then 1 else if th.pc.Counting? then -1 else 0
  }

  function Lag(s: System): int {
    if s.current.Runs? && s.current.t in s.threads then LagOf(s.threads[s.current.t]) else 0
  }

  ghost predicate ThreadsInv(s: System) {
    && (forall t :: t in s.threads ==> ThreadInv(t, s.threads[t], s.current))
    && (s.current.Runs? ==> s.current.t in s.threads)
    && MAIN in s.threads
  }

  ghost predicate Counts(s: System) {
    s.existing == |Existing(s.threads)| && s.ready == |Awake(s.threads)| + Lag(s)
  }

  ghost predicate Inv(s: System) {
    ThreadsInv(s) && Counts(s)
  }

  lemma StartInv()
    ensures Inv(Start())
  {
    assert Existing(Start().threads) == {MAIN} && Awake(Start().threads) == {MAIN};
  }

  function ExistingBit(th: Thread): int {
    if th.pc.Ending? || th.pc.Gone? then 0 else 1
  }

  function AwakeBit(th: Thread): int {
    if th.pc.Gone? || th.asleep then 0 else 1
  }

  /** Changing one thread moves the two counts by at most one. */
  lemma OneThread(threads: map<Tid, Thread>, t: Tid, th: Thread)
    ensures var next := threads[t := th];
      && |Existing(next)| == |Existing(threads)| + ExistingBit(th) - (if t in threads then ExistingBit(threads[t]) else 0)
      && |Awake(next)| == |Awake(threads)| + AwakeBit(th) - (if t in threads then AwakeBit(threads[t]) else 0)
  {
    ExistingThread(threads, t, th);
    AwakeThread(threads, t, th);
  }

  lemma ExistingThread(threads: map<Tid, Thread>, t: Tid, th: Thread)
    ensures |Existing(threads[t := th])| ==
            |Existing(threads)| + ExistingBit(th) - (if t in threads then ExistingBit(threads[t]) else 0)
  {
    var next := threads[t := th];
    assert Existing(next) == if ExistingBit(th) == 1 then Existing(threads) + {t} else Existing(threads) - {t};
  }

  lemma AwakeThread(threads: map<Tid, Thread>, t: Tid, th: Thread)
    ensures |Awake(threads[t := th])| ==
            |Awake(threads)| + AwakeBit(th) - (if t in threads then AwakeBit(threads[t]) else 0)
  {
    var next := threads[t := th];
    assert Awake(next) == if AwakeBit(th) == 1 then Awake(threads) + {t} else Awake(threads) - {t};
  }

  /** While the cpu belongs to `t` or nobody, every other thread is parked and does not care which. */
  lemma OthersParked(s: System, t: Tid, th: Thread, current: Current)
    requires ThreadsInv(s) && (s.current == Runs(t) || s.current == Nobody) && (current == Runs(t) || current == Nobody)
    requires t in s.threads && ThreadInv(t, th, current)
    ensures ThreadsInv(s.(threads := s.threads[t := th], current := current))
  {
    forall u | u in s.threads && u != t ensures ThreadInv(u, s.threads[u], current) {
      assert ThreadInv(u, s.threads[u], s.current);
    }
  }

  lemma MovedInv(t: Tid, th: Thread, signal: bool)
    requires ThreadInv(t, th, Runs(t))
    ensures var m := Moved(t, th, signal); ThreadInv(t, m, if m.pc.Out? || m.pc.Gone? then Nobody else Runs(t))
  {
  }

  /** What a step does to the counters is what it does to the thread, up to the change still to come. */
  lemma MovedCounts(t: Tid, th: Thread, signal: bool)
    requires ThreadInv(t, th, Runs(t)) && !th.pc.User? && !th.pc.Out? && !th.pc.Gone?
    ensures var m := Moved(t, th, signal);
      && ExistingBit(m) == ExistingBit(th)
      && ReadyChange(th) == AwakeBit(m) - AwakeBit(th) + LagOf(m) - LagOf(th)
  {
  }

  lemma AdvanceInv(s: System, signal: bool)
    requires Inv(s) && Enabled(s, Advance(signal))
    ensures Inv(Step(s, Advance(signal)))
  {
    hide Existing, Awake, ThreadInv, Moved;
    var t := s.current.t;
    var th := Moved(t, s.threads[t], signal);
    assert ThreadInv(t, s.threads[t], s.current);
    MovedInv(t, s.threads[t], signal);
    AdvancePc(t, s.threads[t], signal);
    MovedCounts(t, s.threads[t], signal);
    OneThread(s.threads, t, th);
    OthersParked(s, t, th, if th.pc.Out? || th.pc.Gone? then Nobody else s.current);
  }

  lemma AdvancePc(t: Tid, th: Thread, signal: bool)
    requires ThreadInv(t, th, Runs(t))
    ensures !th.pc.Out? && !th.pc.Gone?
    ensures var m := Moved(t, th, signal); m.pc.Out? || m.pc.Gone? ==> LagOf(m) == 0
  {
  }

  lemma WakeInv(s: System, t: Tid)
    requires Inv(s) && Enabled(s, Wake(t))
    ensures Inv(Step(s, Wake(t)))
  {
    hide Existing, Awake;
    assert ThreadInv(t, s.threads[t], s.current);
    OneThread(s.threads, t, Woken(t, s.threads[t]));
  }

  lemma SwitchInv(s: System, e: Event)
    requires Inv(s) && Enabled(s, e) && (e.CallYield? || e.CallTerminate? || e.Schedule?)
    ensures Inv(Step(s, e))
  {
    hide Existing, Awake;
    var t := if e.Schedule? then e.t else s.current.t;
    assert ThreadInv(t, s.threads[t], s.current);
    var s' := Step(s, e);
    OneThread(s.threads, t, s'.threads[t]);
    OthersParked(s, t, s'.threads[t], s'.current);
  }

  lemma OtherInv(s: System, e: Event)
    requires Inv(s) && Enabled(s, e) && (e.Spawn? || e.Dispose?)
    ensures Inv(Step(s, e))
  {
    hide Existing, Awake;
    var s' := Step(s, e);
    OneThread(s.threads, e.t, s'.threads[e.t]);
    if e.Dispose? { assert ThreadInv(e.t, s.threads[e.t], s.current); }
  }

  lemma StepInv(s: System, e: Event)
    requires Inv(s)
    ensures Inv(Step(s, e))
  {
    if Enabled(s, e) {
      match e
      case Advance(signal) => AdvanceInv(s, signal);
      case Wake(t) => WakeInv(s, t);
      case Spawn(_) => OtherInv(s, e);
      case Dispose(_) => OtherInv(s, e);
      case _ => SwitchInv(s, e);
    }
  }

  lemma {:induction false} ExecInv(s: System, es: seq<Event>)
    requires Inv(s)
    ensures Inv(Exec(s, es))
    decreases |es|
  {
    if es != [] {
      StepInv(s, es[0]);
      ExecInv(Step(s, es[0]), es[1..]);
    }
  }

  // ----- what this means -----

  /** No wakeup is lost: whatever interrupts Yield where, a thread that is switched out with fWakeup set
      is not stopped, so the scheduler will run it. */
  lemma NoLostWakeup(es: seq<Event>, t: Tid)
    ensures var s := Exec(Start(), es);
      t in s.threads && s.threads[t].pc.Out? && s.threads[t].wakeup ==> s.threads[t].run.Ready?
  {
    StartInv();
    ExecInv(Start(), es);
    var s := Exec(Start(), es);
    if t in s.threads { assert ThreadInv(t, s.threads[t], s.current); }
  }

  /** A blocking Yield blocks: in every run, a thread that is switched out in it and was not woken is stopped
      and asleep, and the scheduler does not run it. */
  lemma UnwokenSleeps(es: seq<Event>, t: Tid)
    ensures var s := Exec(Start(), es);
      t in s.threads && t != MAIN && s.threads[t].pc.Out? && s.threads[t].yielding && s.threads[t].block
      && !s.threads[t].wakeup ==>
        s.threads[t].run.Stopped? && s.threads[t].asleep && !Enabled(s, Schedule(t))
  {
    StartInv();
    ExecInv(Start(), es);
    var s := Exec(Start(), es);
    if t in s.threads { assert ThreadInv(t, s.threads[t], s.current); }
  }

  /** Inside a blocking Yield, and neither woken nor about to leave. */
  predicate Waiting(s: System, t: Tid) {
    && t in s.threads && s.threads[t].yielding && s.threads[t].block && !s.threads[t].wakeup
    && (s.threads[t].pc.Suspending? || InYield(s.threads[t].pc) || s.threads[t].pc.Out? || s.threads[t].pc.Entering?
        || s.threads[t].pc.Counting? || s.threads[t].pc.Testing?)
  }

  /** Thread `t` itself finds a signal. */
  predicate Signalled(s: System, e: Event, t: Tid) {
    e == Advance(true) && s.current == Runs(t) && t in s.threads && s.threads[t].pc.Suspending?
  }

  lemma WaitingStep(s: System, e: Event, t: Tid)
    requires Inv(s) && Waiting(s, t) && e != Wake(t) && e != Dispose(t) && !Signalled(s, e, t)
    ensures Waiting(Step(s, e), t)
  {
    assert ThreadInv(t, s.threads[t], s.current);
  }

  predicate Undisturbed(s: System, es: seq<Event>, t: Tid)
    decreases |es|
  {
    es != [] ==>
      && es[0] != Wake(t) && es[0] != Dispose(t) && !Signalled(s, es[0], t)
      && Undisturbed(Step(s, es[0]), es[1..], t)
  }

  /** A blocking Yield returns only after a wakeup or a signal: without either, over every run, the thread
      stays in it. */
  lemma {:induction false} ReturnsOnlyWoken(s: System, es: seq<Event>, t: Tid)
    requires Inv(s) && Waiting(s, t) && Undisturbed(s, es, t)
    ensures Waiting(Exec(s, es), t)
    decreases |es|
  {
    if es != [] {
      StepInv(s, es[0]);
      WaitingStep(s, es[0], t);
      ReturnsOnlyWoken(Step(s, es[0]), es[1..], t);
    }
  }

  /** And after a wakeup or a signal it does return: the thread, once it runs, gets to the end of Yield. */
  lemma WokenReturns(t: Tid, th: Thread)
    ensures th.pc.Entering? && th.yielding && (th.wakeup || !th.block) ==>
              var back := RunSwitch(t, th).0;
              var end := Moved(t, Moved(t, back, false), false);
              end.pc.User? && !end.wakeup && !end.asleep && !end.yielding
    ensures th.pc.Suspending? ==>
              var end := Moved(t, Moved(t, th, true), false); end.pc.User? && !end.wakeup && !end.yielding
  {
    if th.pc.Entering? { SwitchedIn(t, th); }
  }

  /** Wakeup reaches every thread that has not ended: its flag is set, and if it is switched out it is ready.
      A second one does nothing. */
  lemma WakeReaches(s: System, t: Tid)
    requires Inv(s) && t in s.threads && !s.threads[t].pc.Gone?
    ensures var w := Step(s, Wake(t));
      && t in w.threads && w.threads[t].wakeup && (w.threads[t].pc.Out? ==> w.threads[t].run.Ready?)
      && w.current == s.current && w.ready == s.ready && w.existing == s.existing
      && (s.threads[t].wakeup ==> w == s) && Step(w, Wake(t)) == w
  {
    assert ThreadInv(t, s.threads[t], s.current);
  }

  /** A new thread is ready to run, unwoken, outside Yield, and counted. */
  lemma SpawnReady(s: System, t: Tid)
    requires Inv(s) && Enabled(s, Spawn(t))
    ensures var w := Step(s, Spawn(t));
      && t in w.threads && w.current == s.current && w.ready == s.ready + 1 && w.existing == s.existing + 1
      && w.threads[t].pc.Out? && w.threads[t].run.Ready? && !w.threads[t].wakeup && !w.threads[t].asleep
      && !w.threads[t].yielding
  {
  }

  /** Every thread but the first can end, running or switched out, and is then counted no more. */
  lemma Ends(s: System, t: Tid)
    requires Inv(s) && t in s.threads && t != MAIN
    ensures s.current == Runs(t) && s.threads[t].pc.User? ==>
              var w := Step(Step(s, CallTerminate), Advance(false));
              && t in w.threads && w.threads[t].pc.Gone? && w.current == Nobody
              && w.existing == s.existing - 1 && w.ready == s.ready - 1
    ensures s.current.Runs? && s.threads[s.current.t].pc.User? && s.threads[t].pc.Out? ==>
              var w := Step(s, Dispose(t));
              && w.threads[t].pc.Gone? && w.current == s.current
              && w.existing == s.existing - 1 && w.ready == s.ready - AwakeBit(s.threads[t])
  {
    assert ThreadInv(t, s.threads[t], s.current);
  }

  function Advances(n: nat): seq<Event> {
    seq(n, _ => Advance(false))
  }

  lemma AdvanceOnce(s: System, n: nat)
    requires n > 0
    ensures Exec(s, Advances(n)) == Exec(Step(s, Advance(false)), Advances(n - 1))
  {
    assert Advances(n)[1..] == Advances(n - 1);
  }

  lemma NoAdvance(s: System)
    ensures Exec(s, Advances(0)) == s
  {
  }

  /** `s` with thread `t` as given. */
  function With(s: System, t: Tid, th: Thread, current: Current, ready: int): System {
    s.(threads := s.threads[t := th], current := current, ready := ready)
  }

  /** One step of the running thread. */
  lemma On(s: System, t: Tid, th: Thread, ready: int, n: nat)
    requires n > 0 && !th.pc.User?
    ensures var m := Moved(t, th, false);
      Exec(With(s, t, th, Runs(t), ready), Advances(n)) ==
      Exec(With(s, t, m, if m.pc.Out? || m.pc.Gone? then Nobody else Runs(t), ready + ReadyChange(th)), Advances(n - 1))
  {
    hide Exec, Advances, Moved, ReadyChange;
    var w := With(s, t, th, Runs(t), ready);
    var m := Moved(t, th, false);
    AdvanceOnce(w, n);
    assert w.threads[t := m] == s.threads[t := m];
  }

  /** A blocking Yield, undisturbed: the thread ends up stopped, asleep and not counted as ready, or, if it had
      been woken before, ready; and the processor is free. */
  lemma BlockRun(s: System, t: Tid)
    requires Inv(s) && s.current == Runs(t) && s.threads[t].pc.User? && t != MAIN
    ensures var th := s.threads[t];
      Exec(Step(s, CallYield(true)), Advances(if th.wakeup then 4 else 5)) ==
      if th.wakeup then s.(threads := s.threads[t := Thread(Ready, Out, true, false, true, true)], current := Nobody)
      else s.(threads := s.threads[t := Thread(Stopped, Out, false, true, true, true)],
              current := Nobody, ready := s.ready - 1)
  {
    hide Advances, Exec, Existing, Awake, With;
    assert ThreadInv(t, s.threads[t], s.current);
    var w := s.threads[t].wakeup;
    var th := s.threads[t].(pc := Suspending, block := true, yielding := true);
    CalledWith(s, t);
    var n := if w then 4 else 5;
    On(s, t, th, s.ready, n);
    On(s, t, Thread(Stopped, Leaving, w, false, true, true), s.ready, n - 1);
    On(s, t, Thread(Stopped, SawStopped, w, false, true, true), s.ready, n - 2);
    if w {
      On(s, t, Thread(Stopped, MakingReady, true, false, true, true), s.ready, 1);
      NoAdvance(With(s, t, Thread(Ready, Out, true, false, true, true), Nobody, s.ready));
    } else {
      On(s, t, Thread(Stopped, Dozing, false, false, true, true), s.ready, 2);
      On(s, t, Thread(Stopped, Uncounting, false, true, true, true), s.ready, 1);
      NoAdvance(With(s, t, Thread(Stopped, Out, false, true, true, true), Nobody, s.ready - 1));
    }
    WithIs(s, t);
  }

  lemma CalledWith(s: System, t: Tid)
    requires Inv(s) && s.current == Runs(t) && s.threads[t].pc.User?
    ensures Step(s, CallYield(true)) ==
            With(s, t, s.threads[t].(pc := Suspending, block := true, yielding := true), Runs(t), s.ready)
  {
  }

  lemma WithIs(s: System, t: Tid)
    ensures forall th, current, ready :: With(s, t, th, current, ready) ==
              s.(threads := s.threads[t := th], current := current, ready := ready)
  {
  }

  /** And once it is ready and scheduled, it gets out of Yield: running, awake, counted, its flag clear. */
  lemma ReturnRun(s: System, t: Tid)
    requires Inv(s) && s.current.Nobody? && t in s.threads
    requires s.threads[t].pc.Out? && s.threads[t].run.Ready? && s.threads[t].yielding
    requires s.threads[t].wakeup || !s.threads[t].block
    ensures var th := s.threads[t];
      Exec(Step(s, Schedule(t)), Advances(if th.asleep then 4 else 3)) ==
      s.(threads := s.threads[t := Thread(Running, User, false, false, th.block, false)],
         current := Runs(t), ready := s.ready + if th.asleep then 1 else 0)
  {
    hide Advances, Exec, Existing, Awake, With, Step;
    assert ThreadInv(t, s.threads[t], s.current);
    var th := s.threads[t].(run := Running, pc := Entering);
    ScheduledWith(s, t);
    WithIs(s, t);
    var n := if th.asleep then 4 else 3;
    var r := if th.asleep then s.ready + 1 else s.ready;
    On(s, t, th, s.ready, n);
    if th.asleep { On(s, t, th.(asleep := false, pc := Counting), s.ready, 3); }
    LeavesYield(s, t, th.(asleep := false, pc := Testing), r);
  }

  lemma LeavesYield(s: System, t: Tid, th: Thread, ready: int)
    requires th.pc.Testing? && th.run.Running? && !th.asleep && (th.wakeup || !th.block)
    ensures Exec(With(s, t, th, Runs(t), ready), Advances(2)) ==
            With(s, t, Thread(Running, User, false, false, th.block, false), Runs(t), ready)
  {
    hide Advances, Exec, With;
    On(s, t, th, ready, 2);
    On(s, t, th.(pc := Clearing), ready, 1);
    NoAdvance(With(s, t, Thread(Running, User, false, false, th.block, false), Runs(t), ready));
  }

  lemma ScheduledWith(s: System, t: Tid)
    requires Enabled(s, Schedule(t))
    ensures Step(s, Schedule(t)) == With(s, t, s.threads[t].(run := Running, pc := Entering), Runs(t), s.ready)
  {
  }

  /** A yield that does not block leaves the thread ready, and it returns when it is scheduled again. */
  lemma PollRun(s: System, t: Tid)
    requires Inv(s) && s.current == Runs(t) && s.threads[t].pc.User?
    ensures Exec(Step(s, CallYield(false)), Advances(2)) ==
            s.(threads := s.threads[t := s.threads[t].(run := Ready, pc := Out, block := false, yielding := true)],
               current := Nobody)
  {
    hide Advances, Exec, Existing, Awake;
    assert ThreadInv(t, s.threads[t], s.current);
    var a := Step(s, CallYield(false));
    AdvanceOnce(a, 2);
    AdvanceOnce(Step(a, Advance(false)), 1);
    NoAdvance(Step(Step(a, Advance(false)), Advance(false)));
  }

  /** A new thread that is scheduled runs. */
  lemma FirstRun(s: System, t: Tid)
    requires Inv(s) && s.current.Nobody? && t in s.threads
    requires s.threads[t].pc.Out? && s.threads[t].run.Ready? && !s.threads[t].yielding && !s.threads[t].asleep
    ensures Exec(Step(s, Schedule(t)), Advances(1)) ==
            s.(threads := s.threads[t := s.threads[t].(run := Running, pc := User)], current := Runs(t))
  {
    hide Advances, Exec, Existing, Awake;
    AdvanceOnce(Step(s, Schedule(t)), 1);
    NoAdvance(Step(Step(s, Schedule(t)), Advance(false)));
  }

  /** A wakeup stays set until its own thread leaves Yield or ends. */
  lemma WakeupSticks(s: System, e: Event, t: Tid)
    requires Inv(s) && t in s.threads && s.threads[t].wakeup
    ensures t in Step(s, e).threads
    ensures Step(s, e).threads[t].wakeup || (s.current == Runs(t) && s.threads[t].pc.Clearing? && e.Advance?)
  {
  }

  predicate StillWoken(s: System, t: Tid) {
    t in s.threads && s.threads[t].wakeup && (s.threads[t].pc.Out? ==> s.threads[t].run.Ready?)
  }

  /** The two facts together: after Wake(t), until t clears its flag, t is never left stopped. */
  lemma {:induction false} WokenUntilCleared(s: System, es: seq<Event>, t: Tid)
    requires Inv(s) && t in s.threads && s.threads[t].wakeup
    ensures (exists k :: 0 <= k < |es| && ClearsAt(s, es, k, t))
            || StillWoken(Exec(s, es), t)
    decreases |es|
  {
    if es == [] {
      assert ThreadInv(t, s.threads[t], s.current);
    } else {
      WakeupSticks(s, es[0], t);
      StepInv(s, es[0]);
      if Step(s, es[0]).threads[t].wakeup {
        WokenUntilCleared(Step(s, es[0]), es[1..], t);
        if k :| 0 <= k < |es[1..]| && ClearsAt(Step(s, es[0]), es[1..], k, t) {
          assert es[..k + 1][1..] == es[1..][..k] && es[..k + 1][0] == es[0] && es[k + 1] == es[1..][k];
          assert ClearsAt(s, es, k + 1, t);
        }
      } else {
        assert es[..0] == [];
        assert ClearsAt(s, es, 0, t);
      }
    }
  }

  /** Event `k` of the run is thread `t` executing `fWakeup = false`. */
  predicate ClearsAt(s: System, es: seq<Event>, k: nat, t: Tid)
    requires k < |es|
  {
    var b := Exec(s, es[..k]);
    es[k].Advance? && b.current == Runs(t) && t in b.threads && b.threads[t].pc.Clearing?
  }

  /** Both counters are exact whenever no thread is between a flag and its counter, in particular at
      every switch; so they never go negative. */
  lemma CountersExact(es: seq<Event>)
    ensures var s := Exec(Start(), es);
      && s.existing == |Existing(s.threads)| && s.existing >= 0
      && (s.current.Nobody? ==> s.ready == |Awake(s.threads)|)
      && s.ready >= 0 && -1 <= s.ready - |Awake(s.threads)| <= 1
  {
    StartInv();
    ExecInv(Start(), es);
    var s := Exec(Start(), es);
    if s.current.Runs? && s.threads[s.current.t].pc.Counting? {
      assert ThreadInv(s.current.t, s.threads[s.current.t], s.current);
      assert s.current.t in Awake(s.threads);
    }
  }

  // ----- the uninterrupted routines -----

  function Rank(pc: Pc): nat {
    match pc
    case Leaving => 4
    case SawStopped => 3
    case MakingReady => 2
    case Dozing => 2
    case Uncounting => 1
    case Entering => 2
    case Counting => 1
    case _ => 0
  }

  /** SwitchOut or SwitchIn run to its end; also the accumulated change of fReadyThreads. */
  function RunSwitch(t: Tid, th: Thread): (Thread, int)
    decreases Rank(th.pc)
  {
    if Rank(th.pc) == 0 then (th, 0)
    else
      var (last, change) := RunSwitch(t, Moved(t, th, false));
      (last, ReadyChange(th) + change)
  }

  /** What the step-by-step SwitchOut amounts to when nothing interrupts it. */
  lemma SwitchedOut(t: Tid, th: Thread)
    requires th.pc.Leaving?
    ensures RunSwitch(t, th) ==
            if !th.run.Stopped? then (th.(pc := Out), 0)
            else if th.wakeup then (th.(run := Ready, pc := Out), 0)
            else (th.(asleep := true, pc := Out), -1)
  {
    var a := Moved(t, th, false);
    var b := Moved(t, a, false);
    var c := Moved(t, b, false);
    assert RunSwitch(t, a) == if th.run.Stopped? then (RunSwitch(t, b).0, RunSwitch(t, b).1) else (a, 0);
    if th.run.Stopped? {
      assert RunSwitch(t, b) == (RunSwitch(t, c).0, RunSwitch(t, c).1);
    }
  }

  lemma SwitchedIn(t: Tid, th: Thread)
    requires th.pc.Entering?
    ensures RunSwitch(t, th) ==
            var pc := if th.yielding then Testing else User;
            if th.asleep then (th.(asleep := false, pc := pc), 1) else (th.(pc := pc), 0)
  {
    var a := Moved(t, th, false);
    if th.asleep {
      assert RunSwitch(t, a) == (Moved(t, a, false), 1);
    }
  }
}
