/** GUSIProcess::Yield and GUSIProcess::Wakeup in a process with a single thread and no spin hook,
    cut into the steps between which an interrupt may call Wakeup on the application's context. */
module ProcessSleep {

  datatype Mode = Poll | Block | Yielding

  datatype Pc =
    | User
    | Entry          // process->Yield called
    | Deciding       // fWillSleep set; fDontSleep not tested yet
    | FirstClear     // before `if (fExistingThreads < 2) fDontSleep = false`
    | SliceTest      // before the time-slice test
    | EarlyExit      // before `fWillSleep = false; return`
    | Waiting        // inside WaitNextEvent
    | SecondClear    // before the second clearing of fDontSleep
    | Unwilling      // before the last `fWillSleep = false`
    | SignalTest     // back in GUSIContext::Yield
    | LoopTest
    | Clearing       // before `fWakeup = false`

  /** `outer` is the mode passed to GUSIContext::Yield, `inner` the local `wait` of GUSIProcess::Yield;
      `pending` is a WakeUpProcess the Process Manager remembers until the next WaitNextEvent. */
  datatype State = State(
    pc: Pc, outer: Mode, inner: Mode, wakeup: bool, dontSleep: bool, willSleep: bool, pending: bool)

  datatype Event =
    | CallYield(mode: Mode)
    | Advance(withinSlice: bool, signal: bool)
    | Wake

  const READY_THREADS := 1
  const EXISTING_THREADS := 1

  function ProcessWakeup(s: State): State {
    if s.dontSleep then s
    else if !s.willSleep then s.(dontSleep := true)
    else s.(dontSleep := true, pending := true)
  }

  function ContextWakeup(s: State): State {
    if s.wakeup then s else ProcessWakeup(s.(wakeup := true))
  }

  function AdvanceStep(s: State, withinSlice: bool, signal: bool): State {
    match s.pc
    case User => s
    case Entry =>
      if s.outer.Block? then s.(inner := Block, willSleep := true, pc := Deciding)
      else s.(inner := s.outer, pc := FirstClear)
    case Deciding =>
      if READY_THREADS > 1 || s.dontSleep then s.(inner := Yielding, pc := FirstClear)
      else s.(pc := FirstClear)
    case FirstClear =>
      s.(dontSleep := if EXISTING_THREADS < 2 then false else s.dontSleep, pc := SliceTest)
    case SliceTest =>
      if s.inner.Yielding? && withinSlice then s.(pc := EarlyExit) else s.(pc := Waiting)
    case EarlyExit => s.(willSleep := false, pc := SignalTest)
    case Waiting => s.(pending := false, pc := SecondClear)
    case SecondClear =>
      s.(dontSleep := if EXISTING_THREADS < 2 then false else s.dontSleep, pc := Unwilling)
    case Unwilling => s.(willSleep := false, pc := SignalTest)
    case SignalTest => if signal then s.(pc := Clearing) else s.(pc := LoopTest)
    case LoopTest => if s.outer.Block? && !s.wakeup then s.(pc := Entry) else s.(pc := Clearing)
    case Clearing => s.(wakeup := false, pc := User)
  }

  function Step(s: State, e: Event): State {
    match e
    case CallYield(mode) => if s.pc.User? then s.(pc := Entry, outer := mode) else s
    case Advance(withinSlice, signal) => AdvanceStep(s, withinSlice, signal)
    case Wake => ContextWakeup(s)
  }

  function Exec(s: State, es: seq<Event>): State
    decreases |es|
  {
    if es == [] then s else Exec(Step(s, es[0]), es[1..])
  }

  function Start(): State {
    State(User, Poll, Poll, false, false, false, false)
  }

  /** WaitNextEvent was called with a sleep time and has not returned. */
  predicate Sleeping(s: State) {
    s.pc.Waiting? && s.inner.Block?
  }

  predicate WillingPc(pc: Pc) {
    pc.Deciding? || pc.FirstClear? || pc.SliceTest? || pc.EarlyExit? || pc.Waiting? || pc.SecondClear? || pc.Unwilling?
  }

  predicate Inv(s: State) {
    // on the way into the process: a set flag is either noticed by the test or has called WakeUpProcess
    && (s.pc.User? || s.pc.Entry? || s.pc.Deciding? ==> s.wakeup ==> s.dontSleep || s.pending)
    // past the test, on the way to sleep
    && ((s.pc.FirstClear? || s.pc.SliceTest? || s.pc.Waiting?) && s.inner.Block? ==>
          s.willSleep && (s.wakeup || s.dontSleep ==> s.pending))
    && (s.pc.Deciding? ==> s.inner.Block? && s.willSleep)
    && (s.willSleep <==> WillingPc(s.pc) && s.outer.Block?)
    && (WillingPc(s.pc) && s.inner.Block? ==> s.outer.Block?)
  }

  lemma StepInv(s: State, e: Event)
    requires Inv(s)
    ensures Inv(Step(s, e))
  {
  }

  lemma {:induction false} ExecInv(s: State, es: seq<Event>)
    requires Inv(s)
    ensures Inv(Exec(s, es))
    decreases |es|
  {
    if es != [] {
      StepInv(s, es[0]);
      ExecInv(Step(s, es[0]), es[1..]);
    }
  }

  /** No lost process wakeup: whatever points Wakeup interrupts, the main thread is never asleep in
      WaitNextEvent with fWakeup set unless a WakeUpProcess is on its way to it. */
  lemma NeverSleepsThroughWakeup(es: seq<Event>)
    ensures var s := Exec(Start(), es); Sleeping(s) && s.wakeup ==> s.pending
  {
    ExecInv(Start(), es);
  }

  /** `n` steps without interruption or signal. */
  function Undisturbed(s: State, n: nat, withinSlice: bool): State
    decreases n
  {
    if n == 0 then s else Undisturbed(AdvanceStep(s, withinSlice, false), n - 1, withinSlice)
  }

  /** A blocking Yield that nothing interrupts goes to sleep exactly if fDontSleep is clear; otherwise it
      returns at once within the time slice, and after that looks for events without sleeping.  Either way
      fDontSleep is clear afterwards, so sleep is skipped only once. */
  lemma BlocksToSleep(s: State, withinSlice: bool)
    requires s.pc.User?
    ensures var t := Undisturbed(Step(s, CallYield(Block)), 4, withinSlice);
      && (Sleeping(t) <==> !s.dontSleep) && !t.dontSleep && t.willSleep && t.wakeup == s.wakeup
      && (s.dontSleep ==> if withinSlice then t.pc.EarlyExit? else t.pc.Waiting?)
  {
  }

  /** The other modes never announce sleep: polling always looks for events, yielding only after the time
      slice is used up. */
  lemma PollsForEvents(s: State, mode: Mode, withinSlice: bool)
    requires s.pc.User? && !mode.Block?
    ensures var t := Undisturbed(Step(s, CallYield(mode)), 3, withinSlice);
      && !Sleeping(t) && t.willSleep == s.willSleep && t.wakeup == s.wakeup
      && if mode.Yielding? && withinSlice then t.pc.EarlyExit? else t.pc.Waiting?
  {
  }

  /** A signal found on the way ends Yield, woken or not. */
  lemma SignalReturns(s: State)
    requires s.pc.SignalTest?
    ensures var t := AdvanceStep(AdvanceStep(s, false, true), false, false); t == s.(pc := User, wakeup := false)
  {
  }

  /** A wakeup sets the flag, and if it is the first one, makes the process skip its next sleep, or calls
      WakeUpProcess if the process is on its way to sleep; any further one does nothing. */
  lemma WakesOnce(s: State)
    ensures var t := Step(s, Wake);
      && t == s.(wakeup := true, dontSleep := t.dontSleep, pending := t.pending)
      && (t.dontSleep <==> s.dontSleep || !s.wakeup)
      && (t.pending <==> s.pending || (!s.wakeup && !s.dontSleep && s.willSleep))
      && Step(t, Wake) == t
  {
  }

  predicate Unwoken(es: seq<Event>) {
    forall i :: 0 <= i < |es| ==> !es[i].Wake? && (es[i].Advance? ==> !es[i].signal)
  }

  predicate InBlock(s: State) {
    !s.pc.User? && !s.pc.Clearing? && s.outer.Block? && !s.wakeup
  }

  /** A blocking Yield returns only after a wakeup or a signal. */
  lemma {:induction false} ReturnsOnlyWoken(s: State, es: seq<Event>)
    requires InBlock(s) && Unwoken(es)
    ensures InBlock(Exec(s, es))
    decreases |es|
  {
    if es != [] {
      assert !es[0].Wake? && (es[0].Advance? ==> !es[0].signal);
      assert forall i :: 0 <= i < |es[1..]| ==> es[1..][i] == es[i + 1];
      ReturnsOnlyWoken(Step(s, es[0]), es[1..]);
    }
  }

  /** After WaitNextEvent has returned, a woken or signalled Yield ends, with its own flag cleared and
      without willingness to sleep. */
  lemma WokenReturns(s: State, withinSlice: bool)
    requires s.pc.Waiting? && (s.wakeup || !s.outer.Block?) && Inv(s)
    ensures var t := Undisturbed(s, 6, withinSlice); t.pc.User? && !t.wakeup && !t.willSleep && !t.pending && !t.dontSleep
  {
  }

  /** fDontSleep, too, never sends the process to sleep without a WakeUpProcess. */
  lemma NeverSleepsAgainstFlag(es: seq<Event>)
    ensures var s := Exec(Start(), es);
      && (Sleeping(s) ==> s.willSleep && (s.dontSleep ==> s.pending))
      && (s.pc.User? ==> !s.willSleep)
  {
    ExecInv(Start(), es);
  }
}
