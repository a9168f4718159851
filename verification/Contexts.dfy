/** GUSIProcess and GUSIContext as objects: the routines that Wakeup.dfy and ProcessSleep.dfy cut into
    steps, run without interruption. */
module Contexts {
  import W = Wakeup
  import S = ProcessSleep

  class Process {
    var fReadyThreads: int
    var fExistingThreads: int
    var fWillSleep: bool
    var fDontSleep: bool
    var pending: bool   // a WakeUpProcess the Process Manager has not delivered yet

    constructor ()
      ensures fReadyThreads == 0 && fExistingThreads == 0 && !fWillSleep && !fDontSleep && !pending
    {
      fReadyThreads, fExistingThreads := 0, 0;
      fWillSleep, fDontSleep, pending := false, false, false;
    }

    ghost predicate Agrees(s: S.State)
      reads this
    {
      s.willSleep == fWillSleep && s.dontSleep == fDontSleep && s.pending == pending
    }

    method Wakeup()
      modifies this`fDontSleep, this`pending
      ensures forall s :: old(Agrees(s)) ==> Agrees(S.ProcessWakeup(s))
    {
      if !fDontSleep {
        fDontSleep := true;
        if fWillSleep {
          pending := true;
        }
      }
    }
  }

  class Context {
    const fThreadID: W.Tid
    const fProcess: Process
    var run: W.Run       // the Thread Manager's state of the thread
    var done: bool
    var detached: bool
    var asleep: bool
    var fWakeup: bool
    var fJoin: Context?

    /** The context as a thread of the state machine that is at `pc`. */
    ghost function Thread(pc: W.Pc, block: bool, yielding: bool): W.Thread
      reads this
    {
      W.Thread(run, pc, fWakeup, asleep, block, yielding)
    }

    /** StartSetup and FinishSetup. */
    constructor (id: W.Tid, process: Process)
      modifies process`fReadyThreads, process`fExistingThreads
      ensures fThreadID == id && fProcess == process && fJoin == null && !done && !detached
      ensures Thread(W.Out, false, false) == W.Thread(W.Ready, W.Out, false, false, false, false)
      ensures process.fReadyThreads == old(process.fReadyThreads) + 1
      ensures process.fExistingThreads == old(process.fExistingThreads) + 1
    {
      fThreadID, fProcess := id, process;
      run := W.Ready;
      done, detached, asleep, fWakeup := false, false, false, false;
      fJoin := null;
      new;
      process.fReadyThreads := process.fReadyThreads + 1;
      process.fExistingThreads := process.fExistingThreads + 1;
    }

    /** A duplicate wakeup does nothing, to the process either. */
    method Wakeup()
      modifies this`fWakeup, this`run, fProcess`fDontSleep, fProcess`pending
      ensures forall pc, block, yielding ::
                Thread(pc, block, yielding) == W.Woken(fThreadID, old(Thread(pc, block, yielding)))
      ensures fWakeup && (old(fWakeup) ==> unchanged(fProcess))
      ensures !old(fWakeup) ==> forall s :: old(fProcess.Agrees(s)) ==> fProcess.Agrees(S.ProcessWakeup(s))
    {
      if !fWakeup {
        fWakeup := true;
        if fThreadID != W.MAIN && run.Stopped? {
          run := W.Ready;
        }
        fProcess.Wakeup();
      }
    }

    /** Called by the Thread Manager after the thread's state was set to ready or stopped. */
    method SwitchOut()
      requires !run.Running?
      modifies this`run, this`asleep, fProcess`fReadyThreads
      ensures forall block, yielding ::
                var (th, change) := W.RunSwitch(fThreadID, old(Thread(W.Leaving, block, yielding)));
                Thread(W.Out, block, yielding) == th && fProcess.fReadyThreads == old(fProcess.fReadyThreads) + change
    {
      forall block, yielding { W.SwitchedOut(fThreadID, Thread(W.Leaving, block, yielding)); }
      if run.Stopped? {
        if fWakeup {
          run := W.Ready;
        } else {
          asleep := true;
          fProcess.fReadyThreads := fProcess.fReadyThreads - 1;
        }
      }
    }

    method SwitchIn()
      requires run.Running?
      modifies this`asleep, fProcess`fReadyThreads, fProcess`fDontSleep
      ensures forall block, yielding ::
                var (th, change) := W.RunSwitch(fThreadID, old(Thread(W.Entering, block, yielding)));
                && Thread(if yielding then W.Testing else W.User, block, yielding) == th
                && fProcess.fReadyThreads == old(fProcess.fReadyThreads) + change
      ensures fProcess.fDontSleep == (old(fProcess.fDontSleep) && !old(asleep))
    {
      forall block, yielding { W.SwitchedIn(fThreadID, Thread(W.Entering, block, yielding)); }
      if asleep {
        asleep := false;
        fProcess.fReadyThreads := fProcess.fReadyThreads + 1;
        fProcess.fDontSleep := false;
      }
    }

    /** The counters lose a thread; a joining context is woken unless nobody may join any more. */
    method Terminate()
      requires fJoin != this
      modifies this, fProcess
      modifies if fJoin != null then {fJoin, fJoin.fProcess} else {}
      ensures fProcess.fExistingThreads == old(fProcess.fExistingThreads) - 1
      ensures forall block, yielding :: fProcess.fReadyThreads ==
                old(fProcess.fReadyThreads) + W.ReadyChange(old(Thread(W.Ending, block, yielding)))
      ensures !detached ==> done
      ensures !detached && fJoin != null ==> fJoin.fWakeup
      ensures detached ==> done == old(done)
      ensures detached && old(fJoin) != null ==> unchanged(old(fJoin))
      ensures fJoin == old(fJoin) && detached == old(detached) && fWakeup == old(fWakeup)
    {
      fProcess.fExistingThreads := fProcess.fExistingThreads - 1;
      if !asleep {
        fProcess.fReadyThreads := fProcess.fReadyThreads - 1;
      }
      if !detached {
        done := true;
        if fJoin != null {
          fJoin.Wakeup();
        }
      }
    }
  }
}
