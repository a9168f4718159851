/** pthread_mutex_* and pthread_cond_* as queues of contexts.

    Threads are cooperative, so a call runs uninterrupted from one Yield to the next; each event below
    is such a stretch.  Interrupts may wake any context at any time, and a blocking Yield may also
    return early because of a signal. */
module Sync {
  import opened Lists

  type Ctx = nat

  datatype Pc =
    | Outside       // in no call, mutex not held
    | LockBlocked   // in Yield inside pthread_mutex_lock
    | Holding       // past pthread_mutex_lock or a successful trylock
    | TryYield      // in Yield inside an unsuccessful trylock
    | UnlockYield   // in Yield at the end of pthread_mutex_unlock
    | CondBlocked   // in Yield inside pthread_cond_wait

  /** `wake` holds the contexts with fWakeup set.  `arrivals`, `grants` and `releases` record who queued
      for the mutex, who got it and who gave it up. */
  datatype State = State(
    mutex: seq<Ctx>, polling: bool, cond: seq<Ctx>, wake: set<Ctx>, pc: map<Ctx, Pc>,
    arrivals: seq<Ctx>, grants: seq<Ctx>, releases: seq<Ctx>)

  datatype Event =
    | Lock(c: Ctx)
    | LockReturn(c: Ctx, signal: bool)
    | TryLock(c: Ctx)
    | TryReturn(c: Ctx, clears: bool)
    | Unlock(c: Ctx)
    | UnlockReturn(c: Ctx, clears: bool)
    | CondWait(c: Ctx)
    | CondReturn(c: Ctx, signal: bool)
    | CondSignal
    | CondBroadcast
    | Interrupt(c: Ctx)    // Wakeup from elsewhere
    | OtherYield(c: Ctx)   // a Yield that has nothing to do with this mutex

  function At(s: State, c: Ctx): Pc {
    if c in s.pc then s.pc[c] else Outside
  }

  // ----- pieces of the calls -----

  /** push(current), then the test that precedes (or ends) the loop in pthread_mutex_lock. */
  function Enqueued(s: State, c: Ctx): State {
    TestFront(s.(mutex := s.mutex + [c], arrivals := s.arrivals + [c]), c)
  }

  function TestFront(s: State, c: Ctx): State {
    if s.mutex != [] && s.mutex[0] == c then s.(pc := s.pc[c := Holding], grants := s.grants + [c])
    else s.(pc := s.pc[c := LockBlocked])
  }

  /** pop, and Wakeup for the new front. */
  function PoppedMutex(s: State): State
    requires s.mutex != []
  {
    s.(mutex := s.mutex[1..], releases := s.releases + [s.mutex[0]],
       wake := if |s.mutex| > 1 then s.wake + {s.mutex[1]} else s.wake)
  }

  predicate Enabled(s: State, e: Event) {
    match e
    case Lock(c) => At(s, c).Outside?
    case LockReturn(c, signal) => At(s, c).LockBlocked? && (c in s.wake || signal)
    case TryLock(c) => At(s, c).Outside?
    case TryReturn(c, _) => At(s, c).TryYield?
    case Unlock(c) => At(s, c).Outside? || At(s, c).Holding?
    case UnlockReturn(c, _) => At(s, c).UnlockYield?
    case CondWait(c) => At(s, c).Outside? || At(s, c).Holding?
    case CondReturn(c, signal) => At(s, c).CondBlocked? && (c in s.wake || signal)
    case CondSignal => true
    case CondBroadcast => true
    case Interrupt(_) => true
    case OtherYield(c) => At(s, c).Outside? || At(s, c).Holding?
  }

  function Step(s: State, e: Event): State {
    if !Enabled(s, e) then s else
      match e
      case Lock(c) => Enqueued(s, c)
      case LockReturn(c, _) => TestFront(s.(wake := s.wake - {c}), c)
      case TryLock(c) =>
        if s.mutex == [] || s.mutex[0] == c then
          s.(mutex := s.mutex + [c], arrivals := s.arrivals + [c], pc := s.pc[c := Holding], grants := s.grants + [c])
        else s.(polling := true, pc := s.pc[c := TryYield])
      case TryReturn(c, clears) =>
        s.(wake := if clears then s.wake - {c} else s.wake, pc := s.pc[c := Outside])
      case Unlock(c) =>
        if s.mutex == [] || s.mutex[0] != c then s
        else
          var t := PoppedMutex(s);
          if t.polling then t.(polling := false, pc := t.pc[c := UnlockYield]) else t.(pc := t.pc[c := Outside])
      case UnlockReturn(c, clears) =>
        s.(wake := if clears then s.wake - {c} else s.wake, pc := s.pc[c := Outside])
      case CondWait(c) =>
        if s.mutex == [] || s.mutex[0] != c then s
        else
          var t := PoppedMutex(s);
          t.(cond := t.cond + [c], pc := t.pc[c := CondBlocked])
      case CondReturn(c, _) =>
        Enqueued(s.(wake := s.wake - {c}, cond := RemoveFirst(s.cond, c)), c)
      case CondSignal => if s.cond == [] then s else s.(wake := s.wake + {s.cond[0]})
      case CondBroadcast => s.(wake := s.wake + (set c | c in s.cond))
      case Interrupt(c) => s.(wake := s.wake + {c})
      case OtherYield(c) => s.(wake := s.wake - {c})
  }

  function Exec(s: State, es: seq<Event>): State
    decreases |es|
  {
    if es == [] then s else Exec(Step(s, es[0]), es[1..])
  }

  function Start(): State {
    State([], false, [], {}, map[], [], [], [])
  }

  // ----- the invariant -----

  predicate Distinct(q: seq<Ctx>) {
    forall i, j :: 0 <= i < j < |q| ==> q[i] != q[j]
  }

  /** Who is queued is exactly who is in the corresponding call; only the front can be the owner. */
  ghost predicate MutexQueue(mutex: seq<Ctx>, s: State) {
    && Distinct(mutex)
    && (forall c :: c in mutex <==> At(s, c).LockBlocked? || At(s, c).Holding?)
    && (forall i :: 0 < i < |mutex| ==> At(s, mutex[i]).LockBlocked?)
  }

  ghost predicate CondQueue(cond: seq<Ctx>, s: State) {
    Distinct(cond) && (forall c :: c in cond <==> At(s, c).CondBlocked?)
  }

  /** A front still blocked in Yield has been woken. */
  predicate FrontAwake(s: State) {
    s.mutex != [] && At(s, s.mutex[0]).LockBlocked? ==> s.mutex[0] in s.wake
  }

  predicate InOrder(s: State) {
    && s.arrivals == s.releases + s.mutex
    && s.grants == s.releases + (if s.mutex != [] && At(s, s.mutex[0]).Holding? then s.mutex[..1] else [])
  }

  ghost predicate Inv(s: State) {
    MutexQueue(s.mutex, s) && CondQueue(s.cond, s) && FrontAwake(s) && InOrder(s)
  }

  lemma {:induction false} WithoutMembers(q: seq<Ctx>, c: Ctx)
    requires Distinct(q)
    ensures Distinct(RemoveFirst(q, c)) && forall d :: d in RemoveFirst(q, c) <==> d in q && d != c
  {
    if q != [] {
      TailMembers(q);
      if q[0] != c {
        WithoutMembers(q[1..], c);
        PrependMembers(q[0], RemoveFirst(q[1..], c));
      }
    }
  }

  lemma PrependMembers(c: Ctx, q: seq<Ctx>)
    requires Distinct(q) && c !in q
    ensures Distinct([c] + q) && forall d :: d in [c] + q <==> d in q || d == c
  {
    forall i, j | 0 <= i < j < |[c] + q| ensures ([c] + q)[i] != ([c] + q)[j] {
      assert ([c] + q)[j] == q[j - 1];
    }
  }

  lemma AppendMembers(q: seq<Ctx>, c: Ctx)
    requires Distinct(q) && c !in q
    ensures Distinct(q + [c]) && forall d :: d in q + [c] <==> d in q || d == c
  {
  }

  lemma TailMembers(q: seq<Ctx>)
    requires Distinct(q) && q != []
    ensures Distinct(q[1..]) && forall d :: d in q[1..] <==> d in q && d != q[0]
  {
    assert q == [q[0]] + q[1..];
  }

  /** Queueing `c`, who so far only has to be in neither queue. */
  lemma EnqueueInv(s: State, c: Ctx)
    requires c !in s.mutex && c !in s.cond && Distinct(s.mutex) && Distinct(s.cond)
    requires forall d :: d != c ==> (d in s.mutex <==> At(s, d).LockBlocked? || At(s, d).Holding?)
    requires forall d :: d != c ==> (d in s.cond <==> At(s, d).CondBlocked?)
    requires forall i :: 0 < i < |s.mutex| ==> At(s, s.mutex[i]).LockBlocked?
    requires FrontAwake(s) && InOrder(s)
    ensures Inv(Enqueued(s, c))
  {
    AppendMembers(s.mutex, c);
    EnqueueQueues(s, c);
    EnqueueOrder(s, c);
  }

  lemma EnqueueQueues(s: State, c: Ctx)
    requires c !in s.mutex && c !in s.cond && Distinct(s.mutex + [c]) && Distinct(s.cond)
    requires forall d :: d in s.mutex + [c] <==> d in s.mutex || d == c
    requires forall d :: d != c ==> (d in s.mutex <==> At(s, d).LockBlocked? || At(s, d).Holding?)
    requires forall d :: d != c ==> (d in s.cond <==> At(s, d).CondBlocked?)
    requires forall i :: 0 < i < |s.mutex| ==> At(s, s.mutex[i]).LockBlocked?
    ensures var t := Enqueued(s, c); MutexQueue(t.mutex, t) && CondQueue(t.cond, t)
  {
    var t := Enqueued(s, c);
    assert t.mutex == s.mutex + [c];
    assert forall d :: d != c ==> At(t, d) == At(s, d);
    assert At(t, c) == if s.mutex == [] then Holding else LockBlocked;
  }

  lemma EnqueueOrder(s: State, c: Ctx)
    requires c !in s.mutex && FrontAwake(s) && InOrder(s)
    ensures FrontAwake(Enqueued(s, c)) && InOrder(Enqueued(s, c))
  {
    var t := Enqueued(s, c);
    assert t.arrivals == t.releases + t.mutex;
    if s.mutex == [] {
      assert t.mutex == [c] == t.mutex[..1];
    } else {
      assert t.mutex[0] == s.mutex[0] && s.mutex[0] in s.mutex && t.mutex[..1] == s.mutex[..1];
    }
  }

  lemma LockInv(s: State, e: Event)
    requires Inv(s) && Enabled(s, e) && (e.Lock? || e.CondReturn? || e.TryLock?)
    ensures Inv(Step(s, e))
  {
    match e
    case Lock(c) => EnqueueInv(s, c);
    case CondReturn(c, _) =>
      WithoutMembers(s.cond, c);
      EnqueueInv(s.(wake := s.wake - {c}, cond := RemoveFirst(s.cond, c)), c);
    case TryLock(c) =>
      if s.mutex == [] {
        EnqueueInv(s, c);
        assert Step(s, e) == Enqueued(s, c);
      }
  }

  lemma LockReturnInv(s: State, c: Ctx, signal: bool)
    requires Inv(s) && Enabled(s, LockReturn(c, signal))
    ensures Inv(Step(s, LockReturn(c, signal)))
  {
    assert c in s.mutex;
    if s.mutex[0] == c { assert s.mutex[..1] == [c]; }
  }

  /** The owner pops itself and goes elsewhere. */
  lemma PopQueues(s: State, c: Ctx, pc: Pc)
    requires MutexQueue(s.mutex, s) && CondQueue(s.cond, s)
    requires s.mutex != [] && s.mutex[0] == c && At(s, c).Holding? && !pc.LockBlocked? && !pc.Holding?
    ensures var t := PoppedMutex(s).(pc := s.pc[c := pc]);
      && MutexQueue(t.mutex, t) && c !in t.mutex
      && (forall d :: d in s.cond <==> d != c && At(t, d).CondBlocked?)
  {
    var t := PoppedMutex(s).(pc := s.pc[c := pc]);
    TailMembers(s.mutex);
    assert t.mutex == s.mutex[1..];
    assert forall d :: d != c ==> At(t, d) == At(s, d);
    assert forall i :: 0 <= i < |t.mutex| ==> t.mutex[i] == s.mutex[i + 1];
  }

  lemma PopOrder(s: State, c: Ctx, pc: Pc)
    requires InOrder(s) && s.mutex != [] && s.mutex[0] == c && At(s, c).Holding?
    requires forall i :: 0 < i < |s.mutex| ==> At(s, s.mutex[i]).LockBlocked?
    ensures var t := PoppedMutex(s).(pc := s.pc[c := pc]);
      c !in t.mutex ==> FrontAwake(t) && InOrder(t)
  {
    var t := PoppedMutex(s).(pc := s.pc[c := pc]);
    assert s.mutex == [c] + s.mutex[1..] && s.mutex[..1] == [c];
    assert t.arrivals == t.releases + t.mutex;
    if t.mutex != [] { assert t.mutex[0] == s.mutex[1] && t.mutex[0] in t.mutex; }
  }

  lemma UnlockInv(s: State, e: Event)
    requires Inv(s) && Enabled(s, e) && (e.Unlock? || e.CondWait?)
    ensures Inv(Step(s, e))
  {
    hide TestFront, Enqueued;
    var c := e.c;
    if s.mutex != [] && s.mutex[0] == c {
      assert c in s.mutex && c !in s.cond;
      var pc := if e.CondWait? then CondBlocked else if s.polling then UnlockYield else Outside;
      PopQueues(s, c, pc);
      PopOrder(s, c, pc);
      if e.CondWait? { AppendMembers(s.cond, c); }
    }
  }

  lemma StepInv(s: State, e: Event)
    requires Inv(s)
    ensures Inv(Step(s, e))
  {
    hide RemoveFirst;
    if Enabled(s, e) {
      match e
      case Lock(_) => LockInv(s, e);
      case TryLock(_) => LockInv(s, e);
      case CondReturn(_, _) => LockInv(s, e);
      case LockReturn(c, signal) => LockReturnInv(s, c, signal);
      case Unlock(_) => UnlockInv(s, e);
      case CondWait(_) => UnlockInv(s, e);
      case _ =>
    }
  }

  lemma {:induction false} ExecInv(s: State, es: seq<Event>)
    requires Inv(s)
    ensures Inv(Exec(s, es))
    decreases |es|
  {
    if es != [] {
      StepInv(s, es[0]);
      ExecInv(Step(s, es[0]), es[1..]);
    }
  }

  // ----- what this means -----

  /** Mutual exclusion over every run: the owner is the front of the queue, so there is at most one. */
  lemma MutualExclusion(es: seq<Event>, a: Ctx, b: Ctx)
    ensures var s := Exec(Start(), es);
      && (At(s, a).Holding? ==> s.mutex != [] && s.mutex[0] == a)
      && (At(s, a).Holding? && At(s, b).Holding? ==> a == b)
  {
    ExecInv(Start(), es);
    var s := Exec(Start(), es);
    if At(s, a).Holding? { assert a in s.mutex; }
    if At(s, b).Holding? { assert b in s.mutex; }
  }

  /** trylock succeeds exactly on a free mutex; it never blocks, and a failure leaves the queue alone. */
  lemma TryLockExactly(s: State, c: Ctx)
    requires Inv(s) && At(s, c).Outside?
    ensures var t := Step(s, TryLock(c));
      && (At(t, c).Holding? <==> s.mutex == [])
      && t.mutex == (if s.mutex == [] then [c] else s.mutex)
      && t.wake == s.wake && t.cond == s.cond
      && (s.mutex != [] ==> t.polling && At(t, c).TryYield?)
  {
    if s.mutex != [] { assert s.mutex[0] in s.mutex; }
  }

  /** The yields at the end of an unsuccessful trylock and of unlock leave the call and change nothing, except
      that a yield which is not cut short clears fWakeup. */
  lemma YieldsReturn(s: State, c: Ctx, clears: bool)
    requires At(s, c).TryYield? || At(s, c).UnlockYield?
    ensures var t := Step(s, if At(s, c).TryYield? then TryReturn(c, clears) else UnlockReturn(c, clears));
      t == s.(pc := s.pc[c := Outside], wake := t.wake) && t.wake == if clears then s.wake - {c} else s.wake
  {
  }

  /** fWakeup as the rest of the world changes it. */
  lemma OthersWake(s: State, c: Ctx)
    ensures Step(s, Interrupt(c)) == s.(wake := s.wake + {c})
    ensures At(s, c).Outside? || At(s, c).Holding? ==> Step(s, OtherYield(c)) == s.(wake := s.wake - {c})
  {
  }

  /** lock queues its caller at the end, and owns the mutex at once exactly if it was free. */
  lemma LockExactly(s: State, c: Ctx)
    requires Inv(s) && At(s, c).Outside?
    ensures var t := Step(s, Lock(c));
      t.mutex == s.mutex + [c] && (if s.mutex == [] then At(t, c).Holding? else At(t, c).LockBlocked?)
  {
    if s.mutex != [] { assert s.mutex[0] in s.mutex && (s.mutex + [c])[0] == s.mutex[0]; }
  }

  /** unlock by the owner takes exactly it out of the queue and wakes the next; a trylock that failed
      meanwhile makes it yield once.  By anybody else it does nothing. */
  lemma UnlockExactly(s: State, c: Ctx)
    requires Inv(s) && (At(s, c).Outside? || At(s, c).Holding?)
    ensures var t := Step(s, Unlock(c));
      if At(s, c).Holding? then
        && s.mutex == [c] + t.mutex && !At(t, c).Holding? && t.cond == s.cond && !t.polling
        && (if s.polling then At(t, c).UnlockYield? else At(t, c).Outside?)
        && (t.mutex != [] ==> t.wake == s.wake + {t.mutex[0]}) && (t.mutex == [] ==> t.wake == s.wake)
      else t == s
  {
    if At(s, c).Holding? {
      assert c in s.mutex;
    } else if s.mutex != [] {
      assert s.mutex[0] in s.mutex;
    }
  }

  /** A waiter blocked on the mutex that has become its front owns it when its Yield returns, and only then;
      so an unlocked mutex is handed on.  The Yield returns exactly on a wakeup or a signal. */
  lemma FrontGetsMutex(s: State, c: Ctx, signal: bool)
    requires Inv(s) && At(s, c).LockBlocked?
    ensures Enabled(s, LockReturn(c, signal)) <==> c in s.wake || signal
    ensures s.mutex != [] && s.mutex[0] == c ==> Enabled(s, LockReturn(c, false))
    ensures Enabled(s, LockReturn(c, signal)) ==>
              (At(Step(s, LockReturn(c, signal)), c).Holding? <==> s.mutex[0] == c)
              && Step(s, LockReturn(c, signal)).mutex == s.mutex && Step(s, LockReturn(c, signal)).wake == s.wake - {c}
  {
    assert c in s.mutex;
  }

  /** A condition waiter that is woken or signalled leaves the condition's queue and joins the mutex's. */
  lemma CondReturnExactly(s: State, c: Ctx, signal: bool)
    requires Inv(s) && At(s, c).CondBlocked?
    ensures Enabled(s, CondReturn(c, signal)) <==> c in s.wake || signal
    ensures var t := Step(s, CondReturn(c, signal)); c in s.wake || signal ==>
      && t.mutex == s.mutex + [c] && t.cond == RemoveFirst(s.cond, c) && c !in t.cond && t.wake == s.wake - {c}
      && (if s.mutex == [] then At(t, c).Holding? else At(t, c).LockBlocked?)
  {
    StepInv(s, CondReturn(c, signal));
    assert c in s.cond;
    if s.mutex != [] { assert s.mutex[0] in s.mutex && (s.mutex + [c])[0] == s.mutex[0]; }
  }

  /** Ownership passes in arrival order, and nobody owns the mutex before the owner ahead released it. */
  lemma ArrivalOrder(es: seq<Event>)
    ensures var s := Exec(Start(), es);
      && s.grants <= s.arrivals && s.releases <= s.grants && |s.grants| <= |s.releases| + 1
  {
    ExecInv(Start(), es);
    var s := Exec(Start(), es);
    if s.mutex != [] { assert s.releases + s.mutex == (s.releases + s.mutex[..1]) + s.mutex[1..]; }
  }

  /** A front that is still blocked has fWakeup set, so its Yield will return. */
  lemma FrontWillRun(es: seq<Event>)
    ensures FrontAwake(Exec(Start(), es))
  {
    ExecInv(Start(), es);
  }

  /** Release and wait are one step: from the moment the mutex is given up until the waiter wakes, it is
      on the condition's queue; so whoever holds the mutex in between finds it there. */
  lemma WaiterAlwaysQueued(es: seq<Event>, c: Ctx)
    ensures var s := Exec(Start(), es);
      && (At(s, c).CondBlocked? <==> c in s.cond)
      && (At(s, c).CondBlocked? ==> c !in s.mutex)
  {
    ExecInv(Start(), es);
  }

  /** pthread_cond_wait hands over the mutex and queues the caller at the end, or changes nothing. */
  lemma CondWaitIsAtomic(s: State, c: Ctx)
    requires Inv(s) && Enabled(s, CondWait(c))
    ensures var t := Step(s, CondWait(c));
      if At(s, c).Holding? then
        && c !in t.mutex && t.mutex == s.mutex[1..] && t.cond == s.cond + [c] && At(t, c).CondBlocked?
        && t.wake == (if t.mutex == [] then s.wake else s.wake + {t.mutex[0]}) && t.polling == s.polling
      else t == s
  {
    if At(s, c).Holding? {
      assert c in s.mutex;
      TailMembers(s.mutex);
    } else {
      assert c !in s.mutex;
    }
  }

  predicate InCall(s: State, c: Ctx) {
    At(s, c).CondBlocked? || At(s, c).LockBlocked?
  }

  /** A step takes a waiter out of the call only by granting it the mutex. */
  lemma LeavesByGrant(s: State, e: Event, c: Ctx)
    requires Inv(s) && InCall(s, c)
    ensures InCall(Step(s, e), c) || (At(Step(s, e), c).Holding? && Step(s, e).grants == s.grants + [c])
  {
    hide RemoveFirst;
    if s.mutex != [] && s.mutex[0] == c { assert At(s, c).LockBlocked?; }
  }

  lemma {:induction false} GrantsGrow(s: State, es: seq<Event>)
    ensures s.grants <= Exec(s, es).grants
    decreases |es|
  {
    hide RemoveFirst;
    if es != [] { GrantsGrow(Step(s, es[0]), es[1..]); }
  }

  /** The waiter returns only as owner: in every run, a context once blocked on the condition (or the
      mutex) is still inside the call or has been granted the mutex since. */
  lemma {:induction false} WaiterReturnsAsOwner(s: State, es: seq<Event>, c: Ctx)
    requires Inv(s) && InCall(s, c)
    ensures var end := Exec(s, es);
      s.grants <= end.grants && (InCall(end, c) || c in end.grants[|s.grants|..])
    decreases |es|
  {
    hide Inv;
    GrantsGrow(s, es);
    if es != [] {
      var t := Step(s, es[0]);
      StepInv(s, es[0]);
      LeavesByGrant(s, es[0], c);
      GrantsGrow(t, es[1..]);
      if InCall(t, c) {
        WaiterReturnsAsOwner(t, es[1..], c);
        var later := Exec(t, es[1..]).grants;
        if c in later[|t.grants|..] { SuffixIn(later, |s.grants|, |t.grants|, c); }
      } else {
        assert Exec(t, es[1..]).grants[|s.grants|] == t.grants[|s.grants|] == c;
      }
    }
  }

  lemma SuffixIn(a: seq<Ctx>, i: nat, j: nat, c: Ctx)
    requires i <= j <= |a| && c in a[j..]
    ensures c in a[i..]
  {
    var k :| 0 <= k < |a[j..]| && a[j..][k] == c;
    assert a[i..][k + j - i] == c;
  }

  predicate NoReturn(es: seq<Event>, c: Ctx) {
    forall i :: 0 <= i < |es| && es[i].CondReturn? ==> es[i].c != c
  }

  lemma StaysQueued(s: State, e: Event, c: Ctx)
    requires Inv(s) && At(s, c).CondBlocked? && (e.CondReturn? ==> e.c != c)
    ensures At(Step(s, e), c).CondBlocked?
  {
    if s.mutex != [] { assert s.mutex[0] in s.mutex; }
  }

  lemma {:induction false} QueuedUntilReturn(s: State, es: seq<Event>, c: Ctx)
    requires Inv(s) && At(s, c).CondBlocked? && NoReturn(es, c)
    ensures At(Exec(s, es), c).CondBlocked?
    decreases |es|
  {
    if es != [] {
      StepInv(s, es[0]);
      StaysQueued(s, es[0], c);
      assert forall i :: 0 <= i < |es[1..]| ==> es[1..][i] == es[i + 1];
      QueuedUntilReturn(Step(s, es[0]), es[1..], c);
    }
  }

  /** Atomic release, as the Single UNIX Specification requires it: an owner that calls pthread_cond_wait is
      at once out of the mutex and at the end of the condition's queue, and in every run from there, whoever
      gets the mutex before the waiter returns is somebody else and finds the waiter queued. */
  lemma NextOwnerFindsWaiter(s: State, c: Ctx, es: seq<Event>, d: Ctx)
    requires Inv(s) && At(s, c).Holding? && NoReturn(es, c)
    ensures var t := Step(s, CondWait(c)); t.mutex == s.mutex[1..] && t.cond == s.cond + [c] && c !in t.mutex
    ensures var t := Step(s, CondWait(c)); t.wake == if t.mutex == [] then s.wake else s.wake + {t.mutex[0]}
    ensures var end := Exec(Step(s, CondWait(c)), es);
      c in end.cond && c !in end.mutex && (At(end, d).Holding? ==> d != c && end.mutex != [] && end.mutex[0] == d)
  {
    var t := Step(s, CondWait(c));
    CondWaitIsAtomic(s, c);
    StepInv(s, CondWait(c));
    QueuedUntilReturn(t, es, c);
    ExecInv(t, es);
    if At(Exec(t, es), d).Holding? { assert d in Exec(t, es).mutex; }
  }

  /** A waiter's flag stays set, and the waiter queued, over every run in which it does not return. */
  lemma {:induction false} WaiterStaysWoken(s: State, es: seq<Event>, c: Ctx)
    requires Inv(s) && At(s, c).CondBlocked? && c in s.wake && NoReturn(es, c)
    ensures var end := Exec(s, es); At(end, c).CondBlocked? && c in end.wake && c in end.cond
    decreases |es|
  {
    if es == [] {
      assert c in s.cond;
    } else {
      StepInv(s, es[0]);
      StaysInCond(s, es[0], c);
      assert forall i :: 0 <= i < |es[1..]| ==> es[1..][i] == es[i + 1];
      WaiterStaysWoken(Step(s, es[0]), es[1..], c);
    }
  }

  lemma StaysInCond(s: State, e: Event, c: Ctx)
    requires Inv(s) && At(s, c).CondBlocked? && c in s.wake && (e.CondReturn? ==> e.c != c)
    ensures At(Step(s, e), c).CondBlocked? && c in Step(s, e).wake
  {
    if s.mutex != [] { assert s.mutex[0] in s.mutex; }
  }

  /** Broadcast wakes the queued waiters and no other context, and reaches every one of them: whatever happens
      next, each keeps its flag until it returns. */
  lemma BroadcastReachesAll(s: State, es: seq<Event>, c: Ctx)
    requires Inv(s) && At(s, c).CondBlocked? && NoReturn(es, c)
    ensures Step(s, CondBroadcast) == s.(wake := s.wake + set d | At(s, d).CondBlocked? && d in s.cond)
    ensures var end := Exec(Step(s, CondBroadcast), es); At(end, c).CondBlocked? && c in end.wake
  {
    StepInv(s, CondBroadcast);
    assert c in s.cond;
    WaiterStaysWoken(Step(s, CondBroadcast), es, c);
  }

  /** pthread_cond_signal wakes the first in the queue and nobody else, and so a further waiter exactly if that
      one is not already woken: a second signal before it has run is lost. */
  lemma SignalWakesAnother(s: State)
    requires Inv(s)
    ensures (exists c :: At(s, c).CondBlocked? && c !in s.wake && c in Step(s, CondSignal).wake)
            <==> s.cond != [] && s.cond[0] !in s.wake
    ensures var t := Step(s, CondSignal);
      && t == s.(wake := t.wake) && (forall c :: c in t.wake <==> c in s.wake || (s.cond != [] && c == s.cond[0]))
  {
    if s.cond != [] && s.cond[0] !in s.wake {
      assert s.cond[0] in s.cond;
      assert At(s, s.cond[0]).CondBlocked?;
    }
  }

  /** A context that finds the mutex free, takes it and waits is queued and the mutex is free again. */
  lemma LockThenWait(s: State, c: Ctx)
    requires s.mutex == [] && At(s, c).Outside?
    ensures var t := Step(Step(s, Lock(c)), CondWait(c));
      && t.mutex == [] && t.cond == s.cond + [c] && t.wake == s.wake
      && forall d :: d != c ==> At(t, d) == At(s, d)
  {
    var m := Step(s, Lock(c));
    assert m.mutex == [c] && m.wake == s.wake && m.cond == s.cond;
  }

  /** Two contexts wait, two signals, one woken. */
  lemma TwoSignalsOneWaiter()
    ensures var s1 := Step(Step(Start(), Lock(1)), CondWait(1));
      var s2 := Step(Step(s1, Lock(2)), CondWait(2));
      var s3 := Step(Step(s2, CondSignal), CondSignal);
      s3.cond == [1, 2] && 1 in s3.wake && 2 !in s3.wake
  {
    hide Enqueued, PoppedMutex;
    LockThenWait(Start(), 1);
    LockThenWait(Step(Step(Start(), Lock(1)), CondWait(1)), 2);
  }
}
