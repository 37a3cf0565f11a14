/**
 When threads wait and what wakes them, step by step and over runs, said of the operations
 themselves: notifies, releases, crashes and ends of threads.
 */
module WakeUps {
  import opened Actions
  import opened ReadAssembly
  import opened SchedulerState
  import opened SchedulerSafety
  import opened SchedulerTheorems

  /** The thread is blocked in the middle of this operation. */
  predicate BlockedIn(s: Sys, t: Tid, op: Op) {
    t < |s.threads| && s.threads[t].state == Blocked && s.threads[t].pending == Waiting(op)
  }

  predicate WaitsOn(s: Sys, t: Tid, c: CondId) {
    && t < |s.threads| && s.threads[t].state == Blocked && s.threads[t].pending.Waiting?
    && s.threads[t].pending.op.Wait? && s.threads[t].pending.op.cond == c
  }

  /** Of the threads that wait on `c`, `t` comes first after the active one. */
  ghost predicate FirstWaiter(s: Sys, t: Tid, c: CondId) {
    && s.active < |s.threads| && WaitsOn(s, t, c)
    && forall u: Tid :: WaitsOn(s, u, c) ==>
         Distance(s.active, t, |s.threads|) <= Distance(s.active, u, |s.threads|)
  }

  predicate Executing(s: Sys, st: Step, op: Op) {
    st.Execute? && s.active < |s.threads| && Active(s).pending == Ready(op)
  }

  /** The step is a notify that reaches `t`. */
  ghost predicate Notifies(s: Sys, st: Step, t: Tid, c: CondId) {
    || (Executing(s, st, NotifyAll(c)) && WaitsOn(s, t, c))
    || (Executing(s, st, NotifyOne(c)) && FirstWaiter(s, t, c))
  }

  /** The process of `t` comes to its end in this step. */
  predicate EndsWith(s: Sys, st: Step, t: Tid) {
    && s.active < |s.threads| && t < |s.threads| && s.threads[t].pid == Active(s).pid
    && (st.Crash? || (st.Execute? && Active(s).pending != Idle && Active(s).pending.op.Shutdown?))
  }

  /** Thread `o`, which holds `m`, crashes with its process. */
  predicate CrashesHolding(s: Sys, st: Step, s': Sys, o: Tid, m: MutexId) {
    && OwnerIs(s, m, o) && EndsWith(s, st, o)
    && o < |s'.threads| && !Done(s.threads[o]) && s'.threads[o].state == Crashed
  }

  /** Whoever holds `m` gives it up, or crashes. */
  ghost predicate LetsGo(s: Sys, st: Step, s': Sys, m: MutexId) {
    Releases(s, st, m) || exists o: Tid :: CrashesHolding(s, st, s', o, m)
  }

  /** What wakes the blocked thread `t`. */
  ghost predicate Woken(s: Sys, st: Step, s': Sys, t: Tid)
    requires t < |s.threads| && s.threads[t].pending.Waiting?
  {
    && !EndsWith(s, st, t)
    && match s.threads[t].pending.op
       case Lock(m) => LetsGo(s, st, s', m)
       case Join(u) => u == s.active && Executing(s, st, Finish)
       case Wait(c, _) => Notifies(s, st, t, c)
       case _ => false
  }

  // ----- what a step does to the threads that do not run -----

  lemma YieldKeepsThreads(s: Sys, s': Sys)
    requires Yields(s, s') || LastYields(s, s')
    ensures s'.threads == s.threads
  {
  }

  /** Waking all that wait for `v`, as seen by one of the threads. */
  lemma WokenOne(ts: seq<Thread>, v: Target, t: Tid)
    requires t < |ts|
    ensures WokenAll(ts, {v})[t] == if WaitingOn(ts[t]) == v then ts[t].(state := Running) else ts[t]
  {
  }

  lemma NotifyAllWakes(s: Sys, crashAt: nat, s': Sys, c: CondId, t: Tid)
    requires SysOk(s) && Next(s, Execute(crashAt), s') && Executing(s, Execute(crashAt), NotifyAll(c))
    requires t < |s.threads| && t != s.active
    ensures |s'.threads| == |s.threads|
    ensures s'.threads[t] == if WaitsOn(s, t, c) then s.threads[t].(state := Running) else s.threads[t]
  {
    hide OwnedOk, OwnersOk, Together;
    assert WaitOk(s, t);
    WokenOne(s.threads, OnCond(c), t);
  }

  lemma SameWaiters(s: Sys, c: CondId)
    requires SysOk(s) && s.outcome == Going
    ensures forall t: Tid :: WaitsOn(s, t, c) <==> IsWaiting(s.threads, s.active, OnCond(c), t)
  {
    hide OwnedOk, OwnersOk, Together;
    forall t: Tid ensures WaitsOn(s, t, c) <==> IsWaiting(s.threads, s.active, OnCond(c), t) {
      if t < |s.threads| {
        assert WaitOk(s, t);
      }
    }
  }

  lemma NotifyOneWakes(s: Sys, crashAt: nat, s': Sys, c: CondId, t: Tid)
    requires SysOk(s) && Next(s, Execute(crashAt), s') && Executing(s, Execute(crashAt), NotifyOne(c))
    requires t < |s.threads| && t != s.active
    ensures |s'.threads| == |s.threads|
    ensures s'.threads[t] == if FirstWaiter(s, t, c) then s.threads[t].(state := Running) else s.threads[t]
    ensures (exists u: Tid :: WaitsOn(s, u, c)) ==> exists b: Tid :: FirstWaiter(s, b, c)
  {
    SameWaiters(s, c);
    hide SysOk, WaitsOn, IsWaiting;
    var ts := s'.threads[s.active := Active(s)];
    if forall u: Tid :: !WaitsOn(s, u, c) {
      assert ts == s.threads;
    } else {
      var b: Tid :| NextWaiting(s.threads, s.active, OnCond(c), b)
        && ts == s.threads[b := s.threads[b].(state := Running)];
      assert FirstWaiter(s, b, c);
      OneFirst(s, c, b);
    }
  }

  /** Two threads are not equally far off. */
  lemma OneFirst(s: Sys, c: CondId, b: Tid)
    requires FirstWaiter(s, b, c)
    ensures forall t: Tid :: FirstWaiter(s, t, c) ==> t == b
  {
  }

  lemma UnlockWakes(s: Sys, m: MutexId, op: Op, s': Sys, t: Tid)
    requires SysOk(s) && s.outcome == Going && m in s.mutexes && Unlocks(s, m, op, s')
    requires t < |s.threads| && t != s.active
    ensures |s'.threads| == |s.threads|
    ensures s'.threads[t]
         == if OwnerIs(s, m, s.active) && !(s.mutexes[m].kind == Recursive && s.mutexes[m].count > 0)
              && BlockedIn(s, t, Lock(m))
            then s.threads[t].(state := Running) else s.threads[t]
  {
    hide OwnedOk, OwnersOk, Together, Yields;
    assert WaitOk(s, t);
    if OwnerIs(s, m, s.active) && !(s.mutexes[m].kind == Recursive && s.mutexes[m].count > 0) {
      WokenOne(SetOwner(s, m, None).threads, OnMutex(m), t);
      if op.Wait? {
        var r := Released(s, m);
        YieldKeepsThreads(WithActive(r, Active(r).(state := Blocked, pending := Waiting(op))), s');
      }
    }
  }

  lemma LockWakesNone(s: Sys, m: MutexId, waited: bool, s': Sys, t: Tid)
    requires SysOk(s) && s.outcome == Going && m in s.mutexes && Locks(s, m, waited, s')
    requires t < |s.threads| && t != s.active
    ensures |s'.threads| == |s.threads| && s'.threads[t] == s.threads[t]
  {
    hide OwnedOk, WaitOk, Together, Yields;
    if Blocks(s, Lock(m), s') {
      YieldKeepsThreads(WithActive(s, Active(s).(state := Blocked, pending := Waiting(Lock(m)))), s');
    }
  }

  lemma FinishWakes(s: Sys, s': Sys, t: Tid)
    requires SysOk(s) && s.outcome == Going && LastYields(Leaving(s), s')
    requires t < |s.threads| && t != s.active
    ensures |s'.threads| == |s.threads|
    ensures s'.threads[t]
         == if BlockedIn(s, t, Join(s.active)) then s.threads[t].(state := Running) else s.threads[t]
  {
    hide OwnedOk, OwnersOk, Together, LastYields;
    assert WaitOk(s, t);
    WokenOne(s.threads, OnThread(s.active), t);
    YieldKeepsThreads(Leaving(s), s');
  }

  /** The end of a process, as seen by a blocked thread. */
  lemma EndWakes(s: Sys, st: Step, ts: seq<Thread>, s': Sys, t: Tid)
    requires SysOk(s) && s.outcome == Going && ProcessEnded(s.threads, Active(s).pid, ts)
    requires LastYields(s.(threads := ts), s') && EndsWith(s, st, s.active)
    requires t < |s.threads| && s.threads[t].state == Blocked
    ensures |s'.threads| == |s.threads|
    ensures s'.threads[t] == s.threads[t].(state := s'.threads[t].state)
    ensures EndsWith(s, st, t) ==> Done(s'.threads[t])
    ensures !EndsWith(s, st, t) ==>
      s'.threads[t].state
      == if exists m, o: Tid :: s.threads[t].pending == Waiting(Lock(m)) && CrashesHolding(s, st, s', o, m)
         then Running else Blocked
  {
    hide OwnersOk, Together, LastYields;
    assert WaitOk(s, t);
    YieldKeepsThreads(s.(threads := ts), s');
    if !EndsWith(s, st, t) {
      forall m, o: Tid | s.threads[t].pending == Waiting(Lock(m))
        ensures CrashesHolding(s, st, s', o, m) <==> FreesBy(s.threads, ts, s.threads[t], o)
      {
        if o < |s.threads| {
          assert OwnedOk(s, o);
          assert ts[o].state == Crashed && !Done(s.threads[o]) ==> Ends(s.threads, Active(s).pid, o);
        }
      }
    }
  }

  predicate WakesNobody(op: Op) {
    op.Plain? || op.Create? || op.Join? || op.TryLock? || op.Lock?
  }

  lemma NobodyWoken(s: Sys, crashAt: nat, s': Sys, t: Tid)
    requires SysOk(s) && Next(s, Execute(crashAt), s') && WakesNobody(Active(s).pending.op)
    requires t < |s.threads| && t != s.active
    ensures t < |s'.threads| && s'.threads[t] == s.threads[t]
  {
    hide WaitOk, OwnedOk, Together, Unlocks, Locks, Yields;
    var op := Active(s).pending.op;
    if op.Join? {
      var b := WithActive(s, Active(s).(state := Blocked, pending := Waiting(op)));
      if Yields(b, s') {
        YieldKeepsThreads(b, s');
      }
    } else if op.Lock? {
      LockWakesNone(s, op.mutex, Active(s).pending.Waiting?, s', t);
    }
  }

  /** The blocked thread `t` runs again exactly if it is woken. */
  ghost predicate AsWoken(s: Sys, st: Step, s': Sys, t: Tid)
    requires t < |s.threads| && s.threads[t].pending.Waiting?
  {
    && t < |s'.threads| && s'.threads[t] == s.threads[t].(state := s'.threads[t].state)
    && (s'.threads[t].state == Running <==> Woken(s, st, s', t))
    && if EndsWith(s, st, t) then Done(s'.threads[t])
       else s'.threads[t].state == Running || s'.threads[t].state == Blocked
  }

  lemma NobodyAsWoken(s: Sys, crashAt: nat, s': Sys, t: Tid)
    requires SysOk(s) && Next(s, Execute(crashAt), s') && WakesNobody(Active(s).pending.op)
    requires t < |s.threads| && t != s.active && s.threads[t].state == Blocked && s.threads[t].pending.Waiting?
    ensures AsWoken(s, Execute(crashAt), s', t)
  {
    NobodyWoken(s, crashAt, s', t);
    hide SysOk, Next;
  }

  lemma UnlockAsWoken(s: Sys, crashAt: nat, s': Sys, t: Tid)
    requires SysOk(s) && Next(s, Execute(crashAt), s') && (Active(s).pending.op.Unlock? || Active(s).pending.op.Wait?)
    requires t < |s.threads| && t != s.active && s.threads[t].state == Blocked && s.threads[t].pending.Waiting?
    ensures AsWoken(s, Execute(crashAt), s', t)
  {
    assert WaitOk(s, s.active);
    hide SysOk, WaitOk, Unlocks;
    var op := Active(s).pending.op;
    if Active(s).pending.Ready? {
      UnlockWakes(s, op.mutex, op, s', t);
    }
  }

  lemma NotifyAsWoken(s: Sys, crashAt: nat, s': Sys, t: Tid, c: CondId)
    requires SysOk(s) && Next(s, Execute(crashAt), s')
    requires Active(s).pending.op == NotifyOne(c) || Active(s).pending.op == NotifyAll(c)
    requires t < |s.threads| && t != s.active && s.threads[t].state == Blocked && s.threads[t].pending.Waiting?
    ensures AsWoken(s, Execute(crashAt), s', t)
  {
    assert WaitOk(s, s.active);
    hide SysOk, WaitOk, FirstWaiter, WaitsOn, Executes;
    FirstWaits(s, t, c);
    if Active(s).pending.op.NotifyOne? {
      NotifyOneWakes(s, crashAt, s', c, t);
    } else {
      NotifyAllWakes(s, crashAt, s', c, t);
    }
    forall d ensures FirstWaiter(s, t, d) ==> WaitsOn(s, t, d) {
      FirstWaits(s, t, d);
    }
  }

  lemma FinishAsWoken(s: Sys, crashAt: nat, s': Sys, t: Tid)
    requires SysOk(s) && Next(s, Execute(crashAt), s') && Active(s).pending.op.Finish?
    requires t < |s.threads| && t != s.active && s.threads[t].state == Blocked && s.threads[t].pending.Waiting?
    ensures AsWoken(s, Execute(crashAt), s', t)
  {
    assert WaitOk(s, s.active);
    hide SysOk, WaitOk, LastYields;
    FinishWakes(s, s', t);
    hide Next;
  }

  lemma EndedAsWoken(s: Sys, st: Step, s': Sys, t: Tid)
    requires EndsWith(s, st, s.active) && t < |s.threads| == |s'.threads| && s.threads[t].pending.Waiting?
    requires s'.threads[t] == s.threads[t].(state := s'.threads[t].state)
    requires EndsWith(s, st, t) ==> Done(s'.threads[t])
    requires !EndsWith(s, st, t) ==>
      s'.threads[t].state
      == if exists m, o: Tid :: s.threads[t].pending == Waiting(Lock(m)) && CrashesHolding(s, st, s', o, m)
         then Running else Blocked
    ensures AsWoken(s, st, s', t)
  {
    hide CrashesHolding;
  }

  lemma ShutdownAsWoken(s: Sys, crashAt: nat, s': Sys, t: Tid)
    requires SysOk(s) && Next(s, Execute(crashAt), s') && Active(s).pending.op.Shutdown?
    requires t < |s.threads| && t != s.active && s.threads[t].state == Blocked && s.threads[t].pending.Waiting?
    ensures AsWoken(s, Execute(crashAt), s', t)
  {
    assert WaitOk(s, s.active);
    hide SysOk, WaitOk, LastYields, ProcessEnded, ShutDown, AsWoken, CrashesHolding;
    ShutdownEnds(s.threads, Active(s).pid, crashAt);
    EndWakes(s, Execute(crashAt), ShutDown(s.threads, Active(s).pid, crashAt), s', t);
    EndedAsWoken(s, Execute(crashAt), s', t);
  }

  /** A step carried out by the active thread, as seen by a blocked one. */
  lemma ExecuteWakes(s: Sys, crashAt: nat, s': Sys, t: Tid)
    requires SysOk(s) && Next(s, Execute(crashAt), s') && t < |s.threads| && t != s.active
    requires s.threads[t].state == Blocked && s.threads[t].pending.Waiting?
    ensures AsWoken(s, Execute(crashAt), s', t)
  {
    hide SysOk, Executes, AsWoken;
    match Active(s).pending.op {
      case Unlock(_) => UnlockAsWoken(s, crashAt, s', t);
      case Wait(_, _) => UnlockAsWoken(s, crashAt, s', t);
      case NotifyOne(c) => NotifyAsWoken(s, crashAt, s', t, c);
      case NotifyAll(c) => NotifyAsWoken(s, crashAt, s', t, c);
      case Finish => FinishAsWoken(s, crashAt, s', t);
      case Shutdown => ShutdownAsWoken(s, crashAt, s', t);
      case _ => NobodyAsWoken(s, crashAt, s', t);
    }
  }

  lemma FirstWaits(s: Sys, t: Tid, c: CondId)
    requires t < |s.threads| && s.threads[t].state == Blocked && s.threads[t].pending.Waiting?
    ensures WaitsOn(s, t, c) <==> s.threads[t].pending.op.Wait? && s.threads[t].pending.op.cond == c
    ensures FirstWaiter(s, t, c) ==> WaitsOn(s, t, c)
  {
  }

  /** In any step a blocked thread runs again exactly if it is woken: if it waits for a mutex, by
      its holder's giving it up or crashing; if it waits for a thread, by that thread's end; if
      it waits on a condition variable, by a notify that reaches it. Otherwise it stays blocked,
      unless its own process ends. */
  lemma WokenExactly(s: Sys, st: Step, s': Sys, t: Tid)
    requires SysOk(s) && Next(s, st, s') && t < |s.threads| && s.threads[t].state == Blocked
    ensures s.threads[t].pending.Waiting? && t < |s'.threads|
    ensures s'.threads[t] == s.threads[t].(state := s'.threads[t].state)
    ensures s'.threads[t].state == Running <==> Woken(s, st, s', t)
    ensures if EndsWith(s, st, t) then Done(s'.threads[t])
            else s'.threads[t].state == Running || s'.threads[t].state == Blocked
  {
    assert t != s.active && WaitOk(s, t);
    hide SysOk, WaitOk, LastYields, Yields, CrashUpTo, Executes;
    match st {
      case NewMutex(_, _) =>
      case Begin(op) => YieldKeepsThreads(WithActive(s, Active(s).(pending := Ready(op))), s');
      case Execute(crashAt) =>
        ExecuteWakes(s, crashAt, s', t);
        assert AsWoken(s, st, s', t);
      case Crash =>
        CrashEnds(s.threads, Active(s).pid);
        EndWakes(s, st, CrashUpTo(s.threads, Active(s).pid, |s.threads|), s', t);
    }
  }

  /** The other threads are left alone by any step, but for those of a process that ends. */
  lemma OthersKept(s: Sys, st: Step, s': Sys, t: Tid)
    requires SysOk(s) && Next(s, st, s') && t < |s.threads| && t != s.active && s.threads[t].state != Blocked
    ensures t < |s'.threads|
    ensures if EndsWith(s, st, t) && !Done(s.threads[t])
            then Done(s'.threads[t]) && s'.threads[t] == s.threads[t].(state := s'.threads[t].state)
            else s'.threads[t] == s.threads[t]
  {
    hide SysOk, LastYields, Yields, CrashUpTo, Executes;
    match st {
      case NewMutex(_, _) =>
      case Begin(op) => YieldKeepsThreads(WithActive(s, Active(s).(pending := Ready(op))), s');
      case Execute(crashAt) => OthersExecute(s, crashAt, s', t);
      case Crash =>
        CrashEnds(s.threads, Active(s).pid);
        YieldKeepsThreads(s.(threads := CrashUpTo(s.threads, Active(s).pid, |s.threads|)), s');
    }
  }

  lemma OthersExecute(s: Sys, crashAt: nat, s': Sys, t: Tid)
    requires SysOk(s) && Next(s, Execute(crashAt), s')
    requires t < |s.threads| && t != s.active && s.threads[t].state != Blocked
    ensures t < |s'.threads|
    ensures if EndsWith(s, Execute(crashAt), t) && !Done(s.threads[t])
            then Done(s'.threads[t]) && s'.threads[t] == s.threads[t].(state := s'.threads[t].state)
            else s'.threads[t] == s.threads[t]
  {
    assert WaitOk(s, s.active);
    hide SysOk, WaitOk, Unlocks, Locks, LastYields, Yields, WakesOne, WokenAll, CrashUpTo, ShutDown;
    var op := Active(s).pending.op;
    match op {
      case Unlock(m) => UnlockWakes(s, m, op, s', t);
      case Wait(_, m) => if Active(s).pending.Ready? { UnlockWakes(s, m, op, s', t); }
      case NotifyOne(c) => NotifyOneWakes(s, crashAt, s', c, t);
      case NotifyAll(c) => NotifyAllWakes(s, crashAt, s', c, t);
      case Finish => FinishWakes(s, s', t);
      case Shutdown =>
        ShutdownEnds(s.threads, Active(s).pid, crashAt);
        YieldKeepsThreads(s.(threads := ShutDown(s.threads, Active(s).pid, crashAt)), s');
      case _ => NobodyWoken(s, crashAt, s', t);
    }
  }

  /** A process that shuts down completes its threads one after the other; if it crashes while the
      buffers of thread `crashAt` are drained, the later ones crash. */
  lemma ShutdownStates(ts: seq<Thread>, p: Pid, crashAt: nat, t: Tid)
    requires Ends(ts, p, t)
    ensures ShutDown(ts, p, crashAt)[t].state
         == if crashAt < |ts| && ts[crashAt].pid == p && crashAt < t then Crashed else Completed
  {
    if crashAt < |ts| && ts[crashAt].pid == p {
      var mid := CompleteUpTo(ts, p, crashAt + 1);
      CrashEffect(mid, p, |mid|, t);
      assert mid[t].state == Completed ==> WaitingOn(mid[t]) == Nothing;
    }
  }

  // ----- over runs -----

  /** Over any stretch of a run a thread waits on a condition variable until it is notified or its
      process ends. */
  lemma {:induction false} WaitsUntil(ss: seq<Sys>, sts: seq<Step>, i: nat, j: nat, t: Tid, c: CondId) returns (k: nat)
    requires IsRun(ss, sts) && i <= j < |ss| && WaitsOn(ss[i], t, c) && !WaitsOn(ss[j], t, c)
    ensures i <= k < j && WaitsOn(ss[k], t, c) && (Notifies(ss[k], sts[k], t, c) || EndsWith(ss[k], sts[k], t))
  {
    hide IsRun, SysOk, Next, Notifies, EndsWith, WaitsOn;
    SchedulerTheorems.RunState(ss, sts, i);
    RunStep(ss, sts, j - 1);
    if WaitsOn(ss[j - 1], t, c) {
      k := j - 1;
      WaitGoesOn(ss[k], sts[k], ss[j], t, c);
    } else {
      k := WaitsUntil(ss, sts, i, j - 1, t, c);
    }
  }

  /** One step of a wait. */
  lemma WaitGoesOn(s: Sys, st: Step, s': Sys, t: Tid, c: CondId)
    requires SysOk(s) && Next(s, st, s') && WaitsOn(s, t, c)
    ensures WaitsOn(s', t, c) <==> !Notifies(s, st, t, c) && !EndsWith(s, st, t)
    ensures Notifies(s, st, t, c) && !EndsWith(s, st, t) ==> IsRunning(s'.threads, t)
  {
    hide SysOk, Next, Notifies, EndsWith;
    WokenExactly(s, st, s', t);
  }

  /** As long as it waits, no notify that reaches it has been carried out. */
  lemma WaitingUnnotified(ss: seq<Sys>, sts: seq<Step>, i: nat, j: nat, t: Tid, c: CondId, k: nat)
    requires IsRun(ss, sts) && i <= k < j < |ss| && forall l :: i <= l <= j ==> WaitsOn(ss[l], t, c)
    ensures !Notifies(ss[k], sts[k], t, c)
  {
    hide SysOk, Next, Notifies, EndsWith, WaitsOn;
    RunStep(ss, sts, k);
    WaitGoesOn(ss[k], sts[k], ss[k + 1], t, c);
  }

  // ----- who blocks -----

  lemma YieldOutcome(s: Sys, s': Sys)
    requires s.outcome == Going && (Yields(s, s') || LastYields(s, s'))
    ensures s'.threads == s.threads && s'.outcome != SelfDeadlock
  {
  }

  lemma ActiveRuns(s: Sys)
    requires SysOk(s) && s.outcome == Going
    ensures ThreadsOk(s) && Active(s).state == Running
  {
  }

  lemma ActiveEnds(s: Sys, ts: seq<Thread>)
    requires SysOk(s) && s.outcome == Going && ProcessEnded(s.threads, Active(s).pid, ts)
    ensures s.active < |ts| && Done(ts[s.active])
  {
    ActiveRuns(s);
    assert Ends(s.threads, Active(s).pid, s.active);
  }

  /** The active thread is done with `op`, or in the middle of it, or the execution stops there. */
  predicate Proceeds(s: Sys, op: Op, s': Sys)
    requires s.active < |s.threads|
  {
    && s.active < |s'.threads|
    && var th' := s'.threads[s.active];
       match op
       case Finish => th'.state == Completed
       case Shutdown => Done(th')
       case _ =>
         || (th'.state == Running && th'.pending == Idle && s'.outcome != SelfDeadlock)
         || (th'.state == Blocked && th'.pending == Waiting(op))
         || (th' == Active(s) && th'.state == Running && s'.outcome == SelfDeadlock)
  }

  lemma LockBlocks(s: Sys, m: MutexId, waited: bool, s': Sys)
    requires SysOk(s) && s.outcome == Going && m in s.mutexes && Locks(s, m, waited, s')
    requires waited ==> !OwnerIs(s, m, s.active)
    ensures s.active < |s'.threads|
    ensures s'.threads[s.active].state == Blocked <==> Held(s, m) && !OwnerIs(s, m, s.active)
    ensures s'.outcome == SelfDeadlock <==> !waited && OwnerIs(s, m, s.active) && s.mutexes[m].kind == Normal
    ensures Proceeds(s, Lock(m), s')
  {
    ActiveRuns(s);
    hide OwnedOk, WaitOk, Together, Yields, SysOk;
    if Blocks(s, Lock(m), s') {
      YieldOutcome(WithActive(s, Active(s).(state := Blocked, pending := Waiting(Lock(m)))), s');
    }
  }

  lemma UnlockBlocks(s: Sys, m: MutexId, op: Op, s': Sys)
    requires SysOk(s) && s.outcome == Going && m in s.mutexes && Unlocks(s, m, op, s') && (op.Unlock? || op.Wait?)
    ensures s.active < |s'.threads| && s'.outcome != SelfDeadlock && Proceeds(s, op, s')
    ensures s'.threads[s.active].state == Blocked
       <==> op.Wait? && OwnerIs(s, m, s.active) && !(s.mutexes[m].kind == Recursive && s.mutexes[m].count > 0)
  {
    ActiveRuns(s);
    hide OwnedOk, WaitOk, Together, Yields, SysOk;
    if OwnerIs(s, m, s.active) && !(s.mutexes[m].kind == Recursive && s.mutexes[m].count > 0) {
      var r := Released(s, m);
      if op.Wait? {
        YieldOutcome(WithActive(r, Active(r).(state := Blocked, pending := Waiting(op))), s');
      } else {
        assert WaitingOn(Active(s)) == Nothing;
      }
    }
  }

  /** A thread that announces an operation has it before it, and nothing else changes but the turn. */
  lemma Announced(s: Sys, op: Op, s': Sys)
    requires Next(s, Begin(op), s')
    ensures s'.mutexes == s.mutexes && |s'.threads| == |s.threads| && Active(s).pending == Idle
    ensures forall t :: 0 <= t < |s.threads| ==>
      s'.threads[t] == if t == s.active then s.threads[t].(pending := Ready(op)) else s.threads[t]
  {
    hide Yields;
    YieldKeepsThreads(WithActive(s, Active(s).(pending := Ready(op))), s');
    assert s'.mutexes == s.mutexes by { YieldKeepsMutexes(WithActive(s, Active(s).(pending := Ready(op))), s'); }
  }

  /** The step of the active thread leaves it blocked exactly if it joins a thread that is not completed,
      locks a mutex that another thread holds which has not crashed, or gives a mutex up in a wait;
      and an execution ends in a self-deadlock exactly if it locks a normal mutex it holds. */
  lemma BlocksExactly(s: Sys, crashAt: nat, s': Sys)
    requires SysOk(s) && Next(s, Execute(crashAt), s')
    ensures s.active < |s'.threads| && Proceeds(s, Active(s).pending.op, s')
    ensures s'.threads[s.active].state == Blocked
       <==> match Active(s).pending.op
            case Join(u) => Active(s).pending.Ready? && s.threads[u].state != Completed
            case Lock(m) => Held(s, m) && !OwnerIs(s, m, s.active)
            case Wait(_, m) => Releases(s, Execute(crashAt), m)
            case _ => false
    ensures s'.outcome == SelfDeadlock
       <==> Active(s).pending.Ready? && Active(s).pending.op.Lock? && OwnerIs(s, Active(s).pending.op.mutex, s.active)
            && s.mutexes[Active(s).pending.op.mutex].kind == Normal
  {
    assert WaitOk(s, s.active);
    hide SysOk, WaitOk, LastYields, Yields, WakesOne, WokenAll, CrashUpTo, ShutDown, ProcessEnded;
    var op := Active(s).pending.op;
    match op {
      case Join(u) =>
        var b := WithActive(s, Active(s).(state := Blocked, pending := Waiting(op)));
        if Yields(b, s') { YieldOutcome(b, s'); }
      case Lock(m) =>
        var b := WithActive(s, Active(s).(state := Blocked, pending := Waiting(op)));
        if Yields(b, s') { YieldOutcome(b, s'); }
        LockBlocks(s, m, Active(s).pending.Waiting?, s');
      case Unlock(m) => UnlockBlocks(s, m, op, s');
      case Wait(_, m) => if Active(s).pending.Ready? { UnlockBlocks(s, m, op, s'); }
      case NotifyOne(c) =>
        ActiveRuns(s);
        NotifyOneKeeps(s, c, s'.threads[s.active := Active(s)]);
      case NotifyAll(c) =>
        ActiveRuns(s);
        WokenOne(s.threads, OnCond(c), s.active);
      case Finish =>
        YieldOutcome(Leaving(s), s');
      case Shutdown =>
        ShutdownEnds(s.threads, Active(s).pid, crashAt);
        ActiveEnds(s, ShutDown(s.threads, Active(s).pid, crashAt));
        YieldOutcome(s.(threads := ShutDown(s.threads, Active(s).pid, crashAt)), s');
      case _ =>
        ActiveRuns(s);
    }
  }
}
