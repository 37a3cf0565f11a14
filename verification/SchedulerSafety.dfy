/** What holds in every reachable state of the scheduler. */
module SchedulerSafety {
  import opened Actions
  import opened ReadAssembly
  import opened SchedulerState

  // ----- the invariant -----

  predicate OpOk(s: Sys, pid: Pid, op: Op) {
    match op
    case Join(u) => u < |s.threads| && s.threads[u].pid == pid
    case TryLock(m) => m in s.mutexes
    case Lock(m) => m in s.mutexes
    case Unlock(m) => m in s.mutexes
    case Wait(_, m) => m in s.mutexes
    case _ => true
  }

  predicate OwnerIs(s: Sys, m: MutexId, t: Tid) {
    m in s.mutexes && s.mutexes[m].owner == Some(t)
  }

  /** The set of a thread that has not crashed is exactly the mutexes that name it. */
  ghost predicate OwnedOk(s: Sys, t: Tid)
    requires t < |s.threads|
  {
    s.threads[t].state != Crashed ==> forall m :: m in s.threads[t].owned <==> OwnerIs(s, m, t)
  }

  /** Somebody who has not crashed holds `m`. */
  predicate Held(s: Sys, m: MutexId) {
    && m in s.mutexes && s.mutexes[m].owner.Some?
    && s.mutexes[m].owner.value < |s.threads| && s.threads[s.mutexes[m].owner.value].state != Crashed
  }

  /** Whoever waits for a mutex does not own it, and while it is blocked another thread that
      has not crashed does. Whoever waits for a thread of its process is blocked until that
      thread is completed. */
  predicate WaitOk(s: Sys, t: Tid)
    requires t < |s.threads|
  {
    var th := s.threads[t];
    && (th.pending != Idle ==> OpOk(s, th.pid, th.pending.op))
    && (th.state == Blocked ==> th.pending.Waiting?)
    && (th.pending.Waiting? && !Done(th) ==>
          match th.pending.op
          case Lock(m) => !OwnerIs(s, m, t) && (th.state == Blocked ==> Held(s, m))
          case Join(u) => u < |s.threads| && (if th.state == Blocked then !Done(s.threads[u])
              else s.threads[u].state == Completed)
          case Wait(_, _) => true
          case _ => false)
  }

  /** A process crashes as a whole. */
  predicate Together(s: Sys) {
    forall t, u | 0 <= t < |s.threads| && 0 <= u < |s.threads| ::
      s.threads[t].pid == s.threads[u].pid && s.threads[t].state == Crashed ==> Done(s.threads[u])
  }

  predicate OwnersOk(s: Sys) {
    forall m :: m in s.mutexes && s.mutexes[m].owner.Some? ==> s.mutexes[m].owner.value < |s.threads|
  }

  ghost predicate ThreadsOk(s: Sys) {
    && s.active < |s.threads| && OwnersOk(s) && Together(s)
    && forall t :: 0 <= t < |s.threads| ==> OwnedOk(s, t) && WaitOk(s, t)
  }

  ghost predicate OutcomeOk(s: Sys)
    requires s.active < |s.threads|
  {
    match s.outcome
    case Going => Active(s).state == Running
    case Deadlock =>
      && (forall t: Tid :: !IsRunning(s.threads, t))
      && exists t :: 0 <= t < |s.threads| && s.threads[t].state == Blocked
    case SelfDeadlock => Active(s).state == Running
      && Active(s).pending.Ready? && Active(s).pending.op.Lock? && OwnerIs(s, Active(s).pending.op.mutex, s.active)
    case Over => forall t :: 0 <= t < |s.threads| ==> Done(s.threads[t])
  }

  ghost predicate SysOk(s: Sys) {
    ThreadsOk(s) && OutcomeOk(s)
  }

  // ----- yielding -----

  lemma SameThreads(s: Sys, s': Sys)
    requires ThreadsOk(s) && s'.threads == s.threads && s'.mutexes == s.mutexes && s'.active < |s.threads|
    ensures ThreadsOk(s')
  {
    forall t | 0 <= t < |s.threads| ensures OwnedOk(s', t) && WaitOk(s', t) {
      assert OwnedOk(s, t) && WaitOk(s, t);
    }
  }

  lemma YieldKeeps(s: Sys, s': Sys)
    requires ThreadsOk(s) && !Done(Active(s)) && s.outcome == Going && Yields(s, s')
    ensures SysOk(s')
  {
    SameThreads(s, s');
    if OthersIdle(s.threads, s.active) && !IsRunning(s.threads, s.active) {
      assert Active(s).state == Blocked;
    }
  }

  lemma LastYieldKeeps(s: Sys, s': Sys)
    requires ThreadsOk(s) && Done(Active(s)) && s.outcome == Going && LastYields(s, s')
    ensures SysOk(s')
  {
    SameThreads(s, s');
    if OthersIdle(s.threads, s.active) {
      if OtherBlocked(s.threads, s.active) {
        var c: Tid :| c < |s.threads| && c != s.active && s.threads[c].state == Blocked;
      } else {
        forall t | 0 <= t < |s.threads| ensures Done(s.threads[t]) {
          assert !IsRunning(s.threads, t) || t == s.active;
        }
      }
    }
  }

  // ----- changes of one thread's own operation -----

  /** The active thread goes on with another operation, or none. */
  lemma PendingKeeps(s: Sys, p: Pending)
    requires ThreadsOk(s) && Active(s).state == Running
    requires !p.Waiting? && (p.Ready? ==> OpOk(s, Active(s).pid, p.op))
    ensures ThreadsOk(WithActive(s, Active(s).(pending := p)))
  {
    var s' := WithActive(s, Active(s).(pending := p));
    forall t | 0 <= t < |s.threads| ensures OwnedOk(s', t) && WaitOk(s', t) {
      assert OwnedOk(s, t) && WaitOk(s, t);
    }
  }

  /** The active thread blocks for something it has to wait for. */
  lemma BlockKeeps(s: Sys, op: Op)
    requires ThreadsOk(s) && Active(s).state == Running && OpOk(s, Active(s).pid, op)
    requires match op
             case Lock(m) => !OwnerIs(s, m, s.active) && Held(s, m)
             case Join(u) => !Done(s.threads[u])
             case Wait(_, _) => true
             case _ => false
    ensures ThreadsOk(WithActive(s, Active(s).(state := Blocked, pending := Waiting(op))))
  {
    var s' := WithActive(s, Active(s).(state := Blocked, pending := Waiting(op)));
    forall t | 0 <= t < |s.threads| ensures OwnedOk(s', t) && WaitOk(s', t) {
      assert OwnedOk(s, t) && WaitOk(s, t);
    }
  }

  // ----- ownership -----

  /** The active thread takes a mutex nobody holds. Both assertions of `set_owner` hold. */
  lemma TakeKeeps(s: Sys, m: MutexId)
    requires ThreadsOk(s) && Active(s).state == Running && Free(s, m)
    requires Active(s).pending.Ready? || Active(s).pending == Waiting(Lock(m))
    ensures m !in Active(s).owned
    ensures ThreadsOk(Finished(SetOwner(s, m, Some(s.active))))
  {
    var s' := Finished(SetOwner(s, m, Some(s.active)));
    assert OwnedOk(s, s.active);
    forall t | 0 <= t < |s.threads| ensures OwnedOk(s', t) && WaitOk(s', t) {
      assert OwnedOk(s, t) && WaitOk(s, t);
    }
  }

  function Released(s: Sys, m: MutexId): Sys
    requires m in s.mutexes
  {
    var r := SetOwner(s, m, None);
    r.(threads := WokenAll(r.threads, {OnMutex(m)}))
  }

  /** The active thread gives a mutex up, and all who wait for it are woken. */
  lemma ReleaseKeeps(s: Sys, m: MutexId)
    requires ThreadsOk(s) && Active(s).state == Running && OwnerIs(s, m, s.active)
    ensures m in Active(s).owned
    ensures ThreadsOk(Released(s, m)) && Active(Released(s, m)) == Active(s).(owned := Active(s).owned - {m})
  {
    var s' := Released(s, m);
    assert OwnedOk(s, s.active);
    forall t | 0 <= t < |s.threads| ensures OwnedOk(s', t) && WaitOk(s', t) {
      assert OwnedOk(s, t) && WaitOk(s, t);
    }
  }

  lemma CountKeeps(s: Sys, m: MutexId, count: nat)
    requires ThreadsOk(s) && m in s.mutexes
    ensures ThreadsOk(SetCount(s, m, count))
  {
    var s' := SetCount(s, m, count);
    forall t | 0 <= t < |s.threads| ensures OwnedOk(s', t) && WaitOk(s', t) {
      assert OwnedOk(s, t) && WaitOk(s, t);
    }
  }

  // ----- waking, finishing, creating -----

  lemma NotifyKeeps(s: Sys, ts: seq<Thread>, c: CondId)
    requires ThreadsOk(s) && |ts| == |s.threads|
    requires forall t :: 0 <= t < |ts| ==>
      ts[t] == s.threads[t] || (WaitingOn(s.threads[t]) == OnCond(c) && ts[t] == s.threads[t].(state := Running))
    ensures ThreadsOk(s.(threads := ts))
  {
    var s' := s.(threads := ts);
    forall t | 0 <= t < |s.threads| ensures OwnedOk(s', t) && WaitOk(s', t) {
      assert OwnedOk(s, t) && WaitOk(s, t);
      assert ts[t] == s.threads[t] || WaitingOn(s.threads[t]) == OnCond(c);
    }
  }

  function Leaving(s: Sys): Sys
    requires s.active < |s.threads|
  {
    var woken := s.(threads := WokenAll(s.threads, {OnThread(s.active)}));
    WithActive(woken, Active(woken).(state := Completed))
  }

  /** The active thread finishes, and all who want to join it are woken. */
  lemma FinishKeeps(s: Sys)
    requires ThreadsOk(s) && Active(s).state == Running
    ensures ThreadsOk(Leaving(s)) && Active(Leaving(s)).state == Completed
  {
    var s' := Leaving(s);
    forall t | 0 <= t < |s.threads| ensures OwnedOk(s', t) && WaitOk(s', t) {
      assert OwnedOk(s, t) && WaitOk(s, t);
    }
  }

  lemma CreateKeeps(s: Sys)
    requires ThreadsOk(s) && Active(s).state == Running
    ensures ThreadsOk(s.(threads := s.threads + [Thread(Active(s).pid, Running, Idle, {})]))
  {
    var s' := s.(threads := s.threads + [Thread(Active(s).pid, Running, Idle, {})]);
    forall t | 0 <= t < |s'.threads| ensures OwnedOk(s', t) && WaitOk(s', t) {
      if t < |s.threads| {
        assert OwnedOk(s, t) && WaitOk(s, t);
      }
    }
  }

  // ----- the end of a process -----

  predicate Ends(ts: seq<Thread>, p: Pid, i: Tid) {
    i < |ts| && ts[i].pid == p && !Done(ts[i])
  }

  /** Thread `i` crashes between `ts` and `ts'`, and holds what `t` waits for. */
  predicate FreesBy(ts: seq<Thread>, ts': seq<Thread>, t: Thread, i: Tid) {
    && i < |ts| == |ts'| && !Done(ts[i]) && ts'[i].state == Crashed
    && WaitingOn(t).OnMutex? && WaitingOn(t).m in ts[i].owned
  }

  /** Every thread of `p` is done, and exactly those who wait for a mutex of one that crashed
      are woken; nothing else changes. */
  ghost predicate ProcessEnded(ts: seq<Thread>, p: Pid, ts': seq<Thread>) {
    && |ts'| == |ts|
    && forall t :: 0 <= t < |ts| ==>
         if Ends(ts, p, t) then Done(ts'[t]) && ts'[t] == ts[t].(state := ts'[t].state)
         else if exists i :: FreesBy(ts, ts', ts[t], i) then ts'[t] == ts[t].(state := Running)
         else ts'[t] == ts[t]
  }

  lemma EndKeeps(s: Sys, p: Pid, ts': seq<Thread>)
    requires ThreadsOk(s) && ProcessEnded(s.threads, p, ts')
    ensures ThreadsOk(s.(threads := ts'))
  {
    var s' := s.(threads := ts');
    forall t | 0 <= t < |s.threads| ensures OwnedOk(s', t) && WaitOk(s', t) {
      EndKeepsThread(s, p, ts', t);
    }
    assert Together(s') by {
      forall t, u | 0 <= t < |ts'| && 0 <= u < |ts'| && ts'[t].pid == ts'[u].pid && ts'[t].state == Crashed
        ensures Done(ts'[u])
      {
        assert Ends(s.threads, p, t) || ts'[t] == s.threads[t];
        assert Ends(s.threads, p, u) || Done(s.threads[u]);
      }
    }
  }

  lemma EndKeepsThread(s: Sys, p: Pid, ts': seq<Thread>, t: Tid)
    requires ThreadsOk(s) && ProcessEnded(s.threads, p, ts') && t < |ts'|
    ensures OwnedOk(s.(threads := ts'), t) && WaitOk(s.(threads := ts'), t)
  {
    var s' := s.(threads := ts');
    assert OwnedOk(s, t) && WaitOk(s, t);
    var th := s.threads[t];
    if !Ends(s.threads, p, t) && th.pending.Waiting? && !Done(th) {
      match th.pending.op
      case Lock(m) =>
        if ts'[t].state == Blocked {
          var o := s.mutexes[m].owner.value;
          assert OwnedOk(s, o);
          assert !FreesBy(s.threads, ts', th, o);
        }
      case _ =>
    }
  }

  /** What the one-by-one crash comes to for each thread. */
  lemma {:induction false} CrashEffect(ts: seq<Thread>, p: Pid, n: nat, t: Tid)
    requires n <= |ts| && t < |ts|
    ensures var r := CrashUpTo(ts, p, n);
            if t < n && Ends(ts, p, t) then r[t] == ts[t].(state := Crashed)
            else if exists i: Tid ::
              i < n && Ends(ts, p, i) && WaitingOn(ts[t]).OnMutex? && WaitingOn(ts[t]).m in ts[i].owned
            then r[t] == ts[t].(state := Running)
            else r[t] == ts[t]
  {
    if n > 0 {
      CrashEffect(ts, p, n - 1, t);
      CrashEffect(ts, p, n - 1, n - 1);
    }
  }

  lemma CrashEnds(ts: seq<Thread>, p: Pid)
    ensures ProcessEnded(ts, p, CrashUpTo(ts, p, |ts|))
  {
    var r := CrashUpTo(ts, p, |ts|);
    forall t | 0 <= t < |ts|
      ensures if Ends(ts, p, t) then Done(r[t]) && r[t] == ts[t].(state := r[t].state)
              else if exists i :: FreesBy(ts, r, ts[t], i) then r[t] == ts[t].(state := Running)
              else r[t] == ts[t]
    {
      CrashEffect(ts, p, |ts|, t);
      forall i: Tid | i < |ts|
        ensures FreesBy(ts, r, ts[t], i) <==>
                Ends(ts, p, i) && WaitingOn(ts[t]).OnMutex? && WaitingOn(ts[t]).m in ts[i].owned
      {
        CrashEffect(ts, p, |ts|, i);
      }
    }
  }

  lemma ShutdownEnds(ts: seq<Thread>, p: Pid, crashAt: nat)
    ensures ProcessEnded(ts, p, ShutDown(ts, p, crashAt))
  {
    if crashAt < |ts| && ts[crashAt].pid == p {
      var mid := CompleteUpTo(ts, p, crashAt + 1);
      var r := ShutDown(ts, p, crashAt);
      CrashEnds(mid, p);
      forall t | 0 <= t < |ts|
        ensures if Ends(ts, p, t) then Done(r[t]) && r[t] == ts[t].(state := r[t].state)
                else if exists i :: FreesBy(ts, r, ts[t], i) then r[t] == ts[t].(state := Running)
                else r[t] == ts[t]
      {
        if !Ends(ts, p, t) {
          assert mid[t] == ts[t] && !Ends(mid, p, t);
          forall i: Tid | i < |ts| ensures FreesBy(ts, r, ts[t], i) <==> FreesBy(mid, r, mid[t], i) {
            assert mid[i].owned == ts[i].owned;
          }
        }
      }
    } else {
      var r := CompleteUpTo(ts, p, |ts|);
      forall t, i: Tid | 0 <= t < |ts| ensures !FreesBy(ts, r, ts[t], i) {
      }
    }
  }

  // ----- every step keeps the invariant -----

  lemma LockKeeps(s: Sys, s': Sys)
    requires SysOk(s) && s.outcome == Going && Active(s).pending != Idle && Active(s).pending.op.Lock?
    requires Legal(s, Active(s).pending.op) && Executes(s, 0, s')
    ensures SysOk(s')
  {
    hide Together, Yields, CrashUpTo, ShutDown, WakesOne;
    var m := Active(s).pending.op.mutex;
    assert WaitOk(s, s.active) && OwnedOk(s, s.active);
    if Active(s).pending.Ready? && OwnerIs(s, m, s.active) {
      CountKeeps(s, m, s.mutexes[m].count + 1);
      PendingKeeps(SetCount(s, m, s.mutexes[m].count + 1), Idle);
      PendingKeeps(s, Idle);
      SameThreads(s, s.(outcome := SelfDeadlock));
    } else if Free(s, m) {
      TakeKeeps(s, m);
    } else {
      BlockKeeps(s, Lock(m));
      YieldKeeps(WithActive(s, Active(s).(state := Blocked, pending := Waiting(Lock(m)))), s');
    }
  }

  lemma UnlockKeeps(s: Sys, m: MutexId, op: Op, s': Sys)
    requires SysOk(s) && s.outcome == Going && m in s.mutexes && Active(s).pending == Ready(op)
    requires op == Unlock(m) || (op.Wait? && op.mutex == m)
    requires Unlocks(s, m, op, s')
    ensures SysOk(s')
  {
    if !OwnerIs(s, m, s.active) {
      PendingKeeps(s, Idle);
    } else if s.mutexes[m].kind == Recursive && s.mutexes[m].count > 0 {
      CountKeeps(s, m, s.mutexes[m].count - 1);
      PendingKeeps(SetCount(s, m, s.mutexes[m].count - 1), Idle);
    } else {
      ReleaseKeeps(s, m);
      var r := Released(s, m);
      if op.Wait? {
        BlockKeeps(r, op);
        YieldKeeps(WithActive(r, Active(r).(state := Blocked, pending := Waiting(op))), s');
      } else {
        PendingKeeps(r, Idle);
      }
    }
  }

  lemma NotifyOneKeeps(s: Sys, c: CondId, ts: seq<Thread>)
    requires ThreadsOk(s) && |ts| == |s.threads| && Active(s).state == Running
    requires WakesOne(s.threads, s.active, OnCond(c), ts)
    ensures ThreadsOk(s.(threads := ts)) && ts[s.active] == Active(s)
  {
    if forall b: Tid :: !IsWaiting(s.threads, s.active, OnCond(c), b) {
      assert s.(threads := ts) == s;
    } else {
      var b: Tid :| NextWaiting(s.threads, s.active, OnCond(c), b)
          && ts == s.threads[b := s.threads[b].(state := Running)];
      assert WaitingOn(s.threads[b]) == OnCond(c);
      NotifyKeeps(s, ts, c);
    }
  }

  /** The active thread is done with its operation. */
  lemma Resumes(s: Sys)
    requires ThreadsOk(s) && Active(s).state == Running && s.outcome == Going
    ensures SysOk(Finished(s))
  {
    PendingKeeps(s, Idle);
  }

  lemma JoinKeeps(s: Sys, u: Tid, s': Sys)
    requires SysOk(s) && s.outcome == Going && Active(s).pending != Idle && Active(s).pending.op == Join(u)
    requires Legal(s, Join(u)) && Executes(s, 0, s')
    ensures SysOk(s')
  {
    if Active(s).pending.Ready? && s.threads[u].state != Completed {
      assert WaitOk(s, s.active);
      BlockKeeps(s, Join(u));
      YieldKeeps(WithActive(s, Active(s).(state := Blocked, pending := Waiting(Join(u)))), s');
    } else {
      Resumes(s);
    }
  }

  lemma TryLockKeeps(s: Sys, m: MutexId, s': Sys)
    requires SysOk(s) && s.outcome == Going && Active(s).pending != Idle && Active(s).pending.op == TryLock(m)
    requires Legal(s, TryLock(m)) && Executes(s, 0, s')
    ensures SysOk(s')
  {
    if Free(s, m) {
      assert WaitOk(s, s.active);
      TakeKeeps(s, m);
    } else {
      Resumes(s);
    }
  }

  lemma FinishStep(s: Sys, s': Sys)
    requires SysOk(s) && s.outcome == Going && LastYields(Leaving(s), s')
    ensures SysOk(s')
  {
    FinishKeeps(s);
    LastYieldKeeps(Leaving(s), s');
  }

  lemma EndStep(s: Sys, ts: seq<Thread>, s': Sys)
    requires SysOk(s) && s.outcome == Going && ProcessEnded(s.threads, Active(s).pid, ts)
    requires LastYields(s.(threads := ts), s')
    ensures SysOk(s')
  {
    EndKeeps(s, Active(s).pid, ts);
    assert Ends(s.threads, Active(s).pid, s.active);
    LastYieldKeeps(s.(threads := ts), s');
  }

  lemma ExecuteKeeps(s: Sys, crashAt: nat, s': Sys)
    requires SysOk(s) && s.outcome == Going && Active(s).pending != Idle && Legal(s, Active(s).pending.op)
    requires Executes(s, crashAt, s')
    ensures SysOk(s')
  {
    assert WaitOk(s, s.active);
    hide OwnedOk, WaitOk, LastYields, Together, OwnersOk;
    match Active(s).pending.op {
      case Plain =>
        Resumes(s);
      case Create =>
        CreateKeeps(s);
        Resumes(s.(threads := s.threads + [Thread(Active(s).pid, Running, Idle, {})]));
        assert Finished(s).threads + [Thread(Active(s).pid, Running, Idle, {})]
            == Finished(s.(threads := s.threads + [Thread(Active(s).pid, Running, Idle, {})])).threads;
      case Join(u) =>
        JoinKeeps(s, u, s');
      case TryLock(m) =>
        TryLockKeeps(s, m, s');
      case Lock(_) =>
        LockKeeps(s, s');
      case Unlock(m) =>
        UnlockKeeps(s, m, Unlock(m), s');
      case Wait(_, m) =>
        if Active(s).pending.Waiting? {
          Resumes(s);
        } else {
          UnlockKeeps(s, m, Active(s).pending.op, s');
        }
      case NotifyOne(c) =>
        NotifyOneKeeps(s, c, s'.threads[s.active := Active(s)]);
        Resumes(s.(threads := s'.threads[s.active := Active(s)]));
      case NotifyAll(c) =>
        var ts := WokenAll(s.threads, {OnCond(c)});
        NotifyKeeps(s, ts, c);
        Resumes(s.(threads := ts));
      case Finish =>
        FinishStep(s, s');
      case Shutdown =>
        ShutdownEnds(s.threads, Active(s).pid, crashAt);
        EndStep(s, ShutDown(s.threads, Active(s).pid, crashAt), s');
    }
  }

  lemma MutexKeeps(s: Sys, m: MutexId, kind: MutexKind)
    requires SysOk(s) && s.outcome == Going && m !in s.mutexes
    ensures SysOk(s.(mutexes := s.mutexes[m := Mutex(kind, None, 0)]))
  {
    var s' := s.(mutexes := s.mutexes[m := Mutex(kind, None, 0)]);
    forall t | 0 <= t < |s.threads| ensures OwnedOk(s', t) && WaitOk(s', t) {
      assert OwnedOk(s, t) && WaitOk(s, t);
    }
  }

  lemma StepKeeps(s: Sys, st: Step, s': Sys)
    requires SysOk(s) && Next(s, st, s')
    ensures SysOk(s')
  {
    hide OwnedOk, WaitOk, LastYields, Together, OwnersOk, Executes;
    match st {
      case NewMutex(m, kind) =>
        MutexKeeps(s, m, kind);
      case Begin(op) =>
        PendingKeeps(s, Ready(op));
        YieldKeeps(WithActive(s, Active(s).(pending := Ready(op))), s');
      case Execute(crashAt) =>
        ExecuteKeeps(s, crashAt, s');
      case Crash =>
        CrashEnds(s.threads, Active(s).pid);
        EndStep(s, CrashUpTo(s.threads, Active(s).pid, |s.threads|), s');
    }
  }

  lemma {:induction false} RunKeeps(ss: seq<Sys>, sts: seq<Step>, i: nat)
    requires IsRun(ss, sts) && i < |ss|
    ensures SysOk(ss[i])
  {
    if i > 0 {
      RunKeeps(ss, sts, i - 1);
      StepKeeps(ss[i - 1], sts[i - 1], ss[i]);
    }
  }
}
