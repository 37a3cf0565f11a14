/** The scheduler itself, as it changes its threads and mutexes step by step. */
module Schedulers {
  import opened Actions
  import opened ReadAssembly
  import opened SchedulerSafety
  import opened S = SchedulerState

  /** Going `i` places round the circle. */
  lemma Circle(a: Tid, i: nat, n: nat)
    requires a < n && 0 < i < n
    ensures var t := (a + i) % n; t < n && t != a && Distance(a, t, n) == i
    ensures forall c: Tid :: c < n && c != a && Distance(a, c, n) == i ==> c == (a + i) % n
  {
    if a + i < n {
      assert (a + i) % n == a + i;
    } else {
      assert (a + i) % n == a + i - n;
    }
  }

  lemma WokenTwice(ts: seq<Thread>, vs: set<Target>, ws: set<Target>)
    requires Nothing !in vs && Nothing !in ws
    ensures WokenAll(WokenAll(ts, vs), ws) == WokenAll(ts, vs + ws)
  {
  }

  lemma WokenNone(ts: seq<Thread>)
    ensures WokenAll(ts, {}) == ts
  {
  }

  /** What a lock or trylock reports: taken over from a crashed owner or not. */
  function Recovered(s: Sys, m: MutexId): nat {
    if Orphaned(s, m) then 1 else 0
  }

  class Scheduler {
    var threads: seq<Thread>
    var mutexes: map<MutexId, Mutex>
    var activeThread: Tid
    var outcome: Outcome

    function Value(): Sys
      reads this
    {
      Sys(threads, mutexes, activeThread, outcome)
    }

    constructor (pc: nat)
      requires pc > 0
      ensures Init(Value()) && |threads| == pc
    {
      threads := seq(pc, i => Thread(i, Running, Idle, {}));
      mutexes, activeThread, outcome := map[], 0, Going;
    }

    // ----- waking -----

    method WakeAllThreadsWaitingOn(v: Target)
      requires v != Nothing
      modifies this`threads
      ensures threads == WokenAll(old(threads), {v})
    {
      ghost var ts := threads;
      for i := 0 to |threads|
        invariant |threads| == |ts|
        invariant forall k :: 0 <= k < |ts| ==> threads[k] == if k < i then Wake(ts[k], {v}) else ts[k]
      {
        if WaitingOn(threads[i]) == v {
          threads := threads[i := threads[i].(state := Running)];
        }
      }
    }

    method WakeThreadWaitingOn(v: Target)
      requires activeThread < |threads|
      modifies this`threads
      ensures WakesOne(old(threads), activeThread, v, threads)
    {
      var tc := |threads|;
      for i := 1 to tc
        invariant threads == old(threads)
        invariant forall c: Tid :: IsWaiting(threads, activeThread, v, c) ==> Distance(activeThread, c, tc) >= i
      {
        var tid := (activeThread + i) % tc;
        Circle(activeThread, i, tc);
        if WaitingOn(threads[tid]) == v {
          assert NextWaiting(threads, activeThread, v, tid);
          threads := threads[tid := threads[tid].(state := Running)];
          return;
        }
      }
    }

    // ----- yielding -----

    method Yield()
      requires activeThread < |threads|
      modifies this`activeThread, this`outcome
      ensures Yields(old(Value()), Value())
    {
      var tc := |threads|;
      for i := 1 to tc
        invariant Value() == old(Value())
        invariant forall c: Tid :: IsRunning(threads, c) && c != activeThread ==> Distance(activeThread, c, tc) >= i
      {
        var tid := (activeThread + i) % tc;
        Circle(activeThread, i, tc);
        if threads[tid].state == Running {
          assert IsRunning(threads, tid);
          activeThread := tid;
          return;
        }
      }
      if threads[activeThread].state != Running {
        outcome := Deadlock;
      }
    }

    method LastYield() returns (more: bool)
      requires activeThread < |threads| && outcome == Going
      modifies this`activeThread, this`outcome
      ensures LastYields(old(Value()), Value())
      ensures more <==> outcome == Going
    {
      var threadsBlocked := false;
      var tc := |threads|;
      for i := 1 to tc
        invariant Value() == old(Value())
        invariant forall c: Tid :: IsRunning(threads, c) && c != activeThread ==> Distance(activeThread, c, tc) >= i
        invariant threadsBlocked ==> OtherBlocked(threads, activeThread)
        invariant forall c: Tid :: c < tc && c != activeThread && threads[c].state == Blocked ==>
          threadsBlocked || Distance(activeThread, c, tc) >= i
      {
        var tid := (activeThread + i) % tc;
        Circle(activeThread, i, tc);
        if threads[tid].state == Running {
          assert IsRunning(threads, tid);
          activeThread := tid;
          return true;
        }
        threadsBlocked := threadsBlocked || threads[tid].state == Blocked;
      }
      outcome := if threadsBlocked then Deadlock else Over;
      more := false;
    }

    // ----- the end of a process -----

    method ProcessCrash(p: Pid)
      modifies this`threads
      ensures threads == CrashUpTo(old(threads), p, |old(threads)|)
    {
      ghost var ts := threads;
      for i := 0 to |threads|
        invariant |threads| == |ts| && threads == CrashUpTo(ts, p, i)
      {
        if threads[i].pid == p && !Done(threads[i]) {
          CrashThread(i);
        }
      }
    }

    method CrashThread(i: Tid)
      requires i < |threads|
      modifies this`threads
      ensures threads == WokenAll(old(threads)[i := old(threads)[i].(state := Crashed)],
              OnMutexes(old(threads)[i].owned))
    {
      var owned := threads[i].owned;
      threads := threads[i := threads[i].(state := Crashed)];
      ghost var ts := threads;
      WokenNone(ts);
      var left := owned;
      assert OnMutexes(owned - left) == {};
      while left != {}
        invariant left <= owned && threads == WokenAll(ts, OnMutexes(owned - left))
        decreases left
      {
        var mutex :| mutex in left;
        ghost var before := OnMutexes(owned - left);
        WakeAllThreadsWaitingOn(OnMutex(mutex));
        WokenTwice(ts, before, {OnMutex(mutex)});
        left := left - {mutex};
        assert OnMutexes(owned - left) == before + {OnMutex(mutex)};
      }
      assert owned - left == owned;
    }

    /** Completes the threads of process `p`. Draining the buffers of thread `crashAt` crashes
        the process, if that is one of its threads. */
    method ProcessShutdown(p: Pid, crashAt: nat)
      modifies this`threads
      ensures threads == ShutDown(old(threads), p, crashAt)
    {
      ghost var ts := threads;
      for i := 0 to |threads|
        invariant threads == CompleteUpTo(ts, p, i)
        invariant crashAt < i ==> ts[crashAt].pid != p
      {
        if threads[i].pid == p {
          if !Done(threads[i]) {
            threads := threads[i := threads[i].(state := Completed)];
          }
          assert threads == CompleteUpTo(ts, p, i + 1);
          if i == crashAt {
            ProcessCrash(p);
            return;
          }
        }
        assert threads == CompleteUpTo(ts, p, i + 1);
      }
    }

    // ----- ownership -----

    /** `Mutex::set_owner` with its two assertions. */
    method SetOwner(m: MutexId, thr: Option<Tid>)
      requires m in mutexes && OwnersOk(Value())
      requires mutexes[m].owner.Some? && threads[mutexes[m].owner.value].state != Crashed ==>
        m in threads[mutexes[m].owner.value].owned
      requires thr.Some? ==> thr.value < |threads| && m !in threads[thr.value].owned
      modifies this`threads, this`mutexes
      ensures Value() == S.SetOwner(old(Value()), m, thr)
    {
      var owner := mutexes[m].owner;
      if owner.Some? && threads[owner.value].state != Crashed {
        assert m in threads[owner.value].owned;
        threads := threads[owner.value := threads[owner.value].(owned := threads[owner.value].owned - {m})];
      }
      if thr.Some? {
        assert m !in threads[thr.value].owned;
        threads := threads[thr.value := threads[thr.value].(owned := threads[thr.value].owned + {m})];
      }
      mutexes := mutexes[m := mutexes[m].(owner := thr, count := 0)];
    }

    method SetPending(p: Pending)
      requires activeThread < |threads|
      modifies this`threads
      ensures Value() == WithActive(old(Value()), Active(old(Value())).(pending := p))
    {
      threads := threads[activeThread := threads[activeThread].(pending := p)];
    }

    /** `thread_wait` */
    method ThreadWait(op: Op)
      requires activeThread < |threads|
      modifies this`threads, this`activeThread, this`outcome
      ensures Blocks(old(Value()), op, Value())
    {
      threads := threads[activeThread := threads[activeThread].(state := Blocked, pending := Waiting(op))];
      Yield();
    }

    // ----- operations -----

    method AddMutex(m: MutexId, kind: MutexKind)
      requires SysOk(Value()) && outcome == Going && m !in mutexes
      modifies this`mutexes
      ensures S.Next(old(Value()), NewMutex(m, kind), Value()) && SysOk(Value())
    {
      mutexes := mutexes[m := Mutex(kind, None, 0)];
      StepKeeps(old(Value()), NewMutex(m, kind), Value());
    }

    /** The first half of an operation: it is announced, and the others go first. */
    method Announce(op: Op)
      requires SysOk(Value()) && outcome == Going && Active(Value()).pending == Idle && Legal(Value(), op)
      modifies this
      ensures S.Next(old(Value()), Begin(op), Value()) && SysOk(Value())
    {
      SetPending(Ready(op));
      Yield();
      StepKeeps(old(Value()), Begin(op), Value());
    }

    /** The active process crashes and hands over. */
    method CrashProcess()
      requires SysOk(Value()) && outcome == Going
      modifies this
      ensures S.Next(old(Value()), Crash, Value()) && SysOk(Value())
    {
      ProcessCrash(threads[activeThread].pid);
      var _ := LastYield();
      StepKeeps(old(Value()), Crash, Value());
    }

    method ExecuteLock(m: MutexId, waited: bool) returns (value: nat)
      requires SysOk(Value()) && outcome == Going && m in mutexes
      requires Active(Value()).pending == if waited then Waiting(Lock(m)) else Ready(Lock(m))
      modifies this
      ensures Locks(old(Value()), m, waited, Value())
      ensures value == Recovered(old(Value()), m)
    {
      assert WaitOk(Value(), activeThread) && OwnedOk(Value(), activeThread);
      value := 0;
      var owner := mutexes[m].owner;
      if !waited {
        if owner == None {
          SetOwner(m, Some(activeThread));
          SetPending(Idle);
          return;
        }
        if owner == Some(activeThread) {
          match mutexes[m].kind {
            case Recursive =>
              mutexes := mutexes[m := mutexes[m].(count := mutexes[m].count + 1)];
              SetPending(Idle);
            case ErrorCheck =>
              SetPending(Idle);
            case Normal =>
              outcome := SelfDeadlock;
          }
          return;
        }
      }
      if owner.Some? && threads[owner.value].state != Crashed {
        ThreadWait(Lock(m));
        return;
      }
      value := if owner.Some? then 1 else 0;
      SetOwner(m, Some(activeThread));
      SetPending(Idle);
    }

    method ExecuteTryLock(m: MutexId) returns (value: nat)
      requires SysOk(Value()) && outcome == Going && Active(Value()).pending == Ready(TryLock(m)) && m in mutexes
      modifies this
      ensures Executes(old(Value()), 0, Value())
      ensures value == if Free(old(Value()), m) then 1 + Recovered(old(Value()), m) else 0
    {
      assert OwnedOk(Value(), activeThread);
      var owner := mutexes[m].owner;
      if owner == None || threads[owner.value].state == Crashed {
        value := if owner.Some? then 2 else 1;
        SetOwner(m, Some(activeThread));
      } else {
        value := 0;
      }
      SetPending(Idle);
    }

    method ExecuteUnlock(m: MutexId, op: Op)
      requires SysOk(Value()) && outcome == Going && m in mutexes && Active(Value()).pending == Ready(op)
      requires op == Unlock(m) || (op.Wait? && op.mutex == m)
      modifies this
      ensures Unlocks(old(Value()), m, op, Value())
    {
      assert OwnedOk(Value(), activeThread);
      if mutexes[m].owner != Some(activeThread) {
        SetPending(Idle);
      } else if mutexes[m].kind == Recursive && mutexes[m].count > 0 {
        mutexes := mutexes[m := mutexes[m].(count := mutexes[m].count - 1)];
        SetPending(Idle);
      } else {
        SetOwner(m, None);
        WakeAllThreadsWaitingOn(OnMutex(m));
        if op.Wait? {
          ThreadWait(op);
        } else {
          SetPending(Idle);
        }
      }
    }

    method ExecuteFinish()
      requires SysOk(Value()) && outcome == Going && Active(Value()).pending == Ready(Finish)
      modifies this
      ensures LastYields(Leaving(old(Value())), Value())
    {
      WakeAllThreadsWaitingOn(OnThread(activeThread));
      if !Done(threads[activeThread]) {
        threads := threads[activeThread := threads[activeThread].(state := Completed)];
      }
      var _ := LastYield();
    }

    /** The second half: the operation is carried out. The value of a lock or trylock says
        whether it was taken over from a crashed owner. */
    method Execute(crashAt: nat) returns (value: nat)
      requires SysOk(Value()) && outcome == Going && Active(Value()).pending != Idle
      modifies this
      ensures S.Next(old(Value()), S.Execute(crashAt), Value()) && SysOk(Value())
      ensures var s := old(Value());
              match Active(s).pending.op
              case Lock(m) => value == if Orphaned(s, m) then 1 else 0
              case TryLock(m) =>
                m in s.mutexes && value == if Orphaned(s, m) then 2 else if s.mutexes[m].owner == None then 1 else 0
              case _ => value == 0
    {
      hide OwnedOk, Together, OwnersOk, CrashUpTo, ShutDown, WokenAll;
      ghost var s := Value();
      assert WaitOk(s, activeThread);
      var op, waited := threads[activeThread].pending.op, threads[activeThread].pending.Waiting?;
      value := 0;
      match op {
        case Create =>
          threads := threads + [Thread(threads[activeThread].pid, Running, Idle, {})];
          SetPending(Idle);
        case Join(u) =>
          if !waited && threads[u].state != Completed {
            ThreadWait(op);
          } else {
            SetPending(Idle);
          }
        case TryLock(m) =>
          value := ExecuteTryLock(m);
        case Lock(m) =>
          value := ExecuteLock(m, waited);
        case Unlock(m) =>
          ExecuteUnlock(m, op);
        case Wait(_, m) =>
          if waited {
            SetPending(Idle);
          } else {
            ExecuteUnlock(m, op);
          }
        case NotifyOne(c) =>
          WakeThreadWaitingOn(OnCond(c));
          SetPending(Idle);
        case NotifyAll(c) =>
          WakeAllThreadsWaitingOn(OnCond(c));
          SetPending(Idle);
        case Finish =>
          ExecuteFinish();
        case Shutdown =>
          ProcessShutdown(threads[activeThread].pid, crashAt);
          var _ := LastYield();
        case Plain =>
          SetPending(Idle);
      }
      StepKeeps(s, S.Execute(crashAt), Value());
    }
  }
}
