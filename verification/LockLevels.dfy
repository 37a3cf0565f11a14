/**
 Recursive mutexes, and the threads there are: a mutex taken `n` times is given up by the `n`-th
 unlock and not before, and threads are only ever added by threads of their own process.
 */
module LockLevels {
  import opened Actions
  import opened ReadAssembly
  import opened SchedulerState
  import opened SchedulerSafety
  import opened SchedulerTheorems

  /** How many times thread `t` holds `m`. */
  function Level(s: Sys, m: MutexId, t: Tid): nat {
    if OwnerIs(s, m, t) then s.mutexes[m].count + 1 else 0
  }

  /** Thread `t` locks `m`: nobody holds it, or it does so itself. */
  predicate LocksOnce(s: Sys, st: Step, m: MutexId, t: Tid) {
    && st.Execute? && s.active == t && t < |s.threads| && Active(s).pending != Idle
    && ((Active(s).pending.op == Lock(m) && (Free(s, m) || OwnerIs(s, m, t)))
        || (Active(s).pending.op == TryLock(m) && Free(s, m)))
  }

  /** Thread `t`, which holds `m`, unlocks it, or waits with it. */
  predicate UnlocksOnce(s: Sys, st: Step, m: MutexId, t: Tid) {
    && st.Execute? && s.active == t && t < |s.threads| && OwnerIs(s, m, t) && Active(s).pending.Ready?
    && (Active(s).pending.op == Unlock(m) || (Active(s).pending.op.Wait? && Active(s).pending.op.mutex == m))
  }

  predicate IsRecursive(s: Sys, m: MutexId) {
    m in s.mutexes && s.mutexes[m].kind == Recursive
  }

  lemma LockMutexes(s: Sys, m: MutexId, waited: bool, s': Sys)
    requires s.active < |s.threads| && m in s.mutexes && Locks(s, m, waited, s')
    ensures s'.mutexes
         == if !waited && OwnerIs(s, m, s.active) then
              if s.mutexes[m].kind == Recursive then s.mutexes[m := s.mutexes[m].(count := s.mutexes[m].count + 1)]
              else s.mutexes
            else if Free(s, m) then s.mutexes[m := s.mutexes[m].(owner := Some(s.active), count := 0)]
            else s.mutexes
  {
    hide Yields;
    if Blocks(s, Lock(m), s') {
      YieldKeepsMutexes(WithActive(s, Active(s).(state := Blocked, pending := Waiting(Lock(m)))), s');
    }
  }

  predicate OnMutexOp(op: Op) {
    op.Lock? || op.TryLock? || op.Unlock? || op.Wait?
  }

  /** The other operations leave mutexes alone. */
  lemma OtherOps(s: Sys, crashAt: nat, s': Sys)
    requires SysOk(s) && Next(s, Execute(crashAt), s') && !OnMutexOp(Active(s).pending.op)
    ensures s'.mutexes == s.mutexes
  {
    hide SysOk, LastYields, Yields, WakesOne, ShutDown, CrashUpTo;
    var op := Active(s).pending.op;
    match op {
      case Join(_) =>
        YieldKeepsMutexes(WithActive(s, Active(s).(state := Blocked, pending := Waiting(op))), s');
      case Finish => YieldKeepsMutexes(Leaving(s), s');
      case Shutdown => YieldKeepsMutexes(s.(threads := ShutDown(s.threads, Active(s).pid, crashAt)), s');
      case _ =>
    }
  }

  lemma LevelLocks(s: Sys, crashAt: nat, s': Sys, m: MutexId, t: Tid)
    requires SysOk(s) && Next(s, Execute(crashAt), s') && IsRecursive(s, m)
    requires Active(s).pending.op.Lock? || Active(s).pending.op.TryLock?
    requires t < |s.threads| && s.threads[t].state != Crashed
    ensures IsRecursive(s', m)
    ensures Level(s', m, t) == Level(s, m, t) + (if LocksOnce(s, Execute(crashAt), m, t) then 1 else 0)
    ensures !UnlocksOnce(s, Execute(crashAt), m, t)
  {
    assert WaitOk(s, s.active);
    hide SysOk, WaitOk, Locks;
    var op := Active(s).pending.op;
    if op.Lock? {
      LockMutexes(s, op.mutex, Active(s).pending.Waiting?, s');
    }
  }

  lemma LevelUnlocks(s: Sys, crashAt: nat, s': Sys, m: MutexId, t: Tid)
    requires SysOk(s) && Next(s, Execute(crashAt), s') && IsRecursive(s, m)
    requires Active(s).pending.op.Unlock? || Active(s).pending.op.Wait?
    requires t < |s.threads|
    ensures IsRecursive(s', m)
    ensures Level(s', m, t) + (if UnlocksOnce(s, Execute(crashAt), m, t) then 1 else 0) == Level(s, m, t)
    ensures !LocksOnce(s, Execute(crashAt), m, t)
  {
    assert WaitOk(s, s.active);
    hide SysOk, WaitOk, Unlocks;
    var op := Active(s).pending.op;
    if Active(s).pending.Ready? {
      OwnershipUnlock(s, op.mutex, op, s');
    }
  }

  /** What an operation does to the levels of a thread. */
  lemma LevelExecute(s: Sys, crashAt: nat, s': Sys, m: MutexId, t: Tid)
    requires SysOk(s) && Next(s, Execute(crashAt), s') && IsRecursive(s, m)
    requires t < |s.threads| && s.threads[t].state != Crashed
    ensures IsRecursive(s', m)
    ensures Level(s', m, t) + (if UnlocksOnce(s, Execute(crashAt), m, t) then 1 else 0)
         == Level(s, m, t) + (if LocksOnce(s, Execute(crashAt), m, t) then 1 else 0)
  {
    hide SysOk, Executes;
    var op := Active(s).pending.op;
    if op.Lock? || op.TryLock? {
      LevelLocks(s, crashAt, s', m, t);
    } else if op.Unlock? || op.Wait? {
      LevelUnlocks(s, crashAt, s', m, t);
    } else {
      OtherOps(s, crashAt, s');
    }
  }

  lemma LevelStep(s: Sys, st: Step, s': Sys, m: MutexId, t: Tid)
    requires SysOk(s) && Next(s, st, s') && IsRecursive(s, m) && t < |s.threads| && s.threads[t].state != Crashed
    ensures IsRecursive(s', m)
    ensures Level(s', m, t) + (if UnlocksOnce(s, st, m, t) then 1 else 0)
         == Level(s, m, t) + (if LocksOnce(s, st, m, t) then 1 else 0)
  {
    hide SysOk, LastYields, Yields, CrashUpTo, Executes;
    match st {
      case NewMutex(_, _) =>
      case Begin(op) => YieldKeepsMutexes(WithActive(s, Active(s).(pending := Ready(op))), s');
      case Execute(crashAt) => LevelExecute(s, crashAt, s', m, t);
      case Crash => YieldKeepsMutexes(s.(threads := CrashUpTo(s.threads, Active(s).pid, |s.threads|)), s');
    }
  }

  // ----- the threads there are -----

  /** A step adds a thread exactly if it is a creation; the new one is running, of its creator's
      process, with nothing to do and no mutexes. No thread changes its process. */
  lemma ThreadsStep(s: Sys, st: Step, s': Sys)
    requires SysOk(s) && Next(s, st, s')
    ensures |s.threads| <= |s'.threads|
    ensures forall t :: 0 <= t < |s.threads| ==> s'.threads[t].pid == s.threads[t].pid
    ensures var creates := st.Execute? && Active(s).pending != Idle && Active(s).pending.op.Create?;
            && |s'.threads| == |s.threads| + (if creates then 1 else 0)
            && (creates ==> s'.threads[|s.threads|] == Thread(Active(s).pid, Running, Idle, {}))
  {
    hide SysOk, LastYields, Yields, CrashUpTo, ShutDown, Executes;
    match st {
      case NewMutex(_, _) =>
      case Begin(op) => YieldKept(WithActive(s, Active(s).(pending := Ready(op))), s');
      case Execute(crashAt) => ThreadsExecute(s, crashAt, s');
      case Crash =>
        CrashEnds(s.threads, Active(s).pid);
        YieldKept(s.(threads := CrashUpTo(s.threads, Active(s).pid, |s.threads|)), s');
    }
  }

  lemma YieldKept(s: Sys, s': Sys)
    requires Yields(s, s') || LastYields(s, s')
    ensures s'.threads == s.threads
  {
  }

  predicate SamePids(ts: seq<Thread>, ts': seq<Thread>) {
    |ts'| == |ts| && forall t :: 0 <= t < |ts| ==> ts'[t].pid == ts[t].pid
  }

  lemma EndedPids(ts: seq<Thread>, p: Pid, ts': seq<Thread>)
    requires ProcessEnded(ts, p, ts')
    ensures SamePids(ts, ts')
  {
  }

  lemma UnlockPids(s: Sys, m: MutexId, op: Op, s': Sys)
    requires s.active < |s.threads| && m in s.mutexes && Unlocks(s, m, op, s')
    ensures SamePids(s.threads, s'.threads)
  {
    hide Yields;
    var r := Released(s, m);
    if Blocks(r, op, s') {
      YieldKept(WithActive(r, Active(r).(state := Blocked, pending := Waiting(op))), s');
    }
  }

  lemma LockPids(s: Sys, m: MutexId, waited: bool, s': Sys)
    requires s.active < |s.threads| && m in s.mutexes && Locks(s, m, waited, s')
    ensures SamePids(s.threads, s'.threads)
  {
    hide Yields;
    if Blocks(s, Lock(m), s') {
      YieldKept(WithActive(s, Active(s).(state := Blocked, pending := Waiting(Lock(m)))), s');
    }
  }

  lemma NotifyPids(ts: seq<Thread>, a: Tid, v: Target, ts': seq<Thread>)
    requires WakesOne(ts, a, v, ts')
    ensures SamePids(ts, ts')
  {
  }

  lemma ThreadsExecute(s: Sys, crashAt: nat, s': Sys)
    requires SysOk(s) && Next(s, Execute(crashAt), s')
    ensures if Active(s).pending.op.Create?
            then s'.threads == Finished(s).threads + [Thread(Active(s).pid, Running, Idle, {})]
            else SamePids(s.threads, s'.threads)
  {
    assert WaitOk(s, s.active);
    hide SysOk, WaitOk, Locks, Unlocks, LastYields, Yields, WakesOne, ShutDown, CrashUpTo, ProcessEnded;
    var op := Active(s).pending.op;
    match op {
      case Join(_) =>
        var b := WithActive(s, Active(s).(state := Blocked, pending := Waiting(op)));
        if Yields(b, s') { YieldKept(b, s'); }
      case Lock(m) => LockPids(s, m, Active(s).pending.Waiting?, s');
      case Unlock(m) => UnlockPids(s, m, op, s');
      case Wait(_, m) => if Active(s).pending.Ready? { UnlockPids(s, m, op, s'); }
      case NotifyOne(c) => NotifyPids(s.threads, s.active, OnCond(c), s'.threads[s.active := Active(s)]);
      case Finish => YieldKept(Leaving(s), s');
      case Shutdown =>
        ShutdownEnds(s.threads, Active(s).pid, crashAt);
        EndedPids(s.threads, Active(s).pid, ShutDown(s.threads, Active(s).pid, crashAt));
        YieldKept(s.(threads := ShutDown(s.threads, Active(s).pid, crashAt)), s');
      case _ =>
    }
  }

  // ----- over runs -----

  function LockCount(ss: seq<Sys>, sts: seq<Step>, m: MutexId, t: Tid, i: nat, j: nat): nat
    requires i <= j <= |sts| && j < |ss|
  {
    if i == j then 0 else LockCount(ss, sts, m, t, i, j - 1) + if LocksOnce(ss[j - 1], sts[j - 1], m, t) then 1 else 0
  }

  function UnlockCount(ss: seq<Sys>, sts: seq<Step>, m: MutexId, t: Tid, i: nat, j: nat): nat
    requires i <= j <= |sts| && j < |ss|
  {
    if i == j then 0
    else UnlockCount(ss, sts, m, t, i, j - 1) + if UnlocksOnce(ss[j - 1], sts[j - 1], m, t) then 1 else 0
  }

  /** Over any stretch of a run in which `t` has not crashed, it holds the recursive mutex `m` as many
      times more as it locked it more often than it unlocked it. So one that it did not hold
      before and locked `n` times is given up by the `n`-th unlock and not before. */
  lemma {:induction false} LevelsCount(ss: seq<Sys>, sts: seq<Step>, i: nat, j: nat, m: MutexId, t: Tid)
    requires IsRun(ss, sts) && i <= j < |ss| && IsRecursive(ss[i], m) && t < |ss[i].threads|
    requires forall k :: i <= k < j && t < |ss[k].threads| ==> ss[k].threads[t].state != Crashed
    ensures |ss| == |sts| + 1 && IsRecursive(ss[j], m) && t < |ss[j].threads|
    ensures Level(ss[j], m, t) + UnlockCount(ss, sts, m, t, i, j) == Level(ss[i], m, t) + LockCount(ss, sts, m, t, i, j)
    ensures !OwnerIs(ss[i], m, t) ==>
      (OwnerIs(ss[j], m, t) <==> LockCount(ss, sts, m, t, i, j) > UnlockCount(ss, sts, m, t, i, j))
  {
    hide IsRun, SysOk, Next, LocksOnce, UnlocksOnce;
    SchedulerTheorems.RunState(ss, sts, i);
    if i < j {
      LevelsCount(ss, sts, i, j - 1, m, t);
      RunStep(ss, sts, j - 1);
      ThreadsStep(ss[j - 1], sts[j - 1], ss[j]);
      LevelStep(ss[j - 1], sts[j - 1], ss[j], m, t);
    }
  }
}
