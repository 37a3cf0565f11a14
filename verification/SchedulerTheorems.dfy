/** What the scheduler guarantees over whole runs. */
module SchedulerTheorems {
  import opened Actions
  import opened ReadAssembly
  import opened SchedulerState
  import opened SchedulerSafety

  // ----- no lost wake-up -----

  /** A thread blocked on a mutex faces an owner other than itself that has not crashed; one
      blocked on a join waits for a thread of its own process that is not done. */
  lemma NoLostWakeUp(ss: seq<Sys>, sts: seq<Step>, i: nat, t: Tid)
    requires IsRun(ss, sts) && i < |ss| && t < |ss[i].threads| && ss[i].threads[t].state == Blocked
    ensures match WaitingOn(ss[i].threads[t])
            case OnMutex(m) =>
              && m in ss[i].mutexes && ss[i].mutexes[m].owner.Some?
              && var o := ss[i].mutexes[m].owner.value;
                o != t && o < |ss[i].threads| && ss[i].threads[o].state != Crashed
            case OnThread(u) =>
              && u < |ss[i].threads| && ss[i].threads[u].pid == ss[i].threads[t].pid && !Done(ss[i].threads[u])
            case OnCond(_) => true
            case Nothing => false
  {
    RunKeeps(ss, sts, i);
    assert WaitOk(ss[i], t);
  }

  /** DEADLOCK is reported only when nobody can run and somebody is blocked; as long as it is
      not and the execution is not over, the active thread can run. */
  lemma DeadlockIsReal(ss: seq<Sys>, sts: seq<Step>, i: nat)
    requires IsRun(ss, sts) && i < |ss| && ss[i].outcome != SelfDeadlock
    ensures ss[i].outcome == Deadlock
       <==> (forall t: Tid :: !IsRunning(ss[i].threads, t)) && exists t ::
           0 <= t < |ss[i].threads| && ss[i].threads[t].state == Blocked
    ensures ss[i].outcome == Over <==> forall t :: 0 <= t < |ss[i].threads| ==> Done(ss[i].threads[t])
    ensures ss[i].outcome == Going <==> IsRunning(ss[i].threads, ss[i].active)
  {
    RunKeeps(ss, sts, i);
    var s := ss[i];
    match s.outcome {
      case Going =>
        assert IsRunning(s.threads, s.active);
      case Deadlock =>
      case Over =>
        assert Done(s.threads[s.active]);
    }
  }

  /** A join returns only after its thread is completed. */
  lemma JoinReturns(ss: seq<Sys>, sts: seq<Step>, i: nat, u: Tid)
    requires IsRun(ss, sts) && i < |sts| && sts[i].Execute? && ss[i].active < |ss[i].threads|
    requires Active(ss[i]).pending == Waiting(Join(u)) || Active(ss[i]).pending == Ready(Join(u))
    requires ss[i].active < |ss[i + 1].threads| && ss[i + 1].threads[ss[i].active].pending == Idle
    ensures u < |ss[i].threads| && ss[i].threads[u].state == Completed
  {
    RunKeeps(ss, sts, i);
    assert WaitOk(ss[i], ss[i].active);
    assert Next(ss[i], sts[i], ss[i + 1]);
  }

  // ----- ownership -----

  /** The active thread gives `m` up: by its own unlock or wait, at the last level. */
  predicate Releases(s: Sys, st: Step, m: MutexId) {
    && st.Execute? && s.active < |s.threads| && OwnerIs(s, m, s.active)
    && Active(s).pending.Ready? && !(s.mutexes[m].kind == Recursive && s.mutexes[m].count > 0)
    && (Active(s).pending.op == Unlock(m) || (Active(s).pending.op.Wait? && Active(s).pending.op.mutex == m))
  }

  /** The active thread takes `m`, which nobody holds or whose owner has crashed. */
  predicate Takes(s: Sys, st: Step, m: MutexId) {
    && st.Execute? && s.active < |s.threads| && Free(s, m)
    && Active(s).pending != Idle && (Active(s).pending.op == Lock(m) || Active(s).pending.op == TryLock(m))
  }

  lemma YieldKeepsMutexes(s: Sys, s': Sys)
    ensures Yields(s, s') ==> s'.mutexes == s.mutexes
    ensures LastYields(s, s') ==> s'.mutexes == s.mutexes
  {
  }

  /** A mutex changes hands exactly when the active thread releases or takes it. */
  lemma OwnershipStep(s: Sys, st: Step, s': Sys, m: MutexId)
    requires SysOk(s) && Next(s, st, s') && m in s.mutexes
    ensures m in s'.mutexes
    ensures s'.mutexes[m].owner
         == if Releases(s, st, m) then None
            else if Takes(s, st, m) then Some(s.active)
            else s.mutexes[m].owner
  {
    assert WaitOk(s, s.active) && OwnedOk(s, s.active);
    hide OwnedOk, Together, OwnersOk, CrashUpTo, WakesOne, ShutDown, Yields, LastYields;
    match st {
      case Begin(op) =>
        YieldKeepsMutexes(WithActive(s, Active(s).(pending := Ready(op))), s');
      case Execute(crashAt) =>
        OwnershipExecute(s, crashAt, s', m);
      case Crash =>
        YieldKeepsMutexes(s.(threads := CrashUpTo(s.threads, Active(s).pid, |s.threads|)), s');
      case _ =>
    }
  }

  lemma OwnershipLost(s: Sys, st: Step, s': Sys, m: MutexId, t: Tid)
    requires SysOk(s) && Next(s, st, s') && OwnerIs(s, m, t) && !OwnerIs(s', m, t)
    ensures (s.active == t && Releases(s, st, m))
         || (t < |s.threads| && s.threads[t].state == Crashed && Takes(s, st, m))
  {
    hide Next, WaitOk;
    OwnershipStep(s, st, s', m);
  }

  lemma OwnershipExecute(s: Sys, crashAt: nat, s': Sys, m: MutexId)
    requires SysOk(s) && Next(s, Execute(crashAt), s') && m in s.mutexes
    ensures m in s'.mutexes
    ensures s'.mutexes[m].owner
         == if Releases(s, Execute(crashAt), m) then None
            else if Takes(s, Execute(crashAt), m) then Some(s.active)
            else s.mutexes[m].owner
  {
    assert WaitOk(s, s.active);
    hide OwnedOk, Together, OwnersOk, CrashUpTo, WakesOne, ShutDown, LastYields, NextRunning, OthersIdle, Unlocks;
    var op := Active(s).pending.op;
    var blocked := WithActive(s, Active(s).(state := Blocked, pending := Waiting(op)));
    YieldKeepsMutexes(blocked, s');
    match op {
      case Unlock(m1) => OwnershipUnlock(s, m1, op, s');
      case Wait(_, m1) => if Active(s).pending.Ready? { OwnershipUnlock(s, m1, op, s'); }
      case Finish => YieldKeepsMutexes(Leaving(s), s');
      case Shutdown => YieldKeepsMutexes(s.(threads := ShutDown(s.threads, Active(s).pid, crashAt)), s');
      case _ =>
    }
  }

  lemma OwnershipUnlock(s: Sys, m: MutexId, op: Op, s': Sys)
    requires s.active < |s.threads| && m in s.mutexes
    requires Unlocks(s, m, op, s')
    ensures s'.mutexes
         == if OwnerIs(s, m, s.active) && !(s.mutexes[m].kind == Recursive && s.mutexes[m].count > 0)
            then s.mutexes[m := s.mutexes[m].(owner := None, count := 0)]
            else if OwnerIs(s, m, s.active) then s.mutexes[m := s.mutexes[m].(count := s.mutexes[m].count - 1)]
            else s.mutexes
  {
    var r := Released(s, m);
    if r.active < |r.threads| {
      YieldKeepsMutexes(WithActive(r, Active(r).(state := Blocked, pending := Waiting(op))), s');
    }
  }

  /** Over any stretch of a run, a mutex leaves its owner only by the owner's own unlock or
      wait, or because the owner has crashed. */
  lemma {:induction false} OwnershipLeaves(ss: seq<Sys>, sts: seq<Step>, i: nat, j: nat, m: MutexId, t: Tid)
      returns (k: nat)
    requires IsRun(ss, sts) && i <= j < |ss|
    requires OwnerIs(ss[i], m, t) && !OwnerIs(ss[j], m, t)
    ensures i <= k < j && OwnerIs(ss[k], m, t)
    ensures (ss[k].active == t && Releases(ss[k], sts[k], m))
         || (t < |ss[k].threads| && ss[k].threads[t].state == Crashed && Takes(ss[k], sts[k], m))
  {
    hide Next, SysOk, Releases, Takes;
    RunKeeps(ss, sts, j - 1);
    if OwnerIs(ss[j - 1], m, t) {
      k := j - 1;
      OwnershipLost(ss[k], sts[k], ss[j], m, t);
    } else {
      k := OwnershipLeaves(ss, sts, i, j - 1, m, t);
    }
  }

  /** The owned set of a thread that has not crashed is exactly the mutexes naming it, so both
      assertions of `set_owner` hold whenever a step changes an owner. */
  lemma SetOwnerAsserts(ss: seq<Sys>, sts: seq<Step>, i: nat, m: MutexId)
    requires IsRun(ss, sts) && i < |sts| && m in ss[i].mutexes
    ensures forall t, n :: 0 <= t < |ss[i].threads| && ss[i].threads[t].state != Crashed ==>
              (n in ss[i].threads[t].owned <==> OwnerIs(ss[i], n, t))
    ensures Releases(ss[i], sts[i], m) ==> m in Active(ss[i]).owned
    ensures Takes(ss[i], sts[i], m) ==> m !in Active(ss[i]).owned
  {
    RunKeeps(ss, sts, i);
    assert Next(ss[i], sts[i], ss[i + 1]);
    forall t, n | 0 <= t < |ss[i].threads| && ss[i].threads[t].state != Crashed
      ensures n in ss[i].threads[t].owned <==> OwnerIs(ss[i], n, t)
    {
      assert OwnedOk(ss[i], t);
    }
    assert OwnedOk(ss[i], ss[i].active);
  }

  // ----- bounded waiting -----

  /** The steps that let the scheduler choose. */
  predicate Switches(s: Sys, st: Step, s': Sys) {
    st.Begin? || st.Crash? || (st.Execute? && s.active < |s.threads| && Active(s).pending != Idle
      && (Active(s).pending.op.Finish? || Active(s).pending.op.Shutdown?
          || (s.active < |s'.threads| && s'.threads[s.active].state == Blocked)))
  }

  lemma YieldCloser(s: Sys, s': Sys, t: Tid)
    requires s.outcome == Going && s.active < |s.threads| && IsRunning(s.threads, t) && t != s.active
    requires Yields(s, s') || LastYields(s, s')
    ensures s'.outcome == Going && s'.threads == s.threads
    ensures Distance(s'.active, t, |s.threads|) < Distance(s.active, t, |s.threads|)
  {
  }

  /** A step that switches brings every other running thread closer to its turn; the others
      leave the turn where it is. */
  lemma StepCloser(s: Sys, st: Step, s': Sys, t: Tid)
    requires SysOk(s) && Next(s, st, s')
    requires IsRunning(s.threads, t) && IsRunning(s'.threads, t) && t != s.active && |s'.threads| == |s.threads|
    ensures s'.active < |s.threads|
    ensures if Switches(s, st, s') then Distance(s'.active, t, |s.threads|) < Distance(s.active, t, |s.threads|)
            else s'.active == s.active
  {
    hide OwnedOk, WaitOk, Together, OwnersOk, CrashUpTo, WakesOne, ShutDown, Yields, LastYields;
    match st {
      case NewMutex(_, _) =>
      case Begin(op) => Chosen(WithActive(s, Active(s).(pending := Ready(op))), s', t);
      case Execute(crashAt) => ExecuteCloser(s, crashAt, s', t);
      case Crash => Chosen(s.(threads := CrashUpTo(s.threads, Active(s).pid, |s.threads|)), s', t);
    }
  }

  lemma Chosen(s: Sys, s': Sys, t: Tid)
    requires s.outcome == Going && s.active < |s.threads| && IsRunning(s'.threads, t) && t != s.active
    requires Yields(s, s') || LastYields(s, s')
    ensures s'.threads == s.threads && s'.active < |s.threads|
    ensures Distance(s'.active, t, |s.threads|) < Distance(s.active, t, |s.threads|)
  {
    YieldCloser(s, s', t);
  }

  lemma BlockCloser(s: Sys, op: Op, s': Sys, t: Tid)
    requires s.outcome == Going && s.active < |s.threads| && IsRunning(s'.threads, t) && t != s.active
    requires Blocks(s, op, s')
    ensures |s'.threads| == |s.threads| && s'.threads[s.active].state == Blocked && s'.active < |s.threads|
    ensures Distance(s'.active, t, |s.threads|) < Distance(s.active, t, |s.threads|)
  {
    Chosen(WithActive(s, Active(s).(state := Blocked, pending := Waiting(op))), s', t);
  }

  lemma ExecuteCloser(s: Sys, crashAt: nat, s': Sys, t: Tid)
    requires SysOk(s) && Next(s, Execute(crashAt), s')
    requires IsRunning(s'.threads, t) && t != s.active && |s'.threads| == |s.threads|
    ensures s'.active < |s.threads|
    ensures if Switches(s, Execute(crashAt), s') then Distance(s'.active, t, |s.threads|) < Distance(s.active, t,
            |s.threads|)
            else s'.active == s.active
  {
    hide OwnedOk, WaitOk, Together, OwnersOk, CrashUpTo, WakesOne, ShutDown, Yields, LastYields, Blocks, Distance;
    var op := Active(s).pending.op;
    match op {
      case Join(_) => if Blocks(s, op, s') { BlockCloser(s, op, s', t); }
      case Lock(_) => if Blocks(s, op, s') { BlockCloser(s, op, s', t); }
      case Unlock(m) => UnlockCloser(s, m, op, s', t);
      case Wait(_, m) => if Active(s).pending.Ready? { UnlockCloser(s, m, op, s', t); }
      case Finish => Chosen(Leaving(s), s', t);
      case Shutdown => Chosen(s.(threads := ShutDown(s.threads, Active(s).pid, crashAt)), s', t);
      case _ =>
    }
  }

  lemma UnlockCloser(s: Sys, m: MutexId, op: Op, s': Sys, t: Tid)
    requires SysOk(s) && s.outcome == Going && m in s.mutexes && Unlocks(s, m, op, s')
    requires IsRunning(s'.threads, t) && t != s.active
    ensures |s'.threads| == |s.threads| && s'.active < |s.threads|
    ensures if s'.threads[s.active].state == Blocked then Distance(s'.active, t, |s.threads|) < Distance(s.active, t,
            |s.threads|)
            else s'.active == s.active
  {
    hide OwnedOk, WaitOk, Together, OwnersOk, Yields, Blocks, Distance;
    if OwnerIs(s, m, s.active) && !(s.mutexes[m].kind == Recursive && s.mutexes[m].count > 0) && op.Wait? {
      BlockCloser(Released(s, m), op, s', t);
    }
  }

  function SwitchCount(ss: seq<Sys>, sts: seq<Step>, i: nat, j: nat): nat
    requires i <= j < |ss| && j <= |sts|
  {
    if i == j then 0 else SwitchCount(ss, sts, i, j - 1) + if Switches(ss[j - 1], sts[j - 1], ss[j]) then 1 else 0
  }

  /** The number of threads stays `n`, and thread `t` can run all along. */
  predicate StaysRunning(ss: seq<Sys>, i: nat, j: nat, t: Tid, n: nat) {
    i <= j < |ss| && forall k :: i <= k <= j ==> |ss[k].threads| == n && IsRunning(ss[k].threads, t)
  }

  lemma {:induction false} Approaches(ss: seq<Sys>, sts: seq<Step>, i: nat, j: nat, t: Tid, n: nat)
    requires IsRun(ss, sts) && StaysRunning(ss, i, j, t, n)
    requires forall k :: i <= k <= j ==> ss[k].active != t
    ensures ss[i].active < n && ss[j].active < n
    ensures Distance(ss[j].active, t, n) + SwitchCount(ss, sts, i, j) <= Distance(ss[i].active, t, n)
    ensures SwitchCount(ss, sts, i, j) < n - 1
  {
    hide IsRun, SysOk, Next, Switches, Distance;
    RunState(ss, sts, i);
    RunState(ss, sts, j);
    if i < j {
      RunStep(ss, sts, j - 1);
      Approaches(ss, sts, i, j - 1, t, n);
      StepCloser(ss[j - 1], sts[j - 1], ss[j], t);
    }
    NotYet(ss[i].active, t, n);
    NotYet(ss[j].active, t, n);
  }

  lemma NotYet(a: Tid, t: Tid, n: nat)
    requires a < n && t < n && a != t
    ensures 0 < Distance(a, t, n) < n
  {
  }

  lemma RunState(ss: seq<Sys>, sts: seq<Step>, i: nat)
    requires IsRun(ss, sts) && i < |ss|
    ensures |ss| == |sts| + 1 && ss[i].active < |ss[i].threads|
  {
    RunKeeps(ss, sts, i);
  }

  lemma RunStep(ss: seq<Sys>, sts: seq<Step>, i: nat)
    requires IsRun(ss, sts) && i < |sts|
    ensures SysOk(ss[i]) && Next(ss[i], sts[i], ss[i + 1])
  {
    RunKeeps(ss, sts, i);
  }

  /** Bounded waiting: a thread that can run all along is active after at most `n - 1`
      switches. */
  lemma BoundedWaiting(ss: seq<Sys>, sts: seq<Step>, i: nat, j: nat, t: Tid, n: nat) returns (k: nat)
    requires IsRun(ss, sts) && StaysRunning(ss, i, j, t, n) && SwitchCount(ss, sts, i, j) >= n - 1
    ensures i <= k <= j && ss[k].active == t
  {
    if forall k :: i <= k <= j ==> ss[k].active != t {
      Approaches(ss, sts, i, j, t, n);
      assert false;
    } else {
      k :| i <= k <= j && ss[k].active == t;
    }
  }
}
