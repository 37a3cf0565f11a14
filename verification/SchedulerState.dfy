/**
 The cooperative scheduler and the operations on mutexes, threads and condition
 variables. Exactly one thread is active. An operation of the active thread announces
 itself, yields, and is carried out when the thread is active again; a thread that has
 to wait is blocked and yields.
 */
module SchedulerState {
  import opened Actions
  import opened ReadAssembly

  type MutexId = nat
  type CondId = nat

  datatype RunState = Running | Blocked | Completed | Crashed

  datatype Op =
    | Plain
    | Create
    | Join(thread: Tid)
    | TryLock(mutex: MutexId)
    | Lock(mutex: MutexId)
    | Unlock(mutex: MutexId)
    | Wait(cond: CondId, mutex: MutexId)
    | NotifyOne(cond: CondId)
    | NotifyAll(cond: CondId)
    | Finish
    | Shutdown

  /** `Ready`: announced, to be carried out. `Waiting`: in the middle of it, in a wait. */
  datatype Pending = Idle | Ready(op: Op) | Waiting(op: Op)

  datatype Thread = Thread(pid: Pid, state: RunState, pending: Pending, owned: set<MutexId>)

  datatype MutexKind = Normal | Recursive | ErrorCheck

  datatype Mutex = Mutex(kind: MutexKind, owner: Option<Tid>, count: nat)

  /** `Deadlock`: the scheduler found nobody to run. `SelfDeadlock`: a thread locked a
      normal mutex it owned. `Over`: every thread is done. */
  datatype Outcome = Going | Deadlock | SelfDeadlock | Over

  datatype Sys = Sys(threads: seq<Thread>, mutexes: map<MutexId, Mutex>, active: Tid, outcome: Outcome)

  predicate Done(t: Thread) {
    t.state == Completed || t.state == Crashed
  }

  // ----- waking -----

  datatype Target = Nothing | OnThread(t: Tid) | OnMutex(m: MutexId) | OnCond(c: CondId)

  function WaitingOn(t: Thread): Target {
    if t.pending == Idle || t.state != Blocked then Nothing
    else match t.pending.op
      case Join(u) => OnThread(u)
      case Lock(m) => OnMutex(m)
      case Wait(c, _) => OnCond(c)
      case _ => Nothing
  }

  function Wake(t: Thread, vs: set<Target>): Thread {
    if WaitingOn(t) in vs then t.(state := Running) else t
  }

  function WokenAll(ts: seq<Thread>, vs: set<Target>): (r: seq<Thread>)
    ensures |r| == |ts|
  {
    seq(|ts|, i requires 0 <= i < |ts| => Wake(ts[i], vs))
  }

  // ----- whose turn it is -----

  /** How many places `t` comes after `a` among `n` threads in a circle. */
  function Distance(a: Tid, t: Tid, n: nat): nat
    requires a < n && t < n
  {
    if a <= t then t - a else t + n - a
  }

  predicate IsRunning(ts: seq<Thread>, t: Tid) {
    t < |ts| && ts[t].state == Running
  }

  /** `b` is the first running thread after `a`, and not `a` itself. */
  ghost predicate NextRunning(ts: seq<Thread>, a: Tid, b: Tid) {
    && a < |ts| && b != a && IsRunning(ts, b)
    && forall c: Tid :: IsRunning(ts, c) && c != a ==> Distance(a, b, |ts|) <= Distance(a, c, |ts|)
  }

  ghost predicate OthersIdle(ts: seq<Thread>, a: Tid) {
    forall c: Tid :: IsRunning(ts, c) ==> c == a
  }

  /** The active thread lets the others go first. */
  ghost predicate Yields(s: Sys, s': Sys) {
    if OthersIdle(s.threads, s.active) then
      s' == if IsRunning(s.threads, s.active) then s else s.(outcome := Deadlock)
    else
      s' == s.(active := s'.active) && NextRunning(s.threads, s.active, s'.active)
  }

  ghost predicate OtherBlocked(ts: seq<Thread>, a: Tid) {
    exists c: Tid :: c < |ts| && c != a && ts[c].state == Blocked
  }

  /** The active thread is done and hands over for the last time. */
  ghost predicate LastYields(s: Sys, s': Sys) {
    if OthersIdle(s.threads, s.active) then
      s' == s.(outcome := if OtherBlocked(s.threads, s.active) then Deadlock else Over)
    else
      s' == s.(active := s'.active) && NextRunning(s.threads, s.active, s'.active)
  }

  // ----- ownership -----

  predicate Orphaned(s: Sys, m: MutexId) {
    m in s.mutexes && s.mutexes[m].owner.Some?
    && s.mutexes[m].owner.value < |s.threads| && s.threads[s.mutexes[m].owner.value].state == Crashed
  }

  /** Nobody who could still release it holds `m`. */
  predicate Free(s: Sys, m: MutexId) {
    m in s.mutexes && (s.mutexes[m].owner == None || Orphaned(s, m))
  }

  function SetOwned(ts: seq<Thread>, t: Tid, owned: set<MutexId>): seq<Thread> {
    if t < |ts| then ts[t := ts[t].(owned := owned)] else ts
  }

  /** The owner of `m` becomes `o`. A crashed owner's set is left as it is. */
  function SetOwner(s: Sys, m: MutexId, o: Option<Tid>): Sys
    requires m in s.mutexes
  {
    var before := s.mutexes[m].owner;
    var dropped :=
      if before.Some? && before.value < |s.threads| && s.threads[before.value].state != Crashed
      then SetOwned(s.threads, before.value, s.threads[before.value].owned - {m}) else s.threads;
    var taken :=
      if o.Some? && o.value < |dropped| then SetOwned(dropped, o.value, dropped[o.value].owned + {m}) else dropped;
    s.(threads := taken, mutexes := s.mutexes[m := s.mutexes[m].(owner := o, count := 0)])
  }

  function SetCount(s: Sys, m: MutexId, count: nat): Sys
    requires m in s.mutexes
  {
    s.(mutexes := s.mutexes[m := s.mutexes[m].(count := count)])
  }

  // ----- the end of a process -----

  function OnMutexes(owned: set<MutexId>): set<Target> {
    set m | m in owned :: OnMutex(m)
  }

  /** The threads of process `p` below `n` crash one after the other, and whoever waits for
      one of their mutexes is woken. */
  function CrashUpTo(ts: seq<Thread>, p: Pid, n: nat): (r: seq<Thread>)
    requires n <= |ts|
    ensures |r| == |ts|
  {
    if n == 0 then ts
    else
      var r := CrashUpTo(ts, p, n - 1);
      if r[n - 1].pid == p && !Done(r[n - 1])
      then WokenAll(r[n - 1 := r[n - 1].(state := Crashed)], OnMutexes(r[n - 1].owned))
      else r
  }

  /** The threads of process `p` below `n` are completed. */
  function CompleteUpTo(ts: seq<Thread>, p: Pid, n: nat): (r: seq<Thread>)
    requires n <= |ts|
    ensures |r| == |ts|
  {
    seq(|ts|, i requires 0 <= i < |ts| =>
      if i < n && ts[i].pid == p && !Done(ts[i]) then ts[i].(state := Completed) else ts[i])
  }

  /** The threads of `p` after its shutdown, which is cut short by a crash while the buffers
      of thread `crashAt` are drained, if that is one of them. */
  function ShutDown(ts: seq<Thread>, p: Pid, crashAt: nat): (r: seq<Thread>)
    ensures |r| == |ts|
  {
    if crashAt < |ts| && ts[crashAt].pid == p
    then CrashUpTo(CompleteUpTo(ts, p, crashAt + 1), p, |ts|)
    else CompleteUpTo(ts, p, |ts|)
  }

  // ----- steps -----

  datatype Step =
    | NewMutex(m: MutexId, kind: MutexKind)
    | Begin(op: Op)
    | Execute(crashAt: nat)
    | Crash

  function Active(s: Sys): Thread
    requires s.active < |s.threads|
  {
    s.threads[s.active]
  }

  function WithActive(s: Sys, t: Thread): Sys
    requires s.active < |s.threads|
  {
    s.(threads := s.threads[s.active := t])
  }

  function Finished(s: Sys): Sys
    requires s.active < |s.threads|
  {
    WithActive(s, Active(s).(pending := Idle))
  }

  /** What the source asserts of its callers: joins stay within a process, mutexes exist. */
  predicate Legal(s: Sys, op: Op)
    requires s.active < |s.threads|
  {
    match op
    case Join(u) => u < |s.threads| && s.threads[u].pid == Active(s).pid
    case TryLock(m) => m in s.mutexes
    case Lock(m) => m in s.mutexes
    case Unlock(m) => m in s.mutexes
    case Wait(_, m) => m in s.mutexes
    case _ => true
  }

  /** The active thread blocks in `op` and yields. */
  ghost predicate Blocks(s: Sys, op: Op, s': Sys)
    requires s.active < |s.threads|
  {
    Yields(WithActive(s, Active(s).(state := Blocked, pending := Waiting(op))), s')
  }

  ghost predicate Locks(s: Sys, m: MutexId, waited: bool, s': Sys)
    requires s.active < |s.threads| && m in s.mutexes
  {
    var mutex := s.mutexes[m];
    if !waited && mutex.owner == Some(s.active) then
      match mutex.kind
      case Recursive => s' == Finished(SetCount(s, m, mutex.count + 1))
      case ErrorCheck => s' == Finished(s)
      case Normal => s' == s.(outcome := SelfDeadlock)
    else if Free(s, m) then s' == Finished(SetOwner(s, m, Some(s.active)))
    else Blocks(s, Lock(m), s')
  }

  /** Releasing `m`; a wait then blocks. */
  ghost predicate Unlocks(s: Sys, m: MutexId, op: Op, s': Sys)
    requires s.active < |s.threads| && m in s.mutexes
  {
    var mutex := s.mutexes[m];
    if mutex.owner != Some(s.active) then s' == Finished(s)
    else if mutex.kind == Recursive && mutex.count > 0 then s' == Finished(SetCount(s, m, mutex.count - 1))
    else
      var released := SetOwner(s, m, None);
      var woken := released.(threads := WokenAll(released.threads, {OnMutex(m)}));
      if op.Wait? then Blocks(woken, op, s') else s' == Finished(woken)
  }

  predicate IsWaiting(ts: seq<Thread>, a: Tid, v: Target, b: Tid) {
    b < |ts| && b != a && WaitingOn(ts[b]) == v
  }

  /** `b` is the first thread after `a` that waits for `v`. */
  ghost predicate NextWaiting(ts: seq<Thread>, a: Tid, v: Target, b: Tid) {
    && a < |ts| && IsWaiting(ts, a, v, b)
    && forall c: Tid :: IsWaiting(ts, a, v, c) ==> Distance(a, b, |ts|) <= Distance(a, c, |ts|)
  }

  /** The first waiter after the active thread is woken, if there is one. */
  ghost predicate WakesOne(ts: seq<Thread>, a: Tid, v: Target, ts': seq<Thread>) {
    if forall c: Tid :: !IsWaiting(ts, a, v, c) then ts' == ts
    else exists b: Tid :: NextWaiting(ts, a, v, b) && ts' == ts[b := ts[b].(state := Running)]
  }

  ghost predicate Executes(s: Sys, crashAt: nat, s': Sys)
    requires s.active < |s.threads| && Active(s).pending != Idle && Legal(s, Active(s).pending.op)
  {
    var op, waited := Active(s).pending.op, Active(s).pending.Waiting?;
    match op
    case Plain => s' == Finished(s)
    case Create => s' == Finished(s).(threads := Finished(s).threads + [Thread(Active(s).pid, Running, Idle, {})])
    case Join(u) => if !waited && s.threads[u].state != Completed then Blocks(s, op, s') else s' == Finished(s)
    case TryLock(m) => s' == Finished(if Free(s, m) then SetOwner(s, m, Some(s.active)) else s)
    case Lock(m) => Locks(s, m, waited, s')
    case Unlock(m) => Unlocks(s, m, op, s')
    case Wait(_, m) => if waited then s' == Finished(s) else Unlocks(s, m, op, s')
    case NotifyOne(c) =>
      && |s'.threads| == |s.threads|
      && var ts := s'.threads[s.active := Active(s)];
         WakesOne(s.threads, s.active, OnCond(c), ts) && s' == Finished(s.(threads := ts))
    case NotifyAll(c) => s' == Finished(s.(threads := WokenAll(s.threads, {OnCond(c)})))
    case Finish =>
      var woken := s.(threads := WokenAll(s.threads, {OnThread(s.active)}));
      LastYields(WithActive(woken, Active(woken).(state := Completed)), s')
    case Shutdown => LastYields(s.(threads := ShutDown(s.threads, Active(s).pid, crashAt)), s')
  }

  ghost predicate Next(s: Sys, st: Step, s': Sys) {
    && s.outcome == Going && s.active < |s.threads|
    && match st
       case NewMutex(m, kind) => m !in s.mutexes && s' == s.(mutexes := s.mutexes[m := Mutex(kind, None, 0)])
       case Begin(op) =>
         && Active(s).pending == Idle && Legal(s, op)
         && Yields(WithActive(s, Active(s).(pending := Ready(op))), s')
       case Execute(crashAt) =>
         && Active(s).pending != Idle && Legal(s, Active(s).pending.op)
         && Executes(s, crashAt, s')
       case Crash => LastYields(s.(threads := CrashUpTo(s.threads, Active(s).pid, |s.threads|)), s')
  }

  ghost predicate Init(s: Sys) {
    && s.threads != [] && s.active == 0 && s.outcome == Going && s.mutexes == map[]
    && forall t :: 0 <= t < |s.threads| ==> s.threads[t] == Thread(t, Running, Idle, {})
  }

  ghost predicate IsRun(ss: seq<Sys>, sts: seq<Step>) {
    && |ss| == |sts| + 1
    && Init(ss[0])
    && forall i :: 0 <= i < |sts| ==> Next(ss[i], sts[i], ss[i + 1])
  }
}
