/**
 The other side of the flush guarantee: nothing is taken to have persisted without a cause.
 The time of a flush is never later than what its own thread had stored or flushed on the line,
 the flush buffer keeps its order, and every `begin` is the time of a flush or of a store.
 */
module FlushTimes {
  import opened DecisionTree
  import opened Actions
  import opened ReadAssembly
  import opened Arithmetic
  import opened CrashLoads
  import opened LoadTheorems
  import opened MemoryState
  import opened Runs

  // ----- the effect of a delayed flush -----

  /** The thread stored to the line, or flushed it, at time `t`. */
  predicate TimedAt(e: Event, line: Address, t: Clock) {
    (e.Evicted? || e.FlushDone?) && Line(e.a.loc) == line && e.a.seqNum == t
  }

  /** The times of delayed flushes, and of the per-line map, come from earlier events. */
  ghost predicate EffectInv(th: Thread) {
    && th.b.lastSfence == 0
    && (forall k :: 0 <= k < |th.b.sb| ==> th.b.sb[k].seqNum == 0 && th.b.sb[k].effect == 0)
    && (forall line :: LastOn(th.b, line) == 0
          || exists i :: 0 <= i < |th.done| && TimedAt(th.done[i], line, LastOn(th.b, line)))
    && (forall j :: 0 <= j < |th.done| && th.done[j].Delayed? ==>
          th.done[j].a.effect == 0
          || exists i :: 0 <= i < j && TimedAt(th.done[i], Line(th.done[j].a.loc), th.done[j].a.effect))
  }

  /** The clflushopts among the events, in order. */
  function DelayedOf(done: seq<Event>): seq<Action> {
    if done == [] then []
    else
      var e := done[|done| - 1];
      DelayedOf(done[..|done| - 1]) + if e.Delayed? then [e.a] else []
  }

  /** The flush buffer holds the last of them. */
  ghost predicate OrderInv(th: Thread) {
    var all := DelayedOf(th.done);
    |th.b.fb| <= |all| && th.b.fb == all[|all| - |th.b.fb|..]
  }

  ghost predicate ThreadInv(th: Thread) {
    EffectInv(th) && OrderInv(th)
  }

  lemma SnocDelayed(done: seq<Event>, e: Event)
    ensures DelayedOf(done + [e]) == DelayedOf(done) + if e.Delayed? then [e.a] else []
  {
    assert (done + [e])[..|done|] == done;
  }

  lemma {:induction false} DelayedIn(done: seq<Event>, a: Action) returns (j: nat)
    requires a in DelayedOf(done)
    ensures j < |done| && done[j] == Delayed(a)
  {
    var e := done[|done| - 1];
    if e.Delayed? && e.a == a {
      j := |done| - 1;
    } else {
      j := DelayedIn(done[..|done| - 1], a);
    }
  }

  /** What is in the history stays there. */
  lemma EarlierStays(done: seq<Event>, e: Event, n: nat, line: Address, t: Clock)
    requires n <= |done|
    ensures (exists i :: 0 <= i < n && TimedAt(done[i], line, t)) ==>
            exists i :: 0 <= i < n && TimedAt((done + [e])[i], line, t)
  {
    if i :| 0 <= i < n && TimedAt(done[i], line, t) {
      assert (done + [e])[i] == done[i];
    }
  }

  /** An event that leaves the per-line map alone, and is no clflushopt. */
  lemma EventKeeps(th: Thread, th': Thread, e: Event)
    requires EffectInv(th) && th'.done == th.done + [e] && !e.Delayed?
    requires th'.b.lastSfence == 0 && th'.b.last == th.b.last
    requires forall k :: 0 <= k < |th'.b.sb| ==> th'.b.sb[k] in th.b.sb
    ensures EffectInv(th')
  {
    hide TimedAt, Line;
    forall line ensures LastOn(th'.b, line) == 0
      || exists i :: 0 <= i < |th'.done| && TimedAt(th'.done[i], line, LastOn(th'.b, line))
    {
      EarlierStays(th.done, e, |th.done|, line, LastOn(th.b, line));
    }
    DelayedKeeps(th.done, e);
  }

  lemma DelayedKeeps(done: seq<Event>, e: Event)
    requires forall j :: 0 <= j < |done| && done[j].Delayed? ==>
      done[j].a.effect == 0 || exists i :: 0 <= i < j && TimedAt(done[i], Line(done[j].a.loc), done[j].a.effect)
    requires e.Delayed? ==>
      e.a.effect == 0 || exists i :: 0 <= i < |done| && TimedAt(done[i], Line(e.a.loc), e.a.effect)
    ensures var done' := done + [e];
            forall j :: 0 <= j < |done'| && done'[j].Delayed? ==>
              done'[j].a.effect == 0
              || exists i :: 0 <= i < j && TimedAt(done'[i], Line(done'[j].a.loc), done'[j].a.effect)
  {
    hide TimedAt, Line;
    var done' := done + [e];
    forall j | 0 <= j < |done'| && done'[j].Delayed?
      ensures done'[j].a.effect == 0
        || exists i :: 0 <= i < j && TimedAt(done'[i], Line(done'[j].a.loc), done'[j].a.effect)
    {
      var a := done'[j].a;
      EarlierStays(done, e, j, Line(a.loc), a.effect);
    }
  }

  /** An eviction, or a clflush, with its time in the per-line map. */
  lemma TimedKeeps(th: Thread, th': Thread, e: Event)
    requires EffectInv(th) && th'.done == th.done + [e] && (e.Evicted? || e.FlushDone?)
    requires th'.b.lastSfence == 0 && th'.b.last == th.b.last[Line(e.a.loc) := e.a.seqNum]
    requires forall k :: 0 <= k < |th'.b.sb| ==> th'.b.sb[k] in th.b.sb
    ensures EffectInv(th')
  {
    forall line ensures LastOn(th'.b, line) == 0
      || exists i :: 0 <= i < |th'.done| && TimedAt(th'.done[i], line, LastOn(th'.b, line))
    {
      if line == Line(e.a.loc) {
        assert TimedAt(th'.done[|th.done|], line, LastOn(th'.b, line));
      } else {
        EarlierStays(th.done, e, |th.done|, line, LastOn(th.b, line));
      }
    }
    DelayedKeeps(th.done, e);
  }

  /** The effect of a clflushopt is the largest of its own, the last sfence and the thread's last
      store or flush of the line. */
  lemma EffectIsMax(b: Buffers, a: Action)
    ensures var t := OptEffect(b, a);
            && a.effect <= t && b.lastSfence <= t && LastOn(b, Line(a.loc)) <= t
            && (t == a.effect || t == b.lastSfence || t == LastOn(b, Line(a.loc)))
  {
  }

  lemma OptKeeps(th: Thread, th': Thread, a: Action)
    requires EffectInv(th) && th.b.sb != [] && a == th.b.sb[0] && th'.b.sb == th.b.sb[1..]
    requires th'.done == th.done + [Delayed(a.(effect := OptEffect(th.b, a)))]
    requires th'.b.lastSfence == th.b.lastSfence && th'.b.last == th.b.last
    ensures EffectInv(th')
  {
    hide TimedAt, Line, OptEffect, LastOn;
    var e := th'.done[|th.done|];
    EffectIsMax(th.b, a);
    assert e.a.effect == 0 || e.a.effect == LastOn(th.b, Line(a.loc));
    SameLast(th.b, th'.b);
    forall line ensures LastOn(th'.b, line) == 0
      || exists i :: 0 <= i < |th'.done| && TimedAt(th'.done[i], line, LastOn(th'.b, line))
    {
      EarlierStays(th.done, e, |th.done|, line, LastOn(th.b, line));
    }
    DelayedKeeps(th.done, e);
  }

  lemma SameLast(b: Buffers, b': Buffers)
    requires b'.last == b.last
    ensures forall line :: LastOn(b', line) == LastOn(b, line)
  {
  }

  // ----- one step of a thread -----

  lemma PopKeepsEffects(w: World, w': World, t: Tid)
    requires PopsStep(w, w', t) && t < |w.threads| && EffectInv(w.threads[t])
    ensures EffectInv(w'.threads[t])
  {
    hide EvictStore, HasLeaf, FlushTree, OptEffect, Line, EffectInv, LastOn;
    var th, th' := w.threads[t], w'.threads[t];
    var a, e := th.b.sb[0], EventOf(MachineOf(w, t));
    SfencesAtZero(th);
    if IsWrite(a.kind) {
      TimedKeeps(th, th', e);
    } else if a.kind == Clflush {
      if th'.b.last == th.b.last {
        EventKeeps(th, th', e);
      } else {
        TimedKeeps(th, th', e);
      }
    } else if a.kind == ClflushOpt {
      SameEffect(th.b, th.b.(sb := th.b.sb[1..]), a);
      OptKeeps(th, th', a);
    } else {
      EventKeeps(th, th', e);
    }
  }

  lemma SfencesAtZero(th: Thread)
    requires EffectInv(th)
    ensures th.b.lastSfence == 0 && forall k :: 0 <= k < |th.b.sb| ==> th.b.sb[k].seqNum == 0
  {
  }

  lemma SameEffect(b: Buffers, b': Buffers, a: Action)
    requires b'.last == b.last && b'.lastSfence == b.lastSfence
    ensures OptEffect(b', a) == OptEffect(b, a)
  {
  }

  lemma PopKeepsOrder(w: World, w': World, t: Tid)
    requires PopsStep(w, w', t) && t < |w.threads| && OrderInv(w.threads[t])
    ensures OrderInv(w'.threads[t])
  {
    hide EvictStore, HasLeaf, FlushTree, OptEffect, Line;
    var th, th' := w.threads[t], w'.threads[t];
    SnocDelayed(th.done, EventOf(MachineOf(w, t)));
    SameEffect(th.b, th.b.(sb := th.b.sb[1..]), th.b.sb[0]);
  }

  lemma OwnStep(w: World, st: Step, w': World, t: Tid)
    requires Runs.Next(w, st, w') && t < |w.threads| && ThreadInv(w.threads[t])
    requires !st.Complete? && !st.Spawn? && t == ThreadOf(st)
    ensures t < |w'.threads| && ThreadInv(w'.threads[t])
  {
    hide EffectInv, HasLeaf, FlushTree, Ends, EnsureInitial, OptEffect, Pops;
    var th, th' := w.threads[t], w'.threads[t];
    match st {
      case Issue(_, a, memory) =>
        IssueKeeps(th, th', a);
      case Pop(_) =>
        PopKeepsEffects(w, w', t);
        PopKeepsOrder(w, w', t);
      case FlushFront(_) =>
        FrontKeeps(th, th');
      case CutShort(_) =>
        SfencesAtZero(th);
        EventKeeps(th, th', SfenceCut(th.b.sb[0]));
        SnocDelayed(th.done, SfenceCut(th.b.sb[0]));
      case Fence(_) =>
        SfencesAtZero(th);
        EventKeeps(th, th', Drained);
        SnocDelayed(th.done, Drained);
      case _ =>
    }
  }

  lemma IssueKeeps(th: Thread, th': Thread, a: Action)
    requires ThreadInv(th) && a.seqNum == 0 && a.effect == 0
    requires th'.done == th.done && th'.b == th.b.(sb := th.b.sb + [a])
    ensures ThreadInv(th')
  {
    SameLast(th.b, th'.b);
  }

  lemma FrontKeeps(th: Thread, th': Thread)
    requires ThreadInv(th) && th.b.fb != [] && th'.done == th.done && th'.b == th.b.(fb := th.b.fb[1..])
    ensures ThreadInv(th')
  {
    SameLast(th.b, th'.b);
  }

  lemma OtherStep(w: World, st: Step, w': World, u: Tid)
    requires Runs.Next(w, st, w') && u < |w'.threads| && (st.Complete? || st.Spawn? || u != ThreadOf(st))
    ensures if u < |w.threads| then w'.threads[u] == w.threads[u]
            else w'.threads[u] == Thread(w'.threads[u].pid, Buffers([], [], 0, map[]), [], [])
  {
    hide Pops, FlushesOne, Ends, EnsureInitial, HasLeaf, EventOf;
  }

  lemma TimesStep(w: World, st: Step, w': World)
    requires Runs.Next(w, st, w') && forall t :: 0 <= t < |w.threads| ==> ThreadInv(w.threads[t])
    ensures forall t :: 0 <= t < |w'.threads| ==> ThreadInv(w'.threads[t])
  {
    hide Runs.Next, ThreadInv;
    forall u | 0 <= u < |w'.threads| ensures ThreadInv(w'.threads[u]) {
      if !st.Complete? && !st.Spawn? && u == ThreadOf(st) {
        ActorThere(w, st, w');
        OwnStep(w, st, w', u);
      } else {
        OtherStep(w, st, w', u);
        FreshThread(w'.threads[u].pid);
      }
    }
  }

  lemma ActorThere(w: World, st: Step, w': World)
    requires Runs.Next(w, st, w') && !st.Complete? && !st.Spawn?
    ensures ThreadOf(st) < |w.threads|
  {
  }

  lemma FreshThread(p: Pid)
    ensures ThreadInv(Thread(p, Buffers([], [], 0, map[]), [], []))
  {
  }

  /** In every run: the effect of a clflushopt that has left the store buffer is 0 or the time of an
      earlier store or clflush of its own thread on the line; and the flush buffer holds the last
      ones of those, in the order they left. */
  lemma {:induction false} TimesHold(ws: seq<World>, ss: seq<Step>, n: nat, t: Tid)
    requires IsRun(ws, ss) && n < |ws| && t < |ws[n].threads|
    ensures ThreadInv(ws[n].threads[t])
  {
    hide Runs.Next, ThreadInv;
    forall u | 0 <= u < |ws[0].threads| ensures ThreadInv(ws[0].threads[u]) {
      FreshThread(ws[0].threads[u].pid);
    }
    for i := 0 to n
      invariant forall u :: 0 <= u < |ws[i].threads| ==> ThreadInv(ws[i].threads[u])
    {
      TimesStep(ws[i], ss[i], ws[i + 1]);
    }
  }

  // ----- the exact effect -----

  /** The time of the last store to the line, or clflush of it, among the events; 0 if there is none. */
  function Latest(done: seq<Event>, line: Address): Clock {
    if done == [] then 0
    else
      var e := done[|done| - 1];
      if (e.Evicted? || e.FlushDone?) && Line(e.a.loc) == line then e.a.seqNum
      else Latest(done[..|done| - 1], line)
  }

  ghost predicate LastExact(th: Thread) {
    forall line :: LastOn(th.b, line) == Latest(th.done, line)
  }

  ghost predicate DelayedExact(done: seq<Event>) {
    forall j :: 0 <= j < |done| && done[j].Delayed? ==> done[j].a.effect == Latest(done[..j], Line(done[j].a.loc))
  }

  ghost predicate Exact(th: Thread) {
    LastExact(th) && DelayedExact(th.done)
  }

  lemma SnocLatest(done: seq<Event>, e: Event, line: Address)
    ensures Latest(done + [e], line)
         == if (e.Evicted? || e.FlushDone?) && Line(e.a.loc) == line then e.a.seqNum else Latest(done, line)
  {
    assert (done + [e])[..|done|] == done;
  }

  lemma SnocExact(done: seq<Event>, e: Event)
    requires DelayedExact(done) && (e.Delayed? ==> e.a.effect == Latest(done, Line(e.a.loc)))
    ensures DelayedExact(done + [e])
  {
    hide Latest, Line;
    var done' := done + [e];
    forall j | 0 <= j < |done'| && done'[j].Delayed?
      ensures done'[j].a.effect == Latest(done'[..j], Line(done'[j].a.loc))
    {
      assert done'[..j] == done[..j];
      if j == |done| {
        assert done[..j] == done;
      }
    }
  }

  /** An event of a thread, with its time in the per-line map if it has one. */
  lemma EventExact(th: Thread, th': Thread, e: Event)
    requires Exact(th) && th'.done == th.done + [e] && (e.Delayed? ==> e.a.effect == LastOn(th.b, Line(e.a.loc)))
    requires th'.b.last == if e.Evicted? || e.FlushDone? then th.b.last[Line(e.a.loc) := e.a.seqNum] else th.b.last
    ensures Exact(th')
  {
    hide Latest, Line;
    SnocExact(th.done, e);
    forall line ensures LastOn(th'.b, line) == Latest(th'.done, line) {
      SnocLatest(th.done, e, line);
    }
  }

  /** Whoever has crashed stays so. */
  ghost predicate CrashesStay(crashes: map<Pid, Clock>, crashes': map<Pid, Clock>) {
    forall p :: p in crashes ==> p in crashes'
  }

  lemma NoneBefore(crashes: map<Pid, Clock>, crashes': map<Pid, Clock>)
    requires CrashesStay(crashes, crashes') && crashes' == map[]
    ensures crashes == map[]
  {
    assert forall p :: p !in crashes;
  }

  lemma PopExact(w: World, w': World, t: Tid)
    requires PopsStep(w, w', t) && t < |w.threads| && EffectInv(w.threads[t]) && Exact(w.threads[t])
    requires w'.m.crashes == map[]
    ensures Exact(w'.threads[t])
  {
    hide EvictStore, HasLeaf, FlushTree, OptEffect, Line, EffectInv, Exact, LastOn;
    var th, th', e := w.threads[t], w'.threads[t], EventOf(MachineOf(w, t));
    var a := th.b.sb[0];
    if !IsWrite(a.kind) && a.kind == Clflush {
      FlushNarrows(w.m, a, w'.m);
      NoneBefore(w.m.crashes, w'.m.crashes);
    } else if a.kind == ClflushOpt {
      SameEffect(th.b, th.b.(sb := th.b.sb[1..]), a);
      EffectIsLast(th);
    }
    EventExact(th, th', e);
  }

  lemma EffectIsLast(th: Thread)
    requires EffectInv(th) && th.b.sb != []
    ensures OptEffect(th.b, th.b.sb[0]) == LastOn(th.b, Line(th.b.sb[0].loc))
  {
  }

  lemma SameExact(th: Thread, th': Thread)
    requires Exact(th) && th'.done == th.done && th'.b.last == th.b.last
    ensures Exact(th')
  {
    SameLast(th.b, th'.b);
  }

  lemma FreshExact(p: Pid)
    ensures Exact(Thread(p, Buffers([], [], 0, map[]), [], []))
  {
  }

  lemma ExactStep(w: World, st: Step, w': World, u: Tid)
    requires Runs.Next(w, st, w') && u < |w'.threads| && w'.m.crashes == map[]
    requires u < |w.threads| ==> EffectInv(w.threads[u]) && Exact(w.threads[u])
    ensures Exact(w'.threads[u])
  {
    hide Exact, EffectInv, HasLeaf, FlushTree, Ends, EnsureInitial, OptEffect, Pops;
    if st.Complete? || st.Spawn? || u != ThreadOf(st) {
      OtherStep(w, st, w', u);
      FreshExact(w'.threads[u].pid);
    } else {
      var th, th' := w.threads[u], w'.threads[u];
      match st {
        case Pop(_) => PopExact(w, w', u);
        case CutShort(_) => assert false;
        case Fence(_) => EventExact(th, th', Drained);
        case _ => SameExact(th, th');
      }
    }
  }

  lemma NextCrashesStay(x: Context, n: nat, s: LoadState, s1: LoadState)
    requires 0 < n <= |x.stores| && CrashLoads.Next(x, n, s, s1)
    ensures CrashesStay(s.crashes, s1.crashes)
  {
    hide Fill, Line, Skips;
  }

  lemma {:induction false} ReachCrashesStay(x: Context, n: nat, s: LoadState, s': LoadState)
    requires n <= |x.stores| && Reach(x, n, s, s')
    ensures CrashesStay(s.crashes, s'.crashes)
  {
    hide CrashLoads.Next;
    if n > 0 && !Full(s.rf) {
      var s1 := NextOf(x, n, s, s');
      NextCrashesStay(x, n, s, s1);
      ReachCrashesStay(x, n - 1, s1, s');
    }
  }

  lemma StepCrashesStay(w: World, st: Step, w': World)
    requires Runs.Next(w, st, w')
    ensures CrashesStay(w.m.crashes, w'.m.crashes)
  {
    hide HasLeaf, FlushTree, OptEffect, Line, Bypass;
    match st {
      case Pop(t) =>
        var a := w.threads[t].b.sb[0];
        if !IsWrite(a.kind) && a.kind == Clflush {
          FlushNarrows(w.m, a, w'.m);
        }
      case FlushFront(t) => FlushNarrows(w.m, w.threads[t].b.fb[0], w'.m);
      case LoadStep(t, read, memory, end) =>
        var x := ContextFor(LoadMem(w, read, memory), read);
        LeafReach(x, |x.stores|, LoadStart(w, t, read, memory), end);
        ReachCrashesStay(x, |x.stores|, LoadStart(w, t, read, memory), end);
      case _ =>
    }
  }

  /** As long as no process has crashed, the effect of a clflushopt that has left the store buffer is
      exactly the time of the last store or clflush of its own thread on the line before it. */
  lemma {:induction false} EffectExact(ws: seq<World>, ss: seq<Step>, n: nat)
    requires IsRun(ws, ss) && n < |ws| && ws[n].m.crashes == map[]
    ensures forall t :: 0 <= t < |ws[n].threads| ==> Exact(ws[n].threads[t])
  {
    hide Runs.Next, Exact, ThreadInv;
    if n == 0 {
      forall t | 0 <= t < |ws[0].threads| ensures Exact(ws[0].threads[t]) {
        FreshExact(ws[0].threads[t].pid);
      }
    } else {
      StepCrashesStay(ws[n - 1], ss[n - 1], ws[n]);
      NoneBefore(ws[n - 1].m.crashes, ws[n].m.crashes);
      EffectExact(ws, ss, n - 1);
      forall t | 0 <= t < |ws[n].threads| ensures Exact(ws[n].threads[t]) {
        if t < |ws[n - 1].threads| {
          TimesHold(ws, ss, n - 1, t);
          InvEffects(ws[n - 1].threads[t]);
        }
        ExactStep(ws[n - 1], ss[n - 1], ws[n], t);
      }
    }
  }

  lemma InvEffects(th: Thread)
    requires ThreadInv(th)
    ensures EffectInv(th)
  {
  }

  // ----- nothing is persisted without a cause -----

  /** A flush of the line that took effect, or was to take effect, at time `t`. */
  predicate FlushedAt(e: Event, line: Address, t: Clock) {
    || (e.FlushDone? && Line(e.a.loc) == line && e.a.seqNum == t)
    || (e.Delayed? && Line(e.a.loc) == line && e.a.effect == t)
  }

  ghost predicate FlushCause(w: World, line: Address, t: Clock) {
    exists u, i :: 0 <= u < |w.threads| && 0 <= i < |w.threads[u].done| && FlushedAt(w.threads[u].done[i], line, t)
  }

  /** Process `p` evicted store number `t` to a slot of the line. */
  ghost predicate StoreCause(m: Mem, p: Pid, line: Address, t: Clock) {
    exists slot, j ::
      && slot in m.lists && 0 <= j < |m.lists[slot]|
      && Line(slot) == line && m.lists[slot][j].pid == p && m.lists[slot][j].seqNum == t
  }

  ghost predicate Caused(w: World) {
    forall key ::
      var t := GetLine(w.m.cl, key).begin;
      t == 0 || FlushCause(w, key.line, t) || StoreCause(w.m, key.pid, key.line, t)
  }

  /** Histories and lists only grow. */
  ghost predicate Grows(w: World, w': World) {
    && |w.threads| <= |w'.threads|
    && (forall u :: 0 <= u < |w.threads| ==> w.threads[u].done <= w'.threads[u].done)
    && (forall slot :: slot in w.m.lists ==> slot in w'.m.lists && w.m.lists[slot] <= w'.m.lists[slot])
  }

  lemma CausesStay(w: World, w': World, key: Key, t: Clock)
    requires Grows(w, w')
    ensures FlushCause(w, key.line, t) ==> FlushCause(w', key.line, t)
    ensures StoreCause(w.m, key.pid, key.line, t) ==> StoreCause(w'.m, key.pid, key.line, t)
  {
    hide FlushedAt, Line;
    if FlushCause(w, key.line, t) {
      var u, i :| 0 <= u < |w.threads| && 0 <= i < |w.threads[u].done| && FlushedAt(w.threads[u].done[i], key.line, t);
      assert w'.threads[u].done[i] == w.threads[u].done[i];
    }
    if StoreCause(w.m, key.pid, key.line, t) {
      var slot, j :| slot in w.m.lists && 0 <= j < |w.m.lists[slot]|
        && Line(slot) == key.line && w.m.lists[slot][j].pid == key.pid && w.m.lists[slot][j].seqNum == t;
      assert w'.m.lists[slot][j] == w.m.lists[slot][j];
    }
  }

  lemma FlushLists(m: Mem, a: Action, m': Mem)
    requires HasLeaf(FlushTree(m, a), m')
    ensures m'.lists == m.lists
  {
    FlushLeaves(m, a, m');
  }

  lemma EnsureGrows(m: Mem, a: Action, memory: nat)
    ensures forall slot :: slot in m.lists ==>
      slot in EnsureInitial(m, a, memory).lists && m.lists[slot] <= EnsureInitial(m, a, memory).lists[slot]
  {
  }

  lemma StepGrows(w: World, st: Step, w': World)
    requires Runs.Next(w, st, w')
    ensures Grows(w, w')
  {
    hide HasLeaf, FlushTree, Ends, EnsureInitial, OptEffect, Line;
    match st {
      case Issue(t, a, memory) => EnsureGrows(w.m, a, memory);
      case Touch(t, a, memory) => EnsureGrows(w.m, a, memory);
      case LoadStep(t, read, memory, end) => EnsureGrows(w.m, read, memory);
      case Pop(t) =>
        var a := w.threads[t].b.sb[0];
        if !IsWrite(a.kind) && a.kind == Clflush {
          FlushLists(w.m, a, w'.m);
        }
      case FlushFront(t) => FlushLists(w.m, w.threads[t].b.fb[0], w'.m);
      case _ =>
    }
  }

  // ----- what raises `begin` -----

  /** A load raises `begin` only to the number of a store of that process which it looks at. */
  ghost predicate RaisedTo(x: Context, cl: Lines, cl': Lines) {
    forall key :: GetLine(cl', key).begin == GetLine(cl, key).begin
      || (key.line == Line(x.read.loc) && StoreIn(x.stores, key.pid, GetLine(cl', key).begin))
  }

  ghost predicate StoreIn(stores: seq<Action>, p: Pid, t: Clock) {
    exists j :: 0 <= j < |stores| && stores[j].pid == p && stores[j].seqNum == t
  }

  lemma NextRaises(x: Context, n: nat, s: LoadState, s1: LoadState)
    requires 0 < n <= |x.stores| && CrashLoads.Next(x, n, s, s1)
    ensures RaisedTo(x, s.cl, s1.cl)
  {
    hide Fill, Line, Skips, Equivalent;
    var w := x.stores[n - 1];
    assert StoreIn(x.stores, w.pid, w.seqNum);
  }

  lemma {:induction false} ReachRaises(x: Context, n: nat, s: LoadState, s': LoadState)
    requires n <= |x.stores| && Reach(x, n, s, s')
    ensures RaisedTo(x, s.cl, s'.cl)
  {
    hide CrashLoads.Next, StoreIn, GetLine;
    if n > 0 && !Full(s.rf) {
      var s1 := NextOf(x, n, s, s');
      NextRaises(x, n, s, s1);
      ReachRaises(x, n - 1, s1, s');
      RaisedTwice(x, s.cl, s1.cl, s'.cl);
    }
  }

  lemma RaisedTwice(x: Context, a: Lines, b: Lines, c: Lines)
    requires RaisedTo(x, a, b) && RaisedTo(x, b, c)
    ensures RaisedTo(x, a, c)
  {
    hide StoreIn, GetLine;
    forall key ensures GetLine(c, key).begin == GetLine(a, key).begin
      || (key.line == Line(x.read.loc) && StoreIn(x.stores, key.pid, GetLine(c, key).begin))
    {
      assert GetLine(c, key).begin == GetLine(b, key).begin || StoreIn(x.stores, key.pid, GetLine(c, key).begin);
    }
  }

  lemma LineOfSlot(a: Address)
    ensures Line(Slot(a)) == Line(a)
  {
    var q, r := a / 64, a % 64;
    var s, t := r / 8, r % 8;
    Division(a, 64);
    QuotientUnique(a, 8, 8 * q + s, t);
    QuotientUnique(Slot(a), 64, q, 8 * s);
  }

  lemma LoadCaused(w: World, read: Action, memory: nat, end: LoadState, w': World, t: Tid)
    requires Caused(w) && Loads(w, read, memory, end, w', t) && Grows(w, w')
    ensures Caused(w')
  {
    hide Line, Slot, FlushCause, EnsureInitial, Bypass;
    var m := LoadMem(w, read, memory);
    var x := ContextFor(m, read);
    LeafReach(x, |x.stores|, LoadStart(w, t, read, memory), end);
    ReachRaises(x, |x.stores|, LoadStart(w, t, read, memory), end);
    LineOfSlot(read.loc);
    EnsureLines(w.m, read, memory);
    forall key ensures var t1 := GetLine(w'.m.cl, key).begin;
      t1 == 0 || FlushCause(w', key.line, t1) || StoreCause(w'.m, key.pid, key.line, t1)
    {
      var t1 := GetLine(w'.m.cl, key).begin;
      if t1 == GetLine(w.m.cl, key).begin {
        CausesStay(w, w', key, t1);
      } else {
        assert StoreIn(x.stores, key.pid, t1) && key.line == Line(Slot(read.loc));
        assert w'.m.lists[Slot(read.loc)] == x.stores;
      }
    }
  }

  lemma EnsureLines(m: Mem, a: Action, memory: nat)
    ensures EnsureInitial(m, a, memory).cl == m.cl
  {
  }

  lemma SameCaused(w: World, w': World)
    requires Caused(w) && Grows(w, w') && w'.m.cl == w.m.cl
    ensures Caused(w')
  {
    hide FlushCause, StoreCause;
    forall key ensures var t := GetLine(w'.m.cl, key).begin;
      t == 0 || FlushCause(w', key.line, t) || StoreCause(w'.m, key.pid, key.line, t)
    {
      CausesStay(w, w', key, GetLine(w.m.cl, key).begin);
    }
  }

  /** A flush raises `begin` to its own time. */
  lemma FlushCaused(w: World, a: Action, w': World)
    requires Caused(w) && Grows(w, w') && HasLeaf(FlushTree(w.m, a), w'.m)
    requires FlushCause(w', Line(a.loc), FlushTime(w.m, a))
    ensures Caused(w')
  {
    hide FlushCause, StoreCause, FlushTime, Line, Flushed;
    FlushLeaves(w.m, a, w'.m);
    forall key ensures var t := GetLine(w'.m.cl, key).begin;
      t == 0 || FlushCause(w', key.line, t) || StoreCause(w'.m, key.pid, key.line, t)
    {
      FlushedRange(w.m, a, key);
      CausesStay(w, w', key, GetLine(w.m.cl, key).begin);
    }
  }

  lemma CausedStep(w: World, st: Step, w': World)
    requires Caused(w) && Runs.Next(w, st, w') && forall t :: 0 <= t < |w.threads| ==> ThreadInv(w.threads[t])
    requires BuffersInv(w)
    ensures Caused(w')
  {
    hide Caused, Grows, HasLeaf, FlushTree, Ends, EnsureInitial, OptEffect, Line, EffectInv, FlushCause;
    StepGrows(w, st, w');
    match st {
      case Issue(_, a, memory) =>
        EnsureLines(w.m, a, memory);
        SameCaused(w, w');
      case Touch(_, a, memory) =>
        EnsureLines(w.m, a, memory);
        SameCaused(w, w');
      case LoadStep(t, read, memory, end) =>
        LoadCaused(w, read, memory, end, w', t);
      case Pop(t) =>
        var a := w.threads[t].b.sb[0];
        if !IsWrite(a.kind) && a.kind == Clflush {
          PopCause(w, w', t);
          FlushCaused(w, a, w');
        } else {
          SameCaused(w, w');
        }
      case FlushFront(t) =>
        assert BufferInv(w.m, w.threads[t].b);
        FrontCause(w, w', t);
        FlushCaused(w, w.threads[t].b.fb[0], w');
      case _ =>
        SameCaused(w, w');
    }
  }

  lemma PopCause(w: World, w': World, t: Tid)
    requires PopsStep(w, w', t) && w.threads[t].b.sb[0].kind == Clflush
    ensures var a := w.threads[t].b.sb[0]; FlushCause(w', Line(a.loc), FlushTime(w.m, a))
  {
    hide Line, HasLeaf, FlushTree;
    var a, done' := w.threads[t].b.sb[0], w'.threads[t].done;
    assert FlushedAt(done'[|w.threads[t].done|], Line(a.loc), FlushTime(w.m, a));
  }

  lemma FrontCause(w: World, w': World, t: Tid)
    requires Runs.Next(w, FlushFront(t), w') && t < |w.threads| && OrderInv(w.threads[t])
    requires w.threads[t].b.fb[0].kind == ClflushOpt
    ensures var a := w.threads[t].b.fb[0]; FlushCause(w', Line(a.loc), FlushTime(w.m, a))
  {
    hide HasLeaf, FlushTree, Line;
    var th := w.threads[t];
    var a, all := th.b.fb[0], DelayedOf(th.done);
    assert all[|all| - |th.b.fb|] == a;
    var j := DelayedIn(th.done, a);
    assert FlushedAt(w'.threads[t].done[j], Line(a.loc), FlushTime(w.m, a));
  }

  /** In every run, of whatever process and line: `begin` is 0, or the time of a flush of the line, or
      the number of a store to the line by that process. */
  lemma {:induction false} NothingUncaused(ws: seq<World>, ss: seq<Step>, n: nat)
    requires IsRun(ws, ss) && n < |ws|
    ensures Caused(ws[n])
  {
    hide Runs.Next, ThreadInv, FlushCause, StoreCause, BuffersInv;
    if n > 0 {
      NothingUncaused(ws, ss, n - 1);
      BuffersHold(ws, ss, n - 1);
      var w := ws[n - 1];
      forall t | 0 <= t < |w.threads| ensures ThreadInv(w.threads[t]) {
        TimesHold(ws, ss, n - 1, t);
      }
      CausedStep(w, ss[n - 1], ws[n]);
    }
  }

  // ----- nothing is from the future -----

  /** Every store and clflush a thread has done is numbered below the clock. */
  ghost predicate EventsPast(w: World) {
    forall t, i :: 0 <= t < |w.threads| && 0 <= i < |w.threads[t].done| ==>
      w.threads[t].done[i].Evicted? || w.threads[t].done[i].FlushDone? ==> w.threads[t].done[i].a.seqNum < w.m.next
  }

  lemma FlushTakesNumber(m: Mem, a: Action, m': Mem)
    requires HasLeaf(FlushTree(m, a), m')
    ensures m'.next == if a.kind == Clflush then m.next + 1 else m.next
  {
    FlushLeaves(m, a, m');
  }

  lemma LoadKeepsClock(w: World, read: Action, memory: nat, end: LoadState, w': World, t: Tid)
    requires Loads(w, read, memory, end, w', t)
    ensures w'.m.next == w.m.next && w'.threads == w.threads
  {
    hide Ends;
  }

  lemma PastStep(w: World, st: Step, w': World)
    requires EventsPast(w) && Runs.Next(w, st, w')
    ensures EventsPast(w')
  {
    hide HasLeaf, FlushTree, Ends, OptEffect, Line, EnsureInitial, LoadStart;
    match st {
      case Issue(_, a, memory) => EnsureClock(w.m, a, memory);
      case Touch(_, a, memory) => EnsureClock(w.m, a, memory);
      case LoadStep(t, read, memory, end) => LoadKeepsClock(w, read, memory, end, w', t);
      case Pop(t) =>
        var a := w.threads[t].b.sb[0];
        if !IsWrite(a.kind) && a.kind == Clflush {
          FlushTakesNumber(w.m, a, w'.m);
        }
      case FlushFront(t) => FlushTakesNumber(w.m, w.threads[t].b.fb[0], w'.m);
      case _ =>
    }
  }

  lemma EnsureClock(m: Mem, a: Action, memory: nat)
    ensures EnsureInitial(m, a, memory).next == m.next
  {
  }

  lemma {:induction false} EventsHold(ws: seq<World>, ss: seq<Step>, n: nat)
    requires IsRun(ws, ss) && n < |ws|
    ensures EventsPast(ws[n])
  {
    hide Runs.Next, EventsPast;
    if n == 0 {
      NoEvents(ws[0]);
    } else {
      EventsHold(ws, ss, n - 1);
      PastStep(ws[n - 1], ss[n - 1], ws[n]);
    }
  }

  lemma NoEvents(w: World)
    requires Init(w)
    ensures EventsPast(w)
  {
  }

  lemma CausePast(w: World, key: Key, t: Clock)
    requires BuffersInv(w) && EventsPast(w) && forall u :: 0 <= u < |w.threads| ==> EffectInv(w.threads[u])
    requires t > 0 && (FlushCause(w, key.line, t) || StoreCause(w.m, key.pid, key.line, t))
    ensures t < w.m.next
  {
    hide Line, BufferInv;
    if FlushCause(w, key.line, t) {
      var u, i :| 0 <= u < |w.threads| && 0 <= i < |w.threads[u].done| && FlushedAt(w.threads[u].done[i], key.line, t);
      var th := w.threads[u];
      assert EffectInv(th);
      if th.done[i].Delayed? {
        var l :| 0 <= l < i && TimedAt(th.done[l], Line(th.done[i].a.loc), t);
        assert th.done[l].a.seqNum == t;
      }
    } else {
      var slot, j :| slot in w.m.lists && 0 <= j < |w.m.lists[slot]|
        && Line(slot) == key.line && w.m.lists[slot][j].pid == key.pid && w.m.lists[slot][j].seqNum == t;
      assert j > 0;
    }
  }

  /** In every run every `begin` is 0 or below the clock. So a store that is evicted counts as persisted
      for nobody, unless it is the first thing of the execution that gets a number: that is 0, as
      is `begin` where nothing is known. */
  lemma JustEvicted(ws: seq<World>, ss: seq<Step>, n: nat, key: Key)
    requires IsRun(ws, ss) && n < |ws|
    ensures var begin, now := GetLine(ws[n].m.cl, key).begin, ws[n].m.next; begin < now || (begin == 0 && now == 0)
  {
    hide Runs.Next, EventsPast, FlushCause, StoreCause, BuffersInv, ThreadInv;
    var w := ws[n];
    BuffersHold(ws, ss, n);
    EventsHold(ws, ss, n);
    NothingUncaused(ws, ss, n);
    forall u | 0 <= u < |w.threads| ensures EffectInv(w.threads[u]) {
      TimesHold(ws, ss, n, u);
      InvEffects(w.threads[u]);
    }
    var t := GetLine(w.m.cl, key).begin;
    if t > 0 {
      CausePast(w, key, t);
    }
  }
}
