/**
 What flushing promises: a store that its own thread has flushed is never lost. This
 holds in every run, also in those that are not safe in the sense of `IsSafeRun`.
 */
module FlushGuarantee {
  import opened DecisionTree
  import opened Actions
  import opened ReadAssembly
  import opened CrashLoads
  import opened LoadTheorems
  import opened MemoryState
  import opened Runs

  // ----- begins never fall -----

  ghost predicate BeginsUp(cl: Lines, cl': Lines) {
    forall key :: GetLine(cl, key).begin <= GetLine(cl', key).begin
  }

  lemma NextCrashedUp(x: Context, n: nat, s: LoadState, s1: LoadState)
    requires 0 < n <= |x.stores| && NextCrashed(x, n, s, s1)
    ensures BeginsUp(s.cl, s1.cl)
  {
  }

  lemma NextUp(x: Context, n: nat, s: LoadState, s1: LoadState)
    requires 0 < n <= |x.stores| && CrashLoads.Next(x, n, s, s1)
    ensures BeginsUp(s.cl, s1.cl)
  {
    var w := x.stores[n - 1];
    if w.pid in s.crashes {
      NextCrashedUp(x, n, s, s1);
    } else if s1.crashes != s.crashes {
      NextCrashedUp(x, n, Crash(x, s, w.pid), s1);
    } else if s1 != s && s1 != ReadLive(x, s, w) && CrashPoint(x, s, w) && s1.cl != s.cl {
      NextCrashedUp(x, n, Crash(x, s, w.pid), s1);
    }
  }

  lemma UpReflexive(a: Lines)
    ensures BeginsUp(a, a)
  {
  }

  lemma UpTransitive(a: Lines, b: Lines, c: Lines)
    requires BeginsUp(a, b) && BeginsUp(b, c)
    ensures BeginsUp(a, c)
  {
    forall key ensures GetLine(a, key).begin <= GetLine(c, key).begin {
      assert GetLine(a, key).begin <= GetLine(b, key).begin;
    }
  }

  lemma {:induction false} ReachUp(x: Context, n: nat, s: LoadState, s': LoadState)
    requires n <= |x.stores| && Reach(x, n, s, s')
    ensures BeginsUp(s.cl, s'.cl)
  {
    if n > 0 && !Full(s.rf) {
      var s1 := NextOf(x, n, s, s');
      NextUp(x, n, s, s1);
      ReachUp(x, n - 1, s1, s');
      UpTransitive(s.cl, s1.cl, s'.cl);
    }
  }

  lemma FlushUp(m: Mem, a: Action, m': Mem)
    requires HasLeaf(FlushTree(m, a), m')
    ensures BeginsUp(m.cl, m'.cl) && m.next <= m'.next && m'.cfg == m.cfg
    ensures PersistedUpTo(m', Line(a.loc), FlushTime(m, a))
  {
    FlushLeaves(m, a, m');
    forall key ensures GetLine(m.cl, key).begin <= GetLine(m'.cl, key).begin {
      FlushedRange(m, a, key);
    }
    forall p | 0 <= p < m.cfg.processes ensures GetLine(m'.cl, Key(p, Line(a.loc))).begin >= FlushTime(m, a) {
      FlushedRange(m, a, Key(p, Line(a.loc)));
    }
  }

  /** Of every process, everything on the line up to time `t` has persisted. */
  ghost predicate PersistedUpTo(m: Mem, line: Address, t: Clock) {
    forall p :: 0 <= p < m.cfg.processes ==> GetLine(m.cl, Key(p, line)).begin >= t
  }

  /** Time goes on. */
  ghost predicate Later(m: Mem, m': Mem) {
    BeginsUp(m.cl, m'.cl) && m.next <= m'.next && m'.cfg == m.cfg
  }

  lemma PersistedStays(m: Mem, m': Mem, line: Address, t: Clock)
    requires Later(m, m') && PersistedUpTo(m, line, t)
    ensures PersistedUpTo(m', line, t)
  {
    forall p | 0 <= p < m'.cfg.processes ensures GetLine(m'.cl, Key(p, line)).begin >= t {
      assert GetLine(m.cl, Key(p, line)).begin >= t;
    }
  }

  lemma StepLater(w: World, st: Step, w': World)
    requires Runs.Next(w, st, w')
    ensures Later(w.m, w'.m)
  {
    match st {
      case Pop(t) =>
        var a := w.threads[t].b.sb[0];
        if !IsWrite(a.kind) && a.kind == Clflush {
          FlushUp(w.m, a, w'.m);
        }
      case FlushFront(t) => FlushUp(w.m, w.threads[t].b.fb[0], w'.m);
      case LoadStep(t, read, memory, end) =>
        var m := LoadMem(w, read, memory);
        var x := ContextFor(m, read);
        LeafReach(x, |x.stores|, LoadStart(w, t, read, memory), end);
        ReachUp(x, |x.stores|, LoadStart(w, t, read, memory), end);
      case _ =>
    }
  }

  // ----- the history of one thread -----

  predicate OnLine(e: Event, line: Address) {
    !e.Drained? && Line(e.a.loc) == line
  }

  predicate FencedBy(e: Event) {
    e.SfenceDone? || e.Drained?
  }

  /** The per-line map is at least as late as every store evicted. */
  ghost predicate LastInv(m: Mem, b: Buffers, done: seq<Event>) {
    forall i :: 0 <= i < |done| && done[i].Evicted? ==>
      done[i].a.seqNum < m.next && done[i].a.seqNum <= LastOn(b, Line(done[i].a.loc))
  }

  ghost predicate FlushInv(m: Mem, done: seq<Event>) {
    forall i, j ::
      0 <= i < j < |done| && done[i].Evicted? && done[j].FlushDone? && OnLine(done[j], Line(done[i].a.loc)) ==>
      PersistedUpTo(m, Line(done[i].a.loc), done[i].a.seqNum)
  }

  ghost predicate EffectInv(done: seq<Event>) {
    forall i, j ::
      0 <= i < j < |done| && done[i].Evicted? && done[j].Delayed? && OnLine(done[j], Line(done[i].a.loc)) ==>
      done[i].a.seqNum <= done[j].a.effect
  }

  ghost predicate PendingInv(m: Mem, b: Buffers, done: seq<Event>) {
    forall j :: 0 <= j < |done| && done[j].Delayed? ==>
      done[j].a in b.fb || PersistedUpTo(m, Line(done[j].a.loc), done[j].a.effect)
  }

  ghost predicate FenceInv(m: Mem, done: seq<Event>) {
    forall j, l :: 0 <= j < l < |done| && done[j].Delayed? && FencedBy(done[l]) ==>
      PersistedUpTo(m, Line(done[j].a.loc), done[j].a.effect)
  }

  ghost predicate ThreadInv(m: Mem, th: Thread) {
    && LastInv(m, th.b, th.done)
    && FlushInv(m, th.done)
    && EffectInv(th.done)
    && PendingInv(m, th.b, th.done)
    && FenceInv(m, th.done)
  }

  /** Nothing a thread was promised is taken back by the passing of time. */
  lemma InvStays(m: Mem, m': Mem, th: Thread, th': Thread)
    requires ThreadInv(m, th) && Later(m, m') && th'.done == th.done && th'.b.fb == th.b.fb && th'.b.last == th.b.last
    ensures ThreadInv(m', th')
  {
    forall line, t | PersistedUpTo(m, line, t) ensures PersistedUpTo(m', line, t) {
      PersistedStays(m, m', line, t);
    }
  }

  /** An event that is no flush, and no fence, adds nothing to keep but for evictions. */
  lemma FlushSnoc(m: Mem, done: seq<Event>, e: Event)
    requires FlushInv(m, done) && !e.FlushDone?
    ensures FlushInv(m, done + [e])
  {
  }

  lemma OtherSnoc(m: Mem, b: Buffers, done: seq<Event>, e: Event)
    requires EffectInv(done) && PendingInv(m, b, done) && FenceInv(m, done) && !e.Delayed? && !FencedBy(e)
    ensures EffectInv(done + [e]) && PendingInv(m, b, done + [e]) && FenceInv(m, done + [e])
  {
    hide PersistedUpTo, OnLine;
  }

  lemma AfterEvict(c: Machine, c': Machine, th: Thread, th': Thread)
    requires ThreadInv(c.m, th) && th.b == c.b && th'.b == c'.b && Pops(c, c') && IsWrite(c.b.sb[0].kind)
    requires th'.done == th.done + [EventOf(c)] && Later(c.m, c'.m)
    ensures ThreadInv(c'.m, th')
  {
    hide FlushInv, EffectInv, FenceInv, Later, Line;
    InvStays(c.m, c'.m, th, th);
    FlushSnoc(c'.m, th.done, EventOf(c));
    OtherSnoc(c'.m, th.b, th.done, EventOf(c));
  }

  lemma AfterClflush(c: Machine, c': Machine, th: Thread, th': Thread)
    requires ThreadInv(c.m, th) && th.b == c.b && th'.b == c'.b && Pops(c, c') && c.b.sb[0].kind == Clflush
    requires th'.done == th.done + [EventOf(c)] && Later(c.m, c'.m)
    ensures ThreadInv(c'.m, th')
  {
    hide EffectInv, FenceInv, Later, Line, HasLeaf, FlushTree;
    InvStays(c.m, c'.m, th, th);
    OtherSnoc(c'.m, th.b, th.done, EventOf(c));
    var a := c.b.sb[0];
    FlushUp(c.m, a, c'.m);
    hide PersistedUpTo;
    FlushedNow(c.m, c'.m, a, th);
  }

  /** After a clflush what the thread has evicted before on the line has persisted. */
  lemma FlushedNow(m: Mem, m': Mem, a: Action, th: Thread)
    requires LastInv(m, th.b, th.done) && FlushInv(m', th.done) && a.kind == Clflush
    requires PersistedUpTo(m', Line(a.loc), FlushTime(m, a))
    ensures FlushInv(m', th.done + [FlushDone(a.(seqNum := m.next))])
  {
    hide Line;
    var done' := th.done + [FlushDone(a.(seqNum := m.next))];
    forall i, j | 0 <= i < j < |done'| && done'[i].Evicted? && done'[j].FlushDone?
        && OnLine(done'[j], Line(done'[i].a.loc))
      ensures PersistedUpTo(m', Line(done'[i].a.loc), done'[i].a.seqNum)
    {
      assert done'[i] == th.done[i];
      if j < |th.done| {
        assert done'[j] == th.done[j];
      }
    }
  }

  lemma AfterClflushOpt(c: Machine, c': Machine, th: Thread, th': Thread)
    requires ThreadInv(c.m, th) && th.b == c.b && th'.b == c'.b && Pops(c, c') && c.b.sb[0].kind == ClflushOpt
    requires th'.done == th.done + [EventOf(c)]
    ensures ThreadInv(c'.m, th')
  {
    var e, done' := EventOf(c), th'.done;
    forall j | 0 <= j < |done'| && done'[j].Delayed?
      ensures done'[j].a in c'.b.fb || PersistedUpTo(c'.m, Line(done'[j].a.loc), done'[j].a.effect)
    {
      if j == |th.done| {
        assert c'.b.fb[|c.b.fb|] == e.a;
      } else {
        assert done'[j] == th.done[j];
      }
    }
  }

  lemma AfterFence(m: Mem, th: Thread, th': Thread, e: Event)
    requires ThreadInv(m, th) && th.b.fb == [] && FencedBy(e)
    requires th'.done == th.done + [e] && th'.b.fb == [] && th'.b.last == th.b.last
    ensures ThreadInv(m, th')
  {
  }

  lemma AfterFlushFront(c: Machine, c': Machine, th: Thread, th': Thread)
    requires ThreadInv(c.m, th) && th.b == c.b && th'.b == c'.b && FlushesOne(c, c') && c.b.fb[0].kind == ClflushOpt
    requires th'.done == th.done && Later(c.m, c'.m)
    ensures ThreadInv(c'.m, th')
  {
    InvStays(c.m, c'.m, th, th);
    var a := c.b.fb[0];
    FlushUp(c.m, a, c'.m);
    forall j | 0 <= j < |th.done| && th.done[j].Delayed?
      ensures th.done[j].a in c'.b.fb || PersistedUpTo(c'.m, Line(th.done[j].a.loc), th.done[j].a.effect)
    {
      if th.done[j].a in c.b.fb && th.done[j].a != a {
        var k :| 0 <= k < |c.b.fb| && c.b.fb[k] == th.done[j].a;
        assert c'.b.fb[k - 1] == th.done[j].a;
      }
    }
  }

  lemma AfterCut(m: Mem, th: Thread, th': Thread, a: Action)
    requires ThreadInv(m, th) && th'.done == th.done + [SfenceCut(a)] && th'.b.fb == th.b.fb && th'.b.last == th.b.last
    ensures ThreadInv(m, th')
  {
  }

  // ----- all threads, all runs -----

  ghost predicate HistoryInv(w: World) {
    forall t :: 0 <= t < |w.threads| ==> ThreadInv(w.m, w.threads[t])
  }

  lemma OwnStep(w: World, st: Step, w': World, t: Tid)
    requires BuffersInv(w) && HistoryInv(w) && Runs.Next(w, st, w') && Later(w.m, w'.m)
    requires !st.Complete? && !st.Spawn? && t == ThreadOf(st)
    ensures t < |w.threads| && t < |w'.threads| && ThreadInv(w'.m, w'.threads[t])
  {
    var th, th' := w.threads[t], w'.threads[t];
    assert ThreadInv(w.m, th);
    match st {
      case Issue(_, a, memory) => InvStays(w.m, w'.m, th, th');
      case Pop(_) =>
        var c, c' := MachineOf(w, t), MachineOf(w', t);
        var a := c.b.sb[0];
        if IsWrite(a.kind) {
          AfterEvict(c, c', th, th');
        } else if a.kind == Clflush {
          AfterClflush(c, c', th, th');
        } else if a.kind == ClflushOpt {
          AfterClflushOpt(c, c', th, th');
        } else {
          AfterFence(w.m, th, th', SfenceDone(a));
        }
      case FlushFront(_) =>
        assert BufferInv(w.m, th.b);
        AfterFlushFront(MachineOf(w, t), MachineOf(w', t), th, th');
      case CutShort(_) => AfterCut(w.m, th, th', th.b.sb[0]);
      case Fence(_) => AfterFence(w.m, th, th', Drained);
      case LoadStep(_, _, _, _) => InvStays(w.m, w'.m, th, th');
      case _ =>
    }
  }

  lemma HistoryStep(w: World, st: Step, w': World)
    requires BuffersInv(w) && HistoryInv(w) && Runs.Next(w, st, w')
    ensures HistoryInv(w')
  {
    StepLater(w, st, w');
    if !st.Complete? && !st.Spawn? {
      OwnStep(w, st, w', ThreadOf(st));
    }
    forall u | 0 <= u < |w'.threads| ensures ThreadInv(w'.m, w'.threads[u]) {
      if u < |w.threads| {
        assert ThreadInv(w.m, w.threads[u]);
        if w'.threads[u] == w.threads[u] {
          InvStays(w.m, w'.m, w.threads[u], w'.threads[u]);
        }
      }
    }
  }

  lemma {:induction false} HistoryHolds(ws: seq<World>, ss: seq<Step>, i: nat)
    requires IsRun(ws, ss) && i < |ws|
    ensures BuffersInv(ws[i]) && HistoryInv(ws[i])
  {
    BuffersHold(ws, ss, i);
    if i > 0 {
      HistoryHolds(ws, ss, i - 1);
      HistoryStep(ws[i - 1], ss[i - 1], ws[i]);
    }
  }

  lemma {:induction false} RunLater(ws: seq<World>, ss: seq<Step>, i: nat, j: nat)
    requires IsRun(ws, ss) && i <= j < |ws|
    ensures Later(ws[i].m, ws[j].m)
  {
    hide Runs.Next, Init, BeginsUp;
    if i < j {
      RunLater(ws, ss, i, j - 1);
      StepLater(ws[j - 1], ss[j - 1], ws[j]);
      UpTransitive(ws[i].m.cl, ws[j - 1].m.cl, ws[j].m.cl);
    } else {
      UpReflexive(ws[i].m.cl);
    }
  }

  /** Event `f` of the thread, after its store `i`, makes the store durable: a clflush of
      its line, or a clflushopt of its line that an sfence or a drain has followed. */
  predicate Flushes(done: seq<Event>, i: nat, f: nat, g: nat)
    requires i < f <= g < |done| && done[i].Evicted?
  {
    && OnLine(done[f], Line(done[i].a.loc))
    && (done[f].FlushDone? || (done[f].Delayed? && f < g && FencedBy(done[g])))
  }

  /** A store flushed by its thread stays persisted from then on, for every process. */
  lemma FlushedForGood(ws: seq<World>, ss: seq<Step>, n: nat, n': nat, t: Tid, i: nat, f: nat, g: nat)
    requires IsRun(ws, ss) && n <= n' < |ws| && t < |ws[n].threads|
    requires i < f <= g < |ws[n].threads[t].done| && ws[n].threads[t].done[i].Evicted?
    requires Flushes(ws[n].threads[t].done, i, f, g)
    ensures var a := ws[n].threads[t].done[i].a; PersistedUpTo(ws[n'].m, Line(a.loc), a.seqNum)
  {
    HistoryHolds(ws, ss, n);
    var th := ws[n].threads[t];
    var a := th.done[i].a;
    assert ThreadInv(ws[n].m, th);
    if th.done[f].Delayed? {
      assert PersistedUpTo(ws[n].m, Line(a.loc), th.done[f].a.effect);
      assert PersistedUpTo(ws[n].m, Line(a.loc), a.seqNum);
    }
    RunLater(ws, ss, n, n');
    PersistedStays(ws[n].m, ws[n'].m, Line(a.loc), a.seqNum);
  }

  /** No load after that can treat the store as lost: under every cut a later load leaves
      for the store's process, the store is visible. */
  lemma FlushedNeverLost(ws: seq<World>, ss: seq<Step>, n: nat, n': nat, t: Tid, i: nat, f: nat, g: nat, c: Clock)
    requires IsRun(ws, ss) && n <= n' < |ss| && t < |ws[n].threads|
    requires i < f <= g < |ws[n].threads[t].done| && ws[n].threads[t].done[i].Evicted?
    requires Flushes(ws[n].threads[t].done, i, f, g)
    requires ss[n'].LoadStep? && Line(ss[n'].read.loc) == Line(ws[n].threads[t].done[i].a.loc)
    requires var a := ws[n].threads[t].done[i].a;
             && 0 <= a.pid < ws[n].m.cfg.processes
             && Admits(GetLine(ss[n'].end.cl, Key(a.pid, Line(a.loc))), c)
    ensures var a := ws[n].threads[t].done[i].a; Visible(a, a.pid, c)
  {
    var a := ws[n].threads[t].done[i].a;
    FlushedForGood(ws, ss, n, n' + 1, t, i, f, g);
    RunLater(ws, ss, n, n' + 1);
    assert ws[n' + 1].m.cl == ss[n'].end.cl;
    assert GetLine(ws[n' + 1].m.cl, Key(a.pid, Line(a.loc))).begin >= a.seqNum;
  }
}
