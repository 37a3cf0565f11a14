/**
 The converse of `RunExplained`. Let process `k` have one cut for each line. Whatever the
 threads do, as long as no flush of a line comes after its cut, the loads can be decided so
 that the run leaves exactly these cuts possible, and then each load returns what the cuts
 say. In how the loads are decided there is no choice left, but for when `k` is crashed.
 */
module RunExactness {
  import opened DecisionTree
  import opened Actions
  import opened ReadAssembly
  import opened CrashLoads
  import opened LoadTheorems
  import opened MemoryState
  import opened Runs

  /** One cut for each line. */
  type LineCuts = Address -> Clock

  ghost predicate AdmitsAll(m: Mem, k: Pid, cut: LineCuts) {
    forall line :: Admits(GetLine(m.cl, Key(k, line)), cut(line))
  }

  /** No process other than `k` has crashed. */
  predicate CrashesOnly(m: Mem, k: Pid) {
    forall p :: p in m.crashes ==> p == k
  }

  /** Process `k` may still be crashed. */
  predicate MayFall(m: Mem, k: Pid) {
    1 < m.cfg.processes && k !in m.completed
  }

  ghost predicate Sound(w: World) {
    BuffersInv(w) && RangesInv(w.m)
  }

  /** The same step, whatever its load comes to. */
  predicate SameMove(st: Step, st': Step) {
    if st.LoadStep? then st'.LoadStep? && st' == st.(end := st'.end) else st' == st
  }

  predicate SameMoves(ss: seq<Step>, ts: seq<Step>) {
    |ss| == |ts| && forall i :: 0 <= i < |ss| ==> SameMove(ss[i], ts[i])
  }

  /** A flush in this step is not later than the cut of its line. */
  predicate FlushBelow(w: World, st: Step, cut: LineCuts) {
    match st
    case Pop(t) =>
      t < |w.threads| && w.threads[t].b.sb != [] && w.threads[t].b.sb[0].kind == Clflush ==>
        FlushTime(w.m, w.threads[t].b.sb[0]) <= cut(Line(w.threads[t].b.sb[0].loc))
    case FlushFront(t) =>
      t < |w.threads| && w.threads[t].b.fb != [] ==>
        FlushTime(w.m, w.threads[t].b.fb[0]) <= cut(Line(w.threads[t].b.fb[0].loc))
    case _ => true
  }

  /** A load by another process, or after the crash, returns what the cuts say. */
  ghost predicate Explained(w: World, st: Step, k: Pid, cut: LineCuts) {
    st.LoadStep? && (st.read.pid != k || k in w.m.crashes) ==>
      && st.t < |w.threads|
      && var s := LoadStart(w, st.t, st.read, st.memory);
         && SourcesCover(st.read, s.rf)
         && Returns(ContextFor(LoadMem(w, st.read, st.memory), st.read), s, st.end, k, cut(Line(st.read.loc)))
  }

  // ----- ranges narrow in every run -----

  ghost predicate LoadOnlyNarrows(s: LoadState, s': LoadState) {
    && (forall key :: Narrower(GetLine(s'.cl, key), GetLine(s.cl, key)))
    && (forall p :: p in s.crashes ==> p in s'.crashes)
  }

  lemma NextCrashedNarrows(x: Context, n: nat, s: LoadState, s1: LoadState)
    requires 0 < n <= |x.stores| && NextCrashed(x, n, s, s1)
    ensures LoadOnlyNarrows(s, s1)
  {
    hide Fill;
  }

  lemma NextNarrows(x: Context, n: nat, s: LoadState, s1: LoadState)
    requires 0 < n <= |x.stores| && CrashLoads.Next(x, n, s, s1)
    ensures LoadOnlyNarrows(s, s1)
  {
    hide Fill, NextCrashed;
    var w := x.stores[n - 1];
    if w.pid in s.crashes {
      NextCrashedNarrows(x, n, s, s1);
    } else if CrashPoint(x, s, w) && NextCrashed(x, n, Crash(x, s, w.pid), s1) {
      NextCrashedNarrows(x, n, Crash(x, s, w.pid), s1);
    }
  }

  lemma {:induction false} ReachNarrows(x: Context, n: nat, s: LoadState, s': LoadState)
    requires n <= |x.stores| && Reach(x, n, s, s')
    ensures LoadOnlyNarrows(s, s')
  {
    if n > 0 && !Full(s.rf) {
      var s1 := NextOf(x, n, s, s');
      NextNarrows(x, n, s, s1);
      ReachNarrows(x, n - 1, s1, s');
      forall key ensures Narrower(GetLine(s'.cl, key), GetLine(s.cl, key)) {
        assert Narrower(GetLine(s1.cl, key), GetLine(s.cl, key));
        assert Narrower(GetLine(s'.cl, key), GetLine(s1.cl, key));
      }
    }
  }

  lemma StepNarrows(w: World, st: Step, w': World)
    requires Runs.Next(w, st, w')
    ensures Narrows(w.m, w'.m)
  {
    match st {
      case Pop(t) =>
        var a := w.threads[t].b.sb[0];
        if !IsWrite(a.kind) && a.kind == Clflush {
          FlushNarrows(w.m, a, w'.m);
        }
      case FlushFront(t) =>
        FlushNarrows(w.m, w.threads[t].b.fb[0], w'.m);
      case LoadStep(t, read, memory, end) =>
        var x, s := ContextFor(LoadMem(w, read, memory), read), LoadStart(w, t, read, memory);
        LeafReach(x, |x.stores|, s, end);
        ReachNarrows(x, |x.stores|, s, end);
      case _ =>
    }
  }

  lemma NarrowsAdmit(m: Mem, m': Mem, k: Pid, cut: LineCuts)
    requires Narrows(m, m') && AdmitsAll(m', k, cut)
    ensures AdmitsAll(m, k, cut)
  {
    forall line ensures Admits(GetLine(m.cl, Key(k, line)), cut(line)) {
      assert Narrower(GetLine(m'.cl, Key(k, line)), GetLine(m.cl, Key(k, line)));
      assert Admits(GetLine(m'.cl, Key(k, line)), cut(line));
    }
  }

  /** What is possible at the end was possible all along. */
  lemma {:induction false} AdmittedBefore(ws: seq<World>, ss: seq<Step>, k: Pid, cut: LineCuts, i: nat)
    requires Segment(ws, ss) && i <= |ss|
    requires AdmitsAll(ws[|ss|].m, k, cut) && CrashesOnly(ws[|ss|].m, k)
    ensures AdmitsAll(ws[i].m, k, cut) && CrashesOnly(ws[i].m, k)
    decreases |ss| - i
  {
    if i < |ss| {
      AdmittedBefore(ws, ss, k, cut, i + 1);
      StepNarrows(ws[i], ss[i], ws[i + 1]);
      NarrowsAdmit(ws[i].m, ws[i + 1].m, k, cut);
    }
  }

  // ----- flushes -----

  /** A flush that leaves the cut possible was not later than the cut. */
  lemma AdmitsAfterFlush(m: Mem, a: Action, k: Pid, cut: LineCuts, m': Mem)
    requires HasLeaf(FlushTree(m, a), m')
    ensures AdmitsAll(m', k, cut)
       <==> AdmitsAll(m, k, cut) && (0 <= k < m.cfg.processes ==> FlushTime(m, a) <= cut(Line(a.loc)))
  {
    FlushLeaves(m, a, m');
    forall key ensures GetLine(m'.cl, key) == GetLine(Flushed(m, a).cl, key) {
    }
    forall line ensures Admits(GetLine(m'.cl, Key(k, line)), cut(line)) <==>
        && Admits(GetLine(m.cl, Key(k, line)), cut(line))
        && (line == Line(a.loc) && 0 <= k < m.cfg.processes ==> FlushTime(m, a) <= cut(line))
    {
      FlushedRange(m, a, Key(k, line));
    }
  }

  lemma SafeBelow(m: Mem, a: Action, k: Pid, cut: LineCuts)
    requires RangesInv(m) && CrashesOnly(m, k) && AdmitsAll(m, k, cut)
    requires 0 <= k < m.cfg.processes ==> FlushTime(m, a) <= cut(Line(a.loc))
    ensures SafeFlush(m, a)
  {
    forall p | 0 <= p < m.cfg.processes
      ensures var r := GetLine(m.cl, Key(p, Line(a.loc))); r.end == 0 || FlushTime(m, a) < r.end
    {
      var key := Key(p, Line(a.loc));
      assert key.pid !in m.crashes ==> GetLine(m.cl, key).end == 0;
      if p == k {
        assert Admits(GetLine(m.cl, key), cut(key.line));
      }
    }
  }

  /** A step after which the cuts are possible is safe. */
  lemma StepSound(w: World, st: Step, w': World, k: Pid, cut: LineCuts)
    requires Sound(w) && Runs.Next(w, st, w') && AdmitsAll(w'.m, k, cut) && CrashesOnly(w'.m, k)
    ensures SafeStep(w, st) && Sound(w')
  {
    StepNarrows(w, st, w');
    NarrowsAdmit(w.m, w'.m, k, cut);
    match st {
      case Pop(t) =>
        var a := w.threads[t].b.sb[0];
        if a.kind == Clflush {
          AdmitsAfterFlush(w.m, a, k, cut, w'.m);
          SafeBelow(w.m, a, k, cut);
        }
      case FlushFront(t) =>
        var a := w.threads[t].b.fb[0];
        AdmitsAfterFlush(w.m, a, k, cut, w'.m);
        SafeBelow(w.m, a, k, cut);
      case _ =>
    }
    BuffersStep(w, st, w');
    RangesStep(w, st, w');
  }

  // ----- a load that leaves the cut possible -----

  /** A load by a process that has not crashed does not touch its own ranges. */
  lemma NextReaderKept(x: Context, n: nat, s: LoadState, s1: LoadState)
    requires 0 < n <= |x.stores| && CrashLoads.Next(x, n, s, s1) && x.read.pid !in s1.crashes
    ensures x.read.pid !in s.crashes && RangeOf(x, s1, x.read.pid) == RangeOf(x, s, x.read.pid)
  {
    hide Fill;
    NextNarrows(x, n, s, s1);
  }

  lemma {:induction false} ReaderKept(x: Context, n: nat, s: LoadState, s': LoadState)
    requires n <= |x.stores| && Reach(x, n, s, s') && x.read.pid !in s'.crashes
    ensures RangeOf(x, s', x.read.pid) == RangeOf(x, s, x.read.pid)
  {
    if n > 0 && !Full(s.rf) {
      var s1 := NextOf(x, n, s, s');
      ReachNarrows(x, n - 1, s1, s');
      NextReaderKept(x, n, s, s1);
      ReaderKept(x, n - 1, s1, s');
    }
  }

  /** Some outcome of the load leaves the cut possible, crashes nobody but `k`, and returns
      what the cut says. */
  lemma LoadFor(x: Context, s: LoadState, k: Pid, c: Clock) returns (end: LoadState)
    requires ContextOk(x) && StateOk(x, s) && x.backtrack && OnlyCrashed(s, k) && Admits(RangeOf(x, s, k), c)
    requires k in s.crashes || (1 < x.processes && k !in x.completed)
    ensures Ends(x, s, end) && OnlyCrashed(end, k) && Admits(RangeOf(x, end, k), c)
    ensures k != x.read.pid || k in s.crashes ==> Returns(x, s, end, k, c)
  {
    hide RangeOf, Admits, Returns, ContextOk, StateOk;
    if k in s.crashes {
      end := CrashedLoadOutcome(x, s, k, c);
      LoadNarrows(x, s, end);
      StateSingle(x, end, k);
    } else {
      NobodyElse(s, k);
      if k == x.read.pid {
        end := OneUncrashed(x, |x.stores|, s);
        LeafReach(x, |x.stores|, s, end);
        ReaderKept(x, |x.stores|, s, end);
        OnlyNone(end, k);
      } else {
        end := UncrashedLoadExact(x, s, k, c);
      }
    }
  }

  lemma StateSingle(x: Context, s: LoadState, k: Pid)
    requires StateOk(x, s) && k in s.crashes
    ensures OnlyCrashed(s, k)
  {
    SingleCrash(s, k);
  }

  lemma NobodyElse(s: LoadState, k: Pid)
    requires OnlyCrashed(s, k) && k !in s.crashes
    ensures NoneCrashed(s)
  {
    NoKeys(s.crashes);
  }

  /** And no other does, given whether it crashes `k`. */
  lemma OneLoadFor(x: Context, s: LoadState, a: LoadState, b: LoadState, k: Pid, c: Clock)
    requires ContextOk(x) && StateOk(x, s) && x.backtrack && OnlyCrashed(s, k) && Admits(RangeOf(x, s, k), c)
    requires Ends(x, s, a) && OnlyCrashed(a, k) && Admits(RangeOf(x, a, k), c)
    requires Ends(x, s, b) && OnlyCrashed(b, k) && Admits(RangeOf(x, b, k), c)
    requires k in a.crashes <==> k in b.crashes
    ensures a == b
  {
    hide RangeOf, Admits, ContextOk, StateOk;
    LoadNarrows(x, s, a);
    if k in s.crashes {
      CrashedLoadExact(x, s, k, c);
      SameLeaf(LoadTree(x, s), CutOf(x, k, c), a, b);
    } else {
      NobodyElse(s, k);
      if k in a.crashes {
        var _ := UncrashedLoadExact(x, s, k, c);
        SameLeaf(LoadTree(x, s), CutOf(x, k, c), a, b);
      } else {
        NobodyElse(a, k);
        NobodyElse(b, k);
        UncrashedOnce(x, |x.stores|, s);
        SameLeaf(LoadTree(x, s), Unharmed(), a, b);
      }
    }
  }

  // ----- every cut happens -----

  /** The same world but for what loads have decided. */
  predicate Alike(w: World, v: World) {
    v == w.(m := w.m.(cl := v.m.cl, crashes := v.m.crashes))
  }

  /** What is kept while one run is followed by another that leaves the cuts possible. */
  ghost predicate Following(w: World, v: World, k: Pid, cut: LineCuts) {
    && Alike(w, v) && Sound(v) && AdmitsAll(v.m, k, cut) && CrashesOnly(v.m, k)
    && (forall p :: p in w.m.crashes ==> p in v.m.crashes)
    && w.m.cfg.backtrack && (k in v.m.crashes || MayFall(v.m, k))
  }

  lemma FlushGoesOn(m: Mem, a: Action)
    ensures HasLeaf(FlushTree(m, a), Flushed(m, a))
  {
    match FlushCandidate(m, a)
    case Some(p) =>
      HasLeafBinary(Leaf(CrashNow(Flushed(m, a), p)), Leaf(Flushed(m, a)), Flushed(m, a));
    case None =>
  }

  /** A flush that crashes nobody. */
  lemma FlushCrashless(m: Mem, a: Action, m': Mem)
    requires HasLeaf(FlushTree(m, a), m') && m'.crashes == m.crashes
    ensures m' == Flushed(m, a)
  {
    FlushLeaves(m, a, m');
    var stores := StoreList(m, a.loc);
    CandidateLive(m, stores, |stores|, LeastBegin(m.cl, m.cfg.processes, Line(a.loc), FlushTime(m, a)));
  }

  function Redone(w': World, m: Mem): World {
    w'.(m := w'.m.(cl := m.cl, crashes := m.crashes))
  }

  lemma FollowPop(w: World, t: Tid, w': World, v: World, k: Pid, cut: LineCuts) returns (v': World)
    requires Runs.Next(w, Pop(t), w') && w'.m.crashes == w.m.crashes
    requires Following(w, v, k, cut) && FlushBelow(w, Pop(t), cut)
    ensures Runs.Next(v, Pop(t), v') && Alike(w', v') && v'.m.crashes == v.m.crashes && AdmitsAll(v'.m, k, cut)
  {
    hide HasLeaf, FlushTree, RaiseBegins, OptEffect, BuffersInv, RangesInv;
    var a := w.threads[t].b.sb[0];
    if a.kind == Clflush {
      FlushCrashless(w.m, a, w'.m);
      FlushGoesOn(v.m, a);
      v' := Redone(w', Flushed(v.m, a));
      assert v'.m == Flushed(v.m, a);
      AdmitsAfterFlush(v.m, a, k, cut, v'.m);
    } else {
      v' := Redone(w', v.m);
    }
  }

  lemma FollowFront(w: World, t: Tid, w': World, v: World, k: Pid, cut: LineCuts) returns (v': World)
    requires Runs.Next(w, FlushFront(t), w') && w'.m.crashes == w.m.crashes
    requires Following(w, v, k, cut) && FlushBelow(w, FlushFront(t), cut)
    ensures Runs.Next(v, FlushFront(t), v') && Alike(w', v') && v'.m.crashes == v.m.crashes && AdmitsAll(v'.m, k, cut)
  {
    var a := w.threads[t].b.fb[0];
    FlushCrashless(w.m, a, w'.m);
    FlushGoesOn(v.m, a);
    v' := Redone(w', Flushed(v.m, a));
    assert v'.m == Flushed(v.m, a);
    AdmitsAfterFlush(v.m, a, k, cut, v'.m);
  }

  lemma LoadCovers(x: Context, s: LoadState)
    requires StateOk(x, s)
    ensures SourcesCover(x.read, s.rf)
  {
  }

  lemma FollowLoad(w: World, st: Step, w': World, v: World, k: Pid, cut: LineCuts) returns (st': Step, v': World)
    requires st.LoadStep? && Runs.Next(w, st, w') && w'.m.crashes == w.m.crashes && Following(w, v, k, cut)
    ensures Runs.Next(v, st', v') && SameMove(st, st') && Alike(w', v') && AdmitsAll(v'.m, k, cut)
            && CrashesOnly(v'.m, k)
    ensures Explained(v, st', k, cut)
  {
    hide Ends, Line, Bypass, Returns, StoreList, ContextOk, StateOk;
    var LoadStep(t, read, memory, _) := st;
    var m := LoadMem(v, read, memory);
    var x, s := ContextFor(m, read), LoadStart(v, t, read, memory);
    LoadContext(v, t, read, memory);
    LoadCovers(x, s);
    EnsureAlike(w.m, v.m, read, memory);
    assert RangeOf(x, s, k) == GetLine(v.m.cl, Key(k, Line(read.loc)));
    var end := LoadFor(x, s, k, cut(Line(read.loc)));
    LoadNarrows(x, s, end);
    st', v' := LoadStep(t, read, memory, end), v.(m := AfterLoad(m, end));
    forall line ensures Admits(GetLine(v'.m.cl, Key(k, line)), cut(line)) {
      assert Admits(GetLine(v.m.cl, Key(k, line)), cut(line));
      if line == Line(read.loc) {
        assert Key(k, line) == KeyOf(x, k);
      }
    }
  }

  lemma FollowOther(w: World, st: Step, w': World, v: World)
    requires Runs.Next(w, st, w') && w'.m.crashes == w.m.crashes && Alike(w, v)
    requires !st.LoadStep? && !st.Pop? && !st.FlushFront? && (w.m.crashes != map[] ==> v.m.crashes != map[])
    ensures Runs.Next(v, st, Redone(w', v.m))
  {
    hide Fill, EnsureInitial, GetLine;
    match st {
      case Issue(t, a, memory) =>
        EnsureAlike(w.m, v.m, a, memory);
      case Touch(t, a, memory) =>
        EnsureAlike(w.m, v.m, a, memory);
      case _ =>
    }
  }

  lemma EnsureAlike(m: Mem, m': Mem, a: Action, memory: nat)
    requires m' == m.(cl := m'.cl, crashes := m'.crashes)
    ensures EnsureInitial(m', a, memory) == EnsureInitial(m, a, memory).(cl := m'.cl, crashes := m'.crashes)
  {
  }

  lemma SomeoneCrashed(m: Mem, m': Mem)
    requires forall p :: p in m.crashes ==> p in m'.crashes
    ensures m.crashes != map[] ==> m'.crashes != map[]
  {
    if m'.crashes == map[] {
      forall p ensures p !in m.crashes {
        assert p !in m'.crashes;
      }
      NoKeys(m.crashes);
    }
  }

  /** One step of the other run. */
  lemma FollowStep(w: World, st: Step, w': World, v: World, k: Pid, cut: LineCuts) returns (st': Step, v': World)
    requires Runs.Next(w, st, w') && w'.m.crashes == w.m.crashes
    requires Following(w, v, k, cut) && FlushBelow(w, st, cut)
    ensures Runs.Next(v, st', v') && SameMove(st, st') && Alike(w', v') && AdmitsAll(v'.m, k, cut)
            && CrashesOnly(v'.m, k)
    ensures Explained(v, st', k, cut)
  {
    hide Runs.Next, AdmitsAll, Alike, Sound;
    st' := st;
    match st {
      case Pop(t) =>
        v' := FollowPop(w, t, w', v, k, cut);
      case FlushFront(t) =>
        v' := FollowFront(w, t, w', v, k, cut);
      case LoadStep(_, _, _, _) =>
        st', v' := FollowLoad(w, st, w', v, k, cut);
      case _ =>
        v' := Redone(w', v.m);
        SomeoneCrashed(w.m, v.m);
        FollowOther(w, st, w', v);
        SameRanges(w', v.m, k, cut);
    }
  }

  lemma SameRanges(w': World, m: Mem, k: Pid, cut: LineCuts)
    requires AdmitsAll(m, k, cut) && CrashesOnly(m, k)
    ensures Alike(w', Redone(w', m)) && AdmitsAll(Redone(w', m).m, k, cut) && CrashesOnly(Redone(w', m).m, k)
  {
    forall line ensures Admits(GetLine(Redone(w', m).m.cl, Key(k, line)), cut(line)) {
      assert Admits(GetLine(m.cl, Key(k, line)), cut(line));
    }
  }

  lemma Follow(w: World, st: Step, w': World, v: World, k: Pid, cut: LineCuts) returns (st': Step, v': World)
    requires Runs.Next(w, st, w') && w'.m.crashes == w.m.crashes && (k in v.m.crashes || k !in w'.m.completed)
    requires Following(w, v, k, cut) && FlushBelow(w, st, cut)
    ensures Runs.Next(v, st', v') && SameMove(st, st') && Following(w', v', k, cut)
    ensures SafeStep(v, st') && Explained(v, st', k, cut)
  {
    hide Runs.Next, AdmitsAll, Sound, SafeStep, Narrows, Explained, SameMove, FlushBelow;
    st', v' := FollowStep(w, st, w', v, k, cut);
    StepSound(v, st', v', k, cut);
    CrashesKept(v, st', v');
    SameConfig(w, st, w');
  }

  lemma CrashesKept(w: World, st: Step, w': World)
    requires Runs.Next(w, st, w')
    ensures forall p :: p in w.m.crashes ==> p in w'.m.crashes
  {
    hide Runs.Next;
    StepNarrows(w, st, w');
  }

  lemma SameConfig(w: World, st: Step, w': World)
    requires Runs.Next(w, st, w')
    ensures w'.m.cfg == w.m.cfg && forall p :: p in w.m.completed ==> p in w'.m.completed
  {
    match st {
      case Pop(t) =>
        var a := w.threads[t].b.sb[0];
        if a.kind == Clflush {
          FlushLeaves(w.m, a, w'.m);
        }
      case FlushFront(t) =>
        FlushLeaves(w.m, w.threads[t].b.fb[0], w'.m);
      case _ =>
    }
  }

  /** The process that is to fall has not completed. */
  lemma {:induction false} NotCompletedBefore(ws: seq<World>, ss: seq<Step>, k: Pid, i: nat)
    requires Segment(ws, ss) && i <= |ss| && k !in ws[|ss|].m.completed
    ensures k !in ws[i].m.completed
    decreases |ss| - i
  {
    hide Runs.Next;
    if i < |ss| {
      NotCompletedBefore(ws, ss, k, i + 1);
      SameConfig(ws[i], ss[i], ws[i + 1]);
    }
  }

  /** In this stretch of a run nobody crashes, and at most `k` has before. */
  ghost predicate Peaceful(ws: seq<World>, ss: seq<Step>, k: Pid) {
    && Segment(ws, ss) && CrashesOnly(ws[0].m, k)
    && (forall i :: 0 <= i <= |ss| ==> ws[i].m.crashes == ws[0].m.crashes)
    && (k in ws[0].m.crashes || (1 < ws[0].m.cfg.processes && k !in ws[|ss|].m.completed))
  }

  ghost predicate Realizes(ws: seq<World>, ss: seq<Step>, vs: seq<World>, ts: seq<Step>, k: Pid, cut: LineCuts) {
    && ws != [] && Segment(vs, ts) && vs[0] == ws[0] && SameMoves(ss, ts)
    && AdmitsAll(vs[|ts|].m, k, cut) && CrashesOnly(vs[|ts|].m, k)
  }

  /** Whatever was done in a stretch of a run without a crash can be done so that exactly
      the given cuts of `k` are left possible, if no flush came after them; and then every load
      returns what the cuts say. */
  lemma {:induction false} EveryCutHappens(ws: seq<World>, ss: seq<Step>, k: Pid, cut: LineCuts)
      returns (vs: seq<World>, ts: seq<Step>)
    requires Peaceful(ws, ss, k) && Sound(ws[0]) && ws[0].m.cfg.backtrack && AdmitsAll(ws[0].m, k, cut)
    requires forall i :: 0 <= i < |ss| ==> FlushBelow(ws[i], ss[i], cut)
    ensures Realizes(ws, ss, vs, ts, k, cut)
    ensures forall i :: 0 <= i < |ts| ==> SafeStep(vs[i], ts[i]) && Explained(vs[i], ts[i], k, cut)
  {
    hide Runs.Next, AdmitsAll, Sound, SafeStep, Explained, SameMove, FlushBelow;
    vs, ts := [ws[0]], [];
    if k !in ws[0].m.crashes {
      NotCompletedBefore(ws, ss, k, 0);
    }
    FollowingStarts(ws[0], k, cut);
    for n := 0 to |ss|
      invariant |ts| == n && |vs| == n + 1 && vs[0] == ws[0]
      invariant forall i :: 0 <= i < n ==> Runs.Next(vs[i], ts[i], vs[i + 1]) && SameMove(ss[i], ts[i])
      invariant forall i :: 0 <= i < n ==> SafeStep(vs[i], ts[i]) && Explained(vs[i], ts[i], k, cut)
      invariant Following(ws[n], vs[n], k, cut)
    {
      if k !in ws[0].m.crashes {
        NotCompletedBefore(ws, ss, k, n + 1);
      }
      var st, v := Follow(ws[n], ss[n], ws[n + 1], vs[n], k, cut);
      vs, ts := vs + [v], ts + [st];
    }
  }

  lemma FollowingStarts(w: World, k: Pid, cut: LineCuts)
    requires Sound(w) && AdmitsAll(w.m, k, cut) && CrashesOnly(w.m, k)
    requires w.m.cfg.backtrack && (k in w.m.crashes || MayFall(w.m, k))
    ensures Following(w, w, k, cut)
  {
  }

  // ----- and in only one way -----

  lemma FlushUnique(m: Mem, f: Action, a: Mem, b: Mem, k: Pid)
    requires HasLeaf(FlushTree(m, f), a) && HasLeaf(FlushTree(m, f), b)
    requires CrashesOnly(a, k) && CrashesOnly(b, k) && (k in a.crashes <==> k in b.crashes)
    ensures a == b
  {
    FlushLeaves(m, f, a);
    FlushLeaves(m, f, b);
    var stores := StoreList(m, f.loc);
    CandidateLive(m, stores, |stores|, LeastBegin(m.cl, m.cfg.processes, Line(f.loc), FlushTime(m, f)));
    assert forall p :: p in CrashNow(Flushed(m, f), p).crashes;
  }

  lemma LoadUnique(w: World, st: Step, a: World, st': Step, b: World, k: Pid, cut: LineCuts)
    requires Sound(w) && w.m.cfg.backtrack && AdmitsAll(w.m, k, cut) && CrashesOnly(w.m, k)
    requires st.LoadStep? && Runs.Next(w, st, a) && Runs.Next(w, st', b) && SameMove(st, st')
    requires AdmitsAll(a.m, k, cut) && AdmitsAll(b.m, k, cut)
    requires CrashesOnly(a.m, k) && CrashesOnly(b.m, k) && (k in a.m.crashes <==> k in b.m.crashes)
    ensures st' == st && a == b
  {
    var LoadStep(t, read, memory, end) := st;
    var m := LoadMem(w, read, memory);
    var x, s := ContextFor(m, read), LoadStart(w, t, read, memory);
    LoadContext(w, t, read, memory);
    var line := Line(read.loc);
    assert Admits(GetLine(w.m.cl, Key(k, line)), cut(line));
    assert Admits(GetLine(a.m.cl, Key(k, line)), cut(line));
    assert Admits(GetLine(b.m.cl, Key(k, line)), cut(line));
    OneLoadFor(x, s, end, st'.end, k, cut(line));
  }

  lemma StepUnique(w: World, st: Step, a: World, st': Step, b: World, k: Pid, cut: LineCuts)
    requires Sound(w) && w.m.cfg.backtrack && AdmitsAll(w.m, k, cut) && CrashesOnly(w.m, k)
    requires Runs.Next(w, st, a) && Runs.Next(w, st', b) && SameMove(st, st')
    requires AdmitsAll(a.m, k, cut) && AdmitsAll(b.m, k, cut)
    requires CrashesOnly(a.m, k) && CrashesOnly(b.m, k) && (k in a.m.crashes <==> k in b.m.crashes)
    requires a.threads == b.threads
    ensures st' == st && a == b
  {
    hide AdmitsAll, Sound, EnsureInitial, Line;
    match st {
      case Pop(t) =>
        var f := w.threads[t].b.sb[0];
        if f.kind == Clflush {
          FlushUnique(w.m, f, a.m, b.m, k);
        }
      case FlushFront(t) =>
        FlushUnique(w.m, w.threads[t].b.fb[0], a.m, b.m, k);
      case LoadStep(_, _, _, _) =>
        LoadUnique(w, st, a, st', b, k, cut);
      case _ =>
    }
  }

  /** The same at the same times: who has crashed, and what the buffers hold. */
  ghost predicate InStep(ws: seq<World>, vs: seq<World>, k: Pid) {
    |vs| == |ws| && forall i :: 0 <= i < |ws| ==>
      ws[i].threads == vs[i].threads && (k in ws[i].m.crashes <==> k in vs[i].m.crashes)
  }

  lemma SoundStep(ws: seq<World>, ss: seq<Step>, k: Pid, cut: LineCuts, i: nat)
    requires Segment(ws, ss) && i < |ss| && Sound(ws[i]) && AdmitsAll(ws[|ss|].m, k, cut) && CrashesOnly(ws[|ss|].m, k)
    ensures Sound(ws[i + 1]) && SafeStep(ws[i], ss[i])
    ensures AdmitsAll(ws[i].m, k, cut) && CrashesOnly(ws[i].m, k)
    ensures AdmitsAll(ws[i + 1].m, k, cut) && CrashesOnly(ws[i + 1].m, k)
  {
    hide Runs.Next, AdmitsAll, Sound, SafeStep;
    AdmittedBefore(ws, ss, k, cut, i);
    AdmittedBefore(ws, ss, k, cut, i + 1);
    StepSound(ws[i], ss[i], ws[i + 1], k, cut);
  }

  lemma ConfigKept(ws: seq<World>, ss: seq<Step>, i: nat)
    requires Segment(ws, ss) && i <= |ss|
    ensures ws[i].m.cfg == ws[0].m.cfg
  {
    hide Runs.Next;
    if i > 0 {
      ConfigKept(ws, ss, i - 1);
      SameConfig(ws[i - 1], ss[i - 1], ws[i]);
    }
  }

  /** Two runs with the same steps that leave the same cuts possible are the same run, if they
      crash `k` at the same time. */
  lemma {:induction false} OneRunPerCut(ws: seq<World>, ss: seq<Step>, vs: seq<World>, ts: seq<Step>, k: Pid,
      cut: LineCuts)
    requires Realizes(ws, ss, ws, ss, k, cut) && Realizes(ws, ss, vs, ts, k, cut)
    requires Sound(ws[0]) && ws[0].m.cfg.backtrack && InStep(ws, vs, k)
    ensures ts == ss && vs == ws
  {
    hide Runs.Next, AdmitsAll, Sound, SameMove;
    for n := 0 to |ss|
      invariant forall i :: 0 <= i < n ==> ts[i] == ss[i]
      invariant forall i :: 0 <= i <= n ==> vs[i] == ws[i]
      invariant Sound(ws[n])
    {
      SoundStep(ws, ss, k, cut, n);
      SoundStep(vs, ts, k, cut, n);
      ConfigKept(ws, ss, n);
      StepUnique(ws[n], ss[n], ws[n + 1], ts[n], vs[n + 1], k, cut);
    }
  }

  // ----- after the crash -----

  lemma NextCrashesKept(x: Context, n: nat, s: LoadState, s1: LoadState)
    requires 0 < n <= |x.stores| && CrashLoads.Next(x, n, s, s1) && |s.crashes| >= MAX_CRASHES
    ensures s1.crashes == s.crashes
  {
    hide Fill;
  }

  lemma {:induction false} ReachCrashesKept(x: Context, n: nat, s: LoadState, s': LoadState)
    requires n <= |x.stores| && Reach(x, n, s, s') && |s.crashes| >= MAX_CRASHES
    ensures s'.crashes == s.crashes
  {
    if n > 0 && !Full(s.rf) {
      var s1 := NextOf(x, n, s, s');
      NextCrashesKept(x, n, s, s1);
      ReachCrashesKept(x, n - 1, s1, s');
    }
  }

  lemma FlushAfterCrash(m: Mem, f: Action, a: Mem)
    requires HasLeaf(FlushTree(m, f), a) && |m.crashes| >= MAX_CRASHES
    ensures a == Flushed(m, f)
  {
    FlushLeaves(m, f, a);
  }

  /** Once as many processes have crashed as may, nobody else does. */
  lemma NoMoreCrashes(w: World, st: Step, w': World)
    requires Runs.Next(w, st, w') && |w.m.crashes| >= MAX_CRASHES
    ensures w'.m.crashes == w.m.crashes
  {
    hide Line;
    match st {
      case Pop(t) =>
        var f := w.threads[t].b.sb[0];
        if f.kind == Clflush {
          FlushAfterCrash(w.m, f, w'.m);
        }
      case FlushFront(t) =>
        FlushAfterCrash(w.m, w.threads[t].b.fb[0], w'.m);
      case LoadStep(t, read, memory, end) =>
        var x, s := ContextFor(LoadMem(w, read, memory), read), LoadStart(w, t, read, memory);
        LeafReach(x, |x.stores|, s, end);
        ReachCrashesKept(x, |x.stores|, s, end);
      case _ =>
    }
  }

  lemma {:induction false} CrashesSettled(ws: seq<World>, ss: seq<Step>, i: nat)
    requires Segment(ws, ss) && i <= |ss| && |ws[0].m.crashes| >= MAX_CRASHES
    ensures ws[i].m.crashes == ws[0].m.crashes
  {
    hide Runs.Next;
    if i > 0 {
      CrashesSettled(ws, ss, i - 1);
      NoMoreCrashes(ws[i - 1], ss[i - 1], ws[i]);
    }
  }

  lemma CrashedPop(w: World, t: Tid, a: World, v: World, b: World)
    requires |w.m.crashes| >= MAX_CRASHES && |v.m.crashes| >= MAX_CRASHES && Alike(w, v)
    requires Runs.Next(w, Pop(t), a) && Runs.Next(v, Pop(t), b)
    ensures Alike(a, b)
  {
    hide Line, HasLeaf, FlushTree, RaiseBegins, OptEffect;
    var f := w.threads[t].b.sb[0];
    if f.kind == Clflush {
      FlushAfterCrash(w.m, f, a.m);
      FlushAfterCrash(v.m, f, b.m);
    }
    assert a.threads[t] == b.threads[t];
  }

  /** After the crash only loads have a choice: other steps do the same whatever was decided. */
  lemma CrashedStep(w: World, st: Step, a: World, v: World, st': Step, b: World)
    requires |w.m.crashes| >= MAX_CRASHES && |v.m.crashes| >= MAX_CRASHES && Alike(w, v)
    requires Runs.Next(w, st, a) && Runs.Next(v, st', b) && SameMove(st, st')
    ensures Alike(a, b)
  {
    hide Line, HasLeaf, FlushTree, EnsureInitial, RaiseBegins, OptEffect;
    match st {
      case Pop(t) =>
        CrashedPop(w, t, a, v, b);
      case FlushFront(t) =>
        FlushAfterCrash(w.m, w.threads[t].b.fb[0], a.m);
        FlushAfterCrash(v.m, w.threads[t].b.fb[0], b.m);
        assert a.threads[t] == b.threads[t];
      case CutShort(t) =>
        assert a.threads[t] == b.threads[t];
      case Issue(t, f, memory) =>
        EnsureAlike(w.m, v.m, f, memory);
        assert a.threads[t] == b.threads[t];
      case Touch(_, f, memory) =>
        EnsureAlike(w.m, v.m, f, memory);
      case Fence(t) =>
        assert a.threads[t] == b.threads[t];
      case LoadStep(_, read, memory, _) =>
        EnsureAlike(w.m, v.m, read, memory);
      case _ =>
    }
  }

  lemma {:induction false} AlikeAllAlong(ws: seq<World>, ss: seq<Step>, vs: seq<World>, ts: seq<Step>, i: nat)
    requires Segment(ws, ss) && Segment(vs, ts) && SameMoves(ss, ts) && vs[0] == ws[0] && i <= |ss|
    requires |ws[0].m.crashes| >= MAX_CRASHES
    ensures Alike(ws[i], vs[i]) && vs[i].m.crashes == ws[i].m.crashes == ws[0].m.crashes
  {
    hide Runs.Next, SameMove, Alike;
    CrashesSettled(ws, ss, i);
    CrashesSettled(vs, ts, i);
    if i == 0 {
      AlikeSelf(ws[0]);
    } else {
      AlikeAllAlong(ws, ss, vs, ts, i - 1);
      CrashedStep(ws[i - 1], ss[i - 1], ws[i], vs[i - 1], ts[i - 1], vs[i]);
    }
  }

  lemma AlikeSelf(w: World)
    ensures Alike(w, w)
  {
  }

  /** After the crash of `k` the run that leaves given cuts possible is unique. */
  lemma OneRunAfterCrash(ws: seq<World>, ss: seq<Step>, vs: seq<World>, ts: seq<Step>, k: Pid, cut: LineCuts)
    requires Realizes(ws, ss, ws, ss, k, cut) && Realizes(ws, ss, vs, ts, k, cut)
    requires Sound(ws[0]) && ws[0].m.cfg.backtrack && k in ws[0].m.crashes
    ensures ts == ss && vs == ws
  {
    hide Runs.Next, AdmitsAll, SameMove;
    AtLeastOne(ws[0].m.crashes, k);
    forall i | 0 <= i < |ws| ensures ws[i].threads == vs[i].threads
        && (k in ws[i].m.crashes <==> k in vs[i].m.crashes) {
      AlikeAllAlong(ws, ss, vs, ts, i);
    }
    OneRunPerCut(ws, ss, vs, ts, k, cut);
  }

  /** A run that leaves the cuts possible has no flush after its cut. */
  lemma FlushesBelow(w: World, st: Step, w': World, k: Pid, cut: LineCuts)
    requires Runs.Next(w, st, w') && AdmitsAll(w'.m, k, cut) && 0 <= k < w.m.cfg.processes
    ensures FlushBelow(w, st, cut)
  {
    match st {
      case Pop(t) =>
        var f := w.threads[t].b.sb[0];
        if f.kind == Clflush {
          AdmitsAfterFlush(w.m, f, k, cut, w'.m);
        }
      case FlushFront(t) =>
        AdmitsAfterFlush(w.m, w.threads[t].b.fb[0], k, cut, w'.m);
      case _ =>
    }
  }

  lemma BelowAlike(w: World, st: Step, v: World, st': Step, cut: LineCuts)
    requires Alike(w, v) && SameMove(st, st') && FlushBelow(v, st', cut)
    ensures FlushBelow(w, st, cut)
  {
  }

  lemma RealizedBelow(ws: seq<World>, ss: seq<Step>, vs: seq<World>, ts: seq<Step>, k: Pid, cut: LineCuts, i: nat)
    requires Segment(ws, ss) && Realizes(ws, ss, vs, ts, k, cut) && i < |ss|
    requires k in ws[0].m.crashes && 0 <= k < ws[0].m.cfg.processes
    ensures FlushBelow(ws[i], ss[i], cut)
  {
    hide Runs.Next, AdmitsAll, Alike, SameMove, FlushBelow;
    AtLeastOne(ws[0].m.crashes, k);
    AlikeAllAlong(ws, ss, vs, ts, i);
    AdmittedBefore(vs, ts, k, cut, i + 1);
    ConfigKept(vs, ts, i);
    FlushesBelow(vs[i], ts[i], vs[i + 1], k, cut);
    BelowAlike(ws[i], ss[i], vs[i], ts[i], cut);
  }

  lemma AtLeastOne(m: map<Pid, Clock>, k: Pid)
    requires k in m
    ensures |m| >= MAX_CRASHES
  {
    assert m != map[];
  }

  lemma CrashedPeaceful(ws: seq<World>, ss: seq<Step>, k: Pid)
    requires Segment(ws, ss) && Sound(ws[0]) && k in ws[0].m.crashes
    ensures Peaceful(ws, ss, k)
  {
    hide Runs.Next, BuffersInv;
    AtLeastOne(ws[0].m.crashes, k);
    forall i | 0 <= i <= |ss| ensures ws[i].m.crashes == ws[0].m.crashes {
      CrashesSettled(ws, ss, i);
    }
    SingleCrash(StartOf(ws[0].m, []), k);
    assert OnlyCrashed(StartOf(ws[0].m, []), k);
  }

  /** After the crash of `k`, whatever the threads do: cuts can be left possible if and only if
      they were possible at the start and no flush comes after them; `OneRunAfterCrash` says
      that it is then so in exactly one way. */
  lemma ExactAfterCrash(ws: seq<World>, ss: seq<Step>, k: Pid, cut: LineCuts)
    requires Segment(ws, ss) && Sound(ws[0]) && ws[0].m.cfg.backtrack
    requires k in ws[0].m.crashes && 0 <= k < ws[0].m.cfg.processes
    ensures (exists vs, ts :: Realizes(ws, ss, vs, ts, k, cut))
       <==> AdmitsAll(ws[0].m, k, cut) && forall i :: 0 <= i < |ss| ==> FlushBelow(ws[i], ss[i], cut)
  {
    hide Runs.Next, AdmitsAll, Sound, FlushBelow, SafeStep, Explained, SameMove;
    if AdmitsAll(ws[0].m, k, cut) && forall i :: 0 <= i < |ss| ==> FlushBelow(ws[i], ss[i], cut) {
      CrashedPeaceful(ws, ss, k);
      var vs, ts := EveryCutHappens(ws, ss, k, cut);
    }
    if vs, ts :| Realizes(ws, ss, vs, ts, k, cut) {
      AdmittedBefore(vs, ts, k, cut, 0);
      forall i | 0 <= i < |ss| ensures FlushBelow(ws[i], ss[i], cut) {
        RealizedBelow(ws, ss, vs, ts, k, cut, i);
      }
    }
  }

  /** From the start: every run without a crash can be had with any cuts of any process that
      does not complete, if no flush comes after them. */
  lemma EveryCutFromStart(ws: seq<World>, ss: seq<Step>, k: Pid, cut: LineCuts) returns (vs: seq<World>, ts: seq<Step>)
    requires IsRun(ws, ss) && (forall i :: 0 <= i < |ws| ==> ws[i].m.crashes == map[])
    requires ws[0].m.cfg.backtrack && 1 < ws[0].m.cfg.processes && k !in ws[|ss|].m.completed
    requires forall i :: 0 <= i < |ss| ==> FlushBelow(ws[i], ss[i], cut)
    ensures IsSafeRun(vs, ts) && Realizes(ws, ss, vs, ts, k, cut)
    ensures forall i :: 0 <= i < |ts| ==> Explained(vs[i], ts[i], k, cut)
  {
    hide Runs.Next, FlushBelow, SafeStep, Explained, SameMove;
    StartSound(ws[0], k, cut);
    vs, ts := EveryCutHappens(ws, ss, k, cut);
  }

  lemma StartSound(w: World, k: Pid, cut: LineCuts)
    requires Init(w)
    ensures Sound(w) && AdmitsAll(w.m, k, cut)
  {
  }
}
