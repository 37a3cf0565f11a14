/**
 A flush does not look at what loads have already found lost. If a line is flushed
 after a store of a crashed process on it was found lost, the store comes back, and no
 cut explains the loads before and after.
 */
module FlushAfterLoss {
  import opened DecisionTree
  import opened Actions
  import opened ReadAssembly
  import opened CrashLoads
  import opened LoadTheorems
  import opened MemoryState
  import opened Runs
  import Memory

  /** After an unsafe flush of the line no cut is left for the crashed process, and the next
      load takes its lost stores up to the time of the flush for persisted. */
  lemma UnsafeFlushRevives(m: Mem, a: Action, k: Pid, w: Action)
    requires RangesInv(m) && 0 <= k < m.cfg.processes
    requires var r := GetLine(m.cl, Key(k, Line(a.loc))); r.end != 0 && r.end <= w.seqNum <= FlushTime(m, a)
    ensures var r, r' := GetLine(m.cl, Key(k, Line(a.loc))), GetLine(Flushed(m, a).cl, Key(k, Line(a.loc)));
            && (forall c :: Admits(r, c) ==> w.seqNum > c)
            && (forall c :: !Admits(r', c))
            && w.seqNum <= r'.begin
  {
    FlushedRange(m, a, Key(k, Line(a.loc)));
    assert NonEmpty(GetLine(m.cl, Key(k, Line(a.loc))));
  }

  // ----- steps that can be taken -----

  function Issued(w: World, t: Tid, a: Action): World
    requires t < |w.threads|
  {
    var th := w.threads[t];
    World(
      if IsWrite(a.kind) then EnsureInitial(w.m, a, 0) else w.m,
      w.threads[t := th.(b := th.b.(sb := th.b.sb + [a]), issued := th.issued + [a])],
      w.order)
  }

  function Popped(w: World, t: Tid, c: Machine): World
    requires t < |w.threads| && w.threads[t].b.sb != []
  {
    var e := EventOf(MachineOf(w, t));
    World(c.m, w.threads[t := w.threads[t].(b := c.b, done := w.threads[t].done + [e])],
          if e.Evicted? then w.order + [e.a] else w.order)
  }

  /** The machine after the oldest entry of its store buffer, a store or a flush that crashes
      nobody, took effect. */
  function Advanced(c: Machine): Machine
    requires c.b.sb != []
  {
    var a := c.b.sb[0];
    Machine(if IsWrite(a.kind) then EvictStore(c.m, a) else Flushed(c.m, a),
            c.b.(sb := c.b.sb[1..], last := c.b.last[Line(a.loc) := c.m.next]))
  }

  lemma IssueHappens(w: World, t: Tid, a: Action)
    requires t < |w.threads|
    requires Memory.Bufferable(a) && a.tid == t && a.pid == w.threads[t].pid && a.seqNum == 0 && a.effect == 0
    ensures Runs.Next(w, Issue(t, a, 0), Issued(w, t, a))
  {
  }

  lemma PopHappens(w: World, t: Tid, c: Machine)
    requires t < |w.threads| && w.threads[t].b.sb != [] && Pops(MachineOf(w, t), c)
    ensures Runs.Next(w, Pop(t), Popped(w, t, c))
  {
    assert MachineOf(Popped(w, t, c), t) == c;
  }

  // ----- a run in which it happens -----

  function Store(value: nat): Action {
    Action(1, 1, NonAtomicStore, 0, 8, value, 0, 0)
  }

  const READ: Action := Action(0, 0, Kind.Load, 0, 8, 0, 0, 0)

  const FLUSH: Action := Action(0, 0, Clflush, 0, 8, 0, 0, 0)

  const OLDER: Action := Store(5)

  const NEWER: Action := Store(7).(seqNum := 1)

  const LIST: seq<Action> := [Action(1, 1, AtomicInit, 0, 8, 0, 0, 0), OLDER, NEWER]

  function Sources8(w: Action): (r: Sources)
    ensures |r| == 8 && forall i :: 0 <= i < 8 ==> r[i] == Some(w)
  {
    seq(8, _ => Some(w))
  }

  function Idle(): Buffers {
    Buffers([], [], 0, map[])
  }

  /** The first load of process 0 crashes process 1 and finds the newer store lost. */
  function FirstEnd(): LoadState {
    LoadState(Sources8(OLDER), map[1 := 2], map[Key(1, 0) := Range(0, 1)])
  }

  /** The second load, after a flush of the line, finds it persisted. */
  function SecondEnd(): LoadState {
    LoadState(Sources8(NEWER), map[1 := 2], RaiseBegins(FirstEnd().cl, 2, 0, 2))
  }

  /** Process 1 stores 5 and then 7, both stores are evicted, process 0 loads, flushes the
      line and loads again. */
  const STEPS: seq<Step> := [
    Issue(1, Store(5), 0), Pop(1), Issue(1, Store(7), 0), Pop(1),
    LoadStep(0, READ, 0, FirstEnd()), Issue(0, FLUSH, 0), Pop(0), LoadStep(0, READ, 0, SecondEnd()) ]

  // ----- its memory and buffers, step by step -----

  function Mem2(skip: bool): Mem {
    Mem(Config(2, true, skip), map[0 := [LIST[0], LIST[1]]], map[], map[], {}, 1)
  }

  function Mem4(skip: bool): Mem {
    Mem(Config(2, true, skip), map[0 := LIST], map[], map[], {}, 2)
  }

  function Mem5(skip: bool): Mem {
    AfterLoad(Mem4(skip), FirstEnd())
  }

  function Mem7(skip: bool): Mem {
    Mem5(skip).(cl := SecondEnd().cl, next := 3)
  }

  /** Two threads, of which the other one than `t` has nothing buffered. */
  predicate Calm(w: World, t: Tid) {
    && |w.threads| == 2
    && w.threads[0].pid == 0 && w.threads[1].pid == 1
    && t < 2 && w.threads[1 - t].b.sb == []
  }

  predicate Quiet(w: World) {
    Calm(w, 0) && Calm(w, 1)
  }

  /** A store or flush of thread `t` is issued and takes effect. */
  lemma IssueAndPop(w: World, t: Tid, a: Action, m1: Mem, m2: Mem) returns (w1: World, w2: World)
    requires Quiet(w) && t < 2 && a.kind in {NonAtomicStore, Clflush}
    requires Memory.Bufferable(a) && a.tid == t && a.pid == w.threads[t].pid && a.seqNum == 0 && a.effect == 0
    requires m1 == if IsWrite(a.kind) then EnsureInitial(w.m, a, 0) else w.m
    requires if IsWrite(a.kind) then m2 == EvictStore(m1, a) else m2 == Flushed(m1, a) && HasLeaf(FlushTree(m1, a), m2)
    ensures Runs.Next(w, Issue(t, a, 0), w1) && Runs.Next(w1, Pop(t), w2)
    ensures Calm(w1, t) && w1.threads[t].b.sb == [a] && w1.m == m1
    ensures Quiet(w2) && w2.m == m2
  {
    w1 := Issued(w, t, a);
    IssueHappens(w, t, a);
    assert [] + [a] == [a];
    var c := MachineOf(w1, t);
    assert Pops(c, Advanced(c));
    w2 := Popped(w1, t, Advanced(c));
    PopHappens(w1, t, Advanced(c));
  }

  function Mem0(skip: bool): Mem {
    Mem(Config(2, true, skip), map[], map[], map[], {}, 0)
  }

  function Initial(skip: bool): (w: World)
    ensures Init(w) && Quiet(w) && w.m == Mem0(skip)
  {
    World(Mem0(skip), [Thread(0, Idle(), [], []), Thread(1, Idle(), [], [])], [])
  }

  lemma TwoStores(skip: bool) returns (w0: World, w1: World, w2: World, w3: World, w4: World)
    ensures Init(w0)
    ensures Runs.Next(w0, STEPS[0], w1) && Runs.Next(w1, STEPS[1], w2)
    ensures Runs.Next(w2, STEPS[2], w3) && Runs.Next(w3, STEPS[3], w4)
    ensures Quiet(w4) && w4.m == Mem4(skip)
  {
    hide Runs.Next;
    w0 := Initial(skip);
    StoredOnce(skip);
    hide Initial, EnsureInitial, EvictStore, Mem0, Mem2, Mem4, FlushTree, Flushed;
    w1, w2 := IssueAndPop(w0, 1, Store(5), EnsureInitial(Mem0(skip), Store(5), 0), Mem2(skip));
    StoredTwice(skip);
    w3, w4 := IssueAndPop(w2, 1, Store(7), Mem2(skip), Mem4(skip));
  }

  lemma StoredOnce(skip: bool)
    ensures EvictStore(EnsureInitial(Mem0(skip), Store(5), 0), Store(5)) == Mem2(skip)
  {
    assert EnsureInitial(Mem0(skip), Store(5), 0).lists == map[0 := [LIST[0]]];
    assert [LIST[0]] + [OLDER] == [LIST[0], LIST[1]];
  }

  lemma StoredTwice(skip: bool)
    ensures EnsureInitial(Mem2(skip), Store(7), 0) == Mem2(skip)
    ensures EvictStore(Mem2(skip), Store(7)) == Mem4(skip)
  {
    assert [LIST[0], LIST[1]] + [NEWER] == LIST;
  }

  lemma FillsAll(w: Action)
    requires w.loc == 0 && w.size == 8
    ensures Fill(w, READ, NoSources(8)) == Sources8(w)
    ensures Fill(w, READ, NoSources(8)) != NoSources(8)
    ensures Full(Sources8(w)) && !Full(NoSources(8))
  {
    assert Fill(w, READ, NoSources(8))[0] == Some(w);
    assert NoSources(8)[0] == None;
  }

  function Reading(m: Mem): Context {
    ContextFor(m, READ)
  }

  function Empty(m: Mem): LoadState {
    StartOf(m, NoSources(8))
  }

  lemma FirstLoad(skip: bool)
    ensures Ends(Reading(Mem4(skip)), Empty(Mem4(skip)), FirstEnd())
  {
    var x, s := Reading(Mem4(skip)), Empty(Mem4(skip));
    assert x.stores == LIST;
    FillsAll(NEWER);
    FillsAll(OLDER);
    var crashed := Crash(x, s, 1);
    var lost := Lost(x, crashed, NEWER);
    assert Walk(x, 2, lost) == Leaf(FirstEnd()) by {
      assert lost.(rf := Sources8(OLDER)) == FirstEnd();
      assert WalkCrashed(x, 2, lost) == Walk(x, 1, FirstEnd());
    }
    assert WalkCrashed(x, 3, crashed) == Node([Walk(x, 2, lost), Walk(x, 2, Persisted(x, crashed, NEWER))]);
    HasLeafBinary(Walk(x, 2, lost), Walk(x, 2, Persisted(x, crashed, NEWER)), FirstEnd());
    assert Walk(x, 3, s) == Node([WalkCrashed(x, 3, crashed), Walk(x, 2, ReadLive(x, s, NEWER))]);
    HasLeafBinary(WalkCrashed(x, 3, crashed), Walk(x, 2, ReadLive(x, s, NEWER)), FirstEnd());
  }

  lemma FlushStep(skip: bool)
    ensures HasLeaf(FlushTree(Mem5(skip), FLUSH), Mem7(skip)) && Flushed(Mem5(skip), FLUSH) == Mem7(skip)
    ensures !SafeFlush(Mem5(skip), FLUSH)
  {
    var m := Mem5(skip);
    assert !MayCrash(m);
    assert GetLine(m.cl, Key(1, Line(FLUSH.loc))) == Range(0, 1);
  }

  lemma SecondLoad(skip: bool)
    ensures Ends(Reading(Mem7(skip)), Empty(Mem7(skip)), SecondEnd())
  {
    var x, s := Reading(Mem7(skip)), Empty(Mem7(skip));
    assert x.stores == LIST;
    RaiseEffect(FirstEnd().cl, 2, 0, 2, Key(1, 0));
    FillsAll(NEWER);
    assert s.(rf := Sources8(NEWER)) == SecondEnd();
    assert WalkCrashed(x, 3, s) == Walk(x, 2, SecondEnd());
    assert Walk(x, 2, SecondEnd()) == Leaf(SecondEnd());
  }

  lemma LoadHappens(w: World, end: LoadState) returns (w': World)
    requires Quiet(w) && StoreList(w.m, 0) != []
    requires Ends(Reading(w.m), Empty(w.m), end)
    ensures Runs.Next(w, LoadStep(0, READ, 0, end), w')
    ensures Quiet(w') && w'.m == AfterLoad(w.m, end)
  {
    assert StoreList(w.m, READ.loc) != [];
    assert LoadMem(w, READ, 0) == w.m && LoadStart(w, 0, READ, 0) == Empty(w.m);
    w' := w.(m := AfterLoad(w.m, end));
  }

  lemma LoadFlushLoad(skip: bool, w4: World) returns (w5: World, w6: World, w7: World, w8: World)
    requires Quiet(w4) && w4.m == Mem4(skip)
    ensures Runs.Next(w4, STEPS[4], w5) && Runs.Next(w5, STEPS[5], w6)
    ensures Runs.Next(w6, STEPS[6], w7) && Runs.Next(w7, STEPS[7], w8)
    ensures Calm(w6, 0) && w6.threads[0].b.sb == [FLUSH] && w6.m == Mem5(skip)
    ensures w7.m == Mem7(skip)
  {
    hide RaiseBegins, Ends;
    hide Runs.Next;
    FirstLoad(skip);
    w5 := LoadHappens(w4, FirstEnd());
    FlushStep(skip);
    w6, w7 := IssueAndPop(w5, 0, FLUSH, Mem5(skip), Mem7(skip));
    SecondLoad(skip);
    w8 := LoadHappens(w7, SecondEnd());
  }

  lemma StoredBytes()
    ensures ByteAt(NEWER, 0) == 7 && ByteAt(OLDER, 0) == 5
  {
    assert Pow256(0) == 1;
  }

  /** There is a run in which process 0 loads the same slot twice with nobody storing in
      between, first the older value and then the newer one, and no cut of the crashed
      process 1 explains both loads. */
  lemma NoCutExplains(skip: bool) returns (ws: seq<World>)
    ensures IsRun(ws, STEPS) && !IsSafeRun(ws, STEPS)
    ensures var m1, m2 := ws[4].m, ws[7].m;
            && SourcesCover(READ, Empty(m1).rf) && SourcesCover(READ, Empty(m2).rf)
            && forall c :: !(&& Returns(Reading(m1), Empty(m1), FirstEnd(), 1, c)
                             && Returns(Reading(m2), Empty(m2), SecondEnd(), 1, c))
  {
    hide Runs.Next, Mem4, Mem7, Returns, FirstEnd, SecondEnd, Reading, Sources8;
    ws := UnsafeRun(skip);
    forall c ensures !(&& Returns(Reading(ws[4].m), Empty(ws[4].m), FirstEnd(), 1, c)
                       && Returns(Reading(ws[7].m), Empty(ws[7].m), SecondEnd(), 1, c)) {
      NotBoth(skip, c);
    }
  }

  lemma UnsafeRun(skip: bool) returns (ws: seq<World>)
    ensures IsRun(ws, STEPS) && !IsSafeRun(ws, STEPS) && ws[4].m == Mem4(skip) && ws[7].m == Mem7(skip)
  {
    hide Runs.Next, Mem4, Mem5, Mem7, SafeFlush, FlushTree, Flushed, Quiet, Init;
    var w0, w1, w2, w3, w4 := TwoStores(skip);
    var w5, w6, w7, w8 := LoadFlushLoad(skip, w4);
    ws := [w0, w1, w2, w3, w4, w5, w6, w7, w8];
    FlushStep(skip);
    assert !SafeStep(ws[6], STEPS[6]);
  }

  /** What the first byte of such a load says about the cut. */
  lemma FirstByte(x: Context, s: LoadState, end: LoadState, w: Action, c: Clock)
    requires x.read == READ && x.stores == LIST && s.rf == NoSources(8) && end.rf == Sources8(w) && w.loc == 0
    requires Returns(x, s, end, 1, c)
    ensures NewestByte(LIST, 3, 1, c, 0) == Some(ByteAt(w, 0))
  {
    hide NewestByte, ByteAt;
    ReturnsAt(x, s, end, 1, c, 0);
    assert Bytes(x, end)[0] == ByteAt(w, 0);
  }

  lemma NotBoth(skip: bool, c: Clock)
    ensures var m1, m2 := Mem4(skip), Mem7(skip);
            !(Returns(Reading(m1), Empty(m1), FirstEnd(), 1, c) && Returns(Reading(m2), Empty(m2), SecondEnd(), 1, c))
  {
    hide RaiseBegins, NewestByte, Returns, ByteAt;
    var m1, m2 := Mem4(skip), Mem7(skip);
    StoredBytes();
    if Returns(Reading(m1), Empty(m1), FirstEnd(), 1, c) && Returns(Reading(m2), Empty(m2), SecondEnd(), 1, c) {
      FirstByte(Reading(m1), Empty(m1), FirstEnd(), OLDER, c);
      FirstByte(Reading(m2), Empty(m2), SecondEnd(), NEWER, c);
      assert false;
    }
  }
}
