/**
 Whole runs: threads issue stores, flushes and fences into their buffers, the buffers
 drain in any interleaving, loads are carried out and processes crash or complete.
 The fields `issued`, `done` and `order` record history; nothing depends on them.
 */
module Runs {
  import opened DecisionTree
  import opened Actions
  import opened ReadAssembly
  import opened CrashLoads
  import opened LoadTheorems
  import opened MemoryState
  import Memory

  /** What has left a store buffer, or drained it. */
  datatype Event =
    | Evicted(a: Action)
    | FlushDone(a: Action)
    | Delayed(a: Action)
    | SfenceDone(a: Action)
    | SfenceCut(a: Action)
    | Drained

  datatype Thread = Thread(pid: Pid, b: Buffers, issued: seq<Action>, done: seq<Event>)

  datatype World = World(m: Mem, threads: seq<Thread>, order: seq<Action>)

  datatype Step =
    | Issue(t: Tid, a: Action, memory: nat)
    | Pop(t: Tid)
    | FlushFront(t: Tid)
    | CutShort(t: Tid)
    | Fence(t: Tid)
    | Touch(t: Tid, a: Action, memory: nat)
    | LoadStep(t: Tid, read: Action, memory: nat, end: LoadState)
    | Complete(p: Pid)
    | Spawn(p: Pid)

  function ThreadOf(st: Step): Tid {
    match st
    case Issue(t, _, _) => t
    case Pop(t) => t
    case FlushFront(t) => t
    case CutShort(t) => t
    case Fence(t) => t
    case Touch(t, _, _) => t
    case LoadStep(t, _, _, _) => t
    case Complete(_) => 0
    case Spawn(_) => 0
  }

  /** What the front of a store buffer turns into when it is popped. */
  function EventOf(c: Machine): Event
    requires c.b.sb != []
  {
    var a := c.b.sb[0];
    if IsWrite(a.kind) then Evicted(EvictedStore(c.m, a))
    else if a.kind == Clflush then FlushDone(a.(seqNum := c.m.next))
    else if a.kind == ClflushOpt then Delayed(a.(effect := OptEffect(c.b, a)))
    else SfenceDone(a)
  }

  function MachineOf(w: World, t: Tid): Machine
    requires t < |w.threads|
  {
    Machine(w.m, w.threads[t].b)
  }

  predicate OthersKept(w: World, w': World, t: Tid) {
    && t < |w.threads| == |w'.threads|
    && (forall u :: 0 <= u < |w.threads| && u != t ==> w'.threads[u] == w.threads[u])
    && w'.threads[t].pid == w.threads[t].pid
  }

  predicate HistoryKept(w: World, w': World, t: Tid)
    requires t < |w.threads| && t < |w'.threads|
  {
    && w'.threads[t].issued == w.threads[t].issued
    && w'.threads[t].done == w.threads[t].done
    && w'.order == w.order
  }

  predicate Issues(w: World, a: Action, memory: nat, w': World, t: Tid) {
    && OthersKept(w, w', t)
    && Memory.Bufferable(a) && a.tid == t && a.pid == w.threads[t].pid && a.seqNum == 0 && a.effect == 0
    && w'.m == (if IsWrite(a.kind) then EnsureInitial(w.m, a, memory) else w.m)
    && w'.threads[t] == w.threads[t].(
         b := w.threads[t].b.(sb := w.threads[t].b.sb + [a]), issued := w.threads[t].issued + [a])
    && w'.order == w.order
  }

  ghost predicate PopsStep(w: World, w': World, t: Tid) {
    && OthersKept(w, w', t)
    && Pops(MachineOf(w, t), MachineOf(w', t))
    && w'.threads[t].issued == w.threads[t].issued
    && var e := EventOf(MachineOf(w, t));
       && w'.threads[t].done == w.threads[t].done + [e]
       && w'.order == if e.Evicted? then w.order + [e.a] else w.order
  }

  /** The memory in which a load starts, and its state there. */
  function LoadMem(w: World, read: Action, memory: nat): Mem {
    EnsureInitial(w.m, read, memory)
  }

  function LoadStart(w: World, t: Tid, read: Action, memory: nat): LoadState
    requires t < |w.threads|
  {
    var sb := w.threads[t].b.sb;
    StartOf(LoadMem(w, read, memory), Bypass(sb, |sb|, read, NoSources(read.size)))
  }

  ghost predicate Loads(w: World, read: Action, memory: nat, end: LoadState, w': World, t: Tid) {
    && t < |w.threads|
    && Aligned(read) && read.pid == w.threads[t].pid
    && var m := LoadMem(w, read, memory);
       && Ends(ContextFor(m, read), LoadStart(w, t, read, memory), end)
       && w' == w.(m := AfterLoad(m, end))
  }

  ghost predicate Next(w: World, st: Step, w': World) {
    match st
    case Issue(t, a, memory) => Issues(w, a, memory, w', t)
    case Pop(t) => PopsStep(w, w', t)
    case FlushFront(t) =>
      && OthersKept(w, w', t)
      && FlushesOne(MachineOf(w, t), MachineOf(w', t))
      && HistoryKept(w, w', t)
    case CutShort(t) =>
      && OthersKept(w, w', t)
      && Aborts(MachineOf(w, t), MachineOf(w', t))
      && w'.threads[t].issued == w.threads[t].issued && w'.order == w.order
      && w'.threads[t].done == w.threads[t].done + [SfenceCut(w.threads[t].b.sb[0])]
    case Fence(t) =>
      && OthersKept(w, w', t)
      && w.threads[t].b.sb == [] && w.threads[t].b.fb == []
      && w'.m == w.m && w'.order == w.order
      && w'.threads[t] == w.threads[t].(done := w.threads[t].done + [Drained])
    case Touch(t, a, memory) => t < |w.threads| && w' == w.(m := EnsureInitial(w.m, a, memory))
    case LoadStep(t, read, memory, end) => Loads(w, read, memory, end, w', t)
    case Complete(p) => w' == w.(m := w.m.(completed := w.m.completed + {p}))
    case Spawn(p) => w' == w.(threads := w.threads + [Thread(p, Buffers([], [], 0, map[]), [], [])])
  }

  predicate Init(w: World) {
    && w.m.lists == map[] && w.m.cl == map[] && w.m.crashes == map[] && w.m.completed == {} && w.m.next == 0
    && w.order == []
    && forall t :: 0 <= t < |w.threads| ==> w.threads[t] == Thread(w.threads[t].pid, Buffers([], [], 0, map[]), [], [])
  }

  /** A stretch of a run. */
  ghost predicate Segment(ws: seq<World>, ss: seq<Step>) {
    && |ws| == |ss| + 1
    && forall i :: 0 <= i < |ss| ==> Next(ws[i], ss[i], ws[i + 1])
  }

  ghost predicate IsRun(ws: seq<World>, ss: seq<Step>) {
    Segment(ws, ss) && Init(ws[0])
  }

  // ----- lists and buffers -----

  predicate ListsInv(m: Mem) {
    forall slot :: slot in m.lists ==>
      m.lists[slot] != [] && ListOk(m.lists[slot], slot) && Memory.Past(m.lists[slot], m.next)
  }

  predicate BufferInv(m: Mem, b: Buffers) {
    && (forall k :: 0 <= k < |b.sb| ==> Memory.Bufferable(b.sb[k]))
    && (forall k :: 0 <= k < |b.sb| && IsWrite(b.sb[k].kind) ==> Slot(b.sb[k].loc) in m.lists)
    && (forall k :: 0 <= k < |b.fb| ==> b.fb[k].kind == ClflushOpt)
  }

  predicate BuffersInv(w: World) {
    ListsInv(w.m) && forall t :: 0 <= t < |w.threads| ==> BufferInv(w.m, w.threads[t].b)
  }

  lemma SlotOfSlot(a: Address)
    ensures Slot(Slot(a)) == Slot(a)
  {
    assert a == 8 * (a / 8) + a % 8;
  }

  lemma EnsureKeepsLists(m: Mem, a: Action, memory: nat)
    requires ListsInv(m)
    ensures ListsInv(EnsureInitial(m, a, memory)) && Slot(a.loc) in EnsureInitial(m, a, memory).lists
    ensures forall slot :: slot in m.lists ==> slot in EnsureInitial(m, a, memory).lists
  {
    SlotOfSlot(a.loc);
    assert Slot(a.loc) % 8 == 0;
  }

  lemma EvictKeepsLists(m: Mem, a: Action)
    requires ListsInv(m) && Slot(a.loc) in m.lists && Memory.Bufferable(a) && IsWrite(a.kind)
    ensures ListsInv(EvictStore(m, a))
  {
    Memory.AppendOk(m.lists[Slot(a.loc)], Slot(a.loc), EvictedStore(m, a));
  }

  lemma PopKeepsBuffers(c: Machine, c': Machine)
    requires ListsInv(c.m) && BufferInv(c.m, c.b) && Pops(c, c')
    ensures ListsInv(c'.m) && BufferInv(c'.m, c'.b) && forall slot :: slot in c.m.lists ==> slot in c'.m.lists
  {
    var a := c.b.sb[0];
    assert Memory.Bufferable(a);
    if IsWrite(a.kind) {
      EvictKeepsLists(c.m, a);
    } else if a.kind == Clflush {
      FlushLeaves(c.m, a, c'.m);
    }
  }

  lemma FlushKeepsBuffers(c: Machine, c': Machine)
    requires ListsInv(c.m) && BufferInv(c.m, c.b) && FlushesOne(c, c')
    ensures ListsInv(c'.m) && BufferInv(c'.m, c'.b) && c'.m.lists == c.m.lists
  {
    FlushLeaves(c.m, c.b.fb[0], c'.m);
  }

  predicate ListsGrow(m: Mem, m': Mem) {
    forall slot :: slot in m.lists ==> slot in m'.lists
  }

  lemma OneThread(w: World, w': World, t: Tid)
    requires BuffersInv(w) && OthersKept(w, w', t)
    requires ListsGrow(w.m, w'.m) && ListsInv(w'.m) && BufferInv(w'.m, w'.threads[t].b)
    ensures BuffersInv(w')
  {
    forall u | 0 <= u < |w'.threads| ensures BufferInv(w'.m, w'.threads[u].b) {
      assert BufferInv(w.m, w.threads[u].b);
    }
  }

  lemma IssueKeepsBuffers(w: World, a: Action, memory: nat, w': World, t: Tid)
    requires BuffersInv(w) && Issues(w, a, memory, w', t)
    ensures BuffersInv(w')
  {
    assert BufferInv(w.m, w.threads[t].b);
    if IsWrite(a.kind) {
      EnsureKeepsLists(w.m, a, memory);
    }
    OneThread(w, w', t);
  }

  lemma LoadKeepsBuffers(w: World, read: Action, memory: nat, end: LoadState, w': World, t: Tid)
    requires BuffersInv(w) && Loads(w, read, memory, end, w', t)
    ensures BuffersInv(w')
  {
    assert BufferInv(w.m, w.threads[t].b);
    EnsureKeepsLists(w.m, read, memory);
    OneThread(w, w', t);
  }

  lemma BuffersStep(w: World, st: Step, w': World)
    requires BuffersInv(w) && Next(w, st, w')
    ensures BuffersInv(w')
  {
    match st {
      case Issue(t, a, memory) =>
        IssueKeepsBuffers(w, a, memory, w', t);
      case Pop(t) =>
        PopKeepsBuffers(MachineOf(w, t), MachineOf(w', t));
        OneThread(w, w', t);
      case FlushFront(t) =>
        FlushKeepsBuffers(MachineOf(w, t), MachineOf(w', t));
        OneThread(w, w', t);
      case CutShort(t) =>
        assert BufferInv(w.m, w.threads[t].b);
        OneThread(w, w', t);
      case Fence(t) =>
        assert BufferInv(w.m, w.threads[t].b);
        OneThread(w, w', t);
      case LoadStep(t, read, memory, end) =>
        LoadKeepsBuffers(w, read, memory, end, w', t);
      case Touch(t, a, memory) =>
        assert BufferInv(w.m, w.threads[t].b);
        EnsureKeepsLists(w.m, a, memory);
        OneThread(w, w', t);
      case Complete(_) =>
        forall u | 0 <= u < |w'.threads| ensures BufferInv(w'.m, w'.threads[u].b) {
          assert BufferInv(w.m, w.threads[u].b);
        }
      case Spawn(_) =>
        forall u | 0 <= u < |w.threads| ensures BufferInv(w.m, w.threads[u].b) {
        }
    }
  }

  lemma {:induction false} SegmentBuffers(ws: seq<World>, ss: seq<Step>, i: nat)
    requires Segment(ws, ss) && BuffersInv(ws[0]) && i < |ws|
    ensures BuffersInv(ws[i])
  {
    hide BuffersInv, Next;
    if i > 0 {
      SegmentBuffers(ws, ss, i - 1);
      BuffersStep(ws[i - 1], ss[i - 1], ws[i]);
    }
  }

  lemma {:induction false} BuffersHold(ws: seq<World>, ss: seq<Step>, i: nat)
    requires IsRun(ws, ss) && i < |ws|
    ensures BuffersInv(ws[i])
  {
    SegmentBuffers(ws, ss, i);
  }

  // ----- ranges -----

  /** At most one process has crashed, every range is non-empty, and only crashed
      processes have lost anything. */
  ghost predicate RangesInv(m: Mem) {
    && |m.crashes| <= MAX_CRASHES
    && forall key :: NonEmpty(GetLine(m.cl, key)) && (key.pid !in m.crashes ==> GetLine(m.cl, key).end == 0)
  }

  /** The flush does not claim to persist what a load has already found lost. */
  predicate SafeFlush(m: Mem, a: Action) {
    forall p :: 0 <= p < m.cfg.processes ==>
      var r := GetLine(m.cl, Key(p, Line(a.loc)));
      r.end == 0 || FlushTime(m, a) < r.end
  }

  ghost predicate SafeStep(w: World, st: Step) {
    match st
    case Pop(t) =>
      t < |w.threads| && w.threads[t].b.sb != [] && w.threads[t].b.sb[0].kind == Clflush ==>
        SafeFlush(w.m, w.threads[t].b.sb[0])
    case FlushFront(t) =>
      t < |w.threads| && w.threads[t].b.fb != [] ==> SafeFlush(w.m, w.threads[t].b.fb[0])
    case _ => true
  }

  /** In this run no line is flushed past a store of it that was found lost. */
  ghost predicate IsSafeRun(ws: seq<World>, ss: seq<Step>) {
    IsRun(ws, ss) && forall i :: 0 <= i < |ss| ==> SafeStep(ws[i], ss[i])
  }

  lemma FlushedRange(m: Mem, a: Action, key: Key)
    ensures GetLine(Flushed(m, a).cl, key)
         == if key.line == Line(a.loc) && 0 <= key.pid < m.cfg.processes && GetLine(m.cl, key).begin < FlushTime(m, a)
            then Range(FlushTime(m, a), GetLine(m.cl, key).end)
            else GetLine(m.cl, key)
  {
    RaiseEffect(m.cl, m.cfg.processes, Line(a.loc), FlushTime(m, a), key);
  }

  /** A flush keeps the ranges of its line non-empty exactly when it is safe. */
  lemma FlushSafeIff(m: Mem, a: Action)
    requires RangesInv(m)
    ensures (forall key :: NonEmpty(GetLine(Flushed(m, a).cl, key))) <==> SafeFlush(m, a)
  {
    if SafeFlush(m, a) {
      forall key ensures NonEmpty(GetLine(Flushed(m, a).cl, key)) {
        FlushedRange(m, a, key);
        assert NonEmpty(GetLine(m.cl, key));
        if key.line == Line(a.loc) && 0 <= key.pid < m.cfg.processes {
          assert key == Key(key.pid, Line(a.loc));
        }
      }
    } else {
      var p :| 0 <= p < m.cfg.processes
        && var r := GetLine(m.cl, Key(p, Line(a.loc))); !(r.end == 0 || FlushTime(m, a) < r.end);
      FlushedRange(m, a, Key(p, Line(a.loc)));
      assert NonEmpty(GetLine(m.cl, Key(p, Line(a.loc))));
      assert !NonEmpty(GetLine(Flushed(m, a).cl, Key(p, Line(a.loc))));
    }
  }

  lemma FlushKeepsRanges(m: Mem, a: Action, m': Mem)
    requires RangesInv(m) && SafeFlush(m, a) && HasLeaf(FlushTree(m, a), m')
    ensures RangesInv(m')
  {
    FlushLeaves(m, a, m');
    FlushSafeIff(m, a);
    forall key ensures NonEmpty(GetLine(m'.cl, key)) && (key.pid !in m'.crashes ==> GetLine(m'.cl, key).end == 0) {
      FlushedRange(m, a, key);
      assert NonEmpty(GetLine(Flushed(m, a).cl, key));
      assert key.pid !in m.crashes ==> GetLine(m.cl, key).end == 0;
    }
  }

  /** What a load step may rely on. */
  lemma LoadContext(w: World, t: Tid, read: Action, memory: nat)
    requires BuffersInv(w) && RangesInv(w.m) && t < |w.threads| && Aligned(read)
    ensures var x := ContextFor(LoadMem(w, read, memory), read);
            ContextOk(x) && StateOk(x, LoadStart(w, t, read, memory))
  {
    var b := w.threads[t].b;
    assert BufferInv(w.m, b);
    EnsureKeepsLists(w.m, read, memory);
    Memory.BypassCovers(b.sb, |b.sb|, read, NoSources(read.size));
    var x, s := ContextFor(LoadMem(w, read, memory), read), LoadStart(w, t, read, memory);
    forall p ensures NonEmpty(RangeOf(x, s, p)) && (p !in s.crashes ==> RangeOf(x, s, p).end == 0) {
      assert NonEmpty(GetLine(w.m.cl, KeyOf(x, p)));
    }
  }

  /** Ranges only narrow, and a crash is for good. */
  ghost predicate Narrows(m: Mem, m': Mem) {
    && (forall key :: Narrower(GetLine(m'.cl, key), GetLine(m.cl, key)))
    && (forall p :: p in m.crashes ==> p in m'.crashes)
  }

  lemma LoadKeepsRanges(w: World, read: Action, memory: nat, end: LoadState, w': World, t: Tid)
    requires BuffersInv(w) && RangesInv(w.m) && Loads(w, read, memory, end, w', t)
    ensures RangesInv(w'.m) && Narrows(w.m, w'.m)
  {
    LoadContext(w, t, read, memory);
    var x, s := ContextFor(LoadMem(w, read, memory), read), LoadStart(w, t, read, memory);
    LoadNarrows(x, s, end);
    forall key
      ensures NonEmpty(GetLine(end.cl, key)) && (key.pid !in end.crashes ==> GetLine(end.cl, key).end == 0)
      ensures Narrower(GetLine(end.cl, key), GetLine(w.m.cl, key))
    {
      assert NonEmpty(GetLine(w.m.cl, key));
      if key.line == Line(read.loc) {
        assert key == KeyOf(x, key.pid);
        assert NonEmpty(RangeOf(x, end, key.pid)) && Narrower(RangeOf(x, end, key.pid), RangeOf(x, s, key.pid));
      } else {
        assert key.pid in w.m.crashes ==> key.pid in end.crashes;
      }
    }
  }

  lemma FlushNarrows(m: Mem, a: Action, m': Mem)
    requires HasLeaf(FlushTree(m, a), m')
    ensures Narrows(m, m')
  {
    FlushLeaves(m, a, m');
    forall key ensures Narrower(GetLine(m'.cl, key), GetLine(m.cl, key)) {
      FlushedRange(m, a, key);
    }
  }

  lemma RangesStep(w: World, st: Step, w': World)
    requires BuffersInv(w) && RangesInv(w.m) && Next(w, st, w') && SafeStep(w, st)
    ensures RangesInv(w'.m) && Narrows(w.m, w'.m)
  {
    match st {
      case Pop(t) =>
        var a := w.threads[t].b.sb[0];
        if !IsWrite(a.kind) && a.kind == Clflush {
          FlushKeepsRanges(w.m, a, w'.m);
          FlushNarrows(w.m, a, w'.m);
        }
      case FlushFront(t) =>
        FlushKeepsRanges(w.m, w.threads[t].b.fb[0], w'.m);
        FlushNarrows(w.m, w.threads[t].b.fb[0], w'.m);
      case LoadStep(t, read, memory, end) =>
        LoadKeepsRanges(w, read, memory, end, w', t);
      case _ =>
    }
  }

  lemma {:induction false} RangesHold(ws: seq<World>, ss: seq<Step>, i: nat)
    requires IsSafeRun(ws, ss) && i < |ws|
    ensures BuffersInv(ws[i]) && RangesInv(ws[i].m)
  {
    BuffersHold(ws, ss, i);
    if i > 0 {
      RangesHold(ws, ss, i - 1);
      RangesStep(ws[i - 1], ss[i - 1], ws[i]);
    }
  }

  lemma NarrowsTransitive(m: Mem, m1: Mem, m2: Mem)
    requires Narrows(m, m1) && Narrows(m1, m2)
    ensures Narrows(m, m2)
  {
    forall key ensures Narrower(GetLine(m2.cl, key), GetLine(m.cl, key)) {
      assert Narrower(GetLine(m1.cl, key), GetLine(m.cl, key));
      assert Narrower(GetLine(m2.cl, key), GetLine(m1.cl, key));
    }
  }

  lemma RunStepNarrows(ws: seq<World>, ss: seq<Step>, j: nat)
    requires IsSafeRun(ws, ss) && j < |ss|
    ensures Narrows(ws[j].m, ws[j + 1].m)
  {
    RangesHold(ws, ss, j);
    RangesStep(ws[j], ss[j], ws[j + 1]);
  }

  lemma NarrowsReflexive(m: Mem)
    ensures Narrows(m, m)
  {
  }

  lemma RunLength(ws: seq<World>, ss: seq<Step>)
    requires IsSafeRun(ws, ss)
    ensures |ws| == |ss| + 1
  {
  }

  /** Over a whole run ranges only ever narrow. */
  lemma {:induction false} RunNarrows(ws: seq<World>, ss: seq<Step>, i: nat, j: nat)
    requires IsSafeRun(ws, ss) && i <= j < |ws|
    ensures Narrows(ws[i].m, ws[j].m)
  {
    hide Narrows, IsSafeRun;
    RunLength(ws, ss);
    if i == j {
      NarrowsReflexive(ws[i].m);
    } else {
      RunNarrows(ws, ss, i, j - 1);
      RunStepNarrows(ws, ss, j - 1);
      NarrowsTransitive(ws[i].m, ws[j - 1].m, ws[j].m);
    }
  }

  /** One cut per line explains the whole run. Let `k` be the process that crashes, if any
      does, and `c` a cut its range for a line still admits at the end. Then every load of
      that line by another process, and every load after the crash, returned what the
      thread's own buffer provided and otherwise the newest store that is not `k`'s or
      has a sequence number of at most `c`. */
  lemma RunExplained(ws: seq<World>, ss: seq<Step>, i: nat, k: Pid, c: Clock)
    requires IsSafeRun(ws, ss) && i < |ss| && ss[i].LoadStep?
    requires forall p :: p in ws[|ss|].m.crashes ==> p == k
    requires ss[i].read.pid != k || k in ws[i].m.crashes
    requires Admits(GetLine(ws[|ss|].m.cl, Key(k, Line(ss[i].read.loc))), c)
    ensures ss[i].t < |ws[i].threads|
    ensures var LoadStep(t, read, memory, end) := ss[i];
            var s := LoadStart(ws[i], t, read, memory);
            && SourcesCover(read, s.rf)
            && Returns(ContextFor(LoadMem(ws[i], read, memory), read), s, end, k, c)
  {
    var LoadStep(t, read, memory, end) := ss[i];
    RangesHold(ws, ss, i);
    RunNarrows(ws, ss, i + 1, |ss|);
    LoadContext(ws[i], t, read, memory);
    var x, s := ContextFor(LoadMem(ws[i], read, memory), read), LoadStart(ws[i], t, read, memory);
    assert ws[i + 1].m.crashes == end.crashes && ws[i + 1].m.cl == end.cl;
    forall p | p in end.crashes ensures p == k {
      assert p in ws[|ss|].m.crashes;
    }
    assert Narrower(GetLine(ws[|ss|].m.cl, KeyOf(x, k)), RangeOf(x, end, k));
    LoadSound(x, s, end, k, c);
  }

  /** Such a cut exists for every line at the end of every safe run. */
  lemma CutExists(ws: seq<World>, ss: seq<Step>, k: Pid, line: Address) returns (c: Clock)
    requires IsSafeRun(ws, ss)
    ensures Admits(GetLine(ws[|ss|].m.cl, Key(k, line)), c)
  {
    RangesHold(ws, ss, |ss|);
    c := GetLine(ws[|ss|].m.cl, Key(k, line)).begin;
    assert NonEmpty(GetLine(ws[|ss|].m.cl, Key(k, line)));
  }
}
