/**
 The memory operations as a thread carries them out: what goes into its buffers, when they
 are drained, and what is loaded. Each is a stretch of a run in the sense of `Runs`, so that
 all theorems about runs apply to what the classes of `Memory` do.
 */
module Execution {
  import opened Actions
  import opened ReadAssembly
  import opened CrashLoads
  import opened LoadTheorems
  import opened MemoryState
  import opened Runs
  import opened Memory
  import NodeStacks

  /** Thread `t` of the world `w` is what the two objects hold. */
  ghost predicate Represents(w: World, t: Tid, model: Model, memory: ThreadMemory)
    reads model, memory
  {
    t < |w.threads| && MachineOf(w, t) == Machine(model.Value(), memory.Value()) && BuffersInv(w)
  }

  ghost predicate Ready(model: Model, memory: ThreadMemory)
    reads model, model.nodestack, model.nodestack.Repr
  {
    model.StackReady() && memory !in model.nodestack.Repr
  }

  /** The stretch `ws` takes thread `t` from the world `w` to what the objects hold now. */
  ghost predicate Reached(w: World, ws: seq<World>, ss: seq<Step>, t: Tid, model: Model, memory: ThreadMemory)
    reads model, memory
  {
    Segment(ws, ss) && ws[0] == w && Represents(ws[|ss|], t, model, memory)
  }

  // ----- stretches of runs -----

  /** The steps that drain a buffer are steps of a run. */
  lemma {:induction false} ChainSegment(n: nat, c: Machine, c': Machine, w: World, t: Tid)
      returns (ws: seq<World>, ss: seq<Step>)
    requires DrainChain(n, c, c') && t < |w.threads| && MachineOf(w, t) == c
    ensures Segment(ws, ss) && ws[0] == w
    ensures t < |ws[|ss|].threads| && MachineOf(ws[|ss|], t) == c'
  {
    hide Drains, Runs.Next;
    if n == 0 {
      ws, ss := [w], [];
    } else {
      var d := ChainHead(n, c, c');
      var st, w1 := DrainStep(c, d, w, t);
      var vs, ts := ChainSegment(n - 1, d, c', w1, t);
      ws, ss := [w] + vs, [st] + ts;
      Joined([w, w1], [st], vs, ts);
    }
  }

  /** Two stretches, one after the other. */
  lemma Joined(ws: seq<World>, ss: seq<Step>, vs: seq<World>, ts: seq<Step>)
    requires Segment(ws, ss) && Segment(vs, ts) && ws[|ss|] == vs[0]
    ensures Segment(ws[..|ss|] + vs, ss + ts)
    ensures (ws[..|ss|] + vs)[0] == ws[0] && (ws[..|ss|] + vs)[|ss + ts|] == vs[|ts|]
  {
    hide Runs.Next;
    var us, rs := ws[..|ss|] + vs, ss + ts;
    forall i | 0 <= i < |rs| ensures Runs.Next(us[i], rs[i], us[i + 1]) {
      if i < |ss| {
        assert Runs.Next(ws[i], ss[i], ws[i + 1]);
      } else {
        assert Runs.Next(vs[i - |ss|], ts[i - |ss|], vs[i - |ss| + 1]);
      }
    }
  }

  lemma DrainStep(c: Machine, d: Machine, w: World, t: Tid) returns (st: Step, w1: World)
    requires Drains(c, d) && t < |w.threads| && MachineOf(w, t) == c
    ensures Runs.Next(w, st, w1) && t < |w1.threads| && MachineOf(w1, t) == d
  {
    hide Pops, FlushesOne;
    var th := w.threads[t];
    if Pops(c, d) {
      PopsNonEmpty(c, d);
      var e := EventOf(c);
      st := Pop(t);
      w1 := World(d.m, w.threads[t := th.(b := d.b, done := th.done + [e])],
                  if e.Evicted? then w.order + [e.a] else w.order);
    } else if FlushesOne(c, d) {
      st := Step.FlushFront(t);
      w1 := World(d.m, w.threads[t := th.(b := d.b)], w.order);
    } else {
      st := CutShort(t);
      w1 := World(d.m, w.threads[t := th.(b := d.b, done := th.done + [SfenceCut(c.b.sb[0])])], w.order);
    }
  }

  lemma PopsNonEmpty(c: Machine, d: Machine)
    requires Pops(c, d)
    ensures c.b.sb != []
  {
  }

  /** A run keeps buffers and lists in the shape the classes rely on. */
  lemma FitsAgain(w: World, t: Tid, model: Model, memory: ThreadMemory)
    requires Represents(w, t, model, memory)
    ensures model.ListsOk() && memory.Fit(model)
  {
    assert BufferInv(w.m, w.threads[t].b);
  }

  lemma ChainReaches(n: nat, c: Machine, w: World, t: Tid, model: Model, memory: ThreadMemory)
      returns (ws: seq<World>, ss: seq<Step>)
    requires DrainChain(n, c, Machine(model.Value(), memory.Value()))
    requires t < |w.threads| && MachineOf(w, t) == c && BuffersInv(w)
    ensures Reached(w, ws, ss, t, model, memory)
  {
    hide Runs.Next, BuffersInv, DrainChain;
    ws, ss := ChainSegment(n, c, Machine(model.Value(), memory.Value()), w, t);
    SegmentBuffers(ws, ss, |ss|);
  }

  lemma OneStep(w: World, st: Step, w1: World, t: Tid, model: Model, memory: ThreadMemory)
    requires Runs.Next(w, st, w1) && BuffersInv(w)
    requires t < |w1.threads| && MachineOf(w1, t) == Machine(model.Value(), memory.Value())
    ensures Reached(w, [w, w1], [st], t, model, memory)
  {
    hide Runs.Next, BuffersInv;
    BuffersStep(w, st, w1);
  }

  // ----- operations -----

  /** Both buffers are drained, and nothing is left in them if the process survives that. */
  method Drain(model: Model, memory: ThreadMemory, processId: Pid, t: Tid, ghost w: World)
      returns (exited: bool, ghost ws: seq<World>, ghost ss: seq<Step>)
    requires Ready(model, memory) && Represents(w, t, model, memory)
    modifies memory, model`objToWr, model`objToCl, model`nextSequenceNum, model`crashes, model`crashPoints
    modifies model.nodestack.Repr
    ensures Ready(model, memory) && fresh(model.nodestack.Repr - old(model.nodestack.Repr))
    ensures Reached(w, ws, ss, t, model, memory) && (exited ==> model.crashes != map[])
    ensures !exited ==> ss != [] && ss[|ss| - 1] == Fence(t) && memory.storeBuffer == [] && memory.flushBuffer == []
  {
    hide DrainChain, Runs.Next, BuffersInv, AllBinary;
    FitsAgain(w, t, model, memory);
    ghost var c := Machine(model.Value(), memory.Value());
    ghost var steps, more := 0, 0;
    exited, steps := memory.EmptyStoreBuffer(model, processId);
    if !exited {
      ghost var c1 := Machine(model.Value(), memory.Value());
      exited, more := memory.EmptyFlushBuffer(model, processId);
      ChainAppend(steps, more, c, c1, Machine(model.Value(), memory.Value()));
    }
    ws, ss := ChainReaches(steps + more, c, w, t, model, memory);
    if !exited {
      ghost var v := ws[|ss|];
      ghost var v1 := v.(threads := v.threads[t := v.threads[t].(done := v.threads[t].done + [Drained])]);
      FenceHappens(v, t, v1);
      OneStep(v, Fence(t), v1, t, model, memory);
      Joined(ws, ss, [v, v1], [Fence(t)]);
      ws, ss := ws[..|ss|] + [v, v1], ss + [Fence(t)];
    }
  }

  /** The same at the end of a stretch. */
  method DrainOn(model: Model, memory: ThreadMemory, processId: Pid, t: Tid, ghost w: World, ghost vs: seq<World>,
      ghost ts: seq<Step>)
      returns (exited: bool, ghost ws: seq<World>, ghost ss: seq<Step>)
    requires Ready(model, memory) && Reached(w, vs, ts, t, model, memory) && ts != []
    modifies memory, model`objToWr, model`objToCl, model`nextSequenceNum, model`crashes, model`crashPoints
    modifies model.nodestack.Repr
    ensures Ready(model, memory) && fresh(model.nodestack.Repr - old(model.nodestack.Repr))
    ensures Reached(w, ws, ss, t, model, memory) && (exited ==> model.crashes != map[])
    ensures |ss| >= |ts| && ss[..|ts|] == ts && ws[1] == vs[1]
    ensures !exited ==> |ss| > |ts| && ss[|ss| - 1] == Fence(t)
  {
    hide Runs.Next, BuffersInv, AllBinary;
    ghost var us, rs;
    exited, us, rs := Drain(model, memory, processId, t, vs[|ts|]);
    Joined(vs, ts, us, rs);
    ws, ss := vs[..|ts|] + us, ts + rs;
  }

  lemma FenceHappens(w: World, t: Tid, w1: World)
    requires t < |w.threads| && w.threads[t].b.sb == [] && w.threads[t].b.fb == []
    requires w1 == w.(threads := w.threads[t := w.threads[t].(done := w.threads[t].done + [Drained])])
    ensures Runs.Next(w, Fence(t), w1)
  {
  }

  /** A store is buffered; one that is sequentially consistent, or the second half of a
      read-modify-write operation, is drained at once. */
  method ExecuteStore(model: Model, memory: ThreadMemory, action: Action, initial: nat, seqCst: bool, processId: Pid,
      ghost w: World)
      returns (exited: bool, ghost ws: seq<World>, ghost ss: seq<Step>)
    requires Ready(model, memory) && Represents(w, action.tid, model, memory)
    requires IsWrite(action.kind) && action.kind != AtomicInit && Aligned(action)
    requires action.pid == w.threads[action.tid].pid && action.seqNum == 0 && action.effect == 0
    modifies memory, model`objToWr, model`objToCl, model`nextSequenceNum, model`crashes, model`crashPoints
    modifies model.nodestack.Repr
    ensures Ready(model, memory) && fresh(model.nodestack.Repr - old(model.nodestack.Repr))
    ensures Reached(w, ws, ss, action.tid, model, memory) && (exited ==> model.crashes != map[])
    ensures ss != [] && ss[0] == Issue(action.tid, action, initial)
    ensures (seqCst || action.kind == Rmw) && !exited ==> ss[|ss| - 1] == Fence(action.tid)
    ensures !(seqCst || action.kind == Rmw) ==> |ss| == 1
  {
    hide Runs.Next, BuffersInv, AllBinary, NodeStacks.NodeStack.Valid, Bufferable, ListOk;
    var t := action.tid;
    FitsAgain(w, t, model, memory);
    model.EnsureInitialValue(action, initial);
    memory.AddToStoreBuffer(action);
    ghost var th := w.threads[t];
    ghost var w1 := World(EnsureInitial(w.m, action, initial),
                          w.threads[t := th.(b := th.b.(sb := th.b.sb + [action]), issued := th.issued + [action])],
                              w.order);
    IssueHappens(w, action, initial, w1);
    exited, ws, ss := false, [w, w1], [Issue(t, action, initial)];
    OneStep(w, Issue(t, action, initial), w1, t, model, memory);
    if seqCst || action.kind == Rmw {
      exited, ws, ss := DrainOn(model, memory, processId, t, w, ws, ss);
    }
  }

  lemma IssueHappens(w: World, a: Action, initial: nat, w1: World)
    requires a.tid < |w.threads| && Bufferable(a) && a.pid == w.threads[a.tid].pid && a.seqNum == 0 && a.effect == 0
    requires var th := w.threads[a.tid];
             w1 == World(if IsWrite(a.kind) then EnsureInitial(w.m, a, initial) else w.m,
                         w.threads[a.tid := th.(b := th.b.(sb := th.b.sb + [a]), issued := th.issued + [a])], w.order)
    ensures Runs.Next(w, Issue(a.tid, a, initial), w1)
  {
  }

  /** A flush or an sfence is buffered. The copy that is buffered has lost its earliest effect. */
  method ExecuteFlush(model: Model, memory: ThreadMemory, action: Action, ghost w: World)
      returns (ghost ws: seq<World>, ghost ss: seq<Step>)
    requires Ready(model, memory) && Represents(w, action.tid, model, memory)
    requires action.kind == Sfence || action.kind == Clflush || action.kind == ClflushOpt
    requires action.pid == w.threads[action.tid].pid && action.seqNum == 0
    modifies memory`storeBuffer
    ensures Reached(w, ws, ss, action.tid, model, memory)
    ensures ss == [Issue(action.tid, action.(effect := 0), 0)]
  {
    hide Runs.Next, BuffersInv, AllBinary;
    var copy := action.(effect := 0);
    memory.AddToStoreBuffer(copy);
    ghost var t, th := copy.tid, w.threads[copy.tid];
    ghost var w1 := World(w.m, w.threads[t := th.(b := th.b.(sb := th.b.sb + [copy]), issued := th.issued + [copy])],
        w.order);
    IssueHappens(w, copy, 0, w1);
    ws, ss := [w, w1], [Issue(t, copy, 0)];
    OneStep(w, ss[0], w1, t, model, memory);
  }

  /** An mfence drains. */
  method ExecuteMfence(model: Model, memory: ThreadMemory, t: Tid, processId: Pid, ghost w: World)
      returns (exited: bool, ghost ws: seq<World>, ghost ss: seq<Step>)
    requires Ready(model, memory) && Represents(w, t, model, memory)
    modifies memory, model`objToWr, model`objToCl, model`nextSequenceNum, model`crashes, model`crashPoints
    modifies model.nodestack.Repr
    ensures Ready(model, memory) && fresh(model.nodestack.Repr - old(model.nodestack.Repr))
    ensures Reached(w, ws, ss, t, model, memory) && (exited ==> model.crashes != map[])
    ensures !exited ==> ss != [] && ss[|ss| - 1] == Fence(t)
  {
    exited, ws, ss := Drain(model, memory, processId, t, w);
  }

  /** A load; the first half of a read-modify-write operation drains before. */
  method ExecuteLoad(model: Model, memory: ThreadMemory, read: Action, initial: nat, rmw: bool, processId: Pid,
      ghost w: World)
      returns (exited: bool, value: nat, ghost ws: seq<World>, ghost ss: seq<Step>)
    requires Ready(model, memory) && Represents(w, read.tid, model, memory)
    requires Aligned(read) && read.pid == w.threads[read.tid].pid
    modifies memory, model`objToWr, model`objToCl, model`nextSequenceNum, model`crashes, model`crashPoints
    modifies model.nodestack.Repr
    ensures Ready(model, memory) && fresh(model.nodestack.Repr - old(model.nodestack.Repr))
    ensures Reached(w, ws, ss, read.tid, model, memory) && (exited ==> rmw && model.crashes != map[])
    ensures !exited ==> ss != [] && Loaded(ss[|ss| - 1], read, value)
    ensures !exited && rmw ==> |ss| >= 2 && ss[|ss| - 2] == Fence(read.tid)
    ensures !rmw ==> memory.Value() == old(memory.Value())
    ensures !exited ==> forall i :: 0 <= i < read.size ==>
      TakenFrom(memory.storeBuffer, StoreList(model.Value(), read.loc), read.loc + i, ByteOf(value, i))
    ensures !rmw && old(StoreList(model.Value(), read.loc)) == [] ==>
      forall i :: 0 <= i < read.size ==> ByteOf(value, i) == ByteOf(initial, read.loc - Slot(read.loc) + i)
  {
    hide TakenFrom, HoldsMemory, Runs.Next, BuffersInv, AllBinary, LoadReturns, NodeStacks.NodeStack.Valid, ListOk,
        Bufferable, Loaded,
        Slot, ByteOf, Aligned, Segment, IsWrite;
    var t := read.tid;
    FitsAgain(w, t, model, memory);
    model.EnsureInitialValue(read, initial);
    ghost var w1 := w.(m := EnsureInitial(w.m, read, initial));
    TouchHappens(w, t, read, initial, w1);
    exited, value, ws, ss := false, 0, [w, w1], [Touch(t, read, initial)];
    OneStep(w, ss[0], w1, t, model, memory);
    if rmw {
      exited, ws, ss := DrainOn(model, memory, processId, t, w, ws, ss);
      if exited {
        return;
      }
    }
    SlotsStay(ws, ss, Slot(read.loc));
    PidStays(ws, ss, t, |ss|);
    value, ws, ss := LoadNow(model, memory, read, initial, w, ws, ss);
    if !rmw && old(StoreList(model.Value(), read.loc)) == [] {
      InitialBytes(memory.storeBuffer, StoreList(model.Value(), read.loc), read, initial, value);
    }
  }

  /** A slot of which only the initial entry is known, and of which nothing is buffered. */
  lemma InitialBytes(sb: seq<Action>, stores: seq<Action>, read: Action, initial: nat, value: nat)
    requires Aligned(read) && |stores| == 1 && HoldsMemory(stores[0], Slot(read.loc), initial)
    requires forall k :: 0 <= k < |sb| ==> Bufferable(sb[k])
    requires forall k :: 0 <= k < |sb| && IsWrite(sb[k].kind) ==> Slot(sb[k].loc) != Slot(read.loc)
    requires forall i :: 0 <= i < read.size ==> TakenFrom(sb, stores, read.loc + i, ByteOf(value, i))
    ensures forall i :: 0 <= i < read.size ==> ByteOf(value, i) == ByteOf(initial, read.loc - Slot(read.loc) + i)
  {
    forall i | 0 <= i < read.size ensures ByteOf(value, i) == ByteOf(initial, read.loc - Slot(read.loc) + i) {
      WithinSlot(read, i);
      forall k | 0 <= k < |sb| && sb[k].kind == NonAtomicStore ensures !Covers(sb[k], read.loc + i) {
        assert Bufferable(sb[k]);
        if Covers(sb[k], read.loc + i) {
          OneSlot(read, sb[k], i);
        }
      }
      assert TakenFrom(sb, stores, read.loc + i, ByteOf(value, i));
    }
  }

  /** What covers a byte of a load is in the slot of the load. */
  lemma OneSlot(read: Action, w: Action, i: nat)
    requires Aligned(read) && Aligned(w) && i < read.size && Covers(w, read.loc + i)
    ensures Slot(w.loc) == Slot(read.loc)
  {
    WithinSlot(read, i);
    WithinSlot(w, read.loc + i - w.loc);
  }

  /** The load itself, at the end of a stretch. */
  method LoadNow(model: Model, memory: ThreadMemory, read: Action, initial: nat, ghost w: World, ghost vs: seq<World>,
      ghost ts: seq<Step>)
      returns (value: nat, ghost ws: seq<World>, ghost ss: seq<Step>)
    requires Ready(model, memory) && Reached(w, vs, ts, read.tid, model, memory)
    requires Aligned(read) && Slot(read.loc) in vs[|ts|].m.lists && read.pid == vs[|ts|].threads[read.tid].pid
    modifies model`objToCl, model`crashes, model`crashPoints, model.nodestack.Repr
    ensures Ready(model, memory) && fresh(model.nodestack.Repr - old(model.nodestack.Repr))
    ensures Reached(w, ws, ss, read.tid, model, memory) && |ss| == |ts| + 1 && ss[..|ts|] == ts
    ensures Loaded(ss[|ts|], read, value)
    ensures forall i :: 0 <= i < read.size ==>
      TakenFrom(memory.storeBuffer, StoreList(model.Value(), read.loc), read.loc + i, ByteOf(value, i))
  {
    hide Runs.Next, BuffersInv, AllBinary, LoadReturns, TakenFrom;
    ghost var t, v := read.tid, vs[|ts|];
    FitsAgain(v, t, model, memory);
    ListThere(v, read);
    value := memory.Load(model, read);
    ghost var end, v1 := LoadHappens(v, t, read, initial, model.Value(), value);
    OneStep(v, LoadStep(t, read, initial, end), v1, t, model, memory);
    Joined(vs, ts, [v, v1], [LoadStep(t, read, initial, end)]);
    ws, ss := vs[..|ts|] + [v, v1], ts + [LoadStep(t, read, initial, end)];
  }

  /** The step is this load, and `value` is what it ended with. */
  predicate Loaded(st: Step, read: Action, value: nat) {
    && st.LoadStep? && st.t == read.tid && st.read == read
    && value < Pow256(read.size) && |st.end.rf| == read.size
    && forall i :: 0 <= i < read.size ==> ByteOf(value, i) == SourceByte(read, st.end.rf, i)
  }

  lemma TouchHappens(w: World, t: Tid, a: Action, initial: nat, w1: World)
    requires t < |w.threads| && w1 == w.(m := EnsureInitial(w.m, a, initial))
    ensures Runs.Next(w, Touch(t, a, initial), w1)
  {
  }

  lemma ListThere(w: World, a: Action)
    requires BuffersInv(w) && Slot(a.loc) in w.m.lists
    ensures StoreList(w.m, a.loc) != []
  {
  }

  lemma LoadHappens(w: World, t: Tid, read: Action, initial: nat, m': Mem, value: nat)
      returns (end: LoadState, w1: World)
    requires t < |w.threads| && Aligned(read) && read.pid == w.threads[t].pid && StoreList(w.m, read.loc) != []
    requires LoadReturns(w.m, w.threads[t].b, read, m', value)
    ensures w1 == w.(m := m') && Runs.Next(w, LoadStep(t, read, initial, end), w1)
    ensures |end.rf| == read.size && forall i :: 0 <= i < read.size ==> ByteOf(value, i) == SourceByte(read, end.rf, i)
  {
    hide Ends, Bypass, SourceByte;
    var b, x := w.threads[t].b, ContextFor(w.m, read);
    end :| && Ends(x, StartOf(w.m, Bypass(b.sb, |b.sb|, read, NoSources(read.size))), end)
           && m' == AfterLoad(w.m, end)
           && |end.rf| == read.size
           && forall i :: 0 <= i < read.size ==> ByteOf(value, i) == Bytes(x, end)[i];
    w1 := w.(m := m');
    assert LoadMem(w, read, initial) == w.m;
  }

  lemma SlotStays(w: World, st: Step, w1: World, slot: Address)
    requires Runs.Next(w, st, w1) && slot in w.m.lists
    ensures slot in w1.m.lists
  {
    match st {
      case Pop(t) =>
        var a := w.threads[t].b.sb[0];
        if a.kind == Clflush {
          FlushLeaves(w.m, a, w1.m);
        }
      case FlushFront(t) =>
        FlushLeaves(w.m, w.threads[t].b.fb[0], w1.m);
      case _ =>
    }
  }

  /** A slot that has a list keeps one. */
  lemma {:induction false} SlotsStay(ws: seq<World>, ss: seq<Step>, slot: Address)
    requires Segment(ws, ss) && |ss| >= 1 && slot in ws[1].m.lists
    ensures slot in ws[|ss|].m.lists
  {
    hide Runs.Next;
    for n := 1 to |ss|
      invariant slot in ws[n].m.lists
    {
      SlotStays(ws[n], ss[n], ws[n + 1], slot);
    }
  }

  lemma PidStep(w: World, st: Step, w1: World, t: Tid)
    requires Runs.Next(w, st, w1) && t < |w.threads|
    ensures t < |w1.threads| && w1.threads[t].pid == w.threads[t].pid
  {
    hide Pops, FlushesOne, EnsureInitial, Ends;
  }

  lemma {:induction false} PidStays(ws: seq<World>, ss: seq<Step>, t: Tid, i: nat)
    requires Segment(ws, ss) && i <= |ss| && t < |ws[0].threads|
    ensures t < |ws[i].threads| && ws[i].threads[t].pid == ws[0].threads[t].pid
  {
    hide Runs.Next;
    if i > 0 {
      PidStays(ws, ss, t, i - 1);
      PidStep(ws[i - 1], ss[i - 1], ws[i], t);
    }
  }
}
