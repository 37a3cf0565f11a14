/**
 Which bytes the loads of a run return, in terms of what is buffered, what was evicted and
 what the program's memory held before: the first step that touches a slot takes its value
 from there, and that is read until a store takes its place.
 */
module LoadedBytes {
  import opened Actions
  import opened ReadAssembly
  import opened CrashLoads
  import opened LoadTheorems
  import opened MemoryState
  import opened Runs
  import Memory

  /** A write to the slot is issued, or a load of it begins. */
  predicate Touches(st: Step, slot: Address) {
    match st
    case Issue(_, a, _) => IsWrite(a.kind) && Slot(a.loc) == slot
    case Touch(_, a, _) => Slot(a.loc) == slot
    case LoadStep(_, read, _, _) => Slot(read.loc) == slot
    case _ => false
  }

  /** The first of the steps that touches the slot. */
  predicate FirstTouch(ss: seq<Step>, slot: Address, k: nat) {
    k < |ss| && Touches(ss[k], slot) && forall j :: 0 <= j < k ==> !Touches(ss[j], slot)
  }

  // ----- one step -----

  lemma EnsureHolds(m: Mem, a: Action, memory: nat, slot: Address)
    requires ListsInv(m)
    ensures var m' := EnsureInitial(m, a, memory);
            && (slot in m'.lists <==> slot in m.lists || slot == Slot(a.loc))
            && (slot in m.lists ==> m'.lists[slot] == m.lists[slot])
            && (slot !in m.lists && slot == Slot(a.loc) ==>
                  |m'.lists[slot]| == 1 && HoldsMemory(m'.lists[slot][0], slot, memory))
  {
  }

  /** A slot gets a list when it is touched first, and keeps the entry its list begins with. */
  lemma SlotStep(w: World, st: Step, w': World, slot: Address)
    requires BuffersInv(w) && Runs.Next(w, st, w')
    ensures slot in w'.m.lists <==> slot in w.m.lists || Touches(st, slot)
    ensures slot in w.m.lists ==>
              w.m.lists[slot] != [] && w'.m.lists[slot] != [] && w'.m.lists[slot][0] == w.m.lists[slot][0]
    ensures slot !in w.m.lists && Touches(st, slot) ==>
              |w'.m.lists[slot]| == 1 && HoldsMemory(w'.m.lists[slot][0], slot, st.memory)
  {
    hide HoldsMemory, EnsureInitial, Ends, ListOk;
    match st {
      case Issue(t, a, memory) =>
        EnsureHolds(w.m, a, memory, slot);
      case Touch(t, a, memory) =>
        EnsureHolds(w.m, a, memory, slot);
      case LoadStep(t, read, memory, end) =>
        EnsureHolds(w.m, read, memory, slot);
      case Pop(t) =>
        assert BufferInv(w.m, w.threads[t].b);
        var a := w.threads[t].b.sb[0];
        if a.kind == Clflush {
          FlushLeaves(w.m, a, w'.m);
        }
      case FlushFront(t) =>
        FlushLeaves(w.m, w.threads[t].b.fb[0], w'.m);
      case _ =>
    }
  }

  // ----- runs -----

  /** In every run a slot has a list exactly if a step has touched it, and the list begins with
      what the program's memory held when the first one did. */
  lemma {:induction false} InitialHolds(ws: seq<World>, ss: seq<Step>, n: nat, slot: Address)
    requires IsRun(ws, ss) && n < |ws|
    ensures slot in ws[n].m.lists <==> exists k :: 0 <= k < n && Touches(ss[k], slot)
    ensures forall k: nat :: k < n && FirstTouch(ss, slot, k) ==>
              ws[n].m.lists[slot] != [] && HoldsMemory(ws[n].m.lists[slot][0], slot, ss[k].memory)
  {
    hide Runs.Next, Touches, HoldsMemory, BuffersInv;
    if n > 0 {
      InitialHolds(ws, ss, n - 1, slot);
      BuffersHold(ws, ss, n - 1);
      SlotStep(ws[n - 1], ss[n - 1], ws[n], slot);
    }
  }

  // ----- loads -----

  lemma {:induction false} ReachCovers(x: Context, n: nat, s: LoadState, s': LoadState)
    requires ContextOk(x) && n <= |x.stores| && Reach(x, n, s, s')
    requires |s.rf| == x.read.size && SourcesCover(x.read, s.rf) && (n == 0 ==> Full(s.rf))
    ensures |s'.rf| == x.read.size && SourcesCover(x.read, s'.rf) && Full(s'.rf)
  {
    hide CrashLoads.Next, ContextOk, SourcesCover;
    if n > 0 && !Full(s.rf) {
      var s1 := NextOf(x, n, s, s');
      Memory.NextCovers(x, n, s, s1);
      ReachCovers(x, n - 1, s1, s');
    }
  }

  /** Every byte of a finished load has a source that covers it. */
  lemma LoadCovers(w: World, t: Tid, read: Action, memory: nat, end: LoadState, w': World)
    requires BuffersInv(w) && Loads(w, read, memory, end, w', t)
    ensures |end.rf| == read.size && SourcesCover(read, end.rf) && Full(end.rf)
  {
    hide CrashLoads.Next, SourcesCover, ListOk;
    var b := w.threads[t].b;
    assert BufferInv(w.m, b);
    EnsureKeepsLists(w.m, read, memory);
    Memory.BypassCovers(b.sb, |b.sb|, read, NoSources(read.size)) by { NoneCover(read); }
    var x, s := ContextFor(LoadMem(w, read, memory), read), LoadStart(w, t, read, memory);
    LeafReach(x, |x.stores|, s, end);
    ReachCovers(x, |x.stores|, s, end);
  }

  lemma NoneCover(read: Action)
    ensures SourcesCover(read, NoSources(read.size))
  {
  }

  /** What a load of a run starts from. */
  lemma LoadAt(ws: seq<World>, ss: seq<Step>, i: nat)
    requires IsRun(ws, ss) && i < |ss| && ss[i].LoadStep?
    ensures |ws| == |ss| + 1
    ensures BuffersInv(ws[i]) && Loads(ws[i], ss[i].read, ss[i].memory, ss[i].end, ws[i + 1], ss[i].t)
    ensures StoreList(ws[i + 1].m, ss[i].read.loc) == StoreList(LoadMem(ws[i], ss[i].read, ss[i].memory),
            ss[i].read.loc)
  {
    hide BuffersInv, Ends;
    BuffersHold(ws, ss, i);
    assert Runs.Next(ws[i], ss[i], ws[i + 1]);
  }

  /** It starts with what the thread's own buffer provides. */
  lemma StartForwards(w: World, t: Tid, read: Action, memory: nat, b: nat)
    requires BuffersInv(w) && t < |w.threads| && Aligned(read) && b < read.size
    ensures var sb, s := w.threads[t].b.sb, LoadStart(w, t, read, memory);
            |s.rf| == read.size && Forwards(sb, |sb|, read.loc + b, s.rf[b])
  {
    hide Forwards, Aligned;
    var sb := w.threads[t].b.sb;
    assert BufferInv(w.m, w.threads[t].b);
    Memory.BypassForwards(sb, |sb|, read, NoSources(read.size), b);
  }

  /** In every run each byte of a load is that of the newest plain store of it in the thread's own
      buffer, or, if there is none, that of an evicted store or of the initial entry. */
  lemma RunTakes(ws: seq<World>, ss: seq<Step>, i: nat, b: nat)
    requires IsRun(ws, ss) && i < |ss| && ss[i].LoadStep? && b < ss[i].read.size
    ensures ss[i].t < |ws[i].threads| && |ss[i].end.rf| == ss[i].read.size
    ensures var LoadStep(t, read, memory, end) := ss[i];
            TakenFrom(ws[i].threads[t].b.sb, StoreList(ws[i + 1].m, read.loc), read.loc + b,
                SourceByte(read, end.rf, b))
  {
    hide Runs.Next, IsRun, Ends, SourcesCover, Full, TakenFrom, SourceByte, Forwards, Bypass;
    var LoadStep(t, read, memory, end) := ss[i];
    LoadAt(ws, ss, i);
    LoadCovers(ws[i], t, read, memory, end, ws[i + 1]);
    StartForwards(ws[i], t, read, memory, b);
    var sb, m := ws[i].threads[t].b.sb, LoadMem(ws[i], read, memory);
    Memory.LoadTakes(m, sb, read, LoadStart(ws[i], t, read, memory), end, b);
  }

  /** A byte that no store in the thread's buffer and no evicted store has written is read as the
      program's memory held it when the slot was touched first. */
  lemma InitialRead(ws: seq<World>, ss: seq<Step>, i: nat, b: nat, k: nat)
    requires IsRun(ws, ss) && i < |ss| && ss[i].LoadStep? && b < ss[i].read.size
    requires FirstTouch(ss, Slot(ss[i].read.loc), k)
    requires var stores := StoreList(ws[i].m, ss[i].read.loc);
             forall j :: 1 <= j < |stores| ==> !Covers(stores[j], ss[i].read.loc + b)
    requires ss[i].t < |ws[i].threads| ==>
               var sb := ws[i].threads[ss[i].t].b.sb;
               forall j :: 0 <= j < |sb| && sb[j].kind == NonAtomicStore ==> !Covers(sb[j], ss[i].read.loc + b)
    ensures k <= i && |ss[i].end.rf| == ss[i].read.size
    ensures var read := ss[i].read;
            SourceByte(read, ss[i].end.rf, b) == ByteOf(ss[k].memory, read.loc + b - Slot(read.loc))
  {
    var LoadStep(t, read, memory, end) := ss[i];
    var slot, a := Slot(read.loc), read.loc + b;
    RunTakes(ws, ss, i, b);
    InitialHolds(ws, ss, i + 1, slot);
    assert Touches(ss[i], slot);
    BuffersHold(ws, ss, i);
    assert Runs.Next(ws[i], ss[i], ws[i + 1]);
    WithinSlot(read, b);
    var stores := StoreList(ws[i + 1].m, read.loc);
    assert |StoreList(ws[i].m, read.loc)| == 0 ==> |stores| == 1;
  }

  /** What one cut explains: each byte is that of the newest plain store of it in the thread's
      own buffer, or, if there is none, of the newest evicted store that the cut leaves. */
  lemma RunReads(ws: seq<World>, ss: seq<Step>, i: nat, k: Pid, c: Clock, b: nat)
    requires IsSafeRun(ws, ss) && i < |ss| && ss[i].LoadStep? && b < ss[i].read.size
    requires forall p :: p in ws[|ss|].m.crashes ==> p == k
    requires ss[i].read.pid != k || k in ws[i].m.crashes
    requires Admits(GetLine(ws[|ss|].m.cl, Key(k, Line(ss[i].read.loc))), c)
    ensures ss[i].t < |ws[i].threads| && |ss[i].end.rf| == ss[i].read.size
    ensures var LoadStep(t, read, memory, end) := ss[i];
            var sb, stores, a := ws[i].threads[t].b.sb, StoreList(ws[i + 1].m, read.loc), read.loc + b;
            var byte := SourceByte(read, end.rf, b);
            if exists j :: 0 <= j < |sb| && sb[j].kind == NonAtomicStore && Covers(sb[j], a)
            then exists j: nat :: NewestPlain(sb, |sb|, a, j) && byte == ByteAt(sb[j], a)
            else NewestByte(stores, |stores|, k, c, a) == Some(byte)
  {
    hide Runs.Next, SafeStep, TakenFrom, Returns, NewestByte, LoadStart, Forwards, SourceByte, Bypass,
        BuffersInv, Ends, Covers, NewestPlain, SourcesCover, Init, Aligned, AfterLoad, EnsureInitial;
    var LoadStep(t, read, memory, end) := ss[i];
    RunTakes(ws, ss, i, b);
    RunExplained(ws, ss, i, k, c);
    var sb, a, byte := ws[i].threads[t].b.sb, read.loc + b, SourceByte(read, end.rf, b);
    LoadAt(ws, ss, i);
    StartForwards(ws[i], t, read, memory, b);
    var s := LoadStart(ws[i], t, read, memory);
    if exists j :: 0 <= j < |sb| && sb[j].kind == NonAtomicStore && Covers(sb[j], a) {
      FromBuffer(sb, StoreList(ws[i + 1].m, read.loc), a, byte);
    } else {
      NoneForwarded(sb, a, s.rf[b]);
      Explained(ContextFor(LoadMem(ws[i], read, memory), read), s, end, k, c, b);
    }
  }

  lemma FromBuffer(sb: seq<Action>, stores: seq<Action>, a: Address, byte: nat)
    requires TakenFrom(sb, stores, a, byte)
    requires exists j :: 0 <= j < |sb| && sb[j].kind == NonAtomicStore && Covers(sb[j], a)
    ensures exists j: nat :: NewestPlain(sb, |sb|, a, j) && byte == ByteAt(sb[j], a)
  {
  }

  lemma NoneForwarded(sb: seq<Action>, a: Address, r: Option<Action>)
    requires Forwards(sb, |sb|, a, r) && !exists j :: 0 <= j < |sb| && sb[j].kind == NonAtomicStore && Covers(sb[j], a)
    ensures r.None?
  {
  }

  lemma Explained(x: Context, s: LoadState, s': LoadState, k: Pid, c: Clock, b: nat)
    requires SourcesCover(x.read, s.rf) && Returns(x, s, s', k, c) && b < |s.rf| && s.rf[b].None?
    ensures |s'.rf| == |s.rf| && NewestByte(x.stores, |x.stores|, k, c,
            x.read.loc + b) == Some(SourceByte(x.read, s'.rf, b))
  {
    assert PlainBytes(x, s, k, c)[b] == Some(Bytes(x, s')[b]);
  }
}
