/**
 Store order and conservation: every thread's issued operations leave its buffer in
 order, none is lost or repeated, and each slot holds its stores in one global order.
 */
module StoreOrder {
  import opened DecisionTree
  import opened Actions
  import opened CrashLoads
  import opened MemoryState
  import opened Runs

  /** The operation as it was issued, before a time was attached to it. */
  function Bare(a: Action): Action {
    a.(seqNum := 0, effect := 0)
  }

  /** What the thread issued to bring these events about. */
  function Origins(done: seq<Event>): seq<Action> {
    if done == [] then []
    else
      var e := done[|done| - 1];
      Origins(done[..|done| - 1]) + if e.Drained? then [] else [Bare(e.a)]
  }

  /** The stores among the events, in order. */
  function EvictedOf(done: seq<Event>): seq<Action> {
    if done == [] then []
    else
      var e := done[|done| - 1];
      EvictedOf(done[..|done| - 1]) + if e.Evicted? then [e.a] else []
  }

  function OfThread(order: seq<Action>, t: Tid): seq<Action> {
    if order == [] then []
    else
      var a := order[|order| - 1];
      OfThread(order[..|order| - 1], t) + if a.tid == t then [a] else []
  }

  function OfSlot(order: seq<Action>, slot: Address): seq<Action> {
    if order == [] then []
    else
      var a := order[|order| - 1];
      OfSlot(order[..|order| - 1], slot) + if Slot(a.loc) == slot then [a] else []
  }

  /** Sequence numbers increase along the order and are all in the past. */
  ghost predicate Increasing(order: seq<Action>, now: Clock) {
    && (forall i, j :: 0 <= i < j < |order| ==> order[i].seqNum < order[j].seqNum)
    && (forall i :: 0 <= i < |order| ==> order[i].seqNum < now)
  }

  ghost predicate ThreadOrder(w: World, t: Tid)
    requires t < |w.threads|
  {
    var th := w.threads[t];
    && th.issued == Origins(th.done) + th.b.sb
    && EvictedOf(th.done) == OfThread(w.order, t)
    && (forall k :: 0 <= k < |th.b.sb| ==> th.b.sb[k].tid == t && Bare(th.b.sb[k]) == th.b.sb[k])
  }

  ghost predicate SlotOrder(w: World) {
    && (forall slot :: slot in w.m.lists ==> |w.m.lists[slot]| >= 1 && w.m.lists[slot][1..] == OfSlot(w.order, slot))
    && (forall slot :: slot !in w.m.lists ==> OfSlot(w.order, slot) == [])
  }

  ghost predicate OrderInv(w: World) {
    && Increasing(w.order, w.m.next)
    && (forall i :: 0 <= i < |w.order| ==> w.order[i].tid < |w.threads|)
    && SlotOrder(w)
    && forall t :: 0 <= t < |w.threads| ==> ThreadOrder(w, t)
  }

  lemma SnocOrigins(done: seq<Event>, e: Event)
    ensures Origins(done + [e]) == Origins(done) + if e.Drained? then [] else [Bare(e.a)]
    ensures EvictedOf(done + [e]) == EvictedOf(done) + if e.Evicted? then [e.a] else []
  {
    assert (done + [e])[..|done|] == done;
  }

  lemma SnocOrder(order: seq<Action>, a: Action, t: Tid, slot: Address)
    ensures OfThread(order + [a], t) == OfThread(order, t) + if a.tid == t then [a] else []
    ensures OfSlot(order + [a], slot) == OfSlot(order, slot) + if Slot(a.loc) == slot then [a] else []
  {
    assert (order + [a])[..|order|] == order;
  }

  lemma SlotsUnchanged(w: World, w': World)
    requires SlotOrder(w) && w'.m.lists == w.m.lists && w'.order == w.order
    ensures SlotOrder(w')
  {
  }

  lemma EnsureKeepsSlots(w: World, w': World, a: Action, memory: nat)
    requires SlotOrder(w) && ListsInv(w.m) && w'.order == w.order
    requires w'.m.lists == EnsureInitial(w.m, a, memory).lists
    ensures SlotOrder(w')
  {
    forall slot | slot in w'.m.lists
      ensures |w'.m.lists[slot]| >= 1 && w'.m.lists[slot][1..] == OfSlot(w'.order, slot)
    {
      if slot !in w.m.lists {
        assert w'.m.lists[slot][1..] == [];
      }
    }
  }

  lemma EvictKeepsSlots(w: World, w': World, a: Action)
    requires SlotOrder(w) && Slot(a.loc) in w.m.lists && w'.m == EvictStore(w.m, a)
    requires w'.order == w.order + [EvictedStore(w.m, a)]
    ensures SlotOrder(w')
  {
    var e := EvictedStore(w.m, a);
    forall slot
      ensures slot in w'.m.lists ==> |w'.m.lists[slot]| >= 1 && w'.m.lists[slot][1..] == OfSlot(w'.order, slot)
      ensures slot !in w'.m.lists ==> OfSlot(w'.order, slot) == []
    {
      SnocOrder(w.order, e, 0, slot);
      if slot == Slot(a.loc) {
        assert w'.m.lists[slot][1..] == w.m.lists[slot][1..] + [e];
      }
    }
  }

  /** A pop moves the front of the buffer, and only that, into the history. */
  lemma PopKeepsThread(w: World, w': World, t: Tid)
    requires t < |w.threads| && ThreadOrder(w, t) && PopsStep(w, w', t)
    ensures ThreadOrder(w', t)
  {
    hide EvictStore, FlushTree, Line, HasLeaf, OptEffect;
    var th, th', e := w.threads[t], w'.threads[t], EventOf(MachineOf(w, t));
    var a := th.b.sb[0];
    SnocOrigins(th.done, e);
    if e.Evicted? {
      SnocOrder(w.order, e.a, t, 0);
    }
    assert Bare(e.a) == Bare(a) == a;
    assert th'.b.sb == th.b.sb[1..];
    FrontMoves(Origins(th.done), th.b.sb);
  }

  lemma FrontMoves(done: seq<Action>, sb: seq<Action>)
    requires sb != []
    ensures done + sb == (done + [sb[0]]) + sb[1..]
  {
  }

  lemma PopKeepsOthers(w: World, w': World, t: Tid, u: Tid)
    requires t < |w.threads| && PopsStep(w, w', t) && u < |w.threads| && u != t
    requires ThreadOrder(w, t) && ThreadOrder(w, u)
    ensures ThreadOrder(w', u)
  {
    var e := EventOf(MachineOf(w, t));
    if e.Evicted? {
      assert w.threads[t].b.sb[0].tid == t;
      SnocOrder(w.order, e.a, u, 0);
    }
  }

  lemma CutKeepsThread(w: World, w': World, t: Tid)
    requires t < |w.threads| && ThreadOrder(w, t) && Runs.Next(w, CutShort(t), w')
    ensures ThreadOrder(w', t)
  {
    var th := w.threads[t];
    var a := th.b.sb[0];
    SnocOrigins(th.done, SfenceCut(a));
    assert th.b.sb == [a] + th.b.sb[1..];
    assert Origins(th.done) + th.b.sb == (Origins(th.done) + [a]) + th.b.sb[1..];
  }

  lemma PopKeepsSlots(w: World, w': World, t: Tid)
    requires BuffersInv(w) && SlotOrder(w) && Increasing(w.order, w.m.next) && PopsStep(w, w', t)
    ensures SlotOrder(w') && Increasing(w'.order, w'.m.next)
  {
    var c := MachineOf(w, t);
    var a := c.b.sb[0];
    assert BufferInv(w.m, c.b);
    if IsWrite(a.kind) {
      EvictKeepsSlots(w, w', a);
    } else {
      if a.kind == Clflush {
        FlushLeaves(w.m, a, w'.m);
      }
      SlotsUnchanged(w, w');
    }
  }

  lemma IssueKeepsThread(w: World, w': World, t: Tid, a: Action, memory: nat)
    requires t < |w.threads| && ThreadOrder(w, t) && Issues(w, a, memory, w', t)
    ensures ThreadOrder(w', t)
  {
    var th := w.threads[t];
    assert (Origins(th.done) + th.b.sb) + [a] == Origins(th.done) + (th.b.sb + [a]);
  }

  lemma FenceKeepsThread(w: World, w': World, t: Tid)
    requires t < |w.threads| && ThreadOrder(w, t) && Runs.Next(w, Fence(t), w')
    ensures ThreadOrder(w', t)
  {
    SnocOrigins(w.threads[t].done, Drained);
  }

  /** The slots and the global order through one step. */
  lemma SlotsStep(w: World, st: Step, w': World)
    requires BuffersInv(w) && OrderInv(w) && Runs.Next(w, st, w')
    ensures SlotOrder(w') && Increasing(w'.order, w'.m.next)
  {
    match st {
      case Issue(t, a, memory) =>
        if IsWrite(a.kind) { EnsureKeepsSlots(w, w', a, memory); } else { SlotsUnchanged(w, w'); }
      case Pop(t) => PopKeepsSlots(w, w', t);
      case FlushFront(t) =>
        FlushLeaves(w.m, w.threads[t].b.fb[0], w'.m);
        SlotsUnchanged(w, w');
      case LoadStep(t, read, memory, end) => EnsureKeepsSlots(w, w', read, memory);
      case Touch(t, a, memory) => EnsureKeepsSlots(w, w', a, memory);
      case _ => SlotsUnchanged(w, w');
    }
  }

  lemma ThreadsStep(w: World, st: Step, w': World, u: Tid)
    requires OrderInv(w) && Runs.Next(w, st, w') && u < |w'.threads|
    ensures ThreadOrder(w', u)
  {
    if u == |w.threads| {
      FreshThread(w.order, u);
    } else {
      assert ThreadOrder(w, u);
      match st {
        case Issue(t, a, memory) => if u == t { IssueKeepsThread(w, w', t, a, memory); }
        case Pop(t) =>
          assert ThreadOrder(w, t);
          if u == t { PopKeepsThread(w, w', t); } else { PopKeepsOthers(w, w', t, u); }
        case CutShort(t) => if u == t { CutKeepsThread(w, w', t); }
        case Fence(t) => if u == t { FenceKeepsThread(w, w', t); }
        case _ =>
      }
    }
  }

  lemma {:induction false} FreshThread(order: seq<Action>, t: Tid)
    requires forall i :: 0 <= i < |order| ==> order[i].tid < t
    ensures OfThread(order, t) == []
  {
    if order != [] {
      FreshThread(order[..|order| - 1], t);
    }
  }

  lemma OrderStep(w: World, st: Step, w': World)
    requires BuffersInv(w) && OrderInv(w) && Runs.Next(w, st, w')
    ensures OrderInv(w')
  {
    hide SlotOrder, Increasing, BuffersInv;
    SlotsStep(w, st, w');
    forall u: Tid | u < |w'.threads| ensures ThreadOrder(w', u) {
      ThreadsStep(w, st, w', u);
    }
    if st.Pop? {
      assert ThreadOrder(w, st.t);
    }
  }

  /** In every reachable state: what a thread issued is what it has drained, in order,
      followed by its buffer; its evicted stores are its part of one global order of
      strictly increasing sequence numbers; and each slot's list is its initial entry
      followed by that slot's part of the same order. */
  lemma OrderStarts(w: World)
    requires Init(w)
    ensures OrderInv(w)
  {
  }

  lemma {:induction false} OrderHolds(ws: seq<World>, ss: seq<Step>, i: nat)
    requires IsRun(ws, ss) && i < |ws|
    ensures BuffersInv(ws[i]) && OrderInv(ws[i])
  {
    hide Runs.Next, OrderInv, BuffersInv;
    BuffersHold(ws, ss, i);
    if i == 0 {
      OrderStarts(ws[0]);
    } else {
      BuffersHold(ws, ss, i - 1);
      OrderHolds(ws, ss, i - 1);
      OrderStep(ws[i - 1], ss[i - 1], ws[i]);
    }
  }
}
