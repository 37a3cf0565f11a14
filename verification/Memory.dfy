/** The simulated memory as the program keeps it: the store lists, the ranges of the
    cache lines and the crashed processes, all updated in place. */
module Memory {
  import opened DecisionTree
  import opened NodeStacks
  import opened Actions
  import opened ReadAssembly
  import opened CrashLoads
  import opened LoadTheorems
  import opened MemoryState

  // ----- decisions put to the stack -----

  /** Every decision the program makes has two choices. */
  ghost predicate Binary<R>(t: Tree<R>) {
    t.Node? ==> |t.kids| == 2 && Binary(t.kids[0]) && Binary(t.kids[1])
  }

  predicate AllBinary(s: Stack) {
    StackOk(s) && forall k :: 0 <= k < |s.nodes| ==> s.nodes[k].size == 2
  }

  /** Where the decisions of `t`, put to the stack `s` one after the other, lead. */
  ghost function Drive<R>(s: Stack, t: Tree<R>): (r: (Stack, R))
    requires AllBinary(s) && Binary(t)
    ensures AllBinary(r.0)
    decreases t
  {
    match t
    case Leaf(r) => (s, r)
    case Node(kids) =>
      var s' := Explore(s, 2);
      assert AllBinary(s');
      assert Taken(s') < s'.nodes[s'.head].size;
      Drive(s', kids[Taken(s')])
  }

  lemma {:induction false} DriveLeaf<R>(s: Stack, t: Tree<R>)
    requires AllBinary(s) && Binary(t)
    ensures HasLeaf(t, Drive(s, t).1)
    decreases t
  {
    if t.Node? {
      var s' := Explore(s, 2);
      assert AllBinary(s');
      assert Taken(s') < s'.nodes[s'.head].size;
      DriveLeaf(s', t.kids[Taken(s')]);
    }
  }

  lemma {:induction false} WalkBinary(x: Context, n: nat, s: LoadState)
    requires n <= |x.stores|
    ensures Binary(Walk(x, n, s))
    decreases n, 1
  {
    hide RangeOf, Fill, Crash, ReadLive, CrashPoint, Equivalent, WalkCrashed;
    if n > 0 && !Full(s.rf) {
      var w := x.stores[n - 1];
      if w.pid in s.crashes {
        WalkCrashedBinary(x, n, s);
      } else {
        WalkCrashedBinary(x, n, Crash(x, s, w.pid));
        WalkBinary(x, n - 1, s);
        WalkBinary(x, n - 1, s.(rf := Fill(w, x.read, s.rf)));
        WalkBinary(x, n - 1, ReadLive(x, s, w));
      }
    }
  }

  lemma {:induction false} WalkCrashedBinary(x: Context, n: nat, s: LoadState)
    requires 0 < n <= |x.stores|
    ensures Binary(WalkCrashed(x, n, s))
    decreases n, 0
  {
    hide Fill, RangeOf, Lost, Persisted, Walk, Skips, Full;
    var w := x.stores[n - 1];
    var r := RangeOf(x, s, w.pid);
    if w.seqNum <= r.begin {
      WalkBinary(x, n - 1, s.(rf := Fill(w, x.read, s.rf)));
    } else if (r.end == 0 || w.seqNum < r.end) && !Skips(x, n) && Fill(w, x.read, s.rf) != s.rf {
      WalkBinary(x, n - 1, Lost(x, s, w));
      WalkBinary(x, n - 1, Persisted(x, s, w));
    } else {
      WalkBinary(x, n - 1, s);
    }
  }

  /** Where the walk over the oldest `n` stores leads, driven by the stack `st`. */
  ghost function DriveWalk(st: Stack, x: Context, n: nat, s: LoadState): (Stack, LoadState)
    requires AllBinary(st) && n <= |x.stores|
  {
    WalkBinary(x, n, s);
    Drive(st, Walk(x, n, s))
  }

  ghost function DriveCrashed(st: Stack, x: Context, n: nat, s: LoadState): (Stack, LoadState)
    requires AllBinary(st) && 0 < n <= |x.stores|
  {
    WalkCrashedBinary(x, n, s);
    Drive(st, WalkCrashed(x, n, s))
  }

  lemma ExploreBinary(s: Stack)
    requires AllBinary(s)
    ensures AllBinary(Explore(s, 2)) && Taken(Explore(s, 2)) < 2
  {
    var s' := Explore(s, 2);
    assert Taken(s') < s'.nodes[s'.head].size;
  }

  lemma DriveNode<R>(s: Stack, a: Tree<R>, b: Tree<R>)
    requires AllBinary(s) && Binary(a) && Binary(b)
    ensures AllBinary(Explore(s, 2)) && Taken(Explore(s, 2)) < 2
    ensures Drive(s, Node([a, b])) == Drive(Explore(s, 2), if Taken(Explore(s, 2)) == 0 then a else b)
  {
    ExploreBinary(s);
  }

  /** The decision on a store of a running process, put to the stack `st`. */
  function RunningStep(st: Stack, x: Context, n: nat, s: LoadState): (Stack, LoadState)
    requires AllBinary(st) && 0 < n <= |x.stores|
  {
    var w := x.stores[n - 1];
    if Fill(w, x.read, s.rf) == s.rf then (st, s)
    else if w.kind == AtomicInit || w.pid == x.read.pid then (st, s.(rf := Fill(w, x.read, s.rf)))
    else if CrashPoint(x, s, w) then
      var st' := Explore(st, 2);
      (st', if Taken(st') == 0 then Crash(x, s, w.pid) else ReadLive(x, s, w))
    else (st, ReadLive(x, s, w))
  }

  /** The decision on a store of a crashed process, put to the stack `st`. */
  function CrashedStep(st: Stack, x: Context, n: nat, s: LoadState): (Stack, LoadState)
    requires AllBinary(st) && 0 < n <= |x.stores|
  {
    var w := x.stores[n - 1];
    var r := RangeOf(x, s, w.pid);
    if w.seqNum <= r.begin then (st, s.(rf := Fill(w, x.read, s.rf)))
    else if r.end == 0 || w.seqNum < r.end then
      if Skips(x, n) then (st, s) else PersistStep(st, x, w, s)
    else (st, s)
  }

  /** Did the store `w` of a crashed process persist? Asked only if the load needs it. */
  function PersistStep(st: Stack, x: Context, w: Action, s: LoadState): (Stack, LoadState)
    requires AllBinary(st)
  {
    if Fill(w, x.read, s.rf) == s.rf then (st, s)
    else if w.kind != AtomicInit && x.backtrack then
      var st' := Explore(st, 2);
      (st', if Taken(st') == 0 then Lost(x, s, w) else Persisted(x, s, w))
    else (st, Persisted(x, s, w))
  }

  lemma CrashedStepDrives(st: Stack, x: Context, n: nat, s: LoadState)
    requires AllBinary(st) && 0 < n <= |x.stores|
    ensures var (st', s1) := CrashedStep(st, x, n, s);
            AllBinary(st') && NextCrashed(x, n, s, s1) && DriveWalk(st', x, n - 1, s1) == DriveCrashed(st, x, n, s)
  {
    hide Fill, Explore, AllBinary, Equivalent, Drive;
    var w := x.stores[n - 1];
    ExploreBinary(st);
    WalkBinary(x, n - 1, Lost(x, s, w));
    WalkBinary(x, n - 1, Persisted(x, s, w));
    DriveNode(st, Walk(x, n - 1, Lost(x, s, w)), Walk(x, n - 1, Persisted(x, s, w)));
  }

  lemma RunningStepDrives(st: Stack, x: Context, n: nat, s: LoadState)
    requires AllBinary(st) && 0 < n <= |x.stores| && !Full(s.rf) && x.stores[n - 1].pid !in s.crashes
    ensures var (st', s1) := RunningStep(st, x, n, s);
            && AllBinary(st')
            && if x.stores[n - 1].pid in s1.crashes then
                 && s1.rf == s.rf
                 && DriveCrashed(st', x, n, s1) == DriveWalk(st, x, n, s)
                 && forall s2 :: NextCrashed(x, n, s1, s2) ==> Next(x, n, s, s2)
               else Next(x, n, s, s1) && DriveWalk(st', x, n - 1, s1) == DriveWalk(st, x, n, s)
  {
    var w := x.stores[n - 1];
    ExploreBinary(st);
    WalkBinary(x, n - 1, ReadLive(x, s, w));
    WalkCrashedBinary(x, n, Crash(x, s, w.pid));
    DriveNode(st, WalkCrashed(x, n, Crash(x, s, w.pid)), Walk(x, n - 1, ReadLive(x, s, w)));
  }

  /** Where the stack leads is an end of the load. */
  lemma WalkEnds(st: Stack, x: Context, s: LoadState)
    requires AllBinary(st)
    ensures Ends(x, s, DriveWalk(st, x, |x.stores|, s).1)
  {
    WalkBinary(x, |x.stores|, s);
    DriveLeaf(st, Walk(x, |x.stores|, s));
  }

  lemma WalkFull(st: Stack, x: Context, n: nat, s: LoadState)
    requires AllBinary(st) && n <= |x.stores| && Full(s.rf)
    ensures DriveWalk(st, x, n, s) == (st, s)
  {
  }

  /** The walk keeps sources on the bytes they cover, and the initial value completes them. */
  lemma NextCovers(x: Context, n: nat, s: LoadState, s1: LoadState)
    requires ContextOk(x) && 0 < n <= |x.stores| && Next(x, n, s, s1)
    requires |s.rf| == x.read.size && SourcesCover(x.read, s.rf)
    ensures |s1.rf| == x.read.size && SourcesCover(x.read, s1.rf)
    ensures n == 1 ==> Full(s1.rf)
  {
    FillCovers(x, x.stores[n - 1], s.rf);
    if n == 1 {
      InitialFills(x, s, s1);
    }
  }

  /** Where the decision of a flush leads, driven by the stack `st`. */
  ghost function DriveFlush(st: Stack, m: Mem, a: Action): (Stack, Mem)
    requires AllBinary(st)
  {
    FlushBinary(m, a);
    Drive(st, FlushTree(m, a))
  }

  lemma {:induction false} SameCandidate(m: Mem, m': Mem, stores: seq<Action>, n: nat, least: Clock)
    requires n <= |stores| && m'.crashes == m.crashes && m'.completed == m.completed
    ensures Candidate(m', stores, n, least) == Candidate(m, stores, n, least)
  {
    if n > 0 {
      SameCandidate(m, m', stores, n - 1, least);
    }
  }

  /** The decision of a flush, put to the stack `st`. */
  function FlushStep(st: Stack, m: Mem, a: Action): (Stack, Mem)
    requires AllBinary(st)
  {
    var done := Flushed(m, a);
    match FlushCandidate(m, a)
    case Some(p) =>
      if m.cfg.backtrack && MayCrash(m) then
        var st' := Explore(st, 2);
        (st', if Taken(st') == 0 then CrashNow(done, p) else done)
      else (st, done)
    case None => (st, done)
  }

  lemma FlushStepDrives(st: Stack, m: Mem, a: Action)
    requires AllBinary(st)
    ensures FlushStep(st, m, a) == DriveFlush(st, m, a)
    ensures HasLeaf(FlushTree(m, a), FlushStep(st, m, a).1)
  {
    DriveFlushLeaf(st, m, a);
    match FlushCandidate(m, a)
    case Some(p) =>
      DriveNode(st, Leaf(CrashNow(Flushed(m, a), p)), Leaf(Flushed(m, a)));
    case None =>
  }

  lemma DriveFlushLeaf(st: Stack, m: Mem, a: Action)
    requires AllBinary(st)
    ensures HasLeaf(FlushTree(m, a), DriveFlush(st, m, a).1)
  {
    FlushBinary(m, a);
    DriveLeaf(st, FlushTree(m, a));
  }

  /** Exactly the process of which the question is crashes, if that is the choice taken. */
  lemma FlushStepAsks(st: Stack, m: Mem, a: Action)
    requires AllBinary(st)
    ensures var (st', m') := FlushStep(st, m, a);
            && st' == (if exists p :: CrashAsked(m, a, p) then Explore(st, 2) else st)
            && forall p :: p in m'.crashes && p !in m.crashes <==>
                 CrashAsked(m, a, p) && Taken(Explore(st, 2)) == 0
  {
    hide CrashAsked, AllBinary, Explore;
    ExploreBinary(st);
    forall p
      ensures CrashAsked(m, a, p) <==> m.cfg.backtrack && MayCrash(m) && FlushCandidate(m, a) == Some(p)
      ensures CrashAsked(m, a, p) ==> Live(m, p)
    {
      CandidateAsked(m, a, p);
    }
    hide FlushCandidate, MayCrash;
    if m.cfg.backtrack && MayCrash(m) && FlushCandidate(m, a).Some? {
      var p := FlushCandidate(m, a).value;
      assert CrashAsked(m, a, p);
    }
  }

  predicate Past(stores: seq<Action>, now: Clock) {
    forall j :: 1 <= j < |stores| ==> stores[j].seqNum < now
  }

  lemma FlushBinary(m: Mem, a: Action)
    ensures Binary(FlushTree(m, a))
  {
  }

  lemma AppendOk(stores: seq<Action>, slot: Address, a: Action)
    requires ListOk(stores, slot) && Past(stores, a.seqNum)
    requires Aligned(a) && Slot(a.loc) == slot && a.kind != AtomicInit
    ensures ListOk(stores + [a], slot) && Past(stores + [a], a.seqNum + 1)
  {
  }

  // ----- the memory -----

  class Model {
    const processCount: nat
    const skip: bool
    var backtrack: bool
    var nextSequenceNum: Clock
    var objToWr: map<Address, seq<Action>>
    var objToCl: Lines
    var crashes: map<Pid, Clock>
    var completedProcs: set<Pid>
    var crashPoints: nat
    const nodestack: NodeStack

    ghost predicate Valid()
      reads this, nodestack, nodestack.Repr
    {
      StackReady() && ListsOk()
    }

    ghost predicate StackReady()
      reads nodestack, nodestack.Repr
    {
      nodestack.Valid() && this !in nodestack.Repr && AllBinary(nodestack.value)
    }

    /** Every list is well-formed, and the clock is past all of it. */
    ghost predicate ListsOk()
      reads this`objToWr, this`nextSequenceNum
    {
      forall slot :: slot in objToWr ==>
        objToWr[slot] == [] || (ListOk(objToWr[slot], slot) && Past(objToWr[slot], nextSequenceNum))
    }

    function Value(): Mem
      reads this
    {
      Mem(Config(processCount, backtrack, skip), objToWr, objToCl, crashes, completedProcs, nextSequenceNum)
    }

    constructor (processCount: nat, skip: bool, backtrack: bool)
      ensures Valid() && fresh(nodestack) && fresh(nodestack.Repr)
      ensures Value() == Mem(Config(processCount, backtrack, skip), map[], map[], map[], {}, 0)
      ensures nodestack.value == FRESH
    {
      this.processCount, this.skip, this.backtrack := processCount, skip, backtrack;
      nextSequenceNum, objToWr, objToCl := 0, map[], map[];
      crashes, completedProcs, crashPoints := map[], {}, 0;
      nodestack := new NodeStack();
    }

    method DecisionPoint() returns (choice: nat)
      requires StackReady()
      modifies nodestack.Repr
      ensures StackReady() && fresh(nodestack.Repr - old(nodestack.Repr))
      ensures nodestack.value == Explore(old(nodestack.value), 2)
      ensures choice == Taken(nodestack.value) && choice < 2
    {
      choice := nodestack.ExploreNext(2);
      assert forall k :: 0 <= k < |nodestack.value.nodes| ==> nodestack.value.nodes[k].size == 2;
    }

    method EnsureInitialValue(action: Action, memory: nat)
      requires Valid() && Aligned(action)
      modifies this`objToWr
      ensures Valid() && Value() == EnsureInitial(old(Value()), action, memory)
      ensures old(StoreList(Value(), action.loc)) != [] ==> objToWr == old(objToWr)
      ensures old(StoreList(Value(), action.loc)) == [] ==>
        && |StoreList(Value(), action.loc)| == 1
        && HoldsMemory(StoreList(Value(), action.loc)[0], Slot(action.loc), memory)
        && objToWr - {Slot(action.loc)} == old(objToWr) - {Slot(action.loc)}
    {
      var slot := Slot(action.loc);
      if slot !in objToWr || objToWr[slot] == [] {
        objToWr := objToWr[slot := [Action(action.tid, action.pid, AtomicInit, slot, 8, memory, 0, 0)]];
      }
    }

    // ----- evictions -----

    method EvictStore(action: Action) returns (evicted: Action)
      requires IsWrite(action.kind)
      modifies this`objToWr, this`nextSequenceNum
      ensures Value() == MemoryState.EvictStore(old(Value()), action)
      ensures evicted == EvictedStore(old(Value()), action)
      ensures old(ListsOk() && StoreList(Value(), action.loc) != []) && Aligned(action) && action.kind != AtomicInit ==>
              ListsOk()
    {
      var slot := Slot(action.loc);
      var list := if slot in objToWr then objToWr[slot] else [];
      evicted := action.(seqNum := nextSequenceNum);
      ghost var fits := list != [] && ListsOk() && Aligned(action) && action.kind != AtomicInit;
      if fits {
        AppendOk(list, slot, evicted);
      }
      nextSequenceNum := nextSequenceNum + 1;
      objToWr := objToWr[slot := list + [evicted]];
    }

    /** Asks whether process `pid` crashes here; if it is the one that runs, it ends. */
    method InsertCrash(pid: Pid, processId: Pid) returns (exited: bool)
      requires StackReady()
      modifies this`crashes, this`crashPoints, nodestack.Repr
      ensures StackReady() && fresh(nodestack.Repr - old(nodestack.Repr))
      ensures var ask := backtrack && MayCrash(old(Value()));
              && nodestack.value == (if ask then Explore(old(nodestack.value), 2) else old(nodestack.value))
              && Value() == (if ask && Taken(nodestack.value) == 0 then CrashNow(old(Value()), pid) else old(Value()))
              && (exited <==> ask && Taken(nodestack.value) == 0 && pid == processId)
    {
      exited := false;
      if backtrack && |crashes| < MAX_CRASHES && |crashes| + 1 < processCount {
        crashPoints := crashPoints + 1;
        var choice := DecisionPoint();
        if choice == 0 {
          crashes := crashes[pid := nextSequenceNum];
          exited := pid == processId;
        }
      }
    }

    /** Raises `begin` of the line to `seqNum` for every process; returns the least one raised. */
    method RaiseAll(line: Address, seqNum: Clock) returns (min: Clock)
      modifies this`objToCl
      ensures objToCl == RaiseBegins(old(objToCl), processCount, line, seqNum)
      ensures min == LeastBegin(old(objToCl), processCount, line, seqNum)
    {
      min := seqNum;
      for i := 0 to processCount
        invariant objToCl == RaiseBegins(old(objToCl), i, line, seqNum)
        invariant min == LeastBegin(old(objToCl), i, line, seqNum)
      {
        RaiseEffect(old(objToCl), i, line, seqNum, Key(i, line));
        var cl := if Key(i, line) in objToCl then objToCl[Key(i, line)] else Range(0, 0);
        if cl.begin < seqNum {
          if cl.begin < min {
            min := cl.begin;
          }
          objToCl := objToCl[Key(i, line) := Range(seqNum, cl.end)];
        }
      }
    }

    /** Crashes the live writer of the newest store that was not flushed before, if asked to. */
    method CrashWriter(stores: seq<Action>, min: Clock, processId: Pid) returns (exited: bool)
      requires StackReady()
      modifies this`crashes, this`crashPoints, nodestack.Repr
      ensures StackReady() && fresh(nodestack.Repr - old(nodestack.Repr))
      ensures var candidate := Candidate(old(Value()), stores, |stores|, min);
              var ask := candidate.Some? && backtrack && MayCrash(old(Value()));
              && nodestack.value == (if ask then Explore(old(nodestack.value), 2) else old(nodestack.value))
              && Value() == (if ask && Taken(nodestack.value) == 0 then CrashNow(old(Value()), candidate.value)
                else old(Value()))
      ensures exited ==> Value() != old(Value())
      ensures nodestack.value == if ToCrash(old(Value()), stores, min) then Explore(old(nodestack.value), 2)
              else old(nodestack.value)
      ensures forall p :: p in crashes && p !in old(crashes) <==>
        && ToCrash(old(Value()), stores, min) && Taken(Explore(old(nodestack.value), 2)) == 0
        && LastLiveWriter(old(Value()), stores, min, p)
    {
      hide LastLiveWriter, ToCrash, AllBinary, NodeStack.Valid;
      ghost var m := Value();
      CandidateFound(m, stores, min);
      exited := false;
      var n := |stores|;
      while n > 0
        invariant 0 <= n <= |stores| && !exited
        invariant Candidate(m, stores, |stores|, min) == Candidate(m, stores, n, min)
        decreases n
      {
        if stores[n - 1].seqNum <= min || |crashes| >= MAX_CRASHES || |crashes| + 1 >= processCount {
          return;
        }
        var wpid := stores[n - 1].pid;
        if wpid !in crashes && wpid !in completedProcs {
          exited := InsertCrash(wpid, processId);
          return;
        }
        n := n - 1;
      }
    }

    /** A flush takes effect. */
    method EvictClflush(action: Action, processId: Pid) returns (exited: bool)
      requires Valid() && (action.kind == Clflush || action.kind == ClflushOpt)
      modifies this`objToCl, this`nextSequenceNum, this`crashes, this`crashPoints, nodestack.Repr
      ensures Valid() && fresh(nodestack.Repr - old(nodestack.Repr))
      ensures (nodestack.value, Value()) == DriveFlush(old(nodestack.value), old(Value()), action)
      ensures HasLeaf(FlushTree(old(Value()), action), Value())
      ensures exited ==> crashes != old(crashes)
      ensures forall p :: p in crashes && p !in old(crashes) <==>
        CrashAsked(old(Value()), action, p) && Taken(Explore(old(nodestack.value), 2)) == 0
      ensures nodestack.value == if exists p :: CrashAsked(old(Value()), action, p)
              then Explore(old(nodestack.value), 2)
              else old(nodestack.value)
    {
      hide CrashAsked, HasLeaf, AllBinary, RaiseBegins, Candidate, NodeStack.Valid, FlushTree, ListOk, Line, DriveFlush,
          LeastBegin, LastLiveWriter, ToCrash, Explore;
      ghost var m, st := Value(), nodestack.value;
      FlushStepDrives(st, m, action);
      FlushStepAsks(st, m, action);
      var seqNum := action.effect;
      if action.kind == Clflush {
        seqNum := nextSequenceNum;
        nextSequenceNum := nextSequenceNum + 1;
      }
      var min := RaiseAll(Line(action.loc), seqNum);
      assert Value() == Flushed(m, action);
      var stores := if Slot(action.loc) in objToWr then objToWr[Slot(action.loc)] else [];
      SameCandidate(m, Flushed(m, action), stores, |stores|, min);
      exited := CrashWriter(stores, min, processId);
    }

    // ----- loads -----

    /** `x` describes a load of `read`: the crashed processes and the ranges are not part of it. */
    ghost predicate Describes(x: Context, read: Action)
      reads this
    {
      x == ContextFor(Value(), read)
    }

    function State(rf: array<Option<Action>>): LoadState
      reads this, rf
    {
      LoadState(rf[..], crashes, objToCl)
    }

    method GetCacheline(pid: Pid, line: Address) returns (r: Range)
      ensures r == GetLine(objToCl, Key(pid, line))
    {
      r := if Key(pid, line) in objToCl then objToCl[Key(pid, line)] else Range(0, 0);
    }

    /** Is the writer of `store` to be crashed before it is read? */
    method AskCrash(store: Action, begin: Clock) returns (crash: bool)
      requires StackReady()
      modifies this`crashPoints, nodestack.Repr
      ensures StackReady() && fresh(nodestack.Repr - old(nodestack.Repr))
      ensures var ask := backtrack && |crashes| < MAX_CRASHES && |crashes| + 1 < processCount
                && store.pid !in completedProcs && store.seqNum > begin;
              && nodestack.value == (if ask then Explore(old(nodestack.value), 2) else old(nodestack.value))
              && (crash <==> ask && Taken(nodestack.value) == 0)
    {
      crash := false;
      var crashCount := |crashes|;
      if backtrack && crashCount < MAX_CRASHES && crashCount + 1 < processCount
         && store.pid !in completedProcs && store.seqNum > begin {
        crashPoints := crashPoints + 1;
        var choice := DecisionPoint();
        crash := choice == 0;
      }
    }

    /** A store whose process is running: it is read, unless its process is crashed first. */
    method ReadFromRunning(ghost x: Context, ghost n: nat, read: Action, store: Action, rf: array<Option<Action>>,
        numslotsleft: nat)
      returns (rf': array<Option<Action>>, left: nat)
      requires StackReady() && Describes(x, read) && 0 < n <= |x.stores| && store == x.stores[n - 1]
      requires rf.Length == read.size && rf !in nodestack.Repr
      requires numslotsleft == Missing(rf[..]) > 0 && store.pid !in crashes
      modifies this`crashes, this`objToCl, this`crashPoints, nodestack.Repr, rf
      ensures StackReady() && fresh(nodestack.Repr - old(nodestack.Repr))
      ensures rf'.Length == read.size && rf' !in nodestack.Repr && (rf' == rf || fresh(rf'))
      ensures left == Missing(rf'[..])
      ensures (nodestack.value, State(rf')) == RunningStep(old(nodestack.value), x, n, old(State(rf)))
    {
      hide Fill, AllBinary, NodeStack.Valid, Explore, Line;
      ghost var s := State(rf);
      rf' := rf;
      var saved;
      saved, left := GetOverlapsSaveOld(store, read, rf, numslotsleft);
      if saved == null {
        assert State(rf) == s;
        return;
      }
      if store.kind == AtomicInit || store.pid == read.pid {
        assert State(rf) == s.(rf := Fill(store, read, s.rf));
        return;
      }
      var cl := GetCacheline(store.pid, Line(read.loc));
      var crash := AskCrash(store, cl.begin);
      if crash {
        crashes := crashes[store.pid := nextSequenceNum];
        rf' := saved;
        left := numslotsleft;
        assert State(rf') == Crash(x, s, store.pid);
        return;
      }
      if store.seqNum > cl.begin {
        objToCl := objToCl[Key(store.pid, Line(read.loc)) := Range(store.seqNum, cl.end)];
      }
      assert State(rf) == ReadLive(x, s, store);
    }

    /** A store whose process has crashed and that may have persisted. */
    method DecidePersist(ghost x: Context, read: Action, store: Action, rf: array<Option<Action>>, numslotsleft: nat)
      returns (rf': array<Option<Action>>, left: nat)
      requires StackReady() && x.read == read && x.backtrack == backtrack
      requires rf.Length == read.size && rf !in nodestack.Repr
      requires numslotsleft == Missing(rf[..]) > 0
      modifies this`objToCl, nodestack.Repr, rf
      ensures StackReady() && fresh(nodestack.Repr - old(nodestack.Repr))
      ensures rf'.Length == read.size && rf' !in nodestack.Repr && (rf' == rf || fresh(rf'))
      ensures left == Missing(rf'[..])
      ensures (nodestack.value, State(rf')) == PersistStep(old(nodestack.value), x, store, old(State(rf)))
    {
      hide Fill, AllBinary, NodeStack.Valid, Explore, Line;
      ghost var s := State(rf);
      rf' := rf;
      var cl := GetCacheline(store.pid, Line(read.loc));
      var saved;
      saved, left := GetOverlapsSaveOld(store, read, rf, numslotsleft);
      if saved == null {
        assert State(rf) == s;
        return;
      }
      if store.kind != AtomicInit && backtrack {
        var choice := DecisionPoint();
        if choice == 0 {
          rf' := saved;
          left := numslotsleft;
          objToCl := objToCl[Key(store.pid, Line(read.loc)) := Range(cl.begin, store.seqNum)];
          assert State(rf') == Lost(x, s, store);
          return;
        }
      }
      objToCl := objToCl[Key(store.pid, Line(read.loc)) := Range(store.seqNum, cl.end)];
      assert State(rf) == Persisted(x, s, store);
    }

    /** A store whose process has crashed: it persisted, or did not, or that is decided now. */
    method ReadFromCrashed(ghost x: Context, ghost n: nat, read: Action, store: Action, older: Option<Action>,
        rf: array<Option<Action>>, numslotsleft: nat)
      returns (rf': array<Option<Action>>, left: nat)
      requires StackReady() && 0 < n <= |x.stores| && store == x.stores[n - 1]
      requires x.read == read && x.backtrack == backtrack && x.skip == skip
      requires older == if n >= 2 then Some(x.stores[n - 2]) else None
      requires rf.Length == read.size && rf !in nodestack.Repr
      requires numslotsleft == Missing(rf[..]) > 0
      modifies this`objToCl, nodestack.Repr, rf
      ensures StackReady() && fresh(nodestack.Repr - old(nodestack.Repr))
      ensures rf'.Length == read.size && rf' !in nodestack.Repr && (rf' == rf || fresh(rf'))
      ensures left == Missing(rf'[..])
      ensures (nodestack.value, State(rf')) == CrashedStep(old(nodestack.value), x, n, old(State(rf)))
    {
      ghost var s := State(rf);
      rf', left := rf, numslotsleft;
      var cl := GetCacheline(store.pid, Line(read.loc));
      if store.seqNum <= cl.begin {
        var found;
        found, left := GetOverlaps(store, read, rf, numslotsleft);
        assert State(rf) == s.(rf := Fill(store, read, s.rf));
      } else if cl.end == 0 || store.seqNum < cl.end {
        if skip && older.Some? && Equivalent(store, older.value) {
          return;
        }
        rf', left := DecidePersist(x, read, store, rf, numslotsleft);
      }
    }

    method VisitCrashed(ghost x: Context, ghost n: nat, read: Action, store: Action, older: Option<Action>,
        rf: array<Option<Action>>, numslotsleft: nat)
      returns (rf': array<Option<Action>>, left: nat)
      requires StackReady() && Describes(x, read) && 0 < n <= |x.stores| && store == x.stores[n - 1]
      requires older == if n >= 2 then Some(x.stores[n - 2]) else None
      requires rf.Length == read.size && rf !in nodestack.Repr
      requires numslotsleft == Missing(rf[..]) > 0
      modifies this`objToCl, nodestack.Repr, rf
      ensures StackReady() && fresh(nodestack.Repr - old(nodestack.Repr))
      ensures rf'.Length == read.size && rf' !in nodestack.Repr && (rf' == rf || fresh(rf'))
      ensures left == Missing(rf'[..])
      ensures NextCrashed(x, n, old(State(rf)), State(rf'))
      ensures DriveWalk(nodestack.value, x, n - 1, State(rf')) == DriveCrashed(old(nodestack.value), x, n,
              old(State(rf)))
    {
      CrashedStepDrives(nodestack.value, x, n, State(rf));
      rf', left := ReadFromCrashed(x, n, read, store, older, rf, numslotsleft);
    }

    method VisitRunning(ghost x: Context, ghost n: nat, read: Action, store: Action, older: Option<Action>,
        rf: array<Option<Action>>, numslotsleft: nat)
      returns (rf': array<Option<Action>>, left: nat)
      requires StackReady() && Describes(x, read) && 0 < n <= |x.stores| && store == x.stores[n - 1]
               && store.pid !in crashes
      requires older == if n >= 2 then Some(x.stores[n - 2]) else None
      requires rf.Length == read.size && rf !in nodestack.Repr
      requires numslotsleft == Missing(rf[..]) > 0
      modifies this`crashes, this`objToCl, this`crashPoints, nodestack.Repr, rf
      ensures StackReady() && fresh(nodestack.Repr - old(nodestack.Repr))
      ensures rf'.Length == read.size && rf' !in nodestack.Repr && (rf' == rf || fresh(rf'))
      ensures left == Missing(rf'[..])
      ensures Next(x, n, old(State(rf)), State(rf'))
      ensures DriveWalk(nodestack.value, x, n - 1, State(rf')) == DriveWalk(old(nodestack.value), x, n, old(State(rf)))
    {
      hide HasLeaf, Next, NextCrashed, Fill, DriveWalk, DriveCrashed, RunningStep, AllBinary, NodeStack.Valid, Taken;
      ghost var s := State(rf);
      MissingZero(rf[..]);
      RunningStepDrives(nodestack.value, x, n, s);
      rf', left := ReadFromRunning(x, n, read, store, rf, numslotsleft);
      if store.pid in crashes {
        assert rf'[..] == State(rf').rf == s.rf;
        rf', left := VisitCrashed(x, n, read, store, older, rf', left);
      }
    }

    /** One round of the walk. */
    method VisitStore(ghost x: Context, ghost n: nat, read: Action, store: Action, older: Option<Action>,
        rf: array<Option<Action>>, numslotsleft: nat)
      returns (rf': array<Option<Action>>, left: nat)
      requires StackReady() && Describes(x, read) && 0 < n <= |x.stores| && store == x.stores[n - 1]
      requires older == if n >= 2 then Some(x.stores[n - 2]) else None
      requires rf.Length == read.size && rf !in nodestack.Repr
      requires numslotsleft == Missing(rf[..]) > 0
      modifies this`crashes, this`objToCl, this`crashPoints, nodestack.Repr, rf
      ensures StackReady() && fresh(nodestack.Repr - old(nodestack.Repr))
      ensures rf'.Length == read.size && rf' !in nodestack.Repr && (rf' == rf || fresh(rf'))
      ensures left == Missing(rf'[..])
      ensures Next(x, n, old(State(rf)), State(rf'))
      ensures DriveWalk(nodestack.value, x, n - 1, State(rf')) == DriveWalk(old(nodestack.value), x, n, old(State(rf)))
    {
      if store.pid !in crashes {
        rf', left := VisitRunning(x, n, read, store, older, rf, numslotsleft);
      } else {
        MissingZero(rf[..]);
        rf', left := VisitCrashed(x, n, read, store, older, rf, numslotsleft);
      }
    }

    lemma StoresThere(read: Action, x: Context)
      requires Describes(x, read) && ContextOk(x)
      ensures Slot(read.loc) in objToWr && x.stores == objToWr[Slot(read.loc)] && |x.stores| >= 1
      ensures x.read == read
    {
    }

    /** The load of `read`; `bypassed` holds what the store buffer provided. */
    method BuildReadFrom(read: Action, bypassed: array<Option<Action>>, numslotsleft: nat, ghost x: Context)
      returns (value: nat, rf: array<Option<Action>>)
      requires Valid() && Describes(x, read) && ContextOk(x)
      requires bypassed.Length == read.size && bypassed !in nodestack.Repr
      requires SourcesCover(read, bypassed[..]) && numslotsleft == Missing(bypassed[..]) > 0
      modifies this`crashes, this`objToCl, this`crashPoints, nodestack.Repr, bypassed
      ensures Valid() && fresh(nodestack.Repr - old(nodestack.Repr))
      ensures (nodestack.value, State(rf)) == DriveWalk(old(nodestack.value), x, |x.stores|, old(State(bypassed)))
      ensures Ends(x, old(State(bypassed)), State(rf))
      ensures rf.Length == read.size && SourcesCover(read, rf[..]) && Full(rf[..]) && value < Pow256(read.size)
      ensures forall i :: 0 <= i < read.size ==> ByteOf(value, i) == Bytes(x, State(rf))[i]
    {
      hide HasLeaf, Walk, Next, AllBinary, Full, NodeStack.Valid, DriveWalk, Fill, ByteOf, Ends, ContextOk, ListOk,
          Past;
      StoresThere(read, x);
      ghost var s0, st0 := State(bypassed), nodestack.value;
      ghost var goal := DriveWalk(st0, x, |x.stores|, s0);
      rf := bypassed;
      var left := numslotsleft;
      var stores := objToWr[Slot(read.loc)];
      var n := |stores|;
      while n > 0
        invariant 1 <= n <= |stores| && StackReady() && fresh(nodestack.Repr - old(nodestack.Repr))
        invariant Describes(x, read)
        invariant rf.Length == read.size && rf !in nodestack.Repr && (rf == bypassed || fresh(rf))
        invariant left == Missing(rf[..]) > 0 && SourcesCover(read, rf[..])
        invariant DriveWalk(nodestack.value, x, n, State(rf)) == goal
      {
        ghost var s := State(rf);
        rf, left := VisitStore(x, n, read, stores[n - 1], if n >= 2 then Some(stores[n - 2]) else None, rf, left);
        NextCovers(x, n, s, State(rf));
        n := n - 1;
        MissingZero(rf[..]);
        if left == 0 {
          WalkFull(nodestack.value, x, n, State(rf));
          WalkEnds(st0, x, s0);
          value := GetReadValue(read, rf);
          return;
        }
      }
    }
  }

  lemma {:induction false} BypassFull(sb: seq<Action>, n: nat, read: Action, rf: Sources)
    requires n <= |sb| && Full(rf)
    ensures Bypass(sb, n, read, rf) == rf
  {
    if n > 0 {
      assert Fill(sb[n - 1], read, rf) == rf;
      BypassFull(sb, n - 1, read, rf);
    }
  }

  lemma ClflushPops(c: Machine, c': Machine, exited: bool)
    requires c.b.sb != [] && c.b.sb[0].kind == Clflush && HasLeaf(FlushTree(c.m, c.b.sb[0]), c'.m)
    requires exited ==> c'.m.crashes != c.m.crashes
    requires var b := c.b.(sb := c.b.sb[1..]);
             c'.b == if exited then b else b.(last := b.last[Line(c.b.sb[0].loc) := c.m.next])
    ensures Pops(c, c')
  {
    hide FlushTree, HasLeaf;
  }

  /** The buffers of one thread. */
  class ThreadMemory {
    var storeBuffer: seq<Action>
    var flushBuffer: seq<Action>
    var lastSfence: Clock
    var clToLastWrClf: map<Address, Clock>

    constructor ()
      ensures Value() == Buffers([], [], 0, map[])
    {
      storeBuffer, flushBuffer, lastSfence, clToLastWrClf := [], [], 0, map[];
    }

    function Value(): Buffers
      reads this
    {
      Buffers(storeBuffer, flushBuffer, lastSfence, clToLastWrClf)
    }

    /** What may be buffered: writes to slots that have a list, flushes and fences. */
    ghost predicate Fit(model: Model)
      reads this`storeBuffer, this`flushBuffer, model`objToWr
    {
      && (forall k :: 0 <= k < |storeBuffer| ==> Bufferable(storeBuffer[k]))
      && (forall k :: 0 <= k < |storeBuffer| && IsWrite(storeBuffer[k].kind) ==>
            Slot(storeBuffer[k].loc) in model.objToWr && model.objToWr[Slot(storeBuffer[k].loc)] != [])
      && (forall k :: 0 <= k < |flushBuffer| ==> flushBuffer[k].kind == ClflushOpt)
    }

    method AddToStoreBuffer(action: Action)
      modifies this`storeBuffer
      ensures Value() == old(Value()).(sb := old(storeBuffer) + [action])
    {
      storeBuffer := storeBuffer + [action];
    }

    /** Store forwarding. */
    method LocalBypassing(read: Action, rf: array<Option<Action>>, numslotsleft: nat) returns (done: bool, left: nat)
      requires rf.Length == read.size && numslotsleft == Missing(rf[..]) > 0
      modifies rf
      ensures rf[..] == Bypass(storeBuffer, |storeBuffer|, read, old(rf[..]))
      ensures left == Missing(rf[..]) && (done <==> left == 0)
      ensures Aligned(read) && (forall k :: 0 <= k < |storeBuffer| ==> Bufferable(storeBuffer[k])) ==>
        forall i :: 0 <= i < read.size ==>
          if old(rf[..])[i].Some? then rf[i] == old(rf[..])[i]
          else Forwards(storeBuffer, |storeBuffer|, read.loc + i, rf[i])
    {
      hide Forwards, Aligned;
      done, left := false, numslotsleft;
      var n := |storeBuffer|;
      if Aligned(read) && forall k :: 0 <= k < |storeBuffer| ==> Bufferable(storeBuffer[k]) {
        AllForwarded(storeBuffer, read, rf[..]);
      }
      while n > 0
        invariant 0 <= n <= |storeBuffer| && !done
        invariant left == Missing(rf[..]) > 0
        invariant Bypass(storeBuffer, |storeBuffer|, read, old(rf[..])) == Bypass(storeBuffer, n, read, rf[..])
        decreases n
      {
        var write := storeBuffer[n - 1];
        if write.kind == NonAtomicStore {
          var found;
          found, left := GetOverlaps(write, read, rf, left);
          if left == 0 {
            MissingZero(rf[..]);
            BypassFull(storeBuffer, n - 1, read, rf[..]);
            done := true;
            return;
          }
        }
        n := n - 1;
      }
    }

    /** Pops a store. */
    method PopStore(model: Model, action: Action)
      requires storeBuffer != [] && action == storeBuffer[0] && IsWrite(action.kind)
      modifies this`storeBuffer, this`clToLastWrClf, model`objToWr, model`nextSequenceNum
      ensures old(model.ListsOk() && Fit(model)) ==> model.ListsOk() && Fit(model)
      ensures Pops(Machine(old(model.Value()), old(Value())), Machine(model.Value(), Value()))
    {
      storeBuffer := storeBuffer[1..];
      var evicted := model.EvictStore(action);
      clToLastWrClf := clToLastWrClf[Line(action.loc) := evicted.seqNum];
    }

    /** Takes the front of the flush buffer. */
    method FlushFront(model: Model, processId: Pid) returns (exited: bool)
      requires model.Valid() && Fit(model) && this !in model.nodestack.Repr && flushBuffer != []
      modifies this`flushBuffer, model`objToCl, model`nextSequenceNum, model`crashes, model`crashPoints
      modifies model.nodestack.Repr
      ensures model.Valid() && Fit(model) && this !in model.nodestack.Repr
      ensures fresh(model.nodestack.Repr - old(model.nodestack.Repr))
      ensures FlushesOne(Machine(old(model.Value()), old(Value())), Machine(model.Value(), Value()))
      ensures flushBuffer == old(flushBuffer)[1..]
      ensures exited ==> model.crashes != map[]
    {
      var action := flushBuffer[0];
      flushBuffer := flushBuffer[1..];
      exited := model.EvictClflush(action, processId);
    }

    method FlushNext(model: Model, processId: Pid, ghost start: Machine, ghost steps: nat)
        returns (exited: bool, ghost steps': nat)
      requires model.Valid() && Fit(model) && this !in model.nodestack.Repr && flushBuffer != []
      requires DrainChain(steps, start, Machine(model.Value(), Value()))
      modifies this`flushBuffer, model`objToCl, model`nextSequenceNum, model`crashes, model`crashPoints
      modifies model.nodestack.Repr
      ensures model.Valid() && Fit(model) && this !in model.nodestack.Repr
      ensures fresh(model.nodestack.Repr - old(model.nodestack.Repr))
      ensures exited ==> model.crashes != map[]
      ensures flushBuffer == old(flushBuffer)[1..]
      ensures DrainChain(steps', start, Machine(model.Value(), Value()))
    {
      hide DrainChain, AllBinary, NodeStack.Valid, ListOk, Past;
      ghost var before := Machine(model.Value(), Value());
      exited := FlushFront(model, processId);
      ChainStep(steps, start, before, Machine(model.Value(), Value()));
      steps' := steps + 1;
    }

    /** Drains the flush buffer, unless the process that does so crashes. */
    method EmptyFlushBuffer(model: Model, processId: Pid) returns (exited: bool, ghost steps: nat)
      requires model.Valid() && Fit(model) && this !in model.nodestack.Repr
      modifies this`flushBuffer, model`objToCl, model`nextSequenceNum, model`crashes, model`crashPoints
      modifies model.nodestack.Repr
      ensures model.Valid() && Fit(model) && this !in model.nodestack.Repr
      ensures fresh(model.nodestack.Repr - old(model.nodestack.Repr))
      ensures exited ==> model.crashes != map[]
      ensures !exited ==> flushBuffer == []
      ensures DrainChain(steps, Machine(old(model.Value()), old(Value())), Machine(model.Value(), Value()))
    {
      exited, steps := false, 0;
      ghost var start := Machine(model.Value(), Value());
      while flushBuffer != [] && !exited
        invariant model.Valid() && Fit(model) && this !in model.nodestack.Repr
        invariant fresh(model.nodestack.Repr - old(model.nodestack.Repr))
        invariant exited ==> model.crashes != map[]
        invariant DrainChain(steps, start, Machine(model.Value(), Value()))
        decreases |flushBuffer|
      {
        exited, steps := FlushNext(model, processId, start, steps);
      }
    }

    /** Takes the front of the store buffer. */
    method PopFromStoreBuffer(model: Model, processId: Pid) returns (exited: bool, ghost steps: nat)
      requires model.Valid() && Fit(model) && this !in model.nodestack.Repr
      modifies this, model`objToWr, model`objToCl, model`nextSequenceNum, model`crashes, model`crashPoints
      modifies model.nodestack.Repr
      ensures model.Valid() && Fit(model) && this !in model.nodestack.Repr
      ensures fresh(model.nodestack.Repr - old(model.nodestack.Repr))
      ensures storeBuffer == if old(storeBuffer) == [] then [] else old(storeBuffer)[1..]
      ensures exited ==> model.crashes != map[]
      ensures DrainChain(steps, Machine(old(model.Value()), old(Value())), Machine(model.Value(), Value()))
    {
      exited, steps := false, 0;
      if storeBuffer == [] {
        return;
      }
      ghost var start := Machine(model.Value(), Value());
      var action := storeBuffer[0];
      assert Bufferable(action);
      if IsWrite(action.kind) {
        PopStore(model, action);
        OneDrain(start, Machine(model.Value(), Value()));
        steps := 1;
      } else if action.kind == Clflush {
        exited := PopClflush(model, action, processId);
        OneDrain(start, Machine(model.Value(), Value()));
        steps := 1;
      } else if action.kind == ClflushOpt {
        PopClflushOpt(model, action);
        OneDrain(start, Machine(model.Value(), Value()));
        steps := 1;
      } else {
        exited, steps := PopSfence(model, action, processId);
      }
    }

    method PopClflush(model: Model, action: Action, processId: Pid) returns (exited: bool)
      requires model.Valid() && Fit(model) && this !in model.nodestack.Repr
      requires storeBuffer != [] && action == storeBuffer[0] && action.kind == Clflush
      modifies this, model`objToCl, model`nextSequenceNum, model`crashes, model`crashPoints
      modifies model.nodestack.Repr
      ensures model.Valid() && Fit(model) && this !in model.nodestack.Repr
      ensures fresh(model.nodestack.Repr - old(model.nodestack.Repr))
      ensures storeBuffer == old(storeBuffer)[1..]
      ensures exited ==> model.crashes != map[]
      ensures Pops(Machine(old(model.Value()), old(Value())), Machine(model.Value(), Value()))
    {
      hide HasLeaf, FlushTree, Pops, AllBinary, NodeStack.Valid, RaiseBegins, FlushCandidate, ListOk, Past, Bufferable,
          Line, DriveFlush;
      ghost var c := Machine(model.Value(), Value());
      storeBuffer := storeBuffer[1..];
      var seqNum := model.nextSequenceNum;
      exited := model.EvictClflush(action, processId);
      if !exited {
        clToLastWrClf := clToLastWrClf[Line(action.loc) := seqNum];
      }
      FlushLeaves(c.m, action, model.Value());
      ClflushPops(c, Machine(model.Value(), Value()), exited);
    }

    method PopClflushOpt(model: Model, action: Action)
      requires Fit(model)
      requires storeBuffer != [] && action == storeBuffer[0] && action.kind == ClflushOpt
      modifies this
      ensures Fit(model)
      ensures storeBuffer == old(storeBuffer)[1..]
      ensures Pops(Machine(old(model.Value()), old(Value())), Machine(model.Value(), Value()))
    {
      storeBuffer := storeBuffer[1..];
      var effect := action.effect;
      if lastSfence > effect {
        effect := lastSfence;
      }
      if Line(action.loc) in clToLastWrClf && clToLastWrClf[Line(action.loc)] > effect {
        effect := clToLastWrClf[Line(action.loc)];
      }
      flushBuffer := flushBuffer + [action.(effect := effect)];
    }

    method PopSfence(model: Model, action: Action, processId: Pid) returns (exited: bool, ghost steps: nat)
      requires model.Valid() && Fit(model) && this !in model.nodestack.Repr
      requires storeBuffer != [] && action == storeBuffer[0] && action.kind == Sfence
      modifies this, model`objToCl, model`nextSequenceNum, model`crashes, model`crashPoints
      modifies model.nodestack.Repr
      ensures model.Valid() && Fit(model) && this !in model.nodestack.Repr
      ensures fresh(model.nodestack.Repr - old(model.nodestack.Repr))
      ensures storeBuffer == old(storeBuffer)[1..]
      ensures exited ==> model.crashes != map[]
      ensures DrainChain(steps, Machine(old(model.Value()), old(Value())), Machine(model.Value(), Value()))
    {
      hide DrainChain, AllBinary, NodeStack.Valid, ListOk, Past, FlushesOne;
      ghost var start := Machine(model.Value(), Value());
      exited, steps := EmptyFlushBuffer(model, processId);
      ghost var drained := Machine(model.Value(), Value());
      storeBuffer := storeBuffer[1..];
      if !exited {
        lastSfence := action.seqNum;
      }
      ChainStep(steps, start, drained, Machine(model.Value(), Value()));
      steps := steps + 1;
    }

    method PopNext(model: Model, processId: Pid, ghost start: Machine, ghost steps: nat)
        returns (exited: bool, ghost steps': nat)
      requires model.Valid() && Fit(model) && this !in model.nodestack.Repr && storeBuffer != []
      requires DrainChain(steps, start, Machine(model.Value(), Value()))
      modifies this, model`objToWr, model`objToCl, model`nextSequenceNum, model`crashes, model`crashPoints
      modifies model.nodestack.Repr
      ensures model.Valid() && Fit(model) && this !in model.nodestack.Repr
      ensures fresh(model.nodestack.Repr - old(model.nodestack.Repr))
      ensures exited ==> model.crashes != map[]
      ensures |storeBuffer| < |old(storeBuffer)|
      ensures DrainChain(steps', start, Machine(model.Value(), Value()))
    {
      hide DrainChain;
      ghost var before := Machine(model.Value(), Value());
      ghost var more;
      exited, more := PopFromStoreBuffer(model, processId);
      ChainAppend(steps, more, start, before, Machine(model.Value(), Value()));
      steps' := steps + more;
    }

    /** Drains the store buffer, unless the process that does so crashes. */
    method EmptyStoreBuffer(model: Model, processId: Pid) returns (exited: bool, ghost steps: nat)
      requires model.Valid() && Fit(model) && this !in model.nodestack.Repr
      modifies this, model`objToWr, model`objToCl, model`nextSequenceNum, model`crashes, model`crashPoints
      modifies model.nodestack.Repr
      ensures model.Valid() && Fit(model) && this !in model.nodestack.Repr
      ensures fresh(model.nodestack.Repr - old(model.nodestack.Repr))
      ensures exited ==> model.crashes != map[]
      ensures !exited ==> storeBuffer == []
      ensures DrainChain(steps, Machine(old(model.Value()), old(Value())), Machine(model.Value(), Value()))
    {
      exited, steps := false, 0;
      ghost var start := Machine(model.Value(), Value());
      while storeBuffer != [] && !exited
        invariant model.Valid() && Fit(model) && this !in model.nodestack.Repr
        invariant fresh(model.nodestack.Repr - old(model.nodestack.Repr))
        invariant exited ==> model.crashes != map[]
        invariant DrainChain(steps, start, Machine(model.Value(), Value()))
        decreases |storeBuffer|
      {
        exited, steps := PopNext(model, processId, start, steps);
      }
    }

    /** A whole load: first the thread's own buffered stores, then the memory. */
    method Load(model: Model, read: Action) returns (value: nat)
      requires model.Valid() && Aligned(read) && StoreList(model.Value(), read.loc) != []
      requires Fit(model) && this !in model.nodestack.Repr
      modifies model`crashes, model`objToCl, model`crashPoints, model.nodestack.Repr
      ensures model.Valid() && value < Pow256(read.size)
      ensures this !in model.nodestack.Repr && fresh(model.nodestack.Repr - old(model.nodestack.Repr))
      ensures LoadReturns(old(model.Value()), Value(), read, model.Value(), value)
      ensures forall i :: 0 <= i < read.size ==>
        TakenFrom(storeBuffer, old(StoreList(model.Value(), read.loc)), read.loc + i, ByteOf(value, i))
    {
      hide TakenFrom, Forwards, Ends, Fill, Bypass, Bufferable, ListOk, NodeStack.Valid, AllBinary, Past, ByteOf,
          LoadReturns, Missing, Slot;
      ghost var m := model.Value();
      ghost var x := ContextFor(m, read);
      var rf := new Option<Action>[read.size](_ => None);
      assert rf[..] == NoSources(read.size);
      MissingAll(read.size);
      assert rf[..] == seq(read.size, _ => None);
      var done, left := LocalBypassing(read, rf, read.size);
      BypassCovers(storeBuffer, |storeBuffer|, read, NoSources(read.size));
      ghost var s := StartOf(m, rf[..]);
      MissingZero(rf[..]);
      assert model.State(rf) == s;
      if done {
        value := GetReadValue(read, rf);
        WalkDoneFull(x, s);
        ReturnsBy(m, Value(), read, m, value, s);
        AllTaken(m, storeBuffer, read, s, s, value);
      } else {
        value, rf := model.BuildReadFrom(read, rf, left, x);
        ReturnsBy(m, Value(), read, model.Value(), value, model.State(rf));
        AllTaken(m, storeBuffer, read, s, model.State(rf), value);
      }
    }
  }

  predicate Bufferable(a: Action) {
    || (IsWrite(a.kind) && a.kind != AtomicInit && Aligned(a))
    || a.kind == Clflush || a.kind == ClflushOpt || a.kind == Sfence
  }

  lemma {:induction false} BypassCovers(sb: seq<Action>, n: nat, read: Action, rf: Sources)
    requires n <= |sb| && |rf| == read.size && SourcesCover(read, rf) && Aligned(read)
    requires forall k :: 0 <= k < |sb| ==> Bufferable(sb[k])
    ensures SourcesCover(read, Bypass(sb, n, read, rf))
  {
    if n > 0 {
      var a := sb[n - 1];
      assert Bufferable(a);
      if a.kind == NonAtomicStore {
        AlignedNeverHangsOver(a, read);
        ReachedIsCovered(a, read);
        BypassCovers(sb, n - 1, read, Fill(a, read, rf));
      } else {
        BypassCovers(sb, n - 1, read, rf);
      }
    }
  }

  lemma ForwardsOne(sb: seq<Action>, n: nat, a: Address, r: Option<Action>)
    requires 0 < n <= |sb| && Forwards(sb, n - 1, a, r) && !(sb[n - 1].kind == NonAtomicStore && Covers(sb[n - 1], a))
    ensures Forwards(sb, n, a, r)
  {
    if r.Some? {
      var j: nat :| NewestPlain(sb, n - 1, a, j) && sb[j] == r.value;
      assert NewestPlain(sb, n, a, j);
    }
  }

  /** A byte without a source gets the newest plain store of the buffer that writes it, if any does. */
  lemma {:induction false} BypassForwards(sb: seq<Action>, n: nat, read: Action, rf: Sources, i: nat)
    requires n <= |sb| && i < |rf| == read.size && Aligned(read)
    requires forall k :: 0 <= k < |sb| ==> Bufferable(sb[k])
    ensures if rf[i].Some? then Bypass(sb, n, read, rf)[i] == rf[i]
            else Forwards(sb, n, read.loc + i, Bypass(sb, n, read, rf)[i])
  {
    hide Aligned, Forwards, Covers;
    if n == 0 {
      NothingForwarded(sb, read.loc + i);
    } else {
      var w := sb[n - 1];
      assert Bufferable(w);
      var rf1 := if w.kind == NonAtomicStore then Fill(w, read, rf) else rf;
      BypassForwards(sb, n - 1, read, rf1, i);
      if w.kind == NonAtomicStore {
        AlignedNeverHangsOver(w, read);
        ReachedIsCovered(w, read);
        assert Reached(w, read, i) <==> Covers(w, read.loc + i);
      }
      if rf[i].None? {
        if w.kind == NonAtomicStore && Covers(w, read.loc + i) {
          FrontForwarded(sb, n, read.loc + i);
        } else {
          ForwardsOne(sb, n, read.loc + i, Bypass(sb, n, read, rf)[i]);
        }
      }
    }
  }

  lemma AllForwarded(sb: seq<Action>, read: Action, rf: Sources)
    requires |rf| == read.size && Aligned(read) && forall k :: 0 <= k < |sb| ==> Bufferable(sb[k])
    ensures forall i :: 0 <= i < |rf| ==>
      if rf[i].Some? then Bypass(sb, |sb|, read, rf)[i] == rf[i]
      else Forwards(sb, |sb|, read.loc + i, Bypass(sb, |sb|, read, rf)[i])
  {
    hide Forwards, Aligned, Bypass, Bufferable;
    forall i | 0 <= i < |rf|
      ensures if rf[i].Some? then Bypass(sb, |sb|, read, rf)[i] == rf[i]
              else Forwards(sb, |sb|, read.loc + i, Bypass(sb, |sb|, read, rf)[i])
    {
      BypassForwards(sb, |sb|, read, rf, i);
    }
  }

  /** Where the bytes of a finished load are from. */
  lemma LoadTakes(m: Mem, sb: seq<Action>, read: Action, s: LoadState, s': LoadState, i: nat)
    requires Ends(ContextFor(m, read), s, s') && i < |s.rf| == |s'.rf| == read.size
    requires Forwards(sb, |sb|, read.loc + i, s.rf[i])
    requires SourcesCover(read, s'.rf) && Full(s'.rf)
    ensures TakenFrom(sb, StoreList(m, read.loc), read.loc + i, SourceByte(read, s'.rf, i))
  {
    hide Ends, Slot;
    EndSource(ContextFor(m, read), s, s', i);
    var a, stores, w := read.loc + i, StoreList(m, read.loc), s'.rf[i].value;
    assert Covers(w, a);
    if s.rf[i].None? {
      var j :| 0 <= j < |stores| && stores[j] == w;
    }
  }

  lemma AllTaken(m: Mem, sb: seq<Action>, read: Action, s: LoadState, s': LoadState, value: nat)
    requires Ends(ContextFor(m, read), s, s') && |s.rf| == |s'.rf| == read.size
    requires forall i :: 0 <= i < read.size ==> Forwards(sb, |sb|, read.loc + i, s.rf[i])
    requires SourcesCover(read, s'.rf) && Full(s'.rf)
    requires forall i :: 0 <= i < read.size ==> ByteOf(value, i) == SourceByte(read, s'.rf, i)
    ensures forall i :: 0 <= i < read.size ==>
      TakenFrom(sb, StoreList(m, read.loc), read.loc + i, ByteOf(value, i))
  {
    hide Ends, Forwards, SourcesCover, Full, TakenFrom, SourceByte, ByteOf;
    forall i | 0 <= i < read.size ensures TakenFrom(sb, StoreList(m, read.loc), read.loc + i, ByteOf(value, i)) {
      LoadTakes(m, sb, read, s, s', i);
    }
  }

  lemma NothingForwarded(sb: seq<Action>, a: Address)
    ensures Forwards(sb, 0, a, None)
  {
  }

  lemma FrontForwarded(sb: seq<Action>, n: nat, a: Address)
    requires 0 < n <= |sb| && sb[n - 1].kind == NonAtomicStore && Covers(sb[n - 1], a)
    ensures Forwards(sb, n, a, Some(sb[n - 1]))
  {
    assert NewestPlain(sb, n, a, n - 1);
  }

  lemma WalkDoneFull(x: Context, s: LoadState)
    requires Full(s.rf)
    ensures Ends(x, s, s)
  {
  }

  lemma ReturnsBy(m: Mem, b: Buffers, read: Action, m': Mem, value: nat, s': LoadState)
    requires Ends(ContextFor(m, read), StartOf(m, Bypass(b.sb, |b.sb|, read, NoSources(read.size))), s')
    requires m' == AfterLoad(m, s') && |s'.rf| == read.size
    requires forall i :: 0 <= i < read.size ==> ByteOf(value, i) == Bytes(ContextFor(m, read), s')[i]
    ensures LoadReturns(m, b, read, m', value)
  {
  }

  /** Some outcome of the load, started from what the store buffer provides, leaves the
      memory as `m'` and has the bytes of `value`. */
  ghost predicate LoadReturns(m: Mem, b: Buffers, read: Action, m': Mem, value: nat) {
    var x := ContextFor(m, read);
    var s := StartOf(m, Bypass(b.sb, |b.sb|, read, NoSources(read.size)));
    exists s' ::
      && Ends(x, s, s')
      && m' == AfterLoad(m, s')
      && |s'.rf| == read.size
      && forall i :: 0 <= i < read.size ==> ByteOf(value, i) == Bytes(x, s')[i]
  }
}
