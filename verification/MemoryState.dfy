/** The state of the simulated memory and what evictions and loads do to it. */
module MemoryState {
  import opened DecisionTree
  import opened Actions
  import opened ReadAssembly
  import opened CrashLoads

  /** What stays fixed: how many processes there are, whether crashes are explored and
      whether equivalent stores are skipped. */
  datatype Config = Config(processes: nat, backtrack: bool, skip: bool)

  datatype Mem = Mem(
    cfg: Config,
    lists: map<Address, seq<Action>>,
    cl: Lines,
    crashes: map<Pid, Clock>,
    completed: set<Pid>,
    next: Clock
  )

  function StoreList(m: Mem, a: Address): seq<Action> {
    if Slot(a) in m.lists then m.lists[Slot(a)] else []
  }

  predicate Live(m: Mem, p: Pid) {
    p !in m.crashes && p !in m.completed
  }

  // ----- stores -----

  /** The entry for the value a slot holds before its first eviction. */
  function InitialEntry(a: Action, memory: nat): Action {
    Action(a.tid, a.pid, AtomicInit, Slot(a.loc), 8, memory, 0, 0)
  }

  function EnsureInitial(m: Mem, a: Action, memory: nat): Mem {
    if StoreList(m, a.loc) == [] then m.(lists := m.lists[Slot(a.loc) := [InitialEntry(a, memory)]]) else m
  }

  /** Byte `i` of the slot is what the program's memory held there. */
  predicate HoldsMemory(entry: Action, slot: Address, memory: nat) {
    entry.loc == slot && forall i :: 0 <= i < 8 ==> ByteAt(entry, slot + i) == ByteOf(memory, i)
  }

  function EvictedStore(m: Mem, a: Action): Action {
    a.(seqNum := m.next)
  }

  function EvictStore(m: Mem, a: Action): Mem {
    m.(lists := m.lists[Slot(a.loc) := StoreList(m, a.loc) + [EvictedStore(m, a)]], next := m.next + 1)
  }

  // ----- flushes -----

  function FlushTime(m: Mem, a: Action): Clock {
    if a.kind == Clflush then m.next else a.effect
  }

  /** Raises `begin` to `t` for the processes below `n`. */
  function RaiseBegins(cl: Lines, n: nat, line: Address, t: Clock): Lines {
    if n == 0 then cl
    else
      var rest := RaiseBegins(cl, n - 1, line, t);
      if t <= GetLine(rest, Key(n - 1, line)).begin then rest else SetBegin(rest, Key(n - 1, line), t)
  }

  /** The least `begin` that is raised, or `t`. */
  function LeastBegin(cl: Lines, n: nat, line: Address, t: Clock): Clock {
    if n == 0 then t
    else
      var least := LeastBegin(cl, n - 1, line, t);
      var b := GetLine(cl, Key(n - 1, line)).begin;
      if b < t && b < least then b else least
  }

  /** The writer of the newest of the `n` oldest stores, if it was not flushed before and
      its process is live. */
  function Candidate(m: Mem, stores: seq<Action>, n: nat, least: Clock): Option<Pid>
    requires n <= |stores|
  {
    if n == 0 || stores[n - 1].seqNum <= least then None
    else if Live(m, stores[n - 1].pid) then Some(stores[n - 1].pid)
    else Candidate(m, stores, n - 1, least)
  }

  predicate MayCrash(m: Mem) {
    |m.crashes| < MAX_CRASHES && |m.crashes| + 1 < m.cfg.processes
  }

  function Flushed(m: Mem, a: Action): Mem {
    m.(
      cl := RaiseBegins(m.cl, m.cfg.processes, Line(a.loc), FlushTime(m, a)),
      next := if a.kind == Clflush then m.next + 1 else m.next)
  }

  function FlushCandidate(m: Mem, a: Action): Option<Pid> {
    var stores := StoreList(m, a.loc);
    Candidate(m, stores, |stores|, LeastBegin(m.cl, m.cfg.processes, Line(a.loc), FlushTime(m, a)))
  }

  function CrashNow(m: Mem, p: Pid): Mem {
    m.(crashes := m.crashes[p := m.next])
  }

  /** A flush, and the decision whether it came just in time for a crash of the writer. */
  function FlushTree(m: Mem, a: Action): Tree<Mem> {
    var done := Flushed(m, a);
    match FlushCandidate(m, a)
    case Some(p) =>
      if m.cfg.backtrack && MayCrash(m) then Node([Leaf(CrashNow(done, p)), Leaf(done)]) else Leaf(done)
    case None => Leaf(done)
  }

  lemma {:induction false} RaiseEffect(cl: Lines, n: nat, line: Address, t: Clock, key: Key)
    ensures GetLine(RaiseBegins(cl, n, line, t), key)
         == if key.line == line && 0 <= key.pid < n && GetLine(cl, key).begin < t
            then Range(t, GetLine(cl, key).end)
            else GetLine(cl, key)
  {
    if n > 0 {
      RaiseEffect(cl, n - 1, line, t, key);
      RaiseEffect(cl, n - 1, line, t, Key(n - 1, line));
    }
  }

  /** A flush changes nothing but the clock, the ranges and possibly the crashed processes. */
  lemma FlushLeaves(m: Mem, a: Action, m': Mem)
    requires HasLeaf(FlushTree(m, a), m')
    ensures m' == Flushed(m, a)
         || (&& m.cfg.backtrack && MayCrash(m) && FlushCandidate(m, a).Some?
             && m' == CrashNow(Flushed(m, a), FlushCandidate(m, a).value))
  {
    match FlushCandidate(m, a)
    case Some(p) =>
      HasLeafBinary(Leaf(CrashNow(Flushed(m, a), p)), Leaf(Flushed(m, a)), m');
    case None =>
  }

  lemma {:induction false} CandidateLive(m: Mem, stores: seq<Action>, n: nat, least: Clock)
    requires n <= |stores|
    ensures Candidate(m, stores, n, least).Some? ==> Live(m, Candidate(m, stores, n, least).value)
  {
    if n > 0 {
      CandidateLive(m, stores, n - 1, least);
    }
  }

  /** Of the `n` oldest stores, number `j` is the newest of a live process; it and all newer
      ones are numbered above `least`. */
  predicate NewestLive(m: Mem, stores: seq<Action>, n: nat, least: Clock, j: nat)
    requires n <= |stores|
  {
    && j < n && stores[j].pid !in m.crashes && stores[j].pid !in m.completed && stores[j].seqNum > least
    && forall k :: j < k < n ==>
         stores[k].seqNum > least && (stores[k].pid in m.crashes || stores[k].pid in m.completed)
  }

  /** Process `p` wrote that store. */
  ghost predicate LastLiveWriter(m: Mem, stores: seq<Action>, least: Clock, p: Pid) {
    exists j: nat :: NewestLive(m, stores, |stores|, least, j) && stores[j].pid == p
  }

  /** One more crash is allowed, and there is such a process. */
  ghost predicate ToCrash(m: Mem, stores: seq<Action>, least: Clock) {
    && m.cfg.backtrack && |m.crashes| < MAX_CRASHES && |m.crashes| + 1 < m.cfg.processes
    && exists p :: LastLiveWriter(m, stores, least, p)
  }

  /** The search from the newest store back finds process `p` exactly if it wrote that store. */
  lemma {:induction false} CandidateIs(m: Mem, stores: seq<Action>, n: nat, least: Clock, p: Pid)
    requires n <= |stores|
    ensures Candidate(m, stores, n, least) == Some(p)
       <==> exists j: nat :: NewestLive(m, stores, n, least, j) && stores[j].pid == p
  {
    if n > 0 && stores[n - 1].seqNum > least {
      if Live(m, stores[n - 1].pid) {
        assert NewestLive(m, stores, n, least, n - 1);
        assert forall j: nat :: NewestLive(m, stores, n, least, j) ==> j == n - 1;
      } else {
        CandidateIs(m, stores, n - 1, least, p);
        assert forall j: nat :: NewestLive(m, stores, n, least, j) <==> NewestLive(m, stores, n - 1, least, j);
      }
    }
  }

  lemma CandidateFound(m: Mem, stores: seq<Action>, least: Clock)
    ensures forall p :: Candidate(m, stores, |stores|, least) == Some(p) <==> LastLiveWriter(m, stores, least, p)
    ensures ToCrash(m, stores, least) <==> m.cfg.backtrack && MayCrash(m) && Candidate(m, stores, |stores|, least).Some?
    ensures Candidate(m, stores, |stores|, least).Some? ==> Candidate(m, stores, |stores|, least).value !in m.crashes
  {
    forall p ensures Candidate(m, stores, |stores|, least) == Some(p) <==> LastLiveWriter(m, stores, least, p) {
      CandidateIs(m, stores, |stores|, least, p);
    }
    hide Candidate, LastLiveWriter;
    CandidateLive(m, stores, |stores|, least);
  }

  /** A number is above the least `begin` raised exactly if it is above one that is raised, or
      above the time of the flush. */
  lemma {:induction false} LeastIs(cl: Lines, n: nat, line: Address, t: Clock, x: Clock)
    ensures LeastBegin(cl, n, line, t) < x
       <==> t < x || exists q: nat ::
           q < n && GetLine(cl, Key(q, line)).begin < t && GetLine(cl, Key(q, line)).begin < x
  {
    if n > 0 {
      LeastIs(cl, n - 1, line, t, x);
      var b := GetLine(cl, Key(n - 1, line)).begin;
    }
  }

  /** `seqNum` is above the least `begin` that a flush of `line` at time `t` raises, or above `t`. */
  ghost predicate NotFlushedBefore(m: Mem, line: Address, t: Clock, seqNum: Clock) {
    || t < seqNum
    || exists q: nat ::
         && q < m.cfg.processes
         && GetLine(m.cl, Key(q, line)).begin < t && GetLine(m.cl, Key(q, line)).begin < seqNum
  }

  /** A flush is the last moment for process `p` to crash before its store persists: one more
      crash is allowed, and `p` is the writer of the newest store of a live process, with neither
      that store nor a newer one flushed before. */
  ghost predicate CrashAsked(m: Mem, a: Action, p: Pid) {
    var stores, t := StoreList(m, a.loc), if a.kind == Clflush then m.next else a.effect;
    && m.cfg.backtrack && |m.crashes| < MAX_CRASHES && |m.crashes| + 1 < m.cfg.processes
    && exists j ::
         && 0 <= j < |stores| && stores[j].pid == p && p !in m.crashes && p !in m.completed
         && NotFlushedBefore(m, Line(a.loc), t, stores[j].seqNum)
         && forall k :: j < k < |stores| ==>
              && NotFlushedBefore(m, Line(a.loc), t, stores[k].seqNum)
              && (stores[k].pid in m.crashes || stores[k].pid in m.completed)
  }

  /** The search finds exactly the process of which the question is. */
  lemma CandidateAsked(m: Mem, a: Action, p: Pid)
    ensures CrashAsked(m, a, p) <==> m.cfg.backtrack && MayCrash(m) && FlushCandidate(m, a) == Some(p)
    ensures CrashAsked(m, a, p) ==> Live(m, p)
  {
    var stores, t, line := StoreList(m, a.loc), FlushTime(m, a), Line(a.loc);
    var least := LeastBegin(m.cl, m.cfg.processes, line, t);
    CandidateIs(m, stores, |stores|, least, p);
    forall x: Clock ensures NotFlushedBefore(m, line, t, x) <==> least < x {
      LeastIs(m.cl, m.cfg.processes, line, t, x);
    }
    hide NotFlushedBefore, Line, LeastBegin, Candidate;
    if CrashAsked(m, a, p) {
      var j :| && 0 <= j < |stores| && stores[j].pid == p && p !in m.crashes && p !in m.completed
               && NotFlushedBefore(m, line, t, stores[j].seqNum)
               && forall k :: j < k < |stores| ==>
                    NotFlushedBefore(m, line, t, stores[k].seqNum)
                    && (stores[k].pid in m.crashes || stores[k].pid in m.completed);
      assert NewestLive(m, stores, |stores|, least, j);
    }
  }

  /** A flush has an outcome in which `p` has newly crashed exactly if the question is asked of `p`. */
  lemma FlushCrashes(m: Mem, a: Action, p: Pid)
    ensures (exists m' :: HasLeaf(FlushTree(m, a), m') && p in m'.crashes && p !in m.crashes) <==> CrashAsked(m, a, p)
  {
    hide CrashAsked, FlushCandidate, MayCrash;
    CandidateAsked(m, a, p);
    var done := Flushed(m, a);
    if CrashAsked(m, a, p) {
      HasLeafBinary(Leaf(CrashNow(done, p)), Leaf(done), CrashNow(done, p));
      assert HasLeaf(FlushTree(m, a), CrashNow(done, p));
    }
    if m' :| HasLeaf(FlushTree(m, a), m') && p in m'.crashes && p !in m.crashes {
      FlushLeaves(m, a, m');
    }
  }

  // ----- loads -----

  function ContextFor(m: Mem, read: Action): Context {
    Context(StoreList(m, read.loc), read, m.cfg.backtrack, m.cfg.processes, m.completed, m.cfg.skip, m.next)
  }

  function StartOf(m: Mem, rf: Sources): LoadState {
    LoadState(rf, m.crashes, m.cl)
  }

  function AfterLoad(m: Mem, s: LoadState): Mem {
    m.(crashes := s.crashes, cl := s.cl)
  }

  // ----- the buffers of a thread -----

  /** The store buffer, the flush buffer, the time of the last sfence and, for each line,
      the time of the thread's last store or flush of it. */
  datatype Buffers = Buffers(sb: seq<Action>, fb: seq<Action>, lastSfence: Clock, last: map<Address, Clock>)

  function LastOn(b: Buffers, line: Address): Clock {
    if line in b.last then b.last[line] else 0
  }

  function Max(a: Clock, b: Clock): Clock {
    if a < b then b else a
  }

  /** The earliest time a buffered `clflushopt` can take effect. */
  function OptEffect(b: Buffers, a: Action): Clock {
    Max(Max(a.effect, b.lastSfence), LastOn(b, Line(a.loc)))
  }

  /** What a load finds in the `n` oldest entries of a store buffer, newest first. Only
      plain stores are forwarded. */
  function Bypass(sb: seq<Action>, n: nat, read: Action, rf: Sources): (r: Sources)
    requires n <= |sb|
    ensures |r| == |rf|
  {
    if n == 0 then rf
    else Bypass(sb, n - 1, read, if sb[n - 1].kind == NonAtomicStore then Fill(sb[n - 1], read, rf) else rf)
  }

  /** Among the `n` oldest entries, number `j` is the newest plain store that writes the byte at `a`. */
  predicate NewestPlain(sb: seq<Action>, n: nat, a: Address, j: nat)
    requires n <= |sb|
  {
    && j < n && sb[j].kind == NonAtomicStore && Covers(sb[j], a)
    && forall k :: j < k < n ==> !(sb[k].kind == NonAtomicStore && Covers(sb[k], a))
  }

  /** `r` is the newest plain store among them that writes the byte at `a`, or nothing if none does. */
  ghost predicate Forwards(sb: seq<Action>, n: nat, a: Address, r: Option<Action>)
    requires n <= |sb|
  {
    match r
    case Some(w) => exists j: nat :: NewestPlain(sb, n, a, j) && sb[j] == w
    case None => forall j :: 0 <= j < n ==> !(sb[j].kind == NonAtomicStore && Covers(sb[j], a))
  }

  /** The byte at `a` is that of the newest plain store of the buffer that writes it, or, if there is
      none, that of a store of the slot. */
  ghost predicate TakenFrom(sb: seq<Action>, stores: seq<Action>, a: Address, byte: nat) {
    if exists j :: 0 <= j < |sb| && sb[j].kind == NonAtomicStore && Covers(sb[j], a)
    then exists j: nat :: NewestPlain(sb, |sb|, a, j) && byte == ByteAt(sb[j], a)
    else exists j :: 0 <= j < |stores| && Covers(stores[j], a) && byte == ByteAt(stores[j], a)
  }

  function NoSources(n: nat): (r: Sources)
    ensures |r| == n && forall i :: 0 <= i < n ==> r[i].None?
  {
    seq(n, _ => None)
  }

  datatype Machine = Machine(m: Mem, b: Buffers)

  /** The oldest entry of the store buffer takes effect. */
  ghost predicate Pops(c: Machine, c': Machine) {
    && c.b.sb != []
    && var a := c.b.sb[0];
       var b := c.b.(sb := c.b.sb[1..]);
       if IsWrite(a.kind) then
         c' == Machine(EvictStore(c.m, a), b.(last := b.last[Line(a.loc) := c.m.next]))
       else if a.kind == Clflush then
         && HasLeaf(FlushTree(c.m, a), c'.m)
         && (c'.b == b.(last := b.last[Line(a.loc) := c.m.next]) || (c'.b == b && c'.m.crashes != c.m.crashes))
       else if a.kind == ClflushOpt then
         c' == Machine(c.m, b.(fb := b.fb + [a.(effect := OptEffect(b, a))]))
       else if a.kind == Sfence then
         b.fb == [] && c' == Machine(c.m, b.(lastSfence := a.seqNum))
       else false
  }

  /** The oldest entry of the flush buffer takes effect. */
  ghost predicate FlushesOne(c: Machine, c': Machine) {
    && c.b.fb != []
    && HasLeaf(FlushTree(c.m, c.b.fb[0]), c'.m)
    && c'.b == c.b.(fb := c.b.fb[1..])
  }

  /** An sfence is cut short because the process that carries it out is gone. */
  ghost predicate Aborts(c: Machine, c': Machine) {
    && c.b.sb != [] && c.b.sb[0].kind == Sfence && c.m.crashes != map[]
    && c' == c.(b := c.b.(sb := c.b.sb[1..]))
  }

  ghost predicate Drains(c: Machine, c': Machine) {
    Pops(c, c') || FlushesOne(c, c') || Aborts(c, c')
  }

  /** `n` such steps lead from `c` to `c'`. */
  ghost predicate DrainChain(n: nat, c: Machine, c': Machine) {
    if n == 0 then c' == c
    else exists c1 :: Drains(c, c1) && DrainChain(n - 1, c1, c')
  }

  lemma OneDrain(c: Machine, c': Machine)
    requires Drains(c, c')
    ensures DrainChain(1, c, c')
  {
    assert DrainChain(0, c', c');
  }

  lemma {:induction false} ChainAppend(n: nat, k: nat, c: Machine, c1: Machine, c2: Machine)
    requires DrainChain(n, c, c1) && DrainChain(k, c1, c2)
    ensures DrainChain(n + k, c, c2)
  {
    hide Drains;
    if n > 0 {
      var d := ChainHead(n, c, c1);
      ChainAppend(n - 1, k, d, c1, c2);
      ChainCons(n - 1 + k, c, d, c2);
    }
  }

  lemma ChainHead(n: nat, c: Machine, c': Machine) returns (d: Machine)
    requires n > 0 && DrainChain(n, c, c')
    ensures Drains(c, d) && DrainChain(n - 1, d, c')
  {
    d :| Drains(c, d) && DrainChain(n - 1, d, c');
  }

  lemma ChainCons(n: nat, c: Machine, d: Machine, c': Machine)
    requires Drains(c, d) && DrainChain(n, d, c')
    ensures DrainChain(n + 1, c, c')
  {
  }

  lemma ChainStep(n: nat, c: Machine, c1: Machine, c2: Machine)
    requires DrainChain(n, c, c1) && Drains(c1, c2)
    ensures DrainChain(n + 1, c, c2)
  {
    OneDrain(c1, c2);
    ChainAppend(n, 1, c, c1, c2);
  }
}
