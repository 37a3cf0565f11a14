/**
 A load in the presence of crashes.

 For every process and cache line the checker keeps a range of possible persist
 times, its cuts: a store of a crashed process survived exactly if its sequence
 number is at most the cut. A load walks the stores of its slot from the newest to
 the oldest and narrows the ranges only as far as it must to return a value.

 `Walk` is the tree of decisions of one load. The theorems compare it with the
 plain reading: choose one cut for the crashed process, and let every byte come
 from the newest store that is visible under that cut.
 */
module CrashLoads {
  import opened DecisionTree
  import opened Actions
  import opened ReadAssembly
  import opened Arithmetic

  /** From `begin`, which is known to be persisted, up to `end`, which is known not
      to be; an `end` of 0 means that nothing is known not to be. */
  datatype Range = Range(begin: Clock, end: Clock)

  predicate Admits(r: Range, cut: Clock) {
    r.begin <= cut && (r.end == 0 || cut < r.end)
  }

  predicate NonEmpty(r: Range) {
    r.end == 0 || r.begin < r.end
  }

  /** Every cut of `r'` is a cut of `r`. */
  predicate Narrower(r': Range, r: Range) {
    r.begin <= r'.begin && (r.end != 0 ==> 0 < r'.end <= r.end)
  }

  datatype Key = Key(pid: Pid, line: Address)

  type Lines = map<Key, Range>

  function GetLine(cl: Lines, key: Key): Range {
    if key in cl then cl[key] else Range(0, 0)
  }

  function SetBegin(cl: Lines, key: Key, t: Clock): Lines {
    cl[key := Range(t, GetLine(cl, key).end)]
  }

  function SetEnd(cl: Lines, key: Key, t: Clock): Lines {
    cl[key := Range(GetLine(cl, key).begin, t)]
  }

  /** What a load looks at and does not change. `skip` is the optimisation that
      passes over a store when the next older one is equivalent. */
  datatype Context = Context(
    stores: seq<Action>,
    read: Action,
    backtrack: bool,
    processes: nat,
    completed: set<Pid>,
    skip: bool,
    now: Clock
  )

  /** What a load changes. */
  datatype LoadState = LoadState(rf: Sources, crashes: map<Pid, Clock>, cl: Lines)

  function KeyOf(x: Context, p: Pid): Key {
    Key(p, Line(x.read.loc))
  }

  function RangeOf(x: Context, s: LoadState, p: Pid): Range {
    GetLine(s.cl, KeyOf(x, p))
  }

  /** May `w`'s process be crashed right before this load sees `w`? */
  predicate CrashPoint(x: Context, s: LoadState, w: Action) {
    && x.backtrack
    && |s.crashes| < MAX_CRASHES
    && |s.crashes| + 1 < x.processes
    && w.pid !in x.completed
    && w.seqNum > RangeOf(x, s, w.pid).begin
  }

  /** The load takes its bytes from `w`, whose process has not crashed. */
  function ReadLive(x: Context, s: LoadState, w: Action): LoadState {
    LoadState(
      Fill(w, x.read, s.rf), s.crashes,
      if w.seqNum > RangeOf(x, s, w.pid).begin then SetBegin(s.cl, KeyOf(x, w.pid), w.seqNum) else s.cl)
  }

  function Crash(x: Context, s: LoadState, p: Pid): LoadState {
    s.(crashes := s.crashes[p := x.now])
  }

  function Persisted(x: Context, s: LoadState, w: Action): LoadState {
    LoadState(Fill(w, x.read, s.rf), s.crashes, SetBegin(s.cl, KeyOf(x, w.pid), w.seqNum))
  }

  function Lost(x: Context, s: LoadState, w: Action): LoadState {
    s.(cl := SetEnd(s.cl, KeyOf(x, w.pid), w.seqNum))
  }

  predicate Skips(x: Context, n: nat)
    requires 0 < n <= |x.stores|
  {
    x.skip && n >= 2 && Equivalent(x.stores[n - 1], x.stores[n - 2])
  }

  /** The decisions of a load that has yet to visit the oldest `n` stores. Choice 0
      crashes the writer, or loses the store. */
  function Walk(x: Context, n: nat, s: LoadState): Tree<LoadState>
    requires n <= |x.stores|
    decreases n, 1
  {
    if n == 0 || Full(s.rf) then Leaf(s)
    else
      var w := x.stores[n - 1];
      if w.pid in s.crashes then WalkCrashed(x, n, s)
      else if Fill(w, x.read, s.rf) == s.rf then Walk(x, n - 1, s)
      else if w.kind == AtomicInit || w.pid == x.read.pid then
        Walk(x, n - 1, s.(rf := Fill(w, x.read, s.rf)))
      else if CrashPoint(x, s, w) then
        Node([WalkCrashed(x, n, Crash(x, s, w.pid)), Walk(x, n - 1, ReadLive(x, s, w))])
      else Walk(x, n - 1, ReadLive(x, s, w))
  }

  /** The same when the process of the newest of the `n` stores has crashed. */
  function WalkCrashed(x: Context, n: nat, s: LoadState): Tree<LoadState>
    requires 0 < n <= |x.stores|
    decreases n, 0
  {
    var w := x.stores[n - 1];
    var r := RangeOf(x, s, w.pid);
    if w.seqNum <= r.begin then Walk(x, n - 1, s.(rf := Fill(w, x.read, s.rf)))
    else if r.end == 0 || w.seqNum < r.end then
      if Skips(x, n) || Fill(w, x.read, s.rf) == s.rf then Walk(x, n - 1, s)
      else if w.kind != AtomicInit && x.backtrack then
        Node([Walk(x, n - 1, Lost(x, s, w)), Walk(x, n - 1, Persisted(x, s, w))])
      else Walk(x, n - 1, Persisted(x, s, w))
    else Walk(x, n - 1, s)
  }

  // ----- the plain reading -----

  /** Under the cut `c` of process `k`, store `w` can be seen. */
  predicate Visible(w: Action, k: Pid, c: Clock) {
    w.pid == k ==> w.seqNum <= c
  }

  /** The byte at `a`, from the newest of the oldest `n` stores that covers it and is visible. */
  function NewestByte(stores: seq<Action>, n: nat, k: Pid, c: Clock, a: Address): Option<nat>
    requires n <= |stores|
  {
    if n == 0 then None
    else
      var w := stores[n - 1];
      if Covers(w, a) && Visible(w, k, c) then Some(ByteAt(w, a))
      else NewestByte(stores, n - 1, k, c, a)
  }

  /** What byte `i` of the load must be if `s` is the state before the oldest `n` stores. */
  function Expected(x: Context, n: nat, s: LoadState, k: Pid, c: Clock, i: nat): Option<nat>
    requires n <= |x.stores| && i < |s.rf|
    requires SourcesCover(x.read, s.rf)
  {
    if s.rf[i].Some? then Some(ByteAt(s.rf[i].value, x.read.loc + i))
    else NewestByte(x.stores, n, k, c, x.read.loc + i)
  }

  predicate SourcesCover(read: Action, rf: Sources) {
    forall i :: 0 <= i < |rf| ==> rf[i].Some? ==> Covers(rf[i].value, read.loc + i)
  }

  // ----- well-formed inputs -----

  /** The list of a slot: the initial value, then evicted stores in increasing order. */
  predicate ListOk(stores: seq<Action>, slot: Address) {
    && |stores| >= 1
    && stores[0].kind == AtomicInit && stores[0].seqNum == 0
    && stores[0].loc == slot && stores[0].size == 8
    && (forall j :: 1 <= j < |stores| ==> stores[j].kind != AtomicInit)
    && (forall i, j :: 1 <= i < j < |stores| ==> stores[i].seqNum < stores[j].seqNum)
    && (forall j :: 0 <= j < |stores| ==> Aligned(stores[j]) && Slot(stores[j].loc) == slot)
  }

  predicate ContextOk(x: Context) {
    ListOk(x.stores, Slot(x.read.loc)) && Aligned(x.read)
  }

  /** The state a load can start in. */
  ghost predicate StateOk(x: Context, s: LoadState) {
    && |s.rf| == x.read.size
    && SourcesCover(x.read, s.rf)
    && |s.crashes| <= MAX_CRASHES
    && forall p :: NonEmpty(RangeOf(x, s, p)) && (p !in s.crashes ==> RangeOf(x, s, p).end == 0)
  }

  // ----- one step of the walk -----

  predicate NextCrashed(x: Context, n: nat, s: LoadState, s1: LoadState)
    requires 0 < n <= |x.stores|
  {
    var w := x.stores[n - 1];
    var r := RangeOf(x, s, w.pid);
    if w.seqNum <= r.begin then s1 == s.(rf := Fill(w, x.read, s.rf))
    else if r.end == 0 || w.seqNum < r.end then
      if Skips(x, n) || Fill(w, x.read, s.rf) == s.rf then s1 == s
      else s1 == Persisted(x, s, w) || (w.kind != AtomicInit && x.backtrack && s1 == Lost(x, s, w))
    else s1 == s
  }

  /** Some decisions on the newest of the `n` stores lead from `s` to `s1`. */
  predicate Next(x: Context, n: nat, s: LoadState, s1: LoadState)
    requires 0 < n <= |x.stores|
  {
    var w := x.stores[n - 1];
    if w.pid in s.crashes then NextCrashed(x, n, s, s1)
    else if Fill(w, x.read, s.rf) == s.rf then s1 == s
    else if w.kind == AtomicInit || w.pid == x.read.pid then s1 == s.(rf := Fill(w, x.read, s.rf))
    else s1 == ReadLive(x, s, w) || (CrashPoint(x, s, w) && NextCrashed(x, n, Crash(x, s, w.pid), s1))
  }

  lemma UnfoldCrashed(x: Context, n: nat, s: LoadState, s': LoadState) returns (s1: LoadState)
    requires 0 < n <= |x.stores| && HasLeaf(WalkCrashed(x, n, s), s')
    ensures NextCrashed(x, n, s, s1) && HasLeaf(Walk(x, n - 1, s1), s')
  {
    var w := x.stores[n - 1];
    var r := RangeOf(x, s, w.pid);
    if w.seqNum <= r.begin {
      s1 := s.(rf := Fill(w, x.read, s.rf));
    } else if (r.end == 0 || w.seqNum < r.end) && !Skips(x, n) && Fill(w, x.read, s.rf) != s.rf {
      s1 := Persisted(x, s, w);
      if w.kind != AtomicInit && x.backtrack {
        HasLeafBinary(Walk(x, n - 1, Lost(x, s, w)), Walk(x, n - 1, s1), s');
        if !HasLeaf(Walk(x, n - 1, s1), s') {
          s1 := Lost(x, s, w);
        }
      }
    } else {
      s1 := s;
    }
  }

  lemma Unfold(x: Context, n: nat, s: LoadState, s': LoadState) returns (s1: LoadState)
    requires 0 < n <= |x.stores| && !Full(s.rf) && HasLeaf(Walk(x, n, s), s')
    ensures Next(x, n, s, s1) && HasLeaf(Walk(x, n - 1, s1), s')
  {
    var w := x.stores[n - 1];
    if w.pid in s.crashes {
      s1 := UnfoldCrashed(x, n, s, s');
    } else if Fill(w, x.read, s.rf) == s.rf {
      s1 := s;
    } else if w.kind == AtomicInit || w.pid == x.read.pid {
      s1 := s.(rf := Fill(w, x.read, s.rf));
    } else {
      s1 := ReadLive(x, s, w);
      if CrashPoint(x, s, w) {
        HasLeafBinary(WalkCrashed(x, n, Crash(x, s, w.pid)), Walk(x, n - 1, s1), s');
        if !HasLeaf(Walk(x, n - 1, s1), s') {
          s1 := UnfoldCrashed(x, n, Crash(x, s, w.pid), s');
        }
      }
    }
  }

  /** Some decisions on the oldest `n` stores lead from `s` to `s'`. */
  ghost predicate Reach(x: Context, n: nat, s: LoadState, s': LoadState)
    requires n <= |x.stores|
  {
    if n == 0 || Full(s.rf) then s' == s
    else exists s1 :: Next(x, n, s, s1) && Reach(x, n - 1, s1, s')
  }

  lemma NextOf(x: Context, n: nat, s: LoadState, s': LoadState) returns (s1: LoadState)
    requires 0 < n <= |x.stores| && !Full(s.rf) && Reach(x, n, s, s')
    ensures Next(x, n, s, s1) && Reach(x, n - 1, s1, s')
  {
    s1 :| Next(x, n, s, s1) && Reach(x, n - 1, s1, s');
  }

  /** The leaves of the tree are the states that can be reached. */
  lemma {:induction false} LeafReach(x: Context, n: nat, s: LoadState, s': LoadState)
    requires n <= |x.stores| && HasLeaf(Walk(x, n, s), s')
    ensures Reach(x, n, s, s')
  {
    hide Next, WalkCrashed, Fill;
    if n > 0 && !Full(s.rf) {
      var s1 := Unfold(x, n, s, s');
      LeafReach(x, n - 1, s1, s');
    }
  }

  lemma FillCovers(x: Context, w: Action, rf: Sources)
    requires ContextOk(x) && w in x.stores && |rf| == x.read.size && SourcesCover(x.read, rf)
    ensures SourcesCover(x.read, Fill(w, x.read, rf))
    ensures forall i: nat :: i < |rf| ==> (Reached(w, x.read, i) <==> Covers(w, x.read.loc + i))
  {
    AlignedNeverHangsOver(w, x.read);
    ReachedIsCovered(w, x.read);
  }

  /** Sources once found stay; the walk only adds some. */
  ghost predicate SourcesGrow(s: LoadState, s': LoadState) {
    && |s'.rf| == |s.rf|
    && forall i :: 0 <= i < |s.rf| ==> s.rf[i].Some? ==> s'.rf[i] == s.rf[i]
  }

  /** Only other processes that are running and may crash are crashed. */
  ghost predicate CrashesGrow(x: Context, s: LoadState, s': LoadState) {
    && (forall p :: p in s.crashes ==> p in s'.crashes && s'.crashes[p] == s.crashes[p])
    && (forall p :: p in s'.crashes && p !in s.crashes ==>
          x.backtrack && 1 < x.processes && p !in x.completed && p != x.read.pid && s'.crashes[p] == x.now)
  }

  /** How the range of process `p` may change over the oldest `n` stores. */
  ghost predicate RangeStep(x: Context, n: nat, r: Range, r': Range)
    requires n <= |x.stores|
  {
    && NonEmpty(r')
    && Narrower(r', r)
    && (r'.begin == r.begin || (n > 0 && r'.begin <= x.stores[n - 1].seqNum))
  }

  ghost predicate RangesNarrow(x: Context, n: nat, s: LoadState, s': LoadState)
    requires n <= |x.stores|
  {
    forall p :: RangeStep(x, n, RangeOf(x, s, p), RangeOf(x, s', p))
  }

  /** Other lines are left alone, and so are the ends of running processes. */
  ghost predicate LinesKept(x: Context, s: LoadState, s': LoadState) {
    && (forall key: Key :: key.line != Line(x.read.loc) ==> GetLine(s'.cl, key) == GetLine(s.cl, key))
    && (forall p :: p !in s'.crashes ==> RangeOf(x, s', p).end == RangeOf(x, s, p).end)
  }

  /** What every stretch of the walk keeps. */
  ghost predicate Progress(x: Context, n: nat, s: LoadState, s': LoadState)
    requires n <= |x.stores|
  {
    && SourcesGrow(s, s')
    && SourcesCover(x.read, s'.rf)
    && |s'.crashes| <= MAX_CRASHES
    && CrashesGrow(x, s, s')
    && RangesNarrow(x, n, s, s')
    && LinesKept(x, s, s')
  }

  lemma ProgressKeepsStateOk(x: Context, n: nat, s: LoadState, s': LoadState)
    requires n <= |x.stores| && StateOk(x, s) && Progress(x, n, s, s')
    ensures StateOk(x, s')
  {
    forall p
      ensures NonEmpty(RangeOf(x, s', p)) && (p !in s'.crashes ==> RangeOf(x, s', p).end == 0)
    {
      assert RangeStep(x, n, RangeOf(x, s, p), RangeOf(x, s', p));
    }
  }

  /** A step that changes at most the range of one process to `r`. */
  lemma OneRange(x: Context, n: nat, s: LoadState, s1: LoadState, p: Pid, r: Range)
    requires ContextOk(x) && 0 < n <= |x.stores| && StateOk(x, s)
    requires s1.cl == s.cl || s1.cl == s.cl[KeyOf(x, p) := r]
    requires s1.cl != s.cl ==> RangeStep(x, n, RangeOf(x, s, p), r)
    requires s1.cl != s.cl ==> r.end == RangeOf(x, s, p).end || p in s1.crashes
    ensures RangesNarrow(x, n, s, s1) && LinesKept(x, s, s1)
  {
    forall q ensures RangeStep(x, n, RangeOf(x, s, q), RangeOf(x, s1, q)) {
      assert NonEmpty(RangeOf(x, s, q));
      assert KeyOf(x, q) == KeyOf(x, p) <==> q == p;
    }
  }

  lemma NextCrashedProgress(x: Context, n: nat, s: LoadState, s1: LoadState)
    requires ContextOk(x) && 0 < n <= |x.stores| && StateOk(x, s)
    requires x.stores[n - 1].pid in s.crashes && NextCrashed(x, n, s, s1)
    ensures Progress(x, n, s, s1)
  {
    var w := x.stores[n - 1];
    var r := RangeOf(x, s, w.pid);
    FillCovers(x, w, s.rf);
    if s1.cl == s.cl {
      OneRange(x, n, s, s1, w.pid, r);
    } else if s1 == Lost(x, s, w) {
      OneRange(x, n, s, s1, w.pid, Range(r.begin, w.seqNum));
    } else {
      OneRange(x, n, s, s1, w.pid, Range(w.seqNum, r.end));
    }
  }

  lemma CrashProgress(x: Context, n: nat, s: LoadState, w: Action)
    requires ContextOk(x) && 0 < n <= |x.stores| && StateOk(x, s)
    requires w == x.stores[n - 1] && w.pid != x.read.pid && w.pid !in s.crashes && CrashPoint(x, s, w)
    ensures Progress(x, n, s, Crash(x, s, w.pid)) && s.crashes == map[]
  {
    assert s.crashes == map[];
    OneRange(x, n, s, Crash(x, s, w.pid), w.pid, RangeOf(x, s, w.pid));
  }

  lemma NextProgress(x: Context, n: nat, s: LoadState, s1: LoadState)
    requires ContextOk(x) && 0 < n <= |x.stores| && StateOk(x, s) && Next(x, n, s, s1)
    ensures Progress(x, n, s, s1)
  {
    hide ContextOk, Reached, Fill, Line, RangesNarrow, LinesKept;
    var w := x.stores[n - 1];
    var r := RangeOf(x, s, w.pid);
    FillCovers(x, w, s.rf);
    if w.pid in s.crashes {
      NextCrashedProgress(x, n, s, s1);
    } else if s1.cl == s.cl && s1.crashes == s.crashes {
      OneRange(x, n, s, s1, w.pid, r);
    } else if s1 == ReadLive(x, s, w) {
      OneRange(x, n, s, s1, w.pid, Range(w.seqNum, r.end));
    } else {
      var m := Crash(x, s, w.pid);
      CrashProgress(x, n, s, w);
      ProgressKeepsStateOk(x, n, s, m);
      NextCrashedProgress(x, n, m, s1);
      ProgressTransitive(x, n, n, s, m, s1);
    }
  }

  lemma ProgressTransitive(x: Context, n: nat, n1: nat, s: LoadState, s1: LoadState, s': LoadState)
    requires ContextOk(x) && 0 < n <= |x.stores| && n - 1 <= n1 <= n
    requires Progress(x, n, s, s1) && Progress(x, n1, s1, s')
    ensures Progress(x, n, s, s')
  {
    forall p ensures RangeStep(x, n, RangeOf(x, s, p), RangeOf(x, s', p)) {
      assert RangeStep(x, n, RangeOf(x, s, p), RangeOf(x, s1, p));
      assert RangeStep(x, n1, RangeOf(x, s1, p), RangeOf(x, s', p));
    }
    forall p | p in s'.crashes && p !in s.crashes
      ensures x.backtrack && 1 < x.processes && p !in x.completed && p != x.read.pid && s'.crashes[p] == x.now
    {
      if p in s1.crashes {
        assert s'.crashes[p] == s1.crashes[p];
      }
    }
  }

  lemma ProgressThen(x: Context, n: nat, s: LoadState, s1: LoadState, s': LoadState)
    requires ContextOk(x) && 0 < n <= |x.stores| && StateOk(x, s)
    requires Progress(x, n, s, s1) && Progress(x, n - 1, s1, s')
    ensures Progress(x, n, s, s') && StateOk(x, s')
  {
    ProgressTransitive(x, n, n - 1, s, s1, s');
    ProgressKeepsStateOk(x, n, s, s');
  }

  lemma NextKeeps(x: Context, n: nat, s: LoadState, s1: LoadState)
    requires ContextOk(x) && 0 < n <= |x.stores| && StateOk(x, s) && Next(x, n, s, s1)
    ensures Progress(x, n, s, s1) && StateOk(x, s1)
  {
    NextProgress(x, n, s, s1);
    ProgressKeepsStateOk(x, n, s, s1);
  }

  lemma {:induction false} ReachProgress(x: Context, n: nat, s: LoadState, s': LoadState)
    requires ContextOk(x) && n <= |x.stores| && StateOk(x, s) && Reach(x, n, s, s')
    ensures Progress(x, n, s, s') && StateOk(x, s')
  {
    hide ContextOk, StateOk, Progress, Next;
    if n == 0 || Full(s.rf) {
      ProgressReflexive(x, n, s);
    } else {
      var s1 := NextOf(x, n, s, s');
      NextKeeps(x, n, s, s1);
      ReachProgress(x, n - 1, s1, s');
      ProgressThen(x, n, s, s1, s');
    }
  }

  lemma ProgressReflexive(x: Context, n: nat, s: LoadState)
    requires n <= |x.stores| && StateOk(x, s)
    ensures Progress(x, n, s, s)
  {
    forall p ensures RangeStep(x, n, RangeOf(x, s, p), RangeOf(x, s, p)) {
      assert NonEmpty(RangeOf(x, s, p));
    }
  }

  // ----- soundness: every outcome agrees with every cut it leaves possible -----

  /** No process other than `k` has crashed. */
  predicate OnlyCrashed(s: LoadState, k: Pid) {
    forall p :: p in s.crashes ==> p == k
  }

  /** `NewestByte` looks through a store that is followed by an equivalent older one. */
  lemma SkippedByte(x: Context, n: nat, k: Pid, c: Clock, a: Address)
    requires ContextOk(x) && 0 < n <= |x.stores| && Skips(x, n)
    requires x.stores[n - 1].pid == k && x.stores[n - 1].seqNum > 0
    ensures NewestByte(x.stores, n, k, c, a) == NewestByte(x.stores, n - 1, k, c, a)
  {
    var w, older := x.stores[n - 1], x.stores[n - 2];
    assert older.seqNum <= w.seqNum;
    if Covers(w, a) && Visible(w, k, c) {
      assert Covers(older, a) && Visible(older, k, c);
    }
  }

  lemma NextCrashedSound(x: Context, n: nat, s: LoadState, s1: LoadState, k: Pid, c: Clock, i: nat)
    requires ContextOk(x) && 0 < n <= |x.stores| && StateOk(x, s) && i < |s.rf|
    requires x.stores[n - 1].pid == k && NextCrashed(x, n, s, s1)
    requires SourcesCover(x.read, s1.rf) && |s1.rf| == |s.rf|
    requires Narrower(RangeOf(x, s1, k), RangeOf(x, s, k)) && Admits(RangeOf(x, s1, k), c)
    ensures Expected(x, n, s, k, c, i) == Expected(x, n - 1, s1, k, c, i)
  {
    hide NonEmpty, ContextOk, Equivalent, Reached, Fill, Line, Narrower;
    var w := x.stores[n - 1];
    var r := RangeOf(x, s, k);
    FillCovers(x, w, s.rf);
    if w.seqNum > r.begin && (r.end == 0 || w.seqNum < r.end) && Skips(x, n) {
      SkippedByte(x, n, k, c, x.read.loc + i);
    }
  }

  /** A store of a process that goes on running is read where it provides something. */
  lemma NextLiveSound(x: Context, n: nat, s: LoadState, s1: LoadState, k: Pid, c: Clock, i: nat)
    requires ContextOk(x) && 0 < n <= |x.stores| && StateOk(x, s) && i < |s.rf|
    requires s1.rf == Fill(x.stores[n - 1], x.read, s.rf) && SourcesCover(x.read, s1.rf)
    requires Visible(x.stores[n - 1], k, c) || s1.rf == s.rf
    ensures Expected(x, n, s, k, c, i) == Expected(x, n - 1, s1, k, c, i)
  {
    hide NonEmpty, Reached, Fill, ContextOk, RangeOf;
    FillCovers(x, x.stores[n - 1], s.rf);
  }

  lemma NextSound(x: Context, n: nat, s: LoadState, s1: LoadState, k: Pid, c: Clock, i: nat)
    requires ContextOk(x) && 0 < n <= |x.stores| && StateOk(x, s) && i < |s.rf|
    requires Next(x, n, s, s1) && Progress(x, n, s, s1)
    requires OnlyCrashed(s1, k) && (k == x.read.pid ==> k in s.crashes)
    requires Admits(RangeOf(x, s1, k), c)
    ensures Expected(x, n, s, k, c, i) == Expected(x, n - 1, s1, k, c, i)
  {
    hide NonEmpty, Reached, Fill, Line, Aligned, Slot, NewestByte;
    var w := x.stores[n - 1];
    assert RangeStep(x, n, RangeOf(x, s, k), RangeOf(x, s1, k));
    if w.pid in s.crashes {
      assert w.pid in s1.crashes;
      NextCrashedSound(x, n, s, s1, k, c, i);
    } else if w.pid in s1.crashes {
      var m := Crash(x, s, w.pid);
      CrashProgress(x, n, s, w);
      ProgressKeepsStateOk(x, n, s, m);
      NextCrashedSound(x, n, m, s1, k, c, i);
    } else {
      NextLiveSound(x, n, s, s1, k, c, i);
    }
  }

  /** Every byte of an outcome is the byte expected under any cut `c` it leaves for `k`. */
  lemma {:induction false} ReachSound(x: Context, n: nat, s: LoadState, s': LoadState, k: Pid, c: Clock, i: nat)
    requires ContextOk(x) && 0 < n <= |x.stores| && StateOk(x, s) && i < |s.rf|
    requires Reach(x, n, s, s') && Progress(x, n, s, s')
    requires OnlyCrashed(s', k) && (k == x.read.pid ==> k in s.crashes)
    requires Admits(RangeOf(x, s', k), c)
    ensures s'.rf[i].Some?
    ensures Some(ByteAt(s'.rf[i].value, x.read.loc + i)) == Expected(x, n, s, k, c, i)
  {
    hide NewestByte, Next, ContextOk, StateOk, RangeOf, Admits, Progress, OnlyCrashed, Expected, SourcesCover, ByteAt,
        Reach;
    if Full(s.rf) {
      FullSound(x, n, s, s', k, c, i);
    } else {
      var s1 := NextOf(x, n, s, s');
      SoundStep(x, n, s, s1, s', k, c, i);
      if n > 1 {
        ReachSound(x, n - 1, s1, s', k, c, i);
      } else {
        FullSound(x, 0, s1, s', k, c, i);
      }
    }
  }

  lemma FullSound(x: Context, n: nat, s: LoadState, s': LoadState, k: Pid, c: Clock, i: nat)
    requires n <= |x.stores| && StateOk(x, s) && i < |s.rf| && Full(s.rf) && Reach(x, n, s, s')
    ensures |s'.rf| == |s.rf| && s'.rf[i].Some? && SourcesCover(x.read, s'.rf)
    ensures Some(ByteAt(s'.rf[i].value, x.read.loc + i)) == Expected(x, n, s, k, c, i)
  {
  }

  /** One step of the walk keeps what is expected of each byte. */
  lemma SoundStep(x: Context, n: nat, s: LoadState, s1: LoadState, s': LoadState, k: Pid, c: Clock, i: nat)
    requires ContextOk(x) && 0 < n <= |x.stores| && StateOk(x, s) && i < |s.rf|
    requires Next(x, n, s, s1) && Reach(x, n - 1, s1, s')
    requires OnlyCrashed(s', k) && (k == x.read.pid ==> k in s.crashes)
    requires Admits(RangeOf(x, s', k), c)
    ensures StateOk(x, s1) && |s1.rf| == |s.rf| && SourcesCover(x.read, s1.rf) && SourcesCover(x.read, s.rf)
    ensures Expected(x, n, s, k, c, i) == Expected(x, n - 1, s1, k, c, i)
    ensures Progress(x, n - 1, s1, s') && (k == x.read.pid ==> k in s1.crashes)
    ensures n == 1 ==> Full(s1.rf)
  {
    hide NewestByte, Next, NonEmpty, ContextOk;
    NextKeeps(x, n, s, s1);
    ReachProgress(x, n - 1, s1, s');
    assert RangeStep(x, n - 1, RangeOf(x, s1, k), RangeOf(x, s', k));
    assert forall p :: p in s1.crashes ==> p in s'.crashes;
    NextSound(x, n, s, s1, k, c, i);
    if n == 1 {
      InitialFills(x, s, s1);
    }
  }

  /** The initial value provides whatever is still missing. */
  lemma InitialFills(x: Context, s: LoadState, s1: LoadState)
    requires ContextOk(x) && |s.rf| == x.read.size && SourcesCover(x.read, s.rf) && Next(x, 1, s, s1)
    ensures Full(s1.rf)
  {
    var w := x.stores[0];
    FillCovers(x, w, s.rf);
    forall i | 0 <= i < |s.rf| ensures Fill(w, x.read, s.rf)[i].Some? {
      WithinSlot(x.read, i);
      assert Reached(w, x.read, i);
    }
  }

  lemma WithinSlot(a: Action, i: nat)
    requires Aligned(a) && i < a.size
    ensures Slot(a.loc) <= a.loc + i < Slot(a.loc) + 8
  {
    var r := a.loc % 8;
    AlignedCases(a);
    hide Aligned;
    Division(a.loc, 8);
    if a.size == 2 {
      ModMod(a.loc, 2, 4);
      EvenBelow(r);
    } else if a.size == 4 {
      ModMod(a.loc, 4, 2);
    }
  }

  lemma EvenBelow(r: nat)
    requires r < 8 && r % 2 == 0
    ensures r + 1 < 8
  {
  }

  // ----- completeness: the outcomes divide the cuts among them -----

  /** `k` has crashed and may have persisted up to `c`. */
  function CutOf(x: Context, k: Pid, c: Clock): LoadState -> bool {
    (s: LoadState) => k in s.crashes && Admits(RangeOf(x, s, k), c)
  }

  lemma SingleCrash(s: LoadState, k: Pid)
    requires |s.crashes| <= 1 && k in s.crashes
    ensures |s.crashes| == 1 && OnlyCrashed(s, k)
  {
    assert |s.crashes.Keys| == |s.crashes| == 1;
    assert |s.crashes.Keys - {k}| == 0;
    forall p | p in s.crashes ensures p == k {
      assert p !in s.crashes.Keys - {k};
    }
  }

  /** How many outcomes crash `k` and leave the cut `c` possible. */
  ghost function Cuts(x: Context, n: nat, s: LoadState, k: Pid, c: Clock): nat
    requires n <= |x.stores|
  {
    Count(Walk(x, n, s), CutOf(x, k, c))
  }

  /** A decision adds up its two branches. */
  lemma CutsAdd(x: Context, n: nat, s: LoadState, m: nat, a: LoadState, b: LoadState, k: Pid, c: Clock)
    requires n <= |x.stores| && 0 < m <= |x.stores|
    requires Walk(x, n, s) == Node([Walk(x, m, a), Walk(x, m - 1, b)])
    ensures Cuts(x, n, s, k, c) == Cuts(x, m, a, k, c) + Cuts(x, m - 1, b, k, c)
  {
    CountBinary(Walk(x, m, a), Walk(x, m - 1, b), CutOf(x, k, c));
  }

  function One(b: bool): nat {
    if b then 1 else 0
  }

  lemma {:induction false} CrashedExact(x: Context, n: nat, s: LoadState, k: Pid, c: Clock)
    requires ContextOk(x) && x.backtrack && n <= |x.stores| && StateOk(x, s) && k in s.crashes
    ensures Cuts(x, n, s, k, c) == One(Admits(RangeOf(x, s, k), c))
    decreases n, 1
  {
    SingleCrash(s, k);
    if n > 0 && !Full(s.rf) {
      var w := x.stores[n - 1];
      if w.pid == k {
        CrashedStepExact(x, n, s, k, c);
      } else {
        var s1 :=
          if Fill(w, x.read, s.rf) == s.rf then s
          else if w.kind == AtomicInit || w.pid == x.read.pid then s.(rf := Fill(w, x.read, s.rf))
          else ReadLive(x, s, w);
        assert !CrashPoint(x, s, w);
        NextKeeps(x, n, s, s1);
        assert KeyOf(x, w.pid) != KeyOf(x, k);
        assert RangeOf(x, s1, k) == RangeOf(x, s, k);
        CrashedExact(x, n - 1, s1, k, c);
      }
    }
  }

  lemma {:induction false} CrashedStepExact(x: Context, n: nat, s: LoadState, k: Pid, c: Clock)
    requires ContextOk(x) && x.backtrack && 0 < n <= |x.stores| && StateOk(x, s) && k in s.crashes
    requires x.stores[n - 1].pid == k
    ensures Count(WalkCrashed(x, n, s), CutOf(x, k, c)) == One(Admits(RangeOf(x, s, k), c))
    decreases n, 0
  {
    var w := x.stores[n - 1];
    var r := RangeOf(x, s, k);
    if w.seqNum <= r.begin {
      var s1 := s.(rf := Fill(w, x.read, s.rf));
      NextKeeps(x, n, s, s1);
      CrashedExact(x, n - 1, s1, k, c);
    } else if (r.end == 0 || w.seqNum < r.end) && !Skips(x, n) && Fill(w, x.read, s.rf) != s.rf {
      var lost, persisted := Lost(x, s, w), Persisted(x, s, w);
      NextKeeps(x, n, s, lost);
      NextKeeps(x, n, s, persisted);
      CrashedExact(x, n - 1, lost, k, c);
      CrashedExact(x, n - 1, persisted, k, c);
      CountBinary(Walk(x, n - 1, lost), Walk(x, n - 1, persisted), CutOf(x, k, c));
    } else {
      NextKeeps(x, n, s, s);
      CrashedExact(x, n - 1, s, k, c);
    }
  }

  /** A process all of whose stores have persisted is not crashed any more. */
  lemma {:induction false} StaysUp(x: Context, n: nat, s: LoadState, s': LoadState, k: Pid)
    requires ContextOk(x) && n <= |x.stores| && StateOk(x, s) && Reach(x, n, s, s') && k !in s.crashes
    requires forall j :: 0 <= j < n && x.stores[j].pid == k ==> x.stores[j].seqNum <= RangeOf(x, s, k).begin
    ensures k !in s'.crashes
  {
    hide ContextOk, StateOk;
    if n > 0 && !Full(s.rf) {
      var s1 := NextOf(x, n, s, s');
      NextKeeps(x, n, s, s1);
      StaysUpStep(x, n, s, s1, k);
      StaysUp(x, n - 1, s1, s', k);
    }
  }

  lemma StaysUpStep(x: Context, n: nat, s: LoadState, s1: LoadState, k: Pid)
    requires 0 < n <= |x.stores| && Next(x, n, s, s1) && Progress(x, n, s, s1) && k !in s.crashes
    requires x.stores[n - 1].pid == k ==> x.stores[n - 1].seqNum <= RangeOf(x, s, k).begin
    ensures k !in s1.crashes && RangeOf(x, s, k).begin <= RangeOf(x, s1, k).begin
  {
    hide Fill, Line, NonEmpty;
    assert RangeStep(x, n, RangeOf(x, s, k), RangeOf(x, s1, k));
  }

  lemma NeverCrashes(x: Context, n: nat, s: LoadState, k: Pid, c: Clock)
    requires ContextOk(x) && n <= |x.stores| && StateOk(x, s) && k !in s.crashes
    requires (exists p :: p in s.crashes)
          || forall j :: 0 <= j < n && x.stores[j].pid == k ==> x.stores[j].seqNum <= RangeOf(x, s, k).begin
    ensures Cuts(x, n, s, k, c) == 0
  {
    forall s' | HasLeaf(Walk(x, n, s), s') ensures !CutOf(x, k, c)(s') {
      LeafReach(x, n, s, s');
      ReachProgress(x, n, s, s');
      if p :| p in s.crashes {
        assert p in s'.crashes;
        if k in s'.crashes {
          SingleCrash(s', k);
        }
      } else {
        StaysUp(x, n, s, s', k);
      }
    }
    CountNone(Walk(x, n, s), CutOf(x, k, c));
  }

  /** A map without keys is empty. */
  lemma NoKeys(m: map<Pid, Clock>)
    requires forall p :: p !in m
    ensures |m| == 0
  {
    forall p ensures p !in m.Keys {
    }
  }

  ghost predicate NoneCrashed(s: LoadState) {
    |s.crashes| == 0 && forall p :: p !in s.crashes
  }

  /** A process this load may crash. */
  predicate Crashable(x: Context, k: Pid) {
    x.backtrack && 1 < x.processes && k !in x.completed && k != x.read.pid
  }

  /** The outcome without a crash covers the cut `c` of `k`. */
  ghost predicate Covered(x: Context, n: nat, s: LoadState, k: Pid, c: Clock)
    requires n <= |x.stores|
  {
    exists s' :: HasLeaf(Walk(x, n, s), s') && NoneCrashed(s') && Admits(RangeOf(x, s', k), c)
  }

  /** Either the crash of `k` with cut `c` is one outcome, or the outcome without a crash covers it. */
  ghost predicate Accounted(x: Context, n: nat, s: LoadState, k: Pid, c: Clock)
    requires n <= |x.stores|
  {
    || Cuts(x, n, s, k, c) == 1
    || (Cuts(x, n, s, k, c) == 0 && Covered(x, n, s, k, c))
  }

  /** Does the walk stop at a decision to crash the writer of store `n - 1`? */
  predicate AtCrashPoint(x: Context, n: nat, s: LoadState)
    requires 0 < n <= |x.stores|
  {
    var w := x.stores[n - 1];
    && Fill(w, x.read, s.rf) != s.rf
    && w.kind != AtomicInit && w.pid != x.read.pid
    && CrashPoint(x, s, w)
  }

  /** While no process has crashed, where the walk goes from `s` without a crash. */
  function StayUp(x: Context, n: nat, s: LoadState): LoadState
    requires 0 < n <= |x.stores|
  {
    var w := x.stores[n - 1];
    if Fill(w, x.read, s.rf) == s.rf then s
    else if w.kind == AtomicInit || w.pid == x.read.pid then s.(rf := Fill(w, x.read, s.rf))
    else ReadLive(x, s, w)
  }

  lemma StayUpStep(x: Context, n: nat, s: LoadState)
    requires ContextOk(x) && 0 < n <= |x.stores| && StateOk(x, s) && NoneCrashed(s) && !Full(s.rf)
    ensures var s1 := StayUp(x, n, s);
            && Next(x, n, s, s1) && StateOk(x, s1) && NoneCrashed(s1)
            && (!AtCrashPoint(x, n, s) ==> Walk(x, n, s) == Walk(x, n - 1, s1))
            && forall k :: Crashable(x, k) && (!AtCrashPoint(x, n, s) || k != x.stores[n - 1].pid) ==>
                 RangeOf(x, s1, k) == RangeOf(x, s, k)
  {
    var w, s1 := x.stores[n - 1], StayUp(x, n, s);
    NextKeeps(x, n, s, s1);
    forall k | Crashable(x, k) && (!AtCrashPoint(x, n, s) || k != w.pid)
      ensures RangeOf(x, s1, k) == RangeOf(x, s, k)
    {
      assert KeyOf(x, w.pid) == KeyOf(x, k) <==> w.pid == k;
    }
  }

  lemma CrashBranch(x: Context, n: nat, s: LoadState)
    requires ContextOk(x) && 0 < n <= |x.stores| && StateOk(x, s) && NoneCrashed(s) && !Full(s.rf)
    requires AtCrashPoint(x, n, s)
    ensures var w := x.stores[n - 1];
            var crashed := Crash(x, s, w.pid);
            && StateOk(x, crashed)
            && Walk(x, n, s) == Node([Walk(x, n, crashed), Walk(x, n - 1, StayUp(x, n, s))])
  {
    var w := x.stores[n - 1];
    CrashProgress(x, n, s, w);
    ProgressKeepsStateOk(x, n, s, Crash(x, s, w.pid));
  }

  /** Once it has been read, a store no longer leads to a crash of its writer, nor does an older one. */
  lemma ReadStays(x: Context, n: nat, s: LoadState, c: Clock)
    requires ContextOk(x) && 0 < n <= |x.stores| && StateOk(x, s) && NoneCrashed(s) && !Full(s.rf)
    requires AtCrashPoint(x, n, s)
    ensures Cuts(x, n - 1, StayUp(x, n, s), x.stores[n - 1].pid, c) == 0
  {
    StayUpStep(x, n, s);
    NeverCrashes(x, n - 1, StayUp(x, n, s), x.stores[n - 1].pid, c);
  }

  lemma CrashOfK(x: Context, n: nat, s: LoadState, k: Pid, c: Clock)
    requires ContextOk(x) && 0 < n <= |x.stores| && StateOk(x, s) && NoneCrashed(s) && !Full(s.rf)
    requires Crashable(x, k) && Admits(RangeOf(x, s, k), c)
    requires AtCrashPoint(x, n, s) && x.stores[n - 1].pid == k
    ensures Cuts(x, n, s, k, c) == 1
  {
    var crashed := Crash(x, s, k);
    CrashBranch(x, n, s);
    ReadStays(x, n, s, c);
    CrashedExact(x, n, crashed, k, c);
    CutsAdd(x, n, s, n, crashed, StayUp(x, n, s), k, c);
  }

  lemma CrashOfOther(x: Context, n: nat, s: LoadState, k: Pid, c: Clock)
    requires ContextOk(x) && 0 < n <= |x.stores| && StateOk(x, s) && NoneCrashed(s) && !Full(s.rf)
    requires AtCrashPoint(x, n, s) && x.stores[n - 1].pid != k
    requires Accounted(x, n - 1, StayUp(x, n, s), k, c)
    ensures Accounted(x, n, s, k, c)
  {
    var crashed, s1 := Crash(x, s, x.stores[n - 1].pid), StayUp(x, n, s);
    CrashBranch(x, n, s);
    assert x.stores[n - 1].pid in crashed.crashes;
    NeverCrashes(x, n, crashed, k, c);
    CutsAdd(x, n, s, n, crashed, s1, k, c);
    if Covered(x, n - 1, s1, k, c) {
      var s' :| HasLeaf(Walk(x, n - 1, s1), s') && NoneCrashed(s') && Admits(RangeOf(x, s', k), c);
      HasLeafBinary(Walk(x, n, crashed), Walk(x, n - 1, s1), s');
    }
  }

  lemma {:induction false} UncrashedExact(x: Context, n: nat, s: LoadState, k: Pid, c: Clock)
    requires ContextOk(x) && n <= |x.stores| && StateOk(x, s) && NoneCrashed(s)
    requires Crashable(x, k) && Admits(RangeOf(x, s, k), c)
    ensures Accounted(x, n, s, k, c)
  {
    if n == 0 || Full(s.rf) {
      NothingLeft(x, n, s, k, c);
    } else if AtCrashPoint(x, n, s) && x.stores[n - 1].pid == k {
      CrashOfK(x, n, s, k, c);
    } else {
      var s1 := StayUp(x, n, s);
      StayUpStep(x, n, s);
      assert RangeOf(x, s1, k) == RangeOf(x, s, k);
      UncrashedExact(x, n - 1, s1, k, c);
      if AtCrashPoint(x, n, s) {
        CrashOfOther(x, n, s, k, c);
      } else {
        SameWalk(x, n, s, n - 1, s1, k, c);
      }
    }
  }

  lemma NothingLeft(x: Context, n: nat, s: LoadState, k: Pid, c: Clock)
    requires n <= |x.stores| && (n == 0 || Full(s.rf)) && NoneCrashed(s) && Admits(RangeOf(x, s, k), c)
    ensures Accounted(x, n, s, k, c)
  {
    assert HasLeaf(Walk(x, n, s), s);
  }

  lemma SameWalk(x: Context, n: nat, s: LoadState, n1: nat, s1: LoadState, k: Pid, c: Clock)
    requires n <= |x.stores| && n1 <= |x.stores| && Walk(x, n, s) == Walk(x, n1, s1)
    requires Accounted(x, n1, s1, k, c)
    ensures Accounted(x, n, s, k, c)
  {
  }
}
