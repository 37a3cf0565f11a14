/** What the decisions of one whole load amount to. */
module LoadTheorems {
  import opened DecisionTree
  import opened Actions
  import opened ReadAssembly
  import opened CrashLoads

  /** The decisions of the load that starts in `s`. */
  function LoadTree(x: Context, s: LoadState): Tree<LoadState> {
    Walk(x, |x.stores|, s)
  }

  /** The load that starts in `s` can end in `s'`. */
  ghost predicate Ends(x: Context, s: LoadState, s': LoadState) {
    HasLeaf(LoadTree(x, s), s')
  }

  /** The bytes a finished load returns. */
  function Bytes(x: Context, s': LoadState): (bs: seq<nat>) {
    seq(|s'.rf|, i requires 0 <= i < |s'.rf| => SourceByte(x.read, s'.rf, i))
  }

  /** The bytes the load must return if `k` crashed with the cut `c`: what the store
      buffer provided, and otherwise the newest visible store. */
  function PlainBytes(x: Context, s: LoadState, k: Pid, c: Clock): (bs: seq<Option<nat>>)
    requires SourcesCover(x.read, s.rf)
  {
    seq(|s.rf|, i requires 0 <= i < |s.rf| => Expected(x, |x.stores|, s, k, c, i))
  }

  ghost predicate Returns(x: Context, s: LoadState, s': LoadState, k: Pid, c: Clock)
    requires SourcesCover(x.read, s.rf)
  {
    && Full(s'.rf)
    && |Bytes(x, s')| == |s.rf|
    && forall i :: 0 <= i < |s.rf| ==> PlainBytes(x, s, k, c)[i] == Some(Bytes(x, s')[i])
  }

  lemma NextSource(x: Context, n: nat, s: LoadState, s1: LoadState, i: nat)
    requires 0 < n <= |x.stores| && Next(x, n, s, s1) && i < |s.rf|
    ensures |s1.rf| == |s.rf|
    ensures s1.rf[i] == s.rf[i] || (s.rf[i].None? && s1.rf[i] == Some(x.stores[n - 1]))
  {
    hide Reached, Skips, Equivalent;
  }

  lemma {:induction false} ReachSource(x: Context, n: nat, s: LoadState, s': LoadState, i: nat)
    requires n <= |x.stores| && Reach(x, n, s, s') && i < |s.rf|
    ensures |s'.rf| == |s.rf|
    ensures s'.rf[i] == s.rf[i] || (s.rf[i].None? && s'.rf[i].Some? && s'.rf[i].value in x.stores)
  {
    hide Next;
    if n > 0 && !Full(s.rf) {
      var s1 := NextOf(x, n, s, s');
      NextSource(x, n, s, s1, i);
      ReachSource(x, n - 1, s1, s', i);
    }
  }

  /** What the store buffer provided stays, and every other byte is read from a store of the slot. */
  lemma EndSource(x: Context, s: LoadState, s': LoadState, i: nat)
    requires Ends(x, s, s') && i < |s.rf|
    ensures |s'.rf| == |s.rf|
    ensures s'.rf[i] == s.rf[i] || (s.rf[i].None? && s'.rf[i].Some? && s'.rf[i].value in x.stores)
  {
    LeafReach(x, |x.stores|, s, s');
    ReachSource(x, |x.stores|, s, s', i);
  }

  /** Every outcome returns the plain bytes of every cut it leaves for `k`, where `k` is
      the crashed process or any process other than the reader. The final
      `assert(false)` of the walk is never reached: every byte has a source. */
  lemma LoadSound(x: Context, s: LoadState, s': LoadState, k: Pid, c: Clock)
    requires ContextOk(x) && StateOk(x, s) && Ends(x, s, s')
    requires OnlyCrashed(s', k) && (k == x.read.pid ==> k in s.crashes)
    requires Admits(RangeOf(x, s', k), c)
    ensures Returns(x, s, s', k, c)
  {
    hide RangeOf, Admits, NewestByte, Progress, Reach, Walk, Aligned, Slot;
    var n := |x.stores|;
    LeafReach(x, n, s, s');
    ReachProgress(x, n, s, s');
    forall i: nat | i < |s.rf|
      ensures s'.rf[i].Some? && PlainBytes(x, s, k, c)[i] == Some(Bytes(x, s')[i])
    {
      ReachSound(x, n, s, s', k, c, i);
    }
  }

  /** A load keeps ranges well-formed, only narrows them, keeps the crashed processes
      crashed and crashes at most one process in all. */
  lemma LoadNarrows(x: Context, s: LoadState, s': LoadState)
    requires ContextOk(x) && StateOk(x, s) && Ends(x, s, s')
    ensures StateOk(x, s')
    ensures forall p :: NonEmpty(RangeOf(x, s', p)) && Narrower(RangeOf(x, s', p), RangeOf(x, s, p))
    ensures forall p :: p in s.crashes ==> p in s'.crashes
    ensures forall p :: p in s'.crashes && p !in s.crashes ==> Crashable(x, p)
    ensures forall key: Key :: key.line != Line(x.read.loc) ==> GetLine(s'.cl, key) == GetLine(s.cl, key)
  {
    LeafReach(x, |x.stores|, s, s');
    ReachProgress(x, |x.stores|, s, s');
    forall p ensures NonEmpty(RangeOf(x, s', p)) && Narrower(RangeOf(x, s', p), RangeOf(x, s, p)) {
      assert RangeStep(x, |x.stores|, RangeOf(x, s, p), RangeOf(x, s', p));
    }
  }

  /** With `k` crashed, each cut of its range lies in the range of exactly one outcome,
      and a cut outside lies in none. */
  lemma CrashedLoadExact(x: Context, s: LoadState, k: Pid, c: Clock)
    requires ContextOk(x) && StateOk(x, s) && x.backtrack && k in s.crashes
    ensures Count(LoadTree(x, s), CutOf(x, k, c)) == One(Admits(RangeOf(x, s, k), c))
  {
    CrashedExact(x, |x.stores|, s, k, c);
  }

  /** That one outcome, and what it returns. */
  lemma CrashedLoadOutcome(x: Context, s: LoadState, k: Pid, c: Clock) returns (s': LoadState)
    requires ContextOk(x) && StateOk(x, s) && x.backtrack && k in s.crashes
    requires Admits(RangeOf(x, s, k), c)
    ensures Ends(x, s, s') && k in s'.crashes && Admits(RangeOf(x, s', k), c)
    ensures Returns(x, s, s', k, c)
  {
    CrashedLoadExact(x, s, k, c);
    s' := CountSome(LoadTree(x, s), CutOf(x, k, c));
    LoadNarrows(x, s, s');
    SingleCrash(s', k);
    LoadSound(x, s, s', k, c);
  }

  /** With no crash so far, every process that may crash and every cut it may have is
      accounted for: by exactly one outcome that crashes it, or, when none does, by the
      outcome without a crash. */
  lemma UncrashedLoadExact(x: Context, s: LoadState, k: Pid, c: Clock) returns (s': LoadState)
    requires ContextOk(x) && StateOk(x, s) && NoneCrashed(s)
    requires Crashable(x, k) && Admits(RangeOf(x, s, k), c)
    ensures Count(LoadTree(x, s), CutOf(x, k, c)) <= 1
    ensures Ends(x, s, s') && OnlyCrashed(s', k) && Admits(RangeOf(x, s', k), c)
    ensures k in s'.crashes <==> Count(LoadTree(x, s), CutOf(x, k, c)) == 1
    ensures Returns(x, s, s', k, c)
  {
    UncrashedExact(x, |x.stores|, s, k, c);
    if Cuts(x, |x.stores|, s, k, c) == 1 {
      s' := CountSome(LoadTree(x, s), CutOf(x, k, c));
      LoadNarrows(x, s, s');
      SingleCrash(s', k);
    } else {
      s' :| HasLeaf(LoadTree(x, s), s') && NoneCrashed(s') && Admits(RangeOf(x, s', k), c);
      OnlyNone(s', k);
    }
    LoadSound(x, s, s', k, c);
  }

  /** A store of a crashed process of whose line nothing is known can be found lost, unless its
      number is 0: then it counts as persisted from the start. */
  lemma LostIff(x: Context, s: LoadState, k: Pid, j: nat)
    requires ContextOk(x) && StateOk(x, s) && x.backtrack && k in s.crashes && RangeOf(x, s, k) == Range(0, 0)
    requires j < |x.stores| && x.stores[j].pid == k
    ensures (exists s', c :: Ends(x, s, s') && Admits(RangeOf(x, s', k), c) && !Visible(x.stores[j], k, c))
       <==> x.stores[j].seqNum > 0
  {
    hide Ends, ContextOk, StateOk;
    if x.stores[j].seqNum > 0 {
      var s' := CrashedLoadOutcome(x, s, k, 0);
      assert Ends(x, s, s') && Admits(RangeOf(x, s', k), 0) && !Visible(x.stores[j], k, 0);
    }
  }

  lemma OnlyNone(s: LoadState, k: Pid)
    requires NoneCrashed(s)
    ensures OnlyCrashed(s, k)
  {
    forall p ensures p in s.crashes ==> p == k {
    }
  }

  lemma ReturnsAt(x: Context, s: LoadState, s': LoadState, k: Pid, c: Clock, i: nat)
    requires SourcesCover(x.read, s.rf) && Returns(x, s, s', k, c) && i < |s.rf|
    ensures |Bytes(x, s')| == |s.rf|
    ensures Some(Bytes(x, s')[i]) == Expected(x, |x.stores|, s, k, c, i)
  {
    assert PlainBytes(x, s, k, c)[i] == Some(Bytes(x, s')[i]);
  }

  // ----- the equivalent-store skip -----

  /** For every cut left open, the outcomes with and without the skip return the same bytes. */
  lemma SkipAgrees(x: Context, y: Context, s: LoadState, a: LoadState, b: LoadState, k: Pid, c: Clock)
    requires y == x.(skip := !x.skip) && ContextOk(x) && StateOk(x, s) && StateOk(y, s)
    requires Ends(x, s, a) && Ends(y, s, b)
    requires OnlyCrashed(a, k) && OnlyCrashed(b, k) && (k == x.read.pid ==> k in s.crashes)
    requires Admits(RangeOf(x, a, k), c) && Admits(RangeOf(y, b, k), c)
    ensures Bytes(x, a) == Bytes(y, b)
  {
    LoadSound(x, s, a, k, c);
    LoadSound(y, s, b, k, c);
    SameReturns(x, y, s, a, b, k, c, c);
  }

  /** A process that has no store in the slot and is not the reader. */
  ghost predicate Bystander(x: Context, k: Pid) {
    k != x.read.pid && forall j :: 0 <= j < |x.stores| ==> x.stores[j].pid != k
  }

  lemma {:induction false} BystanderFrom(stores: seq<Action>, reader: Pid) returns (k: Pid)
    ensures k > reader && forall j :: 0 <= j < |stores| ==> stores[j].pid < k
  {
    if stores == [] {
      k := reader + 1;
    } else {
      var last := |stores| - 1;
      var m := BystanderFrom(stores[..last], reader);
      k := if m <= stores[last].pid then stores[last].pid + 1 else m;
      forall j | 0 <= j < |stores| ensures stores[j].pid < k {
        if j < last { assert stores[..last][j] == stores[j]; }
      }
    }
  }

  lemma {:induction false} BystanderByte(stores: seq<Action>, n: nat, k: Pid, c: Clock, c': Clock, a: Address)
    requires n <= |stores| && forall j :: 0 <= j < |stores| ==> stores[j].pid != k
    ensures NewestByte(stores, n, k, c, a) == NewestByte(stores, n, k, c', a)
  {
    if n > 0 {
      BystanderByte(stores, n - 1, k, c, c', a);
    }
  }

  /** Some outcome of a load that starts without a crash ends without one. */
  lemma {:induction false} OneUncrashed(x: Context, n: nat, s: LoadState) returns (s': LoadState)
    requires ContextOk(x) && n <= |x.stores| && StateOk(x, s) && NoneCrashed(s)
    ensures HasLeaf(Walk(x, n, s), s') && NoneCrashed(s')
  {
    if n == 0 || Full(s.rf) {
      s' := s;
    } else {
      var s1 := StayUp(x, n, s);
      StayUpStep(x, n, s);
      s' := OneUncrashed(x, n - 1, s1);
      if AtCrashPoint(x, n, s) {
        CrashBranch(x, n, s);
        HasLeafBinary(Walk(x, n, Crash(x, s, x.stores[n - 1].pid)), Walk(x, n - 1, s1), s');
      }
    }
  }

  function Unharmed(): LoadState -> bool {
    (s: LoadState) => |s.crashes| == 0
  }

  lemma UnharmedEnd(x: Context, n: nat, s: LoadState)
    requires n <= |x.stores| && (n == 0 || Full(s.rf)) && NoneCrashed(s)
    ensures Count(Walk(x, n, s), Unharmed()) == 1
  {
  }

  /** And only one does. */
  lemma {:induction false} UncrashedOnce(x: Context, n: nat, s: LoadState)
    requires ContextOk(x) && n <= |x.stores| && StateOk(x, s) && NoneCrashed(s)
    ensures Count(Walk(x, n, s), Unharmed()) == 1
  {
    hide RangeOf, Fill, ContextOk, StateOk, AtCrashPoint, StayUp, Walk, WalkCrashed, Next, Count;
    if n == 0 || Full(s.rf) {
      UnharmedEnd(x, n, s);
    } else {
      var s1 := StayUp(x, n, s);
      StayUpStep(x, n, s);
      UncrashedOnce(x, n - 1, s1);
      if AtCrashPoint(x, n, s) {
        CrashBranch(x, n, s);
        CrashStays(x, n, s);
        CountBinary(Walk(x, n, Crash(x, s, x.stores[n - 1].pid)), Walk(x, n - 1, s1), Unharmed());
      }
    }
  }

  lemma CrashStays(x: Context, n: nat, s: LoadState)
    requires ContextOk(x) && 0 < n <= |x.stores| && StateOk(x, Crash(x, s, x.stores[n - 1].pid))
    ensures Count(Walk(x, n, Crash(x, s, x.stores[n - 1].pid)), Unharmed()) == 0
  {
    var crashed := Crash(x, s, x.stores[n - 1].pid);
    forall s' | HasLeaf(Walk(x, n, crashed), s') ensures !Unharmed()(s') {
      LeafReach(x, n, crashed, s');
      ReachProgress(x, n, crashed, s');
      assert x.stores[n - 1].pid in crashed.crashes;
    }
    CountNone(Walk(x, n, crashed), Unharmed());
  }

  /** Whatever a load can return with the skip on (or off), it can return with it off (or on). */
  lemma SkipSameValues(x: Context, y: Context, s: LoadState, a: LoadState) returns (b: LoadState)
    requires y == x.(skip := !x.skip) && ContextOk(x) && StateOk(x, s) && StateOk(y, s) && x.backtrack
    requires Ends(x, s, a)
    ensures Ends(y, s, b) && Bytes(y, b) == Bytes(x, a)
    ensures forall p :: p in b.crashes ==> p in a.crashes
  {
    LoadNarrows(x, s, a);
    if k :| k in a.crashes {
      SingleCrash(a, k);
      var c := RangeOf(x, a, k).begin;
      assert Narrower(RangeOf(x, a, k), RangeOf(x, s, k)) && NonEmpty(RangeOf(x, a, k));
      assert RangeOf(y, s, k) == RangeOf(x, s, k);
      if k in s.crashes {
        b := CrashedLoadOutcome(y, s, k, c);
        LoadNarrows(y, s, b);
        SingleCrash(b, k);
      } else {
        forall p ensures p !in s.crashes {
          assert p in s.crashes ==> p in a.crashes;
        }
        NoKeys(s.crashes);
        assert Crashable(x, k);
        b := UncrashedLoadExact(y, s, k, c);
      }
      SkipAgrees(x, y, s, a, b, k, c);
    } else {
      NoKeys(a.crashes);
      forall p ensures p !in s.crashes {
        assert p in s.crashes ==> p in a.crashes;
      }
      NoKeys(s.crashes);
      b := OneUncrashed(y, |y.stores|, s);
      var k := BystanderFrom(x.stores, x.read.pid);
      LoadNarrows(y, s, b);
      UncrashedSameBytes(x, y, s, a, b, k);
    }
  }

  lemma UncrashedSameBytes(x: Context, y: Context, s: LoadState, a: LoadState, b: LoadState, k: Pid)
    requires y == x.(skip := !x.skip) && ContextOk(x) && StateOk(x, s) && StateOk(y, s)
    requires Ends(x, s, a) && Ends(y, s, b) && NoneCrashed(a) && NoneCrashed(b)
    requires Bystander(x, k)
    ensures Bytes(x, a) == Bytes(y, b)
  {
    var c, c' := RangeOf(x, a, k).begin, RangeOf(y, b, k).begin;
    UncrashedReturns(x, s, a, k);
    UncrashedReturns(y, s, b, k);
    SameReturns(x, y, s, a, b, k, c, c');
  }

  lemma SameReturns(x: Context, y: Context, s: LoadState, a: LoadState, b: LoadState, k: Pid, c: Clock, c': Clock)
    requires y == x.(skip := !x.skip) && SourcesCover(x.read, s.rf)
    requires Returns(x, s, a, k, c) && Returns(y, s, b, k, c')
    requires c == c' || Bystander(x, k)
    ensures Bytes(x, a) == Bytes(y, b)
  {
    forall i: nat | i < |s.rf| ensures Bytes(x, a)[i] == Bytes(y, b)[i] {
      ReturnsAt(x, s, a, k, c, i);
      ReturnsAt(y, s, b, k, c', i);
      if c != c' {
        BystanderByte(x.stores, |x.stores|, k, c, c', x.read.loc + i);
      }
    }
  }

  lemma UncrashedReturns(x: Context, s: LoadState, s': LoadState, k: Pid)
    requires ContextOk(x) && StateOk(x, s) && Ends(x, s, s') && NoneCrashed(s') && k != x.read.pid
    ensures Returns(x, s, s', k, RangeOf(x, s', k).begin)
  {
    LoadNarrows(x, s, s');
    assert NonEmpty(RangeOf(x, s', k));
    OnlyNone(s', k);
    LoadSound(x, s, s', k, RangeOf(x, s', k).begin);
  }

  // ----- repeating a load -----

  /** The state in which the same load would start again after ending in `s'`. */
  function Again(s: LoadState, s': LoadState): LoadState {
    LoadState(s.rf, s'.crashes, s'.cl)
  }

  lemma NewestFirst(x: Context, n: nat, j: nat)
    requires ContextOk(x) && j < n <= |x.stores|
    ensures x.stores[j].seqNum <= x.stores[n - 1].seqNum
    ensures j + 1 < n && x.stores[n - 1].seqNum > 0 ==> x.stores[j].seqNum < x.stores[n - 1].seqNum
  {
  }

  /** On the second pass, a store of a crashed process needs no decision. */
  lemma CrashedAgain(x: Context, n: nat, s: LoadState, s1: LoadState, s': LoadState)
    requires ContextOk(x) && 0 < n <= |x.stores| && StateOk(x, s) && StateOk(x, s1)
    requires x.stores[n - 1].pid in s.crashes && NextCrashed(x, n, s, s1)
    requires Progress(x, n - 1, s1, s')
    ensures WalkCrashed(x, n, Again(s, s')) == Walk(x, n - 1, Again(s1, s'))
  {
    var w := x.stores[n - 1];
    var r, r1, r' := RangeOf(x, s, w.pid), RangeOf(x, s1, w.pid), RangeOf(x, s', w.pid);
    assert RangeOf(x, Again(s, s'), w.pid) == r';
    assert RangeStep(x, n - 1, r1, r');
    if n >= 2 {
      NewestFirst(x, n, n - 2);
    }
    if w.seqNum <= r.begin {
      assert w.seqNum <= r'.begin;
    } else if s1 == Persisted(x, s, w) && s1 != s {
      assert w.seqNum <= r'.begin;
    } else {
      assert s1.rf == s.rf;
    }
  }

  lemma StepAgain(x: Context, n: nat, s: LoadState, s1: LoadState, s': LoadState)
    requires ContextOk(x) && 0 < n <= |x.stores| && StateOk(x, s) && StateOk(x, s1) && !Full(s.rf)
    requires Next(x, n, s, s1) && Progress(x, n, s, s1) && Progress(x, n - 1, s1, s')
    ensures Walk(x, n, Again(s, s')) == Walk(x, n - 1, Again(s1, s'))
  {
    var w := x.stores[n - 1];
    if w.pid in s.crashes {
      assert w.pid in s1.crashes && w.pid in s'.crashes;
      CrashedAgain(x, n, s, s1, s');
    } else if Fill(w, x.read, s.rf) == s.rf {
      assert Again(s, s') == Again(s1, s');
      assert Again(s, s').(rf := Fill(w, x.read, s.rf)) == Again(s, s');
      QuietAgain(x, n, s, s');
    } else if w.kind == AtomicInit || w.pid == x.read.pid {
      assert s1 == s.(rf := Fill(w, x.read, s.rf));
      InitOrOwnAgain(x, n, s, s1, s');
    } else if s1 == ReadLive(x, s, w) {
      ReadAgain(x, n, s, s1, s');
    } else {
      var m := Crash(x, s, w.pid);
      CrashProgress(x, n, s, w);
      ProgressKeepsStateOk(x, n, s, m);
      assert w.pid in s1.crashes && w.pid in s'.crashes;
      CrashedAgain(x, n, m, s1, s');
      assert Again(m, s') == Again(s, s');
    }
  }

  /** A store that provides nothing provides nothing again. */
  lemma QuietAgain(x: Context, n: nat, s: LoadState, s': LoadState)
    requires 0 < n <= |x.stores| && !Full(s.rf)
    requires Fill(x.stores[n - 1], x.read, s.rf) == s.rf
    ensures Walk(x, n, Again(s, s')) == Walk(x, n - 1, Again(s, s'))
  {
    var a := Again(s, s');
    assert a.(rf := Fill(x.stores[n - 1], x.read, a.rf)) == a;
  }

  lemma InitOrOwnAgain(x: Context, n: nat, s: LoadState, s1: LoadState, s': LoadState)
    requires ContextOk(x) && 0 < n <= |x.stores| && !Full(s.rf)
    requires var w := x.stores[n - 1];
             && w.pid !in s.crashes && (w.kind == AtomicInit || w.pid == x.read.pid)
             && Fill(w, x.read, s.rf) != s.rf && s1 == s.(rf := Fill(w, x.read, s.rf))
    requires Progress(x, n - 1, s1, s')
    ensures Walk(x, n, Again(s, s')) == Walk(x, n - 1, Again(s1, s'))
  {
    var w := x.stores[n - 1];
    assert Again(s, s').(rf := Fill(w, x.read, s.rf)) == Again(s1, s');
    if w.pid in s'.crashes {
      assert w.pid != x.read.pid;
      assert w.seqNum == 0;
    }
  }

  lemma ReadAgain(x: Context, n: nat, s: LoadState, s1: LoadState, s': LoadState)
    requires ContextOk(x) && 0 < n <= |x.stores| && !Full(s.rf)
    requires var w := x.stores[n - 1];
             && w.pid !in s.crashes && w.kind != AtomicInit && w.pid != x.read.pid
             && Fill(w, x.read, s.rf) != s.rf && s1 == ReadLive(x, s, w)
    requires Progress(x, n - 1, s1, s')
    ensures Walk(x, n, Again(s, s')) == Walk(x, n - 1, Again(s1, s'))
  {
    var w := x.stores[n - 1];
    var a := Again(s, s');
    assert RangeStep(x, n - 1, RangeOf(x, s1, w.pid), RangeOf(x, s', w.pid));
    assert w.seqNum <= RangeOf(x, a, w.pid).begin;
    assert ReadLive(x, a, w) == Again(s1, s');
    assert a.(rf := Fill(w, x.read, a.rf)) == Again(s1, s');
  }

  lemma {:induction false} WalkAgain(x: Context, n: nat, s: LoadState, s': LoadState)
    requires ContextOk(x) && n <= |x.stores| && StateOk(x, s) && Reach(x, n, s, s')
    ensures Walk(x, n, Again(s, s')) == Leaf(s')
  {
    hide ContextOk, StateOk, Next, Progress;
    if n == 0 || Full(s.rf) {
      assert Again(s, s') == s';
    } else {
      hide Walk;
      var s1 := NextOf(x, n, s, s');
      NextKeeps(x, n, s, s1);
      ReachProgress(x, n - 1, s1, s');
      WalkAgain(x, n - 1, s1, s');
      StepAgain(x, n, s, s1, s');
    }
  }

  /** Repeating a load at once makes no decision, returns the same and changes nothing,
      even if the first time it crashed a writer halfway. */
  lemma LoadAgain(x: Context, s: LoadState, s': LoadState)
    requires ContextOk(x) && StateOk(x, s) && Ends(x, s, s')
    ensures LoadTree(x, Again(s, s')) == Leaf(s')
  {
    LeafReach(x, |x.stores|, s, s');
    WalkAgain(x, |x.stores|, s, s');
  }
}
