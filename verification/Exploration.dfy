/**
 Repeating a deterministic program on the decision stack visits the leaves of its
 decision tree from left to right, each once, and then stops.
 */
module Exploration {
  import opened DecisionTree
  import opened NodeStacks

  /** The part of the stack still to be replayed, and the mark relative to it. */
  function Rest(s: Stack): Path
    requires StackOk(s)
  {
    s.nodes[s.head + 1..]
  }

  function RestMark(s: Stack): int {
    if s.curr == -1 then -1 else s.curr - s.head - 1
  }

  /** The recorded choices `p`, up to the mark, are choices the program `t` offers. */
  ghost predicate Fits<R>(p: Path, mark: int, t: Tree<R>) {
    if p == [] then mark == -1
    else
      && t.Node?
      && p[0].size == |t.kids|
      && p[0].idx < |t.kids|
      && if mark == 0 then HasMore(p[0])
         else Fits(p[1..], if mark == -1 then -1 else mark - 1, t.kids[p[0].idx])
  }

  /** The stack and the program are in step. */
  ghost predicate InStep<R>(s: Stack, t: Tree<R>) {
    StackOk(s) && Proper(t) && Fits(Rest(s), RestMark(s), t)
  }

  lemma StepKeepsInStep<R>(s: Stack, t: Tree<R>)
    requires InStep(s, t) && t.Node?
    ensures Agrees(s, |t.kids|)
    ensures var s' := Explore(s, |t.kids|); Taken(s') < |t.kids| && InStep(s', t.kids[Taken(s')])
  {
    var p := Rest(s);
    var s' := Explore(s, |t.kids|);
    if p != [] && RestMark(s) != 0 {
      assert Rest(s') == p[1..];
    } else {
      assert Rest(s') == [];
    }
  }

  /** One execution of the program `t`: every decision it meets is put to the stack. */
  ghost function Execute<R>(s: Stack, t: Tree<R>): (Stack, R)
    requires InStep(s, t)
    decreases t
  {
    match t
    case Leaf(r) => (s, r)
    case Node(kids) =>
      StepKeepsInStep(s, t);
      var s' := Explore(s, |kids|);
      Execute(s', kids[Taken(s')])
  }

  /** The highest decision that still has choices left, or -1. */
  function Deepest(p: Path): (d: int)
    ensures -1 <= d < |p|
    ensures d != -1 ==> HasMore(p[d])
    ensures forall k :: d < k < |p| ==> !HasMore(p[k])
  {
    if p == [] then -1
    else
      var d := Deepest(p[1..]);
      if d != -1 then d + 1 else if HasMore(p[0]) then 0 else -1
  }

  /** What an execution that starts at `s` and ends in the leaf `o` leaves behind. */
  ghost predicate Ended<R>(s: Stack, o: Outcome<R>, s': Stack, r: R)
    requires StackOk(s)
  {
    && r == o.result
    && s'.nodes == s.nodes[..s.head + 1] + o.path
    && s'.head == |s'.nodes| - 1
    && s'.curr == -1
    && s'.last == if Deepest(o.path) != -1 then s.head + 1 + Deepest(o.path) else s.last
  }

  lemma EndedStep<R>(s: Stack, n: nat, o: Outcome<R>, o': Outcome<R>, s': Stack, r: R)
    requires StackOk(s) && Agrees(s, n) && n >= 1
    requires Ended(Explore(s, n), o, s', r)
    requires var c := Explore(s, n).nodes[s.head + 1];
             o'.path == [c] + o.path && o'.result == o.result
    ensures Ended(s, o', s', r)
  {
    var m := Explore(s, n);
    assert o'.path[1..] == o.path;
    assert m.nodes[..m.head + 1] == s.nodes[..s.head + 1] + [m.nodes[m.head]];
  }

  /** The execution of `t` that starts at `s` ends in the leaf `o`. */
  ghost predicate Reaches<R>(s: Stack, t: Tree<R>, o: Outcome<R>) {
    && InStep(s, t)
    && Ended(s, o, Execute(s, t).0, Execute(s, t).1)
  }

  /** An execution of child `k` that ends in its leaf `i` is an execution of `t`. */
  lemma LinkStep<R>(s: Stack, t: Tree<R>, k: nat, i: nat)
    requires StackOk(s) && Proper(t) && t.Node? && k < |t.kids| && i < |Outcomes(t.kids[k])|
    requires Agrees(s, |t.kids|)
    requires Taken(Explore(s, |t.kids|)) == k
    requires InStep(s, t)
    requires Reaches(Explore(s, |t.kids|), t.kids[k], Outcomes(t.kids[k])[i])
    ensures Offset(t, k) + i < |Outcomes(t)|
    ensures Reaches(s, t, Outcomes(t)[Offset(t, k) + i])
  {
    var m := Explore(s, |t.kids|);
    var (s', r) := Execute(m, t.kids[k]);
    ChildOutcome(t, k, i);
    StepKeepsInStep(s, t);
    assert m.nodes[s.head + 1] == Choice(k, |t.kids|);
    EndedStep(s, |t.kids|, Outcomes(t.kids[k])[i], Outcomes(t)[Offset(t, k) + i], s', r);
  }

  /** With nothing to replay, an execution takes first choices only. */
  lemma {:induction false} FirstLeaf<R>(s: Stack, t: Tree<R>)
    requires StackOk(s) && Proper(t) && Rest(s) == [] && s.curr == -1
    ensures |Outcomes(t)| >= 1 && Reaches(s, t, Outcomes(t)[0])
    decreases t
  {
    OutcomesNonEmpty(t);
    if t.Node? {
      var m := Explore(s, |t.kids|);
      assert Rest(m) == [];
      FirstLeaf(m, t.kids[0]);
      OutcomesNonEmpty(t.kids[0]);
      LinkStep(s, t, 0, 0);
    }
  }

  /** A leaf is the last one exactly when none of its decisions has choices left. */
  lemma {:induction false} LastLeaf<R>(t: Tree<R>, j: nat)
    requires Proper(t) && j < |Outcomes(t)|
    ensures Deepest(Outcomes(t)[j].path) == -1 <==> j + 1 == |Outcomes(t)|
    decreases t
  {
    if t.Node? {
      var k, i := LocateOutcome(t, j);
      ChildOutcome(t, k, i);
      LastLeaf(t.kids[k], i);
      FromOffset(t, |t.kids|);
      var p := Outcomes(t)[j].path;
      assert p[1..] == Outcomes(t.kids[k])[i].path;
      assert Offset(t, |t.kids|) == |Outcomes(t)|;
      if k + 1 < |t.kids| {
        OutcomesNonEmpty(t.kids[k + 1]);
        ChildOutcome(t, k + 1, 0);
      }
    }
  }

  /** Below the mark a recorded choice is taken again. */
  lemma ReplayBelowMark(s: Stack, n: nat)
    requires StackOk(s) && Rest(s) != [] && Rest(s)[0].size == n >= 1
    requires RestMark(s) == Deepest(Rest(s)) && Deepest(Rest(s)[1..]) != -1
    ensures Agrees(s, n)
    ensures var m := Explore(s, n);
            && Rest(m) == Rest(s)[1..]
            && RestMark(m) == Deepest(Rest(m))
            && Taken(m) == Rest(s)[0].idx
  {
    assert Rest(Explore(s, n)) == Rest(s)[1..];
  }

  /** At the mark the next choice is taken and everything above is forgotten. */
  lemma TakeNextChoice(s: Stack, n: nat)
    requires StackOk(s) && Rest(s) != [] && Rest(s)[0].size == n >= 1
    requires RestMark(s) == Deepest(Rest(s)) != -1 && Deepest(Rest(s)[1..]) == -1
    ensures Agrees(s, n)
    ensures var m := Explore(s, n);
            Rest(m) == [] && m.curr == -1 && Taken(m) == Rest(s)[0].idx + 1 < n
  {
    assert HasMore(Rest(s)[0]);
    assert Rest(Explore(s, n)) == [];
  }

  lemma ReachBelowMark<R>(s: Stack, t: Tree<R>, k: nat, i: nat)
    requires StackOk(s) && Proper(t) && t.Node? && k < |t.kids| && i < |Outcomes(t.kids[k])|
    requires Rest(s) != [] && Rest(s)[0] == Choice(k, |t.kids|)
    requires RestMark(s) == Deepest(Rest(s)) && Deepest(Rest(s)[1..]) != -1
    requires Reaches(Explore(s, |t.kids|), t.kids[k], Outcomes(t.kids[k])[i])
    ensures Offset(t, k) + i < |Outcomes(t)|
    ensures Reaches(s, t, Outcomes(t)[Offset(t, k) + i])
  {
    ReplayBelowMark(s, |t.kids|);
    LinkStep(s, t, k, i);
  }

  lemma ReachPastMark<R>(s: Stack, t: Tree<R>, k: nat)
    requires StackOk(s) && Proper(t) && t.Node? && k + 1 < |t.kids|
    requires Rest(s) != [] && Rest(s)[0] == Choice(k, |t.kids|)
    requires RestMark(s) == Deepest(Rest(s)) != -1 && Deepest(Rest(s)[1..]) == -1
    ensures |Outcomes(t.kids[k + 1])| >= 1
    ensures Offset(t, k + 1) < |Outcomes(t)|
    ensures Reaches(s, t, Outcomes(t)[Offset(t, k + 1)])
  {
    hide StackOk, Explore, Reaches;
    TakeNextChoice(s, |t.kids|);
    FirstLeaf(Explore(s, |t.kids|), t.kids[k + 1]);
    LinkStep(s, t, k + 1, 0);
  }

  /** With leaf `j` recorded and the mark on its highest open decision, an execution
      replays the stack without failing its assertion and reaches leaf `j + 1`. */
  lemma {:induction false} NextLeaf<R>(s: Stack, t: Tree<R>, j: nat)
    requires StackOk(s) && Proper(t) && j < |Outcomes(t)|
    requires Rest(s) == Outcomes(t)[j].path
    requires RestMark(s) == Deepest(Rest(s)) != -1
    ensures j + 1 < |Outcomes(t)| && Reaches(s, t, Outcomes(t)[j + 1])
    decreases t
  {
    hide StackOk, Explore, Reaches;
    LastLeaf(t, j);
    var k, i := LocateOutcome(t, j);
    ChildOutcome(t, k, i);
    var q := Outcomes(t.kids[k])[i].path;
    assert Rest(s)[1..] == q;
    LastLeaf(t.kids[k], i);
    if Deepest(q) != -1 {
      ReplayBelowMark(s, |t.kids|);
      NextLeaf(Explore(s, |t.kids|), t.kids[k], i);
      ReachBelowMark(s, t, k, i + 1);
    } else {
      ReachPastMark(s, t, k);
    }
  }

  /** Between executions: nothing explored yet, or leaf `j` was the last one explored. */
  ghost predicate Between<R>(s: Stack, t: Tree<R>, explored: nat) {
    && StackOk(s) && s.head == -1 && s.last == -1
    && if explored == 0 then s.nodes == [] && s.curr == -1
       else
         && explored < |Outcomes(t)|
         && s.nodes == Outcomes(t)[explored - 1].path
         && s.curr == Deepest(s.nodes) != -1
  }

  /** One execution and the reset after it: the next leaf is visited, and another
      execution is announced exactly when a leaf is left. */
  lemma ExecutionStep<R>(s: Stack, t: Tree<R>, explored: nat)
    requires Proper(t) && Between(s, t, explored)
    ensures InStep(s, t) && explored < |Outcomes(t)|
    ensures var (s', r) := Execute(s, t);
            && StackOk(s')
            && r == Outcomes(t)[explored].result
            && (s'.last != -1 <==> explored + 1 < |Outcomes(t)|)
            && (s'.last != -1 ==> Between(Reset(s'), t, explored + 1))
  {
    hide Outcomes, Deepest, Proper;
    if explored == 0 {
      FirstLeaf(s, t);
    } else {
      assert Rest(s) == s.nodes;
      NextLeaf(s, t, explored - 1);
    }
    LastLeaf(t, explored);
    var (s', r) := Execute(s, t);
    assert s'.nodes == Outcomes(t)[explored].path;
    ExecuteKeepsOk(s, t);
  }

  lemma {:induction false} ExecuteKeepsOk<R>(s: Stack, t: Tree<R>)
    requires InStep(s, t)
    ensures StackOk(Execute(s, t).0)
    decreases t
  {
    if t.Node? {
      StepKeepsInStep(s, t);
      var s' := Explore(s, |t.kids|);
      ExecuteKeepsOk(s', t.kids[Taken(s')]);
    }
  }

  /** Runs the program once. */
  method RunExecution<R>(ns: NodeStack, t: Tree<R>) returns (r: R)
    requires ns.Valid() && InStep(ns.value, t)
    modifies ns.Repr
    ensures ns.Valid() && fresh(ns.Repr - old(ns.Repr))
    ensures (ns.value, r) == Execute(old(ns.value), t)
  {
    hide Execute, InStep, StackOk;
    var here := t;
    while here.Node?
      invariant ns.Valid() && fresh(ns.Repr - old(ns.Repr))
      invariant InStep(ns.value, here)
      invariant Execute(ns.value, here) == Execute(old(ns.value), t)
      decreases here
    {
      ExecuteNode(ns.value, here);
      var choice := ns.ExploreNext(|here.kids|);
      here := here.kids[choice];
    }
    ExecuteLeaf(ns.value, here);
    r := here.result;
  }

  lemma ExecuteNode<R>(s: Stack, t: Tree<R>)
    requires InStep(s, t) && t.Node?
    ensures StackOk(s) && Agrees(s, |t.kids|) && |t.kids| >= 1
    ensures var s' := Explore(s, |t.kids|);
            && Taken(s') < |t.kids| && InStep(s', t.kids[Taken(s')])
            && Execute(s, t) == Execute(s', t.kids[Taken(s')])
  {
    StepKeepsInStep(s, t);
  }

  lemma ExecuteLeaf<R>(s: Stack, t: Tree<R>)
    requires InStep(s, t) && t.Leaf?
    ensures Execute(s, t) == (s, t.result)
  {
  }

  /** One execution and what follows it: the stack is reset if another is to come. */
  method RunAndFinish<R>(ns: NodeStack, t: Tree<R>, ghost explored: nat) returns (r: R, again: bool)
    requires ns.Valid() && Proper(t) && Between(ns.value, t, explored)
    modifies ns.Repr
    ensures ns.Valid() && fresh(ns.Repr - old(ns.Repr))
    ensures explored < |Outcomes(t)| && r == Outcomes(t)[explored].result
    ensures again <==> explored + 1 < |Outcomes(t)|
    ensures again ==> Between(ns.value, t, explored + 1)
  {
    ExecutionStep(ns.value, t, explored);
    r := RunExecution(ns, t);
    again := ns.HasAnotherExecution();
    if again {
      ns.ResetExecution();
    }
  }

  lemma ResultsGrow<R>(os: seq<Outcome<R>>, a: nat, b: nat)
    requires a <= b < |os|
    ensures Results(os[a..b + 1]) == Results(os[a..b]) + [os[b].result]
  {
  }

  /** The checker's main loop, on a fresh stack or resumed after `explored` leaves. */
  method ExploreAll<R>(ns: NodeStack, t: Tree<R>, ghost explored: nat) returns (visited: seq<R>)
    requires ns.Valid() && Proper(t) && Between(ns.value, t, explored)
    modifies ns.Repr
    ensures ns.Valid() && fresh(ns.Repr - old(ns.Repr)) && explored < |Outcomes(t)|
    ensures visited == Results(Outcomes(t)[explored..])
  {
    visited := [];
    var rollbackAgain := true;
    ghost var done := explored;
    OutcomesNonEmpty(t);
    while rollbackAgain
      invariant ns.Valid() && fresh(ns.Repr - old(ns.Repr))
      invariant rollbackAgain ==> Between(ns.value, t, done)
      invariant explored <= done <= |Outcomes(t)|
      invariant rollbackAgain <==> done < |Outcomes(t)|
      invariant visited == Results(Outcomes(t)[explored..done])
      decreases |Outcomes(t)| - done
    {
      var r;
      r, rollbackAgain := RunAndFinish(ns, t, done);
      visited := visited + [r];
      ResultsGrow(Outcomes(t), explored, done);
      done := done + 1;
    }
    assert Outcomes(t)[explored..done] == Outcomes(t)[explored..];
  }
}
