/**
 A finite deterministic decision tree: what a program under test looks like to
 the checker. An inner node is one call of a decision point with its number of
 choices; a leaf is a finished execution.

 `Outcomes` lists the leaves from left to right, each with the choices that lead
 to it. `LeadsTo` says, independently, which choices lead to which leaf; the
 lemmas show that the list contains every leaf once, in lexicographic order.
 */
module DecisionTree {

  datatype Tree<R> = Leaf(result: R) | Node(kids: seq<Tree<R>>)

  /** One decision: the choice taken out of `size` choices. */
  datatype Choice = Choice(idx: nat, size: nat)

  type Path = seq<Choice>

  datatype Outcome<R> = Outcome(path: Path, result: R)

  /** Every decision offers at least one choice. */
  ghost predicate Proper<R>(t: Tree<R>) {
    t.Node? ==> |t.kids| >= 1 && forall k :: 0 <= k < |t.kids| ==> Proper(t.kids[k])
  }

  /** The choices in `p` lead from the root of `t` to a leaf holding `r`. */
  predicate LeadsTo<R(==)>(t: Tree<R>, p: Path, r: R) {
    match t
    case Leaf(result) => p == [] && result == r
    case Node(kids) =>
      && p != []
      && p[0].size == |kids|
      && p[0].idx < |kids|
      && LeadsTo(kids[p[0].idx], p[1..], r)
  }

  function Prepend<R>(c: Choice, os: seq<Outcome<R>>): (r: seq<Outcome<R>>)
    ensures |r| == |os|
    ensures forall j :: 0 <= j < |os| ==> r[j] == Outcome([c] + os[j].path, os[j].result)
  {
    seq(|os|, j requires 0 <= j < |os| => Outcome([c] + os[j].path, os[j].result))
  }

  /** All leaves of `t`, from left to right. */
  function Outcomes<R>(t: Tree<R>): seq<Outcome<R>>
    decreases t, 1
  {
    match t
    case Leaf(r) => [Outcome([], r)]
    case Node(kids) => OutcomesFrom(t, 0)
  }

  /** The leaves below the children `k`, `k + 1`, ... of the node `t`. */
  function OutcomesFrom<R>(t: Tree<R>, k: nat): seq<Outcome<R>>
    requires t.Node? && k <= |t.kids|
    decreases t, 0, |t.kids| - k
  {
    if k == |t.kids| then []
    else Prepend(Choice(k, |t.kids|), Outcomes(t.kids[k])) + OutcomesFrom(t, k + 1)
  }

  function Results<R>(os: seq<Outcome<R>>): (rs: seq<R>)
    ensures |rs| == |os|
    ensures forall j :: 0 <= j < |os| ==> rs[j] == os[j].result
  {
    seq(|os|, j requires 0 <= j < |os| => os[j].result)
  }

  /** Where the leaves of child `k` begin in `Outcomes(t)`. */
  ghost function Offset<R>(t: Tree<R>, k: nat): nat
    requires t.Node? && k <= |t.kids|
  {
    if k == 0 then 0 else Offset(t, k - 1) + |Outcomes(t.kids[k - 1])|
  }

  lemma {:induction false} OutcomesNonEmpty<R>(t: Tree<R>)
    requires Proper(t)
    ensures |Outcomes(t)| >= 1
  {
    if t.Node? {
      OutcomesNonEmpty(t.kids[0]);
    }
  }

  lemma {:induction false} FromOffset<R>(t: Tree<R>, k: nat)
    requires t.Node? && k <= |t.kids|
    ensures Offset(t, k) <= |Outcomes(t)|
    ensures OutcomesFrom(t, k) == Outcomes(t)[Offset(t, k)..]
  {
    if k != 0 {
      FromOffset(t, k - 1);
      var block := Prepend(Choice(k - 1, |t.kids|), Outcomes(t.kids[k - 1]));
      assert OutcomesFrom(t, k - 1) == block + OutcomesFrom(t, k);
      assert OutcomesFrom(t, k) == OutcomesFrom(t, k - 1)[|block|..];
      assert Outcomes(t)[Offset(t, k - 1)..][|block|..] == Outcomes(t)[Offset(t, k)..];
    }
  }

  /** Leaf `j` of child `k` is leaf `Offset(t, k) + j` of `t`. */
  lemma {:induction false} ChildOutcome<R>(t: Tree<R>, k: nat, j: nat)
    requires t.Node? && k < |t.kids| && j < |Outcomes(t.kids[k])|
    ensures Offset(t, k) + j < |Outcomes(t)|
    ensures Offset(t, k) + |Outcomes(t.kids[k])| == Offset(t, k + 1) <= |Outcomes(t)|
    ensures Outcomes(t)[Offset(t, k) + j]
         == Outcome([Choice(k, |t.kids|)] + Outcomes(t.kids[k])[j].path, Outcomes(t.kids[k])[j].result)
  {
    FromOffset(t, k);
    FromOffset(t, k + 1);
    var block := Prepend(Choice(k, |t.kids|), Outcomes(t.kids[k]));
    assert OutcomesFrom(t, k) == block + OutcomesFrom(t, k + 1);
    assert Outcomes(t)[Offset(t, k)..][j] == block[j];
  }

  /** Every leaf of a node is some leaf of some child. */
  lemma {:induction false} LocateOutcome<R>(t: Tree<R>, j: nat) returns (k: nat, i: nat)
    requires t.Node? && j < |Outcomes(t)|
    ensures k < |t.kids| && i < |Outcomes(t.kids[k])| && j == Offset(t, k) + i
  {
    k := 0;
    FromOffset(t, |t.kids|);
    while k < |t.kids| && Offset(t, k + 1) <= j
      invariant k <= |t.kids| && Offset(t, k) <= j
    {
      k := k + 1;
    }
    assert k < |t.kids|;
    i := j - Offset(t, k);
  }

  /** Every leaf is listed. */
  lemma {:induction false} Exhaustive<R>(t: Tree<R>, p: Path, r: R) returns (j: nat)
    requires LeadsTo(t, p, r)
    ensures j < |Outcomes(t)| && Outcomes(t)[j] == Outcome(p, r)
  {
    match t {
      case Leaf(_) => j := 0;
      case Node(kids) =>
        var i := Exhaustive(kids[p[0].idx], p[1..], r);
        ChildOutcome(t, p[0].idx, i);
        j := Offset(t, p[0].idx) + i;
        assert [Choice(p[0].idx, |kids|)] + p[1..] == p;
    }
  }

  /** Only leaves are listed. */
  lemma {:induction false} ListedLeads<R>(t: Tree<R>, j: nat)
    requires j < |Outcomes(t)|
    ensures LeadsTo(t, Outcomes(t)[j].path, Outcomes(t)[j].result)
  {
    if t.Node? {
      var k, i := LocateOutcome(t, j);
      ChildOutcome(t, k, i);
      ListedLeads(t.kids[k], i);
      assert Outcomes(t)[j].path[1..] == Outcomes(t.kids[k])[i].path;
    }
  }

  /** Lexicographic order on choices. */
  ghost predicate LexLess(p: Path, q: Path) {
    p != [] && q != [] &&
    (p[0].idx < q[0].idx || (p[0] == q[0] && LexLess(p[1..], q[1..])))
  }

  /** The listing is strictly lexicographic; in particular no leaf is listed twice. */
  lemma {:induction false} Sorted<R>(t: Tree<R>, j: nat, j': nat)
    requires j < j' < |Outcomes(t)|
    ensures LexLess(Outcomes(t)[j].path, Outcomes(t)[j'].path)
    ensures Outcomes(t)[j].path != Outcomes(t)[j'].path
  {
    if t.Node? {
      var k, i := LocateOutcome(t, j);
      var k', i' := LocateOutcome(t, j');
      ChildOutcome(t, k, i);
      ChildOutcome(t, k', i');
      var p, p' := Outcomes(t)[j].path, Outcomes(t)[j'].path;
      assert p[1..] == Outcomes(t.kids[k])[i].path;
      assert p'[1..] == Outcomes(t.kids[k'])[i'].path;
      if k == k' {
        Sorted(t.kids[k], i, i');
      } else {
        OffsetMonotone(t, if k < k' then k + 1 else k' + 1, if k < k' then k' else k);
      }
    }
  }

  lemma {:induction false} OffsetMonotone<R>(t: Tree<R>, k: nat, k': nat)
    requires t.Node? && k <= k' <= |t.kids|
    ensures Offset(t, k) <= Offset(t, k')
  {
    if k < k' {
      OffsetMonotone(t, k, k' - 1);
    }
  }

  // ----- counting leaves -----

  /** How many leaves of `t` satisfy `f`. */
  function Count<R>(t: Tree<R>, f: R -> bool): nat
    decreases t, 1
  {
    match t
    case Leaf(r) => if f(r) then 1 else 0
    case Node(kids) => CountFrom(t, f, 0)
  }

  function CountFrom<R>(t: Tree<R>, f: R -> bool, k: nat): nat
    requires t.Node? && k <= |t.kids|
    decreases t, 0, |t.kids| - k
  {
    if k == |t.kids| then 0 else Count(t.kids[k], f) + CountFrom(t, f, k + 1)
  }

  /** Some leaf of `t` holds `r`. */
  ghost predicate HasLeaf<R>(t: Tree<R>, r: R)
    decreases t
  {
    match t
    case Leaf(result) => result == r
    case Node(kids) => exists k :: 0 <= k < |kids| && HasLeaf(kids[k], r)
  }

  lemma CountBinary<R>(a: Tree<R>, b: Tree<R>, f: R -> bool)
    ensures Count(Node([a, b]), f) == Count(a, f) + Count(b, f)
  {
    var t := Node([a, b]);
    assert CountFrom(t, f, 2) == 0;
    assert CountFrom(t, f, 1) == Count(t.kids[1], f) + CountFrom(t, f, 2);
    assert CountFrom(t, f, 0) == Count(t.kids[0], f) + CountFrom(t, f, 1);
  }

  lemma HasLeafBinary<R>(a: Tree<R>, b: Tree<R>, r: R)
    ensures HasLeaf(Node([a, b]), r) <==> HasLeaf(a, r) || HasLeaf(b, r)
  {
    var kids := [a, b];
    assert HasLeaf(Node(kids), r) <==> exists k :: 0 <= k < |kids| && HasLeaf(kids[k], r);
    if HasLeaf(a, r) { assert HasLeaf(kids[0], r); }
    if HasLeaf(b, r) { assert HasLeaf(kids[1], r); }
  }

  /** A leaf in the sense of `HasLeaf` is a leaf that some choices lead to. */
  lemma {:induction false} HasLeafLeadsTo<R>(t: Tree<R>, r: R) returns (p: Path)
    requires HasLeaf(t, r)
    ensures LeadsTo(t, p, r)
  {
    match t {
      case Leaf(_) => p := [];
      case Node(kids) =>
        var k :| 0 <= k < |kids| && HasLeaf(kids[k], r);
        var q := HasLeafLeadsTo(kids[k], r);
        p := [Choice(k, |kids|)] + q;
        assert p[1..] == q;
    }
  }

  lemma {:induction false} LeadsToHasLeaf<R>(t: Tree<R>, p: Path, r: R)
    requires LeadsTo(t, p, r)
    ensures HasLeaf(t, r)
  {
    if t.Node? {
      LeadsToHasLeaf(t.kids[p[0].idx], p[1..], r);
    }
  }

  lemma {:induction false} CountNone<R>(t: Tree<R>, f: R -> bool)
    requires forall r :: HasLeaf(t, r) ==> !f(r)
    ensures Count(t, f) == 0
    decreases t, 1
  {
    match t {
      case Leaf(r) => assert HasLeaf(t, r);
      case Node(kids) =>
        CountNoneFrom(t, f, 0);
    }
  }

  lemma {:induction false} CountNoneFrom<R>(t: Tree<R>, f: R -> bool, k: nat)
    requires t.Node? && k <= |t.kids|
    requires forall r :: HasLeaf(t, r) ==> !f(r)
    ensures CountFrom(t, f, k) == 0
    decreases t, 0, |t.kids| - k
  {
    if k < |t.kids| {
      forall r | HasLeaf(t.kids[k], r) ensures !f(r) {
        assert HasLeaf(t, r);
      }
      CountNone(t.kids[k], f);
      CountNoneFrom(t, f, k + 1);
    }
  }

  lemma CountSome<R>(t: Tree<R>, f: R -> bool) returns (r: R)
    requires Count(t, f) > 0
    ensures HasLeaf(t, r) && f(r)
  {
    if forall r :: HasLeaf(t, r) ==> !f(r) {
      CountNone(t, f);
      assert false;
    }
    r :| HasLeaf(t, r) && f(r);
  }

  /** How many of the results satisfy `f`. */
  function CountResults<R>(os: seq<Outcome<R>>, f: R -> bool): nat {
    if os == [] then 0 else (if f(os[0].result) then 1 else 0) + CountResults(os[1..], f)
  }

  lemma {:induction false} CountAppend<R>(os: seq<Outcome<R>>, os': seq<Outcome<R>>, f: R -> bool)
    ensures CountResults(os + os', f) == CountResults(os, f) + CountResults(os', f)
  {
    if os == [] {
      assert os + os' == os';
    } else {
      assert (os + os')[1..] == os[1..] + os';
      CountAppend(os[1..], os', f);
    }
  }

  lemma {:induction false} CountPrepend<R>(c: Choice, os: seq<Outcome<R>>, f: R -> bool)
    ensures CountResults(Prepend(c, os), f) == CountResults(os, f)
  {
    if os != [] {
      assert Prepend(c, os)[1..] == Prepend(c, os[1..]);
      CountPrepend(c, os[1..], f);
    }
  }

  /** Counting leaves in the tree is counting them in the list. */
  lemma {:induction false} CountListed<R>(t: Tree<R>, f: R -> bool)
    ensures Count(t, f) == CountResults(Outcomes(t), f)
    decreases t, 1
  {
    match t {
      case Leaf(r) =>
        assert Outcomes(t)[1..] == [];
      case Node(kids) => CountListedFrom(t, f, 0);
    }
  }

  lemma {:induction false} CountListedFrom<R>(t: Tree<R>, f: R -> bool, k: nat)
    requires t.Node? && k <= |t.kids|
    ensures CountFrom(t, f, k) == CountResults(OutcomesFrom(t, k), f)
    decreases t, 0, |t.kids| - k
  {
    if k < |t.kids| {
      CountListed(t.kids[k], f);
      CountListedFrom(t, f, k + 1);
      CountPrepend(Choice(k, |t.kids|), Outcomes(t.kids[k]), f);
      CountAppend(Prepend(Choice(k, |t.kids|), Outcomes(t.kids[k])), OutcomesFrom(t, k + 1), f);
    }
  }

  lemma {:induction false} CountPositions<R>(os: seq<Outcome<R>>, f: R -> bool, j: nat)
    requires j < |os| && f(os[j].result)
    ensures CountResults(os, f) >= 1
    ensures CountResults(os, f) == 1 ==> forall i :: 0 <= i < |os| && i != j ==> !f(os[i].result)
  {
    if CountResults(os, f) == 1 {
      forall i | 0 <= i < |os| && i != j ensures !f(os[i].result) {
        var lo, hi := if i < j then i else j, if i < j then j else i;
        CountAppend(os[..hi], os[hi..], f);
        CountAppend(os[..lo], os[lo..hi], f);
        assert os == os[..hi] + os[hi..] && os[..hi] == os[..lo] + os[lo..hi];
        assert os[lo..hi][0] == os[lo] && os[hi..][0] == os[hi];
      }
    } else {
      CountAppend(os[..j], os[j..], f);
      assert os == os[..j] + os[j..] && os[j..][0] == os[j];
    }
  }

  /** If one leaf satisfies `f`, the search finishes exactly one execution with it. */
  lemma UniqueOutcome<R>(t: Tree<R>, f: R -> bool) returns (j: nat)
    requires Count(t, f) == 1
    ensures j < |Outcomes(t)| && f(Outcomes(t)[j].result)
    ensures forall i :: 0 <= i < |Outcomes(t)| && i != j ==> !f(Outcomes(t)[i].result)
  {
    var r := CountSome(t, f);
    var p := HasLeafLeadsTo(t, r);
    j := Exhaustive(t, p, r);
    CountListed(t, f);
    CountPositions(Outcomes(t), f, j);
  }

  /** Two leaves that satisfy `f`, if at most one does, are one. */
  lemma SameLeaf<R>(t: Tree<R>, f: R -> bool, a: R, b: R)
    requires Count(t, f) <= 1 && HasLeaf(t, a) && f(a) && HasLeaf(t, b) && f(b)
    ensures a == b
  {
    var p := HasLeafLeadsTo(t, a);
    var q := HasLeafLeadsTo(t, b);
    var i := Exhaustive(t, p, a);
    var j := Exhaustive(t, q, b);
    CountListed(t, f);
    CountPositions(Outcomes(t), f, i);
  }
}
