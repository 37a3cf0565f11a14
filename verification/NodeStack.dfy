/**
 The stack of decisions behind the depth-first search. One execution replays the
 stack from the bottom; at the mark `currBacktrack` it takes the next choice,
 drops the nodes above and carries on with first choices. `lastBacktrack`
 remembers the highest node that still has choices left.

 `Stack` is the value of a stack, with marks as positions and `NULL` as -1; the
 functions on it say what each method of the class does.
 */
module NodeStacks {
  import opened DecisionTree

  datatype Stack = Stack(nodes: seq<Choice>, last: int, curr: int, head: int)

  const FRESH := Stack([], -1, -1, -1)

  predicate HasMore(c: Choice) {
    c.idx + 1 < c.size
  }

  /** Both marks are on live nodes; `lastBacktrack` is on a node already visited
      in this execution and `currBacktrack` on one that is still ahead. */
  predicate StackOk(s: Stack) {
    && -1 <= s.head < |s.nodes|
    && -1 <= s.last <= s.head
    && (s.curr == -1 || s.head < s.curr < |s.nodes|)
    && (s.last != -1 ==> HasMore(s.nodes[s.last]))
    && (s.curr != -1 ==> HasMore(s.nodes[s.curr]))
    && forall k :: 0 <= k < |s.nodes| ==> s.nodes[k].idx < s.nodes[k].size
  }

  /** The replay assertion of `explore_next`: a replayed node has the size asked for. */
  predicate Agrees(s: Stack, numchoices: nat) {
    0 <= s.head + 1 < |s.nodes| ==> s.nodes[s.head + 1].size == numchoices
  }

  function Bump(c: Choice): Choice {
    c.(idx := c.idx + 1)
  }

  /** Replays a node, takes the next choice at the mark, or adds a node. */
  function Move(s: Stack, numchoices: nat): (r: Stack)
    requires StackOk(s) && Agrees(s, numchoices) && numchoices >= 1
    ensures StackOk(r) && r.head == s.head + 1 >= 0
    ensures r.nodes[r.head].size == numchoices
  {
    var h := s.head + 1;
    if h == |s.nodes| then Stack(s.nodes + [Choice(0, numchoices)], s.last, s.curr, h)
    else if h == s.curr then Stack(s.nodes[..h] + [Bump(s.nodes[h])], s.last, -1, h)
    else s.(head := h)
  }

  /** Remembers the current node if it still has choices left. */
  function MarkLast(s: Stack): (r: Stack)
    requires StackOk(s) && s.head >= 0
    ensures StackOk(r)
  {
    if HasMore(s.nodes[s.head]) then s.(last := s.head) else s
  }

  function Explore(s: Stack, numchoices: nat): (r: Stack)
    requires StackOk(s) && Agrees(s, numchoices) && numchoices >= 1
    ensures StackOk(r) && r.head == s.head + 1 >= 0
  {
    MarkLast(Move(s, numchoices))
  }

  /** The decision taken by `Explore`. */
  function Taken(s: Stack): nat
    requires 0 <= s.head < |s.nodes|
  {
    s.nodes[s.head].idx
  }

  function Reset(s: Stack): Stack {
    Stack(s.nodes, -1, s.last, -1)
  }

  class SearchNode {
    var readFromIdx: int
    const rfSize: int

    constructor (idx: int, size: int)
      ensures readFromIdx == idx && rfSize == size
    {
      readFromIdx, rfSize := idx, size;
    }

    predicate HasMoreChoices()
      reads this
    {
      readFromIdx + 1 < rfSize
    }

    method IncrementReadFrom()
      modifies this
      ensures readFromIdx == old(readFromIdx) + 1
    {
      readFromIdx := readFromIdx + 1;
    }
  }

  class NodeStack {
    var nodeList: seq<SearchNode>
    var lastBacktrack: SearchNode?
    var currBacktrack: SearchNode?
    var headIdx: int

    /** The value of this stack, and the objects it is made of. */
    ghost var value: Stack
    ghost var Repr: set<object>

    ghost predicate Marks(n: SearchNode?, k: int)
      reads this
    {
      if k == -1 then n == null else 0 <= k < |nodeList| && n == nodeList[k]
    }

    ghost predicate Holds(n: SearchNode, c: Choice)
      reads n
    {
      n.readFromIdx == c.idx && n.rfSize == c.size
    }

    ghost predicate Valid()
      reads this, Repr
      ensures Valid() ==> this in Repr
    {
      Linked() && StackOk(value)
    }

    /** The fields represent `value`, whatever stack that is. */
    ghost predicate Linked()
      reads this, Repr
      ensures Linked() ==> this in Repr
    {
      Built() && Marks(currBacktrack, value.curr)
    }

    /** The same but for the mark where the last execution is left. */
    ghost predicate Built()
      reads this, Repr
      ensures Built() ==> this in Repr
    {
      && this in Repr
      && (forall k :: 0 <= k < |nodeList| ==> nodeList[k] in Repr)
      && headIdx == value.head
      && |nodeList| == |value.nodes|
      && (forall k :: 0 <= k < |nodeList| ==> Holds(nodeList[k], value.nodes[k]))
      && (forall j, k :: 0 <= j < k < |nodeList| ==> nodeList[j] != nodeList[k])
      && Marks(lastBacktrack, value.last)
    }

    constructor ()
      ensures Valid() && value == FRESH && fresh(Repr)
    {
      nodeList, lastBacktrack, currBacktrack, headIdx := [], null, null, -1;
      value := FRESH;
      Repr := {this};
    }

    method GetNext() returns (node: SearchNode?)
      requires Valid()
      modifies this`headIdx
      ensures headIdx == if old(headIdx) + 1 < |nodeList| then old(headIdx) + 1 else old(headIdx)
      ensures if old(headIdx) + 1 < |nodeList| then node == nodeList[headIdx] else node == null
    {
      if nodeList == [] {
        return null;
      }
      var it := headIdx + 1;
      if it == |nodeList| {
        return null;
      }
      headIdx := headIdx + 1;
      return nodeList[it];
    }

    method CreateNode(numchoices: nat) returns (n: SearchNode)
      requires headIdx >= -1
      modifies this`nodeList, this`headIdx
      ensures fresh(n) && n.readFromIdx == 0 && n.rfSize == numchoices
      ensures nodeList == old(nodeList) + [n] && headIdx == old(headIdx) + 1
    {
      n := new SearchNode(0, numchoices);
      nodeList := nodeList + [n];
      headIdx := headIdx + 1;
    }

    method PopRestOfStack(numAhead: nat)
      requires 0 <= headIdx + numAhead <= |nodeList|
      modifies this`nodeList
      ensures nodeList == old(nodeList)[..headIdx + numAhead]
    {
      nodeList := nodeList[..headIdx + numAhead];
    }

    method Advance(numchoices: nat) returns (node: SearchNode)
      requires Valid() && numchoices >= 1
      requires Agrees(value, numchoices)
      modifies Repr
      ensures Valid() && fresh(Repr - old(Repr))
      ensures value == Move(old(value), numchoices) && node == nodeList[headIdx]
    {
      hide HasMore;
      ghost var before := value;
      var next := GetNext();
      if next == null {
        node := Extend(numchoices);
      } else {
        node := next;
        assert Holds(node, before.nodes[headIdx]) && node.rfSize == numchoices;
        if node == currBacktrack {
          value := value.(head := headIdx);
          Diverge(node, numchoices);
        } else {
          value := Move(before, numchoices);
        }
      }
    }

    /** A new node at its first choice. */
    method Extend(numchoices: nat) returns (node: SearchNode)
      requires Valid() && numchoices >= 1 && Agrees(value, numchoices) && headIdx + 1 == |nodeList|
      modifies this
      ensures Valid() && fresh(Repr - old(Repr))
      ensures value == Move(old(value), numchoices) && node == nodeList[headIdx]
    {
      hide HasMore;
      node := CreateNode(numchoices);
      value := Move(value, numchoices);
      Repr := Repr + {node};
    }

    /** The next choice of the node at the mark, to which the head has just moved. */
    method Diverge(node: SearchNode, ghost numchoices: nat)
      requires Built() && StackOk(value.(head := value.head - 1)) && 0 <= headIdx == value.head == value.curr
      requires node == nodeList[headIdx] && numchoices >= 1 && Agrees(value.(head := value.head - 1), numchoices)
      modifies Repr
      ensures Valid() && Repr == old(Repr) && node in Repr
      ensures value == Move(old(value).(head := old(value).head - 1), numchoices) && headIdx == old(headIdx)
              && node == nodeList[headIdx]
    {
      hide HasMore, Agrees;
      assert Holds(node, value.nodes[headIdx]);
      node.IncrementReadFrom();
      PopRestOfStack(1);
      currBacktrack := null;
      value := Move(value.(head := value.head - 1), numchoices);
    }

    /** Takes the next decision of this execution. */
    method ExploreNext(numchoices: nat) returns (choice: nat)
      requires Valid() && numchoices >= 1
      requires Agrees(value, numchoices)
      modifies Repr
      ensures Valid() && fresh(Repr - old(Repr))
      ensures value == Explore(old(value), numchoices)
      ensures choice == Taken(value) && choice < numchoices
    {
      var node := Advance(numchoices);
      assert Holds(node, value.nodes[headIdx]);
      if node.HasMoreChoices() {
        lastBacktrack := node;
      }
      value := MarkLast(value);
      choice := node.readFromIdx;
    }

    method ResetExecution()
      requires Valid()
      modifies this
      ensures Valid() && value == Reset(old(value)) && Repr == old(Repr)
    {
      currBacktrack := lastBacktrack;
      lastBacktrack := null;
      headIdx := -1;
      value := Reset(value);
    }

    predicate HasAnotherExecution()
      requires Valid()
      reads this, Repr
      ensures HasAnotherExecution() <==> value.last != -1
    {
      lastBacktrack != null
    }

    /** Empties the stack. The mark of the search becomes the mark to diverge at, although its
        node is gone; so without such a mark the stack is as good as new, and only then. */
    method FullReset()
      requires Valid()
      modifies this
      ensures Built() && value == FRESH && Repr == old(Repr) && currBacktrack == old(lastBacktrack)
      ensures nodeList == [] && (Linked() <==> currBacktrack == null)
              && (currBacktrack == null <==> old(value.last) == -1)
    {
      nodeList := [];
      currBacktrack := lastBacktrack;
      lastBacktrack := null;
      headIdx := -1;
      value := FRESH;
    }

    /** Adds a node read from a file. */
    method PushSaved(idx: nat, size: nat)
      requires Built()
      modifies this
      ensures Built() && fresh(Repr - old(Repr)) && currBacktrack == old(currBacktrack)
      ensures value == old(value).(nodes := old(value.nodes) + [Choice(idx, size)])
      ensures |nodeList| == |old(nodeList)| + 1 && (value.curr == -1 ==> (Linked() <==> currBacktrack == null))
    {
      var n := new SearchNode(idx, size);
      nodeList := nodeList + [n];
      value := value.(nodes := value.nodes + [Choice(idx, size)]);
      Repr := Repr + {n};
    }

    method SetMark(k: nat)
      requires Built() && k < |nodeList|
      modifies this
      ensures Linked() && Repr == old(Repr) && value == old(value).(curr := k)
    {
      currBacktrack := nodeList[k];
      value := value.(curr := k);
    }
  }
}
