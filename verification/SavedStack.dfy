/**
 The file a decision stack is saved to: the execution number in four bytes, the
 mark in two, then one byte each for the choice and the size of every node.
 Numbers are little-endian and cut to their width, as the casts of the program do.
 */
module SavedStacks {
  import opened DecisionTree
  import opened NodeStacks

  type byte = x: nat | x < 256

  function Low(n: nat): byte {
    n % 256
  }

  const NO_MARK: nat := 0xffff

  function NodeBytes(nodes: Path): seq<byte> {
    if nodes == [] then []
    else
      var c := nodes[|nodes| - 1];
      NodeBytes(nodes[..|nodes| - 1]) + [Low(c.idx), Low(c.size)]
  }

  function Header(execNum: nat, mark: int): (h: seq<byte>)
    requires mark >= -1
    ensures |h| == 6
  {
    var m := if mark == -1 then NO_MARK else mark % 0x1_0000;
    [Low(execNum), Low(execNum / 0x100), Low(execNum / 0x1_0000), Low(execNum / 0x100_0000), Low(m), Low(m / 0x100)]
  }

  function Encode(execNum: nat, s: Stack): seq<byte>
    requires s.curr >= -1
  {
    Header(execNum, s.curr) + NodeBytes(s.nodes)
  }

  /** The file is opened without truncation: a longer old file keeps its tail. */
  function Overwrite(file: seq<byte>, written: seq<byte>): seq<byte> {
    if |file| <= |written| then written else written + file[|written|..]
  }

  datatype Loaded = Unreadable | Loaded(execNum: nat, stack: Stack)

  function ParseNodes(file: seq<byte>, at: nat): Path
    requires at <= |file|
    decreases |file| - at
  {
    if at + 2 > |file| then []
    else [Choice(file[at], file[at + 1])] + ParseNodes(file, at + 2)
  }

  function Word(lo: nat, hi: nat): nat {
    lo + 0x100 * hi
  }

  function SavedNum(file: seq<byte>): nat
    requires |file| >= 6
  {
    Word(file[0], file[1]) + 0x1_0000 * Word(file[2], file[3])
  }

  function SavedMark(file: seq<byte>): nat
    requires |file| >= 6
  {
    Word(file[4], file[5])
  }

  function Decode(file: seq<byte>): Loaded {
    if |file| < 6 then Unreadable
    else
      var mark := SavedMark(file);
      var nodes := ParseNodes(file, 6);
      Loaded(SavedNum(file), Stack(nodes, -1, if mark < |nodes| then mark else -1, -1))
  }

  /** Writes the stack; `file` is what the file held before. */
  method SaveState(ns: NodeStack, execNum: nat, file: seq<byte>) returns (saved: seq<byte>)
    requires ns.Valid()
    ensures saved == Overwrite(file, Encode(execNum, ns.value))
  {
    var mark := -1;
    if ns.currBacktrack != null {
      var it := 0;
      while it < |ns.nodeList|
        invariant 0 <= it <= |ns.nodeList| && mark == -1
        invariant forall k :: 0 <= k < it ==> ns.nodeList[k] != ns.currBacktrack
      {
        if ns.nodeList[it] == ns.currBacktrack {
          mark := it;
          break;
        }
        it := it + 1;
      }
    }
    assert mark == ns.value.curr;
    var written := Header(execNum, mark);
    var it := 0;
    while it < |ns.nodeList|
      invariant 0 <= it <= |ns.nodeList|
      invariant written == Header(execNum, mark) + NodeBytes(ns.value.nodes[..it])
    {
      var n := ns.nodeList[it];
      assert ns.Holds(n, ns.value.nodes[it]);
      assert ns.value.nodes[..it + 1][..it] == ns.value.nodes[..it];
      written := written + [Low(n.readFromIdx), Low(n.rfSize)];
      it := it + 1;
    }
    assert ns.value.nodes[..it] == ns.value.nodes;
    saved := Overwrite(file, written);
  }

  lemma ParseEnd(file: seq<byte>, at: nat)
    requires at <= |file| < at + 2
    ensures ParseNodes(file, at) == []
  {
  }

  lemma ParseStep(file: seq<byte>, at: nat)
    requires at + 2 <= |file|
    ensures ParseNodes(file, at) == [Choice(file[at], file[at + 1])] + ParseNodes(file, at + 2)
  {
  }

  /** Reads a file into a stack. If the search has left a mark and the file has none, the stack
      goes on with a mark whose node is gone. */
  method LoadState(ns: NodeStack, file: seq<byte>) returns (execNum: int)
    requires ns.Valid()
    modifies ns.Repr
    ensures ns.Built() && fresh(ns.Repr - old(ns.Repr))
    ensures match Decode(file)
            case Unreadable => execNum == -1 && ns.value == FRESH
            case Loaded(num, stack) => execNum == num && ns.value == stack
    ensures ns.Linked() <==> old(ns.value.last) == -1 || ns.value.curr != -1
  {
    hide Word, NodeStack.Built, NodeStack.Linked, ParseNodes;
    ns.FullReset();
    if |file| < 6 {
      return -1;
    }
    execNum := SavedNum(file);
    var mark := SavedMark(file);
    var at := 6;
    while at + 2 <= |file|
      invariant 6 <= at <= |file|
      invariant ns.Built() && fresh(ns.Repr - old(ns.Repr)) && ns.currBacktrack == old(ns.lastBacktrack)
      invariant ns.value.last == -1 && ns.value.curr == -1 && ns.value.head == -1
      invariant |ns.nodeList| == |ns.value.nodes| && (ns.Linked() <==> ns.currBacktrack == null)
      invariant ns.value.nodes + ParseNodes(file, at) == ParseNodes(file, 6)
      decreases |file| - at
    {
      ParseStep(file, at);
      ghost var before, c, after := ns.value.nodes, Choice(file[at], file[at + 1]), ParseNodes(file, at + 2);
      assert (before + [c]) + after == before + ([c] + after);
      ns.PushSaved(file[at], file[at + 1]);
      at := at + 2;
    }
    ParseEnd(file, at);
    if mark < |ns.nodeList| {
      ns.SetMark(mark);
    }
  }

  // ----- the round trip -----

  /** The stacks between two executions, which are the ones that are saved. */
  predicate AtReset(s: Stack) {
    StackOk(s) && s.head == -1 && s.last == -1
  }

  /** The numbers in the stack fit the widths of the file. */
  predicate FitsWidths(s: Stack) {
    && ByteSized(s.nodes)
    && if s.curr == -1 then |s.nodes| <= NO_MARK else s.curr <= NO_MARK
  }

  lemma {:induction false} NodeBytesAt(nodes: Path, k: nat)
    requires k < |nodes|
    ensures |NodeBytes(nodes)| == 2 * |nodes|
    ensures NodeBytes(nodes)[2 * k] == Low(nodes[k].idx)
    ensures NodeBytes(nodes)[2 * k + 1] == Low(nodes[k].size)
  {
    var front := nodes[..|nodes| - 1];
    if front != [] {
      NodeBytesAt(front, if k < |front| then k else 0);
    }
  }

  lemma {:induction false} ParsedAt(file: seq<byte>, at: nat, k: nat)
    requires at <= |file|
    ensures |ParseNodes(file, at)| == (|file| - at) / 2
    ensures at + 2 * k + 1 < |file| ==>
              k < |ParseNodes(file, at)|
              && ParseNodes(file, at)[k] == Choice(file[at + 2 * k], file[at + 2 * k + 1])
    decreases |file| - at
  {
    if at + 2 <= |file| {
      ParsedAt(file, at + 2, if k == 0 then 0 else k - 1);
    }
  }

  lemma WordRoundTrip(m: nat)
    requires m < 0x1_0000
    ensures Word(Low(m), Low(m / 0x100)) == m
  {
  }

  lemma SplitWords(n: nat)
    requires n < 0x1_0000_0000
    ensures Word(Low(n), Low(n / 0x100)) == n % 0x1_0000
    ensures Word(Low(n / 0x1_0000), Low(n / 0x100_0000)) == n / 0x1_0000
  {
    var lo, hi := n % 0x1_0000, n / 0x1_0000;
    assert n == lo + 0x1_0000 * hi;
    WordRoundTrip(lo);
    WordRoundTrip(hi);
    assert n / 0x100 == lo / 0x100 + 0x100 * hi;
    assert n / 0x100_0000 == hi / 0x100;
  }

  lemma HeaderRoundTrip(execNum: nat, s: Stack, file: seq<byte>)
    requires s.curr >= -1 && execNum < 0x1_0000_0000
    ensures var f := Overwrite(file, Encode(execNum, s));
            && |f| >= 6
            && SavedNum(f) == execNum
            && SavedMark(f) == if s.curr == -1 then NO_MARK else s.curr % 0x1_0000
  {
    var f := Overwrite(file, Encode(execNum, s));
    assert f[..6] == Header(execNum, s.curr);
    SplitWords(execNum);
    WordRoundTrip(if s.curr == -1 then NO_MARK else s.curr % 0x1_0000);
  }

  lemma ParsedNodes(execNum: nat, s: Stack, file: seq<byte>)
    requires AtReset(s)
    ensures var f := Overwrite(file, Encode(execNum, s));
            && |Encode(execNum, s)| == 6 + 2 * |s.nodes| <= |f|
            && |ParseNodes(f, 6)| == (|f| - 6) / 2
            && forall k :: 0 <= k < |s.nodes| ==>
                 ParseNodes(f, 6)[k] == Choice(Low(s.nodes[k].idx), Low(s.nodes[k].size))
  {
    var f := Overwrite(file, Encode(execNum, s));
    if s.nodes != [] {
      NodeBytesAt(s.nodes, 0);
    }
    ParsedAt(f, 6, 0);
    forall k | 0 <= k < |s.nodes|
      ensures ParseNodes(f, 6)[k] == Choice(Low(s.nodes[k].idx), Low(s.nodes[k].size))
    {
      NodeBytesAt(s.nodes, k);
      ParsedAt(f, 6, k);
      assert f[6 + 2 * k] == NodeBytes(s.nodes)[2 * k];
      assert f[6 + 2 * k + 1] == NodeBytes(s.nodes)[2 * k + 1];
    }
  }

  predicate ByteSized(nodes: Path) {
    forall k :: 0 <= k < |nodes| ==> nodes[k].idx < 256 && nodes[k].size < 256
  }

  /** A parsed prefix is the saved one exactly when each byte holds its number. */
  lemma SameNodes(parsed: Path, nodes: Path)
    requires |parsed| >= |nodes|
    requires forall k :: 0 <= k < |nodes| ==> parsed[k] == Choice(Low(nodes[k].idx), Low(nodes[k].size))
    ensures parsed == nodes <==> |parsed| == |nodes| && ByteSized(nodes)
  {
    if parsed == nodes {
      forall k | 0 <= k < |nodes| ensures nodes[k].idx < 256 && nodes[k].size < 256 {
        assert parsed[k] == nodes[k];
      }
    }
  }

  lemma NodesRestored(execNum: nat, s: Stack, file: seq<byte>)
    requires AtReset(s)
    ensures |Overwrite(file, Encode(execNum, s))| >= 6
    ensures ParseNodes(Overwrite(file, Encode(execNum, s)), 6) == s.nodes
       <==> |file| < |Encode(execNum, s)| + 2 && ByteSized(s.nodes)
  {
    assert s.curr >= -1;
    hide AtReset, StackOk, ParseNodes, Header, NodeBytes, ByteSized;
    ParsedNodes(execNum, s, file);
    SameNodes(ParseNodes(Overwrite(file, Encode(execNum, s)), 6), s.nodes);
  }

  /** The mark survives when it fits its two bytes, and `NO_MARK` stays no mark. */
  lemma MarkRestored(curr: int, len: nat)
    requires -1 <= curr < len
    ensures var saved := if curr == -1 then NO_MARK else curr % 0x1_0000;
            (if saved < len then saved else -1) == curr <==> if curr == -1 then len <= NO_MARK else curr <= NO_MARK
  {
  }

  /** Loading what was saved restores the stack exactly when every number fits its
      width and the old file was not longer by a whole node. */
  lemma RoundTrip(execNum: nat, s: Stack, file: seq<byte>)
    requires AtReset(s) && execNum < 0x1_0000_0000
    ensures Decode(Overwrite(file, Encode(execNum, s))) == Loaded(execNum, s)
       <==> FitsWidths(s) && |file| < |Encode(execNum, s)| + 2
  {
    NodesRestored(execNum, s, file);
    HeaderRoundTrip(execNum, s, file);
    MarkRestored(s.curr, |s.nodes|);
    DecodeIs(Overwrite(file, Encode(execNum, s)), execNum, s);
  }

  lemma DecodeIs(file: seq<byte>, execNum: nat, s: Stack)
    requires |file| >= 6 && s.last == -1 && s.head == -1
    ensures Decode(file) == Loaded(execNum, s)
       <==> && SavedNum(file) == execNum
            && ParseNodes(file, 6) == s.nodes
            && (if SavedMark(file) < |s.nodes| then SavedMark(file) else -1) == s.curr
  {
  }
}

/** A search stopped after some execution and continued from the saved file. */
module Resumption {
  import opened DecisionTree
  import opened NodeStacks
  import opened Exploration
  import opened SavedStacks

  /** The resumed search visits exactly the leaves that were left, in order. */
  method SaveAndResume<R>(ns: NodeStack, t: Tree<R>, ghost explored: nat, execNum: nat, file: seq<byte>)
    returns (visited: seq<R>)
    requires ns.Valid() && Proper(t) && Between(ns.value, t, explored)
    requires execNum < 0x1_0000_0000
    requires FitsWidths(ns.value) && |file| < |Encode(execNum, ns.value)| + 2
    ensures explored < |Outcomes(t)|
    ensures visited == Results(Outcomes(t)[explored..])
  {
    var saved := SaveState(ns, execNum, file);
    RoundTrip(execNum, ns.value, file);
    var resumed := new NodeStack();
    var num := LoadState(resumed, saved);
    visited := ExploreAll(resumed, t, explored);
  }
}
