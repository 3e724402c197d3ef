/** The spanning tree that `LoopAnalysis::getDepthFirstSpanningTree` (ir/function.cpp)
    builds with an explicit stack.  Blocks are marked when they are pushed, so the
    tree is not a depth-first tree; its preorder intervals still decide ancestry. */
module SpanningTree {
  import opened Cfg

  // ----- numbered trees ------------------------------------------------------

  /** `parent[i]` is the number of the tree parent of node `i`; node 0 is the root. */
  ghost predicate IsTree(parent: seq<nat>) {
    forall i {:trigger parent[i]} :: 0 < i < |parent| ==> parent[i] < i
  }

  /** `a` is `b` or a tree ancestor of `b`. */
  ghost predicate Ancestor(parent: seq<nat>, a: nat, b: nat)
    requires IsTree(parent) && b < |parent|
    decreases b
  {
    a == b || (b > 0 && Ancestor(parent, a, parent[b]))
  }

  lemma {:induction false} AncestorLe(parent: seq<nat>, a: nat, b: nat)
    requires IsTree(parent) && b < |parent| && Ancestor(parent, a, b)
    ensures a <= b
    decreases b
  {
    if a != b {
      AncestorLe(parent, a, parent[b]);
    }
  }

  lemma {:induction false} AncestorTrans(parent: seq<nat>, a: nat, b: nat, c: nat)
    requires IsTree(parent) && b < |parent| && c < |parent|
    requires Ancestor(parent, a, b) && Ancestor(parent, b, c)
    ensures Ancestor(parent, a, c)
    decreases c
  {
    if b != c {
      AncestorTrans(parent, a, b, parent[c]);
    }
  }

  /** The ancestors of one node are ordered by their numbers. */
  lemma {:induction false} AncestorLinear(parent: seq<nat>, a: nat, b: nat, c: nat)
    requires IsTree(parent) && b < |parent| && c < |parent| && a <= b
    requires Ancestor(parent, a, c) && Ancestor(parent, b, c)
    ensures Ancestor(parent, a, b)
    decreases c
  {
    if b != c {
      AncestorLe(parent, b, parent[c]);
      AncestorLinear(parent, a, b, parent[c]);
    }
  }

  lemma {:induction false} AncestorGrown(parent: seq<nat>, p: nat, a: nat, b: nat)
    requires IsTree(parent) && p < |parent| && b < |parent|
    ensures IsTree(parent + [p])
    ensures Ancestor(parent + [p], a, b) <==> Ancestor(parent, a, b)
    decreases b
  {
    if a != b && b > 0 {
      AncestorGrown(parent, p, a, parent[b]);
    }
  }

  // ----- what the traversal promises -----------------------------------------

  /** `node` numbers distinct blocks from the entry, each reached over a tree edge. */
  ghost predicate Numbering(g: Graph, node: seq<nat>, number: map<nat, nat>, parent: seq<nat>) {
    && |node| == |parent| && IsTree(parent)
    && (|node| > 0 ==> node[0] == 0)
    && (forall i {:trigger node[i]} :: 0 <= i < |node| ==> node[i] < |g| && node[i] in number && number[node[i]] == i)
    && (forall b {:trigger number[b]} :: b in number ==> number[b] < |node| && node[number[b]] == b)
    && (forall i {:trigger node[i]} :: 0 < i < |node| ==> Edge(g, node[parent[i]], node[i]))
  }

  /** The interval test `a <= b <= last[a]` is tree ancestry. */
  ghost predicate Intervals(last: seq<int>, parent: seq<nat>)
    requires IsTree(parent)
  {
    && |last| == |parent|
    && forall a: nat, b: nat :: a < |parent| && b < |parent| ==> (Ancestor(parent, a, b) <==> a <= b <= last[a])
  }

  ghost predicate SpanningTreeOf(g: Graph, node: seq<nat>, number: map<nat, nat>, last: seq<int>, parent: seq<nat>) {
    && Valid(g) && |node| > 0
    && Numbering(g, node, number, parent) && Intervals(last, parent)
    && (forall a: nat, b: nat :: a in number && Edge(g, a, b) ==> b in number)
  }

  /** A tree ancestor reaches its descendants in the graph. */
  lemma {:induction false} AncestorReaches(g: Graph, node: seq<nat>, number: map<nat, nat>, parent: seq<nat>, a: nat, b: nat)
    requires Numbering(g, node, number, parent) && b < |node| && Ancestor(parent, a, b)
    ensures a < |node| && Reachable(g, node[a], node[b])
    decreases b
  {
    if a == b {
      ReachableRefl(g, node[a]);
    } else {
      AncestorReaches(g, node, number, parent, a, parent[b]);
      ReachableStep(g, node[a], node[parent[b]], node[b]);
    }
  }

  /** The tree path from the entry: a graph path made of ancestors only. */
  lemma {:induction false} TreePath(g: Graph, node: seq<nat>, number: map<nat, nat>, parent: seq<nat>, b: nat) returns (p: seq<nat>)
    requires Numbering(g, node, number, parent) && b < |node|
    ensures PathFromTo(g, p, 0, node[b])
    ensures forall x :: x in p ==> x in number && Ancestor(parent, number[x], b)
    decreases b
  {
    if b == 0 {
      p := [node[0]];
    } else {
      var q := TreePath(g, node, number, parent, parent[b]);
      ExtendPath(g, q, 0, node[parent[b]], node[b]);
      p := q + [node[b]];
      forall x | x in p
        ensures x in number && Ancestor(parent, number[x], b)
      {
        assert x in q || x == node[b];
      }
    }
  }

  /** A dominator of a numbered block is numbered and is a tree ancestor. */
  lemma DominatorIsAncestor(g: Graph, node: seq<nat>, number: map<nat, nat>, parent: seq<nat>, d: nat, b: nat)
    requires Numbering(g, node, number, parent) && b < |node| && Dominates(g, d, node[b])
    ensures d in number && Ancestor(parent, number[d], b)
  {
    var p := TreePath(g, node, number, parent, b);
  }

  /** Exactly the blocks reachable from the entry are numbered. */
  lemma NumberedIffReachable(g: Graph, node: seq<nat>, number: map<nat, nat>, last: seq<int>, parent: seq<nat>, b: nat)
    requires SpanningTreeOf(g, node, number, last, parent)
    ensures b in number <==> Reachable(g, 0, b)
  {
    if b in number {
      assert node[number[b]] == b;
      var p := TreePath(g, node, number, parent, number[b]);
    }
    if Reachable(g, 0, b) {
      var p :| PathFromTo(g, p, 0, b);
      PathNumbered(g, node, number, last, parent, p, |p| - 1);
    }
  }

  /** The interval of a block holds all blocks that it dominates. */
  ghost predicate DominatedInside(g: Graph, number: map<nat, nat>, last: seq<int>) {
    forall a: nat, b: nat :: b in number && Dominates(g, a, b) ==>
      a in number && number[a] < |last| && number[a] <= number[b] <= last[number[a]]
  }

  lemma TreePromises(g: Graph, node: seq<nat>, number: map<nat, nat>, last: seq<int>, parent: seq<nat>)
    requires SpanningTreeOf(g, node, number, last, parent)
    ensures forall b: nat :: b in number <==> Reachable(g, 0, b)
    ensures DominatedInside(g, number, last)
  {
    forall b: nat
      ensures b in number <==> Reachable(g, 0, b)
    {
      NumberedIffReachable(g, node, number, last, parent, b);
    }
    forall a: nat, b: nat | b in number && Dominates(g, a, b)
      ensures a in number && number[a] < |last| && number[a] <= number[b] <= last[number[a]]
    {
      assert node[number[b]] == b;
      DominatorIsAncestor(g, node, number, parent, a, number[b]);
    }
  }

  lemma {:induction false} PathNumbered(g: Graph, node: seq<nat>, number: map<nat, nat>, last: seq<int>, parent: seq<nat>, p: seq<nat>, i: nat)
    requires SpanningTreeOf(g, node, number, last, parent)
    requires IsPath(g, p) && p[0] in number && i < |p|
    ensures p[i] in number
  {
    if i > 0 {
      PathNumbered(g, node, number, last, parent, p, i - 1);
      var j := i - 1;
      assert Edge(g, p[j], p[j + 1]);
    }
  }

  // ----- the traversal -------------------------------------------------------

  /** A stack entry: a block and whether it has been numbered already. */
  datatype Entry = Entry(bb: nat, done: bool)

  /** Open nodes are ancestors of everything numbered since; closed nodes have their
      final interval, which contains no open node. */
  ghost predicate IntervalsSoFar(open: seq<nat>, last: seq<int>, parent: seq<nat>)
    requires IsTree(parent)
  {
    && |last| == |parent|
    && (forall a: nat, b: nat :: a in open && a <= b < |parent| ==> Ancestor(parent, a, b))
    && (forall a: nat, b: nat :: a < |parent| && b < |parent| && a !in open ==> (Ancestor(parent, a, b) <==> a <= b <= last[a]))
    && (forall a: nat, b: nat :: a < |parent| && a !in open && b in open ==> b < a || b > last[a])
    && (forall a: nat :: a < |parent| && a !in open ==> last[a] < |parent|)
  }

  /** Numbering a new node below the topmost open node keeps the intervals. */
  lemma NumberKeepsIntervals(open: seq<nat>, last: seq<int>, parent: seq<nat>, p: nat)
    requires IsTree(parent) && IntervalsSoFar(open, last, parent)
    requires p in open && p < |parent| && forall a :: a in open ==> a <= p
    ensures IsTree(parent + [p]) && IntervalsSoFar(open + [|parent|], last + [-1], parent + [p])
  {
    var c := |parent|;
    var parent', last', open' := parent + [p], last + [-1], open + [c];
    assert forall a :: a in open' <==> a in open || a == c;
    forall a: nat, b: nat | a < c && b < c
      ensures Ancestor(parent', a, b) <==> Ancestor(parent, a, b)
    {
      AncestorGrown(parent, p, a, b);
    }
    forall a: nat | a < c
      ensures Ancestor(parent', a, c) <==> a in open
    {
      assert Ancestor(parent', a, c) <==> Ancestor(parent', a, p);
    }
    forall a: nat, b: nat | a in open' && a <= b < |parent'|
      ensures Ancestor(parent', a, b)
    {
      if a == c {
        assert b == c;
      }
    }
  }

  /** Closing the topmost open node fixes its interval. */
  lemma CloseKeepsIntervals(open: seq<nat>, last: seq<int>, parent: seq<nat>, a: nat)
    requires IsTree(parent) && IntervalsSoFar(open + [a], last, parent)
    requires a < |parent| && forall b :: b in open ==> b < a
    ensures IntervalsSoFar(open, last[a := |parent| - 1], parent)
  {
    assert forall b :: b in open + [a] <==> b in open || b == a;
    forall b: nat | b < |parent|
      ensures Ancestor(parent, a, b) <==> a <= b
    {
      if Ancestor(parent, a, b) {
        AncestorLe(parent, a, b);
      }
    }
  }

  /** The stack holds numbered ("done") entries, which form the tree path to the current
      block, and entries that wait.  `open` lists the numbers of the done entries from
      the bottom up.  Every entry but the first is a target of the done entry nearest
      below it. */
  ghost predicate Stack(g: Graph, work: seq<Entry>, open: seq<nat>, node: seq<nat>, number: map<nat, nat>)
    decreases |work|
  {
    if work == [] then open == []
    else
      var e, rest := work[|work| - 1], work[..|work| - 1];
      && e.bb < |g| && (e.done <==> e.bb in number)
      && (forall k :: 0 <= k < |rest| ==> rest[k].bb != e.bb)
      && if e.done then
           && open != [] && number[e.bb] == open[|open| - 1] < |node|
           && AllBelow(open[..|open| - 1], open[|open| - 1])
           && (rest != [] ==> TargetOfTop(g, open[..|open| - 1], node, e.bb))
           && Stack(g, rest, open[..|open| - 1], node, number)
         else
           && (rest != [] ==> TargetOfTop(g, open, node, e.bb))
           && Stack(g, rest, open, node, number)
  }

  ghost predicate AllBelow(open: seq<nat>, c: int) {
    forall a :: a in open ==> a < c
  }

  ghost predicate TargetOfTop(g: Graph, open: seq<nat>, node: seq<nat>, bb: nat) {
    open != [] && open[|open| - 1] < |node| && Edge(g, node[open[|open| - 1]], bb)
  }

  /** Numbering a block that is not on the stack does not disturb it. */
  lemma {:induction false} StackFrame(g: Graph, work: seq<Entry>, open: seq<nat>, node: seq<nat>, number: map<nat, nat>, bb: nat)
    requires Stack(g, work, open, node, number)
    requires forall k :: 0 <= k < |work| ==> work[k].bb != bb
    ensures Stack(g, work, open, node + [bb], number[bb := |node|])
    decreases |work|
  {
    if work != [] {
      var e, rest := work[|work| - 1], work[..|work| - 1];
      StackFrame(g, rest, if e.done then open[..|open| - 1] else open, node, number, bb);
    }
  }

  /** The open numbers increase, so the topmost is the greatest. */
  lemma {:induction false} TopmostOpen(g: Graph, work: seq<Entry>, open: seq<nat>, node: seq<nat>, number: map<nat, nat>)
    requires Stack(g, work, open, node, number)
    ensures open != [] ==> open[|open| - 1] < |node|
    ensures forall a :: a in open ==> a <= open[|open| - 1]
    decreases |work|
  {
    if work != [] {
      var e, rest := work[|work| - 1], work[..|work| - 1];
      if e.done {
        assert open == open[..|open| - 1] + [open[|open| - 1]];
      } else {
        TopmostOpen(g, rest, open, node, number);
      }
    }
  }

  lemma TopWaiting(g: Graph, work: seq<Entry>, open: seq<nat>, node: seq<nat>, number: map<nat, nat>)
    requires Stack(g, work, open, node, number) && work != [] && !work[|work| - 1].done
    ensures var top := |work| - 1; var bb := work[top].bb;
      && bb < |g| && bb !in number && (forall k :: 0 <= k < top ==> work[k].bb != bb)
      && Stack(g, work[..top], open, node, number) && (forall k :: 0 <= k < |work[..top]| ==> work[..top][k].bb != bb)
      && (top > 0 ==> TargetOfTop(g, open, node, bb))
  {
    var rest := work[..|work| - 1];
    assert forall k :: 0 <= k < |rest| ==> rest[k] == work[k];
  }

  /** Numbering the top entry. */
  lemma NumberKeepsStack(g: Graph, work: seq<Entry>, open: seq<nat>, node: seq<nat>, number: map<nat, nat>)
    requires Stack(g, work, open, node, number) && work != [] && !work[|work| - 1].done
    ensures Stack(g, work[|work| - 1 := Entry(work[|work| - 1].bb, true)], open + [|node|],
                  node + [work[|work| - 1].bb], number[work[|work| - 1].bb := |node|])
  {
    hide *;
    var top := |work| - 1;
    var bb := work[top].bb;
    var rest := work[..top];
    TopWaiting(g, work, open, node, number);
    TopmostOpen(g, work, open, node, number);
    BelowAll(open, |node|);
    if top > 0 {
      TargetFrame(g, open, node, bb);
    }
    StackFrame(g, rest, open, node, number, bb);
    StackDone(g, rest, Entry(bb, true), open, node + [bb], number[bb := |node|], |node|);
    UpdateLast(work, Entry(bb, true));
  }

  lemma UpdateLast(work: seq<Entry>, e: Entry)
    requires work != []
    ensures work[|work| - 1 := e] == work[..|work| - 1] + [e]
  {
  }

  lemma BelowAll(open: seq<nat>, n: nat)
    requires (open != [] ==> open[|open| - 1] < n) && forall a :: a in open ==> a <= open[|open| - 1]
    ensures AllBelow(open, n)
  {
  }

  lemma TargetFrame(g: Graph, open: seq<nat>, node: seq<nat>, bb: nat)
    requires TargetOfTop(g, open, node, bb)
    ensures TargetOfTop(g, open, node + [bb], bb)
  {
  }

  lemma StackDone(g: Graph, rest: seq<Entry>, e: Entry, open: seq<nat>, node: seq<nat>, number: map<nat, nat>, c: nat)
    requires Stack(g, rest, open, node, number) && e.done && e.bb in number && e.bb < |g|
    requires (forall k :: 0 <= k < |rest| ==> rest[k].bb != e.bb) && number[e.bb] == c < |node| && AllBelow(open, c)
    requires rest != [] ==> TargetOfTop(g, open, node, e.bb)
    ensures Stack(g, rest + [e], open + [c], node, number)
  {
    assert (rest + [e])[..|rest|] == rest && (open + [c])[..|open|] == open;
  }

  /** Pushing a target of the topmost numbered block. */
  lemma PushKeepsStack(g: Graph, work: seq<Entry>, open: seq<nat>, node: seq<nat>, number: map<nat, nat>, t: nat)
    requires Stack(g, work, open, node, number) && work != []
    requires t < |g| && TargetOfTop(g, open, node, t)
    requires t !in number && forall k :: 0 <= k < |work| ==> work[k].bb != t
    ensures Stack(g, work + [Entry(t, false)], open, node, number)
  {
    assert (work + [Entry(t, false)])[..|work|] == work;
  }

  /** Every marked block is numbered or waits on the stack, and every target of a
      numbered block is marked, but for the `pending` targets of block `cur`. */
  ghost predicate MarksOk(g: Graph, work: seq<Entry>, number: map<nat, nat>, visited: set<nat>, cur: nat, pending: seq<nat>) {
    && 0 !in visited && (work != [] ==> work[0].bb == 0)
    && (forall k :: 0 < k < |work| ==> work[k].bb in visited)
    && (forall b :: b in visited ==> b in number || Waits(work, b))
    && (forall b :: b in number ==> b < |g| && (b == 0 || b in visited))
    && (forall a: nat, b: nat :: a in number && Edge(g, a, b) ==> b in visited || (a == cur && b in pending))
  }

  ghost predicate Waits(work: seq<Entry>, b: nat) {
    exists k :: 0 <= k < |work| && work[k].bb == b
  }

  lemma NumberKeepsMarks(g: Graph, work: seq<Entry>, number: map<nat, nat>, visited: set<nat>, cur: nat, c: nat)
    requires work != [] && MarksOk(g, work, number, visited, cur, []) && work[|work| - 1].bb < |g|
    ensures var top := |work| - 1; var bb := work[top].bb;
      MarksOk(g, work[top := Entry(bb, true)], number[bb := c], visited, bb, g[bb])
  {
    var top := |work| - 1;
    var bb := work[top].bb;
    var work', number' := work[top := Entry(bb, true)], number[bb := c];
    assert forall k :: 0 <= k < |work| ==> work'[k].bb == work[k].bb;
    forall b | b in visited
      ensures b in number' || Waits(work', b)
    {
      if b !in number {
        var k :| 0 <= k < |work| && work[k].bb == b;
        assert work'[k].bb == b;
      }
    }
  }

  lemma PushKeepsMarks(g: Graph, work: seq<Entry>, number: map<nat, nat>, visited: set<nat>, cur: nat, pending: seq<nat>)
    requires MarksOk(g, work, number, visited, cur, pending) && work != [] && pending != [] && pending[0] != 0
    ensures var t := pending[0];
      if t in visited then MarksOk(g, work, number, visited, cur, pending[1..])
      else MarksOk(g, work + [Entry(t, false)], number, visited + {t}, cur, pending[1..])
  {
    var t := pending[0];
    var work' := if t in visited then work else work + [Entry(t, false)];
    assert forall b :: b in pending ==> b == t || b in pending[1..];
    forall b | b in visited + {t}
      ensures b in number || Waits(work', b)
    {
      if b in visited && b !in number {
        var k :| 0 <= k < |work| && work[k].bb == b;
        assert work'[k].bb == b;
      } else if b !in visited {
        assert work'[|work|].bb == b;
      }
    }
  }

  lemma CloseKeepsMarks(g: Graph, work: seq<Entry>, number: map<nat, nat>, visited: set<nat>, cur: nat)
    requires work != [] && MarksOk(g, work, number, visited, cur, []) && work[|work| - 1].bb in number
    ensures MarksOk(g, work[..|work| - 1], number, visited, cur, [])
  {
    var work' := work[..|work| - 1];
    forall b | b in visited
      ensures b in number || Waits(work', b)
    {
      if b !in number {
        assert Waits(work, b);
        var k :| 0 <= k < |work| && work[k].bb == b;
        assert work'[k].bb == b;
      }
    }
  }

  /** The state between two steps of the traversal. */
  ghost predicate Traversal(g: Graph, node: seq<nat>, number: map<nat, nat>, last: seq<int>, parent: seq<nat>,
                            work: seq<Entry>, open: seq<nat>, visited: set<nat>, cur: nat, pending: seq<nat>) {
    && Numbering(g, node, number, parent) && IntervalsSoFar(open, last, parent)
    && Stack(g, work, open, node, number)
    && MarksOk(g, work, number, visited, cur, pending)
    && (node == [] <==> work == [Entry(0, false)])
  }

  /** The new node hangs below the topmost open one. */
  ghost function ParentOf(open: seq<nat>): nat {
    if open == [] then 0 else open[|open| - 1]
  }

  lemma NumberKeepsTree(g: Graph, node: seq<nat>, number: map<nat, nat>, last: seq<int>, parent: seq<nat>, open: seq<nat>, bb: nat)
    requires Numbering(g, node, number, parent) && IntervalsSoFar(open, last, parent)
    requires bb < |g| && bb !in number
    requires open != [] ==> open[|open| - 1] < |node|
    requires forall a :: a in open ==> a <= open[|open| - 1]
    requires if node == [] then bb == 0 else TargetOfTop(g, open, node, bb)
    ensures Numbering(g, node + [bb], number[bb := |node|], parent + [ParentOf(open)])
    ensures IntervalsSoFar(open + [|node|], last + [-1], parent + [ParentOf(open)])
  {
    if node == [] {
      assert parent + [ParentOf(open)] == [0] && last + [-1] == [-1] && open + [|node|] == [0];
    } else {
      NumberKeepsIntervals(open, last, parent, open[|open| - 1]);
    }
  }

  lemma NumberStep(g: Graph, node: seq<nat>, number: map<nat, nat>, last: seq<int>, parent: seq<nat>,
                   work: seq<Entry>, open: seq<nat>, visited: set<nat>, cur: nat)
    requires Traversal(g, node, number, last, parent, work, open, visited, cur, [])
    requires work != [] && !work[|work| - 1].done
    ensures work[|work| - 1].bb < |g| && work[|work| - 1].bb !in number && |last| == |node| == |parent|
    ensures var top := |work| - 1; var bb := work[top].bb;
      Traversal(g, node + [bb], number[bb := |node|], last + [-1], parent + [ParentOf(open)],
                work[top := Entry(bb, true)], open + [|node|], visited, bb, g[bb])
  {
    var top := |work| - 1;
    NumberKeepsMarks(g, work, number, visited, cur, |node|);
    NumberKeepsStack(g, work, open, node, number);
    TopmostOpen(g, work, open, node, number);
    assert top == 0 ==> work == [Entry(0, false)];
    NumberKeepsTree(g, node, number, last, parent, open, work[top].bb);
  }

  lemma PushStep(g: Graph, node: seq<nat>, number: map<nat, nat>, last: seq<int>, parent: seq<nat>,
                 work: seq<Entry>, open: seq<nat>, visited: set<nat>, cur: nat, pending: seq<nat>)
    requires Valid(g) && !Edge(g, cur, 0)
    requires Traversal(g, node, number, last, parent, work, open, visited, cur, pending)
    requires work != [] && open != [] && node != [] && pending != [] && cur < |g| && pending[0] in g[cur]
    requires open[|open| - 1] < |node| && node[open[|open| - 1]] == cur
    ensures var t := pending[0];
      if t in visited then Traversal(g, node, number, last, parent, work, open, visited, cur, pending[1..])
      else Traversal(g, node, number, last, parent, work + [Entry(t, false)], open, visited + {t}, cur, pending[1..])
  {
    var t := pending[0];
    PushKeepsMarks(g, work, number, visited, cur, pending);
    if t !in visited {
      PushKeepsStack(g, work, open, node, number, t);
    }
  }

  lemma CloseStep(g: Graph, node: seq<nat>, number: map<nat, nat>, last: seq<int>, parent: seq<nat>,
                  work: seq<Entry>, open: seq<nat>, visited: set<nat>, cur: nat)
    requires Traversal(g, node, number, last, parent, work, open, visited, cur, [])
    requires work != [] && work[|work| - 1].done
    ensures work[|work| - 1].bb in number && open != [] && number[work[|work| - 1].bb] == open[|open| - 1] < |last| == |node|
    ensures var top := |work| - 1;
      Traversal(g, node, number, last[open[|open| - 1] := |node| - 1], parent, work[..top], open[..|open| - 1], visited, cur, [])
  {
    CloseKeepsMarks(g, work, number, visited, cur);
    var a := open[|open| - 1];
    assert open == open[..|open| - 1] + [a];
    CloseKeepsIntervals(open[..|open| - 1], last, parent, a);
    var rest := work[..|work| - 1];
    if rest != [] {
      assert rest[0] == work[0];
      StackBottomDone(g, rest, open[..|open| - 1], node, number);
    }
  }

  /** Once something is above it, the entry's own stack entry is done. */
  lemma {:induction false} StackBottomDone(g: Graph, work: seq<Entry>, open: seq<nat>, node: seq<nat>, number: map<nat, nat>)
    requires Stack(g, work, open, node, number) && work != [] && open != []
    ensures work[0].done
    decreases |work|
  {
    var e, rest := work[|work| - 1], work[..|work| - 1];
    if rest != [] {
      StackBottomDone(g, rest, if e.done then open[..|open| - 1] else open, node, number);
      assert rest[0] == work[0];
    }
  }

  lemma TraversalEnd(g: Graph, node: seq<nat>, number: map<nat, nat>, last: seq<int>, parent: seq<nat>,
                     open: seq<nat>, visited: set<nat>, cur: nat)
    requires Valid(g) && Traversal(g, node, number, last, parent, [], open, visited, cur, [])
    ensures SpanningTreeOf(g, node, number, last, parent)
  {
  }

  lemma TraversalStart(g: Graph)
    requires Valid(g)
    ensures Traversal(g, [], map[], [], [], [Entry(0, false)], [], {}, 0, [])
  {
  }

  /** `LoopAnalysis::getDepthFirstSpanningTree`.  The entry is not marked as visited
      at the start, so the traversal relies on nothing jumping to it. */
  method BuildSpanningTree(g: Graph)
    returns (node: seq<nat>, number: map<nat, nat>, last: seq<int>, ghost parent: seq<nat>)
    requires Valid(g) && forall b: nat :: !Edge(g, b, 0)
    ensures SpanningTreeOf(g, node, number, last, parent)
    ensures forall b: nat :: b in number <==> Reachable(g, 0, b)
    ensures DominatedInside(g, number, last)
  {
    node, number, last, parent := [], map[], [], [];
    var work, visited := [Entry(0, false)], {};
    ghost var open: seq<nat>, cur := [], 0;
    hide Traversal, Stack, IntervalsSoFar, Numbering, MarksOk;
    TraversalStart(g);
    while work != []
      invariant Traversal(g, node, number, last, parent, work, open, visited, cur, [])
      decreases Blocks(g) - number.Keys, |work|
    {
      var top := |work| - 1;
      var bb := work[top].bb;
      if work[top].done {
        CloseStep(g, node, number, last, parent, work, open, visited, cur);
        last := last[number[bb] := |node| - 1];
        work, open := work[..top], open[..|open| - 1];
      } else {
        NumberStep(g, node, number, last, parent, work, open, visited, cur);
        parent, last, cur := parent + [ParentOf(open)], last + [-1], bb;
        open, work := open + [|node|], work[top := Entry(bb, true)];
        NumberShrinks(g, number, bb, |node|);
        number, node := number[bb := |node|], node + [bb];
        var i := 0;
        assert g[bb][0..] == g[bb];
        while i < |g[bb]|
          invariant 0 <= i <= |g[bb]| && work != [] && open != [] && open[|open| - 1] == |node| - 1 && node != [] && node[|node| - 1] == bb == cur
          invariant Traversal(g, node, number, last, parent, work, open, visited, cur, g[bb][i..])
        {
          var tgt := g[bb][i];
          assert g[bb][i..][1..] == g[bb][i + 1..];
          PushStep(g, node, number, last, parent, work, open, visited, cur, g[bb][i..]);
          if tgt !in visited {
            visited := visited + {tgt};
            work := work + [Entry(tgt, false)];
          }
          i := i + 1;
        }
        assert g[bb][i..] == [];
      }
    }
    TraversalEnd(g, node, number, last, parent, open, visited, cur);
    hide SpanningTreeOf, DominatedInside;
    TreePromises(g, node, number, last, parent);
  }

  lemma NumberShrinks(g: Graph, number: map<nat, nat>, bb: nat, c: nat)
    requires bb < |g| && bb !in number
    ensures Blocks(g) - number[bb := c].Keys < Blocks(g) - number.Keys
  {
    assert g[bb] == g[bb];
    assert bb in Blocks(g) - number.Keys;
  }

  ghost function Blocks(g: Graph): set<nat> {
    set b {:trigger g[b]} | 0 <= b < |g| :: b
  }
}
