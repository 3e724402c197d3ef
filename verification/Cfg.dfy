/** Control-flow graphs, paths, reachability and dominance: the vocabulary in which
    the graph algorithms are specified. */
module Cfg {

  /** `g[b]` lists the jump targets of block `b`, in terminator order.  Blocks are
      numbered in BB order; block 0 is the function's entry. */
  type Graph = seq<seq<nat>>

  ghost predicate Valid(g: Graph) {
    |g| > 0 && forall b, t :: 0 <= b < |g| && t in g[b] ==> t < |g|
  }

  predicate Edge(g: Graph, a: nat, b: nat) {
    a < |g| && b in g[a]
  }

  ghost predicate IsPath(g: Graph, p: seq<nat>) {
    && |p| > 0
    && (forall i :: 0 <= i < |p| ==> p[i] < |g|)
    && (forall i {:trigger p[i + 1]} :: 0 <= i < |p| - 1 ==> Edge(g, p[i], p[i + 1]))
  }

  ghost predicate PathFromTo(g: Graph, p: seq<nat>, a: nat, b: nat) {
    IsPath(g, p) && p[0] == a && p[|p| - 1] == b
  }

  ghost predicate Reachable(g: Graph, a: nat, b: nat) {
    exists p :: PathFromTo(g, p, a, b)
  }

  /** Every path from the entry to `b` passes through `a`. */
  ghost predicate Dominates(g: Graph, a: nat, b: nat) {
    forall p :: PathFromTo(g, p, 0, b) ==> a in p
  }

  /** Two paths that meet at a block join into one. */
  lemma JoinPaths(g: Graph, p: seq<nat>, q: seq<nat>, a: nat, b: nat, c: nat)
    requires PathFromTo(g, p, a, b) && PathFromTo(g, q, b, c)
    ensures PathFromTo(g, p + q[1..], a, c)
    ensures forall x :: x in p + q[1..] <==> x in p || x in q[1..]
  {
    var r := p + q[1..];
    forall i {:trigger r[i + 1]} | 0 <= i < |r| - 1
      ensures Edge(g, r[i], r[i + 1])
    {
      if i < |p| - 1 {
        assert Edge(g, p[i], p[i + 1]);
      } else {
        var j := i - |p| + 1;
        assert Edge(g, q[j], q[j + 1]);
        assert r[i + 1] == q[j + 1];
      }
    }
    if |q| == 1 {
      assert q[1..] == [];
      assert r == p;
    }
  }

  /** A path extends along an edge. */
  lemma ExtendPath(g: Graph, p: seq<nat>, a: nat, b: nat, c: nat)
    requires PathFromTo(g, p, a, b) && Edge(g, b, c) && c < |g|
    ensures PathFromTo(g, p + [c], a, c)
  {
    var q := [b, c];
    assert q[1..] == [c];
    JoinPaths(g, p, q, a, b, c);
  }

  lemma ReachableStep(g: Graph, a: nat, b: nat, c: nat)
    requires Reachable(g, a, b) && Edge(g, b, c) && c < |g|
    ensures Reachable(g, a, c)
  {
    var p :| PathFromTo(g, p, a, b);
    ExtendPath(g, p, a, b, c);
  }

  lemma ReachableRefl(g: Graph, a: nat)
    requires a < |g|
    ensures Reachable(g, a, a)
  {
    assert PathFromTo(g, [a], a, a);
  }

  /** A strict dominator of a block dominates each of its predecessors. */
  lemma DominatesPred(g: Graph, d: nat, p: nat, b: nat)
    requires Dominates(g, d, b) && d != b && Edge(g, p, b) && b < |g|
    ensures Dominates(g, d, p)
  {
    forall q | PathFromTo(g, q, 0, p)
      ensures d in q
    {
      ExtendPath(g, q, 0, p, b);
      assert d in q + [b];
    }
  }
}
