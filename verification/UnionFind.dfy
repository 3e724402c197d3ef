/** The union-find of util/unionfind.cpp: `Find` shortens only the path of its argument
    and `Merge` links the first root below the second. */
module UnionFindForest {

  /** The links `id` lead to the representatives `rep`; `depth` falls along them. */
  ghost predicate Forest(id: seq<nat>, rep: seq<nat>, depth: seq<nat>) {
    && |rep| == |id| && |depth| == |id|
    && forall i :: 0 <= i < |id| ==> Linked(id, rep, depth, i)
  }

  ghost predicate Linked(id: seq<nat>, rep: seq<nat>, depth: seq<nat>, i: nat)
    requires |rep| == |depth| == |id| && i < |id|
  {
    && id[i] < |id| && rep[i] < |id| && rep[rep[i]] == rep[i] && rep[id[i]] == rep[i]
    && (id[i] == i <==> rep[i] == i)
    && (id[i] != i ==> depth[id[i]] < depth[i])
    && (rep[i] != i ==> depth[rep[i]] < depth[i])
  }

  /** The representatives once the class `i` has joined the class `j`. */
  ghost function Joined(rep: seq<nat>, i: nat, j: nat): seq<nat> {
    seq(|rep|, x requires 0 <= x < |rep| => if rep[x] == i then j else rep[x])
  }

  ghost function Deepened(rep: seq<nat>, depth: seq<nat>, i: nat, more: nat): seq<nat>
    requires |rep| == |depth|
  {
    seq(|rep|, x requires 0 <= x < |rep| => if rep[x] == i then depth[x] + more else depth[x])
  }

  lemma Link(id: seq<nat>, rep: seq<nat>, depth: seq<nat>, i: nat, j: nat)
    requires Forest(id, rep, depth) && i < |id| && j < |id| && rep[i] == i && rep[j] == j
    ensures i != j ==> Forest(id[i := j], Joined(rep, i, j), Deepened(rep, depth, i, depth[j] + 1))
    ensures i == j ==> id[i := j] == id && Joined(rep, i, j) == rep
  {
    var id', rep', depth' := id[i := j], Joined(rep, i, j), Deepened(rep, depth, i, depth[j] + 1);
    assert Linked(id, rep, depth, i);
    if i != j {
      forall x | 0 <= x < |id|
        ensures Linked(id', rep', depth', x)
      {
        assert Linked(id, rep, depth, x);
      }
    }
  }

  /** Pointing an element at its representative. */
  lemma Shorten(id: seq<nat>, rep: seq<nat>, depth: seq<nat>, i: nat)
    requires Forest(id, rep, depth) && i < |id|
    ensures Forest(id[i := rep[i]], rep, depth)
  {
    assert Linked(id, rep, depth, i);
    var id' := id[i := rep[i]];
    forall x | 0 <= x < |id|
      ensures Linked(id', rep, depth, x)
    {
      assert Linked(id, rep, depth, x);
    }
  }

  lemma RootsOf(id: seq<nat>, rep: seq<nat>, depth: seq<nat>, p: nat)
    requires Forest(id, rep, depth) && p < |id|
    ensures |rep| == |depth| == |id| && rep[p] < |id| && rep[rep[p]] == rep[p]
  {
    assert Linked(id, rep, depth, p);
  }

  class UnionFind {
    var id: seq<nat>
    ghost var rep: seq<nat>
    ghost var depth: seq<nat>

    ghost predicate Valid()
      reads this
    {
      Forest(id, rep, depth)
    }

    constructor (n: nat)
      ensures Valid() && rep == seq(n, i => i)
    {
      id := seq(n, i => i);
      rep := seq(n, i => i);
      depth := seq(n, i => 0);
    }

    /** A new element, alone in its class. */
    method Mk() returns (n: nat)
      requires Valid()
      modifies this
      ensures Valid() && n == |old(rep)| && rep == old(rep) + [n]
    {
      n := |id|;
      ghost var id0, rep0, depth0 := id, rep, depth;
      id, rep, depth := id + [n], rep + [n], depth + [0];
      forall x | 0 <= x < |id|
        ensures Linked(id, rep, depth, x)
      {
        assert x < n ==> Linked(id0, rep0, depth0, x);
      }
    }

    method Find(i: nat) returns (root: nat)
      requires Valid() && i < |rep|
      modifies this
      ensures Valid() && |id| == |rep| && rep == old(rep) && root == rep[i]
    {
      root := i;
      while root != id[root]
        invariant root < |id| && rep[root] == rep[i]
        decreases depth[root]
      {
        assert Linked(id, rep, depth, root);
        root := id[root];
      }
      assert Linked(id, rep, depth, root);
      Shorten(id, rep, depth, i);
      id := id[i := root];
    }

    /** The class of `p` joins the class of `q`, whose representative it takes. */
    method Merge(p: nat, q: nat) returns (root: nat)
      requires Valid() && p < |rep| && q < |rep|
      modifies this
      ensures Valid() && root == old(rep)[q] && rep == Joined(old(rep), old(rep)[p], root)
    {
      assert |id| == |rep|;
      hide Forest;
      RootsOf(id, rep, depth, p);
      RootsOf(id, rep, depth, q);
      var i := Find(p);
      var j := Find(q);
      RootsOf(id, rep, depth, q);
      Link(id, rep, depth, i, j);
      if i != j {
        depth := Deepened(rep, depth, i, depth[j] + 1);
        rep := Joined(rep, i, j);
      }
      id := id[i := j];
      root := j;
    }
  }
}
