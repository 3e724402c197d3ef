/** The e-graph of floating-point terms (ir/fast_math.cpp): hash-consed nodes over a
    union-find, saturated with the commutativity of addition and multiplication. */
module FastMath {
  import opened UnionFindForest
  import opened FpTerms
  import opened EGraphRounds

  function Marked(reassoc: bool, t: Fp): Fp {
    if reassoc then Reassoc(t) else t
  }

  function TermOf(n: Node, terms: seq<Fp>): Fp
    requires Within(n, |terms|)
  {
    match n
    case BinNode(op, r, a, b, reassoc) => Marked(reassoc, Bin(op, r, terms[a], terms[b]))
    case NegNode(a, reassoc) => Marked(reassoc, Neg(terms[a]))
    case LeafNode(x, reassoc) => Marked(reassoc, Leaf(x))
  }

  lemma SameShapes(n: Node, m: Node, terms: seq<Fp>)
    requires Within(n, |terms|) && Within(m, |terms|)
    requires match n
      case BinNode(op, r, a, b, f) => m.BinNode? && m.op == op && m.rounding == r && m.reassoc == f && ShapeOf(terms[a]) == ShapeOf(terms[m.a]) && ShapeOf(terms[b]) == ShapeOf(terms[m.b])
      case NegNode(a, f) => m.NegNode? && m.reassoc == f && ShapeOf(terms[a]) == ShapeOf(terms[m.a])
      case LeafNode(x, f) => m == n
    ensures ShapeOf(TermOf(n, terms)) == ShapeOf(TermOf(m, terms))
  {
    TermShape(n, terms);
    TermShape(m, terms);
    hide ShapeOf, TermOf;
  }

  lemma MarkedShape(f: bool, t: Fp)
    requires !t.Reassoc?
    ensures ShapeOf(Marked(f, t)) == ShapeWith(t, f)
  {
  }

  lemma TermShape(n: Node, terms: seq<Fp>)
    requires Within(n, |terms|)
    ensures match n
      case BinNode(op, r, a, b, f) =>
        ShapeOf(TermOf(n, terms)) == if op == Add || op == Mul then Unordered(op, r, multiset{ShapeOf(terms[a]), ShapeOf(terms[b])}, f)
                                     else Ordered(op, r, ShapeOf(terms[a]), ShapeOf(terms[b]), f)
      case NegNode(a, f) => ShapeOf(TermOf(n, terms)) == Negated(ShapeOf(terms[a]), f)
      case LeafNode(x, f) => ShapeOf(TermOf(n, terms)) == Value(x, f)
  {
    match n
    case BinNode(op, r, a, b, f) =>
      MarkedShape(f, Bin(op, r, terms[a], terms[b]));
      OuterShape(Bin(op, r, terms[a], terms[b]), f);
    case NegNode(a, f) =>
      MarkedShape(f, Neg(terms[a]));
      OuterShape(Neg(terms[a]), f);
    case LeafNode(x, f) =>
      MarkedShape(f, Leaf(x));
      OuterShape(Leaf(x), f);
  }

  /** Every class and every node is true to the term that each identifier stands for. */
  ghost predicate Sound(nodes: map<Node, nat>, rep: seq<nat>, terms: seq<Fp>) {
    && |terms| == |rep|
    && (forall i: nat :: i < |rep| ==> RepSound(rep, terms, i))
    && (forall n :: n in nodes ==> NodeSound(n, nodes[n], terms))
  }

  ghost predicate RepSound(rep: seq<nat>, terms: seq<Fp>, i: nat)
    requires |terms| == |rep| && i < |rep|
  {
    rep[i] < |rep| && ShapeOf(terms[i]) == ShapeOf(terms[rep[i]])
  }

  ghost predicate NodeSound(n: Node, i: nat, terms: seq<Fp>) {
    i < |terms| && Within(n, |terms|) && ShapeOf(TermOf(n, terms)) == ShapeOf(terms[i])
  }

  lemma SwapSame(n: Node, i: nat, terms: seq<Fp>)
    requires Commutative(n) && NodeSound(n, i, terms)
    ensures NodeSound(Swap(n), i, terms)
  {
    TermShape(n, terms);
    TermShape(Swap(n), terms);
    hide ShapeOf, TermOf;
    var x, y := ShapeOf(terms[n.a]), ShapeOf(terms[n.b]);
    assert multiset{x, y} == multiset{y, x};
  }

  // ----- where a term is found -----------------------------------------------

  /** The term below its marks. */
  function CoreOf(t: Fp): (c: Fp)
    ensures !c.Reassoc? && (if t.Reassoc? then c < t else c == t)
  {
    if t.Reassoc? then CoreOf(t.a) else t
  }

  lemma {:induction false} ShapeOfCore(t: Fp, f: bool)
    ensures ShapeWith(t, f) == ShapeWith(CoreOf(t), f || t.Reassoc?)
  {
    if t.Reassoc? {
      ShapeOfCore(t.a, true);
    }
  }

  lemma {:induction false} CoreKeeps(t: Fp)
    ensures Kind(CoreOf(t)) == Kind(t) && (Calm(t) ==> Calm(CoreOf(t)))
  {
    if t.Reassoc? {
      CoreKeeps(t.a);
    }
  }

  /** Up to classes, some node of class `i` is `n0`. */
  ghost predicate Stands(n0: Node, i: nat, nodes: map<Node, nat>, rep: seq<nat>) {
    && i < |rep| && Within(n0, |rep|)
    && exists n :: n in nodes && nodes[n] < |rep| && Within(n, |rep|) && Rooted(n, rep) == Rooted(n0, rep) && rep[nodes[n]] == rep[i]
  }

  /** The term is in class `i`. */
  ghost predicate Filed(t: Fp, i: nat, nodes: map<Node, nat>, rep: seq<nat>)
    decreases t
  {
    match CoreOf(t)
    case Bin(op, r, a, b) => exists x: nat, y: nat :: Filed(a, x, nodes, rep) && Filed(b, y, nodes, rep) && Stands(BinNode(op, r, x, y, t.Reassoc?), i, nodes, rep)
    case Neg(a) => exists x: nat :: Filed(a, x, nodes, rep) && Stands(NegNode(x, t.Reassoc?), i, nodes, rep)
    case Leaf(x) => Stands(LeafNode(x, t.Reassoc?), i, nodes, rep)
  }

  /** Classes only grow, and every node goes on standing in its class. */
  ghost predicate Evolves(nodes: map<Node, nat>, rep: seq<nat>, nodes': map<Node, nat>, rep': seq<nat>) {
    && |rep| <= |rep'|
    && (forall i: nat, j: nat :: i < |rep| && j < |rep| && rep[i] == rep[j] ==> rep'[i] == rep'[j])
    && forall n :: n in nodes && nodes[n] < |rep| && Within(n, |rep|) ==> Stands(n, nodes[n], nodes', rep')
  }

  lemma RootedKept(n: Node, m: Node, rep: seq<nat>, rep': seq<nat>)
    requires |rep| <= |rep'| && (forall i: nat, j: nat :: i < |rep| && j < |rep| && rep[i] == rep[j] ==> rep'[i] == rep'[j])
    requires Within(n, |rep|) && Within(m, |rep|) && Rooted(n, rep) == Rooted(m, rep)
    ensures Rooted(n, rep') == Rooted(m, rep')
  {
  }

  lemma StandsKept(n0: Node, i: nat, nodes: map<Node, nat>, rep: seq<nat>, nodes': map<Node, nat>, rep': seq<nat>)
    requires Stands(n0, i, nodes, rep) && Evolves(nodes, rep, nodes', rep')
    ensures Stands(n0, i, nodes', rep')
  {
    var n :| n in nodes && nodes[n] < |rep| && Within(n, |rep|) && Rooted(n, rep) == Rooted(n0, rep) && rep[nodes[n]] == rep[i];
    RootedKept(n, n0, rep, rep');
    hide Rooted;
    assert Stands(n, nodes[n], nodes', rep');
    var m :| m in nodes' && nodes'[m] < |rep'| && Within(m, |rep'|) && Rooted(m, rep') == Rooted(n, rep') && rep'[nodes'[m]] == rep'[nodes[n]];
  }

  lemma {:induction false} FiledKept(t: Fp, i: nat, nodes: map<Node, nat>, rep: seq<nat>, nodes': map<Node, nat>, rep': seq<nat>)
    requires Filed(t, i, nodes, rep) && Evolves(nodes, rep, nodes', rep')
    ensures Filed(t, i, nodes', rep')
    decreases t
  {
    hide Stands, Evolves;
    match CoreOf(t)
    case Bin(op, r, a, b) =>
      var x: nat, y: nat :| Filed(a, x, nodes, rep) && Filed(b, y, nodes, rep) && Stands(BinNode(op, r, x, y, t.Reassoc?), i, nodes, rep);
      FiledKept(a, x, nodes, rep, nodes', rep');
      FiledKept(b, y, nodes, rep, nodes', rep');
      StandsKept(BinNode(op, r, x, y, t.Reassoc?), i, nodes, rep, nodes', rep');
    case Neg(a) =>
      var x: nat :| Filed(a, x, nodes, rep) && Stands(NegNode(x, t.Reassoc?), i, nodes, rep);
      FiledKept(a, x, nodes, rep, nodes', rep');
      StandsKept(NegNode(x, t.Reassoc?), i, nodes, rep, nodes', rep');
    case Leaf(l) =>
      StandsKept(LeafNode(l, t.Reassoc?), i, nodes, rep, nodes', rep');
  }

  lemma EvolvesTrans(n0: map<Node, nat>, r0: seq<nat>, n1: map<Node, nat>, r1: seq<nat>, n2: map<Node, nat>, r2: seq<nat>)
    requires Evolves(n0, r0, n1, r1) && Evolves(n1, r1, n2, r2)
    ensures Evolves(n0, r0, n2, r2)
  {
    hide Stands;
    forall n | n in n0 && n0[n] < |r0| && Within(n, |r0|)
      ensures Stands(n, n0[n], n2, r2)
    {
      StandsKept(n, n0[n], n1, r1, n2, r2);
    }
  }

  /** Nodes and identifiers are added, alone in their classes. */
  ghost predicate Appended(nodes: map<Node, nat>, rep: seq<nat>, nodes': map<Node, nat>, rep': seq<nat>) {
    && (forall n :: n in nodes ==> n in nodes' && nodes'[n] == nodes[n])
    && |rep| <= |rep'| && (forall i: nat :: i < |rep'| ==> rep'[i] == if i < |rep| then rep[i] else i)
  }

  lemma AppendedEvolves(nodes: map<Node, nat>, rep: seq<nat>, nodes': map<Node, nat>, rep': seq<nat>)
    requires Appended(nodes, rep, nodes', rep')
    ensures Evolves(nodes, rep, nodes', rep')
  {
    hide Rooted;
    forall n | n in nodes && nodes[n] < |rep| && Within(n, |rep|)
      ensures Stands(n, nodes[n], nodes', rep')
    {
      assert n in nodes' && nodes'[n] == nodes[n];
    }
  }

  lemma AppendedTrans(n0: map<Node, nat>, r0: seq<nat>, n1: map<Node, nat>, r1: seq<nat>, n2: map<Node, nat>, r2: seq<nat>)
    requires Appended(n0, r0, n1, r1) && Appended(n1, r1, n2, r2)
    ensures Appended(n0, r0, n2, r2)
  {
  }

  lemma AppendNothing(nodes: map<Node, nat>, rep: seq<nat>)
    ensures Appended(nodes, rep, nodes, rep)
  {
  }

  // ----- what building a graph from terms yields -------------------------------

  function NodeAdded(nodes: map<Node, nat>, size: nat, n: Node): (map<Node, nat>, nat, nat) {
    if n in nodes then (nodes, size, nodes[n]) else (nodes[n := size], size + 1, size)
  }

  /** The nodes, the number of identifiers and the identifier of the term after `get`. */
  function Inserted(nodes: map<Node, nat>, size: nat, t: Fp): (map<Node, nat>, nat, nat)
    decreases t
  {
    match CoreOf(t)
    case Bin(op, r, a, b) =>
      var (n1, s1, j) := Inserted(nodes, size, b);
      var (n2, s2, k) := Inserted(n1, s1, a);
      NodeAdded(n2, s2, BinNode(op, r, k, j, t.Reassoc?))
    case Neg(a) =>
      var (n1, s1, k) := Inserted(nodes, size, a);
      NodeAdded(n1, s1, NegNode(k, t.Reassoc?))
    case Leaf(x) => NodeAdded(nodes, size, LeafNode(x, t.Reassoc?))
  }

  // ----- calm graphs ---------------------------------------------------------

  function NodeKind(n: Node): nat {
    match n
    case BinNode(op, _, _, _, _) => OpRank(op)
    case NegNode(_, _) => 4
    case LeafNode(_, _) => 5
  }

  ghost predicate NodeCalm(n: Node, terms: seq<Fp>) {
    && Within(n, |terms|)
    && (n.BinNode? ==> CalmOperand(OpRank(n.op), Kind(terms[n.a])) && CalmOperand(OpRank(n.op), Kind(terms[n.b])))
  }

  ghost predicate AllCalm(nodes: map<Node, nat>, terms: seq<Fp>) {
    forall n :: n in nodes ==> NodeCalm(n, terms)
  }

  lemma CalmGrows(nodes: map<Node, nat>, terms: seq<Fp>, terms': seq<Fp>)
    requires AllCalm(nodes, terms) && terms <= terms'
    ensures AllCalm(nodes, terms')
  {
    hide CalmOperand, Kind;
    forall n | n in nodes
      ensures NodeCalm(n, terms')
    {
      assert NodeCalm(n, terms);
    }
  }

  class EGraph {
    const uf: UnionFind
    var nodes: map<Node, nat>
    ghost var terms: seq<Fp>

    ghost predicate Valid()
      reads this, uf
    {
      uf.Valid() && Sound(nodes, uf.rep, terms)
    }

    constructor ()
      ensures Valid() && fresh(uf) && terms == [] && uf.rep == [] && nodes == map[]
    {
      uf := new UnionFind(0);
      nodes := map[];
      terms := [];
    }

    method Root(n: nat) returns (root: nat)
      requires Valid() && n < |terms|
      modifies uf
      ensures Valid() && uf.rep == old(uf.rep) && root == uf.rep[n]
    {
      root := uf.Find(n);
    }

    /** The identifier of a node, new if the node is. */
    method GetNode(n: Node) returns (i: nat)
      requires Valid() && Within(n, |terms|)
      modifies this, uf
      ensures Valid() && n in nodes && nodes[n] == i
      ensures n in old(nodes) ==> nodes == old(nodes) && uf.rep == old(uf.rep) && terms == old(terms)
      ensures n !in old(nodes) ==> i == |old(terms)| && nodes == old(nodes)[n := i] && uf.rep == old(uf.rep) + [i] && terms == old(terms) + [TermOf(n, old(terms))]
    {
      if n in nodes {
        i := nodes[n];
      } else {
        ghost var terms0, rep0, nodes0 := terms, uf.rep, nodes;
        i := uf.Mk();
        terms := terms + [TermOf(n, terms)];
        nodes := nodes[n := i];
        NewSound(nodes0, rep0, terms0, n);
      }
    }

    static lemma NewSound(nodes: map<Node, nat>, rep: seq<nat>, terms: seq<Fp>, n: Node)
      requires Sound(nodes, rep, terms) && Within(n, |terms|)
      ensures Sound(nodes[n := |terms|], rep + [|terms|], terms + [TermOf(n, terms)])
    {
      var rep', terms' := rep + [|terms|], terms + [TermOf(n, terms)];
      TermKept(n, terms, terms');
      hide ShapeOf, TermOf;
      forall i: nat | i < |rep'|
        ensures RepSound(rep', terms', i)
      {
        assert i < |rep| ==> RepSound(rep, terms, i);
      }
      forall m | m in nodes
        ensures NodeSound(m, nodes[m], terms')
      {
        assert NodeSound(m, nodes[m], terms);
        TermKept(m, terms, terms');
      }
    }

    static lemma SoundAt(nodes: map<Node, nat>, rep: seq<nat>, terms: seq<Fp>, n: Node)
      requires Sound(nodes, rep, terms) && n in nodes
      ensures NodeSound(n, nodes[n], terms)
    {
    }

    /** `get` for a node that has just been built. */
    method AddNode(n: Node) returns (i: nat)
      requires Valid() && Within(n, |terms|)
      modifies this, uf
      ensures Valid() && i < |terms| && old(terms) <= terms && Within(n, |terms|) && ShapeOf(terms[i]) == ShapeOf(TermOf(n, terms))
      ensures Appended(old(nodes), old(uf.rep), nodes, uf.rep) && Stands(n, i, nodes, uf.rep)
      ensures (nodes, |terms|, i) == NodeAdded(old(nodes), |old(terms)|, n)
      ensures NodeCalm(n, old(terms)) && AllCalm(old(nodes), old(terms)) ==> AllCalm(nodes, terms)
    {
      ghost var terms0 := terms;
      i := GetNode(n);
      SoundAt(nodes, uf.rep, terms, n);
      if AllCalm(old(nodes), terms0) && NodeCalm(n, terms0) {
        CalmGrows(old(nodes)[n := i], terms0, terms);
      }
      hide ShapeOf, Rooted, NodeCalm;
    }

    /** The identifier of a term.  New identifiers are alone in their classes. */
    method Get(e: Fp) returns (i: nat)
      requires Valid()
      modifies this, uf
      ensures Valid() && i < |terms| && ShapeOf(terms[i]) == ShapeOf(e) && Filed(e, i, nodes, uf.rep)
      ensures old(terms) <= terms && Appended(old(nodes), old(uf.rep), nodes, uf.rep)
      ensures (nodes, |terms|, i) == Inserted(old(nodes), |old(terms)|, e)
      ensures Calm(e) && AllCalm(old(nodes), old(terms)) ==> AllCalm(nodes, terms)
      decreases e, 1
    {
      var cur, reassoc := e, false;
      while cur.Reassoc?
        invariant CoreOf(cur) == CoreOf(e) && if reassoc then e.Reassoc? && cur < e else cur == e
        decreases cur
      {
        cur, reassoc := cur.a, true;
      }
      CoreKeeps(e);
      if cur.Bin? {
        i := GetBin(e, cur, reassoc);
      } else if cur.Neg? {
        i := GetNeg(e, cur, reassoc);
      } else {
        i := AddNode(LeafNode(cur.x, reassoc));
        LeafIs(e, cur, reassoc, terms);
        hide ShapeOf, Stands, NodeCalm, NodeAdded, Sound;
      }
    }

    static lemma LeafIs(e: Fp, cur: Fp, reassoc: bool, terms: seq<Fp>)
      requires cur == CoreOf(e) && cur.Leaf? && reassoc == e.Reassoc?
      ensures ShapeOf(TermOf(LeafNode(cur.x, reassoc), terms)) == ShapeOf(e)
    {
      ShapeOfCore(e, false);
    }

    static lemma BinIs(e: Fp, cur: Fp, reassoc: bool, terms: seq<Fp>, k: nat, j: nat)
      requires cur == CoreOf(e) && cur.Bin? && reassoc == e.Reassoc? && k < |terms| && j < |terms|
      requires ShapeOf(terms[k]) == ShapeOf(cur.a) && ShapeOf(terms[j]) == ShapeOf(cur.b)
      ensures ShapeOf(TermOf(BinNode(cur.op, cur.rounding, k, j, reassoc), terms)) == ShapeOf(e)
      ensures Calm(e) ==> NodeCalm(BinNode(cur.op, cur.rounding, k, j, reassoc), terms)
    {
      ShapeOfCore(e, false);
      OuterShape(cur, reassoc);
      TermShape(BinNode(cur.op, cur.rounding, k, j, reassoc), terms);
      CoreKeeps(e);
      ShapeKind(terms[k], false, cur.a, false);
      ShapeKind(terms[j], false, cur.b, false);
    }

    static lemma NegIs(e: Fp, cur: Fp, reassoc: bool, terms: seq<Fp>, k: nat)
      requires cur == CoreOf(e) && cur.Neg? && reassoc == e.Reassoc? && k < |terms| && ShapeOf(terms[k]) == ShapeOf(cur.a)
      ensures ShapeOf(TermOf(NegNode(k, reassoc), terms)) == ShapeOf(e)
    {
      ShapeOfCore(e, false);
      OuterShape(cur, reassoc);
      TermShape(NegNode(k, reassoc), terms);
    }

    method GetBin(ghost e: Fp, cur: Fp, reassoc: bool) returns (i: nat)
      requires Valid() && cur.Bin? && cur == CoreOf(e) && reassoc == e.Reassoc?
      modifies this, uf
      ensures Valid() && i < |terms| && ShapeOf(terms[i]) == ShapeOf(e) && Filed(e, i, nodes, uf.rep)
      ensures old(terms) <= terms && Appended(old(nodes), old(uf.rep), nodes, uf.rep)
      ensures (nodes, |terms|, i) == Inserted(old(nodes), |old(terms)|, e)
      ensures Calm(e) && AllCalm(old(nodes), old(terms)) ==> AllCalm(nodes, terms)
      decreases e, 0
    {
      hide *;
      ghost var nodes0, rep0 := nodes, uf.rep;
      ValidSizes();
      var j := Get(cur.b);
      ghost var nodes1, rep1, terms1 := nodes, uf.rep, terms;
      var k := Get(cur.a);
      ghost var nodes2, rep2, terms2 := nodes, uf.rep, terms;
      ValidSizes();
      BinIs(e, cur, reassoc, terms2, k, j);
      CoreKeeps(e);
      var n := BinNode(cur.op, cur.rounding, k, j, reassoc);
      WithinBin(n, |terms2|);
      i := AddNode(n);
      TermKept(n, terms2, terms);
      AppendedTrans(nodes0, rep0, nodes1, rep1, nodes2, rep2);
      AppendedTrans(nodes0, rep0, nodes2, rep2, nodes, uf.rep);
      AppendedEvolves(nodes2, rep2, nodes, uf.rep);
      AppendedTrans(nodes1, rep1, nodes2, rep2, nodes, uf.rep);
      AppendedEvolves(nodes1, rep1, nodes, uf.rep);
      FiledKept(cur.b, j, nodes1, rep1, nodes, uf.rep);
      FiledKept(cur.a, k, nodes2, rep2, nodes, uf.rep);
      BinFiled(e, cur, k, j, i, nodes, uf.rep);
      BinInserted(e, cur, nodes0, |old(terms)|, nodes1, |terms1|, j, nodes2, |terms2|, k);
      BinCalm(e, cur);
    }

    static lemma WithinBin(n: Node, size: nat)
      requires n.BinNode? && n.a < size && n.b < size
      ensures Within(n, size)
    {
    }

    lemma ValidSizes()
      requires Valid()
      ensures |uf.rep| == |terms|
    {
    }

    static lemma TermKept(n: Node, terms: seq<Fp>, terms': seq<Fp>)
      requires Within(n, |terms|) && terms <= terms'
      ensures TermOf(n, terms') == TermOf(n, terms)
    {
    }

    static lemma BinCalm(e: Fp, cur: Fp)
      requires cur == CoreOf(e) && cur.Bin?
      ensures Calm(e) ==> Calm(cur.a) && Calm(cur.b)
    {
      CoreKeeps(e);
    }

    static lemma BinFiled(e: Fp, cur: Fp, k: nat, j: nat, i: nat, nodes: map<Node, nat>, rep: seq<nat>)
      requires cur == CoreOf(e) && cur.Bin? && Filed(cur.a, k, nodes, rep) && Filed(cur.b, j, nodes, rep)
      requires Stands(BinNode(cur.op, cur.rounding, k, j, e.Reassoc?), i, nodes, rep)
      ensures Filed(e, i, nodes, rep)
    {
      hide Stands;
    }

    static lemma BinInserted(e: Fp, cur: Fp, n0: map<Node, nat>, s0: nat, n1: map<Node, nat>, s1: nat, j: nat, n2: map<Node, nat>, s2: nat, k: nat)
      requires cur == CoreOf(e) && cur.Bin? && (n1, s1, j) == Inserted(n0, s0, cur.b) && (n2, s2, k) == Inserted(n1, s1, cur.a)
      ensures Inserted(n0, s0, e) == NodeAdded(n2, s2, BinNode(cur.op, cur.rounding, k, j, e.Reassoc?))
    {
      hide NodeAdded;
    }

    method GetNeg(ghost e: Fp, cur: Fp, reassoc: bool) returns (i: nat)
      requires Valid() && cur.Neg? && cur == CoreOf(e) && reassoc == e.Reassoc?
      modifies this, uf
      ensures Valid() && i < |terms| && ShapeOf(terms[i]) == ShapeOf(e) && Filed(e, i, nodes, uf.rep)
      ensures old(terms) <= terms && Appended(old(nodes), old(uf.rep), nodes, uf.rep)
      ensures (nodes, |terms|, i) == Inserted(old(nodes), |old(terms)|, e)
      ensures Calm(e) && AllCalm(old(nodes), old(terms)) ==> AllCalm(nodes, terms)
      decreases e, 0
    {
      ghost var nodes0, rep0 := nodes, uf.rep;
      var k := Get(cur.a);
      ghost var nodes1, rep1, terms1 := nodes, uf.rep, terms;
      NegIs(e, cur, reassoc, terms1, k);
      CoreKeeps(e);
      var n := NegNode(k, reassoc);
      i := AddNode(n);
      TermKept(n, terms1, terms);
      AppendedTrans(nodes0, rep0, nodes1, rep1, nodes, uf.rep);
      AppendedEvolves(nodes1, rep1, nodes, uf.rep);
      FiledKept(cur.a, k, nodes1, rep1, nodes, uf.rep);
      hide ShapeOf, Stands, NodeAdded, Sound, Appended, Evolves, AllCalm;
    }

    /** A node that equals an identifier joins its class. */
    method DeclEquivalent(n: Node, n1: nat)
      requires Valid() && NodeSound(n, n1, terms)
      modifies this, uf
      ensures Valid() && old(terms) <= terms
      ensures Grown(old(uf.rep), uf.rep)
      ensures n in nodes && nodes[n] < |terms| && uf.rep[nodes[n]] == uf.rep[n1]
      ensures nodes == if n in old(nodes) then old(nodes) else old(nodes)[n := nodes[n]]
      ensures forall c :: Graph(nodes, uf.rep, c) == Declared(Graph(old(nodes), old(uf.rep), c), n, n1)
      ensures NodeCalm(n, old(terms)) && AllCalm(old(nodes), old(terms)) ==> AllCalm(nodes, terms)
    {
      ghost var rep0, terms0, nodes0 := uf.rep, terms, nodes;
      RepsValid();
      var n2 := GetNode(n);
      ghost var rep := uf.rep;
      RepsValid();
      SoundAt(nodes, rep, terms, n);
      TermKept(n, terms0, terms);
      assert terms[n1] == terms0[n1];
      if AllCalm(nodes0, terms0) && NodeCalm(n, terms0) {
        CalmGrows(nodes0[n := n2], terms0, terms);
      }
      hide ShapeOf, NodeCalm;
      var r := uf.Merge(n2, n1);
      JoinSound(nodes, rep, terms, n2, n1);
      if n2 == |rep0| && rep != rep0 {
        NewGrows(rep0, n1);
      } else {
        JoinGrows(rep0, n2, n1);
      }
      hide *;
      forall c
        ensures Graph(nodes, uf.rep, c) == Declared(Graph(nodes0, rep0, c), n, n1)
      {
        DeclaredIs(nodes0, rep0, nodes, rep, n, n1, c);
      }
    }

    static lemma DeclaredIs(nodes0: map<Node, nat>, rep0: seq<nat>, nodes: map<Node, nat>, rep: seq<nat>, n: Node, n1: nat, c: bool)
      requires n1 < |rep0| && n in nodes && nodes[n] < |rep|
      requires if n in nodes0 then nodes == nodes0 && rep == rep0 else nodes == nodes0[n := |rep0|] && rep == rep0 + [|rep0|]
      ensures Graph(nodes, Joined(rep, rep[nodes[n]], rep[n1]), c) == Declared(Graph(nodes0, rep0, c), n, n1)
    {
      hide Joined;
      assert rep[n1] == RepOf(rep0, n1);
      if n !in nodes0 {
        assert nodes[n] == |rep0| && rep[|rep0|] == |rep0|;
      }
    }

    lemma RepsValid()
      requires Valid()
      ensures ValidRep(uf.rep)
    {
      forall i: nat | i < |uf.rep|
        ensures uf.rep[i] < |uf.rep| && uf.rep[uf.rep[i]] == uf.rep[i]
      {
        RootsOf(uf.id, uf.rep, uf.depth, i);
      }
    }

    static lemma JoinSound(nodes: map<Node, nat>, rep: seq<nat>, terms: seq<Fp>, p: nat, q: nat)
      requires Sound(nodes, rep, terms) && p < |rep| && q < |rep| && ShapeOf(terms[p]) == ShapeOf(terms[q])
      ensures Sound(nodes, Joined(rep, rep[p], rep[q]), terms)
    {
      var rep' := Joined(rep, rep[p], rep[q]);
      assert RepSound(rep, terms, p) && RepSound(rep, terms, q);
      hide ShapeOf, NodeSound;
      forall i: nat | i < |rep'|
        ensures RepSound(rep', terms, i)
      {
        assert RepSound(rep, terms, i);
      }
    }

    /** The node with the roots of its operands. */
    method WithRoots(n: Node) returns (nn: Node)
      requires Valid() && Within(n, |terms|)
      modifies uf
      ensures Valid() && uf.rep == old(uf.rep) && nn == Rooted(n, uf.rep)
    {
      match n {
        case BinNode(op, r, a, b, reassoc) =>
          var a' := Root(a);
          var b' := Root(b);
          nn := BinNode(op, r, a', b', reassoc);
        case NegNode(a, reassoc) =>
          var a' := Root(a);
          nn := NegNode(a', reassoc);
        case LeafNode(_, _) =>
          nn := n;
      }
    }

    static lemma RootedSound(nodes: map<Node, nat>, rep: seq<nat>, terms: seq<Fp>, n: Node)
      requires Sound(nodes, rep, terms) && ValidRep(rep) && n in nodes
      ensures Within(n, |rep|) && NodeSound(Rooted(n, rep), nodes[n], terms) && Canonical(Rooted(n, rep), rep)
      ensures Rooted(n, rep) == n <==> Canonical(n, rep)
      ensures Rooted(Rooted(n, rep), rep) == Rooted(n, rep)
      ensures NodeCalm(n, terms) ==> NodeCalm(Rooted(n, rep), terms)
    {
      hide ShapeOf, TermOf, NodeCalm;
      assert NodeSound(n, nodes[n], terms);
      assert n.BinNode? ==> RepSound(rep, terms, n.a) && RepSound(rep, terms, n.b);
      assert n.NegNode? ==> RepSound(rep, terms, n.a);
      SameShapes(n, Rooted(n, rep), terms);
      RootedCalm(rep, terms, n);
    }

    static lemma RootedCalm(rep: seq<nat>, terms: seq<Fp>, n: Node)
      requires |terms| == |rep| && Within(n, |rep|) && (n.BinNode? ==> RepSound(rep, terms, n.a) && RepSound(rep, terms, n.b))
      requires n.NegNode? ==> rep[n.a] < |rep|
      ensures NodeCalm(n, terms) ==> NodeCalm(Rooted(n, rep), terms)
    {
      if n.BinNode? {
        ShapeKind(terms[n.a], false, terms[rep[n.a]], false);
        ShapeKind(terms[n.b], false, terms[rep[n.b]], false);
      }
      hide ShapeOf, CalmOperand, Kind;
    }

    /** One pass over a copy of the nodes, in the order of the map. */
    method Round(sort: Sort) returns (changed: bool)
      requires Valid() && Sorts(sort)
      modifies this, uf
      ensures Valid() && old(terms) <= terms
      ensures InRound(old(nodes), old(uf.rep), {}, nodes, uf.rep, changed)
      ensures VisitAll(Graph(old(nodes), old(uf.rep), false), sort(old(nodes.Keys))) == Graph(nodes, uf.rep, changed)
      ensures Evolves(old(nodes), old(uf.rep), nodes, uf.rep)
      ensures AllCalm(old(nodes), old(terms)) ==> AllCalm(nodes, terms)
    {
      hide *;
      ghost var rep0, terms0 := uf.rep, terms;
      var copy := nodes;
      var order := sort(copy.Keys);
      SortedOnce(sort, copy.Keys);
      ghost var todo := copy.Keys;
      changed := false;
      var k: nat := 0;
      RoundStarts(nodes, uf.rep, order);
      while k < |order|
        invariant k <= |order| && Valid() && terms0 <= terms
        invariant InRound(copy, rep0, todo, nodes, uf.rep, changed)
        invariant Visiting(copy, rep0, todo, order, k, Graph(nodes, uf.rep, changed))
        invariant Evolves(copy, rep0, nodes, uf.rep) && (AllCalm(copy, terms0) ==> AllCalm(nodes, terms))
      {
        var n := order[k];
        ghost var g := Graph(nodes, uf.rep, changed);
        NextToVisit(copy, rep0, todo, order, k, g);
        changed := Visit(copy, rep0, todo, n, changed);
        VisitNext(copy, rep0, todo, order, k, g);
        EvolvesTrans(copy, rep0, g.nodes, g.rep, nodes, uf.rep);
        todo, k := todo - {n}, k + 1;
      }
      Visited(copy, rep0, todo, order, Graph(nodes, uf.rep, changed));
    }

    static lemma SortedOnce(sort: Sort, s: set<Node>)
      requires Sorts(sort)
      ensures OrderOf(sort(s), s)
    {
    }

    /** The first `k` nodes have been visited. */
    static ghost predicate Visiting(copy: map<Node, nat>, rep0: seq<nat>, todo: set<Node>, order: seq<Node>, k: nat, g: Graph) {
      && k <= |order| && OrderOf(order, copy.Keys) && (forall n :: n in todo <==> n in order[k..])
      && VisitAll(Graph(copy, rep0, false), order[..k]) == g
    }

    static lemma NextToVisit(copy: map<Node, nat>, rep0: seq<nat>, todo: set<Node>, order: seq<Node>, k: nat, g: Graph)
      requires Visiting(copy, rep0, todo, order, k, g) && k < |order|
      ensures order[k] in todo
    {
      assert order[k..][0] == order[k];
    }

    static lemma VisitNext(copy: map<Node, nat>, rep0: seq<nat>, todo: set<Node>, order: seq<Node>, k: nat, g: Graph)
      requires Visiting(copy, rep0, todo, order, k, g) && k < |order|
      ensures Visiting(copy, rep0, todo - {order[k]}, order, k + 1, VisitOne(g, order[k]))
    {
      VisitNth(Graph(copy, rep0, false), order, k);
      hide VisitOne, VisitAll;
      assert order[k..] == [order[k]] + order[k + 1..];
      assert order[k] !in order[k + 1..];
    }

    static lemma Visited(copy: map<Node, nat>, rep0: seq<nat>, todo: set<Node>, order: seq<Node>, g: Graph)
      requires Visiting(copy, rep0, todo, order, |order|, g)
      ensures todo == {} && VisitAll(Graph(copy, rep0, false), order) == g
    {
      AllVisited(order);
      assert order[|order|..] == [];
    }

    static lemma RoundStarts(nodes: map<Node, nat>, rep: seq<nat>, order: seq<Node>)
      requires OrderOf(order, nodes.Keys)
      ensures InRound(nodes, rep, nodes.Keys, nodes, rep, false) && Visiting(nodes, rep, nodes.Keys, order, 0, Graph(nodes, rep, false))
      ensures Evolves(nodes, rep, nodes, rep)
    {
      assert rep[..|rep|] == rep && order[..0] == [] && order[0..] == order;
      AppendNothing(nodes, rep);
      AppendedEvolves(nodes, rep, nodes, rep);
    }

    method Visit(ghost copy: map<Node, nat>, ghost rep0: seq<nat>, ghost todo: set<Node>, n: Node, changed: bool) returns (changed': bool)
      requires Valid() && n in todo && InRound(copy, rep0, todo, nodes, uf.rep, changed)
      modifies this, uf
      ensures Valid() && old(terms) <= terms
      ensures InRound(copy, rep0, todo - {n}, nodes, uf.rep, changed')
      ensures Graph(nodes, uf.rep, changed') == VisitOne(Graph(old(nodes), old(uf.rep), changed), n)
      ensures Evolves(old(nodes), old(uf.rep), nodes, uf.rep)
      ensures AllCalm(old(nodes), old(terms)) ==> AllCalm(nodes, terms)
    {
      hide ShapeOf, TermOf, Grown, Settling, OnlySwapped, AllCanonical, Forest, ValidRep, Roots, RepSound, NodeCalm, Evolves;
      ghost var nodes0, rep, terms0 := nodes, uf.rep, terms;
      assert n in nodes && nodes[n] == copy[n];
      RepsValid();
      RootedSound(nodes, rep, terms, n);
      var nn := WithRoots(n);
      var i := nodes[n];
      if nn != n {
        DeclEquivalent(nn, i);
        Dropping(nodes, uf.rep, terms, n);
        RemovalEvolves(nodes0, rep, nodes, uf.rep, n, nn);
        nodes := nodes - {n};
        changed' := true;
        AfterRemoval(copy, rep0, todo, n, nodes0, rep, changed, nodes, uf.rep, nn);
      } else {
        changed' := changed;
        if n.BinNode? && (n.op == Add || n.op == Mul) {
          SoundAt(nodes, rep, terms, n);
          SwapSame(n, i, terms);
          SwapCalm(n, terms);
          DeclEquivalent(n.(a := n.b, b := n.a), i);
          MoreEvolves(nodes0, rep, nodes, uf.rep);
          AfterSwap(copy, rep0, todo, n, nodes0, rep, changed, nodes, uf.rep);
        } else {
          AppendNothing(nodes, rep);
          AppendedEvolves(nodes, rep, nodes, rep);
          AfterNothing(copy, rep0, todo, n, nodes0, rep, changed);
        }
      }
    }

    static lemma SwapCalm(n: Node, terms: seq<Fp>)
      ensures NodeCalm(n, terms) ==> NodeCalm(Swap(n), terms)
    {
    }

    static lemma MoreEvolves(nodes: map<Node, nat>, rep: seq<nat>, nodes': map<Node, nat>, rep': seq<nat>)
      requires Grown(rep, rep') && forall m :: m in nodes ==> m in nodes' && nodes'[m] == nodes[m]
      ensures Evolves(nodes, rep, nodes', rep')
    {
      hide Rooted;
      forall m | m in nodes && nodes[m] < |rep| && Within(m, |rep|)
        ensures Stands(m, nodes[m], nodes', rep')
      {
        assert m in nodes' && nodes'[m] == nodes[m];
      }
    }

    /** The node with rooted operands stands in for the one that is removed. */
    static lemma RemovalEvolves(nodes: map<Node, nat>, rep: seq<nat>, nodes': map<Node, nat>, rep': seq<nat>, n: Node, nn: Node)
      requires Grown(rep, rep') && n in nodes && nn != n && nn in nodes' && nodes[n] < |rep| && nodes'[nn] < |rep'| && rep'[nodes'[nn]] == rep'[nodes[n]]
      requires Within(n, |rep|) && Within(nn, |rep|) && nn == Rooted(n, rep) && Rooted(nn, rep) == nn
      requires nodes' == if nn in nodes then nodes else nodes[nn := nodes'[nn]]
      ensures Evolves(nodes, rep, nodes' - {n}, rep')
    {
      RootedKept(n, nn, rep, rep');
      hide Rooted;
      forall m | m in nodes && nodes[m] < |rep| && Within(m, |rep|)
        ensures Stands(m, nodes[m], nodes' - {n}, rep')
      {
        if m == n {
          assert nn in nodes' - {n};
        } else {
          assert m in nodes' - {n};
        }
      }
    }

    static lemma Dropping(nodes: map<Node, nat>, rep: seq<nat>, terms: seq<Fp>, n: Node)
      ensures Sound(nodes, rep, terms) ==> Sound(nodes - {n}, rep, terms)
      ensures AllCalm(nodes, terms) ==> AllCalm(nodes - {n}, terms)
    {
    }

    static lemma AfterRemoval(copy: map<Node, nat>, rep0: seq<nat>, todo: set<Node>, n: Node,
        nodes: map<Node, nat>, rep: seq<nat>, changed: bool, nodes': map<Node, nat>, rep': seq<nat>, nn: Node)
      requires InRound(copy, rep0, todo, nodes, rep, changed) && n in todo && Grown(rep, rep')
      requires nn != n && Canonical(nn, rep) && !Canonical(n, rep) && nn in nodes' && n !in nodes'
      requires forall m :: m in nodes' <==> m != n && (m in nodes || m == nn)
      requires forall m :: m in nodes && m != n ==> nodes'[m] == nodes[m]
      ensures InRound(copy, rep0, todo - {n}, nodes', rep', true)
    {
      GrownTrans(rep0, rep, rep');
      CanonicalKept(rep, rep');
      CanonicalKept(rep0, rep);
      hide Canonical, Roots;
    }

    static lemma CanonicalKept(rep: seq<nat>, rep': seq<nat>)
      ensures Quiet(rep, rep') ==> forall n :: Canonical(n, rep) ==> Canonical(n, rep')
    {
      if Quiet(rep, rep') {
        assert forall i: nat :: i < |rep| ==> rep'[i] == rep'[..|rep|][i];
      }
    }

    static lemma AfterSwap(copy: map<Node, nat>, rep0: seq<nat>, todo: set<Node>, n: Node,
        nodes: map<Node, nat>, rep: seq<nat>, changed: bool, nodes': map<Node, nat>, rep': seq<nat>)
      requires InRound(copy, rep0, todo, nodes, rep, changed) && n in todo && Grown(rep, rep')
      requires Canonical(n, rep) && Commutative(n)
      requires Swap(n) in nodes' && nodes' == if Swap(n) in nodes then nodes else nodes[Swap(n) := nodes'[Swap(n)]]
      requires SwapKnown(n, nodes', rep')
      ensures InRound(copy, rep0, todo - {n}, nodes', rep', changed)
    {
      GrownTrans(rep0, rep, rep');
      CanonicalKept(rep, rep');
      assert Canonical(Swap(n), rep);
      assert Swap(Swap(n)) == n;
      hide Canonical, Roots;
    }

    static lemma AfterNothing(copy: map<Node, nat>, rep0: seq<nat>, todo: set<Node>, n: Node, nodes: map<Node, nat>, rep: seq<nat>, changed: bool)
      requires InRound(copy, rep0, todo, nodes, rep, changed) && n in todo && Canonical(n, rep) && !Commutative(n)
      ensures InRound(copy, rep0, todo - {n}, nodes, rep, changed)
    {
      hide Canonical, Roots;
    }

    lemma NodesWithin()
      requires Valid()
      ensures GraphOk(Graph(nodes, uf.rep, false))
    {
      RepsValid();
      forall n | n in nodes
        ensures nodes[n] < |uf.rep| && Within(n, |uf.rep|)
      {
        SoundAt(nodes, uf.rep, terms, n);
      }
    }

    /** Saturation terminates, and leaves every commuted form in the class of its node.  If
        its last round joined no classes, or if operators are visited in the order of the
        source and the graph is calm, then congruent nodes are in one class. */
    method Saturate(sort: Sort) returns (ghost gs: seq<Graph>)
      requires Valid() && Sorts(sort)
      modifies this, uf
      ensures Valid() && old(terms) <= terms && Evolves(old(nodes), old(uf.rep), nodes, uf.rep)
      ensures Chain(sort, gs) && gs[0] == Graph(old(nodes), old(uf.rep), false) && gs[|gs| - 1] == Graph(nodes, uf.rep, false)
      ensures GraphOk(Graph(nodes, uf.rep, false)) && forall n :: n in nodes ==> SwapKnown(n, nodes, uf.rep)
      ensures Grown(gs[|gs| - 2].rep, uf.rep)
      ensures Quiet(gs[|gs| - 2].rep, uf.rep) || (OperatorMajor(sort) && AllCalm(old(nodes), old(terms))) ==>
        AllCanonical(nodes, uf.rep) && CongruenceClosed(nodes, uf.rep)
    {
      hide *;
      ghost var nodes0, rep0, terms0 := nodes, uf.rep, terms;
      gs := [Graph(nodes, uf.rep, false)];
      SaturationStarts(sort, nodes, uf.rep);
      while true
        invariant Valid() && terms0 <= terms && Evolves(nodes0, rep0, nodes, uf.rep) && (AllCalm(nodes0, terms0) ==> AllCalm(nodes, terms))
        invariant Rounds(sort, gs) && |gs| > 0 && gs[0] == Graph(nodes0, rep0, false) && gs[|gs| - 1].nodes == nodes && gs[|gs| - 1].rep == uf.rep
        decreases |Roots(uf.rep)|, Distance(nodes, uf.rep)
      {
        var copy := nodes;
        ghost var rep, terms1, gs0 := uf.rep, terms, gs;
        NodesWithin();
        ValidSound();
        var changed := Round(sort);
        EvolvesTrans(nodes0, rep0, copy, rep, nodes, uf.rep);
        StartedIs(copy, rep, gs0[|gs0| - 1], Graph(nodes, uf.rep, changed));
        gs := gs0 + [Graph(nodes, uf.rep, changed)];
        if !changed && |nodes| == |copy| {
          FinishedSwaps(copy, rep, nodes, uf.rep);
          ChainDone(sort, gs0, Graph(nodes, uf.rep, changed));
          NodesWithin();
          if OperatorMajor(sort) && AllCalm(nodes0, terms0) {
            CalmCloses(copy, rep, terms1, sort, nodes, uf.rep);
          }
          if AllCanonical(nodes, uf.rep) {
            CanonicalIsClosed(nodes, uf.rep);
          }
          return;
        }
        RoundsGrow(sort, gs0, Graph(nodes, uf.rep, changed));
        RoundDecreases(copy, rep, nodes, uf.rep, changed);
        DroppedIs(rep, uf.rep);
      }
    }

    lemma ValidSound()
      requires Valid()
      ensures Sound(nodes, uf.rep, terms)
    {
    }

    static lemma SaturationStarts(sort: Sort, nodes: map<Node, nat>, rep: seq<nat>)
      ensures Rounds(sort, [Graph(nodes, rep, false)]) && Evolves(nodes, rep, nodes, rep)
    {
      AppendNothing(nodes, rep);
      AppendedEvolves(nodes, rep, nodes, rep);
    }

    static lemma RoundsGrow(sort: Sort, gs: seq<Graph>, g: Graph)
      requires Rounds(sort, gs) && Unfinished(gs[|gs| - 1], g) && g == VisitAll(Started(gs[|gs| - 1]), sort(gs[|gs| - 1].nodes.Keys))
      ensures Rounds(sort, gs + [g])
    {
      hide VisitAll, Unfinished;
      var gs' := gs + [g];
      forall i: nat | i + 1 < |gs'|
        ensures RoundAt(sort, gs', i) && Unfinished(gs'[i], gs'[i + 1])
      {
        assert i + 1 < |gs| ==> RoundAt(sort, gs, i);
      }
    }

    static lemma ChainDone(sort: Sort, gs: seq<Graph>, g: Graph)
      requires Rounds(sort, gs) && !Unfinished(gs[|gs| - 1], g) && g == VisitAll(Started(gs[|gs| - 1]), sort(gs[|gs| - 1].nodes.Keys))
      ensures Chain(sort, gs + [g])
    {
      assert (gs + [g])[..|gs|] == gs;
    }

    static lemma StartedIs(nodes: map<Node, nat>, rep: seq<nat>, g: Graph, g': Graph)
      requires g.nodes == nodes && g.rep == rep
      ensures Started(g) == Graph(nodes, rep, false) && (Unfinished(g, g') <==> g'.changed || |g'.nodes| != |nodes|)
    {
    }

    static lemma DroppedIs(rep: seq<nat>, rep': seq<nat>)
      ensures Dropped(rep, rep') ==> |Roots(rep')| < |Roots(rep)|
    {
    }

    /** Calm graphs have the children first in the order of the source. */
    static lemma CalmCloses(copy: map<Node, nat>, rep0: seq<nat>, terms: seq<Fp>, sort: Sort, nodes: map<Node, nat>, rep: seq<nat>)
      requires Sound(copy, rep0, terms) && AllCalm(copy, terms) && GraphOk(Graph(copy, rep0, false)) && Sorts(sort) && OperatorMajor(sort)
      requires VisitAll(Graph(copy, rep0, false), sort(copy.Keys)) == Graph(nodes, rep, false) && |nodes| == |copy|
      ensures AllCanonical(nodes, rep)
    {
      var g, order := Graph(copy, rep0, false), sort(copy.Keys);
      var level: nat -> nat := (i: nat) => if i < |terms| then Kind(terms[i]) else 6;
      KindLevels(copy, rep0, terms, level);
      SortedOnce(sort, copy.Keys);
      SortedMajor(sort, copy.Keys);
      hide VisitAll, AllCanonical, Levels, Sound;
      CalmChildrenFirst(copy, rep0, terms, level, order);
      ChildrenFirstCloses(g, order, level);
    }

    static lemma SortedMajor(sort: Sort, s: set<Node>)
      requires OperatorMajor(sort)
      ensures MajorOrder(sort(s))
    {
    }

    static lemma NodeSoundKind(n: Node, i: nat, terms: seq<Fp>)
      requires NodeSound(n, i, terms)
      ensures Kind(terms[i]) == NodeKind(n)
    {
      ShapeKind(TermOf(n, terms), false, terms[i], false);
    }

    static lemma KindLevels(nodes: map<Node, nat>, rep: seq<nat>, terms: seq<Fp>, level: nat -> nat)
      requires Sound(nodes, rep, terms) && forall i: nat :: level(i) == if i < |terms| then Kind(terms[i]) else 6
      ensures Levels(Graph(nodes, rep, false), level)
    {
      forall i: nat | i < |rep|
        ensures level(rep[i]) == level(i)
      {
        assert RepSound(rep, terms, i);
        ShapeKind(terms[i], false, terms[rep[i]], false);
      }
      hide Kind, ShapeOf;
      forall n | n in nodes && Commutative(n) && Swap(n) in nodes
        ensures level(nodes[Swap(n)]) == level(nodes[n])
      {
        SoundAt(nodes, rep, terms, n);
        SoundAt(nodes, rep, terms, Swap(n));
        NodeSoundKind(n, nodes[n], terms);
        NodeSoundKind(Swap(n), nodes[Swap(n)], terms);
      }
    }

    static lemma CalmChildrenFirst(nodes: map<Node, nat>, rep: seq<nat>, terms: seq<Fp>, level: nat -> nat, order: seq<Node>)
      requires Sound(nodes, rep, terms) && AllCalm(nodes, terms) && forall i: nat :: level(i) == if i < |terms| then Kind(terms[i]) else 6
      requires OrderOf(order, nodes.Keys) && MajorOrder(order)
      ensures ChildrenFirst(Graph(nodes, rep, false), order, level)
    {
      OrderKnown(Graph(nodes, rep, false), order);
      forall j, k | 0 <= j <= k < |order| && Commutative(order[k])
        ensures !LevelOperand(order[j], level, level(nodes[order[k]]))
      {
        SoundAt(nodes, rep, terms, order[k]);
        NodeSoundKind(order[k], nodes[order[k]], terms);
        assert NodeCalm(order[j], terms);
        SoundAt(nodes, rep, terms, order[j]);
        hide Kind, ShapeOf, ShapeWith;
      }
    }
  }

  // ----- no graph of terms goes in circles ------------------------------------

  lemma NodeHeight(n: Node, i: nat, terms: seq<Fp>)
    requires NodeSound(n, i, terms)
    ensures Height(terms[i]) == Height(TermOf(n, terms))
    ensures forall a: nat :: HasOperand(n, a) ==> a < |terms| && Height(terms[a]) < Height(terms[i])
  {
    ShapeHeight(TermOf(n, terms), false, terms[i], false);
  }

  lemma SwapHeight(n: Node, terms: seq<Fp>)
    requires Within(n, |terms|) && n.BinNode?
    ensures Height(TermOf(Swap(n), terms)) == Height(TermOf(n, terms))
  {
  }

  lemma SoundHeights(nodes: map<Node, nat>, rep: seq<nat>, terms: seq<Fp>, height: nat -> nat)
    requires Sound(nodes, rep, terms) && forall i: nat :: height(i) == if i < |terms| then Height(terms[i]) else 0
    ensures Heights(Graph(nodes, rep, false), height)
  {
    forall i: nat | i < |rep|
      ensures height(rep[i]) == height(i)
    {
      assert RepSound(rep, terms, i);
      ShapeHeight(terms[i], false, terms[rep[i]], false);
    }
    hide Height, ShapeOf, TermOf;
    forall n | n in nodes && Commutative(n) && Swap(n) in nodes
      ensures height(nodes[Swap(n)]) == height(nodes[n])
    {
      EGraph.SoundAt(nodes, rep, terms, n);
      EGraph.SoundAt(nodes, rep, terms, Swap(n));
      NodeHeight(n, nodes[n], terms);
      NodeHeight(Swap(n), nodes[Swap(n)], terms);
      SwapHeight(n, terms);
    }
    forall n, a: nat | n in nodes && HasOperand(n, a)
      ensures height(a) < height(nodes[n])
    {
      EGraph.SoundAt(nodes, rep, terms, n);
      NodeHeight(n, nodes[n], terms);
    }
  }

  /** A round over the graph of an e-graph, in any order in which it is the last one,
      leaves no operand stale if and only if the graph splits no operand. */
  lemma LastRoundIff(nodes: map<Node, nat>, rep: seq<nat>, terms: seq<Fp>)
    requires Sound(nodes, rep, terms) && GraphOk(Graph(nodes, rep, false)) && AllCanonical(nodes, rep) && HasSwaps(nodes)
    ensures var g := Graph(nodes, rep, false);
      (forall order :: OrderOf(order, nodes.Keys) && LastRound(g, order) ==> AllCanonical(VisitAll(g, order).nodes, VisitAll(g, order).rep)) <==>
      forall n, m :: !OperandSplit(g, n, m)
  {
    var height: nat -> nat := (i: nat) => if i < |terms| then Height(terms[i]) else 0;
    SoundHeights(nodes, rep, terms, height);
    var g := Graph(nodes, rep, false);
    assert Started(g) == g;
    hide VisitAll, LastRound, OrderOf, AllCanonical, Heights, Sound, HasSwaps, OperandSplit, GraphOk;
    StaleIffSplit(g, height);
  }

  // ----- the order of the source ---------------------------------------------

  /** The order in which the map of nodes is iterated over. */
  type Sort = set<Node> -> seq<Node>

  ghost predicate Sorts(sort: Sort) {
    forall s :: OrderOf(sort(s), s)
  }

  /** Nodes compare by their operation first. */
  ghost predicate MajorOrder(order: seq<Node>) {
    forall i, j :: 0 <= i < j < |order| ==> NodeKind(order[i]) <= NodeKind(order[j])
  }

  ghost predicate OperatorMajor(sort: Sort) {
    forall s :: MajorOrder(sort(s))
  }

  /** A round is unfinished business if it has removed a node or added one. */
  predicate Unfinished(g: Graph, g': Graph) {
    g'.changed || |g'.nodes| != |g.nodes|
  }

  /** Rounds, all of them unfinished. */
  ghost predicate Rounds(sort: Sort, gs: seq<Graph>) {
    |gs| > 0 && forall i: nat :: i + 1 < |gs| ==> RoundAt(sort, gs, i) && Unfinished(gs[i], gs[i + 1])
  }

  ghost predicate RoundAt(sort: Sort, gs: seq<Graph>, i: nat)
    requires i + 1 < |gs|
  {
    gs[i + 1] == VisitAll(Started(gs[i]), sort(gs[i].nodes.Keys))
  }

  /** All rounds of a saturation, from its start to its end. */
  ghost predicate Chain(sort: Sort, gs: seq<Graph>) {
    |gs| >= 2 && Rounds(sort, gs[..|gs| - 1]) && RoundAt(sort, gs, |gs| - 2) && !Unfinished(gs[|gs| - 2], gs[|gs| - 1])
  }
}
