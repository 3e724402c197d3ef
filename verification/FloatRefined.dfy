/** The comparison of two floating-point terms by the classes of the e-graph
    (ir/fast_math.cpp): when it is right, and terms for which it is not. */
module FloatRefined {
  import opened UnionFindForest
  import opened FpTerms
  import opened EGraphRounds
  import opened FastMath

  // ----- closed graphs decide ------------------------------------------------

  /** In a closed graph, nodes that are equal up to classes and order are in one class. */
  lemma StandsSame(n0: Node, i: nat, m0: Node, j: nat, nodes: map<Node, nat>, rep: seq<nat>)
    requires CongruenceClosed(nodes, rep) && Stands(n0, i, nodes, rep) && Stands(m0, j, nodes, rep)
    requires Rooted(m0, rep) == Rooted(n0, rep) || (Commutative(n0) && Rooted(m0, rep) == Swap(Rooted(n0, rep)))
    ensures i < |rep| && j < |rep| && rep[i] == rep[j]
  {
    var n :| n in nodes && nodes[n] < |rep| && Within(n, |rep|) && Rooted(n, rep) == Rooted(n0, rep) && rep[nodes[n]] == rep[i];
    var m :| m in nodes && nodes[m] < |rep| && Within(m, |rep|) && Rooted(m, rep) == Rooted(m0, rep) && rep[nodes[m]] == rep[j];
    assert Congruent(n, m, rep);
  }

  /** In a closed graph, terms of the same shape are in one class. */
  lemma {:induction false} FiledSame(s: Fp, i: nat, t: Fp, j: nat, nodes: map<Node, nat>, rep: seq<nat>)
    requires CongruenceClosed(nodes, rep) && Filed(s, i, nodes, rep) && Filed(t, j, nodes, rep) && ShapeOf(s) == ShapeOf(t)
    ensures i < |rep| && j < |rep| && rep[i] == rep[j]
    decreases s
  {
    var u, v := CoreOf(s), CoreOf(t);
    ShapeOfCore(s, false);
    ShapeOfCore(t, false);
    ShapeAlike(u, s.Reassoc?, v, t.Reassoc?);
    hide ShapeOf, ShapeWith, CongruenceClosed, Stands;
    match u
    case Bin(op, r, a, b) =>
      var x: nat, y: nat :| Filed(a, x, nodes, rep) && Filed(b, y, nodes, rep) && Stands(BinNode(op, r, x, y, s.Reassoc?), i, nodes, rep);
      var x': nat, y': nat :| Filed(v.a, x', nodes, rep) && Filed(v.b, y', nodes, rep) && Stands(BinNode(op, r, x', y', t.Reassoc?), j, nodes, rep);
      if ShapeOf(a) == ShapeOf(v.a) && ShapeOf(b) == ShapeOf(v.b) {
        FiledSame(a, x, v.a, x', nodes, rep);
        FiledSame(b, y, v.b, y', nodes, rep);
      } else {
        FiledSame(a, x, v.b, y', nodes, rep);
        FiledSame(b, y, v.a, x', nodes, rep);
      }
      StandsSame(BinNode(op, r, x, y, s.Reassoc?), i, BinNode(op, r, x', y', t.Reassoc?), j, nodes, rep);
    case Neg(a) =>
      var x: nat :| Filed(a, x, nodes, rep) && Stands(NegNode(x, s.Reassoc?), i, nodes, rep);
      var x': nat :| Filed(v.a, x', nodes, rep) && Stands(NegNode(x', t.Reassoc?), j, nodes, rep);
      FiledSame(a, x, v.a, x', nodes, rep);
      StandsSame(NegNode(x, s.Reassoc?), i, NegNode(x', t.Reassoc?), j, nodes, rep);
    case Leaf(l) =>
      StandsSame(LeafNode(l, s.Reassoc?), i, LeafNode(l, t.Reassoc?), j, nodes, rep);
  }

  lemma ClassSound(nodes: map<Node, nat>, rep: seq<nat>, terms: seq<Fp>, i: nat, j: nat)
    requires Sound(nodes, rep, terms) && i < |rep| && j < |rep| && rep[i] == rep[j]
    ensures ShapeOf(terms[i]) == ShapeOf(terms[j])
  {
    assert RepSound(rep, terms, i) && RepSound(rep, terms, j);
  }

  // ----- the comparison ------------------------------------------------------

  /** The graph of two terms, and their identifiers. */
  function BuiltFrom(a: Fp, b: Fp): (Graph, nat, nat) {
    var (n1, s1, i) := Inserted(map[], 0, a);
    var (n2, s2, j) := Inserted(n1, s1, b);
    (Graph(n2, seq(s2, x => x), false), i, j)
  }

  /** The answer is read off the end of all rounds. */
  ghost predicate Answers(sort: Sort, a: Fp, b: Fp, gs: seq<Graph>, same: bool) {
    var (g, i, j) := BuiltFrom(a, b);
    && |gs| > 0 && gs[0] == g
    && if i == j then same
       else Chain(sort, gs) && i < |gs[|gs| - 1].rep| && j < |gs[|gs| - 1].rep| && (same <==> gs[|gs| - 1].rep[i] == gs[|gs| - 1].rep[j])
  }

  /** `float_refined`, up to the comparison of roots: they are equal only for terms of the
      same shape, which have the same value in every world.  In a graph that ends up
      closed they are equal exactly for those; so they are if operators are visited in the
      order of the source and the terms are calm. */
  method SameClass(sort: Sort, a: Fp, b: Fp) returns (same: bool, ghost gs: seq<Graph>)
    requires Sorts(sort)
    ensures same ==> ShapeOf(a) == ShapeOf(b) && Same(a, b)
    ensures OperatorMajor(sort) && Calm(a) && Calm(b) ==> (same <==> ShapeOf(a) == ShapeOf(b))
    ensures Answers(sort, a, b, gs, same) && |gs| > 0
    ensures CongruenceClosed(gs[|gs| - 1].nodes, gs[|gs| - 1].rep) ==> (same <==> ShapeOf(a) == ShapeOf(b))
  {
    hide *;
    var g := new EGraph();
    CalmNothing(g.terms);
    var na := g.Get(a);
    ghost var nodes1, rep1, terms1 := g.nodes, g.uf.rep, g.terms;
    var nb := g.Get(b);
    ghost var nodes2, rep2, terms2 := g.nodes, g.uf.rep, g.terms;
    SizesOf(g);
    BuiltIs(a, b, nodes1, |terms1|, na, nodes2, |terms2|, nb, rep1, rep2);
    if na == nb {
      SameTermShape(terms1, terms2, na, nb, a, b);
      ShapeSame(a, b);
      same, gs := true, [Graph(nodes2, rep2, false)];
      AnswerNow(sort, a, b, gs);
      return;
    } else {
      AppendedEvolves(nodes1, rep1, nodes2, rep2);
      FiledKept(a, na, nodes1, rep1, nodes2, rep2);
      ShapeKept(terms1, terms2, na);
      same, gs := CompareRoots(g, sort, a, b, na, nb);
      AnswerIs(sort, a, b, gs, same, na, nb);
    }
  }

  lemma ShapeKept(terms1: seq<Fp>, terms: seq<Fp>, i: nat)
    requires terms1 <= terms && i < |terms1|
    ensures i < |terms| && ShapeOf(terms[i]) == ShapeOf(terms1[i])
  {
    hide ShapeOf;
  }

  /** Saturates the graph and compares the roots of two terms. */
  method CompareRoots(g: EGraph, sort: Sort, ghost a: Fp, ghost b: Fp, na: nat, nb: nat) returns (same: bool, ghost gs: seq<Graph>)
    requires g.Valid() && Sorts(sort) && na < |g.terms| && nb < |g.terms| && ShapeOf(g.terms[na]) == ShapeOf(a) && ShapeOf(g.terms[nb]) == ShapeOf(b)
    requires Filed(a, na, g.nodes, g.uf.rep) && Filed(b, nb, g.nodes, g.uf.rep)
    modifies g, g.uf
    ensures same ==> ShapeOf(a) == ShapeOf(b) && Same(a, b)
    ensures OperatorMajor(sort) && AllCalm(old(g.nodes), old(g.terms)) ==> (same <==> ShapeOf(a) == ShapeOf(b))
    ensures Chain(sort, gs) && |gs| >= 2 && gs[0] == Graph(old(g.nodes), old(g.uf.rep), false)
    ensures CongruenceClosed(gs[|gs| - 1].nodes, gs[|gs| - 1].rep) ==> (same <==> ShapeOf(a) == ShapeOf(b))
    ensures na < |gs[|gs| - 1].rep| && nb < |gs[|gs| - 1].rep| && (same <==> gs[|gs| - 1].rep[na] == gs[|gs| - 1].rep[nb])
  {
    ghost var nodes0, rep0, terms0 := g.nodes, g.uf.rep, g.terms;
    hide *;
    gs := g.Saturate(sort);
    ChainSome(sort, gs);
    ShapeKept(terms0, g.terms, na);
    ShapeKept(terms0, g.terms, nb);
    var ra := g.Root(na);
    var rb := g.Root(nb);
    same := ra == rb;
    SizesOf(g);
    FiledKept(a, na, nodes0, rep0, g.nodes, g.uf.rep);
    FiledKept(b, nb, nodes0, rep0, g.nodes, g.uf.rep);
    g.ValidSound();
    if same {
      ClassSound(g.nodes, g.uf.rep, g.terms, na, nb);
      ShapeSame(a, b);
    }
    if CongruenceClosed(g.nodes, g.uf.rep) && ShapeOf(a) == ShapeOf(b) {
      FiledSame(a, na, b, nb, g.nodes, g.uf.rep);
    }
  }

  lemma CalmNothing(terms: seq<Fp>)
    ensures AllCalm(map[], terms)
  {
  }

  lemma SizesOf(g: EGraph)
    requires g.Valid()
    ensures |g.uf.rep| == |g.terms|
  {
  }

  lemma ChainSome(sort: Sort, gs: seq<Graph>)
    requires Chain(sort, gs)
    ensures |gs| >= 2
  {
  }

  lemma SameTermShape(terms1: seq<Fp>, terms: seq<Fp>, i: nat, j: nat, a: Fp, b: Fp)
    requires terms1 <= terms && i < |terms1| && j < |terms| && ShapeOf(terms1[i]) == ShapeOf(a) && ShapeOf(terms[j]) == ShapeOf(b)
    requires ShapeOf(terms[i]) == ShapeOf(terms[j])
    ensures ShapeOf(a) == ShapeOf(b)
  {
  }

  lemma BuiltIs(a: Fp, b: Fp, n1: map<Node, nat>, s1: nat, i: nat, n2: map<Node, nat>, s2: nat, j: nat, rep1: seq<nat>, rep2: seq<nat>)
    requires (n1, s1, i) == Inserted(map[], 0, a) && (n2, s2, j) == Inserted(n1, s1, b)
    requires Appended(map[], [], n1, rep1) && Appended(n1, rep1, n2, rep2) && |rep2| == s2
    ensures BuiltFrom(a, b) == (Graph(n2, rep2, false), i, j)
  {
    hide Inserted;
    assert rep2 == seq(s2, x => x);
  }

  lemma AnswerIs(sort: Sort, a: Fp, b: Fp, gs: seq<Graph>, same: bool, i: nat, j: nat)
    requires Chain(sort, gs) && BuiltFrom(a, b) == (gs[0], i, j) && i != j && i < |gs[|gs| - 1].rep| && j < |gs[|gs| - 1].rep|
    requires same <==> gs[|gs| - 1].rep[i] == gs[|gs| - 1].rep[j]
    ensures Answers(sort, a, b, gs, same)
  {
    ChainSome(sort, gs);
    hide Chain, BuiltFrom;
  }

  lemma AnswerNow(sort: Sort, a: Fp, b: Fp, gs: seq<Graph>)
    requires |gs| > 0 && BuiltFrom(a, b).0 == gs[0] && BuiltFrom(a, b).1 == BuiltFrom(a, b).2
    ensures Answers(sort, a, b, gs, true)
  {
  }

  // ----- terms for which it is not -------------------------------------------

  const X := Leaf(0)
  const Y := Leaf(1)
  const Z := Leaf(2)

  /** (x * y) - z and (y * x) - z. */
  function Difference(): Fp {
    Bin(Sub, 0, Bin(Mul, 0, X, Y), Z)
  }

  function Commuted(): Fp {
    Bin(Sub, 0, Bin(Mul, 0, Y, X), Z)
  }

  lemma DifferencesSame()
    ensures ShapeOf(Difference()) == ShapeOf(Commuted()) && Same(Difference(), Commuted())
  {
    var x, y := ShapeOf(X), ShapeOf(Y);
    assert multiset{x, y} == multiset{y, x};
    OuterShape(Bin(Mul, 0, X, Y), false);
    OuterShape(Bin(Mul, 0, Y, X), false);
    OuterShape(Difference(), false);
    OuterShape(Commuted(), false);
    hide ShapeWith;
    ShapeSame(Difference(), Commuted());
  }

  const XY := BinNode(Mul, 0, 2, 1, false)
  const YX := BinNode(Mul, 0, 1, 2, false)
  const XY_Z := BinNode(Sub, 0, 3, 0, false)
  const YX_Z := BinNode(Sub, 0, 5, 0, false)

  function Differences(): map<Node, nat> {
    map[LeafNode(2, false) := 0, LeafNode(1, false) := 1, LeafNode(0, false) := 2, XY := 3, XY_Z := 4, YX := 5, YX_Z := 6]
  }

  function DifferenceGraph(): Graph {
    Graph(Differences(), [0, 1, 2, 3, 4, 5, 6], false)
  }

  /** What two calls of `get` build. */
  lemma DifferencesBuilt()
    ensures BuiltFrom(Difference(), Commuted()) == (DifferenceGraph(), 4, 6)
  {
    var z, y, x := LeafNode(2, false), LeafNode(1, false), LeafNode(0, false);
    var m0: map<Node, nat> := map[];
    var m3 := m0[z := 0][y := 1][x := 2];
    assert Inserted(m0, 0, Z) == (m0[z := 0], 1, 0);
    assert Inserted(m0[z := 0], 1, Y) == (m0[z := 0][y := 1], 2, 1);
    assert Inserted(m0[z := 0][y := 1], 2, X) == (m3, 3, 2);
    assert Inserted(m0[z := 0], 1, Bin(Mul, 0, X, Y)) == (m3[XY := 3], 4, 3);
    var m5 := m3[XY := 3][XY_Z := 4];
    assert Inserted(m0, 0, Difference()) == (m5, 5, 4);
    assert Inserted(m5, 5, Z) == (m5, 5, 0) && Inserted(m5, 5, X) == (m5, 5, 2) && Inserted(m5, 5, Y) == (m5, 5, 1);
    assert Inserted(m5, 5, Bin(Mul, 0, Y, X)) == (m5[YX := 5], 6, 5);
    assert Inserted(m5, 5, Commuted()) == (m5[YX := 5][YX_Z := 6], 7, 6);
    assert m5[YX := 5][YX_Z := 6] == Differences();
    assert seq(7, i => i) == [0, 1, 2, 3, 4, 5, 6];
  }

  function DifferenceHeight(i: nat): nat {
    if i == 4 || i == 6 then 2 else if i == 3 || i == 5 then 1 else 0
  }

  /** Differences come before products, and products before leaves. */
  lemma DifferencesFirst(order: seq<Node>)
    requires OrderOf(order, Differences().Keys) && MajorOrder(order)
    ensures HeightsFall(DifferenceGraph(), order, DifferenceHeight)
  {
    var g := DifferenceGraph();
    OrderKnown(g, order);
    forall i, j | 0 <= i < j < |order|
      ensures DifferenceHeight(g.nodes[order[i]]) >= DifferenceHeight(g.nodes[order[j]])
    {
      assert NodeKind(order[i]) <= NodeKind(order[j]);
    }
  }

  function DifferenceNode(i: nat): Node {
    match i
    case 0 => LeafNode(2, false)
    case 1 => LeafNode(1, false)
    case 2 => LeafNode(0, false)
    case 3 => XY
    case 4 => XY_Z
    case 5 => YX
    case _ => YX_Z
  }

  lemma DifferencesAre(n: Node)
    requires n in Differences()
    ensures Differences()[n] < 7 && n == DifferenceNode(Differences()[n])
  {
  }

  lemma ProductsSwapped()
    ensures Swap(XY) == YX && Swap(YX) == XY && XY in Differences() && YX in Differences() && Differences()[XY] == 3 && Differences()[YX] == 5
  {
  }

  lemma DifferencesOk()
    ensures var g := DifferenceGraph();
      GraphOk(g) && AllCanonical(g.nodes, g.rep) && HasSwaps(g.nodes) && Heights(g, DifferenceHeight)
  {
    var g := DifferenceGraph();
    ProductsSwapped();
    hide Differences;
    forall n | n in g.nodes
      ensures g.nodes[n] < 7 && Within(n, 7) && Canonical(n, g.rep)
      ensures Commutative(n) ==> Swap(n) in g.nodes && DifferenceHeight(g.nodes[Swap(n)]) == DifferenceHeight(g.nodes[n])
    {
      DifferencesAre(n);
    }
    forall n, a: nat | n in g.nodes && HasOperand(n, a)
      ensures DifferenceHeight(a) < DifferenceHeight(g.nodes[n])
    {
      DifferencesAre(n);
    }
  }

  /** Classes at a height without sums and products stay as they are. */
  lemma {:induction false} HeightUntouched(g: Graph, order: seq<Node>, height: nat -> nat, l: nat, k: nat)
    requires GraphOk(g) && AllCanonical(g.nodes, g.rep) && HasSwaps(g.nodes) && Heights(g, height) && HeightsFall(g, order, height) && k <= |order|
    requires forall n :: n in g.nodes && Commutative(n) ==> height(g.nodes[n]) != l
    ensures var rep := RepsAfter(g.nodes, g.rep, order[..k]); |rep| == |g.rep| && forall i: nat :: i < |rep| && height(i) == l ==> rep[i] == g.rep[i]
    decreases k
  {
    ParentsFirst(g, order, height, k);
    if k == 0 {
      NoneVisited(g, order);
    } else {
      var h := k - 1;
      HeightUntouched(g, order, height, l, h);
      ParentsFirst(g, order, height, h);
      RepsNth(g.nodes, g.rep, order, h);
      hide RepsAfter, Rooted;
    }
  }

  /** If parents come first, no root of a difference changes in the first round. */
  lemma DifferencesRound(order: seq<Node>)
    requires OrderOf(order, Differences().Keys) && MajorOrder(order)
    ensures var g := DifferenceGraph();
      var rep := RepsAfter(g.nodes, g.rep, order);
      VisitAll(Started(g), order) == Graph(g.nodes, rep, false) && |rep| == 7 && rep[4] != rep[6]
  {
    var g := DifferenceGraph();
    DifferencesOk();
    hide *;
    DifferenceGraphIs();
    DifferencesFirst(order);
    AllTurns(g, order, DifferenceHeight);
    OrderKnown(g, order);
    DifferencesTurns(order);
    NoSumsOnTop(g);
    HeightUntouched(g, order, DifferenceHeight, 2, |order|);
    AllVisited(order);
    DifferentRoots(g, RepsAfter(g.nodes, g.rep, order));
  }

  lemma DifferencesTurns(order: seq<Node>)
    requires var g := DifferenceGraph();
      && (forall i :: 0 <= i < |order| ==> order[i] in g.nodes)
      && forall i :: 0 <= i < |order| ==> Rooted(order[i], RepsAfter(g.nodes, g.rep, order[..i])) == order[i]
    ensures var g := DifferenceGraph(); VisitAll(Started(g), order) == Graph(g.nodes, RepsAfter(g.nodes, g.rep, order), false)
  {
    var g := DifferenceGraph();
    DifferencesOk();
    hide *;
    CanonicalTurns(g, order, |order|);
    AllVisited(order);
  }

  lemma DifferenceGraphIs()
    ensures DifferenceGraph().nodes == Differences() && DifferenceGraph().rep == [0, 1, 2, 3, 4, 5, 6] && !DifferenceGraph().changed
  {
  }

  /** In the order of the source, the comparison answers that the two differ: the products
      are joined after the differences have been visited, in a round that adds no node. */
  lemma DifferencesApart(sort: Sort, gs: seq<Graph>, same: bool)
    requires Sorts(sort) && OperatorMajor(sort) && Answers(sort, Difference(), Commuted(), gs, same)
    ensures !same
  {
    var g := DifferenceGraph();
    DifferencesBuilt();
    hide *;
    DifferenceGraphIs();
    AnswerParts(sort, Difference(), Commuted(), gs, same, g, 4, 6);
    var order := sort(g.nodes.Keys);
    EGraph.SortedOnce(sort, g.nodes.Keys);
    EGraph.SortedMajor(sort, g.nodes.Keys);
    DifferencesRound(order);
    OneRound(sort, gs, g, order);
  }

  lemma DifferentRoots(g: Graph, rep: seq<nat>)
    requires g.rep == [0, 1, 2, 3, 4, 5, 6] && |rep| == |g.rep| && forall i: nat :: i < |rep| && DifferenceHeight(i) == 2 ==> rep[i] == g.rep[i]
    ensures rep[4] != rep[6]
  {
    TopHeights();
    assert rep[4] == 4 && rep[6] == 6;
  }

  lemma TopHeights()
    ensures DifferenceHeight(4) == 2 && DifferenceHeight(6) == 2
  {
  }

  lemma NoSumsOnTop(g: Graph)
    requires g.nodes == Differences()
    ensures forall n :: n in g.nodes && Commutative(n) ==> DifferenceHeight(g.nodes[n]) != 2
  {
  }

  lemma AnswerParts(sort: Sort, a: Fp, b: Fp, gs: seq<Graph>, same: bool, g: Graph, i: nat, j: nat)
    requires Answers(sort, a, b, gs, same) && BuiltFrom(a, b) == (g, i, j) && i != j
    ensures |gs| > 0 && gs[0] == g && Chain(sort, gs) && i < |gs[|gs| - 1].rep| && j < |gs[|gs| - 1].rep| && (same <==> gs[|gs| - 1].rep[i] == gs[|gs| - 1].rep[j])
  {
    hide Chain, BuiltFrom;
  }

  lemma FirstUnfinished(sort: Sort, gs: seq<Graph>)
    requires Chain(sort, gs)
    ensures |gs| > 2 ==> gs[1] == VisitAll(Started(gs[0]), sort(gs[0].nodes.Keys)) && Unfinished(gs[0], gs[1])
  {
    hide VisitAll, Unfinished;
    var front := gs[..|gs| - 1];
    assert |gs| > 2 ==> RoundAt(sort, front, 0) && Unfinished(front[0], front[0 + 1]);
  }

  /** The first round leaves the nodes as they are, so that it is the last one. */
  lemma OneRound(sort: Sort, gs: seq<Graph>, g: Graph, order: seq<Node>)
    requires Chain(sort, gs) && gs[0] == g && !g.changed && order == sort(g.nodes.Keys)
    requires VisitAll(Started(g), order) == Graph(g.nodes, RepsAfter(g.nodes, g.rep, order), false)
    ensures |gs| == 2 && gs[1].rep == RepsAfter(g.nodes, g.rep, order)
  {
    hide VisitAll, RepsAfter;
    FirstUnfinished(sort, gs);
    assert RoundAt(sort, gs, |gs| - 2);
  }

  /** The failing comparison, run. */
  method CompareDifferences(sort: Sort) returns (same: bool)
    requires Sorts(sort) && OperatorMajor(sort)
    ensures !same && Same(Difference(), Commuted())
  {
    hide *;
    DifferencesSame();
    ghost var gs;
    same, gs := SameClass(sort, Difference(), Commuted());
    DifferencesApart(sort, gs, same);
  }
}
