/** The graph side of saturation (ir/fast_math.cpp): nodes over classes, what one round
    does to them in a given order of visits, and when it may be the last one. */
module EGraphRounds {
  import opened UnionFindForest
  import opened FpTerms

  /** A node has identifiers of nodes as its operands. */
  datatype Node =
    | BinNode(op: Op, rounding: nat, a: nat, b: nat, reassoc: bool)
    | NegNode(a: nat, reassoc: bool)
    | LeafNode(x: nat, reassoc: bool)

  predicate Commutative(n: Node) {
    n.BinNode? && (n.op == Add || n.op == Mul)
  }

  function Swap(n: Node): Node {
    if n.BinNode? then n.(a := n.b, b := n.a) else n
  }

  predicate Within(n: Node, size: nat) {
    (n.BinNode? ==> n.a < size && n.b < size) && (n.NegNode? ==> n.a < size)
  }

  // ----- how classes evolve --------------------------------------------------

  ghost predicate ValidRep(rep: seq<nat>) {
    forall i: nat :: i < |rep| ==> rep[i] < |rep| && rep[rep[i]] == rep[i]
  }

  ghost function Roots(rep: seq<nat>): set<nat> {
    set i: nat | i < |rep| && rep[i] == i
  }

  /** No two old classes have been joined, and their representatives are the same. */
  ghost predicate Quiet(rep: seq<nat>, rep': seq<nat>) {
    |rep| <= |rep'| && rep'[..|rep|] == rep && Roots(rep') == Roots(rep)
  }

  ghost predicate Dropped(rep: seq<nat>, rep': seq<nat>) {
    |Roots(rep')| < |Roots(rep)|
  }

  /** Classes only grow, and there are fewer of them unless nothing has happened. */
  ghost predicate Grown(rep: seq<nat>, rep': seq<nat>) {
    && |rep| <= |rep'|
    && (forall i: nat, j: nat :: i < |rep| && j < |rep| && rep[i] == rep[j] ==> rep'[i] == rep'[j])
    && (Quiet(rep, rep') || Dropped(rep, rep'))
  }

  lemma GrownTrans(r: seq<nat>, r': seq<nat>, r'': seq<nat>)
    requires Grown(r, r') && Grown(r', r'')
    ensures Grown(r, r'')
    ensures Quiet(r, r'') ==> Quiet(r, r') && Quiet(r', r'')
  {
    if Quiet(r, r') && Quiet(r', r'') {
      assert r''[..|r|] == r''[..|r'|][..|r|];
    } else {
      assert Dropped(r, r'');
    }
  }

  /** A new identifier joins an old class, or two old classes are joined. */
  lemma JoinGrows(rep: seq<nat>, p: nat, q: nat)
    requires ValidRep(rep) && p < |rep| && q < |rep|
    ensures Grown(rep, Joined(rep, rep[p], rep[q]))
  {
    var rep' := Joined(rep, rep[p], rep[q]);
    if rep[p] == rep[q] {
      assert rep' == rep;
    } else {
      assert Roots(rep') == Roots(rep) - {rep[p]};
    }
  }

  lemma NewGrows(rep: seq<nat>, q: nat)
    requires ValidRep(rep) && q < |rep|
    ensures Grown(rep, Joined(rep + [|rep|], |rep|, rep[q]))
  {
    var rep' := Joined(rep + [|rep|], |rep|, rep[q]);
    assert rep'[..|rep|] == rep;
    assert Roots(rep') == Roots(rep);
  }

  // ----- saturation ----------------------------------------------------------

  /** Nodes with their classes, and whether a round has removed a node. */
  datatype Graph = Graph(nodes: map<Node, nat>, rep: seq<nat>, changed: bool)

  function RepOf(rep: seq<nat>, i: nat): nat {
    if i < |rep| then rep[i] else i
  }

  /** The node with the roots of its operands. */
  function Rooted(n: Node, rep: seq<nat>): Node {
    match n
    case BinNode(op, r, a, b, reassoc) => BinNode(op, r, RepOf(rep, a), RepOf(rep, b), reassoc)
    case NegNode(a, reassoc) => NegNode(RepOf(rep, a), reassoc)
    case LeafNode(_, _) => n
  }

  /** The graph once a node has joined the class of `n1`. */
  ghost function Declared(g: Graph, n: Node, n1: nat): Graph {
    if n in g.nodes then g.(rep := Joined(g.rep, RepOf(g.rep, g.nodes[n]), RepOf(g.rep, n1)))
    else Graph(g.nodes[n := |g.rep|], Joined(g.rep + [|g.rep|], |g.rep|, RepOf(g.rep, n1)), g.changed)
  }

  /** What a round does with one node. */
  ghost function VisitOne(g: Graph, n: Node): Graph {
    if n !in g.nodes then g
    else if Rooted(n, g.rep) != n then
      var d := Declared(g, Rooted(n, g.rep), g.nodes[n]);
      Graph(d.nodes - {n}, d.rep, true)
    else if Commutative(n) then Declared(g, Swap(n), g.nodes[n])
    else g
  }

  ghost function VisitAll(g: Graph, order: seq<Node>): Graph {
    if order == [] then g else VisitOne(VisitAll(g, order[..|order| - 1]), order[|order| - 1])
  }

  /** Every node, once. */
  ghost predicate OrderOf(order: seq<Node>, nodes: set<Node>) {
    (forall n :: n in nodes <==> n in order) && forall i, j :: 0 <= i < j < |order| ==> order[i] != order[j]
  }

  predicate Canonical(n: Node, rep: seq<nat>) {
    && (n.BinNode? ==> n.a < |rep| && n.b < |rep| && rep[n.a] == n.a && rep[n.b] == n.b)
    && (n.NegNode? ==> n.a < |rep| && rep[n.a] == n.a)
  }

  ghost predicate AllCanonical(nodes: map<Node, nat>, rep: seq<nat>) {
    forall n :: n in nodes ==> Canonical(n, rep)
  }

  ghost predicate HasSwaps(nodes: map<Node, nat>) {
    forall n :: n in nodes && Commutative(n) ==> Swap(n) in nodes
  }

  /** The commuted form of the node is in its class. */
  ghost predicate SwapKnown(n: Node, nodes: map<Node, nat>, rep: seq<nat>) {
    Commutative(n) ==>
      && n in nodes && Swap(n) in nodes && nodes[n] < |rep| && nodes[Swap(n)] < |rep|
      && rep[nodes[Swap(n)]] == rep[nodes[n]]
  }

  /** How far a graph without further joins is from being saturated. */
  ghost function Distance(nodes: map<Node, nat>, rep: seq<nat>): nat {
    if !AllCanonical(nodes, rep) then 2 else if !HasSwaps(nodes) then 1 else 0
  }

  /** The nodes of the copy not visited yet are still there. */
  ghost predicate Pending(copy: map<Node, nat>, todo: set<Node>, nodes: map<Node, nat>) {
    forall n :: n in todo ==> n in copy && n in nodes && nodes[n] == copy[n]
  }

  /** Without joins, visited and new nodes are canonical. */
  ghost predicate Settling(rep0: seq<nat>, todo: set<Node>, nodes: map<Node, nat>, rep: seq<nat>) {
    Quiet(rep0, rep) ==> forall n :: n in nodes ==> n in todo || Canonical(n, rep)
  }

  /** Without removals, the visited nodes have their swaps, and all new nodes are swaps. */
  ghost predicate OnlySwapped(copy: map<Node, nat>, todo: set<Node>, nodes: map<Node, nat>, rep: seq<nat>) {
    && (forall n :: n in copy ==> n in nodes && nodes[n] == copy[n])
    && (forall n :: n in copy && n !in todo ==> SwapKnown(n, nodes, rep))
    && (forall n :: n in nodes ==> n in copy || (Commutative(n) && Swap(n) in copy))
  }

  ghost predicate InRound(copy: map<Node, nat>, rep0: seq<nat>, todo: set<Node>, nodes: map<Node, nat>, rep: seq<nat>, changed: bool) {
    && Grown(rep0, rep)
    && Pending(copy, todo, nodes)
    && Settling(rep0, todo, nodes, rep)
    && (changed && Quiet(rep0, rep) ==> !AllCanonical(copy, rep0))
    && (!changed ==> OnlySwapped(copy, todo, nodes, rep))
  }

  /** An unfinished round has joined classes, or brought the graph closer to saturation. */
  lemma RoundDecreases(copy: map<Node, nat>, rep0: seq<nat>, nodes: map<Node, nat>, rep: seq<nat>, changed: bool)
    requires InRound(copy, rep0, {}, nodes, rep, changed) && (changed || |nodes| != |copy|)
    ensures Dropped(rep0, rep) || (Roots(rep) == Roots(rep0) && Distance(nodes, rep) < Distance(copy, rep0))
  {
    if Quiet(rep0, rep) {
      assert AllCanonical(nodes, rep);
      if !changed {
        assert HasSwaps(nodes) by {
          forall n | n in nodes && Commutative(n)
            ensures Swap(n) in nodes
          {
            assert n in copy ==> SwapKnown(n, nodes, rep);
            assert n !in copy ==> Swap(n) in copy;
          }
        }
        NothingNew(copy, nodes, rep);
      }
    }
  }

  lemma NothingNew(copy: map<Node, nat>, nodes: map<Node, nat>, rep: seq<nat>)
    requires OnlySwapped(copy, {}, nodes, rep)
    ensures HasSwaps(copy) ==> nodes == copy
  {
    if HasSwaps(copy) {
      forall n | n in nodes
        ensures n in copy
      {
        assert n !in copy ==> Swap(n) in copy && Swap(Swap(n)) == n;
      }
    }
  }

  lemma FinishedSwaps(copy: map<Node, nat>, rep0: seq<nat>, nodes: map<Node, nat>, rep: seq<nat>)
    requires InRound(copy, rep0, {}, nodes, rep, false) && |nodes| == |copy|
    ensures forall n :: n in nodes ==> SwapKnown(n, nodes, rep)
    ensures Grown(rep0, rep) && (Quiet(rep0, rep) ==> AllCanonical(nodes, rep))
  {
    assert copy.Keys <= nodes.Keys;
    SubsetSameSize(copy.Keys, nodes.Keys);
  }

  lemma SubsetSameSize(a: set<Node>, b: set<Node>)
    requires a <= b && |a| == |b|
    ensures a == b
  {
    if x :| x in b && x !in a {
      assert a <= b - {x};
      SubsetSize(a, b - {x});
    }
  }

  lemma SubsetSize(a: set<Node>, b: set<Node>)
    requires a <= b
    ensures |a| <= |b|
  {
    if x :| x in a {
      SubsetSize(a - {x}, b - {x});
    }
  }

  /** Equal operations on operands of equal classes, up to the order of the operands. */
  ghost predicate Congruent(n: Node, m: Node, rep: seq<nat>) {
    Rooted(m, rep) == Rooted(n, rep) || (Commutative(n) && Rooted(m, rep) == Swap(Rooted(n, rep)))
  }

  ghost predicate CongruenceClosed(nodes: map<Node, nat>, rep: seq<nat>) {
    forall n, m :: n in nodes && m in nodes && Congruent(n, m, rep) ==> RepOf(rep, nodes[n]) == RepOf(rep, nodes[m])
  }

  /** What a graph knows that saturation has left after a round without joins: congruent
      nodes are in one class. */
  lemma CanonicalIsClosed(nodes: map<Node, nat>, rep: seq<nat>)
    requires AllCanonical(nodes, rep) && forall x :: x in nodes ==> SwapKnown(x, nodes, rep) && nodes[x] < |rep|
    ensures CongruenceClosed(nodes, rep)
  {
    forall n, m | n in nodes && m in nodes && Congruent(n, m, rep)
      ensures RepOf(rep, nodes[n]) == RepOf(rep, nodes[m])
    {
      assert Canonical(n, rep) && Canonical(m, rep);
      assert Rooted(n, rep) == n && Rooted(m, rep) == m;
      assert SwapKnown(n, nodes, rep);
    }
  }

  // ----- the last round ------------------------------------------------------

  /** Classes and nodes refer to what exists. */
  ghost predicate GraphOk(g: Graph) {
    ValidRep(g.rep) && forall n :: n in g.nodes ==> g.nodes[n] < |g.rep| && Within(n, |g.rep|)
  }

  ghost function Started(g: Graph): Graph {
    g.(changed := false)
  }

  /** The round in this order is the last one: it removes no node, and adds none. */
  ghost predicate LastRound(g: Graph, order: seq<Node>) {
    var g' := VisitAll(Started(g), order);
    !g'.changed && |g'.nodes| == |g.nodes|
  }

  /** The classes after visiting a canonical node. */
  ghost function RepAfter(nodes: map<Node, nat>, rep: seq<nat>, n: Node): seq<nat> {
    if Commutative(n) && n in nodes && Swap(n) in nodes then Joined(rep, RepOf(rep, nodes[Swap(n)]), RepOf(rep, nodes[n])) else rep
  }

  ghost function RepsAfter(nodes: map<Node, nat>, rep: seq<nat>, order: seq<Node>): seq<nat> {
    if order == [] then rep else RepAfter(nodes, RepsAfter(nodes, rep, order[..|order| - 1]), order[|order| - 1])
  }

  /** As long as no node is removed, nodes are only added. */
  ghost predicate Continues(g: Graph, g': Graph) {
    !g'.changed ==> !g.changed && forall n :: n in g.nodes ==> n in g'.nodes && g'.nodes[n] == g.nodes[n]
  }

  lemma VisitContinues(g: Graph, n: Node)
    ensures Continues(g, VisitOne(g, n))
  {
    hide Rooted, Joined;
  }

  lemma {:induction false} PrefixContinues(g: Graph, order: seq<Node>, k: nat)
    requires k <= |order|
    ensures Continues(VisitAll(g, order[..k]), VisitAll(g, order))
    decreases |order|
  {
    if k < |order| {
      var n := |order| - 1;
      assert order[..n][..k] == order[..k];
      PrefixContinues(g, order[..n], k);
      VisitContinues(VisitAll(g, order[..n]), order[n]);
      hide VisitOne;
    } else {
      assert order[..k] == order;
    }
  }

  lemma VisitNth(g: Graph, order: seq<Node>, k: nat)
    requires k < |order|
    ensures VisitAll(g, order[..k + 1]) == VisitOne(VisitAll(g, order[..k]), order[k])
  {
    assert order[..k + 1][..k] == order[..k];
  }

  lemma RepsNth(nodes: map<Node, nat>, rep: seq<nat>, order: seq<Node>, k: nat)
    requires k < |order|
    ensures RepsAfter(nodes, rep, order[..k + 1]) == RepAfter(nodes, RepsAfter(nodes, rep, order[..k]), order[k])
  {
    assert order[..k + 1][..k] == order[..k];
  }

  lemma NoneVisited(g: Graph, order: seq<Node>)
    ensures VisitAll(g, order[..0]) == g && RepsAfter(g.nodes, g.rep, order[..0]) == g.rep
  {
    assert order[..0] == [];
  }

  lemma AllVisited(order: seq<Node>)
    ensures order[..|order|] == order
  {
  }

  lemma SameMap(m: map<Node, nat>, m': map<Node, nat>)
    requires |m| == |m'| && forall n :: n in m ==> n in m' && m'[n] == m[n]
    ensures m == m'
  {
    assert m.Keys <= m'.Keys && |m.Keys| == |m'.Keys|;
    SubsetSameSize(m.Keys, m'.Keys);
  }

  /** In the last round, the nodes are the same throughout. */
  lemma LastRoundNodes(g: Graph, order: seq<Node>, k: nat)
    requires LastRound(g, order) && k <= |order|
    ensures !VisitAll(Started(g), order[..k]).changed && VisitAll(Started(g), order[..k]).nodes == g.nodes
  {
    var g0, end := Started(g), VisitAll(Started(g), order);
    NoneVisited(g0, order);
    PrefixContinues(g0, order, 0);
    PrefixContinues(g0, order, k);
    hide VisitAll;
    SameMap(g.nodes, end.nodes);
    AllVisited(order[..k]);
    PrefixContinues(g0, order[..k], 0);
    NoneVisited(g0, order[..k]);
    SameMapBetween(g.nodes, VisitAll(g0, order[..k]).nodes, end.nodes);
  }

  lemma SameMapBetween(m: map<Node, nat>, m1: map<Node, nat>, m2: map<Node, nat>)
    requires m == m2 && (forall n :: n in m ==> n in m1 && m1[n] == m[n]) && forall n :: n in m1 ==> n in m2 && m2[n] == m1[n]
    ensures m1 == m
  {
  }

  lemma VisitUnchanged(g: Graph, n: Node)
    requires n in g.nodes && !g.changed && !VisitOne(g, n).changed && VisitOne(g, n).nodes == g.nodes
    ensures Rooted(n, g.rep) == n && (Commutative(n) ==> Swap(n) in g.nodes) && VisitOne(g, n).rep == RepAfter(g.nodes, g.rep, n)
  {
    hide Rooted, Joined;
  }

  /** In the last round, every node is canonical when it is visited, and its swap is there. */
  lemma {:induction false} LastRoundReps(g: Graph, order: seq<Node>, k: nat)
    requires LastRound(g, order) && k <= |order| && forall i :: 0 <= i < |order| ==> order[i] in g.nodes
    ensures VisitAll(Started(g), order[..k]).rep == RepsAfter(g.nodes, g.rep, order[..k])
    ensures k < |order| ==> Rooted(order[k], RepsAfter(g.nodes, g.rep, order[..k])) == order[k] && (Commutative(order[k]) ==> Swap(order[k]) in g.nodes)
    decreases k
  {
    var g0 := Started(g);
    hide LastRound;
    LastRoundNodes(g, order, k);
    if k == 0 {
      NoneVisited(g0, order);
    } else {
      var h := k - 1;
      LastRoundReps(g, order, h);
      LastRoundNodes(g, order, h);
      VisitNth(g0, order, h);
      RepsNth(g.nodes, g.rep, order, h);
      hide VisitAll, VisitOne, RepsAfter, RepAfter, Rooted;
      VisitUnchanged(VisitAll(g0, order[..h]), order[h]);
    }
    if k < |order| {
      LastRoundNodes(g, order, k + 1);
      VisitNth(g0, order, k);
      hide VisitAll, VisitOne, RepsAfter, RepAfter, Rooted;
      VisitUnchanged(VisitAll(g0, order[..k]), order[k]);
    }
  }

  /** Conversely, if every node is canonical at its turn, and swaps are there, the round is
      the last one. */
  lemma {:induction false} CanonicalTurns(g: Graph, order: seq<Node>, k: nat)
    requires k <= |order| && HasSwaps(g.nodes) && forall i :: 0 <= i < |order| ==> order[i] in g.nodes
    requires forall i :: 0 <= i < k ==> Rooted(order[i], RepsAfter(g.nodes, g.rep, order[..i])) == order[i]
    ensures VisitAll(Started(g), order[..k]) == Graph(g.nodes, RepsAfter(g.nodes, g.rep, order[..k]), false)
    decreases k
  {
    if k == 0 {
      NoneVisited(Started(g), order);
    } else {
      var h := k - 1;
      CanonicalTurns(g, order, h);
      VisitNth(Started(g), order, h);
      RepsNth(g.nodes, g.rep, order, h);
      assert Commutative(order[h]) ==> Swap(order[h]) in g.nodes;
      hide VisitAll, RepsAfter, Rooted, Joined;
    }
  }

  // ----- children first ------------------------------------------------------

  /** A labelling of identifiers that joins respect. */
  ghost predicate Levels(g: Graph, level: nat -> nat) {
    && (forall i: nat :: i < |g.rep| ==> level(g.rep[i]) == level(i))
    && forall n :: n in g.nodes && Commutative(n) && Swap(n) in g.nodes ==> level(g.nodes[Swap(n)]) == level(g.nodes[n])
  }

  predicate LevelOperand(n: Node, level: nat -> nat, l: nat) {
    (n.BinNode? && (level(n.a) == l || level(n.b) == l)) || (n.NegNode? && level(n.a) == l)
  }

  /** Every node comes after the sums and products at the level of its operands. */
  ghost predicate ChildrenFirst(g: Graph, order: seq<Node>, level: nat -> nat) {
    forall j, k :: 0 <= j <= k < |order| && Commutative(order[k]) && order[k] in g.nodes ==> !LevelOperand(order[j], level, level(g.nodes[order[k]]))
  }

  ghost predicate LevelsKept(level: nat -> nat, rep: seq<nat>) {
    forall i: nat :: i < |rep| ==> rep[i] < |rep| && level(rep[i]) == level(i)
  }

  /** The nodes visited so far are canonical. */
  ghost predicate CanonicalSoFar(order: seq<Node>, k: nat, rep: seq<nat>)
    requires k <= |order|
  {
    forall j :: 0 <= j < k ==> Canonical(order[j], rep)
  }

  lemma RootedCanonical(n: Node, rep: seq<nat>)
    requires Within(n, |rep|)
    ensures Rooted(n, rep) == n <==> Canonical(n, rep)
  {
  }

  /** A join at another level than that of its operands leaves a node canonical. */
  lemma JoinElsewhere(n: Node, rep: seq<nat>, level: nat -> nat, i: nat, j: nat)
    requires Canonical(n, rep) && LevelsKept(level, rep) && i < |rep| && j < |rep| && rep[i] == i && rep[j] == j
    requires !LevelOperand(n, level, level(i))
    ensures Canonical(n, Joined(rep, i, j))
  {
  }

  lemma LevelsJoin(level: nat -> nat, rep: seq<nat>, i: nat, j: nat)
    requires LevelsKept(level, rep) && ValidRep(rep) && i < |rep| && j < |rep| && rep[i] == i && rep[j] == j && level(i) == level(j)
    ensures LevelsKept(level, Joined(rep, i, j)) && ValidRep(Joined(rep, i, j)) && |Joined(rep, i, j)| == |rep|
  {
  }

  /** In the last round, if children come first, no visited node becomes stale. */
  lemma {:induction false} ChildrenFirstPrefix(g: Graph, order: seq<Node>, level: nat -> nat, k: nat)
    requires GraphOk(g) && LastRound(g, order) && k <= |order| && (forall i :: 0 <= i < |order| ==> order[i] in g.nodes)
    requires Levels(g, level) && ChildrenFirst(g, order, level)
    ensures var rep := RepsAfter(g.nodes, g.rep, order[..k]);
      |rep| == |g.rep| && LevelsKept(level, rep) && ValidRep(rep) && CanonicalSoFar(order, k, rep)
    decreases k
  {
    hide LastRound, VisitAll;
    if k == 0 {
      NoneVisited(g, order);
    } else {
      var h := k - 1;
      ChildrenFirstPrefix(g, order, level, h);
      RepsNth(g.nodes, g.rep, order, h);
      LastRoundReps(g, order, h);
      var rep, n := RepsAfter(g.nodes, g.rep, order[..h]), order[h];
      RootedCanonical(n, rep);
      hide RepsAfter, Rooted;
      if Commutative(n) {
        var i, j := rep[g.nodes[Swap(n)]], rep[g.nodes[n]];
        assert level(i) == level(g.nodes[n]) == level(j);
        LevelsJoin(level, rep, i, j);
        forall l | 0 <= l < k
          ensures Canonical(order[l], Joined(rep, i, j))
        {
          assert !LevelOperand(order[l], level, level(g.nodes[order[h]]));
          JoinElsewhere(order[l], rep, level, i, j);
        }
      }
    }
  }

  /** A round that visits children first and is the last one leaves no stale operand. */
  lemma ChildrenFirstCloses(g: Graph, order: seq<Node>, level: nat -> nat)
    requires GraphOk(g) && LastRound(g, order) && OrderOf(order, g.nodes.Keys) && Levels(g, level) && ChildrenFirst(g, order, level)
    ensures var g' := VisitAll(Started(g), order); g'.nodes == g.nodes && AllCanonical(g'.nodes, g'.rep)
  {
    var n := |order|;
    AllVisited(order);
    assert forall i :: 0 <= i < |order| ==> order[i] in order;
    ChildrenFirstPrefix(g, order, level, n);
    LastRoundReps(g, order, n);
    LastRoundNodes(g, order, n);
    hide LastRound, VisitAll, RepsAfter, Canonical, ChildrenFirst, Levels;
    forall m | m in g.nodes
      ensures Canonical(m, VisitAll(Started(g), order).rep)
    {
      assert m in order;
      var j :| 0 <= j < |order| && order[j] == m;
    }
  }

  // ----- any order -----------------------------------------------------------

  predicate HasOperand(n: Node, a: nat) {
    (n.BinNode? && (n.a == a || n.b == a)) || (n.NegNode? && n.a == a)
  }

  /** Node `m` and its swap are in different classes, and the class of `m` is an operand of `n`. */
  ghost predicate OperandSplit(g: Graph, n: Node, m: Node)
    requires GraphOk(g)
  {
    && n in g.nodes && m in g.nodes && Commutative(m) && Swap(m) in g.nodes
    && g.rep[g.nodes[m]] != g.rep[g.nodes[Swap(m)]] && HasOperand(n, g.rep[g.nodes[m]])
  }

  /** Operands are below their node, and a node and its swap at the same height. */
  ghost predicate Heights(g: Graph, height: nat -> nat) {
    Levels(g, height) && forall n, a: nat :: n in g.nodes && HasOperand(n, a) ==> height(a) < height(g.nodes[n])
  }

  /** The class of `a` has neither grown nor been joined to another. */
  ghost predicate Untouched(a: nat, rep: seq<nat>, rep': seq<nat>) {
    |rep'| == |rep| && forall i: nat :: i < |rep| ==> (rep'[i] == a <==> rep[i] == a)
  }

  ghost predicate OperandsUntouched(g: Graph, rep: seq<nat>) {
    |rep| == |g.rep| && ValidRep(rep) && forall n, a: nat :: n in g.nodes && HasOperand(n, a) ==> Untouched(a, g.rep, rep)
  }

  /** Joining two different classes that are no operands, or one class with itself. */
  lemma JoinUntouched(a: nat, rep0: seq<nat>, rep: seq<nat>, i: nat, j: nat)
    requires Untouched(a, rep0, rep) && (i == j || (i != a && j != a)) && i < |rep| && j < |rep|
    ensures Untouched(a, rep0, Joined(rep, i, j))
  {
  }

  lemma JoinValid(rep: seq<nat>, i: nat, j: nat)
    requires ValidRep(rep) && i < |rep| && j < |rep| && rep[i] == i && rep[j] == j
    ensures ValidRep(Joined(rep, i, j)) && |Joined(rep, i, j)| == |rep|
  {
  }

  /** If no operand is split, the last round touches no operand, whatever its order. */
  lemma {:induction false} UnsplitPrefix(g: Graph, order: seq<Node>, k: nat)
    requires GraphOk(g) && (forall i :: 0 <= i < |order| ==> order[i] in g.nodes) && HasSwaps(g.nodes) && k <= |order|
    requires forall n, m :: !OperandSplit(g, n, m)
    ensures OperandsUntouched(g, RepsAfter(g.nodes, g.rep, order[..k]))
    decreases k
  {
    if k == 0 {
      NoneVisited(g, order);
    } else {
      var h := k - 1;
      UnsplitPrefix(g, order, h);
      RepsNth(g.nodes, g.rep, order, h);
      var rep, n := RepsAfter(g.nodes, g.rep, order[..h]), order[h];
      hide RepsAfter, Untouched;
      if Commutative(n) {
        var i, j := rep[g.nodes[Swap(n)]], rep[g.nodes[n]];
        JoinValid(rep, i, j);
        forall x, a: nat | x in g.nodes && HasOperand(x, a)
          ensures Untouched(a, g.rep, Joined(rep, i, j))
        {
          UnsplitJoin(g, rep, x, a, n);
          JoinUntouched(a, g.rep, rep, i, j);
        }
      }
    }
  }

  /** An operand's class is joined with itself at most. */
  lemma UnsplitJoin(g: Graph, rep: seq<nat>, x: Node, a: nat, n: Node)
    requires GraphOk(g) && |rep| == |g.rep| && Untouched(a, g.rep, rep) && x in g.nodes && HasOperand(x, a)
    requires n in g.nodes && Commutative(n) && Swap(n) in g.nodes
    requires !OperandSplit(g, x, n) && !OperandSplit(g, x, Swap(n))
    ensures var i, j := rep[g.nodes[Swap(n)]], rep[g.nodes[n]]; i == j || (i != a && j != a)
  {
    assert Swap(Swap(n)) == n;
    assert g.nodes[n] < |rep| && g.nodes[Swap(n)] < |rep|;
  }

  lemma UnsplitStaysCanonical(g: Graph, order: seq<Node>)
    requires GraphOk(g) && AllCanonical(g.nodes, g.rep) && HasSwaps(g.nodes) && OrderOf(order, g.nodes.Keys) && LastRound(g, order)
    requires forall n, m :: !OperandSplit(g, n, m)
    ensures AllCanonical(VisitAll(Started(g), order).nodes, VisitAll(Started(g), order).rep)
  {
    var l := |order|;
    AllVisited(order);
    assert forall i :: 0 <= i < l ==> order[i] in order;
    UnsplitPrefix(g, order, l);
    LastRoundReps(g, order, l);
    LastRoundNodes(g, order, l);
    var rep := RepsAfter(g.nodes, g.rep, order);
    hide LastRound, VisitAll, RepsAfter;
    forall n | n in g.nodes
      ensures Canonical(n, rep)
    {
      assert n.BinNode? ==> HasOperand(n, n.a) && HasOperand(n, n.b);
      assert n.NegNode? ==> HasOperand(n, n.a);
      assert Canonical(n, g.rep);
    }
  }

  // ----- an order that leaves a split operand stale -----------------------------

  /** The nodes, the greatest key first. */
  ghost predicate Falling(order: seq<Node>, key: Node -> nat) {
    forall i, j :: 0 <= i < j < |order| ==> key(order[i]) >= key(order[j])
  }

  lemma Greatest(s: set<Node>, key: Node -> nat) returns (x: Node)
    requires s != {}
    ensures x in s && forall y :: y in s ==> key(y) <= key(x)
  {
    x :| x in s;
    if s != {x} {
      var y := Greatest(s - {x}, key);
      if key(y) > key(x) {
        x := y;
      }
      assert forall z :: z in s ==> z in s - {x} || z == x || z in s;
    }
  }

  lemma SortDown(s: set<Node>, key: Node -> nat) returns (order: seq<Node>)
    ensures OrderOf(order, s) && Falling(order, key)
  {
    if s == {} {
      order := [];
    } else {
      var x := Greatest(s, key);
      var rest := SortDown(s - {x}, key);
      order := [x] + rest;
      forall n
        ensures n in s <==> n in order
      {
        assert n in s - {x} <==> n in rest;
      }
      assert forall i :: 0 <= i < |rest| ==> rest[i] in rest;
    }
  }

  /** Classes below all nodes visited so far are as they were. */
  ghost predicate LowKept(g: Graph, order: seq<Node>, k: nat, height: nat -> nat, rep: seq<nat>)
    requires k <= |order| && forall i :: 0 <= i < |order| ==> order[i] in g.nodes
  {
    && |rep| == |g.rep| && ValidRep(rep) && LevelsKept(height, rep)
    && forall i: nat :: i < |rep| && (k > 0 ==> height(i) < height(g.nodes[order[k - 1]])) ==> rep[i] == g.rep[i]
  }

  ghost predicate HeightsFall(g: Graph, order: seq<Node>, height: nat -> nat) {
    && (forall i :: 0 <= i < |order| ==> order[i] in g.nodes)
    && forall i, j :: 0 <= i < j < |order| ==> height(g.nodes[order[i]]) >= height(g.nodes[order[j]])
  }

  /** All nodes before this one are higher. */
  ghost predicate FirstOfHeight(g: Graph, order: seq<Node>, height: nat -> nat, n: Node) {
    && (forall i :: 0 <= i < |order| ==> order[i] in g.nodes)
    && forall i, p :: 0 <= i < p < |order| && order[p] == n ==> height(g.nodes[order[i]]) > height(g.nodes[order[p]])
  }

  /** If parents come first, every node is canonical at its turn. */
  lemma {:induction false} ParentsFirst(g: Graph, order: seq<Node>, height: nat -> nat, k: nat)
    requires GraphOk(g) && AllCanonical(g.nodes, g.rep) && HasSwaps(g.nodes) && Heights(g, height) && HeightsFall(g, order, height) && k <= |order|
    ensures LowKept(g, order, k, height, RepsAfter(g.nodes, g.rep, order[..k]))
    ensures k < |order| ==> Rooted(order[k], RepsAfter(g.nodes, g.rep, order[..k])) == order[k]
    decreases k
  {
    if k == 0 {
      NoneVisited(g, order);
    } else {
      var h := k - 1;
      ParentsFirst(g, order, height, h);
      RepsNth(g.nodes, g.rep, order, h);
      var rep, n := RepsAfter(g.nodes, g.rep, order[..h]), order[h];
      hide RepsAfter, Rooted;
      if Commutative(n) {
        LevelsJoin(height, rep, rep[g.nodes[Swap(n)]], rep[g.nodes[n]]);
      }
    }
    if k < |order| {
      TurnCanonical(g, order, height, k, RepsAfter(g.nodes, g.rep, order[..k]));
    }
  }

  lemma TurnCanonical(g: Graph, order: seq<Node>, height: nat -> nat, k: nat, rep: seq<nat>)
    requires GraphOk(g) && AllCanonical(g.nodes, g.rep) && Heights(g, height) && HeightsFall(g, order, height) && k < |order|
    requires LowKept(g, order, k, height, rep)
    ensures Rooted(order[k], rep) == order[k]
  {
    var n := order[k];
    assert Canonical(n, g.rep);
    assert n.BinNode? ==> HasOperand(n, n.a) && HasOperand(n, n.b);
    assert n.NegNode? ==> HasOperand(n, n.a);
    RootedCanonical(n, rep);
  }

  lemma DemotedStep(g: Graph, order: seq<Node>, height: nat -> nat, a: nat, h: nat, rep: seq<nat>)
    requires GraphOk(g) && HasSwaps(g.nodes) && HeightsFall(g, order, height) && h < |order| && a < |g.rep|
    requires LowKept(g, order, h, height, rep) && rep[a] != a
    ensures var rep' := RepAfter(g.nodes, rep, order[h]); |rep'| == |g.rep| && rep'[a] != a
  {
  }

  /** A class that has been joined to another does not come back. */
  lemma {:induction false} DemotedStays(g: Graph, order: seq<Node>, height: nat -> nat, a: nat, k: nat, l: nat)
    requires GraphOk(g) && AllCanonical(g.nodes, g.rep) && HasSwaps(g.nodes) && Heights(g, height) && HeightsFall(g, order, height)
    requires k <= l <= |order| && a < |g.rep| && |RepsAfter(g.nodes, g.rep, order[..k])| == |g.rep| && RepsAfter(g.nodes, g.rep, order[..k])[a] != a
    ensures |RepsAfter(g.nodes, g.rep, order[..l])| == |g.rep| && RepsAfter(g.nodes, g.rep, order[..l])[a] != a
    decreases l
  {
    if k < l {
      var h := l - 1;
      DemotedStays(g, order, height, a, k, h);
      ParentsFirst(g, order, height, h);
      RepsNth(g.nodes, g.rep, order, h);
      hide *;
      DemotedStep(g, order, height, a, h, RepsAfter(g.nodes, g.rep, order[..h]));
    }
  }

  /** If an operand is split, some last round leaves it stale: parents come first, and the
      swapped node comes first among the nodes at its height. */
  lemma SplitGoesStale(g: Graph, height: nat -> nat, n: Node, m: Node) returns (order: seq<Node>)
    requires GraphOk(g) && AllCanonical(g.nodes, g.rep) && HasSwaps(g.nodes) && Heights(g, height) && OperandSplit(g, n, m)
    ensures OrderOf(order, g.nodes.Keys) && LastRound(g, order) && !AllCanonical(VisitAll(Started(g), order).nodes, VisitAll(Started(g), order).rep)
  {
    hide *;
    order := ParentsFirstOrder(g, height, m);
    SwapIsNode(g, n, m, order);
    var p := PositionOf(order, Swap(m));
    AllTurns(g, order, height);
    OrderKnown(g, order);
    CanonicalTurns(g, order, |order|);
    AllVisited(order);
    SwapDemotes(g, order, height, n, m, p);
    DemotedStays(g, order, height, g.rep[g.nodes[m]], p + 1, |order|);
    SameGraphLast(g, order);
    StaleAtEnd(g, order, n, m);
  }

  lemma ParentsFirstOrder(g: Graph, height: nat -> nat, m: Node) returns (order: seq<Node>)
    requires GraphOk(g)
    ensures OrderOf(order, g.nodes.Keys) && HeightsFall(g, order, height)
    ensures FirstOfHeight(g, order, height, Swap(m))
  {
    var nodes := g.nodes;
    var key: Node -> nat := x => if x in nodes then 2 * height(nodes[x]) + (if x == Swap(m) then 1 else 0) else 0;
    order := SortDown(g.nodes.Keys, key);
    hide Falling, HeightsFall, OrderOf, Swap;
    KeysFall(g, height, m, order, key);
  }

  lemma SwapIsNode(g: Graph, n: Node, m: Node, order: seq<Node>)
    requires GraphOk(g) && OperandSplit(g, n, m) && OrderOf(order, g.nodes.Keys)
    ensures Swap(m) in order && m in g.nodes && g.nodes[m] < |g.rep| && g.rep[g.nodes[m]] < |g.rep|
  {
  }

  lemma PositionOf(order: seq<Node>, n: Node) returns (p: nat)
    requires n in order
    ensures p < |order| && order[p] == n
  {
    p :| p < |order| && order[p] == n;
  }

  lemma OrderKnown(g: Graph, order: seq<Node>)
    requires OrderOf(order, g.nodes.Keys)
    ensures forall i :: 0 <= i < |order| ==> order[i] in g.nodes
  {
    assert forall i :: 0 <= i < |order| ==> order[i] in order;
  }

  lemma StaleAtEnd(g: Graph, order: seq<Node>, n: Node, m: Node)
    requires GraphOk(g) && OperandSplit(g, n, m) && VisitAll(Started(g), order) == Graph(g.nodes, RepsAfter(g.nodes, g.rep, order), false)
    requires var rep := RepsAfter(g.nodes, g.rep, order); |rep| == |g.rep| && rep[g.rep[g.nodes[m]]] != g.rep[g.nodes[m]]
    ensures !AllCanonical(VisitAll(Started(g), order).nodes, VisitAll(Started(g), order).rep)
  {
    var rep := RepsAfter(g.nodes, g.rep, order);
    hide VisitAll, RepsAfter;
    assert !Canonical(n, rep);
  }

  lemma SameGraphLast(g: Graph, order: seq<Node>)
    requires VisitAll(Started(g), order) == Graph(g.nodes, RepsAfter(g.nodes, g.rep, order), false)
    ensures LastRound(g, order)
  {
  }

  lemma AllTurns(g: Graph, order: seq<Node>, height: nat -> nat)
    requires GraphOk(g) && AllCanonical(g.nodes, g.rep) && HasSwaps(g.nodes) && Heights(g, height) && HeightsFall(g, order, height)
    ensures forall i :: 0 <= i < |order| ==> Rooted(order[i], RepsAfter(g.nodes, g.rep, order[..i])) == order[i]
  {
    forall i | 0 <= i < |order|
      ensures Rooted(order[i], RepsAfter(g.nodes, g.rep, order[..i])) == order[i]
    {
      ParentsFirst(g, order, height, i);
    }
  }

  lemma KeysFall(g: Graph, height: nat -> nat, m: Node, order: seq<Node>, key: Node -> nat)
    requires OrderOf(order, g.nodes.Keys) && Falling(order, key) && forall x :: x in g.nodes ==> key(x) == 2 * height(g.nodes[x]) + if x == Swap(m) then 1 else 0
    ensures HeightsFall(g, order, height)
    ensures FirstOfHeight(g, order, height, Swap(m))
  {
    assert forall i :: 0 <= i < |order| ==> order[i] in order;
    forall i, j | 0 <= i < j < |order|
      ensures height(g.nodes[order[i]]) >= height(g.nodes[order[j]])
      ensures order[j] == Swap(m) ==> height(g.nodes[order[i]]) > height(g.nodes[order[j]])
    {
      assert key(order[i]) >= key(order[j]) && order[i] != order[j];
    }
  }

  /** Visiting the swapped node joins the split operand to another class. */
  lemma SwapDemotes(g: Graph, order: seq<Node>, height: nat -> nat, n: Node, m: Node, p: nat)
    requires GraphOk(g) && AllCanonical(g.nodes, g.rep) && HasSwaps(g.nodes) && Heights(g, height) && HeightsFall(g, order, height)
    requires OperandSplit(g, n, m) && p < |order| && order[p] == Swap(m) && FirstOfHeight(g, order, height, Swap(m))
    ensures var rep := RepsAfter(g.nodes, g.rep, order[..p + 1]); |rep| == |g.rep| && rep[g.rep[g.nodes[m]]] != g.rep[g.nodes[m]]
  {
    ParentsFirst(g, order, height, p);
    RepsNth(g.nodes, g.rep, order, p);
    assert Swap(Swap(m)) == m;
    var rep, a := RepsAfter(g.nodes, g.rep, order[..p]), g.rep[g.nodes[m]];
    hide RepsAfter, Rooted;
    assert height(g.nodes[m]) == height(g.nodes[Swap(m)]);
    assert rep[g.nodes[m]] == g.rep[g.nodes[m]] && rep[g.nodes[Swap(m)]] == g.rep[g.nodes[Swap(m)]];
  }

  /** For a graph that can be in its last round: whatever the order of visits, no operand
      is left stale, if and only if no operand is the class of a node whose swap is in
      another class. */
  lemma StaleIffSplit(g: Graph, height: nat -> nat)
    requires GraphOk(g) && AllCanonical(g.nodes, g.rep) && HasSwaps(g.nodes) && Heights(g, height)
    ensures (forall order :: OrderOf(order, g.nodes.Keys) && LastRound(g, order) ==>
               AllCanonical(VisitAll(Started(g), order).nodes, VisitAll(Started(g), order).rep)) <==>
            forall n, m :: !OperandSplit(g, n, m)
  {
    hide VisitAll, LastRound, OrderOf, AllCanonical;
    if forall n, m :: !OperandSplit(g, n, m) {
      forall order | OrderOf(order, g.nodes.Keys) && LastRound(g, order)
        ensures AllCanonical(VisitAll(Started(g), order).nodes, VisitAll(Started(g), order).rep)
      {
        UnsplitStaysCanonical(g, order);
      }
    } else {
      var n, m :| OperandSplit(g, n, m);
      var order := SplitGoesStale(g, height, n, m);
    }
  }

  /** Roots are never regained. */
  lemma {:induction false} RootBefore(g: Graph, order: seq<Node>, a: nat, k: nat)
    requires GraphOk(g) && (forall i :: 0 <= i < |order| ==> order[i] in g.nodes) && k <= |order| && a < |g.rep|
    ensures var rep := RepsAfter(g.nodes, g.rep, order[..k]); |rep| == |g.rep| && ValidRep(rep) && (rep[a] == a ==> g.rep[a] == a)
    decreases k
  {
    if k == 0 {
      NoneVisited(g, order);
    } else {
      var h := k - 1;
      RootBefore(g, order, a, h);
      RepsNth(g.nodes, g.rep, order, h);
      var rep, n := RepsAfter(g.nodes, g.rep, order[..h]), order[h];
      hide RepsAfter;
      if Commutative(n) && Swap(n) in g.nodes {
        JoinValid(rep, rep[g.nodes[Swap(n)]], rep[g.nodes[n]]);
      }
    }
  }

  /** Only such graphs can be in their last round. */
  lemma LastRoundStarts(g: Graph, order: seq<Node>)
    requires GraphOk(g) && OrderOf(order, g.nodes.Keys) && LastRound(g, order)
    ensures HasSwaps(g.nodes) && AllCanonical(g.nodes, g.rep)
  {
    OrderKnown(g, order);
    forall n | n in g.nodes
      ensures Canonical(n, g.rep) && (Commutative(n) ==> Swap(n) in g.nodes)
    {
      var k := PositionOf(order, n);
      LastRoundReps(g, order, k);
      hide LastRound, RepsAfter;
      if n.BinNode? {
        RootBefore(g, order, n.a, k);
        RootBefore(g, order, n.b, k);
      } else if n.NegNode? {
        RootBefore(g, order, n.a, k);
      }
    }
  }
}
