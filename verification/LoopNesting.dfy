/** Loop nesting: `LoopAnalysis::run` (ir/function.cpp), the Tarjan-Havlak algorithm
    over the spanning tree.  Nodes are the numbers of the tree's blocks. */
module LoopNesting {
  import opened Cfg
  import opened SpanningTree
  import opened UnionFindForest

  /** A graph with its spanning tree. */
  datatype Tree = Tree(g: Graph, node: seq<nat>, number: map<nat, nat>, last: seq<int>, parent: seq<nat>)

  ghost predicate Ok(t: Tree) {
    SpanningTreeOf(t.g, t.node, t.number, t.last, t.parent) && forall b: nat :: !Edge(t.g, b, 0)
  }

  /** An edge between numbered blocks. */
  ghost predicate E(t: Tree, u: nat, v: nat) {
    u < |t.node| && v < |t.node| && Edge(t.g, t.node[u], t.node[v])
  }

  ghost predicate Anc(t: Tree, a: nat, b: nat) {
    IsTree(t.parent) && a < |t.parent| && b < |t.parent| && Ancestor(t.parent, a, b)
  }

  /** All blocks of the path are in the subtree of `h`. */
  ghost predicate InSubtree(t: Tree, h: nat, p: seq<nat>) {
    forall x :: x in p ==> x in t.number && Anc(t, h, t.number[x])
  }

  /** Some path from `a` to `b` stays in the subtree of `h`. */
  ghost predicate Stays(t: Tree, h: nat, a: nat, b: nat) {
    a < |t.node| && b < |t.node| && exists p :: PathFromTo(t.g, p, t.node[a], t.node[b]) && InSubtree(t, h, p)
  }

  /** `x` gets back to `h` without leaving the subtree of `h`. */
  ghost predicate Back(t: Tree, h: nat, x: nat) {
    Stays(t, h, x, h)
  }

  lemma StaysTrans(t: Tree, h: nat, a: nat, b: nat, c: nat)
    requires Stays(t, h, a, b) && Stays(t, h, b, c)
    ensures Stays(t, h, a, c)
  {
    hide Anc;
    var p :| PathFromTo(t.g, p, t.node[a], t.node[b]) && InSubtree(t, h, p);
    var q :| PathFromTo(t.g, q, t.node[b], t.node[c]) && InSubtree(t, h, q);
    JoinPaths(t.g, p, q, t.node[a], t.node[b], t.node[c]);
    assert forall x :: x in q[1..] ==> x in q;
    assert InSubtree(t, h, p + q[1..]);
  }

  /** A greater subtree. */
  lemma StaysWiden(t: Tree, h: nat, k: nat, a: nat, b: nat)
    requires Stays(t, k, a, b) && Anc(t, h, k)
    ensures Stays(t, h, a, b)
  {
    hide PathFromTo;
    var p :| PathFromTo(t.g, p, t.node[a], t.node[b]) && InSubtree(t, k, p);
    forall x | x in p
      ensures Anc(t, h, t.number[x])
    {
      AncestorTrans(t.parent, h, k, t.number[x]);
    }
    assert InSubtree(t, h, p);
  }

  lemma StaysEdge(t: Tree, h: nat, u: nat, v: nat)
    requires Ok(t) && E(t, u, v) && Anc(t, h, u) && Anc(t, h, v)
    ensures Stays(t, h, u, v)
  {
    var p := [t.node[u], t.node[v]];
    assert PathFromTo(t.g, p, t.node[u], t.node[v]);
    assert t.number[t.node[u]] == u && t.number[t.node[v]] == v;
    hide Anc;
    assert InSubtree(t, h, p);
  }

  lemma StaysHere(t: Tree, h: nat)
    requires Ok(t) && h < |t.node|
    ensures Stays(t, h, h, h)
  {
    var p := [t.node[h]];
    assert PathFromTo(t.g, p, t.node[h], t.node[h]) && InSubtree(t, h, p);
  }

  /** Down the tree. */
  lemma {:induction false} StaysDown(t: Tree, h: nat, b: nat)
    requires Ok(t) && Anc(t, h, b)
    ensures Stays(t, h, h, b)
    decreases b
  {
    if h == b {
      StaysHere(t, h);
    } else {
      var a := t.parent[b];
      StaysDown(t, h, a);
      assert E(t, a, b);
      StaysEdge(t, h, a, b);
      StaysTrans(t, h, h, a, b);
    }
  }

  lemma BackTrans(t: Tree, w: nat, k: nat, x: nat)
    requires Anc(t, w, k) && Back(t, w, k) && Back(t, k, x)
    ensures Back(t, w, x)
  {
    hide Stays;
    StaysWiden(t, w, k, x, k);
    StaysTrans(t, w, x, k, w);
  }

  // ----- loops and their headers ---------------------------------------------

  /** Header pointers lead to earlier nodes; 0 stands for "no header". */
  ghost predicate HeadersOk(header: seq<nat>) {
    forall x {:trigger header[x]} :: 0 <= x < |header| ==> header[x] <= x && (header[x] == x ==> x == 0)
  }

  /** `x` lies in the loop of `h`: `h` is met when following headers up from `x`. */
  ghost predicate InLoop(header: seq<nat>, h: nat, x: nat)
    requires HeadersOk(header) && x < |header|
    decreases x
  {
    h == x || (header[x] != 0 && InLoop(header, h, header[x]))
  }

  /** `u` belongs to the natural loop of the edge from `v` to `h`. */
  ghost predicate NaturalLoop(t: Tree, h: nat, v: nat, u: nat) {
    && E(t, v, h) && u < |t.node| && Dominates(t.g, t.node[h], t.node[v])
    && (u == h || exists p :: PathFromTo(t.g, p, t.node[u], t.node[v]) && t.node[h] !in p)
  }

  datatype NodeType = Nonheader | Self | Reducible | Irreducible

  // ----- the invariants ------------------------------------------------------

  /** Classes are represented by a tree ancestor that their nodes get back to below it. */
  ghost predicate Classes(t: Tree, rep: seq<nat>, w: nat) {
    && |rep| == |t.node|
    && (forall x :: 0 <= x < |rep| ==> rep[x] < |rep| && rep[rep[x]] == rep[x])
    && (forall x :: 0 <= x < |rep| ==> Anc(t, rep[x], x) && Back(t, rep[x], x))
    && (forall x :: 0 <= x < |rep| && rep[x] != x ==> rep[x] >= w)
  }

  /** The header pointers record how classes were merged. */
  ghost predicate Records(t: Tree, rep: seq<nat>, header: seq<nat>) {
    && |rep| == |header| == |t.node| && HeadersOk(header)
    && (forall x :: 0 <= x < |rep| ==> (header[x] == 0 <==> rep[x] == x))
    && (forall x :: 0 <= x < |rep| && header[x] != 0 ==>
          rep[header[x]] == rep[x] && Anc(t, header[x], x) && Back(t, header[x], x))
  }

  /** An edge that enters the class of `x` from the class of `y`. */
  ghost predicate Enters(t: Tree, rep: seq<nat>, y: nat, x: nat)
    requires |rep| == |t.node| && x < |rep| && y < |rep|
  {
    exists u: nat, v: nat :: E(t, u, v) && rep[u] == rep[y] && rep[v] == rep[x]
  }

  /** `nonBack[x]` holds sources of edges into the class of `x`. */
  ghost predicate Sound(t: Tree, rep: seq<nat>, nonBack: seq<set<nat>>) {
    && |rep| == |nonBack| == |t.node|
    && forall x, y :: 0 <= x < |rep| && y in nonBack[x] ==> y < |rep| && Enters(t, rep, y, x)
  }

  /** Some node recorded for `x` is in the class `r`. */
  ghost predicate Listed(rep: seq<nat>, nonBack: seq<set<nat>>, x: nat, r: nat) {
    x < |nonBack| && exists z :: z in nonBack[x] && z < |rep| && rep[z] == r
  }

  /** Every edge stays inside a class, or is listed at the class it enters, or is a
      back edge to a header still to be processed. */
  ghost predicate Complete(t: Tree, rep: seq<nat>, nonBack: seq<set<nat>>, w: nat) {
    && |rep| == |nonBack| == |t.node|
    && forall u: nat, v: nat :: E(t, u, v) ==>
         || rep[u] == rep[v]
         || Listed(rep, nonBack, rep[v], rep[u])
         || (rep[v] == v && v < w && Anc(t, v, u))
  }

  /** The sources of back edges. */
  ghost predicate BackEdges(t: Tree, back: seq<set<nat>>) {
    && |back| == |t.node|
    && forall w, v: nat :: 0 <= w < |back| ==> (v in back[w] <==> E(t, v, w) && Anc(t, w, v))
  }

  /** The other edges. */
  ghost predicate OtherEdges(t: Tree, nonBack: seq<set<nat>>) {
    && |nonBack| == |t.node|
    && forall w, v: nat :: 0 <= w < |nonBack| ==> (v in nonBack[w] <==> E(t, v, w) && !Anc(t, w, v))
  }

  /** What holds for each processed header `h`: its loop is made up of the nodes that get
      back to it without leaving its subtree, and its kind says how it is entered. */
  ghost predicate LoopOk(t: Tree, header: seq<nat>, kind: seq<NodeType>, h: nat)
    requires |header| == |kind| == |t.node| && HeadersOk(header) && h < |header|
  {
    && (forall u: nat :: u < |header| ==> (InLoop(header, h, u) <==> Back(t, h, u)))
    && (kind[h] == Nonheader <==> forall v: nat :: !(E(t, v, h) && Anc(t, h, v)))
    && (kind[h] == Irreducible <==> EnteredAside(t, header, h))
    && (kind[h] == Reducible || kind[h] == Irreducible <==> HasMembers(header, h))
  }

  /** The loop of `h` has other nodes. */
  ghost predicate HasMembers(header: seq<nat>, h: nat)
    requires HeadersOk(header)
  {
    exists u: nat :: u < |header| && u != h && InLoop(header, h, u)
  }

  /** Some edge enters the loop of `h` at another node than `h`. */
  ghost predicate EnteredAside(t: Tree, header: seq<nat>, h: nat)
    requires |header| == |t.node| && HeadersOk(header)
  {
    exists u: nat, v: nat :: E(t, u, v) && v != h && InLoop(header, h, v) && !InLoop(header, h, u)
  }

  ghost predicate Inv(t: Tree, rep: seq<nat>, header: seq<nat>, kind: seq<NodeType>, back: seq<set<nat>>, nonBack: seq<set<nat>>, w: nat) {
    && Ok(t) && w <= |t.node|
    && Classes(t, rep, w) && Records(t, rep, header) && BackEdges(t, back)
    && Sound(t, rep, nonBack) && Complete(t, rep, nonBack, w)
    && |kind| == |t.node|
    && (forall h :: w <= h < |t.node| ==> LoopOk(t, header, kind, h))
  }

  // ----- one header ----------------------------------------------------------

  /** `P` are the classes that reach `w` within its subtree, found so far. */
  ghost predicate Members(t: Tree, rep: seq<nat>, w: nat, P: set<nat>)
    requires |rep| == |t.node|
  {
    forall x :: x in P ==> x < |rep| && rep[x] == x && x != w && Anc(t, w, x) && Back(t, w, x)
  }

  /** All edges listed at `x` have been looked at. */
  ghost predicate Explored(t: Tree, rep: seq<nat>, nonBack: seq<set<nat>>, w: nat, P: set<nat>, x: nat)
    requires |rep| == |nonBack| == |t.node| && w < |rep|
  {
    x < |rep| && forall y :: y in nonBack[x] ==>
      y < |rep| && (rep[y] == w || rep[y] in P || (!Anc(t, w, rep[y]) && rep[y] in nonBack[w]))
  }

  /** Following a back edge finds a class below `w`. */
  lemma BackSource(t: Tree, rep: seq<nat>, w: nat, v: nat)
    requires Ok(t) && Classes(t, rep, w + 1) && w < |rep| && E(t, v, w) && Anc(t, w, v) && v != w
    ensures var x := rep[v]; rep[x] == x && x != w && Anc(t, w, x) && Back(t, w, x)
  {
    var x := rep[v];
    AncestorLe(t.parent, w, v);
    AncestorLinear(t.parent, w, x, v);
    hide Ok, Stays;
    StaysDown(t, x, v);
    StaysWiden(t, w, x, x, v);
    StaysEdge(t, w, v, w);
    StaysTrans(t, w, x, v, w);
  }

  /** An edge into a member comes from a class that reaches `w`. */
  lemma MemberSource(t: Tree, rep: seq<nat>, nonBack: seq<set<nat>>, w: nat, P: set<nat>, x: nat, y: nat)
    requires Ok(t) && Classes(t, rep, w + 1) && w < |rep| && Sound(t, rep, nonBack)
    requires Members(t, rep, w, P) && x in P && y in nonBack[x]
    ensures y < |rep| && rep[rep[y]] == rep[y]
    ensures Anc(t, w, rep[y]) ==> Back(t, w, rep[y])
  {
    var u: nat, v: nat :| E(t, u, v) && rep[u] == rep[y] && rep[v] == rep[x];
    var r := rep[y];
    if Anc(t, w, r) {
      AncestorTrans(t.parent, w, r, u);
      AncestorTrans(t.parent, w, x, v);
      hide Ok, Stays, Sound;
      StaysDown(t, r, u);
      StaysWiden(t, w, r, r, u);
      StaysEdge(t, w, u, v);
      StaysTrans(t, w, r, u, v);
      BackTrans(t, w, x, v);
      StaysTrans(t, w, r, v, w);
    }
  }

  /** The classes of `P` join the class of `w`. */
  ghost function Collapse(rep: seq<nat>, P: set<nat>, w: nat): seq<nat> {
    seq(|rep|, x requires 0 <= x < |rep| => if rep[x] in P then w else rep[x])
  }

  ghost function SetHeaders(header: seq<nat>, P: set<nat>, w: nat): seq<nat> {
    seq(|header|, x requires 0 <= x < |header| => if x in P then w else header[x])
  }

  lemma RootOfHeader(t: Tree, rep: seq<nat>, w: nat)
    requires Ok(t) && Classes(t, rep, w + 1) && w < |rep|
    ensures rep[w] == w
  {
    AncestorLe(t.parent, rep[w], w);
  }

  lemma CollapseClasses(t: Tree, rep: seq<nat>, P: set<nat>, w: nat)
    requires Ok(t) && Classes(t, rep, w + 1) && w < |rep| && Members(t, rep, w, P)
    ensures Classes(t, Collapse(rep, P, w), w)
  {
    RootOfHeader(t, rep, w);
    var rep' := Collapse(rep, P, w);
    forall x: nat | x < |rep|
      ensures Anc(t, rep'[x], x) && Back(t, rep'[x], x)
    {
      if rep[x] in P {
        AncestorTrans(t.parent, w, rep[x], x);
        BackTrans(t, w, rep[x], x);
      }
    }
  }

  lemma CollapseRecords(t: Tree, rep: seq<nat>, header: seq<nat>, P: set<nat>, w: nat)
    requires Ok(t) && Classes(t, rep, w + 1) && 0 < w < |rep| && Members(t, rep, w, P) && Records(t, rep, header)
    ensures Records(t, Collapse(rep, P, w), SetHeaders(header, P, w))
  {
    RootOfHeader(t, rep, w);
    forall x | x in P
      ensures x > w && Back(t, w, x) && header[x] == 0
    {
      AncestorLe(t.parent, w, x);
    }
  }

  lemma CollapseAt(rep: seq<nat>, P: set<nat>, w: nat, x: nat)
    requires x < |rep|
    ensures |Collapse(rep, P, w)| == |rep|
    ensures Collapse(rep, P, w)[x] == if rep[x] in P then w else rep[x]
  {
  }

  /** Collapsing keeps entering edges; an edge that enters a member now enters `w`. */
  lemma CollapseEnters(t: Tree, rep: seq<nat>, P: set<nat>, w: nat, y: nat, x: nat)
    requires |rep| == |t.node| && x < |rep| && y < |rep| && w < |rep| && rep[w] == w && w !in P && Enters(t, rep, y, x)
    ensures |Collapse(rep, P, w)| == |rep|
    ensures Enters(t, Collapse(rep, P, w), y, x)
    ensures rep[x] in P ==> Enters(t, Collapse(rep, P, w), y, w)
  {
    var u: nat, v: nat :| E(t, u, v) && rep[u] == rep[y] && rep[v] == rep[x];
    CollapseAt(rep, P, w, u);
    CollapseAt(rep, P, w, v);
    CollapseAt(rep, P, w, x);
    CollapseAt(rep, P, w, y);
    CollapseAt(rep, P, w, w);
  }

  lemma CollapseSound(t: Tree, rep: seq<nat>, nonBack: seq<set<nat>>, nonBack': seq<set<nat>>, P: set<nat>, w: nat)
    requires Ok(t) && Classes(t, rep, w + 1) && w < |rep| && Members(t, rep, w, P) && Sound(t, rep, nonBack)
    requires Widened(t, rep, nonBack, nonBack', P, w)
    ensures Sound(t, Collapse(rep, P, w), nonBack')
  {
    RootOfHeader(t, rep, w);
    CollapseAt(rep, P, w, w);
    assert |nonBack'| == |nonBack| && forall x :: 0 <= x < |rep| && x != w ==> nonBack'[x] == nonBack[x];
    hide Ok, Anc, Back, E, Enters, Collapse, Classes, Widened;
    var rep' := Collapse(rep, P, w);
    forall x, y | 0 <= x < |rep| && y in nonBack'[x]
      ensures y < |rep| && Enters(t, rep', y, x)
    {
      if y in nonBack[x] {
        CollapseEnters(t, rep, P, w, y, x);
      } else {
        WidenedEnters(t, rep, nonBack, nonBack', P, w, y);
      }
    }
  }

  lemma WidenedEnters(t: Tree, rep: seq<nat>, nonBack: seq<set<nat>>, nonBack': seq<set<nat>>, P: set<nat>, w: nat, y: nat)
    requires |rep| == |t.node| && w < |rep| && rep[w] == w && w !in P && Members(t, rep, w, P) && Sound(t, rep, nonBack)
    requires Widened(t, rep, nonBack, nonBack', P, w) && y in nonBack'[w] && y !in nonBack[w]
    ensures y < |rep| == |Collapse(rep, P, w)| && Enters(t, Collapse(rep, P, w), y, w)
  {
    hide Anc, Back, E, Enters, Collapse;
    var m, z :| m in P && z in nonBack[m] && rep[z] == y;
    CollapseEnters(t, rep, P, w, z, m);
    SameClassEnters(t, rep, P, w, z, y, w);
  }

  lemma SameClassEnters(t: Tree, rep: seq<nat>, P: set<nat>, w: nat, z: nat, y: nat, x: nat)
    requires |rep| == |Collapse(rep, P, w)| == |t.node| && z < |rep| && y < |rep| && x < |rep| && rep[z] == rep[y]
    requires Enters(t, Collapse(rep, P, w), z, x)
    ensures Enters(t, Collapse(rep, P, w), y, x)
  {
    CollapseAt(rep, P, w, z);
    CollapseAt(rep, P, w, y);
  }

  /** The list of `w` has grown by classes outside its subtree that enter a member. */
  ghost predicate Widened(t: Tree, rep: seq<nat>, nonBack: seq<set<nat>>, nonBack': seq<set<nat>>, P: set<nat>, w: nat)
    requires |rep| == |nonBack| == |t.node| && w < |rep|
    requires Sound(t, rep, nonBack)
  {
    && |nonBack'| == |nonBack| && nonBack' == nonBack[w := nonBack'[w]] && nonBack[w] <= nonBack'[w]
    && (forall x :: x in P ==> x < |rep| && x != w)
    && forall y :: y in nonBack'[w] && y !in nonBack[w] ==>
         y < |rep| && rep[y] == y && !Anc(t, w, y) && exists x, z :: x in P && z in nonBack[x] && rep[z] == y
  }

  lemma CollapseComplete(t: Tree, rep: seq<nat>, back: seq<set<nat>>, nonBack: seq<set<nat>>, nonBack': seq<set<nat>>, P: set<nat>, w: nat)
    requires Ok(t) && Classes(t, rep, w + 1) && w < |rep| && Members(t, rep, w, P) && BackEdges(t, back)
    requires Sound(t, rep, nonBack) && Complete(t, rep, nonBack, w + 1) && Widened(t, rep, nonBack, nonBack', P, w)
    requires forall x :: x in P ==> Explored(t, rep, nonBack', w, P, x)
    requires forall v :: v in back[w] && v != w ==> rep[v] in P
    ensures Complete(t, Collapse(rep, P, w), nonBack', w)
  {
    var rep' := Collapse(rep, P, w);
    assert |rep'| == |rep|;
    forall u: nat, v: nat | E(t, u, v)
      ensures rep'[u] == rep'[v] || Listed(rep', nonBack', rep'[v], rep'[u]) || (rep'[v] == v && v < w && Anc(t, v, u))
    {
      hide Ok, Anc, Back, Collapse, Sound, Listed, Widened, Explored, Members;
      CollapseAt(rep, P, w, u);
      CollapseAt(rep, P, w, v);
      if rep[u] != rep[v] {
        if Listed(rep, nonBack, rep[v], rep[u]) {
          CollapseListed(t, rep, nonBack, nonBack', P, w, u, v);
        } else {
          CollapsePending(t, rep, back, P, w, u, v);
        }
      }
    }
  }

  lemma CollapseListed(t: Tree, rep: seq<nat>, nonBack: seq<set<nat>>, nonBack': seq<set<nat>>, P: set<nat>, w: nat, u: nat, v: nat)
    requires Ok(t) && Classes(t, rep, w + 1) && w < |rep| && Members(t, rep, w, P)
    requires Sound(t, rep, nonBack) && Widened(t, rep, nonBack, nonBack', P, w)
    requires forall x :: x in P ==> Explored(t, rep, nonBack', w, P, x)
    requires u < |rep| && v < |rep| && Listed(rep, nonBack, rep[v], rep[u])
    ensures |Collapse(rep, P, w)| == |rep|
    ensures var rep' := Collapse(rep, P, w); rep'[u] == rep'[v] || Listed(rep', nonBack', rep'[v], rep'[u])
  {
    RootOfHeader(t, rep, w);
    var z :| z in nonBack[rep[v]] && z < |rep| && rep[z] == rep[u];
    assert w !in P && rep[rep[u]] == rep[u] && nonBack[rep[v]] <= nonBack'[rep[v]];
    assert rep[v] in P ==> Explored(t, rep, nonBack', w, P, rep[v]) && nonBack'[rep[v]] == nonBack[rep[v]];
    hide Ok, Anc, Back, Collapse, Sound, Classes, Members, Widened, Listed;
    ListedAfter(rep, nonBack', P, w, u, v, z);
  }

  lemma ListedAfter(rep: seq<nat>, nonBack': seq<set<nat>>, P: set<nat>, w: nat, u: nat, v: nat, z: nat)
    requires |rep| == |nonBack'| && u < |rep| && v < |rep| && z < |rep| && w < |rep| && rep[w] == w && w !in P
    requires rep[u] < |rep| && rep[v] < |rep| && rep[rep[u]] == rep[u] && z in nonBack'[rep[v]] && rep[z] == rep[u]
    requires rep[v] in P ==> rep[z] == w || rep[z] in P || rep[z] in nonBack'[w]
    ensures |Collapse(rep, P, w)| == |rep|
    ensures var rep' := Collapse(rep, P, w); rep'[u] == rep'[v] || Listed(rep', nonBack', rep'[v], rep'[u])
  {
    CollapseAt(rep, P, w, z);
    CollapseAt(rep, P, w, u);
    CollapseAt(rep, P, w, v);
    CollapseAt(rep, P, w, rep[u]);
    hide Collapse;
  }

  lemma CollapsePending(t: Tree, rep: seq<nat>, back: seq<set<nat>>, P: set<nat>, w: nat, u: nat, v: nat)
    requires Ok(t) && Classes(t, rep, w + 1) && w < |rep| && Members(t, rep, w, P) && BackEdges(t, back)
    requires forall y :: y in back[w] && y != w ==> rep[y] in P
    requires E(t, u, v) && rep[v] == v && v < w + 1 && Anc(t, v, u)
    ensures |Collapse(rep, P, w)| == |rep|
    ensures var rep' := Collapse(rep, P, w); rep'[u] == rep'[v] || (rep'[v] == v && v < w)
  {
    RootOfHeader(t, rep, w);
    CollapseAt(rep, P, w, u);
    CollapseAt(rep, P, w, v);
    if v == w {
      assert u in back[w];
    } else if v in P {
      AncestorLe(t.parent, w, v);
    }
  }

  // ----- what a processed header promises -------------------------------------

  /** Walking headers up from `x` ends at its representative. */
  lemma {:induction false} RepresentativeAbove(t: Tree, rep: seq<nat>, header: seq<nat>, x: nat)
    requires Records(t, rep, header) && x < |rep|
    ensures InLoop(header, rep[x], x)
    decreases x
  {
    if header[x] != 0 {
      RepresentativeAbove(t, rep, header, header[x]);
    }
  }

  lemma {:induction false} InLoopSameClass(t: Tree, rep: seq<nat>, header: seq<nat>, h: nat, x: nat)
    requires Records(t, rep, header) && x < |rep| && h < |rep| && InLoop(header, h, x)
    ensures rep[h] == rep[x]
    decreases x
  {
    if h != x {
      InLoopSameClass(t, rep, header, h, header[x]);
    }
  }

  /** For a representative, its loop is its class. */
  lemma LoopIsClass(t: Tree, rep: seq<nat>, header: seq<nat>, h: nat, x: nat)
    requires Records(t, rep, header) && x < |rep| && h < |rep| && rep[h] == h
    ensures InLoop(header, h, x) <==> rep[x] == h
  {
    RepresentativeAbove(t, rep, header, x);
    if InLoop(header, h, x) {
      InLoopSameClass(t, rep, header, h, x);
    }
  }

  /** Giving roots a header below `h` changes no loop of `h`. */
  lemma {:induction false} LoopUnchanged(header: seq<nat>, P: set<nat>, w: nat, h: nat, x: nat)
    requires HeadersOk(header) && HeadersOk(SetHeaders(header, P, w)) && x < |header|
    requires 0 < w < h && w < |header| && forall y :: y in P ==> y < |header| && header[y] == 0
    ensures InLoop(SetHeaders(header, P, w), h, x) <==> InLoop(header, h, x)
    decreases x
  {
    var header' := SetHeaders(header, P, w);
    if h != x {
      if x in P {
        if InLoop(header', h, w) {
          InLoopLe(header', h, w);
        }
      } else if header[x] != 0 {
        LoopUnchanged(header, P, w, h, header[x]);
      }
    }
  }

  lemma {:induction false} InLoopLe(header: seq<nat>, h: nat, x: nat)
    requires HeadersOk(header) && x < |header| && InLoop(header, h, x)
    ensures h <= x
    decreases x
  {
    if h != x {
      InLoopLe(header, h, header[x]);
    }
  }

  /** A path into `v` that avoids the dominator `h` of `v` starts at a block `h` dominates. */
  lemma DominatesSource(g: Graph, h: nat, v: nat, u: nat, p: seq<nat>)
    requires Dominates(g, h, v) && PathFromTo(g, p, u, v) && h !in p
    ensures Dominates(g, h, u)
  {
    forall q | PathFromTo(g, q, 0, u)
      ensures h in q
    {
      JoinPaths(g, q, p, 0, u, v);
      assert h in q + p[1..];
      assert forall i :: 0 <= i < |p[1..]| ==> p[1..][i] in p;
    }
  }

  lemma PathSuffix(g: Graph, p: seq<nat>, a: nat, b: nat, i: nat)
    requires PathFromTo(g, p, a, b) && i < |p|
    ensures PathFromTo(g, p[i..], p[i], b)
  {
    var q := p[i..];
    forall j {:trigger q[j + 1]} | 0 <= j < |q| - 1
      ensures Edge(g, q[j], q[j + 1])
    {
      var k := i + j;
      assert Edge(g, p[k], p[k + 1]);
    }
  }

  /** A path whose blocks are all dominated by `h` stays in the subtree of `h`. */
  lemma DominatedStays(t: Tree, h: nat, p: seq<nat>)
    requires Ok(t) && h < |t.node| && IsPath(t.g, p) && p[0] in t.number && forall x :: x in p ==> Dominates(t.g, t.node[h], x)
    ensures InSubtree(t, h, p)
  {
    forall x | x in p
      ensures x in t.number && Anc(t, h, t.number[x])
    {
      var i: nat :| i < |p| && p[i] == x;
      PathNumbered(t.g, t.node, t.number, t.last, t.parent, p, i);
      DominatorIsAncestor(t.g, t.node, t.number, t.parent, t.node[h], t.number[x]);
      assert t.number[t.node[h]] == h;
    }
  }

  /** The natural loop of every back edge is in the loop of its header. */
  lemma NaturalLoopInside(t: Tree, header: seq<nat>, kind: seq<NodeType>, h: nat, v: nat, u: nat)
    requires Ok(t) && |header| == |kind| == |t.node| && HeadersOk(header) && h < |header| && LoopOk(t, header, kind, h)
    requires NaturalLoop(t, h, v, u)
    ensures InLoop(header, h, u)
  {
    StaysHere(t, h);
    hide LoopOk;
    if u != h {
      var p :| PathFromTo(t.g, p, t.node[u], t.node[v]) && t.node[h] !in p;
      forall x | x in p
        ensures Dominates(t.g, t.node[h], x)
      {
        var i: nat :| i < |p| && p[i] == x;
        PathSuffix(t.g, p, t.node[u], t.node[v], i);
        assert forall y :: y in p[i..] ==> y in p;
        DominatesSource(t.g, t.node[h], t.node[v], x, p[i..]);
      }
      assert p[0] == t.node[u] && p[0] in t.number;
      DominatedStays(t, h, p);
      assert Stays(t, h, u, v);
      LatchBack(t, h, v, u, p);
    }
    LoopOkMembers(t, header, kind, h, u);
  }

  lemma LatchBack(t: Tree, h: nat, v: nat, u: nat, p: seq<nat>)
    requires Ok(t) && E(t, v, h) && Stays(t, h, u, v) && PathFromTo(t.g, p, t.node[u], t.node[v]) && InSubtree(t, h, p)
    ensures Back(t, h, u)
  {
    assert p[|p| - 1] in p && t.number[t.node[v]] == v;
    assert Anc(t, h, h);
    hide Stays;
    StaysEdge(t, h, v, h);
    StaysTrans(t, h, u, v, h);
  }

  lemma LoopOkMembers(t: Tree, header: seq<nat>, kind: seq<NodeType>, h: nat, u: nat)
    requires |header| == |kind| == |t.node| && HeadersOk(header) && h < |header| && LoopOk(t, header, kind, h) && u < |header|
    ensures InLoop(header, h, u) <==> Back(t, h, u)
  {
  }

  /** Walking back from `w` inside its subtree, every class met is a member. */
  lemma {:induction false} BackMembers(t: Tree, rep: seq<nat>, back: seq<set<nat>>, nonBack: seq<set<nat>>, nonBack': seq<set<nat>>,
                                       P: set<nat>, w: nat, u: nat, p: seq<nat>)
    requires Ok(t) && Classes(t, rep, w + 1) && w < |rep| && Members(t, rep, w, P) && BackEdges(t, back)
    requires Sound(t, rep, nonBack) && Complete(t, rep, nonBack, w + 1) && Widened(t, rep, nonBack, nonBack', P, w)
    requires forall x :: x in P ==> Explored(t, rep, nonBack', w, P, x)
    requires forall y :: y in back[w] && y != w ==> rep[y] in P
    requires u < |t.node| && u != w && PathFromTo(t.g, p, t.node[u], t.node[w]) && InSubtree(t, w, p)
    ensures rep[u] in P
    decreases |p|
  {
    SubtreeSource(t, w, u, p);
    var u' := PathTail(t, p, u, w);
    hide InSubtree, Explored, Sound, Classes, Complete, Widened, Members;
    if u' == w {
      assert u in back[w];
    } else {
      SubtreeTail(t, w, p);
      BackMembers(t, rep, back, nonBack, nonBack', P, w, u', p[1..]);
      BackStep(t, rep, nonBack, nonBack', P, w, u, u');
    }
  }

  lemma SubtreeSource(t: Tree, w: nat, u: nat, p: seq<nat>)
    requires Ok(t) && u < |t.node| && w < |t.node| && u != w && PathFromTo(t.g, p, t.node[u], t.node[w]) && InSubtree(t, w, p)
    ensures Anc(t, w, u) && |p| > 1
  {
    assert p[0] in p && t.number[t.node[u]] == u && t.number[t.node[w]] == w;
  }

  lemma SubtreeTail(t: Tree, w: nat, p: seq<nat>)
    requires InSubtree(t, w, p) && |p| > 0
    ensures InSubtree(t, w, p[1..])
  {
    assert forall x :: x in p[1..] ==> x in p;
  }

  lemma PathTail(t: Tree, p: seq<nat>, u: nat, v: nat) returns (u': nat)
    requires Ok(t) && u < |t.node| && v < |t.node| && |p| > 1 && PathFromTo(t.g, p, t.node[u], t.node[v])
    ensures E(t, u, u') && PathFromTo(t.g, p[1..], t.node[u'], t.node[v])
  {
    var q, i := p[1..], 0;
    assert Edge(t.g, p[i], p[i + 1]);
    u' := t.number[p[1]];
    assert q[0] == p[1] && q[|q| - 1] == p[|p| - 1];
    forall j {:trigger q[j + 1]} | 0 <= j < |q| - 1
      ensures Edge(t.g, q[j], q[j + 1])
    {
      var k := j + 1;
      assert Edge(t.g, p[k], p[k + 1]);
    }
  }

  lemma BackStep(t: Tree, rep: seq<nat>, nonBack: seq<set<nat>>, nonBack': seq<set<nat>>, P: set<nat>, w: nat, u: nat, u': nat)
    requires Ok(t) && Classes(t, rep, w + 1) && w < |rep| && Members(t, rep, w, P)
    requires Sound(t, rep, nonBack) && Complete(t, rep, nonBack, w + 1) && Widened(t, rep, nonBack, nonBack', P, w)
    requires forall x :: x in P ==> Explored(t, rep, nonBack', w, P, x)
    requires E(t, u, u') && rep[u'] in P && Anc(t, w, u) && u != w
    ensures rep[u] in P
  {
    var x := rep[u'];
    AncestorLe(t.parent, w, u);
    AncestorLinear(t.parent, w, rep[u], u);
    AncestorLe(t.parent, w, x);
    if rep[u] != x {
      assert Listed(rep, nonBack, x, rep[u]);
      var z :| z in nonBack[x] && z < |rep| && rep[z] == rep[u];
      assert Explored(t, rep, nonBack', w, P, x);
      assert z in nonBack'[x];
    }
  }

  // ----- a header is done ----------------------------------------------------

  /** A member has an edge from a class outside the subtree of `w`. */
  ghost predicate OutsideEntry(t: Tree, rep: seq<nat>, nonBack: seq<set<nat>>, w: nat, P: set<nat>)
    requires |rep| == |nonBack| == |t.node|
  {
    exists x, y :: x in P && x < |rep| && y in nonBack[x] && y < |rep| && !Anc(t, w, rep[y])
  }

  /** Everything the search for the members of `w` has established. */
  ghost predicate Searched(t: Tree, rep: seq<nat>, back: seq<set<nat>>, nonBack: seq<set<nat>>, nonBack': seq<set<nat>>, P: set<nat>, w: nat)
    requires |rep| == |nonBack| == |back| == |t.node| && w < |rep|
    requires Sound(t, rep, nonBack)
  {
    && Members(t, rep, w, P) && Widened(t, rep, nonBack, nonBack', P, w)
    && (forall x :: x in P ==> Explored(t, rep, nonBack', w, P, x))
    && (forall v :: v in back[w] && v != w ==> v < |rep| && rep[v] in P)
  }

  /** The loop of `w` is made up of exactly the nodes that get back to it in its subtree. */
  lemma LoopIsBack(t: Tree, rep: seq<nat>, header: seq<nat>, back: seq<set<nat>>, nonBack: seq<set<nat>>, nonBack': seq<set<nat>>,
                   P: set<nat>, w: nat, u: nat)
    requires Ok(t) && Classes(t, rep, w + 1) && w < |rep| && BackEdges(t, back)
    requires Sound(t, rep, nonBack) && Complete(t, rep, nonBack, w + 1) && Searched(t, rep, back, nonBack, nonBack', P, w)
    requires Records(t, Collapse(rep, P, w), header) && u < |rep|
    ensures InLoop(header, w, u) <==> Back(t, w, u)
  {
    RootOfHeader(t, rep, w);
    CollapsedLoop(t, rep, header, P, w, u);
    if rep[u] in P {
      BackTrans(t, w, rep[u], u);
    }
    hide Records, InLoop, Collapse;
    if Back(t, w, u) && u != w {
      var p :| PathFromTo(t.g, p, t.node[u], t.node[w]) && InSubtree(t, w, p);
      BackMembers(t, rep, back, nonBack, nonBack', P, w, u, p);
    }
  }

  lemma MembersAreIn(t: Tree, rep: seq<nat>, header: seq<nat>, P: set<nat>, w: nat)
    requires Ok(t) && Classes(t, rep, w + 1) && w < |rep| && Members(t, rep, w, P) && Records(t, Collapse(rep, P, w), header)
    ensures |header| == |rep| && HeadersOk(header) && (HasMembers(header, w) <==> P != {})
  {
    RootOfHeader(t, rep, w);
    CollapseAt(rep, P, w, w);
    hide Collapse, InLoop, Anc, Back;
    if x :| x in P {
      CollapsedLoop(t, rep, header, P, w, x);
    }
    if HasMembers(header, w) {
      var u: nat :| u < |header| && u != w && InLoop(header, w, u);
      CollapsedLoop(t, rep, header, P, w, u);
    }
  }

  lemma IrreducibleIffEntered(t: Tree, rep: seq<nat>, header: seq<nat>, back: seq<set<nat>>, nonBack: seq<set<nat>>, nonBack': seq<set<nat>>,
                              P: set<nat>, w: nat)
    requires Ok(t) && Classes(t, rep, w + 1) && w < |rep| && BackEdges(t, back)
    requires Sound(t, rep, nonBack) && Complete(t, rep, nonBack, w + 1) && Searched(t, rep, back, nonBack, nonBack', P, w)
    requires Records(t, Collapse(rep, P, w), header)
    ensures OutsideEntry(t, rep, nonBack, w, P) <==> EnteredAside(t, header, w)
  {
    RootOfHeader(t, rep, w);
    if OutsideEntry(t, rep, nonBack, w, P) {
      OutsideIsEntered(t, rep, header, nonBack, P, w);
    }
    if EnteredAside(t, header, w) {
      var u: nat, v: nat :| E(t, u, v) && v != w && InLoop(header, w, v) && !InLoop(header, w, u);
      CollapsedLoop(t, rep, header, P, w, u);
      CollapsedLoop(t, rep, header, P, w, v);
      assert rep[v] in P && rep[u] !in P && rep[u] != w;
      hide Ok, Anc, Collapse, Records, InLoop, E, Complete, Sound, Classes, EnteredAside, OutsideEntry;
      EnteredIsOutside(t, rep, nonBack, nonBack', P, w, u, v);
    }
  }

  lemma CollapsedLoop(t: Tree, rep: seq<nat>, header: seq<nat>, P: set<nat>, w: nat, x: nat)
    requires w < |rep| && x < |rep| && rep[w] == w && w !in P && Records(t, Collapse(rep, P, w), header)
    ensures InLoop(header, w, x) <==> rep[x] == w || rep[x] in P
  {
    CollapseAt(rep, P, w, w);
    CollapseAt(rep, P, w, x);
    LoopIsClass(t, Collapse(rep, P, w), header, w, x);
  }

  lemma OutsideIsEntered(t: Tree, rep: seq<nat>, header: seq<nat>, nonBack: seq<set<nat>>, P: set<nat>, w: nat)
    requires w < |rep| && rep[w] == w && Sound(t, rep, nonBack) && Members(t, rep, w, P) && Anc(t, w, w)
    requires Records(t, Collapse(rep, P, w), header) && OutsideEntry(t, rep, nonBack, w, P)
    ensures EnteredAside(t, header, w)
  {
    var x, y :| x in P && x < |rep| && y in nonBack[x] && y < |rep| && !Anc(t, w, rep[y]);
    var u: nat, v: nat :| E(t, u, v) && rep[u] == rep[y] && rep[v] == rep[x];
    CollapsedLoop(t, rep, header, P, w, u);
    CollapsedLoop(t, rep, header, P, w, v);
    hide Anc, Records, Collapse, InLoop, Sound;
  }

  lemma EnteredIsOutside(t: Tree, rep: seq<nat>, nonBack: seq<set<nat>>, nonBack': seq<set<nat>>, P: set<nat>, w: nat, u: nat, v: nat)
    requires Ok(t) && Classes(t, rep, w + 1) && w < |rep| && Members(t, rep, w, P)
    requires Sound(t, rep, nonBack) && Complete(t, rep, nonBack, w + 1) && Widened(t, rep, nonBack, nonBack', P, w)
    requires forall x :: x in P ==> Explored(t, rep, nonBack', w, P, x)
    requires E(t, u, v) && rep[v] in P && rep[u] !in P && rep[u] != w
    ensures OutsideEntry(t, rep, nonBack, w, P)
  {
    AncestorLe(t.parent, w, rep[v]);
    assert Listed(rep, nonBack, rep[v], rep[u]);
    var z :| z in nonBack[rep[v]] && z < |rep| && rep[z] == rep[u];
    assert Explored(t, rep, nonBack', w, P, rep[v]);
    assert z in nonBack'[rep[v]];
  }

  /** The classification of `w` that the search yields. */
  ghost function KindOf(t: Tree, rep: seq<nat>, back: seq<set<nat>>, nonBack: seq<set<nat>>, P: set<nat>, w: nat): NodeType
    requires |rep| == |nonBack| == |back| == |t.node| && w < |rep|
  {
    if OutsideEntry(t, rep, nonBack, w, P) then Irreducible
    else if P != {} then Reducible
    else if w in back[w] then Self else Nonheader
  }

  lemma OldHeadersStay(t: Tree, rep: seq<nat>, header: seq<nat>, kind: seq<NodeType>, P: set<nat>, w: nat, k: NodeType, h: nat)
    requires Records(t, rep, header) && |kind| == |t.node| && 0 < w < h < |t.node|
    requires (forall x :: x in P ==> x < |rep| && rep[x] == x) && HeadersOk(SetHeaders(header, P, w))
    requires LoopOk(t, header, kind, h)
    ensures LoopOk(t, SetHeaders(header, P, w), kind[w := k], h)
  {
    var header' := SetHeaders(header, P, w);
    forall x: nat | x < |header|
      ensures InLoop(header', h, x) <==> InLoop(header, h, x)
    {
      LoopUnchanged(header, P, w, h, x);
    }
    assert EnteredAside(t, header', h) <==> EnteredAside(t, header, h);
    assert HasMembers(header', h) <==> HasMembers(header, h);
  }

  lemma NewHeaderOk(t: Tree, rep: seq<nat>, header: seq<nat>, kind: seq<NodeType>, back: seq<set<nat>>, nonBack: seq<set<nat>>, nonBack': seq<set<nat>>,
                    P: set<nat>, w: nat)
    requires Ok(t) && Classes(t, rep, w + 1) && w < |rep| && BackEdges(t, back) && |kind| == |t.node|
    requires Sound(t, rep, nonBack) && Complete(t, rep, nonBack, w + 1) && Searched(t, rep, back, nonBack, nonBack', P, w)
    requires Records(t, Collapse(rep, P, w), header)
    requires kind[w] == KindOf(t, rep, back, nonBack, P, w)
    requires P != {} ==> exists v :: v in back[w]
    ensures LoopOk(t, header, kind, w)
  {
    IrreducibleIffEntered(t, rep, header, back, nonBack, nonBack', P, w);
    MembersAreIn(t, rep, header, P, w);
    forall u: nat | u < |header|
      ensures InLoop(header, w, u) <==> Back(t, w, u)
    {
      LoopIsBack(t, rep, header, back, nonBack, nonBack', P, w, u);
    }
  }

  /** Processing `w` re-establishes the invariant one node further down. */
  lemma HeaderDone(t: Tree, rep: seq<nat>, header: seq<nat>, kind: seq<NodeType>, back: seq<set<nat>>, nonBack: seq<set<nat>>, nonBack': seq<set<nat>>,
                   P: set<nat>, w: nat)
    requires Inv(t, rep, header, kind, back, nonBack, w + 1) && w < |t.node|
    requires Searched(t, rep, back, nonBack, nonBack', P, w)
    requires P != {} ==> exists v :: v in back[w]
    ensures Inv(t, Collapse(rep, P, w), SetHeaders(header, P, w), kind[w := KindOf(t, rep, back, nonBack, P, w)], back, nonBack', w)
  {
    var k := KindOf(t, rep, back, nonBack, P, w);
    hide Classes, Records, Sound, Complete, BackEdges, LoopOk, KindOf, Collapse, SetHeaders, Members, Widened, Explored;
    CollapseClasses(t, rep, P, w);
    CollapseSound(t, rep, nonBack, nonBack', P, w);
    CollapseComplete(t, rep, back, nonBack, nonBack', P, w);
    if w > 0 {
      CollapseRecords(t, rep, header, P, w);
    } else {
      NothingAtEntry(t, rep, header, back, P);
    }
    NewHeaderOk(t, rep, SetHeaders(header, P, w), kind[w := k], back, nonBack, nonBack', P, w);
    var header', kind' := SetHeaders(header, P, w), kind[w := k];
    forall h | w < h < |t.node|
      ensures LoopOk(t, header', kind', h)
    {
      if w > 0 {
        RootsAre(t, rep, w, P);
        OldHeadersStay(t, rep, header, kind, P, w, k, h);
      } else {
        KindElsewhere(t, header, kind, w, k, h);
      }
    }
  }

  lemma RootsAre(t: Tree, rep: seq<nat>, w: nat, P: set<nat>)
    requires |rep| == |t.node| && Members(t, rep, w, P)
    ensures forall x :: x in P ==> x < |rep| && rep[x] == x
  {
  }

  lemma KindElsewhere(t: Tree, header: seq<nat>, kind: seq<NodeType>, w: nat, k: NodeType, h: nat)
    requires |header| == |kind| == |t.node| && HeadersOk(header) && h < |header| && w < |header| && h != w
    requires LoopOk(t, header, kind, h)
    ensures LoopOk(t, header, kind[w := k], h)
  {
  }

  /** Nothing jumps to the entry, so it heads no loop. */
  lemma NothingAtEntry(t: Tree, rep: seq<nat>, header: seq<nat>, back: seq<set<nat>>, P: set<nat>)
    requires Ok(t) && Records(t, rep, header) && BackEdges(t, back)
    requires P != {} ==> exists v :: v in back[0]
    ensures P == {} && Collapse(rep, P, 0) == rep && SetHeaders(header, P, 0) == header
    ensures Records(t, Collapse(rep, P, 0), SetHeaders(header, P, 0))
  {
    assert t.node[0] == 0;
  }

  // ----- the search for the members of a loop ---------------------------------

  /** The edge listed by `y` has been dealt with. */
  ghost predicate Examined(t: Tree, rep: seq<nat>, nonBack: seq<set<nat>>, w: nat, P: set<nat>, y: nat)
    requires |rep| == |nonBack| == |t.node| && w < |rep|
  {
    y < |rep| && (rep[y] == w || rep[y] in P || (!Anc(t, w, rep[y]) && rep[y] in nonBack[w]))
  }

  /** The state of the search while the classes in `work` are still to be explored. */
  ghost predicate Search(t: Tree, rep: seq<nat>, back: seq<set<nat>>, nonBack: seq<set<nat>>, nonBack': seq<set<nat>>,
                         P: set<nat>, work: set<nat>, w: nat, irr: bool) {
    && |rep| == |nonBack| == |nonBack'| == |back| == |t.node| && w < |rep| && Sound(t, rep, nonBack)
    && Members(t, rep, w, P) && Widened(t, rep, nonBack, nonBack', P, w) && work <= P
    && (forall x :: x in P && x !in work ==> Explored(t, rep, nonBack', w, P, x))
    && (irr ==> OutsideEntry(t, rep, nonBack, w, P))
    && (!irr ==> forall x :: x in P && x !in work ==> NoneOutside(t, rep, nonBack, w, x))
  }

  ghost predicate NoneOutside(t: Tree, rep: seq<nat>, nonBack: seq<set<nat>>, w: nat, x: nat)
    requires |rep| == |nonBack| == |t.node|
  {
    x < |rep| && forall y :: y in nonBack[x] ==> y < |rep| && Anc(t, w, rep[y])
  }

  /** The search state, with the sources in `seen` examined. */
  ghost predicate After(t: Tree, rep: seq<nat>, back: seq<set<nat>>, nonBack: seq<set<nat>>, nonBack': seq<set<nat>>,
                        P: set<nat>, work: set<nat>, w: nat, irr: bool, seen: set<nat>) {
    && Search(t, rep, back, nonBack, nonBack', P, work, w, irr)
    && (forall z :: z in seen ==> Examined(t, rep, nonBack', w, P, z) && (!irr ==> Anc(t, w, rep[z])))
  }

  /** A source outside the subtree of `w` is listed at `w`. */
  lemma ExamineOutside(t: Tree, rep: seq<nat>, back: seq<set<nat>>, nonBack: seq<set<nat>>, nonBack': seq<set<nat>>,
                       P: set<nat>, work: set<nat>, w: nat, irr: bool, x: nat, y: nat, seen: set<nat>)
    requires After(t, rep, back, nonBack, nonBack', P, work, w, irr, seen) && x in work && y in nonBack[x]
    requires y < |rep| && rep[y] < |rep| && rep[rep[y]] == rep[y] && !Anc(t, w, rep[y])
    ensures After(t, rep, back, nonBack, nonBack'[w := nonBack'[w] + {rep[y]}], P, work, w, true, seen + {y})
  {
    hide Anc, Back, Enters, Sound, Members;
    var new' := nonBack'[w := nonBack'[w] + {rep[y]}];
    assert x in P && OutsideEntry(t, rep, nonBack, w, P);
    assert Widened(t, rep, nonBack, new', P, w);
    forall z | z in P && z !in work
      ensures Explored(t, rep, new', w, P, z)
    {
      assert Explored(t, rep, nonBack', w, P, z);
      assert new'[z] == nonBack'[z];
    }
  }

  /** A class inside the subtree becomes a member to explore. */
  lemma ExamineInside(t: Tree, rep: seq<nat>, back: seq<set<nat>>, nonBack: seq<set<nat>>, nonBack': seq<set<nat>>,
                      P: set<nat>, work: set<nat>, w: nat, irr: bool, x: nat, y: nat, seen: set<nat>)
    requires After(t, rep, back, nonBack, nonBack', P, work, w, irr, seen) && x in work && y in nonBack[x]
    requires y < |rep| && rep[y] < |rep| && rep[rep[y]] == rep[y] && Anc(t, w, rep[y]) && Back(t, w, rep[y])
    requires rep[y] != w && rep[y] !in P
    ensures After(t, rep, back, nonBack, nonBack', P + {rep[y]}, work + {rep[y]}, w, irr, seen + {y})
  {
    hide Anc, Back, Enters, Sound;
    var P', work' := P + {rep[y]}, work + {rep[y]};
    assert Widened(t, rep, nonBack, nonBack', P', w);
    forall z | z in P' && z !in work'
      ensures Explored(t, rep, nonBack', w, P', z)
    {
      assert Explored(t, rep, nonBack', w, P, z);
    }
    if irr {
      assert OutsideEntry(t, rep, nonBack, w, P);
      var x0, y0 :| x0 in P && x0 < |rep| && y0 in nonBack[x0] && y0 < |rep| && !Anc(t, w, rep[y0]);
      assert x0 in P';
    }
  }

  lemma ExamineKnown(t: Tree, rep: seq<nat>, back: seq<set<nat>>, nonBack: seq<set<nat>>, nonBack': seq<set<nat>>,
                     P: set<nat>, work: set<nat>, w: nat, irr: bool, y: nat, seen: set<nat>)
    requires After(t, rep, back, nonBack, nonBack', P, work, w, irr, seen)
    requires y < |rep| && Anc(t, w, rep[y]) && (rep[y] == w || rep[y] in P)
    ensures After(t, rep, back, nonBack, nonBack', P, work, w, irr, seen + {y})
  {
    hide Anc, Back, Enters, Sound, Members, Widened, Explored, OutsideEntry;
  }

  /** Once all its listed sources are examined, a class is explored. */
  lemma ExploreDone(t: Tree, rep: seq<nat>, back: seq<set<nat>>, nonBack: seq<set<nat>>, nonBack': seq<set<nat>>,
                    P: set<nat>, work: set<nat>, w: nat, irr: bool, x: nat)
    requires x in work && Search(t, rep, back, nonBack, nonBack', P, work, w, irr)
    requires x < |rep| && After(t, rep, back, nonBack, nonBack', P, work, w, irr, nonBack[x])
    ensures Search(t, rep, back, nonBack, nonBack', P, work - {x}, w, irr)
  {
    assert nonBack'[x] == nonBack[x];
  }

  lemma SearchDone(t: Tree, rep: seq<nat>, back: seq<set<nat>>, nonBack: seq<set<nat>>, nonBack': seq<set<nat>>, P: set<nat>, w: nat, irr: bool)
    requires Search(t, rep, back, nonBack, nonBack', P, {}, w, irr)
    requires forall v :: v in back[w] && v != w ==> v < |rep| && rep[v] in P
    ensures Searched(t, rep, back, nonBack, nonBack', P, w)
    ensures irr <==> OutsideEntry(t, rep, nonBack, w, P)
  {
    if OutsideEntry(t, rep, nonBack, w, P) {
      var x, y :| x in P && x < |rep| && y in nonBack[x] && y < |rep| && !Anc(t, w, rep[y]);
      assert !NoneOutside(t, rep, nonBack, w, x);
    }
  }

  lemma SearchStart(t: Tree, rep: seq<nat>, back: seq<set<nat>>, nonBack: seq<set<nat>>, P: set<nat>, w: nat)
    requires |back| == |t.node| && w < |rep| && Sound(t, rep, nonBack) && Members(t, rep, w, P)
    ensures Search(t, rep, back, nonBack, nonBack, P, P, w, false)
  {
  }

  // ----- the analysis --------------------------------------------------------

  /** A header is a proper tree ancestor, to which its blocks get back below it. */
  ghost predicate HeadersSound(t: Tree, header: seq<nat>) {
    |header| == |t.node| && HeadersOk(header)
    && forall x :: 0 <= x < |header| && header[x] != 0 ==> Anc(t, header[x], x) && Back(t, header[x], x)
  }

  lemma InvAtEnd(t: Tree, rep: seq<nat>, header: seq<nat>, kind: seq<NodeType>, back: seq<set<nat>>, nonBack: seq<set<nat>>)
    requires Inv(t, rep, header, kind, back, nonBack, 0)
    ensures HeadersSound(t, header) && |kind| == |t.node| && forall h :: 0 <= h < |t.node| ==> LoopOk(t, header, kind, h)
  {
  }

  ghost function Zeros(n: nat): seq<nat> {
    seq(n, _ => 0)
  }

  ghost function Identity(n: nat): seq<nat> {
    seq(n, i => i)
  }

  lemma InvAtStart(t: Tree, kind: seq<NodeType>, back: seq<set<nat>>, nonBack: seq<set<nat>>)
    requires Ok(t) && |kind| == |t.node| && BackEdges(t, back) && OtherEdges(t, nonBack)
    ensures Inv(t, Identity(|t.node|), Zeros(|t.node|), kind, back, nonBack, |t.node|)
  {
    var n := |t.node|;
    var rep := Identity(n);
    forall x: nat | x < n
      ensures Anc(t, x, x) && Back(t, x, x)
    {
      StaysHere(t, x);
    }
    hide Anc, Back, E;
    forall x, y | 0 <= x < n && y in nonBack[x]
      ensures y < n && Enters(t, rep, y, x)
    {
      assert E(t, y, x);
    }
    forall u: nat, v: nat | E(t, u, v)
      ensures rep[u] == rep[v] || Listed(rep, nonBack, rep[v], rep[u]) || (rep[v] == v && v < n && Anc(t, v, u))
    {
      EdgeBounds(t, u, v);
      if !Anc(t, v, u) {
        assert u in nonBack[v];
      }
    }
  }

  lemma EdgeBounds(t: Tree, u: nat, v: nat)
    requires E(t, u, v)
    ensures u < |t.node| && v < |t.node|
  {
  }

  /** The edges from the blocks before `src` in BB order have been sorted. */
  ghost predicate EdgesBefore(t: Tree, back: seq<set<nat>>, nonBack: seq<set<nat>>, src: nat) {
    && |back| == |nonBack| == |t.node|
    && (forall w: nat, v: nat :: w < |back| ==> (v in back[w] <==> E(t, v, w) && Anc(t, w, v) && t.node[v] < src))
    && (forall w: nat, v: nat :: w < |back| ==> (v in nonBack[w] <==> E(t, v, w) && !Anc(t, w, v) && t.node[v] < src))
  }

  /** The edges from node `s` have been sorted in addition. */
  ghost predicate EdgesAdded(t: Tree, back0: seq<set<nat>>, nonBack0: seq<set<nat>>, back: seq<set<nat>>, nonBack: seq<set<nat>>, s: nat)
    requires |back0| == |nonBack0| == |t.node|
  {
    && |back| == |nonBack| == |t.node|
    && (forall w: nat, v: nat :: w < |back| ==> (v in back[w] <==> v in back0[w] || (v == s && E(t, v, w) && Anc(t, w, v))))
    && (forall w: nat, v: nat :: w < |back| ==> (v in nonBack[w] <==> v in nonBack0[w] || (v == s && E(t, v, w) && !Anc(t, w, v))))
  }

  /** The edges from node `v` to the blocks in `targets` have been sorted in addition. */
  ghost predicate TargetsAdded(t: Tree, back0: seq<set<nat>>, nonBack0: seq<set<nat>>, back: seq<set<nat>>, nonBack: seq<set<nat>>, v: nat, targets: seq<nat>) {
    && |back0| == |nonBack0| == |back| == |nonBack| == |t.node|
    && (forall w: nat, x: nat :: w < |t.node| ==> (x in back[w] <==> x in back0[w] || (x == v && t.node[w] in targets && Anc(t, w, x))))
    && (forall w: nat, x: nat :: w < |t.node| ==> (x in nonBack[w] <==> x in nonBack0[w] || (x == v && t.node[w] in targets && !Anc(t, w, x))))
  }

  lemma TargetAdded(t: Tree, back0: seq<set<nat>>, nonBack0: seq<set<nat>>, back: seq<set<nat>>, nonBack: seq<set<nat>>, v: nat, targets: seq<nat>, w: nat)
    requires TargetsAdded(t, back0, nonBack0, back, nonBack, v, targets) && w < |t.node|
    requires forall x :: 0 <= x < |t.node| && t.node[x] == t.node[w] ==> x == w
    ensures Anc(t, w, v) ==> TargetsAdded(t, back0, nonBack0, back[w := back[w] + {v}], nonBack, v, targets + [t.node[w]])
    ensures !Anc(t, w, v) ==> TargetsAdded(t, back0, nonBack0, back, nonBack[w := nonBack[w] + {v}], v, targets + [t.node[w]])
  {
    hide Anc;
  }

  lemma EdgesBeforeLengths(t: Tree, back: seq<set<nat>>, nonBack: seq<set<nat>>, src: nat)
    requires EdgesBefore(t, back, nonBack, src)
    ensures |back| == |nonBack| == |t.node|
  {
  }

  lemma EdgesBeforeStep(t: Tree, back0: seq<set<nat>>, nonBack0: seq<set<nat>>, back: seq<set<nat>>, nonBack: seq<set<nat>>, src: nat)
    requires Ok(t) && src in t.number && EdgesBefore(t, back0, nonBack0, src)
    requires EdgesAdded(t, back0, nonBack0, back, nonBack, t.number[src])
    ensures EdgesBefore(t, back, nonBack, src + 1)
  {
    forall v: nat | v < |t.node|
      ensures t.node[v] < src + 1 <==> t.node[v] < src || v == t.number[src]
    {
      assert t.number[t.node[v]] == v;
    }
    hide Ok, Anc;
  }

  lemma EdgesBeforeSkip(t: Tree, back: seq<set<nat>>, nonBack: seq<set<nat>>, src: nat)
    requires Ok(t) && src !in t.number && EdgesBefore(t, back, nonBack, src)
    ensures EdgesBefore(t, back, nonBack, src + 1)
  {
    forall v: nat | v < |t.node|
      ensures t.node[v] < src + 1 <==> t.node[v] < src
    {
      assert t.node[v] in t.number;
    }
    hide Ok, Anc;
  }

  // ----- the loop forest -----------------------------------------------------

  /** An outermost header. */
  predicate IsRoot(header: seq<nat>, kind: seq<NodeType>, i: nat)
    requires i < |header| == |kind|
  {
    header[i] == 0 && kind[i] != Nonheader
  }

  function RootsUpTo(header: seq<nat>, kind: seq<NodeType>, n: nat): seq<nat>
    requires n <= |header| == |kind|
  {
    if n == 0 then [] else RootsUpTo(header, kind, n - 1) + if IsRoot(header, kind, n - 1) then [n - 1] else []
  }

  /** The first `n` nodes whose header is `h`. */
  function ChildrenUpTo(header: seq<nat>, h: nat, n: nat): seq<nat>
    requires n <= |header|
  {
    if n == 0 then [] else ChildrenUpTo(header, h, n - 1) + if header[n - 1] == h != 0 then [n - 1] else []
  }

  /** Outermost headers and nodes with children are in the forest; all others are leaves. */
  ghost predicate ForestUpTo(header: seq<nat>, kind: seq<NodeType>, n: nat, roots: seq<nat>, forest: map<nat, seq<nat>>)
    requires n <= |header| == |kind|
  {
    && roots == RootsUpTo(header, kind, n)
    && (forall h: nat :: h in forest <==> (h < n && IsRoot(header, kind, h)) || ChildrenUpTo(header, h, n) != [])
    && forall h: nat :: h in forest ==> forest[h] == ChildrenUpTo(header, h, n)
  }

  lemma ForestStep(header: seq<nat>, kind: seq<NodeType>, i: nat, roots: seq<nat>, forest: map<nat, seq<nat>>)
    requires i < |header| == |kind| && ForestUpTo(header, kind, i, roots, forest)
    ensures var h := header[i];
      if h == 0 && kind[i] != Nonheader then ForestUpTo(header, kind, i + 1, roots + [i], if i in forest then forest else forest[i := []])
      else if h != 0 then ForestUpTo(header, kind, i + 1, roots, forest[h := (if h in forest then forest[h] else []) + [i]])
      else ForestUpTo(header, kind, i + 1, roots, forest)
  {
    hide ChildrenUpTo, RootsUpTo;
    forall h: nat
      ensures ChildrenUpTo(header, h, i + 1) == ChildrenUpTo(header, h, i) + if header[i] == h != 0 then [i] else []
    {
      ChildrenNext(header, h, i);
    }
    RootsNext(header, kind, i);
  }

  lemma ChildrenNext(header: seq<nat>, h: nat, i: nat)
    requires i < |header|
    ensures ChildrenUpTo(header, h, i + 1) == ChildrenUpTo(header, h, i) + if header[i] == h != 0 then [i] else []
  {
  }

  lemma RootsNext(header: seq<nat>, kind: seq<NodeType>, i: nat)
    requires i < |header| == |kind|
    ensures RootsUpTo(header, kind, i + 1) == RootsUpTo(header, kind, i) + if IsRoot(header, kind, i) then [i] else []
  {
  }

  class LoopAnalysis {
    const g: Graph
    var roots: seq<nat>
    var forest: map<nat, seq<nat>>
    var number: map<nat, nat>
    var node: seq<nat>
    var last: seq<int>
    var header: seq<nat>
    var kind: seq<NodeType>
    ghost var parent: seq<nat>

    ghost function T(): Tree
      reads this
    {
      Tree(g, node, number, last, parent)
    }

    /** What the analysis promises about its results. */
    ghost predicate Done()
      reads this
    {
      && Ok(T()) && HeadersSound(T(), header) && |kind| == |node| && (forall h :: 0 <= h < |node| ==> LoopOk(T(), header, kind, h))
      && ForestUpTo(header, kind, |header|, roots, forest)
    }

    constructor (g: Graph)
      requires Valid(g) && forall b: nat :: !Edge(g, b, 0)
      ensures this.g == g && Done()
    {
      this.g := g;
      roots, forest := [], map[];
      new;
      node, number, last, parent := BuildSpanningTree(g);
      Run();
    }

    /** The interval test. */
    predicate IsAncestor(w: nat, v: nat)
      requires w < |last|
      reads this
    {
      w <= v <= last[w]
    }

    lemma AncestorTest(w: nat, v: nat)
      requires Ok(T()) && w < |node| && v < |node|
      ensures |last| == |node| && (IsAncestor(w, v) <==> Anc(T(), w, v))
    {
    }

    /** Sorts every edge between numbered blocks by whether it leads to an ancestor. */
    method CollectPreds() returns (back: seq<set<nat>>, nonBack: seq<set<nat>>)
      requires Ok(T())
      ensures BackEdges(T(), back) && OtherEdges(T(), nonBack)
    {
      back, nonBack := seq(|node|, _ => {}), seq(|node|, _ => {});
      var src := 0;
      while src < |g|
        invariant src <= |g| && EdgesBefore(T(), back, nonBack, src)
      {
        hide EdgesBefore, EdgesAdded;
        EdgesBeforeLengths(T(), back, nonBack, src);
        ghost var back0, nonBack0 := back, nonBack;
        if src in number {
          back, nonBack := CollectFrom(src, back, nonBack);
          EdgesBeforeStep(T(), back0, nonBack0, back, nonBack, src);
        } else {
          EdgesBeforeSkip(T(), back, nonBack, src);
        }
        src := src + 1;
      }
    }

    /** Adds the edges that leave one block. */
    method CollectFrom(src: nat, back0: seq<set<nat>>, nonBack0: seq<set<nat>>) returns (back: seq<set<nat>>, nonBack: seq<set<nat>>)
      requires Ok(T()) && src < |g| && src in number && |back0| == |nonBack0| == |node|
      ensures EdgesAdded(T(), back0, nonBack0, back, nonBack, number[src])
    {
      back, nonBack := back0, nonBack0;
      var v, i := number[src], 0;
      assert node[v] == src && |last| == |node|;
      ghost var t := T();
      hide Ok, Anc;
      assert TargetsAdded(t, back0, nonBack0, back, nonBack, v, g[src][..i]);
      while i < |g[src]|
        invariant i <= |g[src]| && |back| == |nonBack| == |node| && TargetsAdded(t, back0, nonBack0, back, nonBack, v, g[src][..i])
      {
        hide TargetsAdded;
        var dst := g[src][i];
        assert g[src][..i + 1] == g[src][..i] + [dst];
        TargetNumbered(T(), src, dst);
        var w := number[dst];
        AncestorTest(w, v);
        TargetAdded(t, back0, nonBack0, back, nonBack, v, g[src][..i], w);
        if IsAncestor(w, v) {
          back := back[w := back[w] + {v}];
        } else {
          nonBack := nonBack[w := nonBack[w] + {v}];
        }
        i := i + 1;
      }
      assert g[src][..i] == g[src];
    }

    /** Finds the classes that make up the loop of `w`, by walking back from its latches. */
    method FindMembers(w: nat, back: seq<set<nat>>, nonBack: seq<set<nat>>, uf: UnionFind)
      returns (P: set<nat>, nonBack': seq<set<nat>>, irr: bool)
      requires |back| == |nonBack| == |uf.rep| == |node| && w < |node|
      requires Ok(T()) && uf.Valid() && Classes(T(), uf.rep, w + 1)
      requires BackEdges(T(), back) && Sound(T(), uf.rep, nonBack)
      modifies uf
      ensures uf.Valid() && uf.rep == old(uf.rep) && Searched(T(), uf.rep, back, nonBack, nonBack', P, w)
      ensures irr <==> OutsideEntry(T(), uf.rep, nonBack, w, P)
      ensures P != {} ==> exists v :: v in back[w]
    {
      hide Ok, Classes, Anc, Back, Search, Sound, BackEdges, OutsideEntry, Searched, Members, After;
      P := Latches(w, back, uf);
      ghost var t, rep, latches := T(), uf.rep, P;
      nonBack', irr := nonBack, false;
      var work := P;
      SearchStart(t, rep, back, nonBack, P, w);
      while work != {}
        invariant uf.Valid() && uf.rep == rep && latches <= P
        invariant Search(t, rep, back, nonBack, nonBack', P, work, w, irr)
        invariant latches == {} ==> work == {} && P == {}
        decreases Indices(node) - (P - work)
      {
        var x :| x in work;
        ghost var P0, work0 := P, work;
        SearchBounds(t, rep, back, nonBack, nonBack', P, work, w, irr, x);
        P, work, nonBack', irr := Explore(w, back, nonBack, uf, P, work, nonBack', irr, x);
        IndexIn(node, x);
        assert P - work == (P0 - work0) + {x};
      }
      SearchDone(t, rep, back, nonBack, nonBack', P, w, irr);
    }

    /** One round of the search: takes `x` off the worklist and looks at its sources. */
    method Explore(w: nat, back: seq<set<nat>>, nonBack: seq<set<nat>>, uf: UnionFind,
                   P0: set<nat>, work0: set<nat>, nonBack0: seq<set<nat>>, irr0: bool, x: nat)
      returns (P: set<nat>, work: set<nat>, nonBack': seq<set<nat>>, irr: bool)
      requires |back| == |nonBack| == |nonBack0| == |uf.rep| == |node| && w < |node|
      requires Ok(T()) && uf.Valid() && Classes(T(), uf.rep, w + 1)
      requires Search(T(), uf.rep, back, nonBack, nonBack0, P0, work0, w, irr0) && x in work0 && x < |node| && x in P0
      requires nonBack0[x] == nonBack[x]
      modifies uf
      ensures uf.Valid() && uf.rep == old(uf.rep)
      ensures P0 <= P && P - work == (P0 - work0) + {x} && |nonBack'| == |node|
      ensures Search(T(), uf.rep, back, nonBack, nonBack', P, work, w, irr)
    {
      hide Ok, Classes, Anc, Back, Search;
      ghost var t, rep := T(), uf.rep;
      P, work, nonBack', irr := P0, work0, nonBack0, irr0;
      var todo := nonBack0[x];
      while todo != {}
        invariant uf.Valid() && uf.rep == rep && P0 <= P && x in work && x in P
        invariant todo <= nonBack[x] && P - work == P0 - work0 && |nonBack'| == |node|
        invariant After(t, rep, back, nonBack, nonBack', P, work, w, irr, nonBack[x] - todo)
        decreases todo
      {
        hide After;
        var y :| y in todo;
        assert nonBack[x] - (todo - {y}) == nonBack[x] - todo + {y};
        P, work, nonBack', irr := Examine(w, back, nonBack, uf, P, work, nonBack', irr, x, y, nonBack[x] - todo);
        todo := todo - {y};
      }
      assert nonBack[x] - todo == nonBack[x];
      ExploreDone(t, rep, back, nonBack, nonBack', P, work, w, irr, x);
      assert P - (work - {x}) == (P - work) + {x};
      work := work - {x};
    }

    /** The classes of the sources of the back edges to `w`. */
    method Latches(w: nat, back: seq<set<nat>>, uf: UnionFind) returns (P: set<nat>)
      requires |back| == |uf.rep| == |node| && w < |node|
      requires Ok(T()) && uf.Valid() && Classes(T(), uf.rep, w + 1) && BackEdges(T(), back)
      modifies uf
      ensures uf.Valid() && uf.rep == old(uf.rep) && Members(T(), uf.rep, w, P)
      ensures forall v :: v in back[w] && v != w ==> v < |uf.rep| && uf.rep[v] in P
      ensures P != {} ==> exists v :: v in back[w]
    {
      hide Ok, Classes, Anc, Back, BackEdges, E, UnionFindForest.Forest;
      P := {};
      var todo := back[w];
      ghost var t := T();
      BackEdgesAt(t, back, w);
      while todo != {}
        invariant uf.Valid() && uf.rep == old(uf.rep) && todo <= back[w] && Members(t, uf.rep, w, P)
        invariant forall v :: v in back[w] - todo && v != w ==> v < |uf.rep| && uf.rep[v] in P
        invariant P != {} ==> exists v :: v in back[w]
      {
        var v :| v in todo;
        if v != w {
          BackSource(t, uf.rep, w, v);
          ClassBound(t, uf.rep, w + 1, v);
          var r := uf.Find(v);
          P := P + {r};
        }
        todo := todo - {v};
      }
    }

    /** The body of the search: one listed source. */
    method Examine(w: nat, back: seq<set<nat>>, nonBack: seq<set<nat>>, uf: UnionFind,
                   P: set<nat>, work: set<nat>, nonBack': seq<set<nat>>, irr: bool, x: nat, y: nat, ghost seen: set<nat>)
      returns (P': set<nat>, work': set<nat>, nonBack'': seq<set<nat>>, irr': bool)
      requires |back| == |nonBack| == |nonBack'| == |uf.rep| == |node| && w < |node|
      requires Ok(T()) && uf.Valid() && Classes(T(), uf.rep, w + 1)
      requires After(T(), uf.rep, back, nonBack, nonBack', P, work, w, irr, seen)
      requires x in work && x in P && x < |node| && y in nonBack[x]
      modifies uf
      ensures uf.Valid() && uf.rep == old(uf.rep)
      ensures After(T(), uf.rep, back, nonBack, nonBack'', P', work', w, irr', seen + {y})
      ensures P <= P' && work <= work' && P' - work' == P - work && |nonBack''| == |node|
    {
      hide Ok, Classes, Anc, Back, After, Search, UnionFindForest.Linked;
      ghost var t, rep := T(), uf.rep;
      AfterParts(t, rep, back, nonBack, nonBack', P, work, w, irr, seen);
      MemberSource(t, rep, nonBack, w, P, x, y);
      ClassBound(t, rep, w + 1, y);
      P', work', nonBack'', irr' := P, work, nonBack', irr;
      var yy := uf.Find(y);
      AncestorTest(w, yy);
      if !IsAncestor(w, yy) {
        ExamineOutside(t, rep, back, nonBack, nonBack', P, work, w, irr, x, y, seen);
        irr' := true;
        nonBack'' := nonBack'[w := nonBack'[w] + {yy}];
      } else if yy != w && yy !in P {
        ExamineInside(t, rep, back, nonBack, nonBack', P, work, w, irr, x, y, seen);
        P', work' := P + {yy}, work + {yy};
      } else {
        ExamineKnown(t, rep, back, nonBack, nonBack', P, work, w, irr, y, seen);
      }
    }

    /** Finds the loop of `w`, classifies it, and collapses it. */
    method ProcessHeader(w: nat, back: seq<set<nat>>, nonBack: seq<set<nat>>, uf: UnionFind) returns (nonBack': seq<set<nat>>)
      requires w < |node| && uf.Valid() && Inv(T(), uf.rep, header, kind, back, nonBack, w + 1)
      modifies this`header, this`kind, uf
      ensures uf.Valid() && Inv(T(), uf.rep, header, kind, back, nonBack', w)
    {
      hide Ok, Inv, OutsideEntry, Classes, BackEdges, Sound, Searched, KindOf, Collapse, SetHeaders, UnionFindForest.Forest;
      ghost var t, rep := T(), uf.rep;
      InvParts(t, rep, header, kind, back, nonBack, w + 1);
      var P, irr;
      P, nonBack', irr := FindMembers(w, back, nonBack, uf);
      HeaderDone(t, rep, header, kind, back, nonBack, nonBack', P, w);
      SearchedRoots(t, rep, back, nonBack, nonBack', P, w);
      KindIs(t, rep, back, nonBack, P, w, irr);
      var k := if irr then Irreducible else if P != {} then Reducible else if w in back[w] then Self else Nonheader;
      kind := kind[w := k];
      AttachMembers(w, P, uf);
    }

    /** `LoopAnalysis::run`: headers are processed in reverse preorder. */
    method Run()
      requires Ok(T())
      modifies this`header, this`kind, this`roots, this`forest
      ensures Done()
    {
      hide Ok, Inv, ForestUpTo;
      var back, nonBack := CollectPreds();
      header, kind := seq(|node|, _ => 0), seq(|node|, _ => Nonheader);
      var uf := new UnionFind(|node|);
      ghost var t := T();
      InvAtStart(t, kind, back, nonBack);
      assert header == Zeros(|node|) && uf.rep == Identity(|node|);
      hide BackEdges, OtherEdges;
      var w: nat := |node|;
      while w > 0
        invariant w <= |node| && t == T() && uf.Valid() && fresh(uf)
        invariant Inv(t, uf.rep, header, kind, back, nonBack, w)
      {
        w := w - 1;
        nonBack := ProcessHeader(w, back, nonBack, uf);
      }
      InvAtEnd(t, uf.rep, header, kind, back, nonBack);
      BuildForest();
    }

    /** The loop trees, from the headers. */
    method BuildForest()
      requires |header| == |kind|
      modifies this`roots, this`forest
      ensures ForestUpTo(header, kind, |header|, roots, forest)
    {
      roots, forest := [], map[];
      var i: nat := 0;
      while i < |header|
        invariant i <= |header| && ForestUpTo(header, kind, i, roots, forest)
      {
        hide ForestUpTo;
        var h := header[i];
        ForestStep(header, kind, i, roots, forest);
        if h == 0 && kind[i] != Nonheader {
          roots := roots + [i];
          forest := if i in forest then forest else forest[i := []];
        } else if h != 0 || kind[i] != Nonheader {
          forest := forest[h := (if h in forest then forest[h] else []) + [i]];
        }
        i := i + 1;
      }
    }

    /** Merges the members into `w` and makes it their header. */
    method AttachMembers(w: nat, P: set<nat>, uf: UnionFind)
      requires uf.Valid() && |uf.rep| == |header| && w < |header|
      requires uf.rep[w] == w && w !in P && forall x :: x in P ==> x < |header| && uf.rep[x] == x
      modifies this`header, uf
      ensures uf.Valid() && header == SetHeaders(old(header), P, w) && uf.rep == Collapse(old(uf.rep), P, w)
    {
      var todo := P;
      assert SetHeaders(header, {}, w) == header && Collapse(uf.rep, {}, w) == uf.rep;
      while todo != {}
        invariant todo <= P && uf.Valid() && |uf.rep| == |header| == |old(header)|
        invariant header == SetHeaders(old(header), P - todo, w)
        invariant uf.rep == Collapse(old(uf.rep), P - todo, w)
      {
        var x :| x in todo;
        header := header[x := w];
        var root := uf.Merge(x, w);
        assert root == w;
        todo := todo - {x};
      }
      assert P - todo == P;
    }
  }

  lemma TargetNumbered(t: Tree, src: nat, dst: nat)
    requires Ok(t) && src in t.number && Edge(t.g, src, dst)
    ensures dst in t.number && t.number[dst] < |t.node| && t.node[t.number[dst]] == dst
    ensures forall w :: 0 <= w < |t.node| && t.node[w] == dst ==> w == t.number[dst]
    ensures t.number[src] < |t.node|
  {
  }

  ghost function Indices(s: seq<nat>): set<nat> {
    set i: nat | i < |s| && IsIndex(s, i)
  }

  ghost predicate IsIndex(s: seq<nat>, i: nat) {
    i < |s|
  }

  lemma IndexIn(s: seq<nat>, x: nat)
    requires x < |s|
    ensures x in Indices(s)
  {
    assert IsIndex(s, x);
  }

  lemma SearchBounds(t: Tree, rep: seq<nat>, back: seq<set<nat>>, nonBack: seq<set<nat>>, nonBack': seq<set<nat>>,
                     P: set<nat>, work: set<nat>, w: nat, irr: bool, x: nat)
    requires Search(t, rep, back, nonBack, nonBack', P, work, w, irr) && x in work
    ensures x in P && x < |t.node| && |nonBack'| == |nonBack| == |t.node| && nonBack'[x] == nonBack[x]
    ensures After(t, rep, back, nonBack, nonBack', P, work, w, irr, {})
  {
  }

  lemma AfterParts(t: Tree, rep: seq<nat>, back: seq<set<nat>>, nonBack: seq<set<nat>>, nonBack': seq<set<nat>>,
                   P: set<nat>, work: set<nat>, w: nat, irr: bool, seen: set<nat>)
    requires After(t, rep, back, nonBack, nonBack', P, work, w, irr, seen)
    ensures |rep| == |nonBack| == |nonBack'| == |back| == |t.node| && w < |rep|
    ensures Sound(t, rep, nonBack) && Members(t, rep, w, P) && work <= P
  {
  }

  lemma ClassBound(t: Tree, rep: seq<nat>, w: nat, y: nat)
    requires Classes(t, rep, w) && y < |rep|
    ensures rep[y] < |rep| && rep[rep[y]] == rep[y]
  {
  }

  lemma BackEdgesAt(t: Tree, back: seq<set<nat>>, w: nat)
    requires BackEdges(t, back) && w < |back|
    ensures forall v :: v in back[w] ==> v < |t.node| && E(t, v, w) && Anc(t, w, v)
  {
  }

  lemma KindIs(t: Tree, rep: seq<nat>, back: seq<set<nat>>, nonBack: seq<set<nat>>, P: set<nat>, w: nat, irr: bool)
    requires |rep| == |nonBack| == |back| == |t.node| && w < |rep|
    requires irr <==> OutsideEntry(t, rep, nonBack, w, P)
    ensures KindOf(t, rep, back, nonBack, P, w) ==
      if irr then Irreducible else if P != {} then Reducible else if w in back[w] then Self else Nonheader
  {
  }

  lemma SearchedRoots(t: Tree, rep: seq<nat>, back: seq<set<nat>>, nonBack: seq<set<nat>>, nonBack': seq<set<nat>>, P: set<nat>, w: nat)
    requires |rep| == |nonBack| == |back| == |t.node| && w < |rep| && Sound(t, rep, nonBack)
    requires Ok(t) && Classes(t, rep, w + 1) && Searched(t, rep, back, nonBack, nonBack', P, w)
    ensures rep[w] == w && w !in P && forall x :: x in P ==> x < |rep| && rep[x] == x
  {
    RootOfHeader(t, rep, w);
  }

  lemma InvParts(t: Tree, rep: seq<nat>, header: seq<nat>, kind: seq<NodeType>, back: seq<set<nat>>, nonBack: seq<set<nat>>, w: nat)
    requires Inv(t, rep, header, kind, back, nonBack, w)
    ensures |rep| == |header| == |kind| == |back| == |nonBack| == |t.node| && Ok(t) && Classes(t, rep, w)
    ensures BackEdges(t, back) && Sound(t, rep, nonBack)
  {
  }
}
