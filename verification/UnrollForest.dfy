/** Unrolling all loops of a function, inner loops first: the traversal of
    `Function::unroll` (ir/function.cpp), and what it does to the paths of the whole
    function. */
module UnrollForest {
  import opened Cfg
  import opened Unroll

  /** One loop, as it was when its turn came, and the copies of its blocks. */
  datatype Step = Step(loop: seq<nat>, bbmap: map<nat, seq<nat>>)

  /** `gs[i + 1]` is `gs[i]` with the `i`-th loop unrolled. */
  ghost predicate Steps(gs: seq<Graph>, steps: seq<Step>, k: nat, sink: nat) {
    |gs| == |steps| + 1 && (forall i :: 0 <= i < |steps| ==> |steps[i].loop| > 0) && forall i: nat :: i < |steps| ==> StepAt(gs, steps, k, sink, i)
  }

  ghost predicate StepAt(gs: seq<Graph>, steps: seq<Step>, k: nat, sink: nat, i: nat)
    requires |gs| == |steps| + 1 && i < |steps|
  {
    Unrolled(gs[i], gs[i + 1], steps[i].loop, k, sink, steps[i].bbmap)
  }

  /** The block of `gs[m]` of which block `x` of `gs[n]` is a copy, or a copy of a copy. */
  ghost function Origin(steps: seq<Step>, n: nat, m: nat, x: nat): nat
    requires m <= n <= |steps|
  {
    if n == m then x else Origin(steps, n - 1, m, Locate(steps[n - 1].bbmap, x).0)
  }

  /** Forgets all copy numbers of the loops from `m` on. */
  ghost function EraseTo(steps: seq<Step>, n: nat, m: nat, q: seq<nat>): (p: seq<nat>)
    requires m <= n <= |steps|
    ensures |p| == |q|
  {
    if n == m then q else EraseTo(steps, n - 1, m, Erase(steps[n - 1].bbmap, q))
  }

  lemma {:induction false} EraseAt(steps: seq<Step>, n: nat, m: nat, q: seq<nat>, i: nat)
    requires m <= n <= |steps| && i < |q|
    ensures EraseTo(steps, n, m, q)[i] == Origin(steps, n, m, q[i])
    decreases n
  {
    hide Locate;
    if m < n {
      EraseAt(steps, n - 1, m, Erase(steps[n - 1].bbmap, q), i);
    }
  }

  lemma {:induction false} OriginThrough(steps: seq<Step>, n: nat, j: nat, m: nat, x: nat)
    requires m <= j <= n <= |steps|
    ensures Origin(steps, n, m, x) == Origin(steps, j, m, Origin(steps, n, j, x))
    decreases n
  {
    hide Locate;
    if j < n {
      OriginThrough(steps, n - 1, j, m, Locate(steps[n - 1].bbmap, x).0);
    }
  }

  lemma StepHolds(gs: seq<Graph>, steps: seq<Step>, k: nat, sink: nat, i: nat)
    requires Steps(gs, steps, k, sink) && i < |steps|
    ensures Unrolled(gs[i], gs[i + 1], steps[i].loop, k, sink, steps[i].bbmap)
  {
    assert StepAt(gs, steps, k, sink, i);
  }

  /** Erasing keeps the sink apart. */
  lemma ErasedAvoidsSink(g0: Graph, g1: Graph, loop: seq<nat>, k: nat, sink: nat, bbmap: map<nat, seq<nat>>, q: seq<nat>)
    requires Unrolled(g0, g1, loop, k, sink, bbmap) && IsPath(g1, q) && sink !in q
    ensures sink !in Erase(bbmap, q)
  {
    var p := Erase(bbmap, q);
    forall i: nat | i < |p|
      ensures p[i] != sink
    {
      NameLocate(g0, g1, loop, k, sink, bbmap, q[i]);
    }
  }

  /** Every path of the unrolled function that does not give up is, up to all copy
      numbers, a path of the function at each stage before. */
  lemma {:induction false} PathErases(gs: seq<Graph>, steps: seq<Step>, k: nat, sink: nat, n: nat, m: nat, q: seq<nat>)
    requires Steps(gs, steps, k, sink) && m <= n <= |steps| && IsPath(gs[n], q) && sink !in q
    ensures var p := EraseTo(steps, n, m, q); IsPath(gs[m], p) && sink !in p
    decreases n
  {
    if m < n {
      var h := n - 1;
      StepHolds(gs, steps, k, sink, h);
      hide Unrolled, Erase, Steps, StepAt;
      PatchedPathErases(gs[h], gs[n], steps[h].loop, k, sink, steps[h].bbmap, q);
      ErasedAvoidsSink(gs[h], gs[n], steps[h].loop, k, sink, steps[h].bbmap, q);
      PathErases(gs, steps, k, sink, h, m, Erase(steps[h].bbmap, q));
    }
  }

  /** The path that follows `p` through all iterations of the first `n` loops. */
  ghost function LiftTo(steps: seq<Step>, sink: nat, n: nat, p: seq<nat>): (q: seq<nat>)
    requires n <= |steps| && forall i :: 0 <= i < n ==> |steps[i].loop| > 0
    ensures |q| == |p|
  {
    if n == 0 then p else Lift(steps[n - 1].bbmap, steps[n - 1].loop, sink, LiftTo(steps, sink, n - 1, p))
  }

  /** In none of the first `n` loops does the path need a missing copy. */
  ghost predicate FitsAll(steps: seq<Step>, k: nat, sink: nat, n: nat, p: seq<nat>)
    requires n <= |steps| && forall i :: 0 <= i < n ==> |steps[i].loop| > 0
  {
    n > 0 ==> FitsAll(steps, k, sink, n - 1, p) && Fits(steps[n - 1].loop, k, LiftTo(steps, sink, n - 1, p))
  }

  /** A path of the original that fits in all loops lifts to a path of the unrolled
      function that erases back to it. */
  lemma {:induction false} PathLifts(gs: seq<Graph>, steps: seq<Step>, k: nat, sink: nat, n: nat, p: seq<nat>)
    requires Steps(gs, steps, k, sink) && n <= |steps| && IsPath(gs[0], p) && sink !in p
    requires FitsAll(steps, k, sink, n, p)
    ensures var q := LiftTo(steps, sink, n, p); IsPath(gs[n], q) && sink !in q && EraseTo(steps, n, 0, q) == p
    decreases n
  {
    if n > 0 {
      var h := n - 1;
      PathLifts(gs, steps, k, sink, h, p);
      StepHolds(gs, steps, k, sink, h);
      hide Unrolled, Erase, Lift, Fits, Steps, StepAt;
      FittingPathLifts(gs[h], gs[n], steps[h].loop, k, sink, steps[h].bbmap, LiftTo(steps, sink, h, p));
    }
  }

  lemma StartKept(g0: Graph, g1: Graph, loop: seq<nat>, k: nat, sink: nat, bbmap: map<nat, seq<nat>>, q: seq<nat>)
    requires Unrolled(g0, g1, loop, k, sink, bbmap) && |q| > 0 && q[0] < |g0|
    ensures Erase(bbmap, q)[0] == q[0]
  {
    LocateOriginal(g0, g1, loop, k, sink, bbmap, q[0]);
  }

  lemma {:induction false} Growing(gs: seq<Graph>, steps: seq<Step>, k: nat, sink: nat, n: nat)
    requires Steps(gs, steps, k, sink) && n <= |steps|
    ensures |gs[0]| <= |gs[n]|
    decreases n
  {
    if n > 0 {
      Growing(gs, steps, k, sink, n - 1);
      StepHolds(gs, steps, k, sink, n - 1);
    }
  }

  /** Every path of the unrolled function that starts at an original block and does not
      give up is the only lift of the path it erases to. */
  lemma {:induction false} PathIsLift(gs: seq<Graph>, steps: seq<Step>, k: nat, sink: nat, n: nat, q: seq<nat>)
    requires Steps(gs, steps, k, sink) && n <= |steps| && IsPath(gs[n], q) && sink !in q && q[0] < |gs[0]|
    ensures var p := EraseTo(steps, n, 0, q); FitsAll(steps, k, sink, n, p) && q == LiftTo(steps, sink, n, p)
    decreases n
  {
    if n > 0 {
      var h := n - 1;
      StepHolds(gs, steps, k, sink, h);
      Growing(gs, steps, k, sink, h);
      var r := Erase(steps[h].bbmap, q);
      StartKept(gs[h], gs[n], steps[h].loop, k, sink, steps[h].bbmap, q);
      hide Unrolled, Erase, Lift, Fits, Steps, StepAt;
      PatchedPathErases(gs[h], gs[n], steps[h].loop, k, sink, steps[h].bbmap, q);
      ErasedAvoidsSink(gs[h], gs[n], steps[h].loop, k, sink, steps[h].bbmap, q);
      PatchedPathIsLift(gs[h], gs[n], steps[h].loop, k, sink, steps[h].bbmap, q);
      PathIsLift(gs, steps, k, sink, h, r);
    }
  }

  /** The finished function can follow a path exactly if it fits in every loop in turn. */
  lemma FollowsIff(gs: seq<Graph>, steps: seq<Step>, k: nat, sink: nat, p: seq<nat>)
    requires Steps(gs, steps, k, sink) && IsPath(gs[0], p) && sink !in p
    ensures var n := |steps|;
      (exists q :: IsPath(gs[n], q) && sink !in q && q[0] < |gs[0]| && EraseTo(steps, n, 0, q) == p) <==> FitsAll(steps, k, sink, n, p)
  {
    var n := |steps|;
    hide Unrolled, StepAt, Lift, Fits, Erase;
    if FitsAll(steps, k, sink, n, p) {
      PathLifts(gs, steps, k, sink, n, p);
      LiftStarts(gs, steps, k, sink, n, p);
    }
    if q :| IsPath(gs[n], q) && sink !in q && q[0] < |gs[0]| && EraseTo(steps, n, 0, q) == p {
      PathIsLift(gs, steps, k, sink, n, q);
    }
  }

  lemma {:induction false} LiftStarts(gs: seq<Graph>, steps: seq<Step>, k: nat, sink: nat, n: nat, p: seq<nat>)
    requires Steps(gs, steps, k, sink) && n <= |steps| && |p| > 0
    ensures LiftTo(steps, sink, n, p)[0] == p[0]
    decreases n
  {
    if n > 0 {
      LiftStarts(gs, steps, k, sink, n - 1, p);
      StepHolds(gs, steps, k, sink, n - 1);
    }
  }

  // ----- no cycle is left ----------------------------------------------------

  ghost predicate Cycle(g: Graph, p: seq<nat>) {
    IsPath(g, p) && |p| > 1 && p[0] == p[|p| - 1]
  }

  lemma CycleAvoidsSink(g: Graph, sink: nat, p: seq<nat>)
    requires Cycle(g, p) && sink < |g| && g[sink] == []
    ensures sink !in p
  {
    forall i: nat | i < |p|
      ensures p[i] != sink
    {
      if i < |p| - 1 {
        assert Edge(g, p[i], p[i + 1]);
      } else {
        var first: nat := 0;
        assert Edge(g, p[first], p[first + 1]);
      }
    }
  }

  /** A cycle of the unrolled function that stays within copies of one loop, when it is
      unrolled, does not go through its header. */
  lemma CycleMissesHeader(g0: Graph, g1: Graph, loop: seq<nat>, k: nat, sink: nat, bbmap: map<nat, seq<nat>>, q: seq<nat>)
    requires Unrolled(g0, g1, loop, k, sink, bbmap) && Cycle(g1, q) && forall i :: 0 <= i < |q| ==> Locate(bbmap, q[i]).0 in loop
    ensures |loop| > 0 && forall i :: 0 < i < |q| ==> Locate(bbmap, q[i]).0 != loop[0]
  {
    forall i: nat | i < |q|
      ensures IsCopy(bbmap, q[i])
    {
      LocatedIsCopy(g0, g1, loop, k, sink, bbmap, q[i]);
    }
    assert AllCopies(bbmap, q) && |loop| > 0;
    hide Unrolled, AllCopies, IsCopy;
    forall i: nat | 0 < i < |q|
      ensures Locate(bbmap, q[i]).0 != loop[0]
    {
      SameIterationStaysInBody(g0, g1, loop, k, sink, bbmap, q, i);
    }
  }

  lemma LocatedIsCopy(g0: Graph, g1: Graph, loop: seq<nat>, k: nat, sink: nat, bbmap: map<nat, seq<nat>>, x: nat)
    requires Unrolled(g0, g1, loop, k, sink, bbmap) && x < |g1| && Locate(bbmap, x).0 in loop
    ensures IsCopy(bbmap, x)
  {
    if x < |g0| {
      LocateOriginal(g0, g1, loop, k, sink, bbmap, x);
    }
  }

  /** When its turn comes, the `i`-th loop consists of the copies of the blocks `nest`,
      and its header has not been copied before. */
  ghost predicate LoopIs(gs: seq<Graph>, steps: seq<Step>, i: nat, nest: set<nat>)
    requires i < |steps| < |gs|
  {
    var loop := steps[i].loop;
    && |loop| > 0 && (forall x: nat :: x < |gs[i]| ==> (x in loop <==> Origin(steps, i, 0, x) in nest))
    && forall x: nat :: x < |gs[i]| && Origin(steps, i, 0, x) == loop[0] ==> x == loop[0]
  }

  /** The cycle stays inside a loop and goes through its header. */
  ghost predicate CutBy(steps: seq<Step>, nests: seq<set<nat>>, i: nat, p: seq<nat>) {
    i < |steps| == |nests| && |steps[i].loop| > 0 && steps[i].loop[0] in p && forall x :: x in p ==> x in nests[i]
  }

  /** If every cycle of the function goes through the header of a loop in which it stays,
      then no cycle is left once all loops are unrolled, however they are nested. */
  lemma UnrolledFunctionIsAcyclic(gs: seq<Graph>, steps: seq<Step>, k: nat, sink: nat, nests: seq<set<nat>>, q: seq<nat>)
    requires Steps(gs, steps, k, sink) && |nests| == |steps| && sink < |gs[|steps|]| && gs[|steps|][sink] == []
    requires forall i: nat :: i < |steps| ==> LoopIs(gs, steps, i, nests[i])
    requires forall p :: Cycle(gs[0], p) ==> exists i :: CutBy(steps, nests, i, p)
    ensures !Cycle(gs[|steps|], q)
  {
    var n := |steps|;
    if Cycle(gs[n], q) {
      CycleAvoidsSink(gs[n], sink, q);
      var p := EraseTo(steps, n, 0, q);
      CycleErasesTo(gs, steps, k, sink, n, 0, q);
      var i: nat :| CutBy(steps, nests, i, p);
      hide Origin, EraseTo, IsPath;
      CycleIsCut(gs, steps, k, sink, nests, q, i);
    }
  }

  lemma CycleErasesTo(gs: seq<Graph>, steps: seq<Step>, k: nat, sink: nat, n: nat, m: nat, q: seq<nat>)
    requires Steps(gs, steps, k, sink) && m <= n <= |steps| && Cycle(gs[n], q) && sink !in q
    ensures Cycle(gs[m], EraseTo(steps, n, m, q))
  {
    PathErases(gs, steps, k, sink, n, m, q);
    EraseAt(steps, n, m, q, 0);
    EraseAt(steps, n, m, q, |q| - 1);
  }

  lemma CycleIsCut(gs: seq<Graph>, steps: seq<Step>, k: nat, sink: nat, nests: seq<set<nat>>, q: seq<nat>, i: nat)
    requires Steps(gs, steps, k, sink) && Cycle(gs[|steps|], q) && sink !in q
    requires i < |steps| == |nests| && LoopIs(gs, steps, i, nests[i])
    ensures !CutBy(steps, nests, i, EraseTo(steps, |steps|, 0, q))
  {
    var n, next := |steps|, i + 1;
    var p := EraseTo(steps, n, 0, q);
    if CutBy(steps, nests, i, p) {
      var r := EraseTo(steps, n, next, q);
      CycleErasesTo(gs, steps, k, sink, n, next, q);
      StepHolds(gs, steps, k, sink, i);
      var loop, bbmap := steps[i].loop, steps[i].bbmap;
      forall j: nat | j < |q|
        ensures Locate(bbmap, r[j]).0 in loop && (p[j] == loop[0] ==> Locate(bbmap, r[j]).0 == loop[0])
      {
        AtStage(gs, steps, k, sink, nests, q, i, j);
      }
      hide Unrolled, Locate, EraseTo, Origin, LoopIs, Steps;
      EraseAt(steps, n, 0, q, 0);
      EraseAt(steps, n, 0, q, |q| - 1);
      var j: nat :| j < |p| && p[j] == loop[0];
      var l := if j == 0 then |q| - 1 else j;
      assert 0 < l < |r| && p[l] == loop[0];
      CycleMissesHeader(gs[i], gs[next], loop, k, sink, bbmap, r);
    }
  }

  /** At the turn of loop `i`, each block of the cycle is a block of the loop. */
  lemma AtStage(gs: seq<Graph>, steps: seq<Step>, k: nat, sink: nat, nests: seq<set<nat>>, q: seq<nat>, i: nat, j: nat)
    requires Steps(gs, steps, k, sink) && IsPath(gs[|steps|], q) && sink !in q && j < |q|
    requires i < |steps| == |nests| && LoopIs(gs, steps, i, nests[i])
    requires EraseTo(steps, |steps|, 0, q)[j] in nests[i]
    ensures var x := Locate(steps[i].bbmap, EraseTo(steps, |steps|, i + 1, q)[j]).0;
      x in steps[i].loop && (EraseTo(steps, |steps|, 0, q)[j] == steps[i].loop[0] ==> x == steps[i].loop[0])
  {
    var n := |steps|;
    EraseAt(steps, n, 0, q, j);
    EraseAt(steps, n, i + 1, q, j);
    OriginThrough(steps, n, i + 1, 0, q[j]);
    PathErases(gs, steps, k, sink, n, i + 1, q);
    var y := Origin(steps, n, i + 1, q[j]);
    StepHolds(gs, steps, k, sink, i);
    NameLocate(gs[i], gs[i + 1], steps[i].loop, k, sink, steps[i].bbmap, y);
  }

  // ----- the traversal -------------------------------------------------------

  /** The blocks of a loop's child: its nest if it is a header itself. */
  ghost function Sub(order: seq<nat>, nest: map<nat, set<nat>>, c: nat): set<nat> {
    if c in order && c in nest then nest[c] else {c}
  }

  /** The loop nesting forest: the headers in post-order, with the blocks and inner
      headers that belong to each directly, and all the blocks below it. */
  ghost predicate Forest(n0: nat, sink: nat, order: seq<nat>, kids: map<nat, seq<nat>>, nest: map<nat, set<nat>>) {
    && sink < n0 && (forall i, j :: 0 <= i < j < |order| ==> order[i] != order[j])
    && forall i: nat :: i < |order| ==> Tree(n0, sink, order, kids, nest, i)
  }

  ghost predicate Tree(n0: nat, sink: nat, order: seq<nat>, kids: map<nat, seq<nat>>, nest: map<nat, set<nat>>, i: nat)
    requires i < |order|
  {
    var h := order[i];
    && h in kids && h in nest && (forall x :: x in nest[h] ==> x < n0 && x != sink)
    && (forall x :: x in nest[h] <==> x == h || exists c :: c in kids[h] && x in Sub(order, nest, c))
    && (forall c :: c in kids[h] ==> h !in Sub(order, nest, c) && (c in order ==> c in order[..i]))
    && (forall a, b, x :: 0 <= a < b < |kids[h]| && x in Sub(order, nest, kids[h][a]) ==> x !in Sub(order, nest, kids[h][b]))
    && (forall j: nat :: j < i && order[j] in nest ==> Below(order, kids, nest, j, i))
  }

  /** Two loops are nested or disjoint, and a loop's own blocks are in no other inner loop. */
  ghost predicate Below(order: seq<nat>, kids: map<nat, seq<nat>>, nest: map<nat, set<nat>>, j: nat, i: nat)
    requires j < i < |order| && order[i] in nest && order[j] in nest && order[i] in kids
  {
    var g, h := order[j], order[i];
    && (nest[g] !! nest[h] || (nest[g] <= nest[h] && h !in nest[g]))
    && forall c :: c in kids[h] && c in nest[g] ==> c == g
  }

  /** No loop up to number `i` contains loop `j`. */
  ghost predicate Open(order: seq<nat>, nest: map<nat, set<nat>>, i: nat, j: nat)
    requires j < i <= |order| && forall a :: 0 <= a < i ==> order[a] in nest
  {
    forall a :: j < a < i ==> !(nest[order[j]] <= nest[order[a]])
  }

  /** The blocks of `g` that are copies of blocks in `s`. */
  ghost predicate Lists(steps: seq<Step>, g: Graph, list: seq<nat>, s: set<nat>) {
    && (forall a, b :: 0 <= a < b < |list| ==> list[a] != list[b])
    && (forall x :: x in list ==> x < |g|)
    && (forall x: nat :: x < |g| ==> (x in list <==> Origin(steps, |steps|, 0, x) in s))
  }

  /** Blocks outside all loops so far have no copies, and original blocks stay. */
  ghost predicate Apart(steps: seq<Step>, g0: Graph, g: Graph, order: seq<nat>, nest: map<nat, set<nat>>)
    requires |steps| <= |order| && forall a :: 0 <= a < |order| ==> order[a] in nest
  {
    && |g0| <= |g|
    && (forall x: nat :: x < |g0| ==> Origin(steps, |steps|, 0, x) == x)
    && (forall x: nat :: x < |g| ==> Origin(steps, |steps|, 0, x) < |g0|)
    && forall x: nat :: x < |g| && (forall a :: 0 <= a < |steps| ==> Origin(steps, |steps|, 0, x) !in nest[order[a]]) ==> Origin(steps, |steps|, 0, x) == x
  }

  /** What holds after the first `|steps|` loops. */
  ghost predicate Traversed(gs: seq<Graph>, steps: seq<Step>, k: nat, sink: nat, order: seq<nat>, kids: map<nat, seq<nat>>, nest: map<nat, set<nat>>,
                            loopNodes: map<nat, seq<nat>>) {
    && Steps(gs, steps, k, sink) && |steps| <= |order| && Forest(|gs[0]|, sink, order, kids, nest) && (forall a :: 0 <= a < |order| ==> order[a] in nest)
    && Valid(gs[|steps|]) && sink < |gs[|steps|]| && gs[|steps|][sink] == []
    && Apart(steps, gs[0], gs[|steps|], order, nest)
    && (forall h :: h in loopNodes <==> h in order[..|steps|])
    && (forall j: nat :: j < |steps| && Open(order, nest, |steps|, j) ==> order[j] in loopNodes && Lists(steps, gs[|steps|], loopNodes[order[j]], nest[order[j]]))
    && (forall j: nat :: j < |steps| ==> LoopIs(gs, steps, j, nest[order[j]]))
  }

  // ----- gathering a loop ----------------------------------------------------

  /** The header and the blocks of the first `n` children. */
  function Gathered(h: nat, children: seq<nat>, loopNodes: map<nat, seq<nat>>, n: nat): seq<nat>
    requires n <= |children|
  {
    if n == 0 then [h]
    else
      var c := children[n - 1];
      Gathered(h, children, loopNodes, n - 1) + if c in loopNodes then loopNodes[c] else [c]
  }

  ghost function NestUpTo(order: seq<nat>, nest: map<nat, set<nat>>, h: nat, children: seq<nat>, n: nat): set<nat>
    requires n <= |children|
  {
    if n == 0 then {h} else NestUpTo(order, nest, h, children, n - 1) + Sub(order, nest, children[n - 1])
  }

  lemma ListsJoin(steps: seq<Step>, g: Graph, a: seq<nat>, s: set<nat>, b: seq<nat>, t: set<nat>)
    requires Lists(steps, g, a, s) && Lists(steps, g, b, t) && s !! t
    ensures Lists(steps, g, a + b, s + t)
  {
    hide Origin;
    var c := a + b;
    forall x: nat
      ensures x in c <==> x in a || x in b
    {
    }
    forall i: nat, j: nat | i < j < |c|
      ensures c[i] != c[j]
    {
      if i < |a| <= j {
        assert c[i] in a && c[j] in b;
      }
    }
  }

  /** A block that is in no loop so far is its only copy. */
  lemma AloneLists(steps: seq<Step>, g0: Graph, g: Graph, order: seq<nat>, nest: map<nat, set<nat>>, c: nat)
    requires |steps| <= |order| && (forall a :: 0 <= a < |order| ==> order[a] in nest) && Apart(steps, g0, g, order, nest)
    requires c < |g0| && forall a :: 0 <= a < |steps| ==> c !in nest[order[a]]
    ensures Lists(steps, g, [c], {c})
    ensures forall x: nat :: x < |g| && Origin(steps, |steps|, 0, x) == c ==> x == c
  {
    hide Origin;
  }

  lemma HeaderApart(n0: nat, sink: nat, order: seq<nat>, kids: map<nat, seq<nat>>, nest: map<nat, set<nat>>, i: nat, a: nat)
    requires Forest(n0, sink, order, kids, nest) && a < i < |order| && order[a] in nest
    ensures order[i] in nest && order[i] !in nest[order[a]]
  {
    assert Tree(n0, sink, order, kids, nest, i);
    assert Below(order, kids, nest, a, i);
    hide Sub;
    assert order[i] in nest[order[i]];
  }

  /** The blocks of one child, as they are at this stage. */
  lemma ChildLists(gs: seq<Graph>, steps: seq<Step>, k: nat, sink: nat, order: seq<nat>, kids: map<nat, seq<nat>>, nest: map<nat, set<nat>>,
                   loopNodes: map<nat, seq<nat>>, c: nat)
    requires Traversed(gs, steps, k, sink, order, kids, nest, loopNodes) && |steps| < |order|
    requires Tree(|gs[0]|, sink, order, kids, nest, |steps|) && c in kids[order[|steps|]]
    ensures Lists(steps, gs[|steps|], if c in loopNodes then loopNodes[c] else [c], Sub(order, nest, c))
  {
    var i, h := |steps|, order[|steps|];
    hide Lists, Apart, LoopIs, Steps, Valid;
    if c in order {
      var j: nat :| j < i && order[j] == c;
      assert Tree(|gs[0]|, sink, order, kids, nest, j);
      assert c in nest[c];
      forall a | j < a < i
        ensures !(nest[order[j]] <= nest[order[a]])
      {
        assert Below(order, kids, nest, a, i);
      }
      assert Open(order, nest, i, j);
    } else {
      forall a: nat | a < i
        ensures c !in nest[order[a]]
      {
        assert Below(order, kids, nest, a, i);
      }
      assert c in Sub(order, nest, c) && c in nest[h];
      AloneLists(steps, gs[0], gs[i], order, nest, c);
    }
  }

  lemma HeaderLists(gs: seq<Graph>, steps: seq<Step>, k: nat, sink: nat, order: seq<nat>, kids: map<nat, seq<nat>>,
                    nest: map<nat, set<nat>>, loopNodes: map<nat, seq<nat>>)
    requires Traversed(gs, steps, k, sink, order, kids, nest, loopNodes) && |steps| < |order|
    requires Tree(|gs[0]|, sink, order, kids, nest, |steps|)
    ensures var h := order[|steps|];
      Lists(steps, gs[|steps|], Gathered(h, kids[h], loopNodes, 0), NestUpTo(order, nest, h, kids[h], 0))
  {
    var i, h := |steps|, order[|steps|];
    forall a: nat | a < i
      ensures h !in nest[order[a]]
    {
      HeaderApart(|gs[0]|, sink, order, kids, nest, i, a);
    }
    assert h in nest[h];
    hide Lists, Origin, Steps;
    AloneLists(steps, gs[0], gs[i], order, nest, h);
  }

  lemma {:induction false} GatheredLists(gs: seq<Graph>, steps: seq<Step>, k: nat, sink: nat, order: seq<nat>, kids: map<nat, seq<nat>>,
                                         nest: map<nat, set<nat>>, loopNodes: map<nat, seq<nat>>, n: nat)
    requires Traversed(gs, steps, k, sink, order, kids, nest, loopNodes) && |steps| < |order|
    requires Tree(|gs[0]|, sink, order, kids, nest, |steps|) && n <= |kids[order[|steps|]]|
    ensures var h := order[|steps|];
      Lists(steps, gs[|steps|], Gathered(h, kids[h], loopNodes, n), NestUpTo(order, nest, h, kids[h], n))
    decreases n
  {
    var i, h := |steps|, order[|steps|];
    if n == 0 {
      HeaderLists(gs, steps, k, sink, order, kids, nest, loopNodes);
    } else {
      var c := kids[h][n - 1];
      GatheredLists(gs, steps, k, sink, order, kids, nest, loopNodes, n - 1);
      ChildLists(gs, steps, k, sink, order, kids, nest, loopNodes, c);
      NestsDisjoint(|gs[0]|, sink, order, kids, nest, i, n - 1, n - 1);
      hide Lists, Traversed, Tree, Sub, Origin;
      ListsJoin(steps, gs[i], Gathered(h, kids[h], loopNodes, n - 1), NestUpTo(order, nest, h, kids[h], n - 1),
                if c in loopNodes then loopNodes[c] else [c], Sub(order, nest, c));
    }
  }

  lemma {:induction false} NestsDisjoint(n0: nat, sink: nat, order: seq<nat>, kids: map<nat, seq<nat>>, nest: map<nat, set<nat>>, i: nat, n: nat, m: nat)
    requires i < |order| && Tree(n0, sink, order, kids, nest, i) && n <= m < |kids[order[i]]|
    ensures NestUpTo(order, nest, order[i], kids[order[i]], n) !! Sub(order, nest, kids[order[i]][m])
    decreases n
  {
    hide Below;
    if n > 0 {
      NestsDisjoint(n0, sink, order, kids, nest, i, n - 1, m);
    } else {
      assert kids[order[i]][m] in kids[order[i]];
    }
  }

  lemma {:induction false} NestUpToIs(order: seq<nat>, nest: map<nat, set<nat>>, h: nat, children: seq<nat>, n: nat, x: nat)
    requires n <= |children|
    ensures x in NestUpTo(order, nest, h, children, n) <==> x == h || exists a :: 0 <= a < n && x in Sub(order, nest, children[a])
    decreases n
  {
    hide Sub;
    if n > 0 {
      NestUpToIs(order, nest, h, children, n - 1, x);
    }
  }

  lemma WholeNest(n0: nat, sink: nat, order: seq<nat>, kids: map<nat, seq<nat>>, nest: map<nat, set<nat>>, i: nat)
    requires i < |order| && Tree(n0, sink, order, kids, nest, i)
    ensures NestUpTo(order, nest, order[i], kids[order[i]], |kids[order[i]]|) == nest[order[i]]
  {
    hide Sub, Below;
    var h := order[i];
    forall x: nat
      ensures x in NestUpTo(order, nest, h, kids[h], |kids[h]|) <==> x in nest[h]
    {
      NestUpToIs(order, nest, h, kids[h], |kids[h]|, x);
      if x in nest[h] && x != h {
        var c :| c in kids[h] && x in Sub(order, nest, c);
        var a :| 0 <= a < |kids[h]| && kids[h][a] == c;
      }
    }
  }

  // ----- one loop of the traversal -------------------------------------------

  lemma {:induction false} OriginPrefix(steps: seq<Step>, s: Step, n: nat, m: nat, x: nat)
    requires m <= n <= |steps|
    ensures Origin(steps + [s], n, m, x) == Origin(steps, n, m, x)
    decreases n
  {
    hide Locate;
    if m < n {
      OriginPrefix(steps, s, n - 1, m, Locate(steps[n - 1].bbmap, x).0);
    }
  }

  /** Where the blocks come from after one more loop. */
  lemma OriginNext(steps: seq<Step>, g: Graph, g': Graph, loop: seq<nat>, k: nat, sink: nat, bbmap: map<nat, seq<nat>>, s: set<nat>, x: nat)
    requires Unrolled(g, g', loop, k, sink, bbmap) && Lists(steps, g, loop, s) && x < |g'|
    ensures var steps' := steps + [Step(loop, bbmap)];
      && (x < |g| ==> Origin(steps', |steps'|, 0, x) == Origin(steps, |steps|, 0, x))
      && (x >= |g| ==> Origin(steps', |steps'|, 0, x) in s && exists b: nat :: b < |g| && Origin(steps', |steps'|, 0, x) == Origin(steps, |steps|, 0, b))
  {
    var steps' := steps + [Step(loop, bbmap)];
    var b := Locate(bbmap, x).0;
    OriginPrefix(steps, Step(loop, bbmap), |steps|, 0, b);
    assert Origin(steps', |steps'|, 0, x) == Origin(steps, |steps|, 0, b);
    hide Origin;
    if x < |g| {
      LocateOriginal(g, g', loop, k, sink, bbmap, x);
    } else {
      assert IsCopy(bbmap, x);
      assert b in loop;
    }
  }

  lemma ValidAfter(g: Graph, g': Graph, loop: seq<nat>, k: nat, sink: nat, bbmap: map<nat, seq<nat>>)
    requires Unrolled(g, g', loop, k, sink, bbmap)
    ensures Valid(g') && |g| <= |g'| && sink < |g'| && g'[sink] == []
  {
    forall x: nat, t: nat | x < |g'| && t in g'[x]
      ensures t < |g'|
    {
      var (b, u) := Locate(bbmap, x);
      NameLocate(g, g', loop, k, sink, bbmap, x);
      JumpNames(g, g', loop, k, sink, bbmap, b, u);
      var j :| 0 <= j < |g'[x]| && g'[x][j] == t;
      assert g[b][j] in g[b];
      NameInRange(g, g', loop, k, sink, bbmap, g[b][j], NextIteration(loop, b, u, g[b][j]));
    }
  }

  lemma NameInRange(g: Graph, g': Graph, loop: seq<nat>, k: nat, sink: nat, bbmap: map<nat, seq<nat>>, t: nat, u: nat)
    requires Unrolled(g, g', loop, k, sink, bbmap) && t < |g|
    ensures Name(bbmap, sink, t, u) < |g'|
  {
    if t in bbmap && u == 0 && u < |bbmap[t]| {
      assert bbmap[t][0] == t;
    }
  }

  /** The loop and all its copies, for the loops around it. */
  function WithCopies(loop: seq<nat>, n: nat, n': nat): seq<nat> {
    loop + seq(if n < n' then n' - n else 0, a requires 0 <= a => n + a)
  }

  lemma ListsNext(steps: seq<Step>, g: Graph, g': Graph, loop: seq<nat>, k: nat, sink: nat, bbmap: map<nat, seq<nat>>, s: set<nat>)
    requires Unrolled(g, g', loop, k, sink, bbmap) && Lists(steps, g, loop, s)
    ensures Lists(steps + [Step(loop, bbmap)], g', WithCopies(loop, |g|, |g'|), s)
  {
    var steps', list := steps + [Step(loop, bbmap)], WithCopies(loop, |g|, |g'|);
    ValidAfter(g, g', loop, k, sink, bbmap);
    forall x: nat
      ensures x in list <==> x in loop || |g| <= x < |g'|
    {
      if |g| <= x < |g'| {
        assert list[|loop| + x - |g|] == x;
      }
    }
    forall x: nat | x < |g'|
      ensures x in list <==> Origin(steps', |steps'|, 0, x) in s
    {
      OriginNext(steps, g, g', loop, k, sink, bbmap, s, x);
    }
    hide Origin, Unrolled;
  }

  /** A loop that is disjoint from the one unrolled keeps its blocks. */
  lemma ListsKept(steps: seq<Step>, g: Graph, g': Graph, loop: seq<nat>, k: nat, sink: nat, bbmap: map<nat, seq<nat>>, s: set<nat>, list: seq<nat>, t: set<nat>)
    requires Unrolled(g, g', loop, k, sink, bbmap) && Lists(steps, g, loop, s) && Lists(steps, g, list, t) && s !! t
    ensures Lists(steps + [Step(loop, bbmap)], g', list, t)
  {
    var steps' := steps + [Step(loop, bbmap)];
    ValidAfter(g, g', loop, k, sink, bbmap);
    forall x: nat | x < |g'|
      ensures x in list <==> Origin(steps', |steps'|, 0, x) in t
    {
      OriginNext(steps, g, g', loop, k, sink, bbmap, s, x);
    }
    hide Origin, Unrolled;
  }

  lemma ApartNext(steps: seq<Step>, g0: Graph, g: Graph, g': Graph, loop: seq<nat>, k: nat, sink: nat, bbmap: map<nat, seq<nat>>,
                  order: seq<nat>, nest: map<nat, set<nat>>)
    requires |steps| < |order| && (forall a :: 0 <= a < |order| ==> order[a] in nest) && Apart(steps, g0, g, order, nest)
    requires Unrolled(g, g', loop, k, sink, bbmap) && Lists(steps, g, loop, nest[order[|steps|]])
    ensures Apart(steps + [Step(loop, bbmap)], g0, g', order, nest)
  {
    var steps' := steps + [Step(loop, bbmap)];
    ValidAfter(g, g', loop, k, sink, bbmap);
    forall x: nat | x < |g'|
      ensures x < |g| ==> Origin(steps', |steps'|, 0, x) == Origin(steps, |steps|, 0, x)
      ensures Origin(steps', |steps'|, 0, x) < |g0| && (x >= |g| ==> Origin(steps', |steps'|, 0, x) in nest[order[|steps|]])
    {
      OriginNext(steps, g, g', loop, k, sink, bbmap, nest[order[|steps|]], x);
    }
    hide Origin, Unrolled, Lists;
    forall x: nat | x < |g'| && forall a :: 0 <= a < |steps'| ==> Origin(steps', |steps'|, 0, x) !in nest[order[a]]
      ensures Origin(steps', |steps'|, 0, x) == x
    {
      assert Origin(steps', |steps'|, 0, x) !in nest[order[|steps|]];
      forall a | 0 <= a < |steps|
        ensures Origin(steps', |steps'|, 0, x) !in nest[order[a]]
      {
      }
    }
  }

  /** The gathered list is a loop as `UnrollLoop` expects it, with its original header. */
  lemma GatheredIsLoop(gs: seq<Graph>, steps: seq<Step>, k: nat, sink: nat, order: seq<nat>, kids: map<nat, seq<nat>>, nest: map<nat, set<nat>>,
                       loopNodes: map<nat, seq<nat>>)
    requires Traversed(gs, steps, k, sink, order, kids, nest, loopNodes) && |steps| < |order|
    ensures order[|steps|] in kids && order[|steps|] in nest
    ensures var h, g := order[|steps|], gs[|steps|];
      var loop := Gathered(h, kids[h], loopNodes, |kids[h]|);
      && LoopShape(g, loop, sink) && loop[0] == h && Lists(steps, g, loop, nest[h])
      && forall x: nat :: x < |g| && Origin(steps, |steps|, 0, x) == h ==> x == h
  {
    var i, h := |steps|, order[|steps|];
    var n0 := |gs[0]|;
    assert Tree(n0, sink, order, kids, nest, i);
    GatheredLists(gs, steps, k, sink, order, kids, nest, loopNodes, |kids[h]|);
    WholeNest(n0, sink, order, kids, nest, i);
    GatheredFirst(h, kids[h], loopNodes, |kids[h]|);
    forall a: nat | a < i
      ensures h !in nest[order[a]]
    {
      HeaderApart(n0, sink, order, kids, nest, i, a);
    }
    assert h in nest[h];
    AloneLists(steps, gs[0], gs[i], order, nest, h);
    hide Origin, Gathered, NestUpTo, LoopIs, Steps, Sub, Below;
    var loop := Gathered(h, kids[h], loopNodes, |kids[h]|);
    assert Origin(steps, i, 0, sink) == sink && sink !in nest[h];
    ListedShape(steps, gs[i], loop, nest[h], sink);
  }

  lemma ListedShape(steps: seq<Step>, g: Graph, loop: seq<nat>, s: set<nat>, sink: nat)
    requires Valid(g) && sink < |g| && g[sink] == [] && |loop| > 0 && Lists(steps, g, loop, s)
    requires Origin(steps, |steps|, 0, sink) !in s
    ensures LoopShape(g, loop, sink)
  {
    hide Origin;
    forall i | 0 <= i < |loop|
      ensures loop[i] < |g|
    {
      assert loop[i] in loop;
    }
  }

  lemma {:induction false} GatheredFirst(h: nat, children: seq<nat>, loopNodes: map<nat, seq<nat>>, n: nat)
    requires n <= |children|
    ensures |Gathered(h, children, loopNodes, n)| > 0 && Gathered(h, children, loopNodes, n)[0] == h
  {
    if n > 0 {
      GatheredFirst(h, children, loopNodes, n - 1);
    }
  }

  lemma StepsNext(gs: seq<Graph>, steps: seq<Step>, k: nat, sink: nat, g': Graph, loop: seq<nat>, bbmap: map<nat, seq<nat>>)
    requires Steps(gs, steps, k, sink) && Unrolled(gs[|steps|], g', loop, k, sink, bbmap)
    ensures Steps(gs + [g'], steps + [Step(loop, bbmap)], k, sink)
  {
    assert |loop| > 0;
    hide Unrolled;
    var gs', steps' := gs + [g'], steps + [Step(loop, bbmap)];
    forall i: nat | i < |steps'|
      ensures StepAt(gs', steps', k, sink, i)
    {
      assert i < |steps| ==> StepAt(gs, steps, k, sink, i);
    }
  }

  lemma LoopKept(gs: seq<Graph>, steps: seq<Step>, g': Graph, s: Step, i: nat, nest: set<nat>)
    requires i < |steps| < |gs| && LoopIs(gs, steps, i, nest)
    ensures LoopIs(gs + [g'], steps + [s], i, nest)
  {
    hide Origin;
    forall x: nat
      ensures Origin(steps + [s], i, 0, x) == Origin(steps, i, 0, x)
    {
      OriginPrefix(steps, s, i, 0, x);
    }
  }

  lemma LoopAdded(gs: seq<Graph>, steps: seq<Step>, g': Graph, loop: seq<nat>, bbmap: map<nat, seq<nat>>, nest: set<nat>)
    requires |gs| == |steps| + 1 && |loop| > 0 && Lists(steps, gs[|steps|], loop, nest)
    requires forall x: nat :: x < |gs[|steps|]| && Origin(steps, |steps|, 0, x) == loop[0] ==> x == loop[0]
    ensures LoopIs(gs + [g'], steps + [Step(loop, bbmap)], |steps|, nest)
  {
    hide Origin;
    forall x: nat
      ensures Origin(steps + [Step(loop, bbmap)], |steps|, 0, x) == Origin(steps, |steps|, 0, x)
    {
      OriginPrefix(steps, Step(loop, bbmap), |steps|, 0, x);
    }
  }

  /** A loop that stays open is disjoint from the one unrolled. */
  lemma OpenIsDisjoint(n0: nat, sink: nat, order: seq<nat>, kids: map<nat, seq<nat>>, nest: map<nat, set<nat>>, i: nat, j: nat)
    requires Forest(n0, sink, order, kids, nest) && j < i < |order| && forall a :: 0 <= a < |order| ==> order[a] in nest
    requires Open(order, nest, i + 1, j)
    ensures Open(order, nest, i, j) && nest[order[i]] !! nest[order[j]]
  {
    assert Tree(n0, sink, order, kids, nest, i);
    assert Below(order, kids, nest, j, i);
  }

  lemma TraversedNext(gs: seq<Graph>, steps: seq<Step>, k: nat, sink: nat, order: seq<nat>, kids: map<nat, seq<nat>>, nest: map<nat, set<nat>>,
                      loopNodes: map<nat, seq<nat>>, g': Graph, loop: seq<nat>, bbmap: map<nat, seq<nat>>)
    requires Traversed(gs, steps, k, sink, order, kids, nest, loopNodes) && |steps| < |order| && |loop| > 0
    requires Unrolled(gs[|steps|], g', loop, k, sink, bbmap) && Lists(steps, gs[|steps|], loop, nest[order[|steps|]])
    requires forall x: nat :: x < |gs[|steps|]| && Origin(steps, |steps|, 0, x) == loop[0] ==> x == loop[0]
    ensures Traversed(gs + [g'], steps + [Step(loop, bbmap)], k, sink, order, kids, nest,
                      loopNodes[order[|steps|] := WithCopies(loop, |gs[|steps|]|, |g'|)])
  {
    var i, h, g := |steps|, order[|steps|], gs[|steps|];
    var nodes' := loopNodes[h := WithCopies(loop, |g|, |g'|)];
    TraversedParts(gs, steps, k, sink, order, kids, nest, loopNodes);
    hide *;
    ValidAfter(g, g', loop, k, sink, bbmap);
    StepsNext(gs, steps, k, sink, g', loop, bbmap);
    ApartNext(steps, gs[0], g, g', loop, k, sink, bbmap, order, nest);
    LoopAdded(gs, steps, g', loop, bbmap, nest[h]);
    LoopsNext(gs, steps, g', Step(loop, bbmap), order, nest);
    NodesNext(gs[0], g, g', steps, loop, k, bbmap, sink, order, kids, nest, loopNodes);
    TraversedFrom(gs, steps, k, sink, order, kids, nest, nodes', g', Step(loop, bbmap));
  }

  /** The lists of the open loops. */
  ghost predicate NodesOk(steps: seq<Step>, g: Graph, order: seq<nat>, nest: map<nat, set<nat>>, loopNodes: map<nat, seq<nat>>)
    requires |steps| <= |order| && forall a :: 0 <= a < |order| ==> order[a] in nest
  {
    && (forall h :: h in loopNodes <==> h in order[..|steps|])
    && (forall j: nat :: j < |steps| && Open(order, nest, |steps|, j) ==> order[j] in loopNodes && Lists(steps, g, loopNodes[order[j]], nest[order[j]]))
  }

  lemma TraversedParts(gs: seq<Graph>, steps: seq<Step>, k: nat, sink: nat, order: seq<nat>, kids: map<nat, seq<nat>>, nest: map<nat, set<nat>>,
                       loopNodes: map<nat, seq<nat>>)
    requires Traversed(gs, steps, k, sink, order, kids, nest, loopNodes)
    ensures Steps(gs, steps, k, sink) && |gs| == |steps| + 1 && |steps| <= |order| && Forest(|gs[0]|, sink, order, kids, nest)
    ensures (forall a :: 0 <= a < |order| ==> order[a] in nest) && Apart(steps, gs[0], gs[|steps|], order, nest)
    ensures NodesOk(steps, gs[|steps|], order, nest, loopNodes)
    ensures forall j: nat :: j < |steps| ==> LoopIs(gs, steps, j, nest[order[j]])
  {
    hide Forest, Apart, Lists, LoopIs, StepAt, Open, Valid;
  }

  lemma TraversedFrom(gs: seq<Graph>, steps: seq<Step>, k: nat, sink: nat, order: seq<nat>, kids: map<nat, seq<nat>>, nest: map<nat, set<nat>>,
                      nodes': map<nat, seq<nat>>, g': Graph, s: Step)
    requires |gs| == |steps| + 1 && |steps| < |order| && Steps(gs + [g'], steps + [s], k, sink) && Forest(|gs[0]|, sink, order, kids, nest)
    requires (forall a :: 0 <= a < |order| ==> order[a] in nest) && Valid(g') && sink < |g'| && g'[sink] == []
    requires Apart(steps + [s], gs[0], g', order, nest) && NodesOk(steps + [s], g', order, nest, nodes')
    requires forall j: nat :: j < |steps| + 1 ==> LoopIs(gs + [g'], steps + [s], j, nest[order[j]])
    ensures Traversed(gs + [g'], steps + [s], k, sink, order, kids, nest, nodes')
  {
    hide Forest, Apart, Lists, LoopIs, Steps, Open, Valid;
    assert (gs + [g'])[0] == gs[0];
  }

  lemma LoopsNext(gs: seq<Graph>, steps: seq<Step>, g': Graph, s: Step, order: seq<nat>, nest: map<nat, set<nat>>)
    requires |gs| == |steps| + 1 && |steps| < |order| && forall a :: 0 <= a < |order| ==> order[a] in nest
    requires forall j: nat :: j < |steps| ==> LoopIs(gs, steps, j, nest[order[j]])
    requires LoopIs(gs + [g'], steps + [s], |steps|, nest[order[|steps|]])
    ensures forall j: nat :: j < |steps| + 1 ==> LoopIs(gs + [g'], steps + [s], j, nest[order[j]])
  {
    hide LoopIs;
    forall j: nat | j < |steps| + 1
      ensures LoopIs(gs + [g'], steps + [s], j, nest[order[j]])
    {
      if j < |steps| {
        LoopKept(gs, steps, g', s, j, nest[order[j]]);
      }
    }
  }

  lemma NodesNext(g0: Graph, g: Graph, g': Graph, steps: seq<Step>, loop: seq<nat>, k: nat, bbmap: map<nat, seq<nat>>, sink: nat,
                  order: seq<nat>, kids: map<nat, seq<nat>>, nest: map<nat, set<nat>>, loopNodes: map<nat, seq<nat>>)
    requires |steps| < |order| && Forest(|g0|, sink, order, kids, nest) && (forall a :: 0 <= a < |order| ==> order[a] in nest)
    requires Unrolled(g, g', loop, k, sink, bbmap) && Lists(steps, g, loop, nest[order[|steps|]]) && NodesOk(steps, g, order, nest, loopNodes)
    ensures NodesOk(steps + [Step(loop, bbmap)], g', order, nest, loopNodes[order[|steps|] := WithCopies(loop, |g|, |g'|)])
  {
    var i, h := |steps|, order[|steps|];
    var steps', nodes' := steps + [Step(loop, bbmap)], loopNodes[h := WithCopies(loop, |g|, |g'|)];
    ListsNext(steps, g, g', loop, k, sink, bbmap, nest[h]);
    hide Unrolled, Lists, WithCopies, Forest;
    assert order[..i + 1] == order[..i] + [h];
    forall j: nat | j < i + 1 && Open(order, nest, i + 1, j)
      ensures order[j] in nodes' && Lists(steps', g', nodes'[order[j]], nest[order[j]])
    {
      hide Open;
      if j < i {
        OpenIsDisjoint(|g0|, sink, order, kids, nest, i, j);
        HeadersDiffer(|g0|, sink, order, kids, nest, j, i);
        ListsKept(steps, g, g', loop, k, sink, bbmap, nest[h], loopNodes[order[j]], nest[order[j]]);
      }
    }
  }

  lemma HeadersDiffer(n0: nat, sink: nat, order: seq<nat>, kids: map<nat, seq<nat>>, nest: map<nat, set<nat>>, j: nat, i: nat)
    requires Forest(n0, sink, order, kids, nest) && j < i < |order|
    ensures order[j] != order[i]
  {
    hide Tree;
  }

  lemma TraversalStarts(g: Graph, k: nat, sink: nat, order: seq<nat>, kids: map<nat, seq<nat>>, nest: map<nat, set<nat>>)
    requires Valid(g) && sink < |g| && g[sink] == [] && Forest(|g|, sink, order, kids, nest)
    ensures Traversed([g], [], k, sink, order, kids, nest, map[])
  {
    forall a: nat | a < |order|
      ensures order[a] in nest
    {
      assert Tree(|g|, sink, order, kids, nest, a);
    }
  }

  /** The blocks of a loop: the header, and for each child its own list or the block. */
  method GatherLoop(header: nat, children: seq<nat>, loopNodes: map<nat, seq<nat>>) returns (loop: seq<nat>)
    ensures loop == Gathered(header, children, loopNodes, |children|)
  {
    loop := [header];
    var n: nat := 0;
    while n < |children|
      invariant n <= |children| && loop == Gathered(header, children, loopNodes, n)
    {
      var bb := children[n];
      if bb in loopNodes {
        loop := loop + loopNodes[bb];
      } else {
        loop := loop + [bb];
      }
      n := n + 1;
    }
  }

  /** `Function::unroll` over all loops: each is unrolled together with the copies of the
      loops inside it. */
  method UnrollAll(f: Unroller, order: seq<nat>, kids: map<nat, seq<nat>>, ghost nest: map<nat, set<nat>>, k: nat, sink: nat)
    returns (ghost gs: seq<Graph>, ghost steps: seq<Step>)
    requires Valid(f.g) && sink < |f.g| && f.g[sink] == [] && k >= 1 && Forest(|f.g|, sink, order, kids, nest)
    modifies f
    ensures Steps(gs, steps, k, sink) && |steps| == |order| && gs[0] == old(f.g) && gs[|steps|] == f.g
    ensures sink < |f.g| && f.g[sink] == []
    ensures forall i: nat :: i < |steps| ==> order[i] in nest && LoopIs(gs, steps, i, nest[order[i]])
    ensures HeadersOf(steps, order)
  {
    var loopNodes: map<nat, seq<nat>> := map[];
    gs, steps := [f.g], [];
    TraversalStarts(f.g, k, sink, order, kids, nest);
    var i: nat := 0;
    while i < |order|
      invariant i == |steps| <= |order| && Traversed(gs, steps, k, sink, order, kids, nest, loopNodes)
      invariant |gs| == i + 1 && gs[i] == f.g && gs[0] == old(f.g) && HeadersOf(steps, order)
    {
      hide *;
      var header := order[i];
      GatheredIsLoop(gs, steps, k, sink, order, kids, nest, loopNodes);
      var loop := GatherLoop(header, kids[header], loopNodes);
      var n := |f.g|;
      LoopHasHeader(f.g, loop, sink);
      var bbmap := f.UnrollLoop(loop, k, sink);
      TraversedNext(gs, steps, k, sink, order, kids, nest, loopNodes, f.g, loop, bbmap);
      loopNodes := loopNodes[header := WithCopies(loop, n, |f.g|)];
      HeadersNext(steps, order, Step(loop, bbmap));
      gs, steps := gs + [f.g], steps + [Step(loop, bbmap)];
      i := i + 1;
    }
  }

  /** The steps unroll the loops with these headers. */
  ghost predicate HeadersOf(steps: seq<Step>, order: seq<nat>) {
    |steps| <= |order| && forall i :: 0 <= i < |steps| ==> |steps[i].loop| > 0 && steps[i].loop[0] == order[i]
  }

  lemma HeadersNext(steps: seq<Step>, order: seq<nat>, s: Step)
    requires HeadersOf(steps, order) && |steps| < |order| && |s.loop| > 0 && s.loop[0] == order[|steps|]
    ensures HeadersOf(steps + [s], order)
  {
  }

  lemma LoopHasHeader(g: Graph, loop: seq<nat>, sink: nat)
    requires LoopShape(g, loop, sink)
    ensures |loop| > 0
  {
  }

  /** The cycle stays inside a loop of the forest and goes through its header. */
  ghost predicate InLoopWithHeader(order: seq<nat>, nest: map<nat, set<nat>>, i: nat, p: seq<nat>) {
    i < |order| && order[i] in nest && order[i] in p && forall x :: x in p ==> x in nest[order[i]]
  }

  /** Unrolling all loops of the forest leaves no cycle at all, if every cycle of the
      function stays inside some loop and goes through its header. */
  lemma AllCyclesCut(gs: seq<Graph>, steps: seq<Step>, k: nat, sink: nat, order: seq<nat>, nest: map<nat, set<nat>>, q: seq<nat>)
    requires Steps(gs, steps, k, sink) && |steps| == |order| && HeadersOf(steps, order) && sink < |gs[|steps|]| && gs[|steps|][sink] == []
    requires forall i: nat :: i < |steps| ==> order[i] in nest && LoopIs(gs, steps, i, nest[order[i]])
    requires forall p :: Cycle(gs[0], p) ==> exists i :: InLoopWithHeader(order, nest, i, p)
    ensures !Cycle(gs[|steps|], q)
  {
    var nests := NestsOf(order, nest);
    hide Cycle, LoopIs, StepAt, HeadersOf;
    forall p | Cycle(gs[0], p)
      ensures exists i :: CutBy(steps, nests, i, p)
    {
      var i :| InLoopWithHeader(order, nest, i, p);
      CutByLoop(steps, order, nest, i, p);
    }
    UnrolledFunctionIsAcyclic(gs, steps, k, sink, nests, q);
  }

  /** A jump from a block to itself is only taken away when a loop with this header is
      unrolled. */
  lemma {:induction false} SelfJumpStays(gs: seq<Graph>, steps: seq<Step>, k: nat, sink: nat, n: nat, b: nat)
    requires Steps(gs, steps, k, sink) && n <= |steps| && Edge(gs[0], b, b) && forall i :: 0 <= i < |steps| ==> |steps[i].loop| > 0 && steps[i].loop[0] != b
    ensures Edge(gs[n], b, b)
    decreases n
  {
    if n > 0 {
      var h := n - 1;
      SelfJumpStays(gs, steps, k, sink, h, b);
      StepHolds(gs, steps, k, sink, h);
      hide Steps, StepAt;
      SelfJumpPatched(gs[h], gs[n], steps[h].loop, k, sink, steps[h].bbmap, b);
    }
  }

  lemma SelfJumpPatched(g0: Graph, g1: Graph, loop: seq<nat>, k: nat, sink: nat, bbmap: map<nat, seq<nat>>, b: nat)
    requires Unrolled(g0, g1, loop, k, sink, bbmap) && Edge(g0, b, b) && loop[0] != b
    ensures Edge(g1, b, b)
  {
    var j :| 0 <= j < |g0[b]| && g0[b][j] == b;
    if b in loop {
      var u: nat := 0;
      assert PatchedList(bbmap, loop[0], sink, u, g0[b], g1[bbmap[b][u]]);
      assert g1[b][j] == b;
    }
  }

  ghost function NestsOf(order: seq<nat>, nest: map<nat, set<nat>>): seq<set<nat>> {
    seq(|order|, i requires 0 <= i < |order| => if order[i] in nest then nest[order[i]] else {})
  }

  lemma CutByLoop(steps: seq<Step>, order: seq<nat>, nest: map<nat, set<nat>>, i: nat, p: seq<nat>)
    requires HeadersOf(steps, order) && |steps| == |order| && InLoopWithHeader(order, nest, i, p)
    ensures CutBy(steps, NestsOf(order, nest), i, p)
  {
  }
}
