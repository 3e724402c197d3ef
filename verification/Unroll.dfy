/** Bounded loop unrolling: the block copies and the jump patching of
    `Function::unroll` (ir/function.cpp), and what they do to paths. */
module Unroll {
  import opened Cfg

  /** `loop` lists the blocks of one loop, header first; nothing leaves the sink. */
  ghost predicate LoopShape(g: Graph, loop: seq<nat>, sink: nat) {
    && Valid(g) && |loop| > 0
    && (forall i :: 0 <= i < |loop| ==> loop[i] < |g|)
    && (forall i, j :: 0 <= i < j < |loop| ==> loop[i] != loop[j])
    && sink < |g| && sink !in loop && g[sink] == []
  }

  /** The header of a loop with a body has one copy more than the other blocks. */
  function Copies(loop: seq<nat>, k: nat, b: nat): nat
    requires |loop| > 0
  {
    if b == loop[0] && |loop| > 1 then k + 1 else k
  }

  /** Where a jump to `t` leads once it leaves copy `u` of a block. */
  function PatchedTarget(bbmap: map<nat, seq<nat>>, header: nat, sink: nat, u: nat, t: nat): nat {
    if t !in bbmap then t
    else if t == header then if u + 1 < |bbmap[t]| then bbmap[t][u + 1] else sink
    else if u < |bbmap[t]| then bbmap[t][u] else sink
  }

  /** `bbmap` names the copies of each loop block: the block itself, then new blocks. */
  ghost predicate Named(n0: nat, n1: nat, loop: seq<nat>, bbmap: map<nat, seq<nat>>) {
    && n0 <= n1
    && (forall b :: b in bbmap <==> b in loop)
    && (forall b :: b in bbmap ==> |bbmap[b]| > 0 && bbmap[b][0] == b)
    && (forall b, u :: b in bbmap && 0 < u < |bbmap[b]| ==> n0 <= bbmap[b][u] < n1)
    && (forall b, u, b', u' :: b in bbmap && 0 <= u < |bbmap[b]| && b' in bbmap && 0 <= u' < |bbmap[b']| ==>
          (bbmap[b][u] == bbmap[b'][u'] ==> b == b' && u == u'))
    && (forall x :: n0 <= x < n1 ==> IsCopy(bbmap, x))
  }

  ghost predicate IsCopy(bbmap: map<nat, seq<nat>>, x: nat) {
    exists b, u :: b in bbmap && 0 <= u < |bbmap[b]| && bbmap[b][u] == x
  }

  ghost predicate PatchedList(bbmap: map<nat, seq<nat>>, header: nat, sink: nat, u: nat, before: seq<nat>, after: seq<nat>) {
    && |after| == |before|
    && forall j :: 0 <= j < |before| ==> after[j] == PatchedTarget(bbmap, header, sink, u, before[j])
  }

  /** `g1` is `g0` with the loop unrolled `k` times. */
  ghost predicate Unrolled(g0: Graph, g1: Graph, loop: seq<nat>, k: nat, sink: nat, bbmap: map<nat, seq<nat>>) {
    && LoopShape(g0, loop, sink) && k >= 1
    && Named(|g0|, |g1|, loop, bbmap)
    && (forall b :: b in bbmap ==> |bbmap[b]| == Copies(loop, k, b))
    && (forall b, u :: b in bbmap && 0 <= u < |bbmap[b]| ==> PatchedList(bbmap, loop[0], sink, u, g0[b], g1[bbmap[b][u]]))
    && (forall x :: 0 <= x < |g0| && x !in loop ==> g1[x] == g0[x])
  }

  // ----- paths of the unrolled function --------------------------------------

  /** The iteration of the loop that position `i` of `p` is in, counting the
      arrivals at the header from inside the loop since the last entry. */
  ghost function Iteration(loop: seq<nat>, p: seq<nat>, i: nat): nat
    requires i < |p| && |loop| > 0
  {
    if i == 0 || p[i] !in loop || p[i - 1] !in loop then 0
    else Iteration(loop, p, i - 1) + if p[i] == loop[0] then 1 else 0
  }

  /** The path stays within `k` iterations of the loop; a header of other blocks may be met
      once more, so that the last iteration can leave the loop there. */
  ghost predicate Fits(loop: seq<nat>, k: nat, p: seq<nat>)
    requires |loop| > 0
  {
    forall i :: 0 <= i < |p| && p[i] in loop ==>
      Iteration(loop, p, i) < k || (Iteration(loop, p, i) == k && p[i] == loop[0] && |loop| > 1)
  }

  /** The block that stands for `b` in iteration `u`. */
  ghost function Name(bbmap: map<nat, seq<nat>>, sink: nat, b: nat, u: nat): nat {
    if b !in bbmap then b else if u < |bbmap[b]| then bbmap[b][u] else sink
  }

  ghost function Lift(bbmap: map<nat, seq<nat>>, loop: seq<nat>, sink: nat, p: seq<nat>): (q: seq<nat>)
    requires |loop| > 0
    ensures |q| == |p|
  {
    seq(|p|, i requires 0 <= i < |p| => Name(bbmap, sink, p[i], Iteration(loop, p, i)))
  }

  /** The block and the iteration that `x` stands for. */
  ghost function Locate(bbmap: map<nat, seq<nat>>, x: nat): (nat, nat) {
    if IsCopy(bbmap, x) then var b, u :| b in bbmap && 0 <= u < |bbmap[b]| && bbmap[b][u] == x; (b, u)
    else (x, 0)
  }

  /** Forgets which copy each block is. */
  ghost function Erase(bbmap: map<nat, seq<nat>>, q: seq<nat>): (p: seq<nat>)
    ensures |p| == |q|
  {
    seq(|q|, i requires 0 <= i < |q| => Locate(bbmap, q[i]).0)
  }

  /** Copies are told apart by block and iteration, other blocks stand for themselves. */
  lemma LocateName(g0: Graph, g1: Graph, loop: seq<nat>, k: nat, sink: nat, bbmap: map<nat, seq<nat>>, b: nat, u: nat)
    requires Unrolled(g0, g1, loop, k, sink, bbmap) && b < |g0|
    requires if b in loop then u < Copies(loop, k, b) else u == 0
    ensures var x := Name(bbmap, sink, b, u); x < |g1| && Locate(bbmap, x) == (b, u) && (b != sink ==> x != sink)
  {
    var x := Name(bbmap, sink, b, u);
    if b in loop {
      assert IsCopy(bbmap, x);
    } else {
      assert forall c, v :: c in bbmap && 0 <= v < |bbmap[c]| && v == 0 ==> bbmap[c][v] == c;
      assert !IsCopy(bbmap, x);
    }
  }

  lemma LocateOriginal(g0: Graph, g1: Graph, loop: seq<nat>, k: nat, sink: nat, bbmap: map<nat, seq<nat>>, x: nat)
    requires Unrolled(g0, g1, loop, k, sink, bbmap) && x < |g0|
    ensures x in loop ==> IsCopy(bbmap, x)
    ensures Locate(bbmap, x) == (x, 0)
  {
    LocateName(g0, g1, loop, k, sink, bbmap, x, 0);
    if x in loop {
      assert bbmap[x][0] == x;
    }
  }

  lemma NameLocate(g0: Graph, g1: Graph, loop: seq<nat>, k: nat, sink: nat, bbmap: map<nat, seq<nat>>, x: nat)
    requires Unrolled(g0, g1, loop, k, sink, bbmap) && x < |g1|
    ensures var (b, u) := Locate(bbmap, x);
      b < |g0| && Name(bbmap, sink, b, u) == x && if b in loop then u < Copies(loop, k, b) else u == 0
  {
    if x < |g0| {
      LocateOriginal(g0, g1, loop, k, sink, bbmap, x);
    }
  }

  /** The iteration a jump leads to. */
  ghost function NextIteration(loop: seq<nat>, b: nat, u: nat, t: nat): nat
    requires |loop| > 0
  {
    if b !in loop || t !in loop then 0 else if t == loop[0] then u + 1 else u
  }

  /** Jump `j` of copy `u` of `b` leads to what stands for the original target. */
  lemma JumpNames(g0: Graph, g1: Graph, loop: seq<nat>, k: nat, sink: nat, bbmap: map<nat, seq<nat>>, b: nat, u: nat)
    requires Unrolled(g0, g1, loop, k, sink, bbmap) && b < |g0|
    requires if b in loop then u < Copies(loop, k, b) else u == 0
    ensures Name(bbmap, sink, b, u) < |g1|
    ensures |g1[Name(bbmap, sink, b, u)]| == |g0[b]|
    ensures forall j :: 0 <= j < |g0[b]| ==>
      g1[Name(bbmap, sink, b, u)][j] == Name(bbmap, sink, g0[b][j], NextIteration(loop, b, u, g0[b][j]))
  {
    if b in loop {
      assert PatchedList(bbmap, loop[0], sink, u, g0[b], g1[bbmap[b][u]]);
    } else {
      forall j | 0 <= j < |g0[b]|
        ensures g1[b][j] == Name(bbmap, sink, g0[b][j], NextIteration(loop, b, u, g0[b][j]))
      {
        assert g0[b][j] in loop ==> bbmap[g0[b][j]][0] == g0[b][j];
      }
    }
  }

  lemma IterationStep(loop: seq<nat>, p: seq<nat>, i: nat)
    requires i + 1 < |p| && |loop| > 0
    ensures Iteration(loop, p, i + 1) == NextIteration(loop, p[i], Iteration(loop, p, i), p[i + 1])
  {
    assert p[i + 1 - 1] == p[i];
  }

  // ----- the simulation ------------------------------------------------------

  lemma FitsAt(loop: seq<nat>, k: nat, p: seq<nat>, i: nat)
    requires |loop| > 0 && Fits(loop, k, p) && i < |p|
    ensures if p[i] in loop then Iteration(loop, p, i) < Copies(loop, k, p[i]) else Iteration(loop, p, i) == 0
  {
  }

  lemma LiftAt(g0: Graph, g1: Graph, loop: seq<nat>, k: nat, sink: nat, bbmap: map<nat, seq<nat>>, p: seq<nat>, i: nat)
    requires Unrolled(g0, g1, loop, k, sink, bbmap) && IsPath(g0, p) && Fits(loop, k, p) && i < |p|
    ensures var x := Lift(bbmap, loop, sink, p)[i];
      x < |g1| && Locate(bbmap, x).0 == p[i] && (p[i] != sink ==> x != sink)
  {
    FitsAt(loop, k, p, i);
    LocateName(g0, g1, loop, k, sink, bbmap, p[i], Iteration(loop, p, i));
  }

  lemma LiftEdge(g0: Graph, g1: Graph, loop: seq<nat>, k: nat, sink: nat, bbmap: map<nat, seq<nat>>, p: seq<nat>, i: nat)
    requires Unrolled(g0, g1, loop, k, sink, bbmap) && IsPath(g0, p) && Fits(loop, k, p) && i + 1 < |p|
    ensures var q := Lift(bbmap, loop, sink, p); Edge(g1, q[i], q[i + 1])
  {
    assert Edge(g0, p[i], p[i + 1]);
    FitsAt(loop, k, p, i);
    IterationStep(loop, p, i);
    JumpNames(g0, g1, loop, k, sink, bbmap, p[i], Iteration(loop, p, i));
  }

  /** A path of the original that fits lifts to a path of the unrolled function that
      erases back to it. */
  lemma FittingPathLifts(g0: Graph, g1: Graph, loop: seq<nat>, k: nat, sink: nat, bbmap: map<nat, seq<nat>>, p: seq<nat>)
    requires Unrolled(g0, g1, loop, k, sink, bbmap) && IsPath(g0, p) && Fits(loop, k, p)
    ensures IsPath(g1, Lift(bbmap, loop, sink, p)) && Erase(bbmap, Lift(bbmap, loop, sink, p)) == p
    ensures sink !in p ==> sink !in Lift(bbmap, loop, sink, p)
  {
    assert |loop| > 0;
    hide Unrolled, Fits, Locate, Lift, Edge;
    var q := Lift(bbmap, loop, sink, p);
    forall i: nat | i < |q|
      ensures q[i] < |g1| && Locate(bbmap, q[i]).0 == p[i] && (p[i] != sink ==> q[i] != sink)
    {
      LiftAt(g0, g1, loop, k, sink, bbmap, p, i);
    }
    forall i: nat {:trigger q[i + 1]} | i < |q| - 1
      ensures Edge(g1, q[i], q[i + 1])
    {
      LiftEdge(g0, g1, loop, k, sink, bbmap, p, i);
    }
  }

  /** An edge that does not give up erases to an edge of the original. */
  lemma EdgeErases(g0: Graph, g1: Graph, loop: seq<nat>, k: nat, sink: nat, bbmap: map<nat, seq<nat>>, x: nat, y: nat)
    requires Unrolled(g0, g1, loop, k, sink, bbmap) && x < |g1| && y < |g1| && Edge(g1, x, y) && y != sink
    ensures var ((b, u), (t, v)) := (Locate(bbmap, x), Locate(bbmap, y));
      Edge(g0, b, t) && v == NextIteration(loop, b, u, t)
  {
    var (b, u) := Locate(bbmap, x);
    NameLocate(g0, g1, loop, k, sink, bbmap, x);
    JumpNames(g0, g1, loop, k, sink, bbmap, b, u);
    var j :| 0 <= j < |g1[x]| && g1[x][j] == y;
    var t := g0[b][j];
    var v := NextIteration(loop, b, u, t);
    assert t in g0[b];
    assert t in bbmap ==> v < |bbmap[t]|;
    LocateName(g0, g1, loop, k, sink, bbmap, t, v);
  }

  /** Every path of the unrolled function that does not give up is, up to copy
      numbers, a path of the original. */
  lemma PatchedPathErases(g0: Graph, g1: Graph, loop: seq<nat>, k: nat, sink: nat, bbmap: map<nat, seq<nat>>, q: seq<nat>)
    requires Unrolled(g0, g1, loop, k, sink, bbmap) && IsPath(g1, q) && sink !in q
    ensures IsPath(g0, Erase(bbmap, q))
  {
    var p := Erase(bbmap, q);
    forall i: nat | i < |q|
      ensures p[i] < |g0|
    {
      NameLocate(g0, g1, loop, k, sink, bbmap, q[i]);
    }
    forall i: nat {:trigger p[i + 1]} | i < |q| - 1
      ensures Edge(g0, p[i], p[i + 1])
    {
      assert Edge(g1, q[i], q[i + 1]);
      EdgeErases(g0, g1, loop, k, sink, bbmap, q[i], q[i + 1]);
    }
  }

  /** ... and if it starts at an original block, it is the only lift of that path. */
  lemma PatchedPathIsLift(g0: Graph, g1: Graph, loop: seq<nat>, k: nat, sink: nat, bbmap: map<nat, seq<nat>>, q: seq<nat>)
    requires Unrolled(g0, g1, loop, k, sink, bbmap) && IsPath(g1, q) && sink !in q && q[0] < |g0|
    ensures Fits(loop, k, Erase(bbmap, q)) && q == Lift(bbmap, loop, sink, Erase(bbmap, q))
  {
    var p := Erase(bbmap, q);
    forall i: nat | i < |q|
      ensures q[i] == Name(bbmap, sink, p[i], Iteration(loop, p, i))
      ensures p[i] in loop ==> Iteration(loop, p, i) < Copies(loop, k, p[i])
    {
      CopyIsIteration(g0, g1, loop, k, sink, bbmap, q, i);
      NameLocate(g0, g1, loop, k, sink, bbmap, q[i]);
    }
  }

  /** `q` follows `p` through the copies, from the block in which `p` starts. */
  ghost predicate Follows(g1: Graph, sink: nat, bbmap: map<nat, seq<nat>>, q: seq<nat>, p: seq<nat>) {
    IsPath(g1, q) && |p| > 0 && sink !in q && q[0] == p[0] && Erase(bbmap, q) == p
  }

  /** The unrolled function can follow a path exactly if it stays within `k` iterations, the
      last of which may leave the loop from its header. */
  lemma FollowsIff(g0: Graph, g1: Graph, loop: seq<nat>, k: nat, sink: nat, bbmap: map<nat, seq<nat>>, p: seq<nat>)
    requires Unrolled(g0, g1, loop, k, sink, bbmap) && IsPath(g0, p) && sink !in p
    ensures |loop| > 0 && ((exists q :: Follows(g1, sink, bbmap, q, p)) <==> Fits(loop, k, p))
  {
    if Fits(loop, k, p) {
      FittingPathLifts(g0, g1, loop, k, sink, bbmap, p);
      LocateOriginal(g0, g1, loop, k, sink, bbmap, p[0]);
      hide Locate, Fits;
      assert Follows(g1, sink, bbmap, Lift(bbmap, loop, sink, p), p);
    }
    if q :| Follows(g1, sink, bbmap, q, p) {
      PatchedPathIsLift(g0, g1, loop, k, sink, bbmap, q);
    }
  }

  lemma {:induction false} CopyIsIteration(g0: Graph, g1: Graph, loop: seq<nat>, k: nat, sink: nat, bbmap: map<nat, seq<nat>>, q: seq<nat>, i: nat)
    requires Unrolled(g0, g1, loop, k, sink, bbmap) && IsPath(g1, q) && sink !in q && q[0] < |g0| && i < |q|
    ensures Locate(bbmap, q[i]).1 == Iteration(loop, Erase(bbmap, q), i)
  {
    var p := Erase(bbmap, q);
    if i == 0 {
      LocateOriginal(g0, g1, loop, k, sink, bbmap, q[0]);
    } else {
      var h := i - 1;
      CopyIsIteration(g0, g1, loop, k, sink, bbmap, q, h);
      assert Edge(g1, q[h], q[h + 1]);
      EdgeErases(g0, g1, loop, k, sink, bbmap, q[h], q[h + 1]);
      IterationStep(loop, p, h);
    }
  }

  lemma {:induction false} IterationTake(loop: seq<nat>, p: seq<nat>, n: nat, i: nat)
    requires i < n <= |p| && |loop| > 0
    ensures Iteration(loop, p[..n], i) == Iteration(loop, p, i)
  {
    if i > 0 {
      IterationTake(loop, p, n, i - 1);
    }
  }

  lemma FitsExtended(loop: seq<nat>, k: nat, p: seq<nat>, n: nat)
    requires |loop| > 0 && |p| == n + 1 && Fits(loop, k, p[..n])
    ensures Fits(loop, k, p) <==> (p[n] in loop ==> Iteration(loop, p, n) < Copies(loop, k, p[n]))
  {
    forall i: nat | i < n && p[i] in loop
      ensures Iteration(loop, p, i) < Copies(loop, k, p[i])
    {
      IterationTake(loop, p, n, i);
      FitsAt(loop, k, p[..n], i);
    }
  }

  lemma NameIsSink(g0: Graph, g1: Graph, loop: seq<nat>, k: nat, sink: nat, bbmap: map<nat, seq<nat>>, t: nat, v: nat)
    requires Unrolled(g0, g1, loop, k, sink, bbmap) && t < |g0| && t != sink && (t !in loop ==> v == 0)
    ensures Name(bbmap, sink, t, v) == sink <==> !(t in loop ==> v < Copies(loop, k, t))
  {
    if t in loop ==> v < Copies(loop, k, t) {
      LocateName(g0, g1, loop, k, sink, bbmap, t, v);
    }
  }

  /** A run gives up, by jumping to the sink, exactly at the step that needs a copy
      which does not exist: branch `j` of the block reached so far. */
  lemma GivesUpIffCopyMissing(g0: Graph, g1: Graph, loop: seq<nat>, k: nat, sink: nat, bbmap: map<nat, seq<nat>>, p: seq<nat>, n: nat, j: nat)
    requires Unrolled(g0, g1, loop, k, sink, bbmap) && IsPath(g0, p) && |p| == n + 2 && p[n + 1] != sink
    requires Fits(loop, k, p[..n + 1])
    requires j < |g0[p[n]]| && g0[p[n]][j] == p[n + 1]
    ensures var x := Lift(bbmap, loop, sink, p[..n + 1])[n];
      x < |g1| && j < |g1[x]| && (g1[x][j] == sink <==> !Fits(loop, k, p))
  {
    assert |loop| > 0;
    FitsExtended(loop, k, p, n + 1);
    FitsAt(loop, k, p[..n + 1], n);
    hide Unrolled, Fits;
    IterationTake(loop, p, n + 1, n);
    IterationStep(loop, p, n);
    JumpNames(g0, g1, loop, k, sink, bbmap, p[n], Iteration(loop, p, n));
    NameIsSink(g0, g1, loop, k, sink, bbmap, p[n + 1], Iteration(loop, p, n + 1));
  }

  // ----- no cycle is left ----------------------------------------------------

  /** A path inside the loop that does not return to the header. */
  ghost predicate BodyPath(g: Graph, loop: seq<nat>, p: seq<nat>)
    requires |loop| > 0
  {
    && IsPath(g, p) && (forall i :: 0 <= i < |p| ==> p[i] in loop)
    && (forall i :: 0 < i < |p| ==> p[i] != loop[0])
  }

  /** The loop body has no cycle once the edges into the header are removed. */
  ghost predicate BodyAcyclic(g: Graph, loop: seq<nat>)
    requires |loop| > 0
  {
    forall p: seq<nat> :: |p| > 1 && BodyPath(g, loop, p) ==> p[0] != p[|p| - 1]
  }

  ghost predicate AllCopies(bbmap: map<nat, seq<nat>>, q: seq<nat>) {
    forall i :: 0 <= i < |q| ==> IsCopy(bbmap, q[i])
  }

  lemma {:induction false} CopyNumbersGrow(g0: Graph, g1: Graph, loop: seq<nat>, k: nat, sink: nat, bbmap: map<nat, seq<nat>>, q: seq<nat>, i: nat, j: nat)
    requires Unrolled(g0, g1, loop, k, sink, bbmap) && IsPath(g1, q) && AllCopies(bbmap, q)
    requires i <= j < |q|
    ensures Locate(bbmap, q[i]).1 <= Locate(bbmap, q[j]).1
    decreases j
  {
    hide Unrolled;
    if i < j {
      var h := j - 1;
      CopyNumbersGrow(g0, g1, loop, k, sink, bbmap, q, i, h);
      CopyStep(g0, g1, loop, k, sink, bbmap, q, h);
    }
  }

  lemma CopyStep(g0: Graph, g1: Graph, loop: seq<nat>, k: nat, sink: nat, bbmap: map<nat, seq<nat>>, q: seq<nat>, h: nat)
    requires Unrolled(g0, g1, loop, k, sink, bbmap) && IsPath(g1, q) && AllCopies(bbmap, q)
    requires h + 1 < |q|
    ensures q[h + 1] != sink
    ensures var ((b, u), (t, v)) := (Locate(bbmap, q[h]), Locate(bbmap, q[h + 1]));
      Edge(g0, b, t) && b in loop && t in loop && v == if t == loop[0] then u + 1 else u
  {
    assert Edge(g1, q[h], q[h + 1]);
    var (t, v) := Locate(bbmap, q[h + 1]);
    NameLocate(g0, g1, loop, k, sink, bbmap, q[h]);
    NameLocate(g0, g1, loop, k, sink, bbmap, q[h + 1]);
    LocateName(g0, g1, loop, k, sink, bbmap, t, v);
    EdgeErases(g0, g1, loop, k, sink, bbmap, q[h], q[h + 1]);
  }

  /** A path among the copies that ends in the iteration it began in stays there. */
  lemma SameIterationStaysInBody(g0: Graph, g1: Graph, loop: seq<nat>, k: nat, sink: nat, bbmap: map<nat, seq<nat>>, q: seq<nat>, i: nat)
    requires Unrolled(g0, g1, loop, k, sink, bbmap) && IsPath(g1, q) && AllCopies(bbmap, q)
    requires Locate(bbmap, q[0]).1 == Locate(bbmap, q[|q| - 1]).1 && 0 < i < |q|
    ensures Locate(bbmap, q[i]).0 in loop && Locate(bbmap, q[i]).0 != loop[0] && q[i] != sink
    ensures Locate(bbmap, q[0]).0 in loop
  {
    hide Unrolled;
    CopyNumbersGrow(g0, g1, loop, k, sink, bbmap, q, 0, i - 1);
    CopyStep(g0, g1, loop, k, sink, bbmap, q, 0);
    CopyStep(g0, g1, loop, k, sink, bbmap, q, i - 1);
    CopyNumbersGrow(g0, g1, loop, k, sink, bbmap, q, i, |q| - 1);
  }

  /** A cycle among the copies erases to a cycle of the body. */
  lemma CycleErases(g0: Graph, g1: Graph, loop: seq<nat>, k: nat, sink: nat, bbmap: map<nat, seq<nat>>, q: seq<nat>)
    requires Unrolled(g0, g1, loop, k, sink, bbmap) && IsPath(g1, q) && |q| > 1 && AllCopies(bbmap, q) && q[0] == q[|q| - 1]
    ensures |loop| > 0 && BodyPath(g0, loop, Erase(bbmap, q))
  {
    assert |loop| > 0;
    hide Unrolled, AllCopies, IsCopy;
    var p := Erase(bbmap, q);
    forall i: nat | 0 < i < |q|
      ensures p[i] in loop && p[i] != loop[0] && q[i] != sink && p[0] in loop
    {
      SameIterationStaysInBody(g0, g1, loop, k, sink, bbmap, q, i);
    }
    assert p[1] in loop;
    PatchedPathErases(g0, g1, loop, k, sink, bbmap, q);
  }

  /** If only edges into the header close cycles, no cycle remains among the copies. */
  lemma UnrolledIsAcyclic(g0: Graph, g1: Graph, loop: seq<nat>, k: nat, sink: nat, bbmap: map<nat, seq<nat>>, q: seq<nat>)
    requires Unrolled(g0, g1, loop, k, sink, bbmap) && BodyAcyclic(g0, loop)
    requires IsPath(g1, q) && |q| > 1 && AllCopies(bbmap, q)
    ensures q[0] != q[|q| - 1]
  {
    if q[0] == q[|q| - 1] {
      CycleErases(g0, g1, loop, k, sink, bbmap, q);
    }
  }

  // ----- cloning and patching ------------------------------------------------

  /** Redirects every jump to `from` (`replaceTargetWith`). */
  function ReplaceTarget(ts: seq<nat>, from: nat, to: nat): (r: seq<nat>)
    ensures |r| == |ts|
  {
    seq(|ts|, i requires 0 <= i < |ts| => if ts[i] == from then to else ts[i])
  }

  /** Targets before position `i` have been patched wherever they occur. */
  ghost predicate PatchedUpTo(bbmap: map<nat, seq<nat>>, header: nat, sink: nat, u: nat, before: seq<nat>, now: seq<nat>, i: nat)
    requires i <= |before|
  {
    |now| == |before| && forall j :: 0 <= j < |before| ==>
      now[j] == if before[j] in before[..i] then PatchedTarget(bbmap, header, sink, u, before[j]) else before[j]
  }

  lemma PatchStep(n0: nat, n1: nat, loop: seq<nat>, bbmap: map<nat, seq<nat>>, sink: nat, u: nat, before: seq<nat>, now: seq<nat>, i: nat)
    requires |loop| > 0 && Named(n0, n1, loop, bbmap) && sink !in loop && (forall b :: b in loop ==> b < n0)
    requires i < |before| && PatchedUpTo(bbmap, loop[0], sink, u, before, now, i)
    ensures var t := now[i];
      PatchedUpTo(bbmap, loop[0], sink, u, before,
                  if t in bbmap then ReplaceTarget(now, t, PatchedTarget(bbmap, loop[0], sink, u, t)) else now, i + 1)
  {
    var t := now[i];
    assert before[..i + 1] == before[..i] + [before[i]];
    var to := PatchedTarget(bbmap, loop[0], sink, u, before[i]);
    // a patched target is a new block, the sink, or an unchanged original
    forall b | b in bbmap && PatchedTarget(bbmap, loop[0], sink, u, b) in bbmap
      ensures PatchedTarget(bbmap, loop[0], sink, u, b) == b
    {
    }
  }

  class Unroller {
    /** The jump targets of each block of the function. */
    var g: Graph

    constructor (g: Graph)
      ensures this.g == g
    {
      this.g := g;
    }

    /** `cloneBB`: a new block with the same jumps. */
    method Clone(b: nat) returns (c: nat)
      requires b < |g|
      modifies this
      ensures c == |old(g)| && g == old(g) + [old(g)[b]]
    {
      c := |g|;
      g := g + [g[b]];
    }

    /** One round of cloning: another copy of each loop block. */
    method CloneRound(loop: seq<nat>, bbmap0: map<nat, seq<nat>>, blocks: seq<nat>, ghost g0: Graph) returns (bbmap: map<nat, seq<nat>>)
      requires Cloned(g0, g, loop, bbmap0) && (forall i :: 0 <= i < |blocks| ==> blocks[i] in loop)
      requires forall i, j :: 0 <= i < j < |blocks| ==> blocks[i] != blocks[j]
      modifies this
      ensures Cloned(g0, g, loop, bbmap)
      ensures forall b :: b in bbmap0 ==> |bbmap[b]| == |bbmap0[b]| + if b in blocks then 1 else 0
    {
      bbmap := bbmap0;
      var i := 0;
      while i < |blocks|
        invariant i <= |blocks| && Cloned(g0, g, loop, bbmap)
        invariant forall b :: b in bbmap0 <==> b in bbmap
        invariant forall b :: b in bbmap0 ==> |bbmap[b]| == |bbmap0[b]| + if b in blocks[..i] then 1 else 0
      {
        var b := blocks[i];
        assert blocks[..i + 1] == blocks[..i] + [b];
        assert b !in blocks[..i];
        assert b in loop;
        ghost var g1 := g;
        var c := Clone(b);
        CloneKeeps(g0, g1, loop, bbmap, b);
        bbmap := bbmap[b := bbmap[b] + [c]];
        i := i + 1;
      }
      assert blocks[..i] == blocks;
    }

    /** Redirects the jumps of copy `u` that stay inside the loop. */
    method PatchBlock(c: nat, u: nat, loop: seq<nat>, sink: nat, bbmap: map<nat, seq<nat>>, ghost n0: nat)
      requires c < |g| && |loop| > 0 && sink !in loop && Named(n0, |g|, loop, bbmap) && forall b :: b in loop ==> b < n0
      modifies this
      ensures |g| == |old(g)| && (forall x :: 0 <= x < |g| && x != c ==> g[x] == old(g)[x])
      ensures PatchedList(bbmap, loop[0], sink, u, old(g)[c], g[c])
    {
      hide Named;
      ghost var before := g[c];
      var i := 0;
      while i < |g[c]|
        invariant |g| == |old(g)| && (forall x :: 0 <= x < |g| && x != c ==> g[x] == old(g)[x])
        invariant i <= |g[c]| == |before| && PatchedUpTo(bbmap, loop[0], sink, u, before, g[c], i)
      {
        var tgt := g[c][i];
        PatchStep(n0, |g|, loop, bbmap, sink, u, before, g[c], i);
        hide PatchedUpTo;
        if tgt in bbmap {
          var to;
          if tgt == loop[0] {
            to := if u + 1 < |bbmap[tgt]| then bbmap[tgt][u + 1] else sink;
          } else {
            to := if u < |bbmap[tgt]| then bbmap[tgt][u] else sink;
          }
          g := g[c := ReplaceTarget(g[c], tgt, to)];
        }
        i := i + 1;
      }
      assert before[..i] == before;
    }

    /** Patches all copies of one loop block. */
    method PatchCopies(b: nat, loop: seq<nat>, sink: nat, bbmap: map<nat, seq<nat>>, ghost g0: Graph)
      requires |loop| > 0 && sink !in loop && Named(|g0|, |g|, loop, bbmap) && (forall x :: x in loop ==> x < |g0|) && b in loop
      requires b < |g0| && forall u :: 0 <= u < |bbmap[b]| ==> bbmap[b][u] < |g| && g[bbmap[b][u]] == g0[b]
      modifies this
      ensures |g| == |old(g)|
      ensures forall x :: 0 <= x < |g| && x !in bbmap[b] ==> g[x] == old(g)[x]
      ensures forall u :: 0 <= u < |bbmap[b]| ==> PatchedList(bbmap, loop[0], sink, u, g0[b], g[bbmap[b][u]])
    {
      var unroll := 0;
      while unroll < |bbmap[b]|
        invariant unroll <= |bbmap[b]| && |g| == |old(g)|
        invariant forall x :: 0 <= x < |g| && x !in bbmap[b] ==> g[x] == old(g)[x]
        invariant forall u :: unroll <= u < |bbmap[b]| ==> g[bbmap[b][u]] == g0[b]
        invariant forall u :: 0 <= u < unroll ==> PatchedList(bbmap, loop[0], sink, u, g0[b], g[bbmap[b][u]])
      {
        hide PatchedList;
        PatchBlock(bbmap[b][unroll], unroll, loop, sink, bbmap, |g0|);
        unroll := unroll + 1;
      }
    }

    /** `k` copies of each loop block, and one more of the header of a loop with a body. */
    method CloneAll(loop: seq<nat>, k: nat) returns (bbmap: map<nat, seq<nat>>)
      requires |loop| > 0 && k >= 1 && (forall b :: b in loop ==> b < |g|)
      requires forall i, j :: 0 <= i < j < |loop| ==> loop[i] != loop[j]
      modifies this
      ensures Cloned(old(g), g, loop, bbmap)
      ensures forall b :: b in bbmap ==> |bbmap[b]| == Copies(loop, k, b)
    {
      ghost var g0 := g;
      bbmap := map b | b in loop :: [b];
      StartCloned(g0, loop, bbmap);
      hide Cloned;
      var unroll := 2;
      while unroll <= k
        invariant unroll == 2 || 2 < unroll <= k + 1
        invariant Cloned(g0, g, loop, bbmap) && forall b :: b in bbmap ==> |bbmap[b]| == unroll - 1
      {
        ClonedKeys(g0, g, loop, bbmap);
        bbmap := CloneRound(loop, bbmap, loop, g0);
        ClonedKeys(g0, g, loop, bbmap);
        unroll := unroll + 1;
      }
      if |loop| > 1 {
        ClonedKeys(g0, g, loop, bbmap);
        bbmap := CloneRound(loop, bbmap, [loop[0]], g0);
        ClonedKeys(g0, g, loop, bbmap);
      } else {
        ClonedKeys(g0, g, loop, bbmap);
      }
    }

    /** The cloning and jump patching of `Function::unroll` for one loop. */
    method UnrollLoop(loop: seq<nat>, k: nat, sink: nat) returns (bbmap: map<nat, seq<nat>>)
      requires LoopShape(g, loop, sink) && k >= 1
      modifies this
      ensures Unrolled(old(g), g, loop, k, sink, bbmap)
    {
      ghost var g0 := g;
      bbmap := CloneAll(loop, k);
      ghost var g1 := g;
      hide Cloned;
      var i := 0;
      while i < |loop|
        invariant i <= |loop| && PatchedBefore(g0, g1, g, loop, sink, bbmap, i)
      {
        hide PatchedBefore, Named, PatchedList;
        PatchReady(g0, g1, g, loop, sink, bbmap, i);
        ghost var g2 := g;
        PatchCopies(loop[i], loop, sink, bbmap, g0);
        PatchAdvance(g0, g1, g2, g, loop, sink, bbmap, i);
        i := i + 1;
      }
      PatchDone(g0, g1, g, loop, k, sink, bbmap);
    }
  }

  lemma ClonedKeys(g0: Graph, g: Graph, loop: seq<nat>, bbmap: map<nat, seq<nat>>)
    requires Cloned(g0, g, loop, bbmap)
    ensures forall b :: b in bbmap <==> b in loop
    ensures Named(|g0|, |g|, loop, bbmap)
  {
  }

  lemma StartCloned(g0: Graph, loop: seq<nat>, bbmap: map<nat, seq<nat>>)
    requires (forall b :: b in loop ==> b < |g0|) && bbmap == map b | b in loop :: [b]
    ensures Cloned(g0, g0, loop, bbmap)
  {
  }

  /** The copies of the first `i` loop blocks are patched, all else is as cloned. */
  ghost predicate PatchedBefore(g0: Graph, g1: Graph, g: Graph, loop: seq<nat>, sink: nat, bbmap: map<nat, seq<nat>>, i: nat)
    requires i <= |loop| && |loop| > 0
  {
    && Cloned(g0, g1, loop, bbmap) && |g| == |g1|
    && (forall j, u :: 0 <= j < i && 0 <= u < |bbmap[loop[j]]| ==> PatchedList(bbmap, loop[0], sink, u, g0[loop[j]], g[bbmap[loop[j]][u]]))
    && (forall x :: 0 <= x < |g| && (forall j :: 0 <= j < i ==> x !in bbmap[loop[j]]) ==> g[x] == g1[x])
  }

  lemma PatchReady(g0: Graph, g1: Graph, g: Graph, loop: seq<nat>, sink: nat, bbmap: map<nat, seq<nat>>, i: nat)
    requires LoopShape(g0, loop, sink) && i < |loop| && PatchedBefore(g0, g1, g, loop, sink, bbmap, i)
    ensures Named(|g0|, |g|, loop, bbmap) && loop[i] < |g0|
    ensures forall u :: 0 <= u < |bbmap[loop[i]]| ==> bbmap[loop[i]][u] < |g| && g[bbmap[loop[i]][u]] == g0[loop[i]]
  {
    forall u | 0 <= u < |bbmap[loop[i]]|
      ensures bbmap[loop[i]][u] < |g| && g[bbmap[loop[i]][u]] == g0[loop[i]]
    {
      forall j | 0 <= j < i
        ensures bbmap[loop[i]][u] !in bbmap[loop[j]]
      {
        assert loop[j] != loop[i];
      }
    }
  }

  lemma PatchAdvance(g0: Graph, g1: Graph, g2: Graph, g: Graph, loop: seq<nat>, sink: nat, bbmap: map<nat, seq<nat>>, i: nat)
    requires LoopShape(g0, loop, sink) && i < |loop| && PatchedBefore(g0, g1, g2, loop, sink, bbmap, i)
    requires |g| == |g2| && forall x :: 0 <= x < |g| && x !in bbmap[loop[i]] ==> g[x] == g2[x]
    requires forall u :: 0 <= u < |bbmap[loop[i]]| && bbmap[loop[i]][u] < |g| ==> PatchedList(bbmap, loop[0], sink, u, g0[loop[i]], g[bbmap[loop[i]][u]])
    ensures PatchedBefore(g0, g1, g, loop, sink, bbmap, i + 1)
  {
    forall j, u | 0 <= j < i + 1 && 0 <= u < |bbmap[loop[j]]|
      ensures PatchedList(bbmap, loop[0], sink, u, g0[loop[j]], g[bbmap[loop[j]][u]])
    {
      if j < i {
        assert loop[j] != loop[i] && bbmap[loop[j]][u] !in bbmap[loop[i]];
      }
    }
  }

  lemma PatchDone(g0: Graph, g1: Graph, g: Graph, loop: seq<nat>, k: nat, sink: nat, bbmap: map<nat, seq<nat>>)
    requires LoopShape(g0, loop, sink) && k >= 1 && PatchedBefore(g0, g1, g, loop, sink, bbmap, |loop|)
    requires forall b :: b in bbmap ==> |bbmap[b]| == Copies(loop, k, b)
    ensures Unrolled(g0, g, loop, k, sink, bbmap)
  {
    forall x | 0 <= x < |g0| && x !in loop
      ensures g[x] == g0[x]
    {
      forall j | 0 <= j < |loop|
        ensures x !in bbmap[loop[j]]
      {
        assert bbmap[loop[j]][0] == loop[j];
      }
      assert g1[..|g0|][x] == g0[x];
    }
    forall b, u | b in bbmap && 0 <= u < |bbmap[b]|
      ensures PatchedList(bbmap, loop[0], sink, u, g0[b], g[bbmap[b][u]])
    {
      var j :| 0 <= j < |loop| && loop[j] == b;
    }
  }

  /** Copies carry the jumps of the block they copy; nothing is patched yet. */
  ghost predicate Cloned(g0: Graph, g: Graph, loop: seq<nat>, bbmap: map<nat, seq<nat>>) {
    && |g0| <= |g| && g[..|g0|] == g0 && (forall b :: b in loop ==> b < |g0|)
    && Named(|g0|, |g|, loop, bbmap)
    && forall b, u :: b in bbmap && 0 <= u < |bbmap[b]| ==> g[bbmap[b][u]] == g0[b]
  }

  lemma NamedGrows(n0: nat, n1: nat, loop: seq<nat>, bbmap: map<nat, seq<nat>>, b: nat)
    requires Named(n0, n1, loop, bbmap) && b in loop && forall c :: c in loop ==> c < n0
    ensures Named(n0, n1 + 1, loop, bbmap[b := bbmap[b] + [n1]])
  {
    var bbmap' := bbmap[b := bbmap[b] + [n1]];
    forall c, u | c in bbmap' && 0 <= u < |bbmap'[c]|
      ensures if c == b && u == |bbmap[b]| then bbmap'[c][u] == n1 else u < |bbmap[c]| && bbmap'[c][u] == bbmap[c][u] < n1
    {
      assert u == 0 ==> bbmap'[c][u] == c;
    }
    forall x | n0 <= x < n1 + 1
      ensures IsCopy(bbmap', x)
    {
      if x == n1 {
        assert bbmap'[b][|bbmap[b]|] == x;
      } else {
        assert IsCopy(bbmap, x);
        var c, u :| c in bbmap && 0 <= u < |bbmap[c]| && bbmap[c][u] == x;
        assert bbmap'[c][u] == x;
      }
    }
  }

  lemma CloneKeeps(g0: Graph, g: Graph, loop: seq<nat>, bbmap: map<nat, seq<nat>>, b: nat)
    requires Cloned(g0, g, loop, bbmap) && b in loop
    ensures Cloned(g0, g + [g[b]], loop, bbmap[b := bbmap[b] + [|g|]])
  {
    NamedGrows(|g0|, |g|, loop, bbmap, b);
    assert g[b] == g0[b];
    var g', bbmap' := g + [g[b]], bbmap[b := bbmap[b] + [|g|]];
    forall c, u | c in bbmap' && 0 <= u < |bbmap'[c]|
      ensures g'[bbmap'[c][u]] == g0[c]
    {
      if !(c == b && u == |bbmap[b]|) {
        assert bbmap'[c][u] == bbmap[c][u];
        assert u == 0 ==> bbmap[c][u] == c;
      }
    }
  }
}
