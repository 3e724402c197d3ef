/** The dominator tree of `DomTree` (ir/function.cpp): predecessor lists, the
    iterated pointer update over BB order, `intersect` and `dominates`.

    A block's `order` in the source is `n - index`, so "smaller order" there is
    "larger index" here.  `NULL` stands for an unset `dominator` pointer. */
module Dominators {
  import opened Cfg

  const NULL := -1

  // ----- predecessor lists ---------------------------------------------------

  /** One entry `s` for each occurrence of `t` among the targets `ts`. */
  ghost function Occurrences(ts: seq<nat>, s: nat, t: nat): seq<nat> {
    if ts == [] then []
    else Occurrences(ts[..|ts| - 1], s, t) + if ts[|ts| - 1] == t then [s] else []
  }

  /** The predecessors of `t` among the first `n` blocks, in CFG edge order. */
  ghost function PredList(g: Graph, n: nat, t: nat): seq<nat>
    requires n <= |g|
  {
    if n == 0 then [] else PredList(g, n - 1, t) + Occurrences(g[n - 1], n - 1, t)
  }

  lemma {:induction false} OccurrencesMembers(ts: seq<nat>, s: nat, t: nat)
    ensures forall x :: x in Occurrences(ts, s, t) <==> x == s && t in ts
  {
    if ts != [] {
      OccurrencesMembers(ts[..|ts| - 1], s, t);
      assert ts == ts[..|ts| - 1] + [ts[|ts| - 1]];
    }
  }

  /** The list holds exactly the predecessors, and starts with the earliest one. */
  lemma {:induction false} PredListMembers(g: Graph, n: nat, t: nat)
    requires n <= |g|
    ensures forall p: nat :: p in PredList(g, n, t) <==> p < n && Edge(g, p, t)
    ensures PredList(g, n, t) != [] ==> Edge(g, PredList(g, n, t)[0], t)
    ensures PredList(g, n, t) != [] ==> forall p :: p in PredList(g, n, t) ==> PredList(g, n, t)[0] <= p
  {
    if n > 0 {
      PredListMembers(g, n - 1, t);
      OccurrencesMembers(g[n - 1], n - 1, t);
      var before, here := PredList(g, n - 1, t), Occurrences(g[n - 1], n - 1, t);
      if before == [] {
        assert before + here == here;
        assert here != [] ==> here[0] in here;
      } else {
        assert before[0] in before;
      }
    }
  }

  /** What the update relies on: nothing jumps to the entry, and every other block
      has a predecessor that comes earlier in BB order. */
  ghost predicate Ordered(g: Graph) {
    && Valid(g)
    && (forall p: nat :: p < |g| ==> !Edge(g, p, 0))
    && forall b: nat :: 0 < b < |g| ==> HasEarlierPred(g, b)
  }

  ghost predicate HasEarlierPred(g: Graph, b: nat) {
    exists p: nat :: p < b && Edge(g, p, b)
  }

  ghost function FirstPred(g: Graph, b: nat): (p: nat)
    requires Ordered(g) && 0 < b < |g|
    ensures PredList(g, |g|, b) != [] && p == PredList(g, |g|, b)[0]
    ensures p < b && Edge(g, p, b)
  {
    PredListMembers(g, |g|, b);
    assert HasEarlierPred(g, b);
    var p: nat :| p < b && Edge(g, p, b);
    assert p in PredList(g, |g|, b);
    var l := PredList(g, |g|, b);
    assert l[0] in l;
    l[0]
  }

  // ----- pointer trees -------------------------------------------------------

  /** The first `k` pointers are set and lead to earlier blocks; the rest are null. */
  ghost predicate Shape(dom: seq<int>, k: nat) {
    && 1 <= k <= |dom| && dom[0] == 0
    && (forall b {:trigger dom[b]} :: 0 < b < k ==> 0 <= dom[b] < b)
    && forall b {:trigger dom[b]} :: k <= b < |dom| ==> dom[b] == NULL
  }

  /** `a` is met when walking the pointers up from `b`. */
  ghost predicate Above(dom: seq<int>, k: nat, a: nat, b: nat)
    requires Shape(dom, k) && b < k
    decreases b
  {
    a == b || (b > 0 && Above(dom, k, a, dom[b]))
  }

  lemma {:induction false} AboveLe(dom: seq<int>, k: nat, a: nat, b: nat)
    requires Shape(dom, k) && b < k && Above(dom, k, a, b)
    ensures a <= b
    decreases b
  {
    if a != b {
      AboveLe(dom, k, a, dom[b]);
    }
  }

  lemma {:induction false} AboveTrans(dom: seq<int>, k: nat, a: nat, b: nat, c: nat)
    requires Shape(dom, k) && b < k && c < k && Above(dom, k, a, b) && Above(dom, k, b, c)
    ensures Above(dom, k, a, c)
    decreases c
  {
    if b != c {
      AboveTrans(dom, k, a, b, dom[c]);
    }
  }

  /** Setting pointer `b` leaves chains through `b` unchanged down to `b`, and from
      there on they follow the new pointer; other chains do not change. */
  lemma {:induction false} AboveUpdated(dom: seq<int>, k: nat, b: nat, m: nat, k': nat, e: nat, c: nat)
    requires Shape(dom, k) && 0 < b <= k && b < |dom| && m < b
    requires k' == if b == k then k + 1 else k
    requires c < k
    ensures Shape(dom[b := m], k')
    ensures e >= b || !Above(dom, k, b, c) ==> (Above(dom[b := m], k', e, c) <==> Above(dom, k, e, c))
    ensures e < b && Above(dom, k, b, c) ==> (Above(dom[b := m], k', e, c) <==> Above(dom, k, e, m))
    decreases c
  {
    var dom' := dom[b := m];
    if c == b {
      AboveUpdated(dom, k, b, m, k', e, m);
      if Above(dom, k, b, m) {
        AboveLe(dom, k, b, m);
      }
      if Above(dom, k, e, m) {
        AboveLe(dom, k, e, m);
      }
      if b < k && Above(dom, k, e, dom[b]) {
        AboveLe(dom, k, e, dom[b]);
      }
      if Above(dom', k', e, m) {
        AboveLe(dom', k', e, m);
      }
    } else if c > 0 {
      AboveUpdated(dom, k, b, m, k', e, dom[c]);
      if Above(dom, k, b, c) {
        AboveLe(dom, k, b, c);
      }
    }
  }

  // ----- the invariants of the iteration -------------------------------------

  /** Some path leads from `a` to `b` and visits only blocks after `a` in BB order. */
  ghost predicate Climbs(g: Graph, a: nat, b: nat) {
    exists p :: PathFromTo(g, p, a, b) && forall i :: 0 < i < |p| ==> p[i] > a
  }

  /** Every pointer is witnessed by a path that stays after its target. */
  ghost predicate Witnessed(g: Graph, dom: seq<int>, k: nat)
    requires Shape(dom, k)
  {
    forall c {:trigger dom[c]} :: 0 < c < k ==> Climbs(g, dom[c], c)
  }

  /** The chain of every block contains all its dominators. */
  ghost predicate Covers(g: Graph, dom: seq<int>, k: nat)
    requires Shape(dom, k)
  {
    forall d: nat, c: nat :: c < k && Dominates(g, d, c) ==> Above(dom, k, d, c)
  }

  /** `e` is above every predecessor of `c` whose pointer is set. */
  ghost predicate AboveAllPreds(g: Graph, dom: seq<int>, k: nat, e: nat, c: nat)
    requires Shape(dom, k)
  {
    forall p: nat :: p < k && Edge(g, p, c) ==> Above(dom, k, e, p)
  }

  /** Re-evaluating a block can only move its pointer up the current tree. */
  ghost predicate Descending(g: Graph, dom: seq<int>, k: nat)
    requires Shape(dom, k)
  {
    forall c: nat, e: nat :: 0 < c < k && AboveAllPreds(g, dom, k, e, c) ==> Above(dom, k, e, dom[c])
  }

  /** Before block `i` is visited, chain entries from `i` on are still shared with
      the first predecessor; blocks already visited share their whole chain. */
  ghost predicate Shared(g: Graph, dom: seq<int>, k: nat, i: nat)
    requires Shape(dom, k) && Ordered(g) && |dom| == |g|
  {
    && (forall c: nat, e: nat :: 0 < c < k && e >= i && Above(dom, k, e, dom[c]) ==> Above(dom, k, e, FirstPred(g, c)))
    && (forall c: nat :: 0 < c < i && c < k ==> Above(dom, k, dom[c], FirstPred(g, c)))
  }

  ghost predicate Inv(g: Graph, dom: seq<int>, k: nat, i: nat) {
    && Ordered(g) && |dom| == |g| && Shape(dom, k)
    && Witnessed(g, dom, k) && Covers(g, dom, k) && Descending(g, dom, k) && Shared(g, dom, k, i)
  }

  /** The pointer of `c` is the meet of the chains of all its predecessors. */
  ghost predicate Settled(g: Graph, dom: seq<int>, c: nat)
    requires Shape(dom, |dom|) && |dom| == |g| && 0 < c < |g|
  {
    forall e: nat :: Above(dom, |dom|, e, dom[c]) <==> AboveAllPreds(g, dom, |dom|, e, c)
  }

  lemma ClimbsCompose(g: Graph, a: nat, b: nat, c: nat)
    requires Climbs(g, a, b) && Climbs(g, b, c) && a <= b
    ensures Climbs(g, a, c)
  {
    var p :| PathFromTo(g, p, a, b) && forall i :: 0 < i < |p| ==> p[i] > a;
    var q :| PathFromTo(g, q, b, c) && forall i :: 0 < i < |q| ==> q[i] > b;
    JoinPaths(g, p, q, a, b, c);
    var r := p + q[1..];
    forall i | 0 < i < |r|
      ensures r[i] > a
    {
      if i >= |p| {
        assert r[i] == q[1..][i - |p|] == q[i - |p| + 1];
      }
    }
  }

  lemma {:induction false} AboveClimbs(g: Graph, dom: seq<int>, k: nat, a: nat, b: nat)
    requires Shape(dom, k) && |dom| == |g| && Witnessed(g, dom, k) && b < k && Above(dom, k, a, b)
    ensures Climbs(g, a, b)
    decreases b
  {
    if a == b {
      assert PathFromTo(g, [a], a, a);
    } else {
      AboveLe(dom, k, a, dom[b]);
      AboveClimbs(g, dom, k, a, dom[b]);
      ClimbsCompose(g, a, dom[b], b);
    }
  }

  /** A dominator of `c` that comes before `b` dominates `b` too when some path climbs from `b` to `c`. */
  lemma DominatesThroughClimb(g: Graph, d: nat, b: nat, c: nat)
    requires Climbs(g, b, c) && d < b && Dominates(g, d, c)
    ensures Dominates(g, d, b)
  {
    var q :| PathFromTo(g, q, b, c) && forall i :: 0 < i < |q| ==> q[i] > b;
    forall p | PathFromTo(g, p, 0, b)
      ensures d in p
    {
      JoinPaths(g, p, q, 0, b, c);
      assert d in p + q[1..];
      assert forall i :: 0 <= i < |q[1..]| ==> q[1..][i] == q[i + 1];
    }
  }

  // ----- one pointer update keeps the invariants ------------------------------

  /** `m` is the meet of the chains of the predecessors of `b` that are set. */
  ghost predicate IsMeet(g: Graph, dom: seq<int>, k: nat, b: nat, m: nat)
    requires Shape(dom, k)
  {
    m < k && forall e: nat :: Above(dom, k, e, m) <==> AboveAllPreds(g, dom, k, e, b)
  }

  lemma MeetBelowFirstPred(g: Graph, dom: seq<int>, k: nat, b: nat, m: nat)
    requires Ordered(g) && |dom| == |g| && Shape(dom, k) && 0 < b <= k && b < |g|
    requires IsMeet(g, dom, k, b, m)
    ensures Above(dom, k, m, FirstPred(g, b)) && m <= FirstPred(g, b) < b
  {
    assert AboveAllPreds(g, dom, k, m, b);
    assert Edge(g, FirstPred(g, b), b);
    AboveLe(dom, k, m, FirstPred(g, b));
  }

  lemma UpdateKeepsWitness(g: Graph, dom: seq<int>, k: nat, b: nat, m: nat, k': nat)
    requires Ordered(g) && |dom| == |g| && Shape(dom, k) && Witnessed(g, dom, k)
    requires 0 < b <= k && b < |g| && k' == if b == k then k + 1 else k
    requires IsMeet(g, dom, k, b, m)
    ensures m < b && Shape(dom[b := m], k') && Witnessed(g, dom[b := m], k')
  {
    MeetBelowFirstPred(g, dom, k, b, m);
    var f := FirstPred(g, b);
    AboveClimbs(g, dom, k, m, f);
    var p :| PathFromTo(g, p, m, f) && forall i :: 0 < i < |p| ==> p[i] > m;
    ExtendPath(g, p, m, f, b);
    assert forall i :: 0 < i < |p + [b]| ==> (p + [b])[i] > m;
    assert Climbs(g, m, b);
  }

  lemma UpdateKeepsCover(g: Graph, dom: seq<int>, k: nat, b: nat, m: nat, k': nat)
    requires Ordered(g) && |dom| == |g| && Shape(dom, k) && Witnessed(g, dom, k) && Covers(g, dom, k)
    requires 0 < b <= k && b < |g| && k' == if b == k then k + 1 else k
    requires IsMeet(g, dom, k, b, m) && m < b && Shape(dom[b := m], k')
    ensures Covers(g, dom[b := m], k')
  {
    var dom' := dom[b := m];
    forall d: nat | d != b && Dominates(g, d, b)
      ensures Above(dom, k, d, m)
    {
      forall p: nat | p < k && Edge(g, p, b)
        ensures Above(dom, k, d, p)
      {
        DominatesPred(g, d, p, b);
      }
      assert AboveAllPreds(g, dom, k, d, b);
    }
    forall d: nat, c: nat | c < k' && Dominates(g, d, c)
      ensures Above(dom', k', d, c)
    {
      if c == b {
        AboveUpdated(dom, k, b, m, k', d, m);
        if d != b && Above(dom, k, b, m) {
          AboveLe(dom, k, b, m);
        }
      } else {
        AboveUpdated(dom, k, b, m, k', d, c);
        if d < b && Above(dom, k, b, c) {
          AboveClimbs(g, dom, k, b, c);
          DominatesThroughClimb(g, d, b, c);
        }
      }
    }
  }

  /** The heart of termination: since `c` shares its chain from `b` on with its
      first predecessor, moving `b` up cannot strand `c` below a lost block. */
  lemma UpdateKeepsDescending(g: Graph, dom: seq<int>, k: nat, b: nat, m: nat, k': nat)
    requires Inv(g, dom, k, b)
    requires 0 < b <= k && b < |g| && k' == if b == k then k + 1 else k
    requires IsMeet(g, dom, k, b, m) && m < b && Shape(dom[b := m], k')
    ensures Descending(g, dom[b := m], k')
  {
    var dom' := dom[b := m];
    forall c: nat, e: nat | 0 < c < k' && AboveAllPreds(g, dom', k', e, c)
      ensures Above(dom', k', e, dom'[c])
    {
      if c == b {
        UpdatedPredsOfSelf(g, dom, k, b, m, k', e);
      } else {
        UpdatedPredsOfOther(g, dom, k, b, m, k', e, c);
      }
    }
  }

  lemma UpdatedPredsOfSelf(g: Graph, dom: seq<int>, k: nat, b: nat, m: nat, k': nat, e: nat)
    requires Inv(g, dom, k, b)
    requires 0 < b <= k && b < |g| && k' == if b == k then k + 1 else k
    requires IsMeet(g, dom, k, b, m) && m < b && Shape(dom[b := m], k')
    requires AboveAllPreds(g, dom[b := m], k', e, b)
    ensures Above(dom[b := m], k', e, m)
  {
    var dom' := dom[b := m];
    var f := FirstPred(g, b);
    assert Edge(g, f, b) && f < k';
    assert Above(dom', k', e, f);
    AboveLe(dom', k', e, f);
    if Above(dom, k, b, m) {
      AboveLe(dom, k, b, m);
    }
    AboveUpdated(dom, k, b, m, k', e, m);
    if p: nat :| p < k && Edge(g, p, b) && Above(dom, k, b, p) {
      // such a predecessor hangs below `b`, so its new chain runs through `m`
      AboveUpdated(dom, k, b, m, k', e, p);
    } else {
      forall p: nat | p < k && Edge(g, p, b)
        ensures Above(dom, k, e, p)
      {
        AboveUpdated(dom, k, b, m, k', e, p);
      }
      assert AboveAllPreds(g, dom, k, e, b);
    }
  }

  /** What is above the new pointer of `b` was above its old pointer. */
  lemma AboveMeetAboveOld(g: Graph, dom: seq<int>, k: nat, b: nat, m: nat, e: nat)
    requires |dom| == |g| && Shape(dom, k) && Descending(g, dom, k) && 0 < b < k
    requires IsMeet(g, dom, k, b, m) && Above(dom, k, e, m)
    ensures Above(dom, k, e, dom[b]) && Above(dom, k, e, b)
  {
    assert AboveAllPreds(g, dom, k, e, b);
  }

  lemma UpdatedPredsOfOther(g: Graph, dom: seq<int>, k: nat, b: nat, m: nat, k': nat, e: nat, c: nat)
    requires Inv(g, dom, k, b)
    requires 0 < b <= k && b < |g| && k' == if b == k then k + 1 else k
    requires IsMeet(g, dom, k, b, m) && m < b && Shape(dom[b := m], k')
    requires 0 < c < k && c != b && AboveAllPreds(g, dom[b := m], k', e, c)
    ensures Above(dom[b := m], k', e, dom[c])
  {
    var dom' := dom[b := m];
    forall p: nat | p < k && Edge(g, p, c)
      ensures Above(dom, k, e, p)
    {
      assert Above(dom', k', e, p);
      AboveUpdated(dom, k, b, m, k', e, p);
      if e < b && Above(dom, k, b, p) {
        if b < k {
          AboveMeetAboveOld(g, dom, k, b, m, e);
          AboveTrans(dom, k, e, b, p);
        } else {
          AboveLe(dom, k, b, p);
        }
      }
    }
    assert AboveAllPreds(g, dom, k, e, c);
    assert Above(dom, k, e, dom[c]);
    AboveUpdated(dom, k, b, m, k', e, dom[c]);
    if e < b && Above(dom, k, b, dom[c]) {
      // `b` is shared with the first predecessor of `c`, whose new chain contains `e`
      var f := FirstPred(g, c);
      assert Above(dom, k, b, f);
      assert Edge(g, f, c) && f < k';
      assert Above(dom', k', e, f);
      AboveUpdated(dom, k, b, m, k', e, f);
    }
  }

  lemma UpdateKeepsShared(g: Graph, dom: seq<int>, k: nat, b: nat, m: nat, k': nat)
    requires Inv(g, dom, k, b)
    requires 0 < b <= k && b < |g| && k' == if b == k then k + 1 else k
    requires IsMeet(g, dom, k, b, m) && m < b && Shape(dom[b := m], k')
    ensures Shared(g, dom[b := m], k', b + 1)
  {
    var dom' := dom[b := m];
    MeetBelowFirstPred(g, dom, k, b, m);
    forall c: nat, e: nat | 0 < c < k' && e >= b + 1 && Above(dom', k', e, dom'[c])
      ensures Above(dom', k', e, FirstPred(g, c))
    {
      if c == b {
        AboveLe(dom', k', e, m);
      } else {
        AboveUpdated(dom, k, b, m, k', e, dom[c]);
        AboveUpdated(dom, k, b, m, k', e, FirstPred(g, c));
      }
    }
    forall c: nat | 0 < c < b + 1 && c < k'
      ensures Above(dom', k', dom'[c], FirstPred(g, c))
    {
      var f := FirstPred(g, c);
      AboveUpdated(dom, k, b, m, k', dom'[c], f);
      if Above(dom, k, b, f) {
        AboveLe(dom, k, b, f);
      }
    }
  }

  /** Setting the pointer of `b` to the meet of its predecessors keeps the invariants
      and, once every pointer is set, moves it to a proper ancestor or leaves it. */
  lemma UpdateKeepsInv(g: Graph, dom: seq<int>, k: nat, b: nat, m: nat, k': nat)
    requires Inv(g, dom, k, b)
    requires 0 < b <= k && b < |g| && k' == if b == k then k + 1 else k
    requires IsMeet(g, dom, k, b, m)
    ensures m < b && Inv(g, dom[b := m], k', b + 1)
    ensures b < k ==> Above(dom, k, m, dom[b]) && m <= dom[b]
  {
    UpdateKeepsWitness(g, dom, k, b, m, k');
    UpdateKeepsCover(g, dom, k, b, m, k');
    UpdateKeepsDescending(g, dom, k, b, m, k');
    UpdateKeepsShared(g, dom, k, b, m, k');
    if b < k {
      AboveMeetAboveOld(g, dom, k, b, m, m);
      AboveLe(dom, k, m, dom[b]);
    }
  }

  /** A finished pass leaves the whole chains shared, so the next pass may start. */
  lemma NextPass(g: Graph, dom: seq<int>)
    requires Inv(g, dom, |dom|, |dom|)
    ensures Inv(g, dom, |dom|, 1)
  {
    var n := |dom|;
    forall c: nat, e: nat | 0 < c < n && e >= 1 && Above(dom, n, e, dom[c])
      ensures Above(dom, n, e, FirstPred(g, c))
    {
      AboveTrans(dom, n, e, dom[c], FirstPred(g, c));
    }
  }

  lemma InvAtStart(g: Graph, dom: seq<int>)
    requires Ordered(g) && |dom| == |g| && Shape(dom, 1)
    ensures Inv(g, dom, 1, 1)
  {
    forall d: nat, c: nat | c < 1 && Dominates(g, d, c)
      ensures Above(dom, 1, d, c)
    {
      assert PathFromTo(g, [0], 0, 0);
      assert d in [0];
    }
  }

  // ----- what a settled tree means -------------------------------------------

  lemma {:induction false} SettledAboveOnPath(g: Graph, dom: seq<int>, a: nat, b: nat, p: seq<nat>)
    requires Ordered(g) && |dom| == |g| && Shape(dom, |dom|)
    requires forall c :: 0 < c < |g| ==> Settled(g, dom, c)
    requires b < |g| && Above(dom, |dom|, a, b) && PathFromTo(g, p, 0, b)
    ensures a in p
    decreases |p|
  {
    if a != b {
      assert |p| > 1;
      var q := p[..|p| - 1];
      var i := |p| - 2;
      var v := p[i];
      assert Edge(g, v, p[i + 1]);
      assert Settled(g, dom, b);
      assert AboveAllPreds(g, dom, |dom|, a, b);
      assert forall i {:trigger q[i + 1]} :: 0 <= i < |q| - 1 ==> Edge(g, q[i], q[i + 1]) by {
        forall i {:trigger q[i + 1]} | 0 <= i < |q| - 1
          ensures Edge(g, q[i], q[i + 1])
        {
          assert Edge(g, p[i], p[i + 1]);
        }
      }
      assert PathFromTo(g, q, 0, v);
      SettledAboveOnPath(g, dom, a, v, q);
    }
  }

  /** In a settled tree, being above is exactly dominance. */
  lemma SettledIsDominance(g: Graph, dom: seq<int>, a: nat, b: nat)
    requires Inv(g, dom, |dom|, |dom|)
    requires forall c :: 0 < c < |g| ==> Settled(g, dom, c)
    requires b < |g|
    ensures Above(dom, |dom|, a, b) <==> Dominates(g, a, b)
  {
    if Above(dom, |dom|, a, b) {
      forall p | PathFromTo(g, p, 0, b)
        ensures a in p
      {
        SettledAboveOnPath(g, dom, a, b, p);
      }
    }
  }

  // ----- passes --------------------------------------------------------------

  ghost predicate AllSettled(g: Graph, dom: seq<int>)
    requires Shape(dom, |dom|) && |dom| == |g|
  {
    forall c :: 0 < c < |g| ==> Settled(g, dom, c)
  }

  /** Every edge leads to a later block: the graph is acyclic and topologically ordered. */
  ghost predicate Forward(g: Graph) {
    forall a: nat, b: nat :: Edge(g, a, b) ==> a < b
  }

  /** Among the first `i` blocks, every pointer is the meet of its predecessors. */
  ghost predicate SettledBefore(g: Graph, dom: seq<int>, k: nat, i: nat)
    requires Shape(dom, k)
  {
    forall c: nat :: 0 < c < i && c < k ==> IsMeet(g, dom, k, c, dom[c])
  }

  /** On a forward graph, the first update of a block leaves earlier blocks settled. */
  lemma ForwardStaysSettled(g: Graph, dom: seq<int>, b: nat, m: nat)
    requires Forward(g) && |dom| == |g| && Shape(dom, b) && 0 < b < |g| && m < b
    requires SettledBefore(g, dom, b, b) && IsMeet(g, dom, b, b, m)
    ensures Shape(dom[b := m], b + 1) && SettledBefore(g, dom[b := m], b + 1, b + 1)
  {
    var dom' := dom[b := m];
    assert Shape(dom', b + 1);
    forall c: nat, e: nat | c < b
      ensures Above(dom', b + 1, e, c) <==> Above(dom, b, e, c)
    {
      AboveUpdated(dom, b, b, m, b + 1, e, c);
      if Above(dom, b, b, c) {
        AboveLe(dom, b, b, c);
      }
    }
    forall c: nat | 0 < c < b + 1
      ensures IsMeet(g, dom', b + 1, c, dom'[c])
    {
      forall e: nat {:trigger Above(dom', b + 1, e, dom'[c])}
        ensures Above(dom', b + 1, e, dom'[c]) <==> AboveAllPreds(g, dom', b + 1, e, c)
      {
        assert Above(dom, b, e, dom'[c]) <==> AboveAllPreds(g, dom, b, e, c);
      }
    }
  }

  /** Two meets of the same block are the same block. */
  lemma MeetUnique(g: Graph, dom: seq<int>, k: nat, b: nat, m: nat, m': nat)
    requires Shape(dom, k) && IsMeet(g, dom, k, b, m) && IsMeet(g, dom, k, b, m')
    ensures m == m'
  {
    assert AboveAllPreds(g, dom, k, m, b) && AboveAllPreds(g, dom, k, m', b);
    AboveLe(dom, k, m, m');
    AboveLe(dom, k, m', m);
  }

  /** Termination measure: the sum of all pointers, a null one counting as `n`. */
  ghost function Rank(dom: seq<int>, n: nat): nat {
    if dom == [] then 0 else Weight(dom[0], n) + Rank(dom[1..], n)
  }

  ghost function Weight(d: int, n: nat): nat {
    if d < 0 then n else d
  }

  lemma {:induction false} RankUpdated(dom: seq<int>, n: nat, b: nat, m: nat)
    requires b < |dom| && m < Weight(dom[b], n)
    ensures Rank(dom[b := m], n) < Rank(dom, n)
  {
    var dom' := dom[b := m];
    if b > 0 {
      assert dom'[1..] == dom[1..][b - 1 := m];
      RankUpdated(dom[1..], n, b - 1, m);
    } else {
      assert dom'[1..] == dom[1..];
    }
  }

  /** Where a sweep over the blocks stands before block `b`: `dom0` are the pointers
      it started from, `k0` of them set. */
  ghost predicate Progress(g: Graph, dom0: seq<int>, dom: seq<int>, k0: nat, k: nat, b: nat, changed: bool) {
    && |dom0| == |dom| == |g| && Shape(dom, k)
    && (k0 == 1 || k0 == |g|)
    && k == (if k0 == |g| then |g| else if b == 0 then 1 else b)
    && (!changed ==> dom == dom0 && SettledBefore(g, dom, k, b))
    && (changed ==> Rank(dom, |g|) < Rank(dom0, |g|))
    && (b > 1 && k0 != |g| ==> changed)
    && (k0 == 1 && Forward(g) ==> SettledBefore(g, dom, k, b))
    && (k0 == |g| && Shape(dom0, |g|) && AllSettled(g, dom0) ==> !changed)
  }

  lemma ProgressStep(g: Graph, dom0: seq<int>, dom: seq<int>, dom': seq<int>, k0: nat, k: nat, b: nat, changed: bool)
    requires 0 < b <= k && b < |g| && Progress(g, dom0, dom, k0, k, b, changed)
    requires |dom'| == |g| && 0 <= dom'[b] < b && IsMeet(g, dom, k, b, dom'[b]) && dom' == dom[b := dom'[b]]
    requires dom' != dom ==> Rank(dom', |g|) < Rank(dom, |g|)
    ensures Progress(g, dom0, dom', k0, if b == k then k + 1 else k, b + 1, changed || dom' != dom)
  {
    if k0 != |g| {
      assert b == k;
      if Forward(g) {
        ForwardStaysSettled(g, dom, b, dom'[b]);
      }
    } else {
      assert Shape(dom', k);
      if Shape(dom0, |g|) && AllSettled(g, dom0) {
        assert Settled(g, dom, b);
        MeetUnique(g, dom, k, b, dom'[b], dom[b]);
      }
    }
  }

  lemma ProgressEntry(g: Graph, dom: seq<int>, k0: nat)
    requires |dom| == |g| && Shape(dom, k0) && (k0 == 1 || k0 == |g|)
    ensures Progress(g, dom, dom, k0, k0, 0, false) && Progress(g, dom, dom, k0, k0, 1, false)
  {
  }

  lemma ProgressEnd(g: Graph, dom0: seq<int>, dom: seq<int>, k0: nat, k: nat, changed: bool)
    requires |g| > 0 && Progress(g, dom0, dom, k0, k, |g|, changed)
    ensures k == |g|
    ensures !changed || (k0 == 1 && Forward(g)) ==> AllSettled(g, dom)
  {
  }

  // ----- the class -----------------------------------------------------------

  class DomTree {
    const g: Graph
    var preds: seq<seq<nat>>
    var dominator: seq<int>

    ghost predicate Ready()
      reads this
    {
      && Ordered(g) && |preds| == |g| && |dominator| == |g|
      && forall b :: 0 <= b < |g| ==> preds[b] == PredList(g, |g|, b)
    }

    /** The tree is final: `buildDominators` has returned. */
    ghost predicate Built()
      reads this
    {
      Ready() && Inv(g, dominator, |g|, |g|) && AllSettled(g, dominator)
    }

    constructor (g: Graph)
      requires Ordered(g)
      ensures this.g == g && Built()
    {
      this.g := g;
      preds := seq(|g|, _ => []);
      dominator := seq(|g|, i => if i == 0 then 0 else NULL);
      new;
      BuildPreds();
      ghost var passes := BuildDominators();
    }

    /** Pushes the source of every CFG edge onto the list of its target. */
    method BuildPreds()
      requires Valid(g) && |preds| == |g| && forall b :: 0 <= b < |g| ==> preds[b] == []
      modifies this`preds
      ensures |preds| == |g| && forall b :: 0 <= b < |g| ==> preds[b] == PredList(g, |g|, b)
    {
      var src := 0;
      while src < |g|
        invariant 0 <= src <= |g| == |preds|
        invariant forall b :: 0 <= b < |g| ==> preds[b] == PredList(g, src, b)
      {
        var i := 0;
        assert g[src][..0] == [];
        while i < |g[src]|
          invariant 0 <= i <= |g[src]| && |preds| == |g|
          invariant forall b :: 0 <= b < |g| ==> preds[b] == PredList(g, src, b) + Occurrences(g[src][..i], src, b)
        {
          var tgt := g[src][i];
          assert g[src][..i + 1][..i] == g[src][..i];
          assert tgt in g[src];
          preds := preds[tgt := preds[tgt] + [src]];
          i := i + 1;
        }
        assert g[src][..i] == g[src];
        src := src + 1;
      }
    }

    /** Walks both chains up until they meet. */
    method Intersect(x: nat, y: nat, ghost k: nat) returns (r: nat)
      requires Shape(dominator, k) && x < k && y < k
      ensures r < k
      ensures forall e: nat :: Above(dominator, k, e, r) <==> Above(dominator, k, e, x) && Above(dominator, k, e, y)
    {
      var f1: nat, f2: nat := x, y;
      while f1 != f2
        invariant f1 < k && f2 < k
        invariant forall e: nat :: Above(dominator, k, e, f1) && Above(dominator, k, e, f2)
                              <==> Above(dominator, k, e, x) && Above(dominator, k, e, y)
        decreases f1 + f2
      {
        while f1 > f2
          invariant f1 < k
          invariant forall e: nat :: Above(dominator, k, e, f1) && Above(dominator, k, e, f2)
                                <==> Above(dominator, k, e, x) && Above(dominator, k, e, y)
          decreases f1
        {
          StepUp(dominator, k, f1, f2);
          f1 := dominator[f1];
        }
        while f2 > f1
          invariant f2 < k
          invariant forall e: nat :: Above(dominator, k, e, f1) && Above(dominator, k, e, f2)
                                <==> Above(dominator, k, e, x) && Above(dominator, k, e, y)
          decreases f2
        {
          StepUp(dominator, k, f2, f1);
          f2 := dominator[f2];
        }
      }
      r := f1;
    }

    /** The meet of the chains of the predecessors of `b` whose pointer is set. */
    method Meet(b: nat, ghost k: nat) returns (m: nat)
      requires Ready() && Shape(dominator, k) && 0 < b <= k && b < |g|
      ensures IsMeet(g, dominator, k, b, m)
    {
      PredListMembers(g, |g|, b);
      ghost var f := FirstPred(g, b);
      m := preds[b][0];
      var i := 0;
      while i < |preds[b]|
        invariant 0 <= i <= |preds[b]| && m < k
        invariant forall e: nat :: Above(dominator, k, e, m) <==>
          Above(dominator, k, e, f) && forall j :: 0 <= j < i && preds[b][j] < k ==> Above(dominator, k, e, preds[b][j])
      {
        var p := preds[b][i];
        assert p in preds[b];
        if dominator[p] != NULL {
          m := Intersect(p, m, k);
        }
        i := i + 1;
      }
      forall e: nat
        ensures Above(dominator, k, e, m) <==> AboveAllPreds(g, dominator, k, e, b)
      {
        if Above(dominator, k, e, m) {
          forall p: nat | p < k && Edge(g, p, b)
            ensures Above(dominator, k, e, p)
          {
            var j :| 0 <= j < |preds[b]| && preds[b][j] == p;
          }
        }
        assert forall j :: 0 <= j < |preds[b]| ==> preds[b][j] in preds[b];
      }
    }

    /** The loop body of a sweep: re-evaluates the pointer of one block. */
    method Visit(b: nat, ghost k: nat) returns (changed: bool)
      requires Ready() && 0 < b <= k && b < |g| && Inv(g, dominator, k, b)
      modifies this`dominator
      ensures Ready() && Inv(g, dominator, if b == k then k + 1 else k, b + 1)
      ensures 0 <= dominator[b] < b && IsMeet(g, old(dominator), k, b, dominator[b])
      ensures dominator == old(dominator)[b := dominator[b]]
      ensures changed <==> dominator != old(dominator)
      ensures changed ==> Rank(dominator, |g|) < Rank(old(dominator), |g|)
    {
      hide Witnessed, Covers, Descending, Shared, IsMeet;
      var newIdom := Meet(b, k);
      UpdateKeepsInv(g, dominator, k, b, newIdom, if b == k then k + 1 else k);
      changed := false;
      if dominator[b] != newIdom {
        RankUpdated(dominator, |g|, b, newIdom);
        dominator := dominator[b := newIdom];
        changed := true;
      } else {
        assert dominator[b := newIdom] == dominator;
      }
    }

    /** One sweep over the blocks in BB order. */
    method Pass(ghost k0: nat) returns (changed: bool)
      requires Ready() && Inv(g, dominator, k0, 1) && (k0 == 1 || k0 == |g|)
      modifies this`dominator
      ensures Ready() && Inv(g, dominator, |g|, |g|)
      ensures changed ==> Rank(dominator, |g|) < Rank(old(dominator), |g|)
      ensures !changed ==> dominator == old(dominator) && AllSettled(g, dominator)
      ensures k0 == 1 && Forward(g) ==> AllSettled(g, dominator)
      ensures k0 == |g| && AllSettled(g, old(dominator)) ==> !changed
    {
      hide Witnessed, Covers, Descending, Shared, IsMeet;
      changed := false;
      var b := 0;
      ghost var k := k0;
      while b < |g|
        invariant b <= |g| && Ready()
        invariant Inv(g, dominator, k, if b == 0 then 1 else b)
        invariant Progress(g, old(dominator), dominator, k0, k, b, changed)
      {
        EmptyPreds(g, b);
        if |preds[b]| != 0 {
          ghost var before := dominator;
          var c := Visit(b, k);
          ProgressStep(g, old(dominator), before, dominator, k0, k, b, changed);
          changed := changed || c;
          k := if b == k then k + 1 else k;
        } else {
          ProgressEntry(g, old(dominator), k0);
        }
        b := b + 1;
      }
      ProgressEnd(g, old(dominator), dominator, k0, k, changed);
    }

    /** Sweeps until nothing changes.  Terminates on every ordered CFG, cyclic or not. */
    method BuildDominators() returns (ghost passes: nat)
      requires Ready() && Shape(dominator, 1)
      modifies this`dominator
      ensures Built()
      ensures Forward(g) ==> passes <= 2
    {
      InvAtStart(g, dominator);
      passes := 1;
      var changed := Pass(1);
      while changed
        invariant Ready() && Inv(g, dominator, |g|, |g|)
        invariant !changed ==> AllSettled(g, dominator)
        invariant Forward(g) ==> AllSettled(g, dominator) && passes <= if changed then 1 else 2
        decreases Rank(dominator, |g|), changed
      {
        NextPass(g, dominator);
        changed := Pass(|g|);
        passes := passes + 1;
      }
    }

    /** Walks up from `b` until `a` or the entry is met. */
    method WalkUp(a: nat, b: nat) returns (r: bool)
      requires |dominator| == |g| && Shape(dominator, |g|) && a < |g| && b < |g|
      ensures r <==> Above(dominator, |g|, a, b)
    {
      var x := b;
      while true
        invariant 0 <= x < |g|
        invariant Above(dominator, |g|, a, x) <==> Above(dominator, |g|, a, b)
        decreases x
      {
        if x == a {
          return true;
        }
        if x == dominator[x] {
          return false;
        }
        x := dominator[x];
      }
    }

    /** `DomTree::dominates`: exactly the graph-theoretic dominance. */
    method IsDominator(a: nat, b: nat) returns (r: bool)
      requires Built() && a < |g| && b < |g|
      ensures r <==> Dominates(g, a, b)
    {
      SettledIsDominance(g, dominator, a, b);
      r := WalkUp(a, b);
    }
  }

  lemma EmptyPreds(g: Graph, b: nat)
    requires Ordered(g) && b < |g|
    ensures PredList(g, |g|, b) == [] <==> b == 0
  {
    PredListMembers(g, |g|, b);
    if b > 0 {
      assert FirstPred(g, b) in PredList(g, |g|, b);
    }
  }

  /** Dropping the lower of two blocks to its pointer loses no common chain member. */
  lemma StepUp(dom: seq<int>, k: nat, x: nat, y: nat)
    requires Shape(dom, k) && y < x < k
    ensures forall e: nat :: Above(dom, k, e, x) && Above(dom, k, e, y)
                        <==> Above(dom, k, e, dom[x]) && Above(dom, k, e, y)
  {
    if Above(dom, k, x, y) {
      AboveLe(dom, k, x, y);
    }
  }
}
