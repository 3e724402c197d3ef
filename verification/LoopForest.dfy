/** From the loop analysis to the unrolled function (ir/function.cpp): the loop forest is
    traversed in post-order, each loop is unrolled, and what is left are the blocks that
    jump to themselves inside another loop. */
module LoopForest {
  import opened Cfg
  import opened SpanningTree
  import opened LoopNesting
  import F = UnrollForest
  import U = Unroll

  // ----- loops nest ----------------------------------------------------------

  lemma {:induction false} InLoopTrans(header: seq<nat>, a: nat, b: nat, c: nat)
    requires HeadersOk(header) && b < |header| && c < |header| && InLoop(header, a, b) && InLoop(header, b, c)
    ensures InLoop(header, a, c)
    decreases c
  {
    if b != c {
      InLoopTrans(header, a, b, header[c]);
    }
  }

  /** Of two loops with a common node, one is inside the other. */
  lemma {:induction false} InLoopLinear(header: seq<nat>, a: nat, b: nat, c: nat)
    requires HeadersOk(header) && b < |header| && c < |header| && a <= b && InLoop(header, a, c) && InLoop(header, b, c)
    ensures InLoop(header, a, b)
    decreases c
  {
    if b != c {
      InLoopLe(header, b, header[c]);
      InLoopLinear(header, a, b, header[c]);
    }
  }

  ghost predicate IsChild(header: seq<nat>, h: nat, c: nat) {
    c < |header| && header[c] == h && h != 0
  }

  lemma {:induction false} ChildOnWay(header: seq<nat>, h: nat, x: nat) returns (c: nat)
    requires HeadersOk(header) && x < |header| && InLoop(header, h, x) && h != x
    ensures IsChild(header, h, c) && InLoop(header, c, x) && h < c
    decreases x
  {
    if header[x] == h {
      c := x;
    } else {
      c := ChildOnWay(header, h, header[x]);
    }
  }

  lemma ChildInLoop(header: seq<nat>, h: nat, c: nat, x: nat)
    requires HeadersOk(header) && x < |header| && IsChild(header, h, c) && InLoop(header, c, x)
    ensures h < c && InLoop(header, h, x) && h != x
  {
    InLoopLe(header, c, x);
    assert InLoop(header, h, c);
    InLoopTrans(header, h, c, x);
  }

  /** Two nodes with the same header have no node in common. */
  lemma SiblingsApart(header: seq<nat>, c: nat, d: nat, x: nat)
    requires HeadersOk(header) && c < |header| && d < |header| && x < |header| && header[c] == header[d]
    requires InLoop(header, c, x) && InLoop(header, d, x)
    ensures c == d
  {
    var a, b := if c < d then c else d, if c < d then d else c;
    InLoopLinear(header, a, b, x);
    if a != b {
      InLoopLe(header, a, header[b]);
    }
  }

  lemma {:induction false} ChildrenAre(header: seq<nat>, h: nat, n: nat, c: nat)
    requires n <= |header|
    ensures c in ChildrenUpTo(header, h, n) <==> c < n && IsChild(header, h, c)
    decreases n
  {
    if n > 0 {
      ChildrenAre(header, h, n - 1, c);
    }
  }

  lemma {:induction false} ChildrenDistinct(header: seq<nat>, h: nat, n: nat)
    requires n <= |header|
    ensures forall i, j :: 0 <= i < j < |ChildrenUpTo(header, h, n)| ==> ChildrenUpTo(header, h, n)[i] != ChildrenUpTo(header, h, n)[j]
    decreases n
  {
    if n > 0 {
      ChildrenDistinct(header, h, n - 1);
      ChildrenAre(header, h, n - 1, n - 1);
      var s := ChildrenUpTo(header, h, n - 1);
      assert forall i :: 0 <= i < |s| ==> s[i] in s;
    }
  }

  lemma {:induction false} RootsAre(header: seq<nat>, kind: seq<NodeType>, n: nat, r: nat)
    requires n <= |header| == |kind|
    ensures r in RootsUpTo(header, kind, n) <==> r < n && IsRoot(header, kind, r)
    decreases n
  {
    if n > 0 {
      RootsAre(header, kind, n - 1, r);
    }
  }

  lemma {:induction false} RootsDistinct(header: seq<nat>, kind: seq<NodeType>, n: nat)
    requires n <= |header| == |kind|
    ensures forall i, j :: 0 <= i < j < |RootsUpTo(header, kind, n)| ==> RootsUpTo(header, kind, n)[i] != RootsUpTo(header, kind, n)[j]
    decreases n
  {
    if n > 0 {
      RootsDistinct(header, kind, n - 1);
      RootsAre(header, kind, n - 1, n - 1);
      var s := RootsUpTo(header, kind, n - 1);
      assert forall i :: 0 <= i < |s| ==> s[i] in s;
    }
  }

  // ----- the traversal -------------------------------------------------------

  ghost predicate Between(cs: seq<nat>, lo: int, n: nat) {
    forall i :: 0 <= i < |cs| ==> lo < cs[i] < n
  }

  /** Children have greater numbers. */
  ghost predicate Rising(forest: map<nat, seq<nat>>, n: nat) {
    forall h :: h in forest ==> Between(forest[h], h, n)
  }

  /** The headers of the tree of `h`, children before parents. */
  ghost function Post(forest: map<nat, seq<nat>>, n: nat, h: nat): seq<nat>
    requires Rising(forest, n) && h < n
    decreases n - h, 1, 0
  {
    (if h in forest then PostAll(forest, n, h, forest[h]) else []) + [h]
  }

  /** ... of the trees of all headers in `cs`, the last first. */
  ghost function PostAll(forest: map<nat, seq<nat>>, n: nat, lo: int, cs: seq<nat>): seq<nat>
    requires Rising(forest, n) && -1 <= lo < n && Between(cs, lo, n)
    decreases n - lo, 0, |cs|
  {
    if cs == [] then [] else
      var c := cs[|cs| - 1];
      (if c in forest then Post(forest, n, c) else []) + PostAll(forest, n, lo, cs[..|cs| - 1])
  }

  function Reversed(s: seq<nat>): seq<nat> {
    if s == [] then [] else Reversed(s[1..]) + [s[0]]
  }

  lemma {:induction false} ReversedHas(s: seq<nat>, x: nat)
    ensures x in Reversed(s) <==> x in s
  {
    if s != [] {
      ReversedHas(s[1..], x);
      assert s == [s[0]] + s[1..];
    }
  }

  lemma ReversedBetween(s: seq<nat>, n: nat)
    requires forall x :: x in s ==> x < n
    ensures Between(Reversed(s), -1, n)
  {
    var r := Reversed(s);
    forall i | 0 <= i < |r|
      ensures -1 < r[i] < n
    {
      ReversedHas(s, r[i]);
    }
  }

  /** What is still to come: the headers of an entry that has been expanded are its own. */
  ghost function Rest(forest: map<nat, seq<nat>>, n: nat, work: seq<(nat, bool)>): seq<nat>
    requires Rising(forest, n) && InRange(work, n)
  {
    if work == [] then [] else
      var e := work[|work| - 1];
      (if e.1 then [e.0] else Post(forest, n, e.0)) + Rest(forest, n, work[..|work| - 1])
  }

  ghost predicate InRange(work: seq<(nat, bool)>, n: nat) {
    forall i :: 0 <= i < |work| ==> work[i].0 < n
  }

  ghost function Weight(forest: map<nat, seq<nat>>, n: nat, work: seq<(nat, bool)>): nat
    requires Rising(forest, n) && InRange(work, n)
  {
    if work == [] then 0 else
      var e := work[|work| - 1];
      (if e.1 then 1 else 2 * |Post(forest, n, e.0)|) + Weight(forest, n, work[..|work| - 1])
  }

  lemma RestPush(forest: map<nat, seq<nat>>, n: nat, work: seq<(nat, bool)>, e: (nat, bool))
    requires Rising(forest, n) && InRange(work, n) && e.0 < n
    ensures InRange(work + [e], n)
    ensures Rest(forest, n, work + [e]) == (if e.1 then [e.0] else Post(forest, n, e.0)) + Rest(forest, n, work)
    ensures Weight(forest, n, work + [e]) == (if e.1 then 1 else 2 * |Post(forest, n, e.0)|) + Weight(forest, n, work)
  {
    assert (work + [e])[..|work|] == work;
  }

  lemma PostAllPush(forest: map<nat, seq<nat>>, n: nat, lo: int, cs: seq<nat>, c: nat)
    requires Rising(forest, n) && -1 <= lo < n && Between(cs, lo, n) && lo < c < n
    ensures Between(cs + [c], lo, n)
    ensures PostAll(forest, n, lo, cs + [c]) == (if c in forest then Post(forest, n, c) else []) + PostAll(forest, n, lo, cs)
  {
    assert (cs + [c])[..|cs|] == cs;
  }

  /** Pushes the children that are headers themselves. */
  method PushKids(forest: map<nat, seq<nat>>, ghost n: nat, header: nat, work0: seq<(nat, bool)>) returns (work: seq<(nat, bool)>)
    requires Rising(forest, n) && InRange(work0, n) && header in forest && header < n
    ensures InRange(work, n) && Rest(forest, n, work) == PostAll(forest, n, header, forest[header]) + Rest(forest, n, work0)
    ensures Weight(forest, n, work) == 2 * |PostAll(forest, n, header, forest[header])| + Weight(forest, n, work0)
  {
    hide Rest, Weight, PostAll, Post;
    work := work0;
    var kids := forest[header];
    var j: nat := 0;
    PostAllNothing(forest, n, header);
    while j < |kids|
      invariant j <= |kids| && InRange(work, n) && Between(kids[..j], header, n)
      invariant Rest(forest, n, work) == PostAll(forest, n, header, kids[..j]) + Rest(forest, n, work0)
      invariant Weight(forest, n, work) == 2 * |PostAll(forest, n, header, kids[..j])| + Weight(forest, n, work0)
    {
      assert kids[..j + 1] == kids[..j] + [kids[j]] && Between(kids, header, n);
      PostAllPush(forest, n, header, kids[..j], kids[j]);
      if kids[j] in forest {
        RestPush(forest, n, work, (kids[j], false));
        work := work + [(kids[j], false)];
      }
      j := j + 1;
    }
    assert kids[..j] == kids;
  }

  lemma PostAllNothing(forest: map<nat, seq<nat>>, n: nat, lo: int)
    requires Rising(forest, n) && -1 <= lo < n
    ensures PostAll(forest, n, lo, []) == []
  {
  }

  /** The order in which the worklist of `Function::unroll` gets to the loops. */
  method PostOrder(roots: seq<nat>, forest: map<nat, seq<nat>>, ghost n: nat) returns (order: seq<nat>)
    requires Rising(forest, n) && (forall r :: r in roots ==> r in forest && r < n) && n > 0
    ensures Between(Reversed(roots), -1, n) && order == PostAll(forest, n, -1, Reversed(roots))
  {
    ReversedBetween(roots, n);
    var work := StartWork(roots, forest, n);
    ghost var all := PostAll(forest, n, -1, Reversed(roots));
    order := [];
    assert order + Rest(forest, n, work) == all;
    hide *;
    while work != []
      invariant InRange(work, n) && order + Rest(forest, n, work) == all
      decreases Weight(forest, n, work)
    {
      var top := |work| - 1;
      var (header, expanded) := work[top];
      var below := work[..top];
      PopWork(forest, n, work, order, all);
      if !expanded && header in forest {
        work := PushKids(forest, n, header, below + [(header, true)]);
      } else {
        work, order := below, order + [header];
      }
    }
    NoWork(forest, n, order);
  }

  lemma NoWork(forest: map<nat, seq<nat>>, n: nat, order: seq<nat>)
    requires Rising(forest, n) && InRange([], n)
    ensures order + Rest(forest, n, []) == order
  {
  }

  lemma PopWork(forest: map<nat, seq<nat>>, n: nat, work: seq<(nat, bool)>, order: seq<nat>, all: seq<nat>)
    requires Rising(forest, n) && InRange(work, n) && work != [] && order + Rest(forest, n, work) == all
    ensures var top := |work| - 1; var (header, expanded) := work[top]; var below := work[..top];
      && header < n && InRange(below, n)
      && if !expanded && header in forest then
           && Between(forest[header], header, n) && InRange(below + [(header, true)], n)
           && order + (PostAll(forest, n, header, forest[header]) + Rest(forest, n, below + [(header, true)])) == all
           && 2 * |PostAll(forest, n, header, forest[header])| + Weight(forest, n, below + [(header, true)]) < Weight(forest, n, work)
         else order + [header] + Rest(forest, n, below) == all && Weight(forest, n, below) < Weight(forest, n, work)
  {
    hide Rest, Weight, PostAll, Post;
    var top := |work| - 1;
    var (header, expanded) := work[top];
    var below := work[..top];
    assert work == below + [(header, expanded)] && InRange(below, n);
    RestPush(forest, n, below, (header, expanded));
    RestPush(forest, n, below, (header, true));
    PostIs(forest, n, header);
    hide *;
    if !expanded && header in forest {
      var kids, rest := PostAll(forest, n, header, forest[header]), Rest(forest, n, below);
      assert order + (kids + ([header] + rest)) == order + ((kids + [header]) + rest);
    } else {
      assert order + [header] + Rest(forest, n, below) == order + ([header] + Rest(forest, n, below));
    }
  }

  lemma PostIs(forest: map<nat, seq<nat>>, n: nat, h: nat)
    requires Rising(forest, n) && h < n
    ensures Post(forest, n, h) == (if h in forest then PostAll(forest, n, h, forest[h]) else []) + [h]
  {
  }

  /** The roots, the first on top. */
  method StartWork(roots: seq<nat>, forest: map<nat, seq<nat>>, ghost n: nat) returns (work: seq<(nat, bool)>)
    requires Rising(forest, n) && (forall r :: r in roots ==> r in forest && r < n) && n > 0
    requires Between(Reversed(roots), -1, n)
    ensures InRange(work, n) && Rest(forest, n, work) == PostAll(forest, n, -1, Reversed(roots))
  {
    work := [];
    var i: nat := |roots|;
    while i > 0
      invariant i <= |roots| && InRange(work, n) && Between(Reversed(roots[i..]), -1, n)
      invariant Rest(forest, n, work) == PostAll(forest, n, -1, Reversed(roots[i..]))
    {
      hide Rest, PostAll, Post;
      assert roots[i - 1..] == [roots[i - 1]] + roots[i..] && roots[i - 1] in roots;
      RestPush(forest, n, work, (roots[i - 1], false));
      PostAllPush(forest, n, -1, Reversed(roots[i..]), roots[i - 1]);
      i := i - 1;
      work := work + [(roots[i], false)];
    }
    assert roots[i..] == roots;
  }

  // ----- what the traversal gets to --------------------------------------------

  /** The forest holds the children of every node that has any, and leaves out others. */
  ghost predicate Nested(header: seq<nat>, forest: map<nat, seq<nat>>) {
    && HeadersOk(header) && Rising(forest, |header|)
    && (forall h :: h in forest ==> h < |header| && forest[h] == ChildrenUpTo(header, h, |header|))
    && forall h: nat, c: nat :: IsChild(header, h, c) ==> h in forest
  }

  lemma ForestIsNested(header: seq<nat>, kind: seq<NodeType>, roots: seq<nat>, forest: map<nat, seq<nat>>)
    requires HeadersOk(header) && |header| == |kind| && ForestUpTo(header, kind, |header|, roots, forest)
    ensures Nested(header, forest)
  {
    var n := |header|;
    hide ChildrenUpTo, RootsUpTo;
    forall h: nat, c: nat | IsChild(header, h, c)
      ensures h in forest
    {
      ChildrenAre(header, h, n, c);
    }
    forall h | h in forest
      ensures h < n && Between(forest[h], h, n)
    {
      forall i | 0 <= i < |forest[h]|
        ensures h < forest[h][i] < n
      {
        ChildrenAre(header, h, n, forest[h][i]);
      }
      if ChildrenUpTo(header, h, n) != [] {
        ChildrenAre(header, h, n, ChildrenUpTo(header, h, n)[0]);
      }
    }
  }

  /** Some header in `cs` has `x` in its loop. */
  ghost predicate InSome(header: seq<nat>, cs: seq<nat>, x: nat)
    requires HeadersOk(header) && x < |header|
  {
    exists c :: c in cs && InLoop(header, c, x)
  }

  lemma NothingBelowLeaf(header: seq<nat>, forest: map<nat, seq<nat>>, c: nat, x: nat)
    requires Nested(header, forest) && c !in forest && x < |header| && InLoop(header, c, x)
    ensures x == c
  {
    if x != c {
      var d := ChildOnWay(header, c, x);
    }
  }

  /** The headers that the traversal of one tree gets to: those inside the loop. */
  lemma {:induction false} PostHas(header: seq<nat>, forest: map<nat, seq<nat>>, h: nat, x: nat)
    requires Nested(header, forest) && h in forest && x < |header|
    ensures x in Post(forest, |header|, h) <==> x in forest && InLoop(header, h, x)
    decreases |header| - h, 1, 0
  {
    var n, cs := |header|, forest[h];
    PostAllHas(header, forest, h, cs, x);
    hide PostAll, InLoop;
    ChildrenHave(header, forest, h, x);
  }

  lemma ChildrenHave(header: seq<nat>, forest: map<nat, seq<nat>>, h: nat, x: nat)
    requires Nested(header, forest) && h in forest && x < |header|
    ensures InLoop(header, h, x) <==> x == h || InSome(header, forest[h], x)
    ensures !InSome(header, forest[h], h)
  {
    var n, cs := |header|, forest[h];
    hide ChildrenUpTo;
    if InLoop(header, h, x) && x != h {
      var c := ChildOnWay(header, h, x);
      ChildrenAre(header, h, n, c);
    }
    forall c, y: nat | c in cs && y < n && InLoop(header, c, y)
      ensures InLoop(header, h, y) && y != h
    {
      ChildrenAre(header, h, n, c);
      ChildInLoop(header, h, c, y);
    }
  }

  lemma {:induction false} PostAllHas(header: seq<nat>, forest: map<nat, seq<nat>>, lo: int, cs: seq<nat>, x: nat)
    requires Nested(header, forest) && -1 <= lo < |header| && Between(cs, lo, |header|) && x < |header|
    ensures x in PostAll(forest, |header|, lo, cs) <==> x in forest && InSome(header, cs, x)
    decreases |header| - lo, 0, |cs|
  {
    if cs != [] {
      var rest, c := cs[..|cs| - 1], cs[|cs| - 1];
      assert cs == rest + [c];
      PostAllHas(header, forest, lo, rest, x);
      if c in forest {
        PostHas(header, forest, c, x);
      } else if x in forest && InLoop(header, c, x) {
        NothingBelowLeaf(header, forest, c, x);
      }
      hide Post, InLoop, Nested;
      assert InSome(header, cs, x) <==> InSome(header, rest, x) || InLoop(header, c, x);
    }
  }

  /** Inner loops come first. */
  ghost predicate BottomUp(header: seq<nat>, order: seq<nat>)
    requires HeadersOk(header)
  {
    && (forall i :: 0 <= i < |order| ==> order[i] < |header|)
    && forall i, j :: 0 <= i < j < |order| ==> !InLoop(header, order[i], order[j])
  }

  /** No loop of the first list has a header of the second inside. */
  ghost predicate NoneAbove(header: seq<nat>, a: seq<nat>, b: seq<nat>)
    requires HeadersOk(header)
  {
    forall i, j :: 0 <= i < |a| && 0 <= j < |b| ==> b[j] < |header| && !InLoop(header, a[i], b[j])
  }

  lemma BottomUpJoins(header: seq<nat>, a: seq<nat>, b: seq<nat>)
    requires HeadersOk(header) && BottomUp(header, a) && BottomUp(header, b) && NoneAbove(header, a, b)
    ensures BottomUp(header, a + b)
  {
    hide InLoop;
  }

  /** Different nodes with the same header. */
  ghost predicate Siblings(header: seq<nat>, cs: seq<nat>) {
    && (forall i :: 0 <= i < |cs| ==> cs[i] < |header|)
    && (forall i, j :: 0 <= i < j < |cs| ==> cs[i] != cs[j])
    && forall i, j :: 0 <= i < |cs| && 0 <= j < |cs| ==> header[cs[i]] == header[cs[j]]
  }

  lemma {:induction false} PostBottomUp(header: seq<nat>, forest: map<nat, seq<nat>>, h: nat)
    requires Nested(header, forest) && h in forest
    ensures BottomUp(header, Post(forest, |header|, h))
    decreases |header| - h, 1, 0
  {
    var n, cs := |header|, forest[h];
    hide *;
    NestedAt(header, forest, h);
    ChildrenSiblings(header, forest, h);
    PostAllBottomUp(header, forest, h, cs);
    PostIs(forest, n, h);
    OneBottomUp(header, h);
    ChildrenNotAbove(header, forest, h);
    BottomUpJoins(header, PostAll(forest, n, h, cs), [h]);
  }

  lemma NestedAt(header: seq<nat>, forest: map<nat, seq<nat>>, h: nat)
    requires Nested(header, forest) && h in forest
    ensures HeadersOk(header) && Rising(forest, |header|) && h < |header| && Between(forest[h], h, |header|)
  {
    hide ChildrenUpTo;
  }

  lemma ChildrenNotAbove(header: seq<nat>, forest: map<nat, seq<nat>>, h: nat)
    requires Nested(header, forest) && h in forest
    ensures NoneAbove(header, PostAll(forest, |header|, h, forest[h]), [h])
  {
    var n, cs := |header|, forest[h];
    var a := PostAll(forest, n, h, cs);
    hide PostAll, InLoop, ChildrenUpTo;
    forall i, j | 0 <= i < |a| && 0 <= j < |[h]|
      ensures [h][j] < n && !InLoop(header, a[i], [h][j])
    {
      PostAllInRange(header, forest, h, cs, i);
      PostAllHas(header, forest, h, cs, a[i]);
      var c :| c in cs && InLoop(header, c, a[i]);
      ChildrenAre(header, h, n, c);
      ChildInLoop(header, h, c, a[i]);
      NotAbove(header, h, a[i]);
    }
  }

  lemma NotAbove(header: seq<nat>, h: nat, x: nat)
    requires HeadersOk(header) && h < |header| && x < |header| && InLoop(header, h, x) && h != x
    ensures !InLoop(header, x, h)
  {
    InLoopLe(header, h, x);
    if InLoop(header, x, h) {
      InLoopLe(header, x, h);
    }
  }

  lemma OneBottomUp(header: seq<nat>, h: nat)
    requires HeadersOk(header) && h < |header|
    ensures BottomUp(header, [h])
  {
  }

  lemma ChildrenSiblings(header: seq<nat>, forest: map<nat, seq<nat>>, h: nat)
    requires Nested(header, forest) && h in forest
    ensures Siblings(header, forest[h])
  {
    var n, cs := |header|, forest[h];
    ChildrenDistinct(header, h, n);
    hide ChildrenUpTo;
    forall i | 0 <= i < |cs|
      ensures cs[i] < n && header[cs[i]] == h
    {
      ChildrenAre(header, h, n, cs[i]);
    }
  }

  lemma {:induction false} PostAllInRange(header: seq<nat>, forest: map<nat, seq<nat>>, lo: int, cs: seq<nat>, i: nat)
    requires Nested(header, forest) && -1 <= lo < |header| && Between(cs, lo, |header|) && i < |PostAll(forest, |header|, lo, cs)|
    ensures PostAll(forest, |header|, lo, cs)[i] < |header|
    decreases |header| - lo, 0, |cs|, i
  {
    var c := cs[|cs| - 1];
    var k := if c in forest then |Post(forest, |header|, c)| else 0;
    if i >= k {
      PostAllInRange(header, forest, lo, cs[..|cs| - 1], i - k);
    } else if i < k - 1 {
      PostAllInRange(header, forest, c, forest[c], i);
    }
  }

  lemma {:induction false} PostAllBottomUp(header: seq<nat>, forest: map<nat, seq<nat>>, lo: int, cs: seq<nat>)
    requires Nested(header, forest) && -1 <= lo < |header| && Between(cs, lo, |header|) && Siblings(header, cs)
    ensures BottomUp(header, PostAll(forest, |header|, lo, cs))
    decreases |header| - lo, 0, |cs|
  {
    hide *;
    SiblingsPrefix(header, forest, lo, cs);
    if cs != [] {
      var rest, c, n := cs[..|cs| - 1], cs[|cs| - 1], |header|;
      PostAllBottomUp(header, forest, lo, rest);
      if c in forest {
        PostBottomUp(header, forest, c);
        TreesApart(header, forest, lo, rest, c);
        BottomUpJoins(header, Post(forest, n, c), PostAll(forest, n, lo, rest));
      }
    }
  }

  lemma SiblingsPrefix(header: seq<nat>, forest: map<nat, seq<nat>>, lo: int, cs: seq<nat>)
    requires Nested(header, forest) && -1 <= lo < |header| && Between(cs, lo, |header|) && Siblings(header, cs)
    ensures HeadersOk(header) && Rising(forest, |header|)
    ensures cs == [] ==> BottomUp(header, PostAll(forest, |header|, lo, cs))
    ensures cs != [] ==>
      var rest, c, n := cs[..|cs| - 1], cs[|cs| - 1], |header|;
      && Between(rest, lo, n) && Siblings(header, rest) && lo < c < n && rest + [c] == cs
      && PostAll(forest, n, lo, cs) == if c in forest then Post(forest, n, c) + PostAll(forest, n, lo, rest) else PostAll(forest, n, lo, rest)
  {
    if cs != [] {
      hide Post, PostAll, ChildrenUpTo, InLoop;
      var rest, c, n := cs[..|cs| - 1], cs[|cs| - 1], |header|;
      assert rest + [c] == cs && Between(rest, lo, n);
      PostAllPush(forest, n, lo, rest, c);
      assert [] + PostAll(forest, n, lo, rest) == PostAll(forest, n, lo, rest);
    }
  }

  lemma TreesApart(header: seq<nat>, forest: map<nat, seq<nat>>, lo: int, rest: seq<nat>, c: nat)
    requires Nested(header, forest) && -1 <= lo < |header| && Between(rest, lo, |header|) && Siblings(header, rest + [c]) && c in forest
    ensures NoneAbove(header, Post(forest, |header|, c), PostAll(forest, |header|, lo, rest))
  {
    hide Post, PostAll, Nested, BottomUp;
    NestedAt(header, forest, c);
    var n := |header|;
    var a, b := Post(forest, n, c), PostAll(forest, n, lo, rest);
    forall i, j | 0 <= i < |a| && 0 <= j < |b|
      ensures b[j] < n && !InLoop(header, a[i], b[j])
    {
      PostInRange(header, forest, c, i);
      PostAllInRange(header, forest, lo, rest, j);
      PostHas(header, forest, c, a[i]);
      PostAllHas(header, forest, lo, rest, b[j]);
      var d :| d in rest && InLoop(header, d, b[j]);
      if InLoop(header, a[i], b[j]) {
        InLoopTrans(header, c, a[i], b[j]);
        var k :| 0 <= k < |rest| && rest[k] == d;
        assert (rest + [c])[k] == d && (rest + [c])[|rest|] == c;
        SiblingsApart(header, c, d, b[j]);
      }
    }
  }

  lemma PostInRange(header: seq<nat>, forest: map<nat, seq<nat>>, h: nat, i: nat)
    requires Nested(header, forest) && h in forest && i < |Post(forest, |header|, h)|
    ensures Post(forest, |header|, h)[i] < |header|
  {
    if i < |Post(forest, |header|, h)| - 1 {
      PostAllInRange(header, forest, h, forest[h], i);
    }
  }

  lemma {:induction false} ReversedAt(s: seq<nat>, i: nat)
    requires i < |s|
    ensures |Reversed(s)| == |s| && Reversed(s)[i] == s[|s| - 1 - i]
    decreases |s|
  {
    if |s| > 1 {
      ReversedAt(s[1..], if i < |s| - 1 then i else 0);
    }
  }

  lemma RootSiblings(header: seq<nat>, kind: seq<NodeType>)
    requires |header| == |kind|
    ensures Siblings(header, Reversed(RootsUpTo(header, kind, |header|)))
    ensures Between(Reversed(RootsUpTo(header, kind, |header|)), -1, |header|)
  {
    var n := |header|;
    var s := RootsUpTo(header, kind, n);
    RootsDistinct(header, kind, n);
    hide RootsUpTo, Reversed;
    forall i | 0 <= i < |s|
      ensures s[i] < n && header[s[i]] == 0
    {
      RootsAre(header, kind, n, s[i]);
    }
    SiblingsReversed(header, s);
  }

  lemma SiblingsReversed(header: seq<nat>, s: seq<nat>)
    requires Siblings(header, s)
    ensures Siblings(header, Reversed(s)) && Between(Reversed(s), -1, |header|)
  {
    var r := Reversed(s);
    if s != [] {
      ReversedAt(s, 0);
    }
    hide Reversed;
    forall i | 0 <= i < |r|
      ensures r[i] == s[|s| - 1 - i]
    {
      ReversedAt(s, i);
    }
  }

  /** The outermost loop around a node. */
  lemma {:induction false} Outermost(header: seq<nat>, x: nat) returns (r: nat)
    requires HeadersOk(header) && x < |header|
    ensures r < |header| && header[r] == 0 && InLoop(header, r, x)
    decreases x
  {
    if header[x] == 0 {
      r := x;
    } else {
      r := Outermost(header, header[x]);
    }
  }

  /** Every analysed header says the truth about its loop. */
  ghost predicate Truthful(t: Tree, header: seq<nat>, kind: seq<NodeType>) {
    && Ok(t) && HeadersOk(header) && |header| == |kind| == |t.node|
    && forall h :: 0 <= h < |t.node| ==> LoopOk(t, header, kind, h)
  }

  /** A header that gets a loop of its own: an outermost one, or one with other nodes. */
  ghost predicate Heading(header: seq<nat>, kind: seq<NodeType>, h: nat)
    requires |header| == |kind|
  {
    h < |header| && (IsRoot(header, kind, h) || exists c: nat :: IsChild(header, h, c))
  }

  lemma ChildIsMember(t: Tree, header: seq<nat>, kind: seq<NodeType>, h: nat, x: nat)
    requires Truthful(t, header, kind) && h < |header| && x < |header| && x != h && InLoop(header, h, x)
    ensures kind[h] == Reducible || kind[h] == Irreducible
  {
    assert LoopOk(t, header, kind, h) && HasMembers(header, h);
    hide LoopOk, HasMembers;
    assert kind[h] == Reducible || kind[h] == Irreducible by {
      KindOfMembers(t, header, kind, h);
    }
  }

  lemma KindOfMembers(t: Tree, header: seq<nat>, kind: seq<NodeType>, h: nat)
    requires |header| == |kind| == |t.node| && HeadersOk(header) && h < |header| && LoopOk(t, header, kind, h) && HasMembers(header, h)
    ensures kind[h] == Reducible || kind[h] == Irreducible
  {
    hide HasMembers, EnteredAside;
  }

  /** The traversal gets to every loop once, inner loops first. */
  lemma OrderIs(t: Tree, header: seq<nat>, kind: seq<NodeType>, roots: seq<nat>, forest: map<nat, seq<nat>>)
    requires Truthful(t, header, kind) && ForestUpTo(header, kind, |header|, roots, forest)
    ensures Nested(header, forest) && |header| > 0 && Between(Reversed(roots), -1, |header|)
    ensures BottomUp(header, PostAll(forest, |header|, -1, Reversed(roots)))
    ensures forall x: nat :: x in PostAll(forest, |header|, -1, Reversed(roots)) <==> Heading(header, kind, x)
    ensures forall x: nat :: x in forest <==> Heading(header, kind, x)
  {
    var n := |header|;
    ForestIsNested(header, kind, roots, forest);
    RootSiblings(header, kind);
    PostAllBottomUp(header, forest, -1, Reversed(roots));
    forall x: nat
      ensures x in forest <==> Heading(header, kind, x)
    {
      hide ChildrenUpTo, RootsUpTo;
      if x in forest && ChildrenUpTo(header, x, n) != [] {
        ChildrenAre(header, x, n, ChildrenUpTo(header, x, n)[0]);
      }
    }
    hide ForestUpTo, LoopOk, BottomUp, PostAll, Nested, Heading;
    forall x: nat
      ensures x in PostAll(forest, n, -1, Reversed(roots)) <==> Heading(header, kind, x)
    {
      if x in PostAll(forest, n, -1, Reversed(roots)) {
        var i: nat :| i < |PostAll(forest, n, -1, Reversed(roots))| && PostAll(forest, n, -1, Reversed(roots))[i] == x;
        PostAllInRange(header, forest, -1, Reversed(roots), i);
        PostAllHas(header, forest, -1, Reversed(roots), x);
      }
      if Heading(header, kind, x) {
        HeadingInTree(t, header, kind, roots, forest, x);
        PostAllHas(header, forest, -1, Reversed(roots), x);
      }
    }
  }

  lemma HeadingInTree(t: Tree, header: seq<nat>, kind: seq<NodeType>, roots: seq<nat>, forest: map<nat, seq<nat>>, x: nat)
    requires Truthful(t, header, kind) && ForestUpTo(header, kind, |header|, roots, forest) && Heading(header, kind, x)
    ensures x < |header| && InSome(header, Reversed(roots), x)
  {
    var r := Outermost(header, x);
    if r != x {
      ChildIsMember(t, header, kind, r, x);
    } else if !IsRoot(header, kind, x) {
      var c: nat :| IsChild(header, x, c);
      assert InLoop(header, x, c) && c != x;
      ChildIsMember(t, header, kind, x, c);
    }
    RootsAre(header, kind, |header|, r);
    ReversedHas(roots, r);
  }

  // ----- the loops as blocks ----------------------------------------------------

  /** Block `y` is in the loop of block `b`. */
  ghost predicate In(t: Tree, header: seq<nat>, b: nat, y: nat) {
    && HeadersOk(header) && b in t.number && y in t.number && t.number[b] < |header| && t.number[y] < |header|
    && InLoop(header, t.number[b], t.number[y])
  }

  ghost function NestOf(t: Tree, header: seq<nat>, b: nat): set<nat> {
    set y | y in t.number && In(t, header, b, y)
  }

  ghost function Nests(t: Tree, header: seq<nat>, order: seq<nat>): map<nat, set<nat>> {
    map b | b in order :: NestOf(t, header, b)
  }

  /** The blocks with these numbers. */
  function Blocks(node: seq<nat>, ord: seq<nat>): seq<nat>
    requires forall i :: 0 <= i < |ord| ==> ord[i] < |node|
  {
    seq(|ord|, i requires 0 <= i < |ord| => node[ord[i]])
  }

  /** The children of a header, in some order. */
  ghost predicate KidsOk(t: Tree, header: seq<nat>, b: nat, cs: seq<nat>) {
    && b in t.number
    && (forall c: nat :: c in cs <==> c in t.number && IsChild(header, t.number[b], t.number[c]))
    && forall i, j :: 0 <= i < j < |cs| ==> cs[i] != cs[j]
  }

  /** Headers in post-order, with their children. */
  ghost predicate Ordered(t: Tree, header: seq<nat>, kind: seq<NodeType>, order: seq<nat>, kids: map<nat, seq<nat>>) {
    && Truthful(t, header, kind)
    && (forall b: nat :: b in order <==> b in t.number && Heading(header, kind, t.number[b]))
    && (forall i, j :: 0 <= i < j < |order| ==> !In(t, header, order[i], order[j]))
    && forall b: nat :: b in order ==> b in kids && KidsOk(t, header, b, kids[b])
  }

  lemma Numbered(t: Tree, header: seq<nat>, kind: seq<NodeType>, b: nat)
    requires Truthful(t, header, kind) && b in t.number
    ensures t.number[b] < |header| && t.node[t.number[b]] == b < |t.g| && In(t, header, b, b)
  {
  }

  /** What the traversal calls the blocks below a child is its loop. */
  lemma SubIs(t: Tree, header: seq<nat>, kind: seq<NodeType>, order: seq<nat>, kids: map<nat, seq<nat>>, c: nat, x: nat)
    requires Ordered(t, header, kind, order, kids) && c in t.number
    ensures x in F.Sub(order, Nests(t, header, order), c) <==> In(t, header, c, x)
  {
    Numbered(t, header, kind, c);
    if c !in order && In(t, header, c, x) && x != c {
      Numbered(t, header, kind, x);
      var d := ChildOnWay(header, t.number[c], t.number[x]);
      assert Heading(header, kind, t.number[c]);
    }
  }

  /** A loop is its header and the loops of its children. */
  lemma InSplit(t: Tree, header: seq<nat>, kind: seq<NodeType>, b: nat, cs: seq<nat>, x: nat)
    requires Truthful(t, header, kind) && KidsOk(t, header, b, cs)
    ensures In(t, header, b, x) <==> x == b || exists c :: c in cs && In(t, header, c, x)
  {
    Numbered(t, header, kind, b);
    if In(t, header, b, x) && x != b {
      Numbered(t, header, kind, x);
      var d := ChildOnWay(header, t.number[b], t.number[x]);
      var c := t.node[d];
      assert c in t.number && t.number[c] == d;
      assert c in cs && In(t, header, c, x);
    }
    forall c | c in cs && In(t, header, c, x)
      ensures In(t, header, b, x) && x != b
    {
      ChildInLoop(header, t.number[b], t.number[c], t.number[x]);
    }
  }

  lemma NotAboveBlock(t: Tree, header: seq<nat>, kind: seq<NodeType>, b: nat, cs: seq<nat>, c: nat)
    requires Truthful(t, header, kind) && KidsOk(t, header, b, cs) && c in cs
    ensures In(t, header, b, c) && !In(t, header, c, b) && b != c
  {
    Numbered(t, header, kind, c);
    ChildInLoop(header, t.number[b], t.number[c], t.number[c]);
    NotAbove(header, t.number[b], t.number[c]);
  }

  lemma KidsApart(t: Tree, header: seq<nat>, kind: seq<NodeType>, b: nat, cs: seq<nat>, i: nat, j: nat, x: nat)
    requires Truthful(t, header, kind) && KidsOk(t, header, b, cs) && i < j < |cs| && In(t, header, cs[i], x)
    ensures !In(t, header, cs[j], x)
  {
    assert cs[i] in cs && cs[j] in cs;
    Numbered(t, header, kind, cs[i]);
    Numbered(t, header, kind, cs[j]);
    if In(t, header, cs[j], x) {
      SiblingsApart(header, t.number[cs[i]], t.number[cs[j]], t.number[x]);
    }
  }

  /** Of two loops, the later one is around the earlier one, or they are disjoint. */
  lemma LoopsNest(t: Tree, header: seq<nat>, kind: seq<NodeType>, g: nat, h: nat, x: nat)
    requires Truthful(t, header, kind) && !In(t, header, g, h) && In(t, header, g, x) && In(t, header, h, x)
    ensures In(t, header, h, g)
  {
    var a, b := t.number[g], t.number[h];
    if a <= b {
      InLoopLinear(header, a, b, t.number[x]);
    } else {
      InLoopLinear(header, b, a, t.number[x]);
    }
  }

  lemma InTrans(t: Tree, header: seq<nat>, a: nat, b: nat, c: nat)
    requires In(t, header, a, b) && In(t, header, b, c)
    ensures In(t, header, a, c)
  {
    InLoopTrans(header, t.number[a], t.number[b], t.number[c]);
  }

  /** A child that is in another loop whose header is not around `h` is that header. */
  lemma ChildOfOne(t: Tree, header: seq<nat>, kind: seq<NodeType>, g: nat, h: nat, cs: seq<nat>, c: nat)
    requires Truthful(t, header, kind) && KidsOk(t, header, h, cs) && c in cs && In(t, header, g, c) && !In(t, header, g, h)
    ensures c == g
  {
    Numbered(t, header, kind, c);
    Numbered(t, header, kind, h);
    if t.number[g] == t.number[c] {
      Numbered(t, header, kind, g);
    }
  }

  lemma BelowHolds(t: Tree, header: seq<nat>, kind: seq<NodeType>, order: seq<nat>, kids: map<nat, seq<nat>>, j: nat, i: nat)
    requires Ordered(t, header, kind, order, kids) && j < i < |order|
    ensures order[i] in kids && F.Below(order, kids, Nests(t, header, order), j, i)
  {
    var nest, g, h := Nests(t, header, order), order[j], order[i];
    assert g in order && h in order && !In(t, header, g, h);
    hide Ordered, In, KidsOk, Truthful;
    NestsAt(t, header, order, g);
    NestsAt(t, header, order, h);
    OrderedParts(t, header, kind, order, kids, h);
    forall c | c in kids[h] && c in nest[g]
      ensures c == g
    {
      ChildOfOne(t, header, kind, g, h, kids[h], c);
    }
    if x :| x in nest[g] && x in nest[h] {
      LoopsNest(t, header, kind, g, h, x);
      forall y | y in nest[g]
        ensures y in nest[h]
      {
        InTrans(t, header, h, g, y);
      }
    }
  }

  lemma NestsAt(t: Tree, header: seq<nat>, order: seq<nat>, b: nat)
    requires b in order
    ensures b in Nests(t, header, order) && forall x: nat :: x in Nests(t, header, order)[b] <==> In(t, header, b, x)
  {
    assert forall x: nat :: In(t, header, b, x) ==> x in t.number;
  }

  lemma OrderedParts(t: Tree, header: seq<nat>, kind: seq<NodeType>, order: seq<nat>, kids: map<nat, seq<nat>>, b: nat)
    requires Ordered(t, header, kind, order, kids) && b in order
    ensures Truthful(t, header, kind) && b in kids && KidsOk(t, header, b, kids[b]) && b in t.number
  {
  }

  lemma FirstEdge(g: Graph, p: seq<nat>)
    requires IsPath(g, p)
    ensures |p| > 1 ==> Edge(g, p[0], p[1])
  {
    var i := 0;
    assert i < |p| - 1 ==> Edge(g, p[i], p[i + 1]);
  }

  lemma StuckPath(g: Graph, p: seq<nat>, a: nat, b: nat)
    requires PathFromTo(g, p, a, b) && g[a] == []
    ensures a == b
  {
    FirstEdge(g, p);
  }

  lemma StuckBelow(t: Tree, s: nat, c: nat)
    requires Ok(t) && Anc(t, s, c) && s < |t.node| && t.g[t.node[s]] == []
    ensures c == s
  {
    AncestorReaches(t.g, t.node, t.number, t.parent, s, c);
    var p :| PathFromTo(t.g, p, t.node[s], t.node[c]);
    StuckPath(t.g, p, t.node[s], t.node[c]);
    assert t.number[t.node[c]] == c && t.number[t.node[s]] == s;
  }

  /** The sink is in no loop. */
  lemma SinkOutside(t: Tree, header: seq<nat>, kind: seq<NodeType>, b: nat, sink: nat)
    requires Truthful(t, header, kind) && b in t.number && t.number[b] < |header| && Heading(header, kind, t.number[b])
    requires sink < |t.g| && t.g[sink] == []
    ensures !In(t, header, b, sink)
  {
    if In(t, header, b, sink) {
      var a, s := t.number[b], t.number[sink];
      assert t.node[s] == sink && t.node[a] == b;
      assert LoopOk(t, header, kind, a);
      LoopOkMembers(t, header, kind, a, s);
      var p :| PathFromTo(t.g, p, t.node[s], t.node[a]) && InSubtree(t, a, p);
      StuckPath(t.g, p, sink, b);
      SinkHeadsNothing(t, header, kind, s);
    }
  }

  lemma SinkHeadsNothing(t: Tree, header: seq<nat>, kind: seq<NodeType>, s: nat)
    requires Truthful(t, header, kind) && s < |header| && t.g[t.node[s]] == []
    ensures !Heading(header, kind, s)
  {
    assert LoopOk(t, header, kind, s);
    if IsRoot(header, kind, s) {
      var v: nat :| E(t, v, s) && Anc(t, s, v);
      StuckBelow(t, s, v);
    }
    if c: nat :| IsChild(header, s, c) {
      assert InLoop(header, s, c);
      LoopOkMembers(t, header, kind, s, c);
      var p :| PathFromTo(t.g, p, t.node[c], t.node[s]) && InSubtree(t, s, p);
      assert p[0] in p && t.number[t.node[c]] == c;
      StuckBelow(t, s, c);
    }
  }

  lemma TreeHolds(t: Tree, header: seq<nat>, kind: seq<NodeType>, order: seq<nat>, kids: map<nat, seq<nat>>, sink: nat, i: nat)
    requires Ordered(t, header, kind, order, kids) && i < |order| && sink < |t.g| && t.g[sink] == []
    ensures F.Tree(|t.g|, sink, order, kids, Nests(t, header, order), i)
  {
    var nest, h := Nests(t, header, order), order[i];
    assert h in order;
    OrderedParts(t, header, kind, order, kids, h);
    NestsAt(t, header, order, h);
    NestInside(t, header, kind, order, kids, sink, h);
    var cs := kids[h];
    forall c: nat, x: nat | c in cs
      ensures x in F.Sub(order, nest, c) <==> In(t, header, c, x)
    {
      SubIs(t, header, kind, order, kids, c, x);
    }
    hide Ordered, In, KidsOk, Truthful, Nests, F.Sub, F.Below;
    NestSplits(t, header, kind, h, cs, order, nest);
    forall c | c in cs
      ensures h !in F.Sub(order, nest, c) && (c in order ==> c in order[..i])
    {
      NotAboveBlock(t, header, kind, h, cs, c);
      ChildEarlier(t, header, kind, order, kids, i, c);
    }
    forall a, b, x | 0 <= a < b < |cs| && x in F.Sub(order, nest, cs[a])
      ensures x !in F.Sub(order, nest, cs[b])
    {
      assert cs[a] in cs && cs[b] in cs;
      KidsApart(t, header, kind, h, cs, a, b, x);
    }
    forall j: nat | j < i && order[j] in nest
      ensures F.Below(order, kids, nest, j, i)
    {
      BelowHolds(t, header, kind, order, kids, j, i);
    }
  }

  lemma NestInside(t: Tree, header: seq<nat>, kind: seq<NodeType>, order: seq<nat>, kids: map<nat, seq<nat>>, sink: nat, h: nat)
    requires Ordered(t, header, kind, order, kids) && h in order && sink < |t.g| && t.g[sink] == []
    ensures h in Nests(t, header, order) && forall x :: x in Nests(t, header, order)[h] ==> x < |t.g| && x != sink
  {
    NestsAt(t, header, order, h);
    Numbered(t, header, kind, h);
    SinkOutside(t, header, kind, h, sink);
    forall x | x in Nests(t, header, order)[h]
      ensures x < |t.g|
    {
      Numbered(t, header, kind, x);
    }
  }

  lemma NestSplits(t: Tree, header: seq<nat>, kind: seq<NodeType>, h: nat, cs: seq<nat>, order: seq<nat>, nest: map<nat, set<nat>>)
    requires Truthful(t, header, kind) && KidsOk(t, header, h, cs) && h in nest && forall x: nat :: x in nest[h] <==> In(t, header, h, x)
    requires forall c: nat, x: nat :: c in cs ==> (x in F.Sub(order, nest, c) <==> In(t, header, c, x))
    ensures forall x :: x in nest[h] <==> x == h || exists c :: c in cs && x in F.Sub(order, nest, c)
  {
    hide Truthful, KidsOk, In, F.Sub;
    forall x: nat
      ensures x in nest[h] <==> x == h || exists c :: c in cs && x in F.Sub(order, nest, c)
    {
      InSplit(t, header, kind, h, cs, x);
      if exists c :: c in cs && In(t, header, c, x) {
        var c :| c in cs && In(t, header, c, x);
        assert c in cs && x in F.Sub(order, nest, c);
      }
    }
  }

  lemma ChildEarlier(t: Tree, header: seq<nat>, kind: seq<NodeType>, order: seq<nat>, kids: map<nat, seq<nat>>, i: nat, c: nat)
    requires Ordered(t, header, kind, order, kids) && i < |order| && In(t, header, order[i], c) && order[i] != c
    ensures c in order ==> c in order[..i]
  {
    if c in order {
      var j: nat :| j < |order| && order[j] == c;
      assert j < i;
      assert order[..i][j] == c;
    }
  }

  /** The loop forest of the analysis is one that all loops can be unrolled by. */
  lemma ForestHolds(t: Tree, header: seq<nat>, kind: seq<NodeType>, order: seq<nat>, kids: map<nat, seq<nat>>, sink: nat)
    requires Ordered(t, header, kind, order, kids) && sink < |t.g| && t.g[sink] == []
    ensures F.Forest(|t.g|, sink, order, kids, Nests(t, header, order))
  {
    hide F.Tree, In, Truthful, KidsOk;
    forall i: nat | i < |order|
      ensures F.Tree(|t.g|, sink, order, kids, Nests(t, header, order), i)
    {
      TreeHolds(t, header, kind, order, kids, sink, i);
    }
    forall i, j | 0 <= i < j < |order|
      ensures order[i] != order[j]
    {
      assert order[i] in order;
      Numbered(t, header, kind, order[i]);
    }
  }

  // ----- cycles --------------------------------------------------------------

  /** `h` is on the cycle and dominates it. */
  ghost predicate HeadOf(g: Graph, h: nat, p: seq<nat>) {
    h in p && Reachable(g, 0, h) && forall x :: x in p ==> Dominates(g, h, x)
  }

  /** Every cycle has a head: the function has no irreducible loops. */
  ghost predicate NaturalCycles(g: Graph) {
    forall p :: F.Cycle(g, p) ==> exists h: nat :: HeadOf(g, h, p)
  }

  /** `x` is on a cycle that `h` heads. */
  ghost predicate Heads(g: Graph, h: nat, x: nat) {
    exists p :: F.Cycle(g, p) && x in p && HeadOf(g, h, p)
  }

  lemma PathPrefix(g: Graph, p: seq<nat>, a: nat, b: nat, j: nat)
    requires PathFromTo(g, p, a, b) && j < |p|
    ensures PathFromTo(g, p[..j + 1], a, p[j])
  {
    var q := p[..j + 1];
    forall i {:trigger q[i + 1]} | 0 <= i < |q| - 1
      ensures Edge(g, q[i], q[i + 1])
    {
      assert Edge(g, p[i], p[i + 1]);
    }
  }

  /** Around a cycle, every block leads to every other. */
  lemma CyclePath(g: Graph, p: seq<nat>, a: nat, b: nat) returns (q: seq<nat>)
    requires F.Cycle(g, p) && a in p && b in p
    ensures PathFromTo(g, q, a, b) && forall x :: x in q ==> x in p
  {
    var i: nat :| i < |p| && p[i] == a;
    var j: nat :| j < |p| && p[j] == b;
    var n := |p| - 1;
    PathSuffix(g, p, p[0], p[n], i);
    if i <= j {
      PathPrefix(g, p[i..], a, p[n], j - i);
      q := p[i..][..j - i + 1];
    } else {
      PathPrefix(g, p, p[0], p[n], j);
      JoinPaths(g, p[i..], p[..j + 1], a, p[0], b);
      q := p[i..] + p[..j + 1][1..];
      assert forall x :: x in p[..j + 1][1..] ==> x in p;
    }
    assert forall x :: x in p[i..] ==> x in p;
  }

  /** A cycle is in the loop of its head. */
  lemma HeadedIn(t: Tree, header: seq<nat>, kind: seq<NodeType>, h: nat, p: seq<nat>, x: nat)
    requires Truthful(t, header, kind) && F.Cycle(t.g, p) && HeadOf(t.g, h, p) && x in p
    ensures In(t, header, h, x)
  {
    NumberedIffReachable(t.g, t.node, t.number, t.last, t.parent, h);
    Numbered(t, header, kind, h);
    var down := CyclePath(t.g, p, h, x);
    PathNumbered(t.g, t.node, t.number, t.last, t.parent, down, |down| - 1);
    Numbered(t, header, kind, x);
    var up := CyclePath(t.g, p, x, h);
    DominatedStays(t, t.number[h], up);
    assert LoopOk(t, header, kind, t.number[h]);
    assert Back(t, t.number[h], t.number[x]);
    LoopOkMembers(t, header, kind, t.number[h], t.number[x]);
  }

  /** Down to `x` and back to `h`, all below `h`. */
  lemma LoopCycle(t: Tree, header: seq<nat>, kind: seq<NodeType>, h: nat, x: nat) returns (p: seq<nat>)
    requires Truthful(t, header, kind) && In(t, header, h, x) && x != h
    ensures F.Cycle(t.g, p) && h in p && x in p && InSubtree(t, t.number[h], p)
  {
    var a, b := t.number[h], t.number[x];
    Numbered(t, header, kind, h);
    Numbered(t, header, kind, x);
    assert LoopOk(t, header, kind, a);
    LoopOkMembers(t, header, kind, a, b);
    var up :| PathFromTo(t.g, up, t.node[b], t.node[a]) && InSubtree(t, a, up);
    assert up[0] in up && Anc(t, a, b);
    StaysDown(t, a, b);
    var down :| PathFromTo(t.g, down, t.node[a], t.node[b]) && InSubtree(t, a, down);
    hide Truthful, In, Anc;
    JoinPaths(t.g, down, up, h, x, h);
    p := down + up[1..];
    assert h == down[0] && x == down[|down| - 1] && |down| > 1;
    assert forall y :: y in up[1..] ==> y in up;
  }

  /** In a function without irreducible loops, a loop is made up of the cycles that its
      header heads. */
  lemma LoopIsHeaded(t: Tree, header: seq<nat>, kind: seq<NodeType>, h: nat, x: nat)
    requires Truthful(t, header, kind) && NaturalCycles(t.g) && x != h
    ensures In(t, header, h, x) <==> Heads(t.g, h, x)
  {
    if Heads(t.g, h, x) {
      var p :| F.Cycle(t.g, p) && x in p && HeadOf(t.g, h, p);
      HeadedIn(t, header, kind, h, p, x);
    }
    if In(t, header, h, x) {
      var p := LoopCycle(t, header, kind, h, x);
      var k: nat :| HeadOf(t.g, k, p);
      HeadIsHeader(t, header, kind, h, k, p);
    }
  }

  lemma HeadIsHeader(t: Tree, header: seq<nat>, kind: seq<NodeType>, h: nat, k: nat, p: seq<nat>)
    requires Truthful(t, header, kind) && h in t.number && HeadOf(t.g, k, p) && h in p && InSubtree(t, t.number[h], p)
    ensures k == h
  {
    Numbered(t, header, kind, h);
    assert Anc(t, t.number[h], t.number[k]);
    DominatorIsAncestor(t.g, t.node, t.number, t.parent, k, t.number[h]);
    AncestorLe(t.parent, t.number[h], t.number[k]);
    AncestorLe(t.parent, t.number[k], t.number[h]);
    assert t.node[t.number[k]] == k;
  }

  // ----- what is left --------------------------------------------------------

  /** A block jumps to itself, is in another loop, and has no other blocks in its own. */
  ghost predicate LeftAlone(t: Tree, header: seq<nat>, b: nat) {
    && b in t.number && t.number[b] < |header| && Edge(t.g, b, b) && header[t.number[b]] != 0
    && forall c: nat :: !IsChild(header, t.number[b], c)
  }

  /** ... in terms of the graph. */
  ghost predicate NestedSelfJump(g: Graph, b: nat) {
    Edge(g, b, b) && (exists h: nat :: h != b && Heads(g, h, b)) && forall u: nat :: u != b ==> !Heads(g, b, u)
  }

  lemma LeftAloneIff(t: Tree, header: seq<nat>, kind: seq<NodeType>, b: nat)
    requires Truthful(t, header, kind) && NaturalCycles(t.g)
    ensures LeftAlone(t, header, b) <==> NestedSelfJump(t.g, b)
  {
    if LeftAlone(t, header, b) {
      AloneIsNested(t, header, kind, b);
    }
    if NestedSelfJump(t.g, b) {
      NestedIsAlone(t, header, kind, b);
    }
  }

  lemma AloneIsNested(t: Tree, header: seq<nat>, kind: seq<NodeType>, b: nat)
    requires Truthful(t, header, kind) && NaturalCycles(t.g) && LeftAlone(t, header, b)
    ensures NestedSelfJump(t.g, b)
  {
    Numbered(t, header, kind, b);
    var a := header[t.number[b]];
    var h := t.node[a];
    assert h in t.number && t.number[h] == a && a != t.number[b];
    assert InLoop(header, a, a) && InLoop(header, a, t.number[b]);
    assert In(t, header, h, b);
    LoopIsHeaded(t, header, kind, h, b);
    hide Heads;
    forall u: nat | u != b
      ensures !Heads(t.g, b, u)
    {
      LoopIsHeaded(t, header, kind, b, u);
      if In(t, header, b, u) {
        Numbered(t, header, kind, u);
        var c := ChildOnWay(header, t.number[b], t.number[u]);
      }
    }
  }

  lemma NestedIsAlone(t: Tree, header: seq<nat>, kind: seq<NodeType>, b: nat)
    requires Truthful(t, header, kind) && NaturalCycles(t.g) && NestedSelfJump(t.g, b)
    ensures LeftAlone(t, header, b)
  {
    hide Heads;
    var h: nat :| h != b && Heads(t.g, h, b);
    LoopIsHeaded(t, header, kind, h, b);
    Numbered(t, header, kind, b);
    Numbered(t, header, kind, h);
    forall c: nat
      ensures !IsChild(header, t.number[b], c)
    {
      if IsChild(header, t.number[b], c) {
        var u := t.node[c];
        assert u in t.number && t.number[u] == c;
        assert InLoop(header, t.number[b], c);
        LoopIsHeaded(t, header, kind, b, u);
      }
    }
  }

  /** A cycle goes through the header of a loop that is unrolled, or round one block that
      is left alone. */
  lemma CycleCut(t: Tree, header: seq<nat>, kind: seq<NodeType>, order: seq<nat>, kids: map<nat, seq<nat>>, p: seq<nat>)
    requires Ordered(t, header, kind, order, kids) && NaturalCycles(t.g) && F.Cycle(t.g, p)
    ensures (exists i :: F.InLoopWithHeader(order, Nests(t, header, order), i, p)) || exists b: nat :: LeftAlone(t, header, b)
  {
    var h: nat :| HeadOf(t.g, h, p);
    forall x | x in p
      ensures In(t, header, h, x)
    {
      HeadedIn(t, header, kind, h, p, x);
    }
    HeadOrAlone(t, header, kind, h, p);
    if Heading(header, kind, t.number[h]) {
      assert h in order;
      var i: nat :| i < |order| && order[i] == h;
      NestsAt(t, header, order, h);
      hide Ordered, In, Nests;
      assert F.InLoopWithHeader(order, Nests(t, header, order), i, p);
    }
  }

  lemma HeadOrAlone(t: Tree, header: seq<nat>, kind: seq<NodeType>, h: nat, p: seq<nat>)
    requires Truthful(t, header, kind) && F.Cycle(t.g, p) && h in p && forall x :: x in p ==> In(t, header, h, x)
    ensures h in t.number && t.number[h] < |header| && (Heading(header, kind, t.number[h]) || LeftAlone(t, header, h))
  {
    Numbered(t, header, kind, h);
    var a := t.number[h];
    if x :| x in p && x != h {
      Numbered(t, header, kind, x);
      var c := ChildOnWay(header, a, t.number[x]);
    } else {
      var i := 0;
      assert p[i] in p && p[i + 1] in p && Edge(t.g, p[i], p[i + 1]);
      assert LoopOk(t, header, kind, a);
      assert E(t, a, a) && Anc(t, a, a);
      KindOfLatch(t, header, kind, a);
    }
  }

  lemma KindOfLatch(t: Tree, header: seq<nat>, kind: seq<NodeType>, a: nat)
    requires |header| == |kind| == |t.node| && HeadersOk(header) && a < |header| && LoopOk(t, header, kind, a) && E(t, a, a) && Anc(t, a, a)
    ensures kind[a] != Nonheader
  {
    hide EnteredAside, HasMembers;
  }

  /** Unrolling all loops of the analysis leaves a cycle exactly if some block is left
      alone. */
  lemma CyclesLeftIff(t: Tree, header: seq<nat>, kind: seq<NodeType>, order: seq<nat>, kids: map<nat, seq<nat>>,
                      gs: seq<Graph>, steps: seq<F.Step>, k: nat, sink: nat)
    requires Ordered(t, header, kind, order, kids) && NaturalCycles(t.g)
    requires F.Steps(gs, steps, k, sink) && |steps| == |order| && gs[0] == t.g && F.HeadersOf(steps, order)
    requires sink < |gs[|steps|]| && gs[|steps|][sink] == []
    requires forall i: nat :: i < |steps| ==> order[i] in Nests(t, header, order) && F.LoopIs(gs, steps, i, Nests(t, header, order)[order[i]])
    ensures (forall q :: !F.Cycle(gs[|steps|], q)) <==> forall b: nat :: !NestedSelfJump(t.g, b)
  {
    var n, nest := |steps|, Nests(t, header, order);
    assert Truthful(t, header, kind);
    hide Ordered, F.LoopIs, F.HeadersOf, F.Cycle, NaturalCycles, NestedSelfJump, LeftAlone, Truthful, Nests, F.InLoopWithHeader;
    if forall b: nat :: !NestedSelfJump(t.g, b) {
      forall b: nat
        ensures !LeftAlone(t, header, b)
      {
        LeftAloneIff(t, header, kind, b);
      }
      forall p | F.Cycle(gs[0], p)
        ensures exists i :: F.InLoopWithHeader(order, nest, i, p)
      {
        CycleCut(t, header, kind, order, kids, p);
      }
      forall q
        ensures !F.Cycle(gs[n], q)
      {
        F.AllCyclesCut(gs, steps, k, sink, order, nest, q);
      }
    }
    if b: nat :| NestedSelfJump(t.g, b) {
      LeftAloneIff(t, header, kind, b);
      AloneIsLeft(t, header, kind, order, kids, gs, steps, k, sink, b);
      assert F.Cycle(gs[n], [b, b]);
    }
  }

  lemma AloneIsLeft(t: Tree, header: seq<nat>, kind: seq<NodeType>, order: seq<nat>, kids: map<nat, seq<nat>>,
                    gs: seq<Graph>, steps: seq<F.Step>, k: nat, sink: nat, b: nat)
    requires Ordered(t, header, kind, order, kids) && LeftAlone(t, header, b)
    requires F.Steps(gs, steps, k, sink) && |steps| == |order| && gs[0] == t.g && F.HeadersOf(steps, order)
    ensures F.Cycle(gs[|steps|], [b, b])
  {
    assert b !in order;
    forall i | 0 <= i < |steps|
      ensures |steps[i].loop| > 0 && steps[i].loop[0] != b
    {
      assert order[i] in order;
    }
    F.SelfJumpStays(gs, steps, k, sink, |steps|, b);
    hide F.Steps, Ordered;
  }

  // ----- the whole of unrolling -----------------------------------------------

  ghost predicate Distinct(s: seq<nat>) {
    forall i, j :: 0 <= i < j < |s| ==> s[i] != s[j]
  }

  /** The children of each header in some order; the source sorts them topologically. */
  ghost predicate Arranges(arrange: (nat, seq<nat>) -> seq<nat>) {
    forall b: nat, s :: Rearranged(s, arrange(b, s))
  }

  ghost predicate Rearranged(s: seq<nat>, s': seq<nat>) {
    (forall x :: x in s' <==> x in s) && (Distinct(s) ==> Distinct(s'))
  }

  lemma BlocksKids(t: Tree, header: seq<nat>, kind: seq<NodeType>, forest: map<nat, seq<nat>>, h: nat, s: seq<nat>)
    requires Truthful(t, header, kind) && Nested(header, forest) && h in forest
    requires (forall i :: 0 <= i < |forest[h]| ==> forest[h][i] < |t.node|) && Rearranged(Blocks(t.node, forest[h]), s)
    ensures h < |t.node| && KidsOk(t, header, t.node[h], s)
  {
    var n, cs := |header|, forest[h];
    var bs := Blocks(t.node, cs);
    ChildrenDistinct(header, h, n);
    hide ChildrenUpTo;
    assert t.node[h] in t.number && t.number[t.node[h]] == h;
    forall c: nat
      ensures c in bs <==> c in t.number && IsChild(header, h, t.number[c])
    {
      if c in bs {
        var i :| 0 <= i < |bs| && bs[i] == c;
        ChildrenAre(header, h, n, cs[i]);
      }
      if c in t.number && IsChild(header, h, t.number[c]) {
        ChildrenAre(header, h, n, t.number[c]);
        var i :| 0 <= i < |cs| && cs[i] == t.number[c];
        assert bs[i] == c;
      }
    }
    assert Distinct(bs) by {
      forall i, j | 0 <= i < j < |bs|
        ensures bs[i] != bs[j]
      {
        assert t.number[bs[i]] == cs[i] && t.number[bs[j]] == cs[j];
      }
    }
  }

  /** The children of the headers, as blocks. */
  method CollectKids(la: LoopAnalysis, ord: seq<nat>, arrange: (nat, seq<nat>) -> seq<nat>) returns (kids: map<nat, seq<nat>>)
    requires la.Done() && Arranges(arrange) && Nested(la.header, la.forest) && forall i :: 0 <= i < |ord| ==> ord[i] in la.forest
    ensures forall i :: 0 <= i < |ord| ==> ord[i] < |la.node| && la.node[ord[i]] in kids && KidsOk(la.T(), la.header, la.node[ord[i]], kids[la.node[ord[i]]])
  {
    hide *;
    kids := map[];
    var i: nat := 0;
    ghost var t := la.T();
    DoneIs(la);
    while i < |ord|
      invariant i <= |ord| && forall j :: 0 <= j < i ==> ord[j] < |la.node| && la.node[ord[j]] in kids && KidsOk(t, la.header, la.node[ord[j]], kids[la.node[ord[j]]])
    {
      var h := ord[i];
      var cs := la.forest[h];
      KidsInRange(la.header, la.forest, h);
      var s := arrange(la.node[h], Blocks(la.node, cs));
      ArrangedAt(arrange, la.node[h], Blocks(la.node, cs));
      BlocksKids(t, la.header, la.kind, la.forest, h, s);
      kids := kids[la.node[h] := s];
      i := i + 1;
    }
  }

  lemma ArrangedAt(arrange: (nat, seq<nat>) -> seq<nat>, b: nat, s: seq<nat>)
    requires Arranges(arrange)
    ensures Rearranged(s, arrange(b, s))
  {
    hide Rearranged;
  }

  lemma KidsInRange(header: seq<nat>, forest: map<nat, seq<nat>>, h: nat)
    requires Nested(header, forest) && h in forest
    ensures h < |header| && forall i :: 0 <= i < |forest[h]| ==> forest[h][i] < |header|
  {
    hide ChildrenUpTo;
    assert Between(forest[h], h, |header|);
  }

  lemma DoneIs(la: LoopAnalysis)
    requires la.Done()
    ensures Truthful(la.T(), la.header, la.kind) && ForestUpTo(la.header, la.kind, |la.header|, la.roots, la.forest)
    ensures |la.header| == |la.node| == |la.kind| && la.T().node == la.node && la.T().g == la.g
  {
    hide LoopOk, ForestUpTo;
  }

  lemma OrderedIs(t: Tree, header: seq<nat>, kind: seq<NodeType>, ord: seq<nat>, kids: map<nat, seq<nat>>)
    requires Truthful(t, header, kind) && BottomUp(header, ord) && (forall x: nat :: x in ord <==> Heading(header, kind, x))
    requires forall i :: 0 <= i < |ord| ==> ord[i] < |t.node| && t.node[ord[i]] in kids && KidsOk(t, header, t.node[ord[i]], kids[t.node[ord[i]]])
    ensures Ordered(t, header, kind, Blocks(t.node, ord), kids)
  {
    var order := Blocks(t.node, ord);
    hide KidsOk, LoopOk, Heading, InLoop;
    assert forall i :: 0 <= i < |ord| ==> t.number[t.node[ord[i]]] == ord[i];
    forall b: nat
      ensures b in order <==> b in t.number && Heading(header, kind, t.number[b])
      ensures b in order ==> b in kids && KidsOk(t, header, b, kids[b])
    {
      if b in order {
        var i :| 0 <= i < |order| && order[i] == b;
        assert ord[i] in ord;
      }
      if b in t.number && Heading(header, kind, t.number[b]) {
        var i :| 0 <= i < |ord| && ord[i] == t.number[b];
        assert order[i] == b;
      }
    }
  }

  /** `Function::unroll`.  For a function without irreducible loops, no cycle is left if
      and only if no block jumps to itself that is in another loop and has no other
      blocks in its own. */
  method UnrollFunction(f: U.Unroller, arrange: (nat, seq<nat>) -> seq<nat>, k: nat, sink: nat) returns (ghost gs: seq<Graph>, ghost steps: seq<F.Step>)
    requires Valid(f.g) && (forall b: nat :: !Edge(f.g, b, 0)) && sink < |f.g| && f.g[sink] == [] && Arranges(arrange)
    modifies f
    ensures k == 0 ==> f.g == old(f.g)
    ensures k > 0 ==> F.Steps(gs, steps, k, sink) && gs[0] == old(f.g) && gs[|steps|] == f.g
    ensures k > 0 && NaturalCycles(old(f.g)) ==> ((forall q :: !F.Cycle(f.g, q)) <==> forall b: nat :: !NestedSelfJump(old(f.g), b))
  {
    hide *;
    gs, steps := [f.g], [];
    if k == 0 {
      return;
    }
    var la := new LoopAnalysis(f.g);
    DoneIs(la);
    ghost var t, g := la.T(), f.g;
    OrderIs(t, la.header, la.kind, la.roots, la.forest);
    ReadyToOrder(t, la.header, la.kind, la.roots, la.forest);
    var ord := PostOrder(la.roots, la.forest, |la.header|);
    OrderInForest(la.header, la.forest, ord);
    var kids := CollectKids(la, ord, arrange);
    OrderedIs(t, la.header, la.kind, ord, kids);
    var order := Blocks(la.node, ord);
    ForestHolds(t, la.header, la.kind, order, kids, sink);
    gs, steps := F.UnrollAll(f, order, kids, Nests(t, la.header, order), k, sink);
    if NaturalCycles(g) {
      CyclesLeftIff(t, la.header, la.kind, order, kids, gs, steps, k, sink);
    }
  }

  lemma OrderInForest(header: seq<nat>, forest: map<nat, seq<nat>>, ord: seq<nat>)
    requires forall x: nat :: x in ord ==> x in forest
    requires Nested(header, forest)
    ensures forall i :: 0 <= i < |ord| ==> ord[i] in forest && ord[i] < |header|
  {
    assert forall i :: 0 <= i < |ord| ==> ord[i] in ord;
  }

  lemma ReadyToOrder(t: Tree, header: seq<nat>, kind: seq<NodeType>, roots: seq<nat>, forest: map<nat, seq<nat>>)
    requires Truthful(t, header, kind) && ForestUpTo(header, kind, |header|, roots, forest)
    ensures HeadersOk(header) && |header| > 0 && Rising(forest, |header|) && forall r :: r in roots ==> r in forest && r < |header|
  {
    ForestIsNested(header, kind, roots, forest);
    hide ChildrenUpTo;
    forall r | r in roots
      ensures r in forest && r < |header|
    {
      RootsAre(header, kind, |header|, r);
    }
  }

  // ----- a function that keeps a cycle ----------------------------------------

  /** The entry, an outer loop of blocks 1 and 2, of which block 2 also jumps to itself, an
      exit, and the sink. */
  function InnerSelfJump(): Graph {
    [[1], [2, 3], [2, 1], [], []]
  }

  lemma InnerEdges(a: nat, b: nat)
    ensures Edge(InnerSelfJump(), a, b) <==> (a == 0 && b == 1) || (a == 1 && (b == 2 || b == 3)) || (a == 2 && (b == 2 || b == 1))
  {
  }

  /** Cycles are made up of blocks 1 and 2. */
  lemma InnerCycles(p: seq<nat>, x: nat)
    requires F.Cycle(InnerSelfJump(), p) && x in p
    ensures x == 1 || x == 2
  {
    var i: nat :| i < |p| && p[i] == x;
    var n := |p| - 1;
    var j: nat := if i == 0 then n - 1 else i - 1;
    assert Edge(InnerSelfJump(), p[j], p[j + 1]) && p[j + 1] == x;
    InnerEdges(p[j], x);
    var l: nat := if i == n then 0 else i;
    assert Edge(InnerSelfJump(), p[l], p[l + 1]) && p[l] == x;
    InnerEdges(x, p[l + 1]);
  }

  lemma OuterDominates(x: nat)
    requires x == 1 || x == 2
    ensures Dominates(InnerSelfJump(), 1, x) && Reachable(InnerSelfJump(), 0, x)
  {
    var g := InnerSelfJump();
    assert PathFromTo(g, [0, 1], 0, 1) && PathFromTo(g, [0, 1, 2], 0, 2);
    forall p | PathFromTo(g, p, 0, x)
      ensures 1 in p
    {
      FirstEdge(g, p);
      InnerEdges(p[0], p[1]);
    }
  }

  lemma InnerIsNatural()
    ensures NaturalCycles(InnerSelfJump())
  {
    var g := InnerSelfJump();
    OuterDominates(1);
    OuterDominates(2);
    hide InnerSelfJump;
    forall p | F.Cycle(g, p)
      ensures exists h: nat :: HeadOf(g, h, p)
    {
      assert p[0] in p;
      forall x | x in p
        ensures x == 1 || x == 2
      {
        InnerCycles(p, x);
      }
      if 1 in p {
        assert HeadOf(g, 1, p);
      } else {
        assert forall q :: PathFromTo(g, q, 0, 2) ==> q[|q| - 1] in q;
        assert HeadOf(g, 2, p);
      }
    }
  }

  lemma InnerIsNested()
    ensures NestedSelfJump(InnerSelfJump(), 2)
  {
    var g := InnerSelfJump();
    OuterDominates(1);
    OuterDominates(2);
    assert F.Cycle(g, [1, 2, 1]) && HeadOf(g, 1, [1, 2, 1]);
    assert Heads(g, 1, 2);
    InnerNotAround();
    forall u: nat | u != 2
      ensures !Heads(g, 2, u)
    {
      if Heads(g, 2, u) {
        var p :| F.Cycle(g, p) && u in p && HeadOf(g, 2, p);
        InnerCycles(p, u);
      }
    }
  }

  lemma InnerNotAround()
    ensures !Dominates(InnerSelfJump(), 2, 1)
  {
    var p := [0, 1];
    assert PathFromTo(InnerSelfJump(), p, 0, 1) && 2 !in p;
  }

  /** However often the loops are unrolled, the inner jump stays as it is. */
  method UnrollInner(arrange: (nat, seq<nat>) -> seq<nat>, k: nat) returns (f: U.Unroller)
    requires Arranges(arrange)
    ensures exists q :: F.Cycle(f.g, q)
  {
    f := new U.Unroller(InnerSelfJump());
    ghost var g := f.g;
    assert Valid(f.g);
    forall b: nat
      ensures !Edge(f.g, b, 0)
    {
      InnerEdges(b, 0);
    }
    InnerIsNatural();
    InnerIsNested();
    assert F.Cycle(g, [2, 2]);
    hide NaturalCycles, NestedSelfJump, F.Cycle, Arranges;
    ghost var gs, steps := UnrollFunction(f, arrange, k, 4);
  }
}
