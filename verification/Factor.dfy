/** Conjunction sets and the factoring of their common conjuncts: `AndExpr` and
    `DisjointExpr<AndExpr>::factor` (smt/exprs.cpp).  A set of conditions is a list
    sorted by expression id; any injective numbering will do. */
module Factor {
  import opened Terms
  import opened Guarded

  type Ids = Cond -> int

  ghost predicate Injective(id: Ids) {
    forall x, y :: id(x) == id(y) ==> x == y
  }

  ghost predicate Sorted(s: seq<Cond>, id: Ids) {
    forall i, j :: 0 <= i < j < |s| ==> id(s[i]) < id(s[j])
  }

  ghost predicate HoldsAll(s: seq<Cond>, v: Valuation) {
    forall i :: 0 <= i < |s| ==> Holds(s[i], v)
  }

  // ----- AndExpr -------------------------------------------------------------

  function Insert(s: seq<Cond>, e: Cond, id: Ids): seq<Cond> {
    if s == [] || id(e) < id(s[0]) then [e] + s
    else if s[0] == e then s
    else [s[0]] + Insert(s[1..], e, id)
  }

  /** `AndExpr::add`: conjunctions are split, up to a nesting limit. */
  function AndAdd(s: seq<Cond>, e: Cond, limit: nat, id: Ids): seq<Cond>
    decreases limit
  {
    if e == True then s
    else if limit > 0 && e.And? then AndAdd(AndAdd(s, e.a, limit - 1, id), e.b, limit - 1, id)
    else Insert(s, e, id)
  }

  /** `expr::mk_and` over a set. */
  function MkAndAll(s: seq<Cond>): Cond {
    if s == [] then True else MkAnd(MkAndAll(s[..|s| - 1]), s[|s| - 1])
  }

  lemma SortedCons(x: Cond, r: seq<Cond>, id: Ids)
    requires Sorted(r, id) && forall y :: y in r ==> id(x) < id(y)
    ensures Sorted([x] + r, id)
  {
  }

  lemma SortedHead(s: seq<Cond>, id: Ids)
    requires Sorted(s, id) && s != []
    ensures Sorted(s[1..], id) && forall y :: y in s[1..] ==> id(s[0]) < id(y)
    ensures forall x :: x in s <==> x == s[0] || x in s[1..]
  {
  }

  lemma {:induction false} InsertMembers(s: seq<Cond>, e: Cond, id: Ids)
    requires Injective(id) && Sorted(s, id)
    ensures Sorted(Insert(s, e, id), id)
    ensures forall x :: x in Insert(s, e, id) <==> x in s || x == e
  {
    if s != [] {
      SortedHead(s, id);
      hide Sorted;
      if id(s[0]) < id(e) {
        InsertMembers(s[1..], e, id);
        SortedCons(s[0], Insert(s[1..], e, id), id);
      } else if s[0] != e {
        SortedCons(e, s, id);
      }
    }
  }

  /** What `add` does to the meaning, and that the list stays a set. */
  lemma {:induction false} AndAddMeans(s: seq<Cond>, e: Cond, limit: nat, id: Ids, v: Valuation)
    requires Injective(id) && Sorted(s, id)
    ensures Sorted(AndAdd(s, e, limit, id), id)
    ensures HoldsAll(AndAdd(s, e, limit, id), v) <==> HoldsAll(s, v) && Holds(e, v)
    decreases limit
  {
    if e != True {
      if limit > 0 && e.And? {
        AndAddMeans(s, e.a, limit - 1, id, v);
        AndAddMeans(AndAdd(s, e.a, limit - 1, id), e.b, limit - 1, id, v);
      } else {
        InsertMembers(s, e, id);
        HoldsAllMembers(s, v);
        HoldsAllMembers(Insert(s, e, id), v);
      }
    }
  }

  /** How deep conjunctions are nested in each other. */
  function Nesting(e: Cond): nat {
    if !e.And? then 0 else 1 + (if Nesting(e.a) < Nesting(e.b) then Nesting(e.b) else Nesting(e.a))
  }

  /** Within the limit, what is added is neither a conjunction nor the constant. */
  lemma {:induction false} AndAddSplits(s: seq<Cond>, e: Cond, limit: nat, id: Ids)
    requires Injective(id) && Sorted(s, id) && Nesting(e) <= limit
    ensures forall x :: x in AndAdd(s, e, limit, id) ==> x in s || (!x.And? && x != True)
    ensures forall x :: x in s ==> x in AndAdd(s, e, limit, id)
    decreases limit
  {
    if e != True {
      if e.And? {
        AndAddMeans(s, e.a, limit - 1, id, NO_VALUES);
        AndAddSplits(s, e.a, limit - 1, id);
        AndAddSplits(AndAdd(s, e.a, limit - 1, id), e.b, limit - 1, id);
      } else {
        InsertMembers(s, e, id);
      }
    }
  }

  const NO_VALUES := Valuation(_ => [], _ => true, (_, _, _) => [], (_, _) => [])

  lemma HoldsAllMembers(s: seq<Cond>, v: Valuation)
    ensures HoldsAll(s, v) <==> forall x :: x in s ==> Holds(x, v)
  {
    if forall x :: x in s ==> Holds(x, v) {
      assert forall i :: 0 <= i < |s| ==> s[i] in s;
    }
  }

  lemma {:induction false} MkAndAllMeans(s: seq<Cond>, v: Valuation)
    ensures Holds(MkAndAll(s), v) <==> HoldsAll(s, v)
  {
    if s != [] {
      var r := s[..|s| - 1];
      MkAndAllMeans(r, v);
      AndMeans(MkAndAll(r), s[|s| - 1], v);
      assert s == r + [s[|s| - 1]];
    }
  }

  lemma HoldsAllAppend(a: seq<Cond>, b: seq<Cond>, v: Valuation)
    ensures HoldsAll(a + b, v) <==> HoldsAll(a, v) && HoldsAll(b, v)
  {
    hide Holds;
    if HoldsAll(a + b, v) {
      assert forall i :: 0 <= i < |a| ==> (a + b)[i] == a[i];
      assert forall i :: 0 <= i < |b| ==> (a + b)[|a| + i] == b[i];
    }
  }

  lemma HoldsOne(c: Cond, v: Valuation)
    ensures HoldsAll([c], v) <==> Holds(c, v)
  {
    assert [c][0] == c;
  }

  // ----- collapsing a guarded list of conditions -------------------------------

  function CollapseAll(d: Disj<Cond>): Cond {
    Collapsed(d, False, MkIfC)
  }

  lemma CollapsedIsChosen(d: Disj<Cond>, v: Valuation, x: Cond)
    requires Exclusive(d, v) && Selects(d, v, x)
    ensures Holds(CollapseAll(d), v) <==> Holds(x, v)
  {
    var val := c => Holds(c, v);
    forall c, t, e
      ensures val(MkIfC(c, t, e)) == if Holds(c, v) then val(t) else val(e)
    {
      IfCMeans(c, t, e, v);
    }
    hide Holds, MkIfC;
    CollapsedMeans(d, False, MkIfC, val, v, x);
  }

  // ----- factoring -----------------------------------------------------------

  /** `x` is in every set. */
  ghost predicate InAll(sets: seq<seq<Cond>>, x: Cond) {
    forall i :: 0 <= i < |sets| ==> x in sets[i]
  }

  /** The iterators: nothing that they have passed is common to all sets. */
  ghost predicate Passed(sets: seq<seq<Cond>>, its: seq<nat>) {
    && |its| == |sets|
    && (forall i :: 0 <= i < |sets| ==> its[i] <= |sets[i]|)
    && (forall i, j :: 0 <= i < |sets| && 0 <= j < its[i] ==> !InAll(sets, sets[i][j]))
  }

  /** The sets, together with the conjuncts taken out, are the original ones. */
  ghost predicate Split(orig: seq<seq<Cond>>, sets: seq<seq<Cond>>, common: seq<Cond>, id: Ids) {
    && |sets| == |orig|
    && (forall i :: 0 <= i < |sets| ==> Sorted(sets[i], id))
    && (forall i, x :: 0 <= i < |sets| ==> (x in orig[i] <==> x in sets[i] || x in common))
  }

  /** A common element lies where no iterator has passed yet. */
  lemma CommonIsAhead(sets: seq<seq<Cond>>, its: seq<nat>, i: nat, x: Cond, id: Ids)
    requires Passed(sets, its) && i < |sets| && Sorted(sets[i], id) && InAll(sets, x)
    ensures its[i] < |sets[i]| && id(sets[i][its[i]]) <= id(x)
  {
    var j :| 0 <= j < |sets[i]| && sets[i][j] == x;
    assert j >= its[i];
  }

  function Lengths(sets: seq<seq<Cond>>, its: seq<nat>): int
    requires |its| == |sets|
  {
    if sets == [] then 0 else |sets[0]| - its[0] + Lengths(sets[1..], its[1..])
  }

  lemma {:induction false} LengthsStep(sets: seq<seq<Cond>>, its: seq<nat>, i: nat)
    requires |its| == |sets| && i < |sets|
    ensures Lengths(sets, its[i := its[i] + 1]) == Lengths(sets, its) - 1
  {
    if i > 0 {
      assert its[i := its[i] + 1][1..] == its[1..][i - 1 := its[1..][i - 1] + 1];
      LengthsStep(sets[1..], its[1..], i - 1);
    } else {
      assert its[i := its[i] + 1][1..] == its[1..];
    }
  }

  lemma {:induction false} LengthsNonNegative(sets: seq<seq<Cond>>, its: seq<nat>)
    requires |its| == |sets| && forall i :: 0 <= i < |sets| ==> its[i] <= |sets[i]|
    ensures Lengths(sets, its) >= 0
  {
    if sets != [] {
      LengthsNonNegative(sets[1..], its[1..]);
    }
  }

  datatype Outcome = Exhausted | Skip | Common

  /** Compares the element under the first iterator with the other sets. */
  method Compare(sets: seq<seq<Cond>>, its0: seq<nat>, id: Ids) returns (its: seq<nat>, out: Outcome)
    requires |sets| > 0 && Passed(sets, its0) && its0[0] < |sets[0]|
    requires Injective(id) && forall i :: 0 <= i < |sets| ==> Sorted(sets[i], id)
    ensures Passed(sets, its) && Lengths(sets, its) <= Lengths(sets, its0)
    ensures out == Exhausted ==> forall x :: !InAll(sets, x)
    ensures out == Skip ==> Lengths(sets, its) < Lengths(sets, its0)
    ensures out == Common ==> forall i :: 0 <= i < |sets| ==> its[i] < |sets[i]| && sets[i][its[i]] == sets[0][its0[0]]
  {
    its := its0;
    var e0 := sets[0][its0[0]];
    var i := 1;
    while i < |sets|
      invariant 1 <= i <= |sets| && Passed(sets, its) && its[0] == its0[0]
      invariant Lengths(sets, its) <= Lengths(sets, its0)
      invariant forall l :: 0 <= l < i ==> its[l] < |sets[l]| && sets[l][its[l]] == e0
      decreases Lengths(sets, its), |sets| - i
    {
      LengthsNonNegative(sets, its);
      if its[i] == |sets[i]| {
        forall x
          ensures !InAll(sets, x)
        {
          if InAll(sets, x) {
            CommonIsAhead(sets, its, i, x, id);
          }
        }
        return its, Exhausted;
      }
      var e := sets[i][its[i]];
      if id(e) < id(e0) {
        PassedStep(sets, its, i, 0, id);
        LengthsStep(sets, its, i);
        its := its[i := its[i] + 1];
        LengthsNonNegative(sets, its);
      } else if id(e) > id(e0) {
        PassedStep(sets, its, 0, i, id);
        LengthsStep(sets, its, 0);
        return its[0 := its[0] + 1], Skip;
      } else {
        i := i + 1;
      }
    }
    out := Common;
  }

  /** An iterator may move past an element smaller than another iterator's. */
  lemma PassedStep(sets: seq<seq<Cond>>, its: seq<nat>, i: nat, j: nat, id: Ids)
    requires Passed(sets, its) && i < |sets| && j < |sets| && its[i] < |sets[i]| && its[j] < |sets[j]|
    requires Sorted(sets[i], id) && Sorted(sets[j], id) && id(sets[i][its[i]]) < id(sets[j][its[j]])
    ensures Passed(sets, its[i := its[i] + 1])
  {
    if InAll(sets, sets[i][its[i]]) {
      CommonIsAhead(sets, its, j, sets[i][its[i]], id);
    }
  }

  function EraseAt(s: seq<Cond>, i: nat): seq<Cond> {
    if i < |s| then s[..i] + s[i + 1..] else s
  }

  /** Takes the element under each iterator out of its set. */
  function EraseAll(sets: seq<seq<Cond>>, its: seq<nat>): (r: seq<seq<Cond>>)
    requires |its| == |sets|
    ensures |r| == |sets|
  {
    seq(|sets|, i requires 0 <= i < |sets| => EraseAt(sets[i], its[i]))
  }

  lemma EraseMembers(s: seq<Cond>, i: nat, id: Ids)
    requires Sorted(s, id) && i < |s|
    ensures Sorted(EraseAt(s, i), id) && forall x :: x in EraseAt(s, i) <==> x in s && x != s[i]
    ensures |EraseAt(s, i)| == |s| - 1 && EraseAt(s, i)[..i] == s[..i]
  {
    var r := EraseAt(s, i);
    assert forall j :: 0 <= j < |r| ==> r[j] == if j < i then s[j] else s[j + 1];
    forall x | x in s && x != s[i]
      ensures x in r
    {
      var j :| 0 <= j < |s| && s[j] == x;
      assert r[if j < i then j else j - 1] == x;
    }
  }

  lemma EraseEach(sets: seq<seq<Cond>>, its: seq<nat>, e: Cond, id: Ids, i: nat)
    requires |its| == |sets| && i < |sets| && Sorted(sets[i], id) && its[i] < |sets[i]| && sets[i][its[i]] == e
    ensures var r := EraseAll(sets, its)[i];
      Sorted(r, id) && |r| == |sets[i]| - 1 && r[..its[i]] == sets[i][..its[i]] && forall x :: x in r <==> x in sets[i] && x != e
  {
    EraseMembers(sets[i], its[i], id);
  }

  lemma ErasePassed(sets: seq<seq<Cond>>, its: seq<nat>, e: Cond, id: Ids)
    requires Passed(sets, its) && forall i :: 0 <= i < |sets| ==> Sorted(sets[i], id)
    requires forall i :: 0 <= i < |sets| ==> its[i] < |sets[i]| && sets[i][its[i]] == e
    ensures Passed(EraseAll(sets, its), its)
  {
    var sets' := EraseAll(sets, its);
    forall i: nat | i < |sets|
      ensures its[i] <= |sets'[i]|
    {
      EraseEach(sets, its, e, id, i);
    }
    forall i: nat, j: nat | i < |sets'| && j < its[i]
      ensures !InAll(sets', sets'[i][j])
    {
      EraseEach(sets, its, e, id, i);
      assert sets'[i][j] == sets'[i][..its[i]][j] == sets[i][j];
      assert !InAll(sets, sets[i][j]);
      var l: nat :| l < |sets| && sets[i][j] !in sets[l];
      EraseEach(sets, its, e, id, l);
    }
  }

  lemma EraseKeeps(orig: seq<seq<Cond>>, sets: seq<seq<Cond>>, its: seq<nat>, common: seq<Cond>, e: Cond, id: Ids)
    requires |sets| > 0 && Split(orig, sets, common, id) && Passed(sets, its)
    requires forall i :: 0 <= i < |sets| ==> its[i] < |sets[i]| && sets[i][its[i]] == e
    ensures Split(orig, EraseAll(sets, its), common + [e], id)
    ensures Passed(EraseAll(sets, its), its)
  {
    ErasePassed(sets, its, e, id);
    var sets' := EraseAll(sets, its);
    forall i: nat | i < |sets|
      ensures Sorted(sets'[i], id) && forall x :: x in orig[i] <==> x in sets'[i] || x in common + [e]
    {
      EraseEach(sets, its, e, id, i);
      assert sets[i][its[i]] in sets[i] && sets'[i] == EraseAll(sets, its)[i];
      assert forall x :: x in orig[i] <==> x in sets[i] || x in common;
      assert forall x :: x in common + [e] <==> x in common || x == e;
    }
  }

  lemma {:induction false} EraseShrinks(sets: seq<seq<Cond>>, its: seq<nat>)
    requires |its| == |sets| && forall i :: 0 <= i < |sets| ==> its[i] < |sets[i]|
    ensures Lengths(EraseAll(sets, its), its) == Lengths(sets, its) - |sets|
  {
    if sets != [] {
      EraseShrinks(sets[1..], its[1..]);
      assert EraseAll(sets, its)[1..] == EraseAll(sets[1..], its[1..]);
    }
  }

  /** The intersection of all sets is taken out of them: nothing common remains. */
  method TakeCommon(orig: seq<seq<Cond>>, id: Ids) returns (common: seq<Cond>, sets: seq<seq<Cond>>)
    requires |orig| > 0 && Injective(id) && forall i :: 0 <= i < |orig| ==> Sorted(orig[i], id)
    ensures Split(orig, sets, common, id)
    ensures forall x :: !InAll(sets, x)
    ensures forall x :: x in common <==> InAll(orig, x)
  {
    common, sets := [], orig;
    var its := seq(|orig|, _ => 0);
    while its[0] != |sets[0]|
      invariant |sets| == |orig| && Split(orig, sets, common, id) && Passed(sets, its)
      decreases Lengths(sets, its)
    {
      hide Lengths, EraseAll, Passed, Split, InAll;
      StepBounds(orig, sets, its, common, id);
      var out;
      its, out := Compare(sets, its, id);
      StepBounds(orig, sets, its, common, id);
      match out
      case Exhausted => break;
      case Skip =>
      case Common =>
        var e0 := sets[0][its[0]];
        EraseKeeps(orig, sets, its, common, e0, id);
        EraseShrinks(sets, its);
        common := common + [e0];
        sets := EraseAll(sets, its);
        StepBounds(orig, sets, its, common, id);
    }
    forall x
      ensures !InAll(sets, x)
    {
      if InAll(sets, x) {
        CommonIsAhead(sets, its, 0, x, id);
      }
    }
    CommonIsIntersection(orig, sets, common, id);
  }

  lemma StepBounds(orig: seq<seq<Cond>>, sets: seq<seq<Cond>>, its: seq<nat>, common: seq<Cond>, id: Ids)
    requires Split(orig, sets, common, id) && Passed(sets, its)
    ensures |sets| == |orig| == |its| && Lengths(sets, its) >= 0
    ensures forall i :: 0 <= i < |sets| ==> Sorted(sets[i], id) && its[i] <= |sets[i]|
  {
    LengthsNonNegative(sets, its);
  }

  lemma CommonIsIntersection(orig: seq<seq<Cond>>, sets: seq<seq<Cond>>, common: seq<Cond>, id: Ids)
    requires |orig| > 0 && Split(orig, sets, common, id) && forall x :: !InAll(sets, x)
    ensures forall x :: x in common <==> InAll(orig, x)
  {
    forall x | InAll(orig, x)
      ensures x in common
    {
      assert !InAll(sets, x);
      var i: nat :| i < |sets| && x !in sets[i];
      assert x in orig[i];
    }
    forall x | x in common
      ensures InAll(orig, x)
    {
      assert forall i: nat :: i < |sets| ==> x in orig[i];
    }
  }

  // ----- the factored conjunction --------------------------------------------

  ghost function Sets(vals: Disj<seq<Cond>>): seq<seq<Cond>> {
    seq(|vals|, i requires 0 <= i < |vals| => vals[i].0)
  }

  /** The map's own invariant, and sorted sets as values. */
  ghost predicate Domains(vals: Disj<seq<Cond>>, id: Ids) {
    vals != [] && forall i :: 0 <= i < |vals| ==> Sorted(vals[i].0, id) && vals[i].1 != False
  }

  /** The leftovers so far: guarded conjunctions of what is left of each set. */
  ghost predicate Leftovers(vals: Disj<seq<Cond>>, sets: seq<seq<Cond>>, n: nat, d: Disj<Cond>, v: Valuation)
    requires n <= |vals| == |sets|
  {
    Exclusive(vals, v) ==>
      && Exclusive(d, v)
      && (Covered(d, v) <==> exists k: nat :: k < n && Chosen(vals, v, k))
      && forall x :: Selects(d, v, x) ==> exists k: nat :: k < n && Chosen(vals, v, k) && x == MkAndAll(sets[k])
  }

  lemma LeftoverStep(vals: Disj<seq<Cond>>, sets: seq<seq<Cond>>, n: nat, d: Disj<Cond>, v: Valuation)
    requires n < |vals| == |sets| && Leftovers(vals, sets, n, d, v)
    ensures Leftovers(vals, sets, n + 1, AddGuarded(d, MkAndAll(sets[n]), vals[n].1), v)
  {
    if Exclusive(vals, v) {
      if Holds(vals[n].1, v) {
        assert Chosen(vals, v, n);
      }
      AddMeans(d, MkAndAll(sets[n]), vals[n].1, v);
    }
  }

  lemma {:induction false} SplitMeans(orig: seq<seq<Cond>>, sets: seq<seq<Cond>>, common: seq<Cond>, id: Ids, i: nat, v: Valuation)
    requires Split(orig, sets, common, id) && i < |sets|
    ensures HoldsAll(orig[i], v) <==> HoldsAll(common, v) && HoldsAll(sets[i], v)
  {
    HoldsAllMembers(orig[i], v);
    HoldsAllMembers(common, v);
    HoldsAllMembers(sets[i], v);
  }

  /** The chosen leftover is the rest of the chosen set. */
  lemma LeftoverMeans(vals: Disj<seq<Cond>>, sets: seq<seq<Cond>>, d: Disj<Cond>, v: Valuation, k: nat)
    requires |vals| == |sets| && Leftovers(vals, sets, |vals|, d, v) && Exclusive(vals, v) && Chosen(vals, v, k)
    ensures d != [] && Exclusive(d, v) && Selects(d, v, MkAndAll(sets[k]))
  {
    assert Covered(d, v);
    var i: nat :| Chosen(d, v, i);
    assert Selects(d, v, d[i].0);
  }

  /** `factor`: exact whenever one domain holds, and maximal. */
  method FactorDomains(vals: Disj<seq<Cond>>, id: Ids) returns (ret: seq<Cond>, ghost common: seq<Cond>, ghost rest: seq<seq<Cond>>)
    requires Injective(id) && Domains(vals, id)
    ensures Sorted(ret, id)
    ensures forall v, s :: Exclusive(vals, v) && Selects(vals, v, s) ==> (HoldsAll(ret, v) <==> HoldsAll(s, v))
    ensures |vals| > 1 ==> Split(Sets(vals), rest, common, id) && forall x :: !InAll(rest, x)
  {
    if |vals| == 1 {
      return vals[0].0, [], [];
    }
    var taken, sets := TakeCommon(seq(|vals|, i requires 0 <= i < |vals| => vals[i].0), id);
    common, rest := taken, sets;
    ret := AddEach(taken, id);
    var leftovers: Disj<Cond> := [];
    var n := 0;
    while n < |vals|
      invariant n <= |vals| && forall v :: Leftovers(vals, sets, n, leftovers, v)
      invariant n > 0 ==> leftovers != []
    {
      var next := AddGuarded(leftovers, MkAndAll(sets[n]), vals[n].1);
      var n' := n + 1;
      forall v
        ensures Leftovers(vals, sets, n', next, v)
      {
        LeftoverStep(vals, sets, n, leftovers, v);
      }
      leftovers, n := next, n';
    }
    var rest0 := CollapseAll(leftovers);
    ghost var before := ret;
    ret := AndAdd(ret, rest0, 16, id);
    forall v, s | Exclusive(vals, v) && Selects(vals, v, s)
      ensures HoldsAll(ret, v) <==> HoldsAll(s, v)
    {
      FactorMeans(vals, sets, taken, before, leftovers, id, v, s);
    }
    AnyAddSorted(before, rest0, id);
  }

  method AddEach(es: seq<Cond>, id: Ids) returns (r: seq<Cond>)
    requires Injective(id)
    ensures Sorted(r, id) && forall v :: HoldsAll(r, v) <==> HoldsAll(es, v)
  {
    r := [];
    var i := 0;
    while i < |es|
      invariant i <= |es| && Sorted(r, id) && forall v :: HoldsAll(r, v) <==> HoldsAll(es[..i], v)
    {
      hide HoldsAll, AndAdd;
      ghost var r' := AndAdd(r, es[i], 16, id);
      forall v
        ensures HoldsAll(r', v) <==> HoldsAll(es[..i + 1], v)
      {
        AndAddMeans(r, es[i], 16, id, v);
        HoldsAllStep(es, i, v);
      }
      AnyAddSorted(r, es[i], id);
      r := AndAdd(r, es[i], 16, id);
      i := i + 1;
    }
    assert es[..i] == es;
  }

  lemma HoldsAllStep(es: seq<Cond>, i: nat, v: Valuation)
    requires i < |es|
    ensures HoldsAll(es[..i + 1], v) <==> HoldsAll(es[..i], v) && Holds(es[i], v)
  {
    assert es[..i + 1] == es[..i] + [es[i]];
  }

  lemma AnyAddSorted(s: seq<Cond>, e: Cond, id: Ids)
    requires Injective(id) && Sorted(s, id)
    ensures Sorted(AndAdd(s, e, 16, id), id)
  {
    AndAddMeans(s, e, 16, id, Valuation(_ => [], _ => true, (_, _, _) => [], (_, _) => []));
  }

  lemma FactorMeans(vals: Disj<seq<Cond>>, sets: seq<seq<Cond>>, common: seq<Cond>, taken: seq<Cond>, leftovers: Disj<Cond>, id: Ids,
                    v: Valuation, s: seq<Cond>)
    requires Injective(id) && Sorted(taken, id) && (HoldsAll(taken, v) <==> HoldsAll(common, v))
    requires |sets| == |vals| && Split(Sets(vals), sets, common, id) && Leftovers(vals, sets, |vals|, leftovers, v)
    requires Exclusive(vals, v) && Selects(vals, v, s) && leftovers != []
    ensures HoldsAll(AndAdd(taken, CollapseAll(leftovers), 16, id), v) <==> HoldsAll(s, v)
  {
    var k: nat :| Chosen(vals, v, k) && vals[k].0 == s;
    LeftoverMeans(vals, sets, leftovers, v, k);
    var x := MkAndAll(sets[k]);
    CollapsedIsChosen(leftovers, v, x);
    if leftovers[0].1 == True {
      assert Chosen(leftovers, v, 0);
    }
    MkAndAllMeans(sets[k], v);
    SplitMeans(Sets(vals), sets, common, id, k, v);
    AndAddMeans(taken, CollapseAll(leftovers), 16, id, v);
  }
}
