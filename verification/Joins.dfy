/** What a block takes over from the edges that lead to it: phis (ir/instr.cpp) and the
    merge in `State::startBB` (ir/state.cpp). */
module Joins {
  import opened Terms
  import opened Guarded
  import opened Factor
  import opened Execution
  import opened SymExec

  // ----- phis ----------------------------------------------------------------

  ghost predicate DistinctVals<T(!new)>(d: Disj<T>) {
    forall i, j :: 0 <= i < j < |d| ==> d[i].0 != d[j].0
  }

  /** Adding a value that may already be the chosen one. */
  lemma AddSame<T(!new)>(d: Disj<T>, val: T, dom: Cond, v: Valuation)
    requires DistinctVals(d) && Exclusive(d, v) && (Holds(dom, v) && Covered(d, v) ==> Selects(d, v, val))
    ensures var r := AddGuarded(d, val, dom);
      && DistinctVals(r) && Exclusive(r, v) && (Covered(r, v) <==> Covered(d, v) || Holds(dom, v))
      && forall x :: Selects(r, v, x) <==> Selects(d, v, x) || (x == val && Holds(dom, v))
  {
    if Covered(d, v) && Holds(dom, v) {
      ConstantsMean(v);
      hide Holds, Eval, MkOr;
      var k: nat :| Chosen(d, v, k) && d[k].0 == val;
      var r := AddGuarded(d, val, dom);
      var d0 := if dom == True then [] else d;
      var i := IndexOf(d0, val);
      if dom != True {
        assert i == k;
        OrMeans(d[k].1, dom, v);
      }
      assert Chosen(r, v, i) && r[i].0 == val;
      forall j: nat | Chosen(r, v, j)
        ensures j == i
      {
        assert j == i || Chosen(d, v, j);
      }
    } else {
      AddMeans(d, val, dom, v);
      AddKeepsDistinct(d, val, dom);
    }
  }

  lemma AddKeepsDistinct<T(!new)>(d: Disj<T>, val: T, dom: Cond)
    requires DistinctVals(d)
    ensures DistinctVals(AddGuarded(d, val, dom))
  {
  }

  /** Where the path condition holds, the run came in by a recorded edge. */
  ghost predicate Entered(p: Program, v: Valuation, path: Cond, edges: Edges, b: nat) {
    Holds(path, v) && b > 0 ==>
      var a := Arrive(p, v, b);
      a.Arrived? && Recorded(edges, a.pred, b) && On(edges[b][a.pred], v)
  }

  /** The guarded values after the first `k` sources of a phi. */
  ghost predicate PhiSoFar(p: Program, v: Valuation, path: Cond, values: map<nat, Term>, b: nat, sources: seq<(nat, nat)>, d: Disj<Term>, k: nat) {
    Holds(path, v) ==>
      var r := Arrive(p, v, b);
      && r.Arrived? && Exclusive(d, v) && (SourceOf(sources, r.pred) < k ==> Covered(d, v))
      && var s := SourceOf(sources, r.pred);
      forall x :: Selects(d, v, x) ==> s < |sources| && x == Val(values, sources[s].0)
  }

  function EdgeCond(edges: Edges, a: nat, b: nat): Cond {
    if b in edges && a in edges[b] then MkOrAll(edges[b][a].path) else False
  }

  lemma EdgeCondMeans(p: Program, v: Valuation, values: map<nat, Term>, edges: Edges, n: nat, a: nat, b: nat)
    requires EdgesMean(p, v, values, edges, n) && |p.blocks| > 0 && 0 < b < |p.blocks|
    ensures Holds(EdgeCond(edges, a, b), v) <==> Recorded(edges, a, b) && On(edges[b][a], v)
    ensures Recorded(edges, a, b) && On(edges[b][a], v) ==> Arrive(p, v, b).Arrived? && Arrive(p, v, b).pred == a
  {
    ConstantsMean(v);
    hide Goes, Agree, Holds, Exclusive, Covered, Selects;
    if Recorded(edges, a, b) {
      assert EdgeMeans(p, v, values, edges[b][a], a, b);
      MkOrAllMeans(edges[b][a].path, v);
      ArriveIffGoes(p, v, a, b);
    }
  }

  lemma PhiStep(p: Program, v: Valuation, path: Cond, values: map<nat, Term>, edges: Edges, b: nat, sources: seq<(nat, nat)>, d: Disj<Term>, k: nat)
    requires |p.blocks| > 0 && 0 < b < |p.blocks| && EdgesMean(p, v, values, edges, b) && Entered(p, v, path, edges, b)
    requires PhiOk(sources) && k < |sources| && DistinctVals(d) && PhiSoFar(p, v, path, values, b, sources, d, k)
    ensures PhiSoFar(p, v, path, values, b, sources, AddGuarded(d, Val(values, sources[k].0), EdgeCond(edges, sources[k].1, b)), k + 1)
  {
    if Holds(path, v) {
      var (x, q) := sources[k];
      var a := Arrive(p, v, b).pred;
      EdgeCondMeans(p, v, values, edges, b, q, b);
      assert Recorded(edges, a, b) && On(edges[b][a], v);
      hide Holds, EdgeCond, EdgesMean, Exclusive, Covered, Selects, AddGuarded, On, Val, Arrive, Entered, Recorded;
      SourceStep(values, sources, a, d, k, EdgeCond(edges, q, b), v);
    }
  }

  lemma SourceStep(values: map<nat, Term>, sources: seq<(nat, nat)>, a: nat, d: Disj<Term>, k: nat, c: Cond, v: Valuation)
    requires PhiOk(sources) && k < |sources| && DistinctVals(d) && Exclusive(d, v)
    requires (SourceOf(sources, a) < k ==> Covered(d, v)) && (Holds(c, v) <==> sources[k].1 == a)
    requires forall x :: Selects(d, v, x) ==> SourceOf(sources, a) < |sources| && x == Val(values, sources[SourceOf(sources, a)].0)
    ensures var d' := AddGuarded(d, Val(values, sources[k].0), c);
      && Exclusive(d', v) && (SourceOf(sources, a) < k + 1 ==> Covered(d', v))
      && forall x :: Selects(d', v, x) ==> SourceOf(sources, a) < |sources| && x == Val(values, sources[SourceOf(sources, a)].0)
  {
    hide Holds, Exclusive, Covered, Selects, AddGuarded, Val;
    var s := SourceOf(sources, a);
    assert Holds(c, v) ==> s < |sources| && sources[s].0 == sources[k].0;
    if Holds(c, v) && Covered(d, v) {
      CoveredSelects(d, v);
    }
    AddSame(d, Val(values, sources[k].0), c, v);
  }

  lemma CoveredSelects<T>(d: Disj<T>, v: Valuation)
    requires Covered(d, v)
    ensures exists x :: Selects(d, v, x)
  {
    var i: nat :| Chosen(d, v, i);
    assert Selects(d, v, d[i].0);
  }

  /** A phi takes the value that came in with the run. */
  lemma PhiMeans(p: Program, v: Valuation, path: Cond, ub: seq<Cond>, mem: Term, values: map<nat, Term>, b: nat, i: nat, d: Disj<Term>)
    requires Valid(p) && b < |p.blocks| && i < |p.blocks[b].body| && p.blocks[b].body[i].Phi?
    requires HereMeans(p, v, path, ub, mem, values, b, i) && ValuesFrom(p, values, b, i)
    requires PhiSoFar(p, v, path, values, b, p.blocks[b].body[i].sources, d, |p.blocks[b].body[i].sources|)
    ensures HereMeans(p, v, path, ub, mem, values[p.blocks[b].body[i].x := Pick(d, Lit([]))], b, i + 1)
  {
    var op := p.blocks[b].body[i];
    var t := Pick(d, Lit([]));
    assert DefinesAt(p, b, i, op.x);
    FreshName(p, values, b, i, op.x);
    hide Valid, UniqueDefs, ValuesFrom, ConfigAt, HoldsAll, Pick, Exclusive, Selects, Covered;
    if Arrive(p, v, b).Arrived? {
      ConfigStep(p, v, b, i);
      UsesAt(p, v, b, i);
      var c := ConfigAt(p, v, b, i);
      if Holds(path, v) {
        var s := SourceOf(op.sources, Arrive(p, v, b).pred);
        CoveredSelects(d, v);
        var x :| Selects(d, v, x);
        PickMeans(d, Lit([]), v, x);
        AgreeFresh(values, c.env, v, op.x, t);
        assert Eval(t, v) == Get(c.env, op.sources[s].0);
      }
    }
  }

  // ----- merging -------------------------------------------------------------

  /** The run comes in by one of the edges from `done`. */
  ghost predicate Taken(p: Program, v: Valuation, ins: map<nat, Edge>, b: nat, done: set<nat>) {
    var r := Arrive(p, v, b);
    r.Arrived? && r.pred in done && r.pred in ins && On(ins[r.pred], v)
  }

  ghost predicate InsMean(p: Program, v: Valuation, values: map<nat, Term>, ins: map<nat, Edge>, b: nat) {
    forall a: nat :: a in ins ==> EdgeMeans(p, v, values, ins[a], a, b)
  }

  /** The configuration in which the run arrives at `b`. */
  function Arriving(p: Program, v: Valuation, b: nat): Config {
    var r := Arrive(p, v, b);
    if r.Arrived? then r.c else Start(p, v)
  }

  /** Merging all entries of `other` under the condition of its edge. */
  lemma UbMerges(d: Disj<seq<Cond>>, other: Disj<seq<Cond>>, c: Cond, on: bool, here: bool, running: bool, v: Valuation)
    requires UbMeans(d, on, running, v) && !(on && here) && (here <==> Holds(c, v))
    requires Exclusive(other, v) && (Covered(other, v) <==> here) && (here ==> UbMeans(other, here, running, v))
    ensures UbMeans(AddDisj(d, other, c), on || here, running, v)
  {
    hide Holds, HoldsAll, AddDisj, Exclusive, Covered;
    SelectsCovered(other, v);
    AddDisjMeans(d, other, c, v);
  }

  lemma MemMerges(d: Disj<Term>, other: Disj<Term>, c: Cond, on: bool, here: bool, mem: Bits, v: Valuation)
    requires MemMeans(d, on, mem, v) && !(on && here) && (here <==> Holds(c, v))
    requires Exclusive(other, v) && (Covered(other, v) <==> here) && (here ==> MemMeans(other, here, mem, v))
    ensures MemMeans(AddDisj(d, other, c), on || here, mem, v)
  {
    hide Holds, Eval, AddDisj, Exclusive, Covered;
    SelectsCovered(other, v);
    AddDisjMeans(d, other, c, v);
  }

  lemma SelectsCovered<T>(d: Disj<T>, v: Valuation)
    ensures forall x :: Selects(d, v, x) ==> Covered(d, v)
  {
  }

  /** What has been merged from the edges in `done`. */
  ghost predicate Merged(p: Program, v: Valuation, ins: map<nat, Edge>, b: nat, done: set<nat>, path: seq<Cond>, ubs: Disj<seq<Cond>>, mems: Disj<Term>) {
    var on := Taken(p, v, ins, b, done);
    var c := Arriving(p, v, b);
    (Any(path, v) <==> on) && UbMeans(ubs, on, c.status.Running?, v) && MemMeans(mems, on, c.mem, v)
  }

  lemma MergeNothing(p: Program, v: Valuation, ins: map<nat, Edge>, b: nat)
    ensures Merged(p, v, ins, b, {}, [], [], [])
  {
    NothingMeans(Arriving(p, v, b).status.Running?, Arriving(p, v, b).mem, v);
  }

  /** An edge that is taken is the one the run came in by. */
  lemma EdgeTaken(p: Program, v: Valuation, values: map<nat, Term>, e: Edge, a: nat, b: nat)
    requires |p.blocks| > 0 && 0 < b < |p.blocks| && EdgeMeans(p, v, values, e, a, b) && On(e, v)
    ensures Arrive(p, v, b) == Arrived(a, Leave(p, v, a)) && Agree(values, Arrive(p, v, b).c.env, v)
  {
    hide Goes, Agree, Holds, Exclusive, Covered, Selects, HoldsAll;
    ArriveIffGoes(p, v, a, b);
  }

  lemma EdgeParts(p: Program, v: Valuation, values: map<nat, Term>, e: Edge, a: nat, b: nat)
    requires EdgeMeans(p, v, values, e, a, b)
    ensures Exclusive(e.ub, v) && (Covered(e.ub, v) <==> On(e, v)) && Exclusive(e.mem, v) && (Covered(e.mem, v) <==> On(e, v))
    ensures UbMeans(e.ub, On(e, v), Leave(p, v, a).status.Running?, v) && MemMeans(e.mem, On(e, v), Leave(p, v, a).mem, v)
  {
    hide Goes, Agree, Exclusive, Covered, Selects, HoldsAll, Leave;
  }

  lemma MergeStep(p: Program, v: Valuation, values: map<nat, Term>, ins: map<nat, Edge>, b: nat, done: set<nat>,
                  path: seq<Cond>, ubs: Disj<seq<Cond>>, mems: Disj<Term>, a: nat)
    requires |p.blocks| > 0 && 0 < b < |p.blocks| && InsMean(p, v, values, ins, b) && a in ins && a !in done
    requires Merged(p, v, ins, b, done, path, ubs, mems)
    ensures var c := MkOrAll(ins[a].path);
      Merged(p, v, ins, b, done + {a}, OrAddAll(path, ins[a].path), AddDisj(ubs, ins[a].ub, c), AddDisj(mems, ins[a].mem, c))
  {
    var c := MkOrAll(ins[a].path);
    MkOrAllMeans(ins[a].path, v);
    OrAddAllMeans(path, ins[a].path, v);
    assert EdgeMeans(p, v, values, ins[a], a, b);
    if On(ins[a], v) {
      EdgeTaken(p, v, values, ins[a], a, b);
    }
    var on, here, r := Taken(p, v, ins, b, done), On(ins[a], v), Arriving(p, v, b);
    EdgeParts(p, v, values, ins[a], a, b);
    hide EdgeMeans, Holds, Exclusive, Covered, Any, MkOrAll, OrAddAll, AddDisj, UbMeans, MemMeans;
    UbMerges(ubs, ins[a].ub, c, on, here, r.status.Running?, v);
    MemMerges(mems, ins[a].mem, c, on, here, r.mem, v);
  }

  // ----- shapes --------------------------------------------------------------

  ghost predicate CleanGuards<T>(d: Disj<T>) {
    forall i :: 0 <= i < |d| ==> Clean(d[i].1)
  }

  ghost predicate SortedVals(d: Disj<seq<Cond>>, id: Ids) {
    forall i :: 0 <= i < |d| ==> Sorted(d[i].0, id)
  }

  lemma {:induction false} AddDisjClean<T>(d: Disj<T>, other: Disj<T>, p: Cond)
    requires CleanGuards(d) && CleanGuards(other) && Clean(p)
    ensures CleanGuards(AddDisj(d, other, p)) && (d != [] || other != [] ==> AddDisj(d, other, p) != [])
  {
    hide Clean, MkAnd, AddGuarded;
    if other != [] {
      var rest, e := other[..|other| - 1], other[|other| - 1];
      AddDisjClean(d, rest, p);
      AndOfClean(e.1, p);
      AddClean(AddDisj(d, rest, p), e.0, MkAnd(e.1, p));
    }
  }

  lemma AndOfClean(a: Cond, b: Cond)
    requires Clean(a) && Clean(b)
    ensures Clean(MkAnd(a, b)) && MkAnd(a, b) != False
  {
    CleanAnd(a, b);
  }

  lemma {:induction false} AddDisjSorted(d: Disj<seq<Cond>>, other: Disj<seq<Cond>>, p: Cond, id: Ids)
    requires SortedVals(d, id) && SortedVals(other, id)
    ensures SortedVals(AddDisj(d, other, p), id)
  {
    hide Sorted, MkAnd;
    if other != [] {
      AddDisjSorted(d, other[..|other| - 1], p, id);
    }
  }

  lemma {:induction false} OrAddAllClean(s: seq<Cond>, es: seq<Cond>)
    requires AllClean(s) && AllClean(es)
    ensures AllClean(OrAddAll(s, es)) && |OrAddAll(s, es)| >= |s|
    ensures s != [] || es != [] ==> OrAddAll(s, es) != []
  {
    if es != [] {
      OrAddAllClean(s, es[..|es| - 1]);
    }
  }

  /** The merged data so far is well-shaped, and not empty after the first edge. */
  ghost predicate MergeShape(path: seq<Cond>, ubs: Disj<seq<Cond>>, id: Ids) {
    AllClean(path) && CleanGuards(ubs) && SortedVals(ubs, id)
  }

  lemma MergeShapeNothing(id: Ids)
    ensures MergeShape([], [], id)
  {
  }

  lemma MergeShapeStep(path: seq<Cond>, ubs: Disj<seq<Cond>>, e: Edge, id: Ids)
    requires MergeShape(path, ubs, id) && EdgeShape(e, id)
    ensures var c := MkOrAll(e.path); var ubs' := AddDisj(ubs, e.ub, c);
      MergeShape(OrAddAll(path, e.path), ubs', id) && ubs' != [] && OrAddAll(path, e.path) != []
  {
    hide Clean, Sorted, MkOrAll, OrAddAll, AddDisj;
    CleanOrAll(e.path);
    OrAddAllClean(path, e.path);
    AddDisjClean(ubs, e.ub, MkOrAll(e.path));
    AddDisjSorted(ubs, e.ub, MkOrAll(e.path), id);
  }

  // ----- the merged state ----------------------------------------------------

  /** When all edges have been merged, the state matches the run at the block's start. */
  lemma MergedIsHere(p: Program, v: Valuation, values: map<nat, Term>, edges: Edges, b: nat,
                     path: seq<Cond>, ubs: Disj<seq<Cond>>, mems: Disj<Term>, ub: seq<Cond>)
    requires |p.blocks| > 0 && 0 < b < |p.blocks| && b in edges && EdgesMean(p, v, values, edges, b)
    requires Merged(p, v, edges[b], b, edges[b].Keys, path, ubs, mems)
    requires forall s :: Exclusive(ubs, v) && Selects(ubs, v, s) ==> (HoldsAll(ub, v) <==> HoldsAll(s, v))
    ensures HereMeans(p, v, MkOrAll(path), ub, Pick(mems, Lit([])), values, b, 0) && Entered(p, v, MkOrAll(path), edges, b)
  {
    MkOrAllMeans(path, v);
    hide Goes, Agree, Holds, Exclusive, Covered, Selects, HoldsAll, Any, MkOrAll, Pick;
    var r := Arrive(p, v, b);
    if Holds(MkOrAll(path), v) {
      assert Recorded(edges, r.pred, b) && EdgeMeans(p, v, values, edges[b][r.pred], r.pred, b);
      EdgeTaken(p, v, values, edges[b][r.pred], r.pred, b);
      CoveredSelects(ubs, v);
      CoveredSelects(mems, v);
      var t :| Selects(mems, v, t);
      PickMeans(mems, Lit([]), v, t);
    }
    if Live(p, v, b) {
      LiveIsRecorded(p, v, values, edges, b);
    }
  }

  /** A live run came by a recorded edge. */
  lemma LiveIsRecorded(p: Program, v: Valuation, values: map<nat, Term>, edges: Edges, b: nat)
    requires |p.blocks| > 0 && 0 < b < |p.blocks| && EdgesMean(p, v, values, edges, b) && Live(p, v, b)
    ensures Recorded(edges, Arrive(p, v, b).pred, b) && On(edges[b][Arrive(p, v, b).pred], v)
  {
    hide Goes, Agree, Holds, Exclusive, Covered, Selects, HoldsAll, Any;
    var a := Arrive(p, v, b).pred;
    ArriveSomewhere(p, v, b);
    ArriveIffGoes(p, v, a, b);
  }
}
