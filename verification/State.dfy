/** The symbolic state of one function: `State` (ir/state.cpp), the operations that
    update it (ir/instr.cpp), and the block loop of util/symexec.cpp. */
module SymState {
  import opened Terms
  import opened Guarded
  import opened Factor
  import opened Execution
  import opened SymExec
  import opened Joins
  import opened Exits
  import opened StopPoints
  import opened Results

  lemma EdgeShapeGrows(e: Edge, ub: seq<Cond>, mem: Term, c: Cond, id: Ids)
    requires e == Edge([], [], []) || EdgeShape(e, id)
    requires Sorted(ub, id) && Clean(c)
    ensures EdgeShape(Extended(e, ub, mem, c), id)
  {
    AddClean(e.ub, ub, c);
  }

  lemma RecordShape(edges: Edges, a: nat, d: nat, ub: seq<Cond>, mem: Term, c: Cond, id: Ids)
    requires EdgesShape(edges, id) && Sorted(ub, id) && Clean(c)
    ensures EdgesShape(Record(edges, a, d, Extended(EdgeAt(edges, a, d), ub, mem, c)), id)
  {
    var e := Extended(EdgeAt(edges, a, d), ub, mem, c);
    EdgeShapeGrows(EdgeAt(edges, a, d), ub, mem, c, id);
    RecordedAfter(edges, a, d, e);
    hide EdgeShape, Sorted, Clean, Record, Extended;
  }

  /** At the start of a block, the path condition together with the collected
      conditions holds exactly on the runs that arrive well-defined. */
  lemma DomainExact(p: Program, v: Valuation, path: Cond, ub: seq<Cond>, mem: Term, values: map<nat, Term>, b: nat)
    requires b < |p.blocks| && HereMeans(p, v, path, ub, mem, values, b, 0)
    ensures Holds(path, v) && HoldsAll(ub, v) <==> Arrive(p, v, b).Arrived? && Arrive(p, v, b).c.status.Running?
  {
    if Arrive(p, v, b).Arrived? && Arrive(p, v, b).c.status.Running? {
      RunningIsLive(p, v, b);
    }
    hide Holds, HoldsAll, Agree, Eval;
    assert p.blocks[b].body[..0] == [];
  }

  class State {
    const p: Program
    const id: Ids
    var seen: set<nat>
    var current: nat
    var path: Cond
    var ub: seq<Cond>
    var mem: Term
    var values: map<nat, Term>
    var edges: Edges
    var returnVal: Disj<Term>
    var returnMem: Disj<Term>
    ghost var returnPlaces: seq<set<(nat, nat)>>
    var returnDomain: seq<Cond>
    var functionDomain: seq<Cond>

    ghost predicate Frame(n: nat)
      reads this`seen, this`edges
    {
      Valid(p) && Injective(id) && EdgesShape(edges, id) && n <= |p.blocks| && forall d: nat :: d in seen <==> d < n
    }

    ghost predicate Base(n: nat)
      reads this
    {
      Frame(n) && PlacesKnown(p, returnMem, returnPlaces)
    }

    ghost predicate Initial()
      reads this
    {
      path == True && ub == [] && mem == p.mem0 && values == p.inputs
    }

    /** Between blocks: the first `n` blocks have been executed. */
    ghost predicate Before(n: nat)
      reads this
    {
      && Base(n) && ValuesFrom(p, values, n, 0) && (n == 0 ==> Initial())
      && forall v :: EdgesMean(p, v, values, edges, n) && Recording(p, v, n, 0, returnVal, returnMem, returnDomain, functionDomain)
    }

    ghost predicate Here(v: Valuation, i: nat)
      requires current < |p.blocks| && i <= |p.blocks[current].body|
      reads this
    {
      && HereMeans(p, v, path, ub, mem, values, current, i) && Entered(p, v, path, edges, current)
      && EdgesMean(p, v, values, edges, current)
      && Recording(p, v, current, i, returnVal, returnMem, returnDomain, functionDomain)
    }

    /** Before operation `i` of the current block. */
    ghost predicate Inside(i: nat)
      reads this
    {
      && current < |p.blocks| && i <= |p.blocks[current].body| && Base(current + 1)
      && (path == False || Clean(path)) && Sorted(ub, id) && ValuesFrom(p, values, current, i)
      && forall v :: Here(v, i)
    }

    constructor (p: Program, id: Ids)
      requires Valid(p) && Injective(id)
      ensures this.p == p && this.id == id && Before(0) && returnMem == [] && returnPlaces == []
    {
      this.p := p;
      this.id := id;
      seen := {};
      current := 0;
      path, ub, mem, values := True, [], p.mem0, p.inputs;
      edges := map[];
      returnVal, returnMem, returnDomain, functionDomain := [], [], [], [];
      returnPlaces := [];
      new;
      forall v
        ensures EdgesMean(p, v, values, edges, 0) && Recording(p, v, 0, 0, returnVal, returnMem, returnDomain, functionDomain)
      {
        RecordingStarts(p, v);
      }
    }

    // ----- startBB -----------------------------------------------------------

    /** The entry starts in the initial state. */
    lemma EntryIsHere()
      requires Initial() && |p.blocks| > 0 && current == 0
      requires forall v :: EdgesMean(p, v, values, edges, 0) && Recording(p, v, 0, 0, returnVal, returnMem, returnDomain, functionDomain)
      ensures forall v :: Here(v, 0)
    {
      forall v
        ensures Here(v, 0)
      {
        hide Recording, EdgesMean;
        ConstantsMean(v);
        assert p.blocks[0].body[..0] == [];
        assert Recording(p, v, 0, 0, returnVal, returnMem, returnDomain, functionDomain) && EdgesMean(p, v, values, edges, 0);
      }
    }

    /** A block that cannot be reached well-defined is left out. */
    lemma Skipped(b: nat)
      requires b < |p.blocks| && Base(b + 1) && ValuesFrom(p, values, b, 0)
      requires forall v :: EdgesMean(p, v, values, edges, b) && Recording(p, v, b, 0, returnVal, returnMem, returnDomain, functionDomain)
      requires forall v :: !(Arrive(p, v, b).Arrived? && ConfigAt(p, v, b, 0).status.Running?)
      ensures Before(b + 1)
    {
      var n := b + 1;
      forall v
        ensures EdgesMean(p, v, values, edges, n) && Recording(p, v, n, 0, returnVal, returnMem, returnDomain, functionDomain)
      {
        hide EdgesMean, Recording, ConfigAt;
        SkippedBlock(p, v, values, edges, b);
        BlockSkipped(p, v, b, returnVal, returnMem, returnDomain, functionDomain);
      }
      ValuesLater(p, values, b, 0, b + 1, 0);
    }

    /** `State::startBB`.  If it succeeds, the state matches every run that arrives; if
        not, no run arrives well-defined. */
    method StartBB(b: nat) returns (ok: bool)
      requires Before(b) && b < |p.blocks|
      modifies this
      ensures ok ==> current == b && Inside(0)
      ensures ok ==> forall v :: Holds(path, v) && HoldsAll(ub, v) <==> Arrive(p, v, b).Arrived? && Arrive(p, v, b).c.status.Running?
      ensures !ok ==> Before(b + 1)
      ensures returnMem == old(returnMem) && returnPlaces == old(returnPlaces) && (b == 0 ==> ok && Initial())
    {
      seen := seen + {b};
      current := b;
      if b == 0 {
        EntryIsHere();
        InsideIsExact();
        return true;
      }
      if b !in edges {
        hide EdgesMean, Recording;
        forall v
          ensures !(Arrive(p, v, b).Arrived? && ConfigAt(p, v, b, 0).status.Running?)
        {
          NoEdgesIn(v, b);
        }
        Skipped(b);
        return false;
      }
      MergeEdges(b);
      ok := path != False && False !in ub;
      if ok {
        InsideIsExact();
      } else {
        forall v
          ensures !(Arrive(p, v, b).Arrived? && ConfigAt(p, v, b, 0).status.Running?)
        {
          hide HereMeans, EdgesMean, Recording, Entered, ConfigAt;
          assert Here(v, 0);
          NotHere(p, v, path, ub, mem, values, b, 0);
        }
        forall v
          ensures EdgesMean(p, v, values, edges, b) && Recording(p, v, b, 0, returnVal, returnMem, returnDomain, functionDomain)
        {
          assert Here(v, 0);
        }
        Skipped(b);
      }
    }

    lemma InsideIsExact()
      requires Inside(0)
      ensures forall v :: Holds(path, v) && HoldsAll(ub, v) <==> Arrive(p, v, current).Arrived? && Arrive(p, v, current).c.status.Running?
    {
      forall v
        ensures Holds(path, v) && HoldsAll(ub, v) <==> Arrive(p, v, current).Arrived? && Arrive(p, v, current).c.status.Running?
      {
        hide HereMeans, EdgesMean, Recording, Entered, Holds, HoldsAll, Arrive;
        assert Here(v, 0);
        DomainExact(p, v, path, ub, mem, values, current);
      }
    }

    lemma NoEdgesIn(v: Valuation, b: nat)
      requires 0 < b < |p.blocks| && EdgesMean(p, v, values, edges, b) && b !in edges
      ensures !(Arrive(p, v, b).Arrived? && ConfigAt(p, v, b, 0).status.Running?)
    {
      assert p.blocks[b].body[..0] == [];
      if Arrive(p, v, b).Arrived? && ConfigAt(p, v, b, 0).status.Running? {
        RunningAt(p, v, b, 0);
        hide EdgesMean;
        LiveIsRecorded(p, v, values, edges, b);
      }
    }

    /** The merge loop, over the sources in any order. */
    method CollectEdges(b: nat, ins: map<nat, Edge>) returns (paths: seq<Cond>, ubs: Disj<seq<Cond>>, mems: Disj<Term>)
      requires 0 < b < |p.blocks| && ins != map[] && forall a: nat :: a in ins ==> EdgeShape(ins[a], id)
      requires forall v :: InsMean(p, v, values, ins, b)
      ensures MergeShape(paths, ubs, id) && ubs != []
      ensures forall v :: Merged(p, v, ins, b, ins.Keys, paths, ubs, mems)
    {
      hide InsMean, Merged, MergeShape, EdgeShape, AddDisj, OrAddAll, MkOrAll;
      var rest := ins.Keys;
      paths, ubs, mems := [], [], [];
      MergeShapeNothing(id);
      ghost var done: set<nat> := {};
      forall v
        ensures Merged(p, v, ins, b, done, paths, ubs, mems)
      {
        MergeNothing(p, v, ins, b);
      }
      while rest != {}
        invariant rest !! done && rest + done == ins.Keys && MergeShape(paths, ubs, id) && (ubs != [] || done == {})
        invariant forall v :: Merged(p, v, ins, b, done, paths, ubs, mems)
        decreases |rest|
      {
        var a: nat :| a in rest;
        var e := ins[a];
        var c := MkOrAll(e.path);
        var paths', ubs', mems' := OrAddAll(paths, e.path), AddDisj(ubs, e.ub, c), AddDisj(mems, e.mem, c);
        MergeShapeStep(paths, ubs, e, id);
        ghost var done' := done + {a};
        forall v
          ensures Merged(p, v, ins, b, done', paths', ubs', mems')
        {
          MergeStep(p, v, values, ins, b, done, paths, ubs, mems, a);
        }
        paths, ubs, mems, rest, done := paths', ubs', mems', rest - {a}, done';
      }
      assert done == ins.Keys;
    }

    method MergeEdges(b: nat)
      requires 0 < b < |p.blocks| && b in edges && current == b && Base(b + 1) && ValuesFrom(p, values, b, 0)
      requires forall v :: EdgesMean(p, v, values, edges, b) && Recording(p, v, b, 0, returnVal, returnMem, returnDomain, functionDomain)
      modifies `path, `ub, `mem
      ensures Inside(0)
    {
      hide InsMean, Merged, MergeShape, EdgeShape, EdgesMean, Recording, Valid, ValuesFrom, Pick, MkOrAll, Injective;
      ShapesOf(b);
      forall v
        ensures InsMean(p, v, values, edges[b], b)
      {
        InsFromEdges(v, b);
      }
      var paths, ubs, mems := CollectEdges(b, edges[b]);
      Shaped(paths, ubs);
      ghost var common, left;
      ub, common, left := FactorDomains(ubs, id);
      path := MkOrAll(paths);
      mem := Pick(mems, Lit([]));
      ghost var factored := ub;
      forall v
        ensures Here(v, 0)
      {
        hide Entered, HereMeans, Exclusive, Selects, HoldsAll;
        MergedIsHere(p, v, values, edges, b, paths, ubs, mems, factored);
      }
    }

    lemma ShapesOf(b: nat)
      requires EdgesShape(edges, id) && b in edges
      ensures edges[b] != map[] && forall a: nat :: a in edges[b] ==> EdgeShape(edges[b][a], id)
    {
      hide EdgeShape;
      forall a: nat | a in edges[b]
        ensures EdgeShape(edges[b][a], id)
      {
        assert Recorded(edges, a, b);
      }
    }

    lemma Shaped(paths: seq<Cond>, ubs: Disj<seq<Cond>>)
      requires MergeShape(paths, ubs, id) && ubs != []
      ensures Domains(ubs, id) && (MkOrAll(paths) == False || Clean(MkOrAll(paths)))
    {
      hide Sorted;
      CleanOrAll(paths);
    }

    lemma InsFromEdges(v: Valuation, b: nat)
      requires b in edges && EdgesMean(p, v, values, edges, b)
      ensures InsMean(p, v, values, edges[b], b)
    {
      hide EdgeMeans;
      forall a: nat | a in edges[b]
        ensures EdgeMeans(p, v, values, edges[b][a], a, b)
      {
        assert Recorded(edges, a, b);
      }
    }

    // ----- operations --------------------------------------------------------

    ghost function CurrentOp(i: nat): Op
      requires current < |p.blocks| && i < |p.blocks[current].body|
      reads this`current
    {
      p.blocks[current].body[i]
    }

    /** Everything but the match with the run survives a new value. */
    lemma NewValue(v: Valuation, i: nat, x: nat, t: Term)
      requires current < |p.blocks| && i < |p.blocks[current].body| && DefinesAt(p, current, i, x)
      requires UniqueDefs(p) && ValuesFrom(p, values, current, i) && EdgesMean(p, v, values, edges, current)
      requires Recording(p, v, current, i, returnVal, returnMem, returnDomain, functionDomain)
      ensures EdgesMean(p, v, values[x := t], edges, current)
      ensures Recording(p, v, current, i + 1, returnVal, returnMem, returnDomain, functionDomain)
    {
      FreshName(p, values, current, i, x);
      hide EdgesMean, Recording, ValuesFrom;
      EdgesFresh(p, v, values, edges, current, x, t);
      OrdinaryOp(p, v, current, i, returnVal, returnMem, returnDomain, functionDomain);
    }

    /** With these values, the state matches every run before operation `i`. */
    ghost predicate MatchesWith(vals: map<nat, Term>, i: nat)
      requires current < |p.blocks| && i <= |p.blocks[current].body|
      reads this
    {
      forall v :: HereMeans(p, v, path, ub, mem, vals, current, i)
    }

    /** The new value is entered into the table. */
    method SetValue(i: nat, x: nat, t: Term)
      requires Inside(i) && i < |p.blocks[current].body| && DefinesAt(p, current, i, x)
      requires MatchesWith(values[x := t], i + 1)
      modifies `values
      ensures Inside(i + 1)
    {
      hide EdgesMean, Recording, HereMeans, Entered, ValuesFrom, EdgesShape, Sorted, Clean, Injective;
      var values' := values[x := t];
      ghost var next := i + 1;
      forall v
        ensures Entered(p, v, path, edges, current) && EdgesMean(p, v, values', edges, current)
        ensures Recording(p, v, current, next, returnVal, returnMem, returnDomain, functionDomain)
      {
        assert Here(v, i);
        NewValue(v, i, x, t);
      }
      ValuesStep(p, values, current, i, x, t);
      values := values';
    }

    method ExecDef(i: nat)
      requires Inside(i) && i < |p.blocks[current].body| && CurrentOp(i).Def?
      modifies `values
      ensures Inside(i + 1)
    {
      var op := p.blocks[current].body[i];
      var t := App(op.fn, Val(values, op.a), Val(values, op.b));
      DefMatches(i, t);
      hide Inside, MatchesWith;
      assert DefinesAt(p, current, i, op.x);
      SetValue(i, op.x, t);
    }

    lemma DefMatches(i: nat, t: Term)
      requires Inside(i) && i < |p.blocks[current].body| && CurrentOp(i).Def?
      requires t == App(CurrentOp(i).fn, Val(values, CurrentOp(i).a), Val(values, CurrentOp(i).b))
      ensures MatchesWith(values[CurrentOp(i).x := t], i + 1)
    {
      var values' := values[CurrentOp(i).x := t];
      var next := i + 1;
      forall v
        ensures HereMeans(p, v, path, ub, mem, values', current, next)
      {
        hide EdgesMean, Recording, HereMeans, Entered, ValuesFrom, EdgesShape, Valid, Injective, Sorted, Clean;
        assert Here(v, i);
        DefMeans(p, v, path, ub, mem, values, current, i);
      }
    }

    /** `Phi::toSMT`. */
    method ExecPhi(i: nat)
      requires Inside(i) && i < |p.blocks[current].body| && CurrentOp(i).Phi?
      modifies `values
      ensures Inside(i + 1)
    {
      var op := p.blocks[current].body[i];
      var d := CollectSources(i);
      var t := Pick(d, Lit([]));
      PhiMatches(i, d);
      hide Inside, MatchesWith, Pick, PhiSoFar;
      assert DefinesAt(p, current, i, op.x);
      SetValue(i, op.x, t);
    }

    lemma PhiMatches(i: nat, d: Disj<Term>)
      requires Inside(i) && i < |p.blocks[current].body| && CurrentOp(i).Phi?
      requires forall v :: PhiSoFar(p, v, path, values, current, CurrentOp(i).sources, d, |CurrentOp(i).sources|)
      ensures MatchesWith(values[CurrentOp(i).x := Pick(d, Lit([]))], i + 1)
    {
      var values' := values[CurrentOp(i).x := Pick(d, Lit([]))];
      var next := i + 1;
      forall v
        ensures HereMeans(p, v, path, ub, mem, values', current, next)
      {
        hide EdgesMean, Recording, HereMeans, Entered, ValuesFrom, EdgesShape, PhiSoFar, Valid, Injective, Sorted, Clean, Pick;
        assert Here(v, i);
        PhiMeans(p, v, path, ub, mem, values, current, i, d);
      }
    }

    method CollectSources(i: nat) returns (d: Disj<Term>)
      requires Inside(i) && i < |p.blocks[current].body| && CurrentOp(i).Phi?
      ensures forall v :: PhiSoFar(p, v, path, values, current, CurrentOp(i).sources, d, |CurrentOp(i).sources|)
    {
      var sources := p.blocks[current].body[i].sources;
      d := [];
      var k: nat := 0;
      assert current > 0 && PhiOk(sources);
      forall v
        ensures PhiSoFar(p, v, path, values, current, sources, d, 0)
      {
        hide EdgesMean, Recording, HoldsAll, Agree;
        assert Here(v, i);
        NothingChosen<Term>([], v);
      }
      hide EdgesMean, Recording, HereMeans, Entered, ValuesFrom, EdgesShape, Sorted, Clean, Injective, PhiSoFar, Valid;
      while k < |sources|
        invariant k <= |sources| && DistinctVals(d)
        invariant forall v :: PhiSoFar(p, v, path, values, current, sources, d, k)
      {
        hide DistinctVals;
        var (x, pred) := sources[k];
        var d' := d;
        if current in edges && pred in edges[current] {
          d' := AddGuarded(d, Val(values, x), MkOrAll(edges[current][pred].path));
        }
        assert d' == AddGuarded(d, Val(values, x), EdgeCond(edges, pred, current));
        AddKeepsDistinct(d, Val(values, x), EdgeCond(edges, pred, current));
        ghost var next := k + 1;
        forall v
          ensures PhiSoFar(p, v, path, values, current, sources, d', next)
        {
          assert Here(v, i);
          PhiStep(p, v, path, values, edges, current, sources, d, k);
        }
        d, k := d', k + 1;
      }
    }

    /** `State::addUB`. */
    method AddUB(i: nat)
      requires Inside(i) && i < |p.blocks[current].body| && CurrentOp(i).Require?
      modifies `ub
      ensures Inside(i + 1)
    {
      var op := p.blocks[current].body[i];
      hide EdgesMean, Recording, HereMeans, Entered, ValuesFrom, EdgesShape, Sorted, Clean, Injective, AndAdd, NonZero;
      var ub' := AndAdd(ub, NonZero(Val(values, op.c)), 16, id);
      ghost var next := i + 1;
      forall v
        ensures HereMeans(p, v, path, ub', mem, values, current, next) && Entered(p, v, path, edges, current) && EdgesMean(p, v, values, edges, current)
        ensures Recording(p, v, current, next, returnVal, returnMem, returnDomain, functionDomain)
      {
        assert Here(v, i);
        RequireMeans(p, v, path, ub, mem, values, current, i, id);
        OrdinaryOp(p, v, current, i, returnVal, returnMem, returnDomain, functionDomain);
      }
      AnyAddSorted(ub, NonZero(Val(values, op.c)), id);
      ValuesLater(p, values, current, i, current, i + 1);
      ub := ub';
    }

    method ExecWrite(i: nat)
      requires Inside(i) && i < |p.blocks[current].body| && CurrentOp(i).Write?
      modifies `mem
      ensures Inside(i + 1) && mem == App(CurrentOp(i).fn, old(mem), Val(values, CurrentOp(i).a))
    {
      var op := p.blocks[current].body[i];
      hide EdgesMean, Recording, HereMeans, Entered, ValuesFrom, EdgesShape, Sorted, Clean, Injective;
      var mem' := App(op.fn, mem, Val(values, op.a));
      ghost var next := i + 1;
      forall v
        ensures HereMeans(p, v, path, ub, mem', values, current, next) && Entered(p, v, path, edges, current) && EdgesMean(p, v, values, edges, current)
        ensures Recording(p, v, current, next, returnVal, returnMem, returnDomain, functionDomain)
      {
        assert Here(v, i);
        WriteMeans(p, v, path, ub, mem, values, current, i);
        OrdinaryOp(p, v, current, i, returnVal, returnMem, returnDomain, functionDomain);
      }
      ValuesLater(p, values, current, i, current, i + 1);
      mem := mem';
    }

    /** `State::addNoReturn`. */
    method AddNoReturn(i: nat)
      requires Inside(i) && i < |p.blocks[current].body| && CurrentOp(i).ExitIf?
      modifies `ub, `returnMem, `returnPlaces, `functionDomain
      ensures Inside(i + 1)
      ensures returnMem == AddGuarded(old(returnMem), mem, MkAnd(path, NonZero(Val(values, CurrentOp(i).c))))
      ensures returnPlaces == PlacesAfter(old(returnMem), old(returnPlaces), mem, MkAnd(path, NonZero(Val(values, CurrentOp(i).c))), (current, i))
    {
      hide *;
      NoReturnKnown(i);
      NoReturnRecorded(i);
      var c := NonZero(Val(values, p.blocks[current].body[i].c));
      var mems := AddGuarded(returnMem, mem, MkAnd(path, c));
      returnPlaces := PlacesAfter(returnMem, returnPlaces, mem, MkAnd(path, c), (current, i));
      functionDomain := OrAdd(functionDomain, MkAnd(MkAnd(path, MkAndAll(ub)), c));
      ub, returnMem := AndAdd(ub, MkNot(c), 16, id), mems;
      InsideFrom(i + 1);
    }

    lemma InsideFrom(i: nat)
      requires Frame(current + 1) && PlacesKnown(p, returnMem, returnPlaces)
      requires current < |p.blocks| && i <= |p.blocks[current].body| && AllHere(i, ub, returnMem, functionDomain)
      ensures Inside(i)
    {
      hide Frame, PlacesKnown, EdgesMean, Recording, HereMeans, Entered, ValuesFrom, Sorted, Clean;
    }

    /** The state with these conditions, memories and function domain is before operation `i`. */
    ghost predicate AllHere(i: nat, ub: seq<Cond>, mems: Disj<Term>, fun: seq<Cond>)
      requires current < |p.blocks| && i <= |p.blocks[current].body|
      reads this`current, this`path, this`mem, this`values, this`edges, this`returnVal, this`returnDomain
    {
      && (path == False || Clean(path)) && Sorted(ub, id) && ValuesFrom(p, values, current, i)
      && forall v :: HereMeans(p, v, path, ub, mem, values, current, i) && Entered(p, v, path, edges, current) &&
                     EdgesMean(p, v, values, edges, current) && Recording(p, v, current, i, returnVal, mems, returnDomain, fun)
    }

    lemma NoReturnRecorded(i: nat)
      requires Inside(i) && i < |p.blocks[current].body| && CurrentOp(i).ExitIf? && CurrentOp(i) == p.blocks[current].body[i]
      ensures var c := NonZero(Val(values, CurrentOp(i).c));
        AllHere(i + 1, AndAdd(ub, MkNot(c), 16, id), AddGuarded(returnMem, mem, MkAnd(path, c)), OrAdd(functionDomain, MkAnd(MkAnd(path, MkAndAll(ub)), c)))
      ensures Frame(current + 1)
    {
      var op := p.blocks[current].body[i];
      hide PlacesKnown, PlacesAfter, Frame, EdgesMean, Recording, HereMeans, Entered, ValuesFrom, EdgesShape, Sorted, Clean, Injective, AndAdd, NonZero, AddGuarded, OrAdd, MkAnd, MkAndAll;
      var c := NonZero(Val(values, op.c));
      var ub' := AndAdd(ub, MkNot(c), 16, id);
      var mems := AddGuarded(returnMem, mem, MkAnd(path, c));
      var fun := OrAdd(functionDomain, MkAnd(MkAnd(path, MkAndAll(ub)), c));
      ghost var next := i + 1;
      forall v
        ensures HereMeans(p, v, path, ub', mem, values, current, next) && Entered(p, v, path, edges, current) && EdgesMean(p, v, values, edges, current)
        ensures Recording(p, v, current, next, returnVal, mems, returnDomain, fun)
      {
        assert Here(v, i);
        ExitMeans(p, v, path, ub, mem, values, current, i, id);
        NoReturnMeans(p, v, path, ub, mem, values, current, i, returnVal, returnMem, returnDomain, functionDomain);
      }
      AnyAddSorted(ub, MkNot(c), id);
      ValuesLater(p, values, current, i, current, i + 1);
    }

    lemma NoReturnKnown(i: nat)
      requires Inside(i) && i < |p.blocks[current].body| && CurrentOp(i).ExitIf?
      ensures |returnPlaces| == |returnMem| && current < |p.blocks| && CurrentOp(i) == p.blocks[current].body[i]
      ensures var dom := MkAnd(path, NonZero(Val(values, CurrentOp(i).c)));
        PlacesKnown(p, AddGuarded(returnMem, mem, dom), PlacesAfter(returnMem, returnPlaces, mem, dom, (current, i)))
    {
      hide EdgesMean, Recording, HereMeans, Entered, PlacesMean;
      forall v
        ensures HereMeans(p, v, path, ub, mem, values, current, i)
      {
        assert Here(v, i);
      }
      NoReturnPlaces(p, path, ub, mem, values, current, i, returnMem, returnPlaces);
    }

    // ----- leaving a block ---------------------------------------------------

    /** In the terminator of the current block, after its first `j` jumps. */
    ghost predicate Jumping(path0: Cond, j: nat)
      reads this
    {
      && current < |p.blocks| && Base(current + 1) && (path == False || Clean(path)) && Sorted(ub, id)
      && ValuesFrom(p, values, current, |p.blocks[current].body|)
      && forall v :: Jumps(v, path0, j)
    }

    ghost predicate Jumps(v: Valuation, path0: Cond, j: nat)
      requires current < |p.blocks|
      reads this
    {
      && HereMeans(p, v, path0, ub, mem, values, current, |p.blocks[current].body|)
      && PathLeft(p, v, path0, path, current, j) && Leaving(p, v, values, edges, current, j)
      && Recording(p, v, current, |p.blocks[current].body|, returnVal, returnMem, returnDomain, functionDomain)
    }

    lemma JumpsStart()
      requires current < |p.blocks| && Inside(|p.blocks[current].body|)
      ensures Jumping(path, 0)
    {
      var path0 := path;
      forall v
        ensures Jumps(v, path0, 0)
      {
        hide EdgesMean, Leaving, HereMeans, Recording, Entered;
        assert Here(v, |p.blocks[current].body|);
        LeavingStarts(p, v, values, edges, current);
      }
    }

    lemma JumpsEnd(path0: Cond)
      requires current < |p.blocks| && !p.blocks[current].term.Return? && Jumping(path0, |Targets(p.blocks[current].term)|)
      ensures Before(current + 1)
    {
      var n := current + 1;
      forall v
        ensures EdgesMean(p, v, values, edges, n) && Recording(p, v, n, 0, returnVal, returnMem, returnDomain, functionDomain)
      {
        hide EdgesMean, Leaving, HereMeans, Recording, PathLeft;
        assert Jumps(v, path0, |Targets(p.blocks[current].term)|);
        LeavingEnds(p, v, values, edges, current);
        BlockEnds(p, v, current, returnVal, returnMem, returnDomain, functionDomain);
      }
      ValuesLater(p, values, current, |p.blocks[current].body|, current + 1, 0);
    }

    /** A jump that is not recorded is not taken by a live run. */
    lemma NotFollowed(v: Valuation, path0: Cond, cond: Cond, j: nat)
      requires Jumping(path0, j) && AllDecide(path0, current, cond, j)
      requires MkAnd(cond, path) == False || path == False || False in ub
      ensures !(Followed(p, v, current) && ChoiceAt(p, v, current) == j)
    {
      hide Jumping, AllDecide, LeavesRunning, ChoiceAt, MkAnd;
      if Followed(p, v, current) && ChoiceAt(p, v, current) == j {
        var v' :| LeavesRunning(p, v', current) && ChoiceAt(p, v', current) == j;
        NotTaken(v', path0, cond, j);
      }
    }

    /** ... because no well-defined run takes it. */
    lemma NotTaken(v: Valuation, path0: Cond, cond: Cond, j: nat)
      requires Jumping(path0, j) && AllDecide(path0, current, cond, j)
      requires MkAnd(cond, path) == False || path == False || False in ub
      ensures !(LeavesRunning(p, v, current) && ChoiceAt(p, v, current) == j)
    {
      hide Leaving, HereMeans, Recording, Leave, ChoiceAt, Arrive, MkAnd, Followed, LeavesRunning;
      ConstantsMean(v);
      assert Jumps(v, path0, j) && Decides(p, v, path0, current, cond, j);
      if LeavesRunning(p, v, current) {
        LeavingIsFollowed(p, v, current);
        RunningLeaves(v);
      }
      AndMeans(cond, path, v);
      HereAtEnd(p, v, path0, ub, mem, values, current);
      if path == path0 {
        HoldsAllMembers(ub, v);
      }
    }

    lemma RunningLeaves(v: Valuation)
      requires current < |p.blocks| && LeavesRunning(p, v, current)
      ensures Arrive(p, v, current).Arrived? && Leave(p, v, current).status.Running?
    {
    }

    /** The jump conditions do not change the invariant of jumps that leave the rest of the path. */
    lemma JumpTaken(v: Valuation, path0: Cond, cond: Cond, j: nat, always: bool, edges': Edges)
      requires current < |p.blocks| && !p.blocks[current].term.Return? && j < |Targets(p.blocks[current].term)| && path != False
      requires Jumps(v, path0, j) && Decides(p, v, path0, current, cond, j)
      requires always ==> cond == True || j == |Targets(p.blocks[current].term)| - 1
      requires var d := Landing(p, current, Targets(p.blocks[current].term)[j]);
        edges' == Record(edges, current, d, Extended(EdgeAt(edges, current, d), ub, mem, MkAnd(cond, path)))
      ensures Leaving(p, v, values, edges', current, j + 1)
      ensures PathLeft(p, v, path0, if always then False else path, current, j + 1)
    {
      ConstantsMean(v);
      HereAtEnd(p, v, path0, ub, mem, values, current);
      ChoiceInRange(v);
      hide Leaving, HereMeans, Recording, ChoiceAt, MkAnd, Extended, EdgeAt, Landing, Targets, Followed, Record;
      JumpMeans(p, v, values, edges, current, ub, mem, path, cond, j);
    }

    lemma ChoiceInRange(v: Valuation)
      requires current < |p.blocks| && !p.blocks[current].term.Return?
      ensures ChoiceAt(p, v, current) < |Targets(p.blocks[current].term)|
    {
      hide Leave, Targets;
    }

    ghost predicate AllDecide(path0: Cond, b: nat, cond: Cond, j: nat) {
      forall v :: Decides(p, v, path0, b, cond, j)
    }

    /** `State::addJump`.  A jump to a block that was seen before leads to the sink. */
    method AddJump(cond: Cond, dst: nat, always0: bool, ghost path0: Cond, ghost j: nat)
      requires current < |p.blocks| && Jumping(path0, j) && !p.blocks[current].term.Return?
      requires j < |Targets(p.blocks[current].term)| && dst == Targets(p.blocks[current].term)[j]
      requires cond == False || Clean(cond)
      requires always0 ==> j == |Targets(p.blocks[current].term)| - 1
      requires AllDecide(path0, current, cond, j)
      modifies `path, `edges
      ensures Jumping(path0, j + 1)
    {
      hide Leaving, HereMeans, Recording, ValuesFrom, Injective, Valid, Sorted, Clean, EdgesShape, Decides, Targets, Landing, MkAnd, Record, Extended, EdgeAt, PathLeft;
      var always := always0 || cond == True;
      var c := MkAnd(cond, path);
      ghost var next := j + 1;
      if c == False || path == False || False in ub {
        forall v
          ensures Leaving(p, v, values, edges, current, next) && PathLeft(p, v, path0, path, current, next)
        {
          assert Jumps(v, path0, j);
          NotFollowed(v, path0, cond, j);
          SkipMeans(p, v, values, edges, current, j);
          PathLeftLater(p, v, path0, path, current, j);
        }
        forall v
          ensures Jumps(v, path0, next)
        {
          assert Jumps(v, path0, j);
        }
        return;
      }
      var to := if dst in seen then |p.blocks| else dst;
      LandingIs(dst);
      var e := Extended(EdgeAt(edges, current, to), ub, mem, c);
      var edges' := Record(edges, current, to, e);
      var path' := if always then False else path;
      forall v
        ensures Leaving(p, v, values, edges', current, next) && PathLeft(p, v, path0, path', current, next)
      {
        assert Jumps(v, path0, j);
        JumpTaken(v, path0, cond, j, always, edges');
      }
      CleanJump(cond, path);
      RecordShape(edges, current, to, ub, mem, c, id);
      forall v
        ensures HereMeans(p, v, path0, ub, mem, values, current, |p.blocks[current].body|)
        ensures Recording(p, v, current, |p.blocks[current].body|, returnVal, returnMem, returnDomain, functionDomain)
      {
        assert Jumps(v, path0, j);
      }
      edges, path := edges', path';
    }

    lemma LandingIs(dst: nat)
      requires Base(current + 1)
      ensures Landing(p, current, dst) == if dst in seen then |p.blocks| else dst
    {
    }

    lemma CleanJump(cond: Cond, path: Cond)
      requires (cond == False || Clean(cond)) && (path == False || Clean(path)) && MkAnd(cond, path) != False
      ensures Clean(MkAnd(cond, path))
    {
      CleanAnd(cond, path);
    }

    lemma PathLeftLater(p: Program, v: Valuation, path0: Cond, path: Cond, b: nat, j: nat)
      requires PathLeft(p, v, path0, path, b, j)
      ensures PathLeft(p, v, path0, path, b, j + 1)
    {
    }

    /** `State::addCondJump`. */
    method AddCondJump(c: Term, dstTrue: nat, dstFalse: nat, ghost path0: Cond)
      requires current < |p.blocks| && Jumping(path0, 0) && p.blocks[current].term.Branch?
      requires p.blocks[current].term == Branch(p.blocks[current].term.c, dstTrue, dstFalse) && c == Val(values, p.blocks[current].term.c)
      modifies `path, `edges
      ensures Jumping(path0, |Targets(p.blocks[current].term)|)
    {
      var condFalse := IsZero(c);
      forall v
        ensures Decides(p, v, path0, current, MkNot(condFalse), 0) && Decides(p, v, path0, current, condFalse, 1)
      {
        hide Leaving, HereMeans, Recording, Valid, Decides;
        assert Jumps(v, path0, 0);
        BranchDecides(p, v, path0, ub, mem, values, current);
      }
      assert AllDecide(path0, current, MkNot(condFalse), 0) && AllDecide(path0, current, condFalse, 1);
      hide Jumping, AllDecide;
      AddJump(MkNot(condFalse), dstTrue, false, path0, 0);
      AddJump(condFalse, dstFalse, true, path0, 1);
    }

    ghost predicate SwitchDecided(path0: Cond, b: nat, vals: map<nat, Term>, t: Terminator) {
      && t.Switch? && AllDecide(path0, b, DefaultCond(vals, t, |t.cases|), |t.cases|)
      && forall k: nat :: k < |t.cases| ==> AllDecide(path0, b, CaseCond(vals, t, k), k)
    }

    lemma SwitchConds(path0: Cond)
      requires Jumping(path0, 0) && p.blocks[current].term.Switch?
      ensures SwitchDecided(path0, current, values, p.blocks[current].term)
    {
      var t := p.blocks[current].term;
      hide Leaving, HereMeans, Recording, Valid, Decides, CaseCond, DefaultCond;
      forall v
        ensures Decides(p, v, path0, current, DefaultCond(values, t, |t.cases|), |t.cases|)
      {
        assert Jumps(v, path0, 0);
        SwitchDecides(p, v, path0, ub, mem, values, current);
      }
      forall k: nat, v | k < |t.cases|
        ensures Decides(p, v, path0, current, CaseCond(values, t, k), k)
      {
        assert Jumps(v, path0, 0);
        SwitchDecides(p, v, path0, ub, mem, values, current);
      }
    }

    /** One case of a switch. */
    method AddCase(vals: map<nat, Term>, t: Terminator, k: nat, default0: Cond, ghost path0: Cond) returns (default1: Cond)
      requires current < |p.blocks| && p.blocks[current].term == t && SwitchDecided(path0, current, vals, t)
      requires t.Switch? && k < |t.cases| && Jumping(path0, k) && default0 == DefaultCond(vals, t, k)
      modifies `path, `edges
      ensures Jumping(path0, k + 1) && default1 == DefaultCond(vals, t, k + 1)
    {
      hide Jumping, AllDecide, SwitchDecided, DefaultCond, CaseCond, Targets, Clean, MkAnd, MkNot, Val;
      var cmp := Equal(Val(vals, t.c), Lit(t.cases[k].0));
      CaseAt(path0, current, vals, t, k);
      DefaultAt(vals, t, k + 1);
      default1 := MkAnd(default0, MkNot(cmp));
      AddJump(cmp, t.cases[k].1, false, path0, k);
    }

    /** `Switch::toSMT`. */
    method ExecSwitch(t: Terminator, ghost path0: Cond)
      requires current < |p.blocks| && p.blocks[current].term == t && t.Switch? && Jumping(path0, 0)
      modifies `path, `edges
      ensures Jumping(path0, |Targets(t)|)
    {
      hide Jumping, AllDecide, SwitchDecided, DefaultCond, CaseCond, Targets, Clean, MkAnd, MkNot, Val;
      SwitchConds(path0);
      var vals := values;
      var default0 := True;
      DefaultAt(vals, t, 0);
      var k: nat := 0;
      while k < |t.cases|
        invariant k <= |t.cases| && Jumping(path0, k) && default0 == DefaultCond(vals, t, k)
      {
        default0 := AddCase(vals, t, k, default0, path0);
        k := k + 1;
      }
      DefaultTaken(path0, current, vals, t);
      AddJump(default0, t.default0, true, path0, |t.cases|);
    }

    lemma CaseAt(path0: Cond, b: nat, vals: map<nat, Term>, t: Terminator, k: nat)
      requires SwitchDecided(path0, b, vals, t) && k < |t.cases|
      ensures CaseCond(vals, t, k) == Equal(Val(vals, t.c), Lit(t.cases[k].0)) && Clean(CaseCond(vals, t, k))
      ensures AllDecide(path0, b, CaseCond(vals, t, k), k) && k < |Targets(t)| && Targets(t)[k] == t.cases[k].1
    {
      hide AllDecide, Val;
    }

    lemma DefaultTaken(path0: Cond, b: nat, vals: map<nat, Term>, t: Terminator)
      requires SwitchDecided(path0, b, vals, t)
      ensures DefaultCond(vals, t, |t.cases|) == False || Clean(DefaultCond(vals, t, |t.cases|))
      ensures AllDecide(path0, b, DefaultCond(vals, t, |t.cases|), |t.cases|)
      ensures |Targets(t)| == |t.cases| + 1 && Targets(t)[|t.cases|] == t.default0
    {
      DefaultAt(vals, t, |t.cases|);
      hide AllDecide, Val;
    }

    lemma DefaultAt(vals: map<nat, Term>, t: Terminator, k: nat)
      requires t.Switch? && k <= |t.cases|
      ensures DefaultCond(vals, t, k) == if k == 0 then True else MkAnd(DefaultCond(vals, t, k - 1), MkNot(CaseCond(vals, t, k - 1)))
      ensures DefaultCond(vals, t, k) == False || Clean(DefaultCond(vals, t, k))
    {
      hide Clean;
      DefaultMeans(vals, t, k, Valuation(_ => [], _ => true, (_, _, _) => [], (_, _) => []));
    }

    /** `State::addReturn`. */
    method AddReturn(val: Term)
      requires current < |p.blocks| && Inside(|p.blocks[current].body|)
      requires p.blocks[current].term.Return? && val == Val(values, p.blocks[current].term.x)
      modifies `path, `returnVal, `returnMem, `returnPlaces, `returnDomain, `functionDomain
      ensures Before(current + 1) && returnMem == AddGuarded(old(returnMem), mem, old(path))
      ensures returnPlaces == PlacesAfter(old(returnMem), old(returnPlaces), mem, old(path), (current, |p.blocks[current].body|))
    {
      hide *;
      ReturnKnown();
      ReturnRecorded(val);
      var dom := MkAnd(path, MkAndAll(ub));
      var vals, mems := AddGuarded(returnVal, val, path), AddGuarded(returnMem, mem, path);
      var ret, fun := OrAdd(returnDomain, dom), OrAdd(functionDomain, dom);
      returnPlaces := PlacesAfter(returnMem, returnPlaces, mem, path, (current, |p.blocks[current].body|));
      returnVal, returnMem, returnDomain, functionDomain, path := vals, mems, ret, fun, False;
      BeforeFrom(current + 1);
    }

    lemma BeforeFrom(n: nat)
      requires n > 0 && Frame(n) && PlacesKnown(p, returnMem, returnPlaces) && AllRecorded(n, returnVal, returnMem, returnDomain, functionDomain)
      ensures Before(n)
    {
      hide Frame, PlacesKnown, EdgesMean, Recording, ValuesFrom;
    }

    ghost predicate AllRecorded(n: nat, vals: Disj<Term>, mems: Disj<Term>, ret: seq<Cond>, fun: seq<Cond>)
      reads this`values, this`edges
    {
      ValuesFrom(p, values, n, 0) && forall v :: EdgesMean(p, v, values, edges, n) && Recording(p, v, n, 0, vals, mems, ret, fun)
    }

    lemma ReturnRecorded(val: Term)
      requires current < |p.blocks| && Inside(|p.blocks[current].body|) && p.blocks[current].term.Return? && val == Val(values, p.blocks[current].term.x)
      ensures var dom := MkAnd(path, MkAndAll(ub));
        AllRecorded(current + 1, AddGuarded(returnVal, val, path), AddGuarded(returnMem, mem, path), OrAdd(returnDomain, dom), OrAdd(functionDomain, dom))
      ensures Frame(current + 1)
    {
      hide PlacesKnown, EdgesMean, Recording, HereMeans, Entered, ValuesFrom, EdgesShape, Sorted, Clean, Injective, AddGuarded, OrAdd, MkAnd, MkAndAll, Valid, Leaving;
      var dom, next := MkAnd(path, MkAndAll(ub)), current + 1;
      var vals, mems := AddGuarded(returnVal, val, path), AddGuarded(returnMem, mem, path);
      var ret, fun := OrAdd(returnDomain, dom), OrAdd(functionDomain, dom);
      forall v
        ensures EdgesMean(p, v, values, edges, next) && Recording(p, v, next, 0, vals, mems, ret, fun)
      {
        assert Here(v, |p.blocks[current].body|);
        LeavingStarts(p, v, values, edges, current);
        LeavingEnds(p, v, values, edges, current);
        ReturnMeans(p, v, path, ub, mem, values, current, returnVal, returnMem, returnDomain, functionDomain);
      }
      ValuesLater(p, values, current, |p.blocks[current].body|, current + 1, 0);
    }

    lemma ReturnKnown()
      requires current < |p.blocks| && Inside(|p.blocks[current].body|) && p.blocks[current].term.Return?
      ensures |returnPlaces| == |returnMem|
      ensures PlacesKnown(p, AddGuarded(returnMem, mem, path), PlacesAfter(returnMem, returnPlaces, mem, path, (current, |p.blocks[current].body|)))
    {
      hide EdgesMean, Recording, HereMeans, Entered, PlacesMean;
      forall v
        ensures HereMeans(p, v, path, ub, mem, values, current, |p.blocks[current].body|)
      {
        assert Here(v, |p.blocks[current].body|);
      }
      ReturnPlaces(p, path, ub, mem, values, current, returnMem, returnPlaces);
    }

    // ----- whole runs --------------------------------------------------------

    method ExecOp(i: nat)
      requires current < |p.blocks| && i < |p.blocks[current].body| && Inside(i)
      modifies this
      ensures Inside(i + 1) && current == old(current)
    {
      hide Inside;
      match p.blocks[current].body[i]
      case Def(_, _, _, _) => ExecDef(i);
      case Phi(_, _) => ExecPhi(i);
      case Require(_) => AddUB(i);
      case Write(_, _) => ExecWrite(i);
      case ExitIf(_) => AddNoReturn(i);
    }

    method ExecTerminator()
      requires current < |p.blocks| && Inside(|p.blocks[current].body|)
      modifies this
      ensures Before(old(current) + 1)
    {
      hide *;
      var t := p.blocks[current].term;
      ghost var path0 := path;
      if t.Return? {
        AddReturn(Val(values, t.x));
      } else {
        JumpsStart();
        ExecJumps(t, path0);
        JumpsEnd(path0);
      }
    }

    /** The jumps of a terminator that does not return. */
    method ExecJumps(t: Terminator, ghost path0: Cond)
      requires current < |p.blocks| && Jumping(path0, 0) && p.blocks[current].term == t && !t.Return?
      modifies `path, `edges
      ensures Jumping(path0, |Targets(t)|)
    {
      hide *;
      match t
      case Jump(dst) => ExecJump(dst, path0);
      case Branch(c, dstTrue, dstFalse) => AddCondJump(Val(values, c), dstTrue, dstFalse, path0);
      case Switch(_, _, _) => ExecSwitch(t, path0);
    }

    method ExecJump(dst: nat, ghost path0: Cond)
      requires current < |p.blocks| && Jumping(path0, 0) && p.blocks[current].term == Jump(dst)
      modifies `path, `edges
      ensures Jumping(path0, |Targets(p.blocks[current].term)|)
    {
      hide Jumping;
      forall v
        ensures Decides(p, v, path0, current, True, 0)
      {
        ConstantsMean(v);
      }
      AddJump(True, dst, true, path0, 0);
    }

    /** The block loop: every edge, return value, return memory and domain that symbolic
        execution ends with agrees with every run. */
    method Run()
      requires Before(0)
      modifies this
      ensures Before(|p.blocks|)
      ensures forall v :: Finished(p, v, returnVal, returnMem, returnDomain, functionDomain) && PlacesMean(p, v, returnMem, returnPlaces)
    {
      hide Inside, Before;
      var b: nat := 0;
      while b < |p.blocks|
        invariant b <= |p.blocks| && Before(b)
      {
        var ok := StartBB(b);
        if ok {
          var i: nat := 0;
          while i < |p.blocks[b].body|
            invariant i <= |p.blocks[b].body| && current == b && Inside(i)
            modifies this
          {
            ExecOp(i);
            i := i + 1;
          }
          ExecTerminator();
        }
        b := b + 1;
      }
      RunFinished();
    }

    lemma RunFinished()
      requires Before(|p.blocks|)
      ensures forall v :: Finished(p, v, returnVal, returnMem, returnDomain, functionDomain) && PlacesMean(p, v, returnMem, returnPlaces)
    {
      forall v
        ensures Finished(p, v, returnVal, returnMem, returnDomain, functionDomain) && PlacesMean(p, v, returnMem, returnPlaces)
      {
        hide Recording, Finished, EdgesMean, PlacesMean;
        RecordingFinished(p, v, returnVal, returnMem, returnDomain, functionDomain);
      }
    }

    // ----- queries -----------------------------------------------------------

    /** The condition of one recorded edge, with or without undefined behaviour. */
    method EdgeDomain(a: nat, d: nat, includeUb: bool) returns (c: Cond)
      requires Before(|p.blocks|) && a < |p.blocks| && Recorded(edges, a, d)
      ensures forall v :: Holds(c, v) ==> Goes(p, v, a, d)
      ensures forall v :: includeUb ==> (Holds(c, v) <==> Goes(p, v, a, d) && Leave(p, v, a).status.Running?)
      ensures forall v :: Goes(p, v, a, d) && Leave(p, v, a).status.Running? ==> Holds(c, v)
    {
      var e := edges[d][a];
      c := MkOrAll(e.path);
      ghost var ub := [];
      if includeUb {
        hide EdgesMean, Recording, ValuesFrom, Sorted, Clean;
        var ub', common, left := FactorDomains(e.ub, id);
        ub := ub';
        c := MkAnd(c, MkAndAll(ub'));
      }
      forall v
        ensures Holds(c, v) ==> Goes(p, v, a, d)
        ensures includeUb ==> (Holds(c, v) <==> Goes(p, v, a, d) && Leave(p, v, a).status.Running?)
        ensures Goes(p, v, a, d) && Leave(p, v, a).status.Running? ==> Holds(c, v)
      {
        hide Recording, EdgesMean, Goes, Leave, Holds, MkAnd, MkAndAll, MkOrAll;
        EdgeExact(p, v, values, edges, a, d, ub);
        MkOrAllMeans(e.path, v);
        DomainIs(MkOrAll(e.path), ub, v);
      }
    }

    /** `State::getJumpCond`: the run takes this edge, well-defined. */
    method GetJumpCond(a: nat, d: nat) returns (c: Cond)
      requires Before(|p.blocks|) && a < |p.blocks|
      ensures forall v :: Holds(c, v) <==> Goes(p, v, a, d) && Leave(p, v, a).status.Running?
    {
      if d in edges && a in edges[d] {
        c := EdgeDomain(a, d, true);
      } else {
        c := False;
        forall v
          ensures !(Goes(p, v, a, d) && Leave(p, v, a).status.Running?)
        {
          GoingIsFollowed(p, v, a, d);
          hide Recording, Goes, Leave, Followed;
          assert EdgesMean(p, v, values, edges, |p.blocks|);
        }
      }
    }

    /** Adds the condition of one edge to the sink. */
    method AddSinkEdge(a: nat, includeUb: bool, ret: seq<Cond>, ghost done: set<nat>) returns (ret': seq<Cond>)
      requires Before(|p.blocks|) && Recorded(edges, a, |p.blocks|) && SinkSum(ret, done, includeUb)
      ensures SinkSum(ret', done + {a}, includeUb)
    {
      hide Before, SinkSoFar, Any, Holds, Leave, Goes, End, OrAdd;
      SourceInRange(a, |p.blocks|);
      var e := EdgeDomain(a, |p.blocks|, includeUb);
      ret' := OrAdd(ret, e);
      ghost var done' := done + {a};
      forall v
        ensures SinkSoFar(v, ret', done', includeUb)
      {
        SinkStep(v, ret, done, includeUb, a, e);
      }
    }

    /** `State::sinkDomain`: the run reaches the sink. */
    method SinkDomain(includeUb: bool) returns (c: Cond)
      requires Before(|p.blocks|)
      ensures forall v :: Holds(c, v) ==> End(p, v).Sunk?
      ensures forall v :: includeUb ==> (Holds(c, v) <==> End(p, v).Sunk? && End(p, v).c.status.Running?)
      ensures forall v :: End(p, v).Sunk? && End(p, v).c.status.Running? ==> Holds(c, v)
    {
      hide Before, SinkSum, Holds, End, MkOrAll;
      var n := |p.blocks|;
      var ins: map<nat, Edge> := if n in edges then edges[n] else map[];
      var ret: seq<Cond> := [];
      var rest := ins.Keys;
      ghost var done: set<nat> := {};
      SinkNothing(includeUb);
      while rest != {}
        invariant rest !! done && rest + done == ins.Keys && SinkSum(ret, done, includeUb)
        decreases |rest|
      {
        var a: nat :| a in rest;
        ret := AddSinkEdge(a, includeUb, ret, done);
        rest, done := rest - {a}, done + {a};
      }
      assert done == ins.Keys;
      c := MkOrAll(ret);
      forall v
        ensures Holds(c, v) ==> End(p, v).Sunk?
        ensures includeUb ==> (Holds(c, v) <==> End(p, v).Sunk? && End(p, v).c.status.Running?)
        ensures End(p, v).Sunk? && End(p, v).c.status.Running? ==> Holds(c, v)
      {
        MkOrAllMeans(ret, v);
        SinkDone(v, ret, done, includeUb);
      }
    }

    ghost predicate SinkSum(ret: seq<Cond>, done: set<nat>, includeUb: bool) {
      forall v :: SinkSoFar(v, ret, done, includeUb)
    }

    /** The sources in `done` have been added. */
    ghost predicate SinkSoFar(v: Valuation, ret: seq<Cond>, done: set<nat>, includeUb: bool) {
      && |p.blocks| > 0 && (forall a :: a in done ==> a < |p.blocks|)
      && (Any(ret, v) ==> End(p, v).Sunk?)
      && (includeUb && Any(ret, v) ==> End(p, v).c.status.Running?)
      && (forall a: nat :: a in done && Goes(p, v, a, |p.blocks|) && Leave(p, v, a).status.Running? ==> Any(ret, v))
    }

    lemma SinkNothing(includeUb: bool)
      requires Before(|p.blocks|)
      ensures SinkSum([], {}, includeUb)
    {
      hide Recording, EdgesMean, End;
    }

    lemma SinkStep(v: Valuation, ret: seq<Cond>, done: set<nat>, includeUb: bool, a: nat, e: Cond)
      requires a < |p.blocks| && SinkSoFar(v, ret, done, includeUb)
      requires Holds(e, v) ==> Goes(p, v, a, |p.blocks|)
      requires includeUb ==> (Holds(e, v) <==> Goes(p, v, a, |p.blocks|) && Leave(p, v, a).status.Running?)
      requires Goes(p, v, a, |p.blocks|) && Leave(p, v, a).status.Running? ==> Holds(e, v)
      ensures SinkSoFar(v, OrAdd(ret, e), done + {a}, includeUb)
    {
      OrAddMeans(ret, e, v);
      EndAt(p, v, a);
      hide Goes, OrAdd, Any, Leave, End, Holds;
    }

    lemma SourceInRange(a: nat, d: nat)
      requires Before(|p.blocks|) && Recorded(edges, a, d)
      ensures a < |p.blocks|
    {
      hide EdgeMeans, Recording, Goes, Leave;
      var v := Valuation(_ => [], _ => true, (_, _, _) => [], (_, _) => []);
      assert EdgesMean(p, v, values, edges, |p.blocks|);
    }

    lemma SinkDone(v: Valuation, ret: seq<Cond>, done: set<nat>, includeUb: bool)
      requires Before(|p.blocks|) && SinkSum(ret, done, includeUb)
      requires if |p.blocks| in edges then done == edges[|p.blocks|].Keys else done == {}
      ensures Any(ret, v) ==> End(p, v).Sunk? && (includeUb ==> End(p, v).c.status.Running?)
      ensures End(p, v).Sunk? && End(p, v).c.status.Running? ==> Any(ret, v)
    {
      assert SinkSoFar(v, ret, done, includeUb);
      if End(p, v).Sunk? && End(p, v).c.status.Running? {
        var a := EndSomewhere(p, v);
        GoingIsFollowed(p, v, a, |p.blocks|);
        hide Recording, Goes, Any, End, Leave, Followed;
        assert EdgesMean(p, v, values, edges, |p.blocks|);
        assert Recorded(edges, a, |p.blocks|) && SinkSoFar(v, ret, done, includeUb);
      }
    }
  }

  /** An edge condition holds on exactly the well-defined runs that take the edge, and
      only on runs that take it. */
  lemma EdgeExact(p: Program, v: Valuation, values: map<nat, Term>, edges: Edges, a: nat, d: nat, ub: seq<Cond>)
    requires EdgesMean(p, v, values, edges, |p.blocks|) && a < |p.blocks| && Recorded(edges, a, d)
    ensures Any(edges[d][a].path, v) ==> Goes(p, v, a, d)
    ensures Goes(p, v, a, d) && Leave(p, v, a).status.Running? ==> Any(edges[d][a].path, v)
    ensures (forall s :: Exclusive(edges[d][a].ub, v) && Selects(edges[d][a].ub, v, s) ==> (HoldsAll(ub, v) <==> HoldsAll(s, v))) ==>
              (Any(edges[d][a].path, v) && HoldsAll(ub, v) <==> Goes(p, v, a, d) && Leave(p, v, a).status.Running?)
  {
    GoingIsFollowed(p, v, a, d);
    hide Goes, Leave, HoldsAll, Any, Agree, Exclusive, Selects, MemMeans, Followed;
    var e := edges[d][a];
    assert EdgeMeans(p, v, values, e, a, d);
    if On(e, v) {
      CoveredSelects(e.ub, v);
    }
  }

  /** At most one edge out of a block can be taken: their conditions are disjoint. */
  lemma EdgesDisjoint(p: Program, v: Valuation, values: map<nat, Term>, edges: Edges, a: nat, d: nat, d': nat)
    requires EdgesMean(p, v, values, edges, |p.blocks|) && Recorded(edges, a, d) && Recorded(edges, a, d') && d != d'
    ensures !(Any(edges[d][a].path, v) && Any(edges[d'][a].path, v))
  {
    hide Leave, Any, Agree, UbMeans, MemMeans;
    assert EdgeMeans(p, v, values, edges[d][a], a, d) && EdgeMeans(p, v, values, edges[d'][a], a, d');
  }
}
