/** Symbolic execution with state merging: `State` (ir/state.cpp), with the jumps and
    phis of ir/instr.cpp and the block loop of util/symexec.cpp, in agreement with
    every concrete run. */
module SymExec {
  import opened Terms
  import opened Guarded
  import opened Factor
  import opened Execution

  /** What `predecessor_data` keeps for one edge. */
  datatype Edge = Edge(path: seq<Cond>, ub: Disj<seq<Cond>>, mem: Disj<Term>)

  /** Destination -> source -> data. */
  type Edges = map<nat, map<nat, Edge>>

  // ----- OrExpr --------------------------------------------------------------

  function OrAdd(s: seq<Cond>, e: Cond): seq<Cond> {
    if e == False || e in s then s else s + [e]
  }

  function OrAddAll(s: seq<Cond>, es: seq<Cond>): seq<Cond> {
    if es == [] then s else OrAdd(OrAddAll(s, es[..|es| - 1]), es[|es| - 1])
  }

  function MkOrAll(s: seq<Cond>): Cond {
    if s == [] then False else MkOr(MkOrAll(s[..|s| - 1]), s[|s| - 1])
  }

  ghost predicate Any(s: seq<Cond>, v: Valuation) {
    exists i :: 0 <= i < |s| && Holds(s[i], v)
  }

  lemma AnyPush(s: seq<Cond>, e: Cond, v: Valuation)
    ensures Any(s + [e], v) <==> Any(s, v) || Holds(e, v)
  {
    if Any(s, v) {
      var i :| 0 <= i < |s| && Holds(s[i], v);
      assert (s + [e])[i] == s[i];
    }
    if Holds(e, v) {
      assert (s + [e])[|s|] == e;
    }
  }

  lemma {:induction false} MkOrAllMeans(s: seq<Cond>, v: Valuation)
    ensures Holds(MkOrAll(s), v) <==> Any(s, v)
  {
    hide Eval;
    if s != [] {
      var r, e := s[..|s| - 1], s[|s| - 1];
      MkOrAllMeans(r, v);
      OrMeans(MkOrAll(r), e, v);
      assert s == r + [e];
      AnyPush(r, e, v);
    }
  }

  lemma OrAddMeans(s: seq<Cond>, e: Cond, v: Valuation)
    ensures Any(OrAdd(s, e), v) <==> Any(s, v) || Holds(e, v)
  {
    hide Eval;
    AnyPush(s, e, v);
    if e in s {
      var i :| 0 <= i < |s| && s[i] == e;
    }
  }

  lemma {:induction false} OrAddAllMeans(s: seq<Cond>, es: seq<Cond>, v: Valuation)
    ensures Any(OrAddAll(s, es), v) <==> Any(s, v) || Any(es, v)
  {
    hide Holds, OrAdd;
    if es != [] {
      var r, e := es[..|es| - 1], es[|es| - 1];
      OrAddAllMeans(s, r, v);
      OrAddMeans(OrAddAll(s, r), e, v);
      assert es == r + [e];
      AnyPush(r, e, v);
    }
  }

  ghost predicate AllClean(s: seq<Cond>) {
    forall i :: 0 <= i < |s| ==> Clean(s[i])
  }

  lemma {:induction false} CleanOrAll(s: seq<Cond>)
    requires AllClean(s)
    ensures s == [] || Clean(MkOrAll(s))
  {
    if s != [] {
      CleanOrAll(s[..|s| - 1]);
      if |s| > 1 {
        CleanOr(MkOrAll(s[..|s| - 1]), s[|s| - 1]);
      } else {
        assert MkOrAll(s[..0]) == False;
      }
    }
  }

  // ----- guarded lists -------------------------------------------------------

  /** `DisjointExpr::add_disj`. */
  function AddDisj<T(==)>(d: Disj<T>, other: Disj<T>, p: Cond): Disj<T> {
    if other == [] then d
    else AddGuarded(AddDisj(d, other[..|other| - 1], p), other[|other| - 1].0, MkAnd(other[|other| - 1].1, p))
  }

  lemma PrefixMeans<T>(d: Disj<T>, v: Valuation)
    requires d != [] && Exclusive(d, v)
    ensures var r := d[..|d| - 1]; var e := d[|d| - 1];
      && Exclusive(r, v) && !(Covered(r, v) && Holds(e.1, v)) && (Covered(d, v) <==> Covered(r, v) || Holds(e.1, v))
      && forall x :: Selects(d, v, x) <==> Selects(r, v, x) || (x == e.0 && Holds(e.1, v))
  {
    hide Holds;
    var n := |d| - 1;
    var r := d[..n];
    assert forall i: nat :: Chosen(r, v, i) <==> Chosen(d, v, i) && i < n;
    if Holds(d[n].1, v) {
      assert Chosen(d, v, n);
    }
  }

  /** Adding all entries of `other` under `p`, when `p` holds if one of them applies. */
  lemma {:induction false} AddDisjMeans<T>(d: Disj<T>, other: Disj<T>, p: Cond, v: Valuation)
    requires Exclusive(d, v) && Exclusive(other, v)
    requires (Covered(other, v) ==> Holds(p, v)) && !(Covered(d, v) && Covered(other, v))
    ensures var r := AddDisj(d, other, p);
      && Exclusive(r, v) && (Covered(r, v) <==> Covered(d, v) || Covered(other, v))
      && forall x :: Selects(r, v, x) <==> Selects(d, v, x) || Selects(other, v, x)
  {
    hide Holds, Exclusive, Covered, Selects;
    if other != [] {
      PrefixMeans(other, v);
      var rest, e := other[..|other| - 1], other[|other| - 1];
      AddDisjMeans(d, rest, p, v);
      AndMeans(e.1, p, v);
      AddMeans(AddDisj(d, rest, p), e.0, MkAnd(e.1, p), v);
    } else {
      NothingChosen(other, v);
    }
  }

  lemma NothingChosen<T>(d: Disj<T>, v: Valuation)
    requires d == []
    ensures Exclusive(d, v) && !Covered(d, v) && forall x :: !Selects(d, v, x)
  {
  }

  /** `DisjointExpr::operator()` on terms. */
  function Pick(d: Disj<Term>, default0: Term): Term {
    Collapsed(d, default0, MkIf)
  }

  /** The merged term is the chosen one. */
  lemma PickMeans(d: Disj<Term>, default0: Term, v: Valuation, x: Term)
    requires Exclusive(d, v) && Selects(d, v, x)
    ensures Eval(Pick(d, default0), v) == Eval(x, v)
  {
    var val := t => Eval(t, v);
    forall c, t, e
      ensures val(MkIf(c, t, e)) == if Holds(c, v) then val(t) else val(e)
    {
      IfMeans(c, t, e, v);
    }
    hide Holds, Eval, MkIf;
    CollapsedMeans(d, default0, MkIf, val, v, x);
  }

  // ----- symbolic values against a run ----------------------------------------

  function Val(values: map<nat, Term>, x: nat): Term {
    if x in values then values[x] else Lit([])
  }

  /** Every value that the run has computed is what its term evaluates to. */
  ghost predicate Agree(values: map<nat, Term>, env: map<nat, Bits>, v: Valuation) {
    forall x :: x in env ==> x in values && Eval(values[x], v) == env[x]
  }

  /** The configuration of the run before operation `i` of block `b`. */
  function ConfigAt(p: Program, v: Valuation, b: nat, i: nat): Config
    requires b < |p.blocks| && i <= |p.blocks[b].body|
  {
    match Arrive(p, v, b)
    case Never => Start(p, v)
    case Arrived(pred, c) => ExecOps(p.blocks[b].body[..i], pred, c, v)
  }

  lemma LeaveIsConfig(p: Program, v: Valuation, b: nat)
    requires b < |p.blocks|
    ensures Leave(p, v, b) == ConfigAt(p, v, b, |p.blocks[b].body|)
  {
    assert p.blocks[b].body[..|p.blocks[b].body|] == p.blocks[b].body;
  }

  lemma ConfigStep(p: Program, v: Valuation, b: nat, i: nat)
    requires b < |p.blocks| && i < |p.blocks[b].body| && Arrive(p, v, b).Arrived?
    ensures ConfigAt(p, v, b, i + 1) == ExecOp(p.blocks[b].body[i], Arrive(p, v, b).pred, ConfigAt(p, v, b, i), v)
  {
    var ops := p.blocks[b].body;
    assert ops[..i + 1][..i] == ops[..i];
  }

  // ----- the way a run takes ---------------------------------------------------

  /** The position of the target that the run takes at the end of `b`. */
  function ChoiceAt(p: Program, v: Valuation, b: nat): nat
    requires b < |p.blocks|
  {
    Choice(p.blocks[b].term, Leave(p, v, b).env)
  }

  /** The run leaves `b` well-defined. */
  ghost predicate LeavesRunning(p: Program, v: Valuation, b: nat)
    requires b < |p.blocks|
  {
    Arrive(p, v, b).Arrived? && Leave(p, v, b).status.Running?
  }

  /** Some well-defined run takes target `j` of `b`. */
  ghost predicate TakenBySome(p: Program, b: nat, j: nat)
    requires b < |p.blocks|
  {
    exists v :: LeavesRunning(p, v, b) && ChoiceAt(p, v, b) == j
  }

  /** The run arrives at `b`, and takes only jumps that well-defined runs take as well.
      It may itself have stopped before. */
  ghost predicate Live(p: Program, v: Valuation, b: nat)
    decreases b, 0
  {
    var r := Arrive(p, v, b);
    b < |p.blocks| && r.Arrived? && (b == 0 || (r.pred < b && Followed(p, v, r.pred)))
  }

  /** ... and also takes such a jump out of `b`. */
  ghost predicate Followed(p: Program, v: Valuation, b: nat)
    decreases b, 1
  {
    b < |p.blocks| && Live(p, v, b) && TakenBySome(p, b, ChoiceAt(p, v, b))
  }

  /** A well-defined run only takes such jumps. */
  lemma {:induction false} RunningIsLive(p: Program, v: Valuation, b: nat)
    requires |p.blocks| > 0 && b < |p.blocks| && Arrive(p, v, b).Arrived? && Arrive(p, v, b).c.status.Running?
    ensures Live(p, v, b)
    decreases b
  {
    if b > 0 {
      var a := Arrive(p, v, b).pred;
      ArriveSomewhere(p, v, b);
      ArriveIffGoes(p, v, a, b);
      RunningBefore(p, v, a, |p.blocks[a].body|);
      LeaveIsConfig(p, v, a);
      RunningIsLive(p, v, a);
      assert LeavesRunning(p, v, a);
    }
  }

  lemma RunningBefore(p: Program, v: Valuation, b: nat, i: nat)
    requires b < |p.blocks| && i <= |p.blocks[b].body| && Arrive(p, v, b).Arrived?
    ensures ConfigAt(p, v, b, i).status.Running? ==> Arrive(p, v, b).c.status.Running?
  {
    if !Arrive(p, v, b).c.status.Running? {
      StoppedStays(p.blocks[b].body[..i], Arrive(p, v, b).pred, Arrive(p, v, b).c, v);
    }
  }

  lemma RunningAt(p: Program, v: Valuation, b: nat, i: nat)
    requires b < |p.blocks| && i <= |p.blocks[b].body| && Arrive(p, v, b).Arrived? && ConfigAt(p, v, b, i).status.Running?
    ensures Live(p, v, b)
  {
    RunningBefore(p, v, b, i);
    RunningIsLive(p, v, b);
  }

  lemma LeavingIsFollowed(p: Program, v: Valuation, b: nat)
    requires b < |p.blocks| && LeavesRunning(p, v, b)
    ensures Followed(p, v, b)
  {
    LeaveIsConfig(p, v, b);
    RunningAt(p, v, b, |p.blocks[b].body|);
  }

  lemma GoingIsFollowed(p: Program, v: Valuation, a: nat, d: nat)
    requires a < |p.blocks|
    ensures Goes(p, v, a, d) && Leave(p, v, a).status.Running? ==> Followed(p, v, a)
  {
    if LeavesRunning(p, v, a) {
      LeavingIsFollowed(p, v, a);
    }
  }

  /** The symbolic state matches a configuration. */
  ghost predicate Matches(ub: seq<Cond>, mem: Term, values: map<nat, Term>, c: Config, v: Valuation) {
    Agree(values, c.env, v) && Eval(mem, v) == c.mem && (HoldsAll(ub, v) <==> c.status.Running?)
  }

  /** At operation `i` of block `b`: where the path condition holds the run is here, in
      a matching configuration; and every live run that is here is on the path. */
  ghost predicate HereMeans(p: Program, v: Valuation, path: Cond, ub: seq<Cond>, mem: Term, values: map<nat, Term>, b: nat, i: nat)
    requires b < |p.blocks| && i <= |p.blocks[b].body|
  {
    && (Holds(path, v) ==> Arrive(p, v, b).Arrived? && Matches(ub, mem, values, ConfigAt(p, v, b, i), v))
    && (Live(p, v, b) ==> Holds(path, v))
  }

  ghost predicate On(e: Edge, v: Valuation) {
    Any(e.path, v)
  }

  /** A guarded list of conjunctions that applies exactly if `on`, and then says whether
      the run is well-defined. */
  ghost predicate UbMeans(d: Disj<seq<Cond>>, on: bool, running: bool, v: Valuation) {
    Exclusive(d, v) && (Covered(d, v) <==> on) && forall s :: Selects(d, v, s) ==> (HoldsAll(s, v) <==> running)
  }

  /** A guarded list of memories that applies exactly if `on`, and then selects `mem`. */
  ghost predicate MemMeans(d: Disj<Term>, on: bool, mem: Bits, v: Valuation) {
    Exclusive(d, v) && (Covered(d, v) <==> on) && forall t :: Selects(d, v, t) ==> Eval(t, v) == mem
  }

  lemma NothingMeans(running: bool, mem: Bits, v: Valuation)
    ensures UbMeans([], false, running, v) && MemMeans([], false, mem, v)
  {
    NothingChosen<seq<Cond>>([], v);
    NothingChosen<Term>([], v);
  }

  lemma UbGrows(d: Disj<seq<Cond>>, ub: seq<Cond>, c: Cond, on: bool, running: bool, v: Valuation)
    requires UbMeans(d, on, running, v) && !(on && Holds(c, v)) && (Holds(c, v) ==> (HoldsAll(ub, v) <==> running))
    ensures UbMeans(AddGuarded(d, ub, c), on || Holds(c, v), running, v)
  {
    AddMeans(d, ub, c, v);
    hide Holds, HoldsAll, AddGuarded, Exclusive, Covered, Selects;
  }

  lemma MemGrows(d: Disj<Term>, mem: Term, c: Cond, on: bool, val: Bits, v: Valuation)
    requires MemMeans(d, on, val, v) && !(on && Holds(c, v)) && (Holds(c, v) ==> Eval(mem, v) == val)
    ensures MemMeans(AddGuarded(d, mem, c), on || Holds(c, v), val, v)
  {
    AddMeans(d, mem, c, v);
    hide Holds, AddGuarded, Exclusive, Covered, Selects;
  }

  /** What an edge records about the runs that take it. */
  ghost predicate EdgeMeans(p: Program, v: Valuation, values: map<nat, Term>, e: Edge, a: nat, d: nat) {
    && a < |p.blocks|
    && (On(e, v) ==> Goes(p, v, a, d) && Agree(values, Leave(p, v, a).env, v))
    && UbMeans(e.ub, On(e, v), Leave(p, v, a).status.Running?, v)
    && MemMeans(e.mem, On(e, v), Leave(p, v, a).mem, v)
  }

  ghost predicate Recorded(edges: Edges, a: nat, d: nat) {
    d in edges && a in edges[d]
  }

  /** The edges out of the first `n` blocks. */
  ghost predicate EdgesMean(p: Program, v: Valuation, values: map<nat, Term>, edges: Edges, n: nat) {
    && n <= |p.blocks|
    && (forall a: nat, d: nat :: Recorded(edges, a, d) ==> a < n && EdgeMeans(p, v, values, edges[d][a], a, d))
    && (forall a: nat, d: nat :: a < n && Goes(p, v, a, d) && Followed(p, v, a) ==> Recorded(edges, a, d) && On(edges[d][a], v))
  }

  /** Edges keep sorted conjunction sets and guards that are not `False`. */
  ghost predicate EdgeShape(e: Edge, id: Ids) {
    && e.path != [] && e.mem != [] && AllClean(e.path) && Domains(e.ub, id)
    && (forall i :: 0 <= i < |e.ub| ==> Clean(e.ub[i].1))
  }

  ghost predicate EdgesShape(edges: Edges, id: Ids) {
    (forall d :: d in edges ==> edges[d] != map[]) && forall a: nat, d: nat :: Recorded(edges, a, d) ==> EdgeShape(edges[d][a], id)
  }

  // ----- new values ----------------------------------------------------------

  ghost predicate DefinesAt(p: Program, b: nat, i: nat, x: nat) {
    b < |p.blocks| && i < |p.blocks[b].body| &&
    ((p.blocks[b].body[i].Def? && p.blocks[b].body[i].x == x) || (p.blocks[b].body[i].Phi? && p.blocks[b].body[i].x == x))
  }

  /** Static single assignment: no value is defined twice. */
  ghost predicate UniqueDefs(p: Program) {
    && (forall b: nat, i: nat, c: nat, j: nat, x: nat :: DefinesAt(p, b, i, x) && DefinesAt(p, c, j, x) ==> b == c && i == j)
    && (forall b: nat, i: nat, x: nat :: DefinesAt(p, b, i, x) ==> x !in p.inputs)
  }

  ghost predicate DefinedEarlier(p: Program, b: nat, i: nat, x: nat) {
    exists c: nat, j: nat :: DefinesAt(p, c, j, x) && (c < b || (c == b && j < i))
  }

  /** Only inputs and values defined before this point have terms. */
  ghost predicate ValuesFrom(p: Program, values: map<nat, Term>, b: nat, i: nat) {
    forall x :: x in values ==> x in p.inputs || DefinedEarlier(p, b, i, x)
  }

  lemma FreshName(p: Program, values: map<nat, Term>, b: nat, i: nat, x: nat)
    requires UniqueDefs(p) && ValuesFrom(p, values, b, i) && DefinesAt(p, b, i, x)
    ensures x !in values
  {
  }

  lemma ValuesStep(p: Program, values: map<nat, Term>, b: nat, i: nat, x: nat, t: Term)
    requires ValuesFrom(p, values, b, i) && DefinesAt(p, b, i, x)
    ensures ValuesFrom(p, values[x := t], b, i + 1)
  {
    forall y | y in values[x := t] && y !in p.inputs
      ensures DefinedEarlier(p, b, i + 1, y)
    {
      if y == x {
        assert DefinesAt(p, b, i, y) && i < i + 1;
      } else {
        var c: nat, j: nat :| DefinesAt(p, c, j, y) && (c < b || (c == b && j < i));
      }
    }
  }

  lemma ValuesLater(p: Program, values: map<nat, Term>, b: nat, i: nat, c: nat, j: nat)
    requires ValuesFrom(p, values, b, i) && (b < c || (b == c && i <= j))
    ensures ValuesFrom(p, values, c, j)
  {
    forall y | y in values && y !in p.inputs
      ensures DefinedEarlier(p, c, j, y)
    {
      var e: nat, k: nat :| DefinesAt(p, e, k, y) && (e < b || (e == b && k < i));
    }
  }

  /** A fresh value disturbs no agreement. */
  lemma AgreeFresh(values: map<nat, Term>, env: map<nat, Bits>, v: Valuation, x: nat, t: Term)
    requires Agree(values, env, v) && x !in values
    ensures Agree(values[x := t], env, v)
    ensures Agree(values[x := t], env[x := Eval(t, v)], v)
  {
  }

  lemma EdgesFresh(p: Program, v: Valuation, values: map<nat, Term>, edges: Edges, n: nat, x: nat, t: Term)
    requires EdgesMean(p, v, values, edges, n) && x !in values
    ensures EdgesMean(p, v, values[x := t], edges, n)
  {
    hide Goes, Eval, Holds, UbMeans, MemMeans;
    forall a: nat, d: nat | Recorded(edges, a, d)
      ensures EdgeMeans(p, v, values[x := t], edges[d][a], a, d)
    {
      assert EdgeMeans(p, v, values, edges[d][a], a, d);
    }
  }

  // ----- uses ----------------------------------------------------------------

  /** The operands of an operation are defined on the run. */
  ghost predicate OpDefined(op: Op, pred: nat, env: map<nat, Bits>) {
    match op
    case Def(_, _, a, b) => a in env && b in env
    case Phi(_, sources) => var i := SourceOf(sources, pred); i < |sources| && sources[i].0 in env
    case Require(c) => c in env
    case Write(_, a) => a in env
    case ExitIf(c) => c in env
  }

  ghost predicate TermDefined(t: Terminator, env: map<nat, Bits>) {
    match t
    case Jump(_) => true
    case Branch(c, _, _) => c in env
    case Switch(c, _, _) => c in env
    case Return(x) => x in env
  }

  /** Every run defines values before it uses them. */
  ghost predicate UsesDefined(p: Program, v: Valuation) {
    forall b: nat :: b < |p.blocks| && Arrive(p, v, b).Arrived? ==>
      && (forall i: nat :: i < |p.blocks[b].body| ==> OpDefined(p.blocks[b].body[i], Arrive(p, v, b).pred, ConfigAt(p, v, b, i).env))
      && TermDefined(p.blocks[b].term, Leave(p, v, b).env)
  }

  /** A phi names one value for each predecessor. */
  ghost predicate PhiOk(sources: seq<(nat, nat)>) {
    forall i, j :: 0 <= i < |sources| && 0 <= j < |sources| && sources[i].1 == sources[j].1 ==> sources[i].0 == sources[j].0
  }

  ghost predicate Valid(p: Program) {
    && WellFormed(p) && UniqueDefs(p) && (forall v :: UsesDefined(p, v))
    && (forall b, i :: 0 <= b < |p.blocks| && 0 <= i < |p.blocks[b].body| && p.blocks[b].body[i].Phi? ==> PhiOk(p.blocks[b].body[i].sources))
    && (forall i :: 0 <= i < |p.blocks[0].body| ==> !p.blocks[0].body[i].Phi?)
  }

  lemma UsesAt(p: Program, v: Valuation, b: nat, i: nat)
    requires Valid(p) && b < |p.blocks| && i < |p.blocks[b].body| && Arrive(p, v, b).Arrived?
    ensures OpDefined(p.blocks[b].body[i], Arrive(p, v, b).pred, ConfigAt(p, v, b, i).env)
  {
    assert UsesDefined(p, v);
  }

  lemma TermUses(p: Program, v: Valuation, b: nat)
    requires Valid(p) && b < |p.blocks| && Arrive(p, v, b).Arrived?
    ensures TermDefined(p.blocks[b].term, Leave(p, v, b).env)
  {
    assert UsesDefined(p, v);
  }

  // ----- operations ----------------------------------------------------------

  /** The condition under which a value is not zero. */
  function NonZero(t: Term): Cond {
    MkNot(IsZero(t))
  }

  lemma NonZeroMeans(t: Term, v: Valuation)
    ensures Holds(NonZero(t), v) <==> !ZeroBits(Eval(t, v))
    ensures Clean(NonZero(t)) && Clean(MkNot(NonZero(t)))
  {
  }

  lemma DefMeans(p: Program, v: Valuation, path: Cond, ub: seq<Cond>, mem: Term, values: map<nat, Term>, b: nat, i: nat)
    requires Valid(p) && b < |p.blocks| && i < |p.blocks[b].body| && p.blocks[b].body[i].Def?
    requires HereMeans(p, v, path, ub, mem, values, b, i) && ValuesFrom(p, values, b, i)
    ensures var op := p.blocks[b].body[i];
      HereMeans(p, v, path, ub, mem, values[op.x := App(op.fn, Val(values, op.a), Val(values, op.b))], b, i + 1)
  {
    var op := p.blocks[b].body[i];
    var t := App(op.fn, Val(values, op.a), Val(values, op.b));
    assert DefinesAt(p, b, i, op.x);
    FreshName(p, values, b, i, op.x);
    hide Valid, UniqueDefs, ValuesFrom, ConfigAt, HoldsAll;
    if Arrive(p, v, b).Arrived? {
      ConfigStep(p, v, b, i);
      UsesAt(p, v, b, i);
      var c := ConfigAt(p, v, b, i);
      if Holds(path, v) {
        AgreeFresh(values, c.env, v, op.x, t);
        assert Eval(t, v) == v.fn(op.fn, Get(c.env, op.a), Get(c.env, op.b));
      }
    }
  }

  lemma WriteMeans(p: Program, v: Valuation, path: Cond, ub: seq<Cond>, mem: Term, values: map<nat, Term>, b: nat, i: nat)
    requires Valid(p) && b < |p.blocks| && i < |p.blocks[b].body| && p.blocks[b].body[i].Write?
    requires HereMeans(p, v, path, ub, mem, values, b, i)
    ensures var op := p.blocks[b].body[i];
      HereMeans(p, v, path, ub, App(op.fn, mem, Val(values, op.a)), values, b, i + 1)
  {
    hide Valid, ConfigAt, HoldsAll;
    if Arrive(p, v, b).Arrived? {
      ConfigStep(p, v, b, i);
      UsesAt(p, v, b, i);
    }
  }

  /** Adding the condition that a value is not zero: undefined behaviour, or the rest of
      the block after a call that may not return. */
  lemma RequireMeans(p: Program, v: Valuation, path: Cond, ub: seq<Cond>, mem: Term, values: map<nat, Term>, b: nat, i: nat, id: Ids)
    requires Valid(p) && b < |p.blocks| && i < |p.blocks[b].body| && p.blocks[b].body[i].Require? && Injective(id) && Sorted(ub, id)
    requires HereMeans(p, v, path, ub, mem, values, b, i)
    ensures var op := p.blocks[b].body[i];
      HereMeans(p, v, path, AndAdd(ub, NonZero(Val(values, op.c)), 16, id), mem, values, b, i + 1)
  {
    var x := p.blocks[b].body[i].c;
    AndAddMeans(ub, NonZero(Val(values, x)), 16, id, v);
    NonZeroMeans(Val(values, x), v);
    hide Valid, ConfigAt, HoldsAll, AndAdd, NonZero;
    if Arrive(p, v, b).Arrived? {
      ConfigStep(p, v, b, i);
      UsesAt(p, v, b, i);
    }
  }

  lemma ExitMeans(p: Program, v: Valuation, path: Cond, ub: seq<Cond>, mem: Term, values: map<nat, Term>, b: nat, i: nat, id: Ids)
    requires Valid(p) && b < |p.blocks| && i < |p.blocks[b].body| && p.blocks[b].body[i].ExitIf? && Injective(id) && Sorted(ub, id)
    requires HereMeans(p, v, path, ub, mem, values, b, i)
    ensures var op := p.blocks[b].body[i];
      HereMeans(p, v, path, AndAdd(ub, MkNot(NonZero(Val(values, op.c))), 16, id), mem, values, b, i + 1)
  {
    var x := p.blocks[b].body[i].c;
    AndAddMeans(ub, MkNot(NonZero(Val(values, x))), 16, id, v);
    NonZeroMeans(Val(values, x), v);
    NotMeans(NonZero(Val(values, x)), v);
    hide Valid, ConfigAt, HoldsAll, AndAdd, NonZero;
    if Arrive(p, v, b).Arrived? {
      ConfigStep(p, v, b, i);
      UsesAt(p, v, b, i);
    }
  }
}
