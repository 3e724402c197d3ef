/** How runs leave a block, and the function: jumps, returns and calls that do not
    return (ir/state.cpp). */
module Exits {
  import opened Terms
  import opened Guarded
  import opened Factor
  import opened Execution
  import opened SymExec

  // ----- jumps ---------------------------------------------------------------

  ghost predicate EdgesSound(p: Program, v: Valuation, values: map<nat, Term>, edges: Edges, b: nat) {
    forall a: nat, d: nat :: Recorded(edges, a, d) ==> a <= b && EdgeMeans(p, v, values, edges[d][a], a, d)
  }

  /** An edge of block `b` that holds leads to one of the first `j` targets. */
  ghost predicate Decided(p: Program, v: Valuation, edges: Edges, b: nat, j: nat)
    requires b < |p.blocks|
  {
    forall d: nat :: Recorded(edges, b, d) && On(edges[d][b], v) ==> ChoiceAt(p, v, b) < j
  }

  /** Edges that live runs take out of earlier blocks are recorded. */
  ghost predicate Complete(p: Program, v: Valuation, edges: Edges, b: nat)
    requires b <= |p.blocks|
  {
    forall a: nat, d: nat :: a < b && Goes(p, v, a, d) && Followed(p, v, a) ==> Recorded(edges, a, d) && On(edges[d][a], v)
  }

  /** The edge that a live run takes is recorded, if it is one of the first `j`. */
  ghost predicate Left(p: Program, v: Valuation, edges: Edges, b: nat, j: nat)
    requires b < |p.blocks|
  {
    Followed(p, v, b) && ChoiceAt(p, v, b) < j && ChoiceAt(p, v, b) < |Targets(p.blocks[b].term)| ==>
      var d := Landing(p, b, Targets(p.blocks[b].term)[ChoiceAt(p, v, b)]);
      Recorded(edges, b, d) && On(edges[d][b], v)
  }

  /** The edges after the first `j` jumps of block `b` have been handled. */
  ghost predicate Leaving(p: Program, v: Valuation, values: map<nat, Term>, edges: Edges, b: nat, j: nat) {
    && b < |p.blocks| && EdgesSound(p, v, values, edges, b) && Decided(p, v, edges, b, j)
    && Complete(p, v, edges, b) && Left(p, v, edges, b, j)
  }

  lemma LeavingStarts(p: Program, v: Valuation, values: map<nat, Term>, edges: Edges, b: nat)
    requires b < |p.blocks| && EdgesMean(p, v, values, edges, b)
    ensures Leaving(p, v, values, edges, b, 0)
  {
    hide EdgeMeans, Goes, On;
  }

  lemma LeavingEnds(p: Program, v: Valuation, values: map<nat, Term>, edges: Edges, b: nat)
    requires b < |p.blocks| && Leaving(p, v, values, edges, b, |Targets(p.blocks[b].term)|)
    ensures EdgesMean(p, v, values, edges, b + 1)
  {
    hide EdgeMeans, On, Landing, Leave;
  }

  function EdgeAt(edges: Edges, a: nat, d: nat): Edge {
    if d in edges && a in edges[d] then edges[d][a] else Edge([], [], [])
  }

  function Record(edges: Edges, a: nat, d: nat, e: Edge): Edges {
    edges[d := (if d in edges then edges[d] else map[])[a := e]]
  }

  function Extended(e: Edge, ub: seq<Cond>, mem: Term, c: Cond): Edge {
    Edge(OrAdd(e.path, c), AddGuarded(e.ub, ub, c), AddGuarded(e.mem, mem, c))
  }

  lemma EdgeAtMeans(p: Program, v: Valuation, values: map<nat, Term>, edges: Edges, b: nat, d: nat, j: nat)
    requires Leaving(p, v, values, edges, b, j)
    ensures EdgeMeans(p, v, values, EdgeAt(edges, b, d), b, d)
    ensures On(EdgeAt(edges, b, d), v) ==> ChoiceAt(p, v, b) < j
  {
    if Recorded(edges, b, d) {
      hide EdgeMeans, On;
    } else {
      NothingMeans(Leave(p, v, b).status.Running?, Leave(p, v, b).mem, v);
    }
  }

  /** Where the path condition holds, `cond` holds exactly when the run takes target `j`. */
  ghost predicate Decides(p: Program, v: Valuation, path: Cond, b: nat, cond: Cond, j: nat) {
    b < |p.blocks| && (Holds(path, v) ==> (Holds(cond, v) <==> ChoiceAt(p, v, b) == j))
  }

  /** What the state at the end of a block says about the run leaving it. */
  lemma HereAtEnd(p: Program, v: Valuation, path: Cond, ub: seq<Cond>, mem: Term, values: map<nat, Term>, b: nat)
    requires b < |p.blocks| && HereMeans(p, v, path, ub, mem, values, b, |p.blocks[b].body|)
    ensures Holds(path, v) ==> Arrive(p, v, b).Arrived? && Matches(ub, mem, values, Leave(p, v, b), v)
    ensures Followed(p, v, b) ==> Holds(path, v)
  {
    LeaveIsConfig(p, v, b);
    hide Holds, Matches, ConfigAt;
  }

  lemma GoesByChoice(p: Program, v: Valuation, b: nat, d: nat, j: nat)
    requires b < |p.blocks| && !p.blocks[b].term.Return? && j < |Targets(p.blocks[b].term)| && d == Landing(p, b, Targets(p.blocks[b].term)[j])
    requires Arrive(p, v, b).Arrived? && ChoiceAt(p, v, b) == j
    ensures Goes(p, v, b, d)
  {
  }

  /** Recording the state under a condition that means the run takes this edge. */
  lemma ExtendMeans(p: Program, v: Valuation, values: map<nat, Term>, e: Edge, b: nat, d: nat, ub: seq<Cond>, mem: Term, path: Cond, cond: Cond, j: nat)
    requires b < |p.blocks| && HereMeans(p, v, path, ub, mem, values, b, |p.blocks[b].body|)
    requires !p.blocks[b].term.Return? && j < |Targets(p.blocks[b].term)| && d == Landing(p, b, Targets(p.blocks[b].term)[j])
    requires EdgeMeans(p, v, values, e, b, d) && (On(e, v) ==> ChoiceAt(p, v, b) < j) && Decides(p, v, path, b, cond, j)
    ensures var e' := Extended(e, ub, mem, MkAnd(cond, path));
      EdgeMeans(p, v, values, e', b, d) && (On(e', v) <==> On(e, v) || (Holds(path, v) && ChoiceAt(p, v, b) == j))
  {
    AndMeans(cond, path, v);
    HereAtEnd(p, v, path, ub, mem, values, b);
    if Holds(path, v) && ChoiceAt(p, v, b) == j {
      GoesByChoice(p, v, b, d, j);
    }
    hide Agree, Holds, HoldsAll, MkAnd, On, EdgeMeans, Extended, Landing, Leave, HereMeans, Goes, ChoiceAt, Targets;
    ExtendedMeans(p, v, values, e, b, d, ub, mem, MkAnd(cond, path));
  }

  lemma ExtendedMeans(p: Program, v: Valuation, values: map<nat, Term>, e: Edge, b: nat, d: nat, ub: seq<Cond>, mem: Term, c: Cond)
    requires b < |p.blocks| && EdgeMeans(p, v, values, e, b, d) && !(On(e, v) && Holds(c, v))
    requires Holds(c, v) ==> Goes(p, v, b, d) && Matches(ub, mem, values, Leave(p, v, b), v)
    ensures var e' := Extended(e, ub, mem, c);
      EdgeMeans(p, v, values, e', b, d) && (On(e', v) <==> On(e, v) || Holds(c, v))
  {
    OrAddMeans(e.path, c, v);
    hide Agree, Holds, HoldsAll, Any, OrAdd, AddGuarded, Leave, Goes, UbMeans, MemMeans;
    UbGrows(e.ub, ub, c, On(e, v), Leave(p, v, b).status.Running?, v);
    MemGrows(e.mem, mem, c, On(e, v), Leave(p, v, b).mem, v);
  }

  /** The path condition has not been used up, or an unconditional jump has taken it. */
  ghost predicate PathLeft(p: Program, v: Valuation, path0: Cond, path: Cond, b: nat, j: nat) {
    b < |p.blocks| && (path == path0 || (path == False && (Followed(p, v, b) ==> ChoiceAt(p, v, b) < j)))
  }

  /** A jump that is recorded. */
  lemma JumpMeans(p: Program, v: Valuation, values: map<nat, Term>, edges: Edges, b: nat, ub: seq<Cond>, mem: Term, path: Cond, cond: Cond, j: nat)
    requires b < |p.blocks| && HereMeans(p, v, path, ub, mem, values, b, |p.blocks[b].body|)
    requires !p.blocks[b].term.Return? && j < |Targets(p.blocks[b].term)|
    requires Leaving(p, v, values, edges, b, j) && Decides(p, v, path, b, cond, j)
    ensures var d := Landing(p, b, Targets(p.blocks[b].term)[j]);
      Leaving(p, v, values, Record(edges, b, d, Extended(EdgeAt(edges, b, d), ub, mem, MkAnd(cond, path))), b, j + 1)
  {
    var d := Landing(p, b, Targets(p.blocks[b].term)[j]);
    HereAtEnd(p, v, path, ub, mem, values, b);
    EdgeAtMeans(p, v, values, edges, b, d, j);
    var e := EdgeAt(edges, b, d);
    ExtendMeans(p, v, values, e, b, d, ub, mem, path, cond, j);
    var e' := Extended(e, ub, mem, MkAnd(cond, path));
    hide EdgeMeans, On, Extended, Goes, Leave, Decides, HereMeans, Matches, ChoiceAt, Followed, Landing, Targets, Record, Leaving;
    RecordMeans(p, v, values, edges, b, d, e', j);
  }

  lemma RecordedAfter(edges: Edges, b: nat, d: nat, e: Edge)
    ensures var edges' := Record(edges, b, d, e);
      Recorded(edges', b, d) && edges'[d][b] == e
      && (forall a: nat, x: nat :: !(a == b && x == d) ==> (Recorded(edges', a, x) <==> Recorded(edges, a, x)))
      && (forall a: nat, x: nat :: !(a == b && x == d) && Recorded(edges, a, x) ==> edges'[x][a] == edges[x][a])
  {
  }

  /** Recording the edge of target `j`, extended by the runs that take this target. */
  lemma RecordMeans(p: Program, v: Valuation, values: map<nat, Term>, edges: Edges, b: nat, d: nat, e: Edge, j: nat)
    requires b < |p.blocks| && j < |Targets(p.blocks[b].term)| && d == Landing(p, b, Targets(p.blocks[b].term)[j])
    requires Leaving(p, v, values, edges, b, j) && EdgeMeans(p, v, values, e, b, d)
    requires On(e, v) ==> ChoiceAt(p, v, b) <= j
    requires On(EdgeAt(edges, b, d), v) || (Followed(p, v, b) && ChoiceAt(p, v, b) == j) ==> On(e, v)
    ensures Leaving(p, v, values, Record(edges, b, d, e), b, j + 1)
  {
    RecordedAfter(edges, b, d, e);
    hide EdgeMeans, On, Goes, Leave, ChoiceAt, Followed, Landing, Targets, Record;
    var edges' := Record(edges, b, d, e);
    assert EdgesSound(p, v, values, edges', b) by { hide Recorded; }
    assert Decided(p, v, edges', b, j + 1) by { hide Recorded; }
    assert Complete(p, v, edges', b) by { hide Recorded; }
    assert Left(p, v, edges', b, j + 1);
  }

  /** A jump that no live run takes need not be recorded. */
  lemma SkipMeans(p: Program, v: Valuation, values: map<nat, Term>, edges: Edges, b: nat, j: nat)
    requires Leaving(p, v, values, edges, b, j) && !(Followed(p, v, b) && ChoiceAt(p, v, b) == j)
    ensures Leaving(p, v, values, edges, b, j + 1)
  {
    hide EdgeMeans, On, Landing, Goes, Leave, ChoiceAt, Followed;
  }

  /** A state that is not satisfiable on its face is not on the way of a well-defined run. */
  lemma NotHere(p: Program, v: Valuation, path: Cond, ub: seq<Cond>, mem: Term, values: map<nat, Term>, b: nat, i: nat)
    requires b < |p.blocks| && i <= |p.blocks[b].body| && HereMeans(p, v, path, ub, mem, values, b, i)
    requires path == False || False in ub
    ensures !(Arrive(p, v, b).Arrived? && ConfigAt(p, v, b, i).status.Running?)
  {
    ConstantsMean(v);
    HoldsAllMembers(ub, v);
    if Arrive(p, v, b).Arrived? && ConfigAt(p, v, b, i).status.Running? {
      RunningAt(p, v, b, i);
    }
    hide Holds, ConfigAt, Agree, HoldsAll;
  }

  /** A block that is skipped is not on the way of a well-defined run. */
  lemma SkippedBlock(p: Program, v: Valuation, values: map<nat, Term>, edges: Edges, b: nat)
    requires b < |p.blocks| && EdgesMean(p, v, values, edges, b)
    requires forall v' :: !(Arrive(p, v', b).Arrived? && ConfigAt(p, v', b, 0).status.Running?)
    ensures EdgesMean(p, v, values, edges, b + 1)
  {
    forall v'
      ensures !LeavesRunning(p, v', b)
    {
      NeverRuns(p, v', b, |p.blocks[b].body|);
      LeaveIsConfig(p, v', b);
    }
    hide EdgeMeans, On, Landing, Leave, ConfigAt, Goes;
    assert !Followed(p, v, b);
  }

  lemma NeverRuns(p: Program, v: Valuation, b: nat, i: nat)
    requires b < |p.blocks| && i <= |p.blocks[b].body|
    requires !(Arrive(p, v, b).Arrived? && ConfigAt(p, v, b, 0).status.Running?)
    ensures !(Arrive(p, v, b).Arrived? && ConfigAt(p, v, b, i).status.Running?)
  {
    if Arrive(p, v, b).Arrived? {
      StoppedStays(p.blocks[b].body[..i], Arrive(p, v, b).pred, Arrive(p, v, b).c, v);
    }
  }

  // ----- jump conditions -----------------------------------------------------

  lemma BranchDecides(p: Program, v: Valuation, path: Cond, ub: seq<Cond>, mem: Term, values: map<nat, Term>, b: nat)
    requires Valid(p) && b < |p.blocks| && p.blocks[b].term.Branch?
    requires HereMeans(p, v, path, ub, mem, values, b, |p.blocks[b].body|)
    ensures var c := IsZero(Val(values, p.blocks[b].term.c));
      Decides(p, v, path, b, MkNot(c), 0) && Decides(p, v, path, b, c, 1)
  {
    if Holds(path, v) {
      LeaveIsConfig(p, v, b);
      TermUses(p, v, b);
      NotMeans(IsZero(Val(values, p.blocks[b].term.c)), v);
      hide Valid, ConfigAt, HoldsAll, Leave, MkNot;
    }
  }

  function CaseCond(values: map<nat, Term>, t: Terminator, k: nat): Cond
    requires t.Switch? && k < |t.cases|
  {
    Equal(Val(values, t.c), Lit(t.cases[k].0))
  }

  /** None of the first `k` cases applies. */
  function DefaultCond(values: map<nat, Term>, t: Terminator, k: nat): Cond
    requires t.Switch? && k <= |t.cases|
  {
    if k == 0 then True else MkAnd(DefaultCond(values, t, k - 1), MkNot(CaseCond(values, t, k - 1)))
  }

  lemma {:induction false} DefaultMeans(values: map<nat, Term>, t: Terminator, k: nat, v: Valuation)
    requires t.Switch? && k <= |t.cases|
    ensures Holds(DefaultCond(values, t, k), v) <==> forall i :: 0 <= i < k ==> Eval(Val(values, t.c), v) != t.cases[i].0
    ensures DefaultCond(values, t, k) == False || Clean(DefaultCond(values, t, k))
  {
    if k > 0 {
      DefaultMeans(values, t, k - 1, v);
      AndMeans(DefaultCond(values, t, k - 1), MkNot(CaseCond(values, t, k - 1)), v);
      NotMeans(CaseCond(values, t, k - 1), v);
      CleanAnd(DefaultCond(values, t, k - 1), MkNot(CaseCond(values, t, k - 1)));
    }
  }

  lemma CaseDecides(values: map<nat, Term>, t: Terminator, env: map<nat, Bits>, k: nat, v: Valuation)
    requires t.Switch? && DistinctCases(t.cases) && Eval(Val(values, t.c), v) == Get(env, t.c) && k < |t.cases|
    ensures Holds(CaseCond(values, t, k), v) <==> Choice(t, env) == k
  {
    hide Val, Get;
    assert Eval(Lit(t.cases[k].0), v) == t.cases[k].0;
  }

  lemma DefaultDecides(values: map<nat, Term>, t: Terminator, env: map<nat, Bits>, v: Valuation)
    requires t.Switch? && Eval(Val(values, t.c), v) == Get(env, t.c)
    ensures Holds(DefaultCond(values, t, |t.cases|), v) <==> Choice(t, env) == |t.cases|
  {
    DefaultMeans(values, t, |t.cases|, v);
    hide Val, Get, DefaultCond, Eval, Holds;
  }

  lemma SwitchDecides(p: Program, v: Valuation, path: Cond, ub: seq<Cond>, mem: Term, values: map<nat, Term>, b: nat)
    requires Valid(p) && b < |p.blocks| && p.blocks[b].term.Switch?
    requires HereMeans(p, v, path, ub, mem, values, b, |p.blocks[b].body|)
    ensures var t := p.blocks[b].term;
      (forall k: nat :: k < |t.cases| ==> Decides(p, v, path, b, CaseCond(values, t, k), k))
      && Decides(p, v, path, b, DefaultCond(values, t, |t.cases|), |t.cases|)
  {
    var t := p.blocks[b].term;
    if Holds(path, v) {
      HereAtEnd(p, v, path, ub, mem, values, b);
      TermUses(p, v, b);
      assert DistinctCases(t.cases);
      var env := Leave(p, v, b).env;
      hide Valid, HoldsAll, Leave, DefaultCond, CaseCond, Holds, Eval, HereMeans, Choice;
      assert Agree(values, env, v) && t.c in env;
      DefaultDecides(values, t, env, v);
      forall k: nat | k < |t.cases|
        ensures Decides(p, v, path, b, CaseCond(values, t, k), k)
      {
        CaseDecides(values, t, env, k, v);
      }
    }
  }

  // ----- the end of the run --------------------------------------------------

  ghost predicate ReturnsAt(p: Program, v: Valuation, a: nat) {
    a < |p.blocks| && Arrive(p, v, a).Arrived? && p.blocks[a].term.Return?
  }

  /** The run returns in one of the first `n` blocks. */
  ghost predicate ReturnsBefore(p: Program, v: Valuation, n: nat) {
    exists a: nat :: a < n && ReturnsAt(p, v, a)
  }

  /** A call at operation `j` of block `a` does not return. */
  ghost predicate ExitsAt(p: Program, v: Valuation, a: nat, j: nat) {
    && a < |p.blocks| && j < |p.blocks[a].body| && p.blocks[a].body[j].ExitIf? && Arrive(p, v, a).Arrived?
    && var c := ConfigAt(p, v, a, j); c.status.Running? && !ZeroBits(Get(c.env, p.blocks[a].body[j].c))
  }

  ghost predicate ExitsBefore(p: Program, v: Valuation, b: nat, i: nat) {
    exists a: nat, j: nat :: ExitsAt(p, v, a, j) && (a < b || (a == b && j < i))
  }

  /** Once stopped, a run is stopped at its end. */
  lemma {:induction false} StoppedToEnd(p: Program, s: RunState, v: Valuation)
    requires !s.c.status.Running?
    ensures EndFrom(p, s, v).c.status == s.c.status
    decreases if s.At? then |p.blocks| - s.b else 0
  {
    if s.At? && s.b < |p.blocks| {
      StoppedStays(p.blocks[s.b].body, s.pred, s.c, v);
      var s' := Step(p, s.b, s.pred, s.c, v);
      if s'.At? {
        StoppedToEnd(p, s', v);
      }
    }
  }

  lemma SplitOps(ops: seq<Op>, i: nat, pred: nat, c: Config, v: Valuation)
    requires i <= |ops|
    ensures ExecOps(ops, pred, c, v) == ExecOps(ops[i..], pred, ExecOps(ops[..i], pred, c, v), v)
    decreases |ops|
  {
    if i == |ops| {
      assert ops[..i] == ops && ops[i..] == [];
    } else {
      SplitOps(ops[..|ops| - 1], i, pred, c, v);
      assert ops[..|ops| - 1][..i] == ops[..i] && ops[..|ops| - 1][i..] == ops[i..][..|ops| - i - 1];
    }
  }

  /** Where the run is stopped, it is stopped at the end, for the same reason. */
  lemma StoppedAt(p: Program, v: Valuation, a: nat, i: nat)
    requires a < |p.blocks| && i <= |p.blocks[a].body| && Arrive(p, v, a).Arrived? && !ConfigAt(p, v, a, i).status.Running?
    ensures End(p, v).c.status == ConfigAt(p, v, a, i).status
  {
    var r := Arrive(p, v, a);
    SplitOps(p.blocks[a].body, i, r.pred, r.c, v);
    StoppedStays(p.blocks[a].body[i..], r.pred, ConfigAt(p, v, a, i), v);
    ArriveThrough(p, At(0, |p.blocks|, Start(p, v)), a, a, v);
    var s' := Step(p, a, r.pred, r.c, v);
    hide ExecOps, Arrive;
    StoppedToEnd(p, s', v);
  }

  lemma ExitStops(p: Program, v: Valuation, a: nat, j: nat)
    requires ExitsAt(p, v, a, j)
    ensures End(p, v).c.status == Exited(ConfigAt(p, v, a, j).mem)
  {
    ConfigStep(p, v, a, j);
    StoppedAt(p, v, a, j + 1);
  }

  /** A run that has exited did so at some call before. */
  lemma {:induction false} ExitFound(p: Program, v: Valuation, b: nat, i: nat)
    requires b < |p.blocks| && i <= |p.blocks[b].body| && Arrive(p, v, b).Arrived? && ConfigAt(p, v, b, i).status.Exited?
    ensures ExitsBefore(p, v, b, i)
    decreases b, i
  {
    if i > 0 {
      ConfigStep(p, v, b, i - 1);
      if ConfigAt(p, v, b, i - 1).status.Exited? {
        ExitFound(p, v, b, i - 1);
      } else {
        assert ExitsAt(p, v, b, i - 1);
      }
    } else if b > 0 {
      var a := Arrive(p, v, b).pred;
      ArriveSomewhere(p, v, b);
      ArriveIffGoes(p, v, a, b);
      LeaveIsConfig(p, v, a);
      ExitFound(p, v, a, |p.blocks[a].body|);
    }
  }

  /** The run stops at a call exactly when it does so in one of the blocks. */
  lemma ExitsIffExited(p: Program, v: Valuation)
    requires WellFormed(p)
    ensures ExitsBefore(p, v, |p.blocks|, 0) <==> End(p, v).c.status.Exited?
  {
    if ExitsBefore(p, v, |p.blocks|, 0) {
      var a: nat, j: nat :| ExitsAt(p, v, a, j);
      ExitStops(p, v, a, j);
    }
    if End(p, v).c.status.Exited? {
      var a := EndSomewhere(p, v);
      LeaveIsConfig(p, v, a);
      ExitFound(p, v, a, |p.blocks[a].body|);
    }
  }

  /** After returning in `a`, the run arrives nowhere else. */
  lemma ReturnEnds(p: Program, v: Valuation, a: nat, b: nat)
    requires ReturnsAt(p, v, a) && a < b
    ensures !Arrive(p, v, b).Arrived?
  {
    ArriveThrough(p, At(0, |p.blocks|, Start(p, v)), a, b, v);
  }

  /** The run returns exactly when it does so in one of the blocks. */
  lemma ReturnsIffReturned(p: Program, v: Valuation)
    requires WellFormed(p)
    ensures ReturnsBefore(p, v, |p.blocks|) <==> End(p, v).Returned?
  {
    if ReturnsBefore(p, v, |p.blocks|) {
      var a: nat :| a < |p.blocks| && ReturnsAt(p, v, a);
      EndAt(p, v, a);
    }
    if End(p, v).Returned? {
      var a := EndSomewhere(p, v);
      assert ReturnsAt(p, v, a);
    }
  }
}
