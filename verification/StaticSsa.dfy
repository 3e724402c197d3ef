/** The usual static rule, that definitions dominate uses, is enough for what symbolic
    execution needs: every run defines values before it uses them. */
module StaticSsa {
  import Cfg
  import opened Execution
  import opened SymExec
  import opened Terms

  ghost function GraphOf(p: Program): Cfg.Graph {
    seq(|p.blocks|, b requires 0 <= b < |p.blocks| => Targets(p.blocks[b].term))
  }

  /** `x` is defined in a block that dominates `b`, which may be `b` itself. */
  ghost predicate Available(p: Program, b: nat, x: nat) {
    x in p.inputs || exists c: nat, j: nat :: DefinesAt(p, c, j, x) && Cfg.Dominates(GraphOf(p), c, b)
  }

  /** `x` may be used before operation `i` of block `b`. */
  ghost predicate UsableAt(p: Program, b: nat, i: nat, x: nat) {
    x in p.inputs || exists c: nat, j: nat :: DefinesAt(p, c, j, x) && (if c == b then j < i else Cfg.Dominates(GraphOf(p), c, b))
  }

  ghost predicate OpUses(p: Program, b: nat, i: nat, op: Op) {
    match op
    case Def(_, _, a, c) => UsableAt(p, b, i, a) && UsableAt(p, b, i, c)
    case Phi(_, sources) =>
      forall a: nat :: Cfg.Edge(GraphOf(p), a, b) ==>
        var s := SourceOf(sources, a); s < |sources| && Available(p, a, sources[s].0)
    case Require(c) => UsableAt(p, b, i, c)
    case Write(_, a) => UsableAt(p, b, i, a)
    case ExitIf(c) => UsableAt(p, b, i, c)
  }

  ghost predicate TermUsable(p: Program, b: nat, t: Terminator)
    requires b < |p.blocks|
  {
    var n := |p.blocks[b].body|;
    match t
    case Jump(_) => true
    case Branch(c, _, _) => UsableAt(p, b, n, c)
    case Switch(c, _, _) => UsableAt(p, b, n, c)
    case Return(x) => UsableAt(p, b, n, x)
  }

  ghost predicate DefsDominateUses(p: Program) {
    forall b: nat :: b < |p.blocks| ==>
      TermUsable(p, b, p.blocks[b].term) && forall i: nat :: i < |p.blocks[b].body| ==> OpUses(p, b, i, p.blocks[b].body[i])
  }

  /** Operations only add values. */
  lemma {:induction false} EnvGrows(p: Program, v: Valuation, b: nat, i: nat, x: nat)
    requires b < |p.blocks| && i <= |p.blocks[b].body| && Arrive(p, v, b).Arrived?
    requires x in Arrive(p, v, b).c.env || exists j: nat :: j < i && DefinesAt(p, b, j, x)
    ensures x in ConfigAt(p, v, b, i).env
  {
    if i > 0 {
      ConfigStep(p, v, b, i - 1);
      if !DefinesAt(p, b, i - 1, x) {
        EnvGrows(p, v, b, i - 1, x);
      }
    }
  }

  /** The run passes along the edges of the graph. */
  lemma ArrivesByEdge(p: Program, v: Valuation, b: nat)
    requires WellFormed(p) && 0 < b < |p.blocks| && Arrive(p, v, b).Arrived?
    ensures var a := Arrive(p, v, b).pred;
      a < b && Arrive(p, v, a).Arrived? && Cfg.Edge(GraphOf(p), a, b) && Arrive(p, v, b).c == Leave(p, v, a)
  {
    var a := Arrive(p, v, b).pred;
    ArriveSomewhere(p, v, b);
    ArriveIffGoes(p, v, a, b);
    var t := p.blocks[a].term;
    var k := Choice(t, Leave(p, v, a).env);
    assert Targets(t)[k] == b;
  }

  lemma EntryDominator(g: Cfg.Graph, c: nat)
    requires |g| > 0 && Cfg.Dominates(g, c, 0)
    ensures c == 0
  {
    assert Cfg.PathFromTo(g, [0], 0, 0);
  }

  /** What a strict dominator defines is there when the run arrives. */
  lemma {:induction false} ArrivesWith(p: Program, v: Valuation, b: nat, c: nat, j: nat, x: nat)
    requires WellFormed(p) && b < |p.blocks| && Arrive(p, v, b).Arrived?
    requires DefinesAt(p, c, j, x) && Cfg.Dominates(GraphOf(p), c, b) && c != b
    ensures x in Arrive(p, v, b).c.env
    decreases b
  {
    if b == 0 {
      EntryDominator(GraphOf(p), c);
    } else {
      var a := Arrive(p, v, b).pred;
      ArrivesByEdge(p, v, b);
      Cfg.DominatesPred(GraphOf(p), c, a, b);
      if c != a {
        ArrivesWith(p, v, a, c, j, x);
      }
      EnvGrows(p, v, a, |p.blocks[a].body|, x);
      LeaveIsConfig(p, v, a);
    }
  }

  lemma {:induction false} ArrivesWithInputs(p: Program, v: Valuation, b: nat, x: nat)
    requires WellFormed(p) && b < |p.blocks| && Arrive(p, v, b).Arrived? && x in p.inputs
    ensures x in Arrive(p, v, b).c.env
    decreases b
  {
    if b > 0 {
      var a := Arrive(p, v, b).pred;
      ArrivesByEdge(p, v, b);
      ArrivesWithInputs(p, v, a, x);
      EnvGrows(p, v, a, |p.blocks[a].body|, x);
      LeaveIsConfig(p, v, a);
    }
  }

  lemma UsableIsDefined(p: Program, v: Valuation, b: nat, i: nat, x: nat)
    requires WellFormed(p) && b < |p.blocks| && i <= |p.blocks[b].body| && Arrive(p, v, b).Arrived? && UsableAt(p, b, i, x)
    ensures x in ConfigAt(p, v, b, i).env
  {
    if x in p.inputs {
      ArrivesWithInputs(p, v, b, x);
    } else {
      var c: nat, j: nat :| DefinesAt(p, c, j, x) && if c == b then j < i else Cfg.Dominates(GraphOf(p), c, b);
      if c != b {
        ArrivesWith(p, v, b, c, j, x);
      }
    }
    EnvGrows(p, v, b, i, x);
  }

  lemma AvailableAtEnd(p: Program, v: Valuation, a: nat, x: nat)
    requires WellFormed(p) && a < |p.blocks| && Arrive(p, v, a).Arrived? && Available(p, a, x)
    ensures x in Leave(p, v, a).env
  {
    var n := |p.blocks[a].body|;
    assert UsableAt(p, a, n, x) by {
      if x !in p.inputs {
        var c: nat, j: nat :| DefinesAt(p, c, j, x) && Cfg.Dominates(GraphOf(p), c, a);
        assert c == a ==> j < n;
      }
    }
    UsableIsDefined(p, v, a, n, x);
    LeaveIsConfig(p, v, a);
  }

  lemma PhiIsDefined(p: Program, v: Valuation, b: nat, i: nat)
    requires WellFormed(p) && DefsDominateUses(p) && 0 < b < |p.blocks| && i < |p.blocks[b].body| && p.blocks[b].body[i].Phi?
    requires Arrive(p, v, b).Arrived?
    ensures OpDefined(p.blocks[b].body[i], Arrive(p, v, b).pred, ConfigAt(p, v, b, i).env)
  {
    var a, sources := Arrive(p, v, b).pred, p.blocks[b].body[i].sources;
    hide Arrive, ConfigAt, Leave;
    ArrivesByEdge(p, v, b);
    assert OpUses(p, b, i, p.blocks[b].body[i]);
    var x := sources[SourceOf(sources, a)].0;
    AvailableAtEnd(p, v, a, x);
    EnvGrows(p, v, b, i, x);
  }

  /** If definitions dominate uses, no run uses a value it has not defined. */
  lemma DominanceSuffices(p: Program, v: Valuation)
    requires WellFormed(p) && DefsDominateUses(p)
    requires forall i :: 0 <= i < |p.blocks[0].body| ==> !p.blocks[0].body[i].Phi?
    ensures UsesDefined(p, v)
  {
    hide UsableAt, WellFormed, ConfigAt, Arrive, Leave;
    forall b: nat | b < |p.blocks| && Arrive(p, v, b).Arrived?
      ensures TermDefined(p.blocks[b].term, Leave(p, v, b).env)
    {
      LeaveIsConfig(p, v, b);
      match p.blocks[b].term
      case Jump(_) =>
      case Branch(c, _, _) => UsableIsDefined(p, v, b, |p.blocks[b].body|, c);
      case Switch(c, _, _) => UsableIsDefined(p, v, b, |p.blocks[b].body|, c);
      case Return(x) => UsableIsDefined(p, v, b, |p.blocks[b].body|, x);
    }
    forall b: nat, i: nat | b < |p.blocks| && Arrive(p, v, b).Arrived? && i < |p.blocks[b].body|
      ensures OpDefined(p.blocks[b].body[i], Arrive(p, v, b).pred, ConfigAt(p, v, b, i).env)
    {
      var op := p.blocks[b].body[i];
      assert OpUses(p, b, i, op);
      match op
      case Def(_, _, a, c) =>
        UsableIsDefined(p, v, b, i, a);
        UsableIsDefined(p, v, b, i, c);
      case Phi(_, _) => PhiIsDefined(p, v, b, i);
      case Require(c) => UsableIsDefined(p, v, b, i, c);
      case Write(_, a) => UsableIsDefined(p, v, b, i, a);
      case ExitIf(c) => UsableIsDefined(p, v, b, i, c);
    }
  }
}
