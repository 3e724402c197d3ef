/** Concrete execution of a function: the runs that symbolic execution must describe.
    A run is followed to its end even after undefined behaviour or a call that does not
    return, because path conditions do not mention either; its status records where
    the real execution stopped. */
module Execution {
  import opened Terms

  datatype Op =
    | Def(x: nat, fn: nat, a: nat, b: nat)            // x := fn(a, b)
    | Phi(x: nat, sources: seq<(nat, nat)>)           // (value, predecessor block)
    | Require(c: nat)                                 // undefined behaviour if c is zero
    | Write(fn: nat, a: nat)                          // memory := fn(memory, a)
    | ExitIf(c: nat)                                  // does not return if c is not zero

  datatype Terminator =
    | Jump(dst: nat)
    | Branch(c: nat, dstTrue: nat, dstFalse: nat)
    | Switch(c: nat, cases: seq<(Bits, nat)>, default0: nat)
    | Return(x: nat)

  datatype Block = Block(body: seq<Op>, term: Terminator)

  /** The blocks in BB order, and the initial values and memory as terms. */
  datatype Program = Program(blocks: seq<Block>, inputs: map<nat, Term>, mem0: Term)

  datatype Status = Running | Undefined | Exited(mem: Bits)

  datatype Config = Config(env: map<nat, Bits>, mem: Bits, status: Status)

  function Get(env: map<nat, Bits>, x: nat): Bits {
    if x in env then env[x] else []
  }

  /** Position of the first entry for predecessor `pred`, or the length. */
  function SourceOf(sources: seq<(nat, nat)>, pred: nat): (i: nat)
    ensures i <= |sources| && (i < |sources| ==> sources[i].1 == pred)
    ensures forall j :: 0 <= j < i ==> sources[j].1 != pred
  {
    if sources == [] then 0 else if sources[0].1 == pred then 0 else 1 + SourceOf(sources[1..], pred)
  }

  function ExecOp(op: Op, pred: nat, c: Config, v: Valuation): Config {
    match op
    case Def(x, fn, a, b) => c.(env := c.env[x := v.fn(fn, Get(c.env, a), Get(c.env, b))])
    case Phi(x, sources) =>
      var i := SourceOf(sources, pred);
      c.(env := c.env[x := if i < |sources| then Get(c.env, sources[i].0) else []])
    case Require(x) => if c.status.Running? && ZeroBits(Get(c.env, x)) then c.(status := Undefined) else c
    case Write(fn, a) => c.(mem := v.fn(fn, c.mem, Get(c.env, a)))
    case ExitIf(x) => if c.status.Running? && !ZeroBits(Get(c.env, x)) then c.(status := Exited(c.mem)) else c
  }

  function ExecOps(ops: seq<Op>, pred: nat, c: Config, v: Valuation): Config {
    if ops == [] then c else ExecOp(ops[|ops| - 1], pred, ExecOps(ops[..|ops| - 1], pred, c, v), v)
  }

  /** The first case with this value, or the length. */
  function CaseOf(cases: seq<(Bits, nat)>, val: Bits): (i: nat)
    ensures i <= |cases| && (i < |cases| ==> cases[i].0 == val)
    ensures forall j :: 0 <= j < i ==> cases[j].0 != val
  {
    if cases == [] then 0 else if cases[0].0 == val then 0 else 1 + CaseOf(cases[1..], val)
  }

  /** The targets of a terminator, in the order in which its edges are recorded. */
  function Targets(t: Terminator): seq<nat> {
    match t
    case Jump(d) => [d]
    case Branch(_, dt, df) => [dt, df]
    case Switch(_, cases, d) => seq(|cases|, i requires 0 <= i < |cases| => cases[i].1) + [d]
    case Return(_) => []
  }

  /** Which of them the run takes. */
  function Choice(t: Terminator, env: map<nat, Bits>): (i: nat)
    ensures !t.Return? ==> i < |Targets(t)|
  {
    match t
    case Jump(_) => 0
    case Branch(c, _, _) => if ZeroBits(Get(env, c)) then 1 else 0
    case Switch(c, cases, _) => CaseOf(cases, Get(env, c))
    case Return(_) => 0
  }

  /** A jump to a block that has been executed already counts as reaching the sink,
      which is numbered after all blocks. */
  function Landing(p: Program, b: nat, d: nat): nat {
    if d <= b then |p.blocks| else d
  }

  datatype RunState = At(b: nat, pred: nat, c: Config) | Returned(val: Bits, c: Config) | Sunk(c: Config)

  ghost predicate DistinctCases(cases: seq<(Bits, nat)>) {
    forall i, j :: 0 <= i < j < |cases| ==> cases[i].0 != cases[j].0
  }

  /** What the source's front end guarantees: jumps lead to blocks, and the cases of a
      switch differ. */
  ghost predicate WellFormed(p: Program) {
    && |p.blocks| > 0
    && (forall b, d :: 0 <= b < |p.blocks| && d in Targets(p.blocks[b].term) ==> d < |p.blocks|)
    && (forall b :: 0 <= b < |p.blocks| && p.blocks[b].term.Switch? ==> DistinctCases(p.blocks[b].term.cases))
  }

  function Start(p: Program, v: Valuation): Config {
    Config(map x | x in p.inputs :: Eval(p.inputs[x], v), Eval(p.mem0, v), Running)
  }

  /** Where block `b` leads. */
  function Step(p: Program, b: nat, pred: nat, c: Config, v: Valuation): RunState
    requires b < |p.blocks|
  {
    var c' := ExecOps(p.blocks[b].body, pred, c, v);
    var t := p.blocks[b].term;
    if t.Return? then Returned(Get(c'.env, t.x), c')
    else
      var d := Landing(p, b, Targets(t)[Choice(t, c'.env)]);
      if d >= |p.blocks| then Sunk(c') else At(d, b, c')
  }

  datatype Arrival = Never | Arrived(pred: nat, c: Config)

  /** How the run that is at `s` arrives at block `b`, if it does. */
  function ArriveFrom(p: Program, s: RunState, b: nat, v: Valuation): Arrival
    decreases if s.At? then b - s.b else 0, if s.At? then 1 else 0
  {
    if !s.At? || s.b > b || s.b >= |p.blocks| then Never
    else if s.b == b then Arrived(s.pred, s.c)
    else
      var s' := Step(p, s.b, s.pred, s.c, v);
      if s'.At? then ArriveFrom(p, s', b, v) else Never
  }

  /** How the run arrives at block `b`.  The entry has no predecessor; the number of
      the sink stands in for it. */
  function Arrive(p: Program, v: Valuation, b: nat): Arrival {
    ArriveFrom(p, At(0, |p.blocks|, Start(p, v)), b, v)
  }

  /** How the run ends: it returns, or it reaches the sink. */
  function EndFrom(p: Program, s: RunState, v: Valuation): RunState
    decreases if s.At? then |p.blocks| - s.b else 0
  {
    if s.At? && s.b < |p.blocks| then
      var s' := Step(p, s.b, s.pred, s.c, v);
      if s'.At? then EndFrom(p, s', v) else s'
    else s
  }

  function End(p: Program, v: Valuation): RunState {
    EndFrom(p, At(0, |p.blocks|, Start(p, v)), v)
  }

  // ----- the shape of runs ---------------------------------------------------

  /** The configuration in which the run leaves block `a`. */
  function Leave(p: Program, v: Valuation, a: nat): Config
    requires a < |p.blocks|
  {
    match Arrive(p, v, a)
    case Never => Start(p, v)
    case Arrived(pred, c) => ExecOps(p.blocks[a].body, pred, c, v)
  }

  /** The run passes from `a` to `d`, which may be the sink. */
  ghost predicate Goes(p: Program, v: Valuation, a: nat, d: nat)
    requires a < |p.blocks|
  {
    var t := p.blocks[a].term;
    Arrive(p, v, a).Arrived? && !t.Return? && d == Landing(p, a, Targets(t)[Choice(t, Leave(p, v, a).env)])
  }

  /** A run that comes by `s` behaves from there on like the run from `s`. */
  lemma {:induction false} ArriveThrough(p: Program, s: RunState, a: nat, b: nat, v: Valuation)
    requires ArriveFrom(p, s, a, v).Arrived? && a <= b
    ensures var r := ArriveFrom(p, s, a, v); ArriveFrom(p, s, b, v) == ArriveFrom(p, At(a, r.pred, r.c), b, v)
    ensures var r := ArriveFrom(p, s, a, v); EndFrom(p, s, v) == EndFrom(p, At(a, r.pred, r.c), v)
    decreases if s.At? then a - s.b else 0
  {
    if s.b < a {
      ArriveThrough(p, Step(p, s.b, s.pred, s.c, v), a, b, v);
    }
  }

  /** Before arriving at `b`, the run was at the predecessor. */
  lemma {:induction false} ArriveBack(p: Program, s: RunState, b: nat, v: Valuation)
    requires s.At? && s.b < b && ArriveFrom(p, s, b, v).Arrived?
    ensures var (a, c') := (ArriveFrom(p, s, b, v).pred, ArriveFrom(p, s, b, v).c);
      && s.b <= a < b && a < |p.blocks| && ArriveFrom(p, s, a, v).Arrived?
      && Step(p, a, ArriveFrom(p, s, a, v).pred, ArriveFrom(p, s, a, v).c, v) == At(b, a, c')
    decreases b - s.b
  {
    var s' := Step(p, s.b, s.pred, s.c, v);
    if s'.b < b {
      ArriveBack(p, s', b, v);
    }
  }

  /** The run arrives at a block from exactly the block it goes there from. */
  lemma ArriveIffGoes(p: Program, v: Valuation, a: nat, b: nat)
    requires |p.blocks| > 0 && a < |p.blocks| && 0 < b < |p.blocks|
    ensures Goes(p, v, a, b) <==> Arrive(p, v, b).Arrived? && Arrive(p, v, b).pred == a
    ensures Goes(p, v, a, b) ==> Arrive(p, v, b).c == Leave(p, v, a) && a < b
  {
    var s := At(0, |p.blocks|, Start(p, v));
    if Goes(p, v, a, b) {
      ArriveThrough(p, s, a, b, v);
    }
    if Arrive(p, v, b).Arrived? {
      ArriveBack(p, s, b, v);
    }
  }

  lemma ArriveSomewhere(p: Program, v: Valuation, b: nat)
    requires |p.blocks| > 0 && 0 < b < |p.blocks| && Arrive(p, v, b).Arrived?
    ensures Arrive(p, v, b).pred < b && Goes(p, v, Arrive(p, v, b).pred, b)
  {
    ArriveBack(p, At(0, |p.blocks|, Start(p, v)), b, v);
    ArriveIffGoes(p, v, Arrive(p, v, b).pred, b);
  }

  /** The run ends where it goes to the sink or returns. */
  lemma EndAt(p: Program, v: Valuation, a: nat)
    requires a < |p.blocks|
    ensures Goes(p, v, a, |p.blocks|) ==> End(p, v) == Sunk(Leave(p, v, a))
    ensures Arrive(p, v, a).Arrived? && p.blocks[a].term.Return? ==>
      End(p, v) == Returned(Get(Leave(p, v, a).env, p.blocks[a].term.x), Leave(p, v, a))
  {
    if Arrive(p, v, a).Arrived? {
      ArriveThrough(p, At(0, |p.blocks|, Start(p, v)), a, a, v);
    }
  }

  /** Every run ends, at some block. */
  lemma {:induction false} EndSomewhereFrom(p: Program, s: RunState, v: Valuation) returns (a: nat, pred: nat, c: Config)
    requires WellFormed(p) && s.At? && s.b < |p.blocks|
    ensures s.b <= a < |p.blocks| && ArriveFrom(p, s, a, v) == Arrived(pred, c)
    ensures EndFrom(p, s, v) == Step(p, a, pred, c, v) && !EndFrom(p, s, v).At?
    decreases |p.blocks| - s.b
  {
    var s' := Step(p, s.b, s.pred, s.c, v);
    if s'.At? {
      a, pred, c := EndSomewhereFrom(p, s', v);
    } else {
      a, pred, c := s.b, s.pred, s.c;
    }
  }

  lemma EndSomewhere(p: Program, v: Valuation) returns (a: nat)
    requires WellFormed(p)
    ensures a < |p.blocks| && Arrive(p, v, a).Arrived?
    ensures if p.blocks[a].term.Return? then End(p, v) == Returned(Get(Leave(p, v, a).env, p.blocks[a].term.x), Leave(p, v, a))
            else Goes(p, v, a, |p.blocks|) && End(p, v) == Sunk(Leave(p, v, a))
  {
    var pred, c;
    a, pred, c := EndSomewhereFrom(p, At(0, |p.blocks|, Start(p, v)), v);
    EndAt(p, v, a);
    var t := p.blocks[a].term;
    if !t.Return? {
      var d := Targets(t)[Choice(t, Leave(p, v, a).env)];
      assert d in Targets(t);
    }
  }

  /** Once the real execution has stopped, the status does not change any more. */
  lemma {:induction false} StoppedStays(ops: seq<Op>, pred: nat, c: Config, v: Valuation)
    requires !c.status.Running?
    ensures ExecOps(ops, pred, c, v).status == c.status
  {
    if ops != [] {
      StoppedStays(ops[..|ops| - 1], pred, c, v);
    }
  }
}
