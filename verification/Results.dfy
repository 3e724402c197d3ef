/** What symbolic execution says about the end of a run: return values, return memory,
    and the conditions under which a run returns or a call does not (ir/state.cpp). */
module Results {
  import opened Terms
  import opened Guarded
  import opened Factor
  import opened Execution
  import opened SymExec
  import opened Exits
  import opened StopPoints

  /** Return values are guarded by path conditions, which do not mention undefined
      behaviour: those of well-defined returning runs are all there. */
  ghost predicate ValueMeans(p: Program, v: Valuation, n: nat, vals: Disj<Term>) {
    && Exclusive(vals, v) && (Covered(vals, v) ==> ReturnsBefore(p, v, n))
    && (ReturnsBefore(p, v, n) && End(p, v).c.status.Running? ==> Covered(vals, v))
    && forall x :: Selects(vals, v, x) ==> End(p, v).Returned? && Eval(x, v) == End(p, v).val
  }

  ghost predicate DomainMeans(p: Program, v: Valuation, n: nat, dom: seq<Cond>) {
    Any(dom, v) <==> ReturnsBefore(p, v, n) && End(p, v).c.status.Running?
  }

  ghost predicate FunctionMeans(p: Program, v: Valuation, b: nat, i: nat, dom: seq<Cond>) {
    Any(dom, v) <==> (ReturnsBefore(p, v, b) && End(p, v).c.status.Running?) || ExitsBefore(p, v, b, i)
  }

  /** What has been recorded before operation `i` of block `b`. */
  ghost predicate Recording(p: Program, v: Valuation, b: nat, i: nat, vals: Disj<Term>, mems: Disj<Term>, ret: seq<Cond>, fun: seq<Cond>) {
    ValueMeans(p, v, b, vals) && MemoryMeans(p, v, b, i, mems) && DomainMeans(p, v, b, ret) && FunctionMeans(p, v, b, i, fun)
  }

  lemma RecordingStarts(p: Program, v: Valuation)
    ensures Recording(p, v, 0, 0, [], [], [], [])
  {
    NothingChosen<Term>([], v);
    MemoryStarts(p, v);
  }

  lemma ReturnsStep(p: Program, v: Valuation, b: nat)
    ensures ReturnsBefore(p, v, b + 1) <==> ReturnsBefore(p, v, b) || ReturnsAt(p, v, b)
  {
    hide ReturnsAt;
    if ReturnsAt(p, v, b) {
      assert b < b + 1;
    }
  }

  lemma ExitsStep(p: Program, v: Valuation, b: nat, i: nat)
    ensures ExitsBefore(p, v, b, i + 1) <==> ExitsBefore(p, v, b, i) || ExitsAt(p, v, b, i)
  {
    hide ExitsAt;
    if ExitsAt(p, v, b, i) {
      assert i < i + 1;
    }
  }

  lemma ExitsNextBlock(p: Program, v: Valuation, b: nat)
    requires b < |p.blocks|
    ensures ExitsBefore(p, v, b + 1, 0) <==> ExitsBefore(p, v, b, |p.blocks[b].body|)
  {
    hide ConfigAt, Arrive;
    if ExitsBefore(p, v, b + 1, 0) {
      var a: nat, j: nat :| ExitsAt(p, v, a, j) && (a < b + 1 || (a == b + 1 && j < 0));
      assert a < b || (a == b && j < |p.blocks[b].body|);
    }
    if ExitsBefore(p, v, b, |p.blocks[b].body|) {
      var a: nat, j: nat :| ExitsAt(p, v, a, j) && (a < b || (a == b && j < |p.blocks[b].body|));
      assert a < b + 1;
    }
  }

  /** An operation that always returns. */
  lemma OrdinaryOp(p: Program, v: Valuation, b: nat, i: nat, vals: Disj<Term>, mems: Disj<Term>, ret: seq<Cond>, fun: seq<Cond>)
    requires b < |p.blocks| && i < |p.blocks[b].body| && !p.blocks[b].body[i].ExitIf?
    requires Recording(p, v, b, i, vals, mems, ret, fun)
    ensures Recording(p, v, b, i + 1, vals, mems, ret, fun)
  {
    ExitsStep(p, v, b, i);
    MemoryLater(p, v, b, i, b, i + 1, mems);
    hide ExitsBefore, ReturnsBefore, ValueMeans, MemoryMeans, DomainMeans, ConfigAt, Arrive;
  }

  /** Where a call's condition holds on the path, it is a stop point, at which a
      well-defined run ends; and all live stop points are on the path. */
  lemma ExitingStops(p: Program, v: Valuation, path: Cond, ub: seq<Cond>, mem: Term, values: map<nat, Term>, b: nat, i: nat)
    requires Valid(p) && b < |p.blocks| && i < |p.blocks[b].body| && p.blocks[b].body[i].ExitIf?
    requires HereMeans(p, v, path, ub, mem, values, b, i)
    ensures var c := NonZero(Val(values, p.blocks[b].body[i].c));
      && (ExitsAt(p, v, b, i) <==> Holds(path, v) && HoldsAll(ub, v) && Holds(c, v))
      && (Holds(path, v) && Holds(c, v) ==> StopPoint(p, v, b, i) && Eval(mem, v) == MemAt(p, v, b, i))
      && (StopPoint(p, v, b, i) && Live(p, v, b) ==> Holds(path, v) && Holds(c, v))
  {
    var x := p.blocks[b].body[i].c;
    NonZeroMeans(Val(values, x), v);
    if ExitsAt(p, v, b, i) {
      RunningAt(p, v, b, i);
    }
    hide Valid, ConfigAt, HoldsAll, Arrive, NonZero, End;
    if Arrive(p, v, b).Arrived? {
      UsesAt(p, v, b, i);
    }
  }

  /** `State::addNoReturn`: the state at the call is recorded. */
  lemma NoReturnMeans(p: Program, v: Valuation, path: Cond, ub: seq<Cond>, mem: Term, values: map<nat, Term>, b: nat, i: nat,
                      vals: Disj<Term>, mems: Disj<Term>, ret: seq<Cond>, fun: seq<Cond>)
    requires Valid(p) && b < |p.blocks| && i < |p.blocks[b].body| && p.blocks[b].body[i].ExitIf?
    requires HereMeans(p, v, path, ub, mem, values, b, i) && Recording(p, v, b, i, vals, mems, ret, fun)
    ensures var c := NonZero(Val(values, p.blocks[b].body[i].c));
      Recording(p, v, b, i + 1, vals, AddGuarded(mems, mem, MkAnd(path, c)), ret, OrAdd(fun, MkAnd(MkAnd(path, MkAndAll(ub)), c)))
  {
    var c := NonZero(Val(values, p.blocks[b].body[i].c));
    ExitingStops(p, v, path, ub, mem, values, b, i);
    ExitsStep(p, v, b, i);
    AndMeans(path, c, v);
    DomainIs(path, ub, v);
    AndMeans(MkAnd(path, MkAndAll(ub)), c, v);
    OrAddMeans(fun, MkAnd(MkAnd(path, MkAndAll(ub)), c), v);
    hide *;
    MemoryStep(p, v, b, i, mems, mem, MkAnd(path, c));
    RecordingParts(p, v, b, i, vals, mems, ret, fun);
    RecordingFrom(p, v, b, i + 1, vals, AddGuarded(mems, mem, MkAnd(path, c)), ret, OrAdd(fun, MkAnd(MkAnd(path, MkAndAll(ub)), c)));
  }

  lemma RecordingParts(p: Program, v: Valuation, b: nat, i: nat, vals: Disj<Term>, mems: Disj<Term>, ret: seq<Cond>, fun: seq<Cond>)
    requires Recording(p, v, b, i, vals, mems, ret, fun)
    ensures ValueMeans(p, v, b, vals) && MemoryMeans(p, v, b, i, mems) && DomainMeans(p, v, b, ret)
    ensures Any(fun, v) <==> (ReturnsBefore(p, v, b) && End(p, v).c.status.Running?) || ExitsBefore(p, v, b, i)
  {
  }

  lemma RecordingFrom(p: Program, v: Valuation, b: nat, i: nat, vals: Disj<Term>, mems: Disj<Term>, ret: seq<Cond>, fun: seq<Cond>)
    requires ValueMeans(p, v, b, vals) && MemoryMeans(p, v, b, i, mems) && DomainMeans(p, v, b, ret)
    requires Any(fun, v) <==> (ReturnsBefore(p, v, b) && End(p, v).c.status.Running?) || ExitsBefore(p, v, b, i)
    ensures Recording(p, v, b, i, vals, mems, ret, fun)
  {
  }

  lemma DomainIs(path: Cond, ub: seq<Cond>, v: Valuation)
    ensures Holds(MkAnd(path, MkAndAll(ub)), v) <==> Holds(path, v) && HoldsAll(ub, v)
  {
    MkAndAllMeans(ub, v);
    AndMeans(path, MkAndAll(ub), v);
  }

  /** At the end of a block that does not return. */
  lemma BlockEnds(p: Program, v: Valuation, b: nat, vals: Disj<Term>, mems: Disj<Term>, ret: seq<Cond>, fun: seq<Cond>)
    requires b < |p.blocks| && !p.blocks[b].term.Return? && Recording(p, v, b, |p.blocks[b].body|, vals, mems, ret, fun)
    ensures Recording(p, v, b + 1, 0, vals, mems, ret, fun)
  {
    ReturnsStep(p, v, b);
    ExitsNextBlock(p, v, b);
    MemoryLater(p, v, b, |p.blocks[b].body|, b + 1, 0, mems);
    hide ExitsBefore, ReturnsBefore, MemoryMeans, Exclusive, Covered, Selects, End;
  }

  /** A block that is skipped. */
  lemma BlockSkipped(p: Program, v: Valuation, b: nat, vals: Disj<Term>, mems: Disj<Term>, ret: seq<Cond>, fun: seq<Cond>)
    requires b < |p.blocks| && Recording(p, v, b, 0, vals, mems, ret, fun)
    requires forall v' :: !(Arrive(p, v', b).Arrived? && ConfigAt(p, v', b, 0).status.Running?)
    ensures Recording(p, v, b + 1, 0, vals, mems, ret, fun)
  {
    SkippedNotLive(p, v, b);
    MemoryLater(p, v, b, 0, b + 1, 0, mems);
    ReturnsStep(p, v, b);
    NoExits(p, v, b, |p.blocks[b].body|);
    ExitsNextBlock(p, v, b);
    if ReturnsAt(p, v, b) {
      StoppedAt(p, v, b, 0);
    }
    hide ExitsBefore, ReturnsBefore, MemoryMeans, Exclusive, Covered, Selects, End, ConfigAt;
  }

  lemma {:induction false} NoExits(p: Program, v: Valuation, b: nat, i: nat)
    requires b < |p.blocks| && i <= |p.blocks[b].body|
    requires !(Arrive(p, v, b).Arrived? && ConfigAt(p, v, b, 0).status.Running?)
    ensures ExitsBefore(p, v, b, i) <==> ExitsBefore(p, v, b, 0)
    decreases i
  {
    if i > 0 {
      NoExits(p, v, b, i - 1);
      NeverRuns(p, v, b, i - 1);
      ExitsStep(p, v, b, i - 1);
    }
  }

  /** Where the path condition holds at a return, the run returns here and nowhere before. */
  lemma ReturningEnds(p: Program, v: Valuation, path: Cond, ub: seq<Cond>, mem: Term, values: map<nat, Term>, b: nat)
    requires Valid(p) && b < |p.blocks| && p.blocks[b].term.Return?
    requires HereMeans(p, v, path, ub, mem, values, b, |p.blocks[b].body|)
    ensures Holds(path, v) ==> ReturnsAt(p, v, b) && !ReturnsBefore(p, v, b) &&
                               End(p, v).Returned? && Eval(Val(values, p.blocks[b].term.x), v) == End(p, v).val
    ensures ReturnsAt(p, v, b) && End(p, v).c.status.Running? <==> Holds(path, v) && HoldsAll(ub, v)
  {
    LeaveIsConfig(p, v, b);
    EndAt(p, v, b);
    if Arrive(p, v, b).Arrived? {
      TermUses(p, v, b);
      if Leave(p, v, b).status.Running? {
        RunningAt(p, v, b, |p.blocks[b].body|);
      }
      if ReturnsBefore(p, v, b) {
        var a: nat :| a < b && ReturnsAt(p, v, a);
        ReturnEnds(p, v, a, b);
      }
    }
    hide Valid, HoldsAll, Arrive, End, Leave, Holds, Eval, ConfigAt;
  }

  /** A return is a stop point where the path condition holds. */
  lemma ReturningStops(p: Program, v: Valuation, path: Cond, ub: seq<Cond>, mem: Term, values: map<nat, Term>, b: nat)
    requires b < |p.blocks| && p.blocks[b].term.Return?
    requires HereMeans(p, v, path, ub, mem, values, b, |p.blocks[b].body|)
    ensures Holds(path, v) ==> StopPoint(p, v, b, |p.blocks[b].body|) && Eval(mem, v) == MemAt(p, v, b, |p.blocks[b].body|)
    ensures StopPoint(p, v, b, |p.blocks[b].body|) && Live(p, v, b) ==> Holds(path, v)
  {
    hide Arrive, Holds, Eval, ConfigAt;
  }

  /** `State::addReturn`. */
  lemma ReturnMeans(p: Program, v: Valuation, path: Cond, ub: seq<Cond>, mem: Term, values: map<nat, Term>, b: nat,
                    vals: Disj<Term>, mems: Disj<Term>, ret: seq<Cond>, fun: seq<Cond>)
    requires Valid(p) && b < |p.blocks| && p.blocks[b].term.Return?
    requires HereMeans(p, v, path, ub, mem, values, b, |p.blocks[b].body|)
    requires Recording(p, v, b, |p.blocks[b].body|, vals, mems, ret, fun)
    ensures var dom := MkAnd(path, MkAndAll(ub));
      Recording(p, v, b + 1, 0, AddGuarded(vals, Val(values, p.blocks[b].term.x), path), AddGuarded(mems, mem, path), OrAdd(ret, dom), OrAdd(fun, dom))
  {
    var dom, n := MkAnd(path, MkAndAll(ub)), |p.blocks[b].body|;
    ReturningEnds(p, v, path, ub, mem, values, b);
    ReturningStops(p, v, path, ub, mem, values, b);
    MemoryStep(p, v, b, n, mems, mem, path);
    MemoryLater(p, v, b, n + 1, b + 1, 0, AddGuarded(mems, mem, path));
    ReturnsStep(p, v, b);
    ExitsNextBlock(p, v, b);
    DomainIs(path, ub, v);
    OrAddMeans(ret, dom, v);
    OrAddMeans(fun, dom, v);
    hide *;
    RecordingParts(p, v, b, n, vals, mems, ret, fun);
    ValueReturns(p, v, b, vals, Val(values, p.blocks[b].term.x), path);
    DomainReturns(p, v, b, ret, OrAdd(ret, dom), dom);
    RecordingFrom(p, v, b + 1, 0, AddGuarded(vals, Val(values, p.blocks[b].term.x), path), AddGuarded(mems, mem, path), OrAdd(ret, dom), OrAdd(fun, dom));
  }

  lemma ValueReturns(p: Program, v: Valuation, b: nat, vals: Disj<Term>, x: Term, path: Cond)
    requires ValueMeans(p, v, b, vals) && (ReturnsBefore(p, v, b + 1) <==> ReturnsBefore(p, v, b) || ReturnsAt(p, v, b))
    requires Holds(path, v) ==> ReturnsAt(p, v, b) && !ReturnsBefore(p, v, b) && End(p, v).Returned? && Eval(x, v) == End(p, v).val
    requires ReturnsAt(p, v, b) && End(p, v).c.status.Running? ==> Holds(path, v)
    ensures ValueMeans(p, v, b + 1, AddGuarded(vals, x, path))
  {
    hide ReturnsBefore, ReturnsAt, Holds, Eval, End, AddGuarded, Exclusive, Covered, Selects;
    AddMeans(vals, x, path, v);
  }

  lemma DomainReturns(p: Program, v: Valuation, b: nat, ret: seq<Cond>, ret': seq<Cond>, dom: Cond)
    requires DomainMeans(p, v, b, ret) && (ReturnsBefore(p, v, b + 1) <==> ReturnsBefore(p, v, b) || ReturnsAt(p, v, b))
    requires (ReturnsAt(p, v, b) && End(p, v).c.status.Running? <==> Holds(dom, v)) && (Any(ret', v) <==> Any(ret, v) || Holds(dom, v))
    ensures DomainMeans(p, v, b + 1, ret')
  {
    hide ReturnsBefore, ReturnsAt, Holds, End, Any;
  }

  /** The memory of a run that exited, against the memories that have been recorded: it is
      what they yield if all stop points of the run have this memory; and only then, if
      the stop points are live and no guard is literally true. */
  ghost predicate ExitMemoryMeans(p: Program, v: Valuation, mems: Disj<Term>, m: Bits) {
    && Covered(mems, v) && (OneMemory(p, v, m) ==> Yields(mems, v, m))
    && (Yields(mems, v, m) && StopsLive(p, v) && !Unconditional(mems) ==> OneMemory(p, v, m))
  }

  /** The conditions of a finished symbolic execution, against the run. */
  ghost predicate Finished(p: Program, v: Valuation, vals: Disj<Term>, mems: Disj<Term>, ret: seq<Cond>, fun: seq<Cond>) {
    var e := End(p, v);
    var ok := e.c.status.Running?;
    && (Any(ret, v) <==> e.Returned? && ok)
    && (Any(fun, v) <==> (e.Returned? && ok) || e.c.status.Exited?)
    && (Any(ret, v) ==> Eval(Pick(vals, Lit([])), v) == e.val && Yields(mems, v, e.c.mem))
    && (forall m :: e.c.status == Exited(m) ==> ExitMemoryMeans(p, v, mems, m))
  }

  lemma RecordingFinished(p: Program, v: Valuation, vals: Disj<Term>, mems: Disj<Term>, ret: seq<Cond>, fun: seq<Cond>)
    requires WellFormed(p) && Recording(p, v, |p.blocks|, 0, vals, mems, ret, fun)
    ensures Finished(p, v, vals, mems, ret, fun)
  {
    ReturnsIffReturned(p, v);
    ExitsIffExited(p, v);
    hide *;
    RecordingParts(p, v, |p.blocks|, 0, vals, mems, ret, fun);
    DomainFinished(p, v, ret);
    ValueFinished(p, v, vals);
    if End(p, v).Returned? && End(p, v).c.status.Running? {
      ReturnIsOnlyStop(p, v);
      var a: nat, j: nat :| StopPoint(p, v, a, j) && Live(p, v, a) && a < |p.blocks| && MemAt(p, v, a, j) == End(p, v).c.mem;
      MemoryFinished(p, v, mems, End(p, v).c.mem, a, j);
    }
    if End(p, v).c.status.Exited? {
      ExitFinished(p, v, mems);
    }
    FinishedFrom(p, v, vals, mems, ret, fun);
  }

  lemma DomainFinished(p: Program, v: Valuation, ret: seq<Cond>)
    requires DomainMeans(p, v, |p.blocks|, ret) && (ReturnsBefore(p, v, |p.blocks|) <==> End(p, v).Returned?)
    ensures Any(ret, v) <==> End(p, v).Returned? && End(p, v).c.status.Running?
  {
    hide Any, ReturnsBefore, End;
  }

  lemma ValueFinished(p: Program, v: Valuation, vals: Disj<Term>)
    requires ValueMeans(p, v, |p.blocks|, vals) && (ReturnsBefore(p, v, |p.blocks|) <==> End(p, v).Returned?)
    ensures End(p, v).Returned? && End(p, v).c.status.Running? ==> Eval(Pick(vals, Lit([])), v) == End(p, v).val
  {
    hide ReturnsBefore, Exclusive, End, Pick, Eval;
    if End(p, v).Returned? && End(p, v).c.status.Running? {
      var i: nat :| Chosen(vals, v, i);
      assert Selects(vals, v, vals[i].0);
      PickMeans(vals, Lit([]), v, vals[i].0);
    }
  }

  lemma ExitFinished(p: Program, v: Valuation, mems: Disj<Term>)
    requires WellFormed(p) && MemoryMeans(p, v, |p.blocks|, 0, mems) && End(p, v).c.status.Exited?
    ensures ExitMemoryMeans(p, v, mems, End(p, v).c.status.mem)
  {
    hide End, MemoryMeans, StopPoint, Live, Yields, StopsLive, OneMemory, Unconditional;
    var a, j := ExitIsStop(p, v);
    MemoryFinished(p, v, mems, End(p, v).c.status.mem, a, j);
  }

  lemma FinishedFrom(p: Program, v: Valuation, vals: Disj<Term>, mems: Disj<Term>, ret: seq<Cond>, fun: seq<Cond>)
    requires var e := End(p, v);
      && (Any(ret, v) <==> e.Returned? && e.c.status.Running?)
      && (Any(fun, v) <==> (e.Returned? && e.c.status.Running?) || e.c.status.Exited?)
      && (e.Returned? && e.c.status.Running? ==> Eval(Pick(vals, Lit([])), v) == e.val && Yields(mems, v, e.c.mem))
      && (e.c.status.Exited? ==> ExitMemoryMeans(p, v, mems, e.c.status.mem))
    ensures Finished(p, v, vals, mems, ret, fun)
  {
    hide End, Any, Pick, Eval, Yields, ExitMemoryMeans;
  }

  /** The stop points that decide what the recorded memories yield: those whose guards are
      literally true if there are any, or else all that the run passes. */
  ghost predicate DecidingMemory(p: Program, v: Valuation, mems: Disj<Term>, places: seq<set<(nat, nat)>>, m: Bits) {
    if Unconditional(mems) then CertainMemory(p, v, mems, places, m) else OneMemory(p, v, m)
  }

  /** When the run exits at a call, the recorded memories yield the memory of the exit in
      every order if and only if all stop points have that memory that the run passes and
      that decide; and it passes such a point. */
  lemma ExitMemoryIff(p: Program, v: Valuation, vals: Disj<Term>, mems: Disj<Term>, places: seq<set<(nat, nat)>>, ret: seq<Cond>, fun: seq<Cond>)
    requires Finished(p, v, vals, mems, ret, fun) && PlacesMean(p, v, mems, places) && End(p, v).c.status.Exited?
    ensures var m := End(p, v).c.status.mem; DecidingMemory(p, v, mems, places, m) ==> Yields(mems, v, m)
    ensures var m := End(p, v).c.status.mem; StopsLive(p, v) && Yields(mems, v, m) ==> DecidingMemory(p, v, mems, places, m)
    ensures Unconditional(mems) ==> exists a: nat, j: nat :: Certain(mems, places, a, j) && StopPoint(p, v, a, j)
  {
    var m := End(p, v).c.status.mem;
    hide End, Yields, StopsLive, OneMemory, CertainMemory, Any, Certain, StopPoint;
    assert ExitMemoryMeans(p, v, mems, m);
    if Unconditional(mems) {
      CertainYields(p, v, mems, places, m);
      var k: nat :| k < |mems| && mems[k].1 == True;
      CertainPassed(p, v, mems, places, k);
    }
  }

  /** If the last memory was recorded at a return whose path condition is literally true,
      then its memory is what the list yields for every run. */
  lemma UnconditionalReturnIff(p: Program, v: Valuation, mems: Disj<Term>, places: seq<set<(nat, nat)>>, b: nat, m: Bits)
    requires PlacesMean(p, v, mems, places) && |mems| == 1 && mems[0].1 == True && b < |p.blocks| && places == [{(b, |p.blocks[b].body|)}]
    ensures StopPoint(p, v, b, |p.blocks[b].body|)
    ensures StopsLive(p, v) ==> (Yields(mems, v, m) <==> Leave(p, v, b).mem == m)
  {
    var n := |p.blocks[b].body|;
    CertainPassed(p, v, mems, places, 0);
    CertainYields(p, v, mems, places, m);
    LeaveIsConfig(p, v, b);
    assert places[0] == {(b, n)};
    hide StopPoint, MemAt, Yields, StopsLive, ConfigAt, Leave, PlacesMean;
    MemAtEnd(p, v, b);
    assert Certain(mems, places, b, n);
  }

  lemma MemAtEnd(p: Program, v: Valuation, b: nat)
    requires b < |p.blocks|
    ensures MemAt(p, v, b, |p.blocks[b].body|) == Leave(p, v, b).mem
  {
    LeaveIsConfig(p, v, b);
  }

  // ----- the places of the recorded memories ------------------------------------

  /** `State::addNoReturn` records the memory of its stop point. */
  lemma NoReturnPlaces(p: Program, path: Cond, ub: seq<Cond>, mem: Term, values: map<nat, Term>, b: nat, i: nat, mems: Disj<Term>, places: seq<set<(nat, nat)>>)
    requires Valid(p) && b < |p.blocks| && i < |p.blocks[b].body| && p.blocks[b].body[i].ExitIf?
    requires (forall v :: HereMeans(p, v, path, ub, mem, values, b, i)) && PlacesKnown(p, mems, places)
    ensures var dom := MkAnd(path, NonZero(Val(values, p.blocks[b].body[i].c)));
      PlacesKnown(p, AddGuarded(mems, mem, dom), PlacesAfter(mems, places, mem, dom, (b, i)))
  {
    var c := NonZero(Val(values, p.blocks[b].body[i].c));
    hide *;
    forall v
      ensures Holds(MkAnd(path, c), v) ==> StopPoint(p, v, b, i) && Eval(mem, v) == MemAt(p, v, b, i)
      ensures StopPoint(p, v, b, i) && Live(p, v, b) ==> Holds(MkAnd(path, c), v)
    {
      ExitingStops(p, v, path, ub, mem, values, b, i);
      AndMeans(path, c, v);
    }
    PlacesKnownStep(p, mems, places, mem, MkAnd(path, c), b, i);
  }

  /** ... and `State::addReturn`. */
  lemma ReturnPlaces(p: Program, path: Cond, ub: seq<Cond>, mem: Term, values: map<nat, Term>, b: nat, mems: Disj<Term>, places: seq<set<(nat, nat)>>)
    requires b < |p.blocks| && p.blocks[b].term.Return?
    requires (forall v :: HereMeans(p, v, path, ub, mem, values, b, |p.blocks[b].body|)) && PlacesKnown(p, mems, places)
    ensures PlacesKnown(p, AddGuarded(mems, mem, path), PlacesAfter(mems, places, mem, path, (b, |p.blocks[b].body|)))
  {
    hide *;
    forall v
      ensures Holds(path, v) ==> StopPoint(p, v, b, |p.blocks[b].body|) && Eval(mem, v) == MemAt(p, v, b, |p.blocks[b].body|)
      ensures StopPoint(p, v, b, |p.blocks[b].body|) && Live(p, v, b) ==> Holds(path, v)
    {
      ReturningStops(p, v, path, ub, mem, values, b);
    }
    PlacesKnownStep(p, mems, places, mem, path, b, |p.blocks[b].body|);
  }

  /** A well-defined run is in exactly one of the three outcomes: it returns, a call does
      not return, or it reaches the sink. */
  lemma ExactlyOneOutcome(p: Program, v: Valuation, vals: Disj<Term>, mems: Disj<Term>, ret: seq<Cond>, fun: seq<Cond>, sink: Cond)
    requires WellFormed(p) && Finished(p, v, vals, mems, ret, fun)
    requires Holds(sink, v) <==> End(p, v).Sunk? && End(p, v).c.status.Running?
    ensures !End(p, v).c.status.Undefined? <==> Any(fun, v) || Holds(sink, v)
    ensures !(Any(fun, v) && Holds(sink, v)) && (Any(ret, v) ==> Any(fun, v))
    ensures Any(fun, v) && !Any(ret, v) <==> End(p, v).c.status.Exited?
  {
    var a := EndSomewhere(p, v);
    hide Any, Holds;
  }
}
