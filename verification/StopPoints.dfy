/** Where a run can leave the function, and what the guarded memories recorded there
    yield (ir/state.cpp).  Path conditions do not mention calls that do not return, so
    more than one guard can hold; the memory then depends on the order of the entries. */
module StopPoints {
  import opened Terms
  import opened Guarded
  import opened Factor
  import opened Execution
  import opened SymExec
  import opened Exits

  // ----- the memory of overlapping guards ------------------------------------

  /** Some guard is literally true. */
  ghost predicate Unconditional<T>(d: Disj<T>) {
    exists k: nat :: k < |d| && d[k].1 == True
  }

  /** The collapsed list has this value, whatever the order of its entries. */
  ghost predicate Yields(d: Disj<Term>, v: Valuation, m: Bits) {
    forall d': Disj<Term> :: multiset(d') == multiset(d) ==> Eval(Pick(d', Lit([])), v) == m
  }

  /** The last entry that applies, or the first with a guard that is literally true. */
  lemma {:induction false} CollapseTakes(d: Disj<Term>, i: nat, acc: Term, v: Valuation) returns (k: int)
    requires i <= |d|
    ensures -1 == k || (i <= k < |d| && Chosen(d, v, k))
    ensures Eval(CollapseFrom(d, i, acc, MkIf), v) == if k == -1 then Eval(acc, v) else Eval(d[k].0, v)
    ensures (exists j :: i <= j < |d| && d[j].1 == True) ==> k >= 0 && d[k].1 == True
    ensures k == -1 || d[k].1 != True ==> forall j: nat :: i <= j && k < j < |d| ==> !Chosen(d, v, j)
    decreases |d| - i
  {
    ConstantsMean(v);
    hide Holds, Eval, MkIf;
    if i == |d| {
      k := -1;
    } else if d[i].1 == True {
      k := i;
    } else {
      var next := i + 1;
      IfMeans(d[i].1, d[i].0, acc, v);
      k := CollapseTakes(d, next, MkIf(d[i].1, d[i].0, acc), v);
      if k == -1 && Holds(d[i].1, v) {
        k := i;
      }
    }
  }

  lemma PickTakes(d: Disj<Term>, v: Valuation) returns (k: nat)
    requires Covered(d, v)
    ensures Chosen(d, v, k) && Eval(Pick(d, Lit([])), v) == Eval(d[k].0, v)
    ensures Unconditional(d) ==> d[k].1 == True
    ensures d[k].1 != True ==> forall j: nat :: k < j ==> !Chosen(d, v, j)
  {
    ConstantsMean(v);
    hide Holds, Eval;
    var c: nat :| Chosen(d, v, c);
    if d[0].1 == True {
      k := 0;
    } else {
      var k' := CollapseTakes(d, 1, d[0].0, v);
      k := if k' == -1 then 0 else k';
      if Unconditional(d) {
        var j: nat :| j < |d| && d[j].1 == True;
        assert 1 <= j < |d|;
      }
    }
  }

  lemma CoveredInAnyOrder(d: Disj<Term>, d': Disj<Term>, v: Valuation)
    requires multiset(d') == multiset(d)
    ensures forall x :: x in d' <==> x in d
    ensures Covered(d', v) <==> Covered(d, v)
  {
    hide Holds;
    forall x
      ensures x in d' <==> x in d
    {
      assert x in multiset(d') <==> x in multiset(d);
    }
    if Covered(d, v) {
      var k: nat :| Chosen(d, v, k);
      assert d[k] in d';
      var j: nat :| j < |d'| && d'[j] == d[k];
      assert Chosen(d', v, j);
    }
    if Covered(d', v) {
      var k: nat :| Chosen(d', v, k);
      assert d'[k] in d;
      var j: nat :| j < |d| && d[j] == d'[k];
      assert Chosen(d, v, j);
    }
  }

  lemma UnconditionalInAnyOrder(d: Disj<Term>, d': Disj<Term>)
    requires multiset(d') == multiset(d)
    ensures Unconditional(d') <==> Unconditional(d)
  {
    if Unconditional(d) {
      var k: nat :| k < |d| && d[k].1 == True;
      assert d[k] in multiset(d');
    }
    if Unconditional(d') {
      var k: nat :| k < |d'| && d'[k].1 == True;
      assert d'[k] in multiset(d);
    }
  }

  /** Some order yields this entry. */
  lemma EntryTakesOver(d: Disj<Term>, v: Valuation, k: nat) returns (d': Disj<Term>)
    requires Chosen(d, v, k) && (Unconditional(d) ==> d[k].1 == True)
    ensures multiset(d') == multiset(d) && Eval(Pick(d', Lit([])), v) == Eval(d[k].0, v)
  {
    hide Holds, Eval;
    var rest := d[..k] + d[k + 1..];
    assert d == d[..k] + [d[k]] + d[k + 1..];
    if d[k].1 == True {
      d' := [d[k]] + rest;
    } else {
      d' := rest + [d[k]];
      var n := |d'| - 1;
      assert d'[n] == d[k] && Chosen(d', v, n);
      CoveredInAnyOrder(d, d', v);
      UnconditionalInAnyOrder(d, d');
      var j := PickTakes(d', v);
      assert d'[j].1 == True ==> Unconditional(d');
      assert j == n;
    }
  }

  /** What the guarded memories yield in every order: the memory of the entries that are
      literally unconditional if there are any, or else of all that apply. */
  lemma YieldsIff(d: Disj<Term>, v: Valuation, m: Bits)
    requires Covered(d, v)
    ensures Yields(d, v, m) <==>
      forall k: nat :: Chosen(d, v, k) && (Unconditional(d) ==> d[k].1 == True) ==> Eval(d[k].0, v) == m
  {
    hide Holds, Eval, Pick;
    if Yields(d, v, m) {
      forall k: nat | Chosen(d, v, k) && (Unconditional(d) ==> d[k].1 == True)
        ensures Eval(d[k].0, v) == m
      {
        var d' := EntryTakesOver(d, v, k);
      }
    }
    if forall k: nat :: Chosen(d, v, k) && (Unconditional(d) ==> d[k].1 == True) ==> Eval(d[k].0, v) == m {
      forall d': Disj<Term> | multiset(d') == multiset(d)
        ensures Eval(Pick(d', Lit([])), v) == m
      {
        CoveredInAnyOrder(d, d', v);
        UnconditionalInAnyOrder(d, d');
        var j := PickTakes(d', v);
        assert d'[j] in d;
        var k: nat :| k < |d| && d[k] == d'[j];
        assert Chosen(d, v, k);
      }
    }
  }

  /** Adding an entry whose guard may overlap others. */
  lemma AddOverlapping<T>(d: Disj<T>, val: T, dom: Cond, v: Valuation)
    ensures var r := AddGuarded(d, val, dom);
      && (forall x :: Selects(r, v, x) ==> Selects(d, v, x) || (x == val && Holds(dom, v)))
      && (Holds(dom, v) ==> Selects(r, v, val))
      && (Unconditional(r) || forall x :: Selects(d, v, x) ==> Selects(r, v, x))
      && (Unconditional(d) ==> Unconditional(r))
  {
    ConstantsMean(v);
    hide Holds, Eval, MkOr;
    var r := AddGuarded(d, val, dom);
    if dom != False {
      var d0 := if dom == True then [] else d;
      var i := IndexOf(d0, val);
      if i < |d0| {
        OrMeans(d0[i].1, dom, v);
        OrOfTrue(dom);
      }
      assert forall j: nat :: j < |d0| && j != i ==> r[j] == d0[j];
      assert r[i].0 == val && (Holds(r[i].1, v) <==> Holds(dom, v) || (i < |d0| && Holds(d0[i].1, v)));
      if dom == True {
        assert r[0].1 == True;
      } else {
        forall j: nat | Chosen(d, v, j)
          ensures Chosen(r, v, j) && r[j].0 == d[j].0
        {
        }
        assert forall j: nat :: j < |d| && d[j].1 == True ==> r[j].1 == True;
      }
      if Holds(dom, v) {
        assert Chosen(r, v, i);
      }
      forall j: nat | Chosen(r, v, j)
        ensures Selects(d, v, r[j].0) || (r[j].0 == val && Holds(dom, v))
      {
        assert j < |d0| && Holds(d0[j].1, v) ==> Chosen(d, v, j) && d[j].0 == r[j].0;
      }
    }
  }

  lemma OrOfTrue(c: Cond)
    ensures MkOr(True, c) == True
  {
  }

  // ----- stop points ---------------------------------------------------------

  /** At operation `j` of block `a` the run, followed to its end, could leave the
      function: the condition of a call that does not return holds, or it returns. */
  ghost predicate StopPoint(p: Program, v: Valuation, a: nat, j: nat) {
    && a < |p.blocks| && j <= |p.blocks[a].body| && Arrive(p, v, a).Arrived?
    && if j == |p.blocks[a].body| then p.blocks[a].term.Return?
       else p.blocks[a].body[j].ExitIf? && !ZeroBits(Get(ConfigAt(p, v, a, j).env, p.blocks[a].body[j].c))
  }

  predicate Earlier(a: nat, j: nat, b: nat, i: nat) {
    a < b || (a == b && j < i)
  }

  /** The memory of the run before operation `j` of block `a`. */
  ghost function MemAt(p: Program, v: Valuation, a: nat, j: nat): Bits {
    if a < |p.blocks| && j <= |p.blocks[a].body| then ConfigAt(p, v, a, j).mem else []
  }

  /** At all stop points, the run has this memory. */
  ghost predicate OneMemory(p: Program, v: Valuation, m: Bits) {
    forall a: nat, j: nat :: StopPoint(p, v, a, j) ==> MemAt(p, v, a, j) == m
  }

  /** The run gets to its stop points by jumps that well-defined runs take as well. */
  ghost predicate StopsLive(p: Program, v: Valuation) {
    forall a: nat, j: nat :: StopPoint(p, v, a, j) ==> Live(p, v, a)
  }

  /** A memory of an earlier stop point. */
  ghost predicate StopMemory(p: Program, v: Valuation, b: nat, i: nat, m: Bits) {
    exists a: nat, j: nat :: StopPoint(p, v, a, j) && Earlier(a, j, b, i) && MemAt(p, v, a, j) == m
  }

  ghost predicate Selected(d: Disj<Term>, v: Valuation, m: Bits) {
    exists x :: Selects(d, v, x) && Eval(x, v) == m
  }

  /** Every earlier stop point of a live run is recorded. */
  ghost predicate StopsRecorded(p: Program, v: Valuation, b: nat, i: nat, mems: Disj<Term>) {
    forall a: nat, j: nat :: StopPoint(p, v, a, j) && Earlier(a, j, b, i) && Live(p, v, a) ==> Selected(mems, v, MemAt(p, v, a, j))
  }

  /** What holds of the memories recorded before operation `i` of block `b`: those that
      apply are memories of stop points, and live stop points are among them, unless a
      guard is literally true. */
  ghost predicate MemoryMeans(p: Program, v: Valuation, b: nat, i: nat, mems: Disj<Term>) {
    && (forall x :: Selects(mems, v, x) ==> StopMemory(p, v, b, i, Eval(x, v)))
    && (Unconditional(mems) || StopsRecorded(p, v, b, i, mems))
  }

  lemma MemoryStarts(p: Program, v: Valuation)
    ensures MemoryMeans(p, v, 0, 0, [])
  {
    NothingChosen<Term>([], v);
  }

  lemma StopMemoryLater(p: Program, v: Valuation, b: nat, i: nat, b': nat, i': nat, m: Bits)
    requires StopMemory(p, v, b, i, m) && (b < b' || (b == b' && i <= i'))
    ensures StopMemory(p, v, b', i', m)
  {
    hide StopPoint, MemAt;
    var a: nat, j: nat :| StopPoint(p, v, a, j) && Earlier(a, j, b, i) && MemAt(p, v, a, j) == m;
    assert Earlier(a, j, b', i');
  }

  /** From one position to a later one without a live stop point in between. */
  lemma MemoryLater(p: Program, v: Valuation, b: nat, i: nat, b': nat, i': nat, mems: Disj<Term>)
    requires MemoryMeans(p, v, b, i, mems) && (b < b' || (b == b' && i <= i'))
    requires forall a: nat, j: nat :: StopPoint(p, v, a, j) && Earlier(a, j, b', i') && Live(p, v, a) ==> Earlier(a, j, b, i)
    ensures MemoryMeans(p, v, b', i', mems)
  {
    hide StopPoint, MemAt, Selects, Live, StopMemory;
    forall x | Selects(mems, v, x)
      ensures StopMemory(p, v, b', i', Eval(x, v))
    {
      StopMemoryLater(p, v, b, i, b', i', Eval(x, v));
    }
  }

  /** Recording a memory at a stop point. */
  lemma MemoryStep(p: Program, v: Valuation, b: nat, i: nat, mems: Disj<Term>, mem: Term, dom: Cond)
    requires b < |p.blocks| && i <= |p.blocks[b].body| && MemoryMeans(p, v, b, i, mems)
    requires Holds(dom, v) ==> StopPoint(p, v, b, i) && Eval(mem, v) == MemAt(p, v, b, i)
    requires StopPoint(p, v, b, i) && Live(p, v, b) ==> Holds(dom, v)
    ensures MemoryMeans(p, v, b, i + 1, AddGuarded(mems, mem, dom))
  {
    var mems' := AddGuarded(mems, mem, dom);
    AddOverlapping(mems, mem, dom, v);
    hide StopPoint, MemAt, Selects, Live, AddGuarded, Holds, Eval, Unconditional;
    forall x | Selects(mems', v, x)
      ensures StopMemory(p, v, b, i + 1, Eval(x, v))
    {
      if Selects(mems, v, x) {
        StopMemoryLater(p, v, b, i, b, i + 1, Eval(x, v));
      } else {
        assert Earlier(b, i, b, i + 1);
      }
    }
    if !Unconditional(mems') {
      forall a: nat, j: nat | StopPoint(p, v, a, j) && Earlier(a, j, b, i + 1) && Live(p, v, a)
        ensures Selected(mems', v, MemAt(p, v, a, j))
      {
        assert Earlier(a, j, b, i) || (a == b && j == i);
        if Earlier(a, j, b, i) {
          assert Selected(mems, v, MemAt(p, v, a, j));
        } else {
          assert Selects(mems', v, mem);
        }
      }
    }
  }

  lemma EntryRuns(p: Program, v: Valuation)
    ensures Arrive(p, v, 0) == if |p.blocks| > 0 then Arrived(|p.blocks|, Start(p, v)) else Never
  {
  }

  /** A block at which no run arrives well-defined is not live. */
  lemma SkippedNotLive(p: Program, v: Valuation, b: nat)
    requires |p.blocks| > 0 && b < |p.blocks|
    requires forall v' :: !(Arrive(p, v', b).Arrived? && ConfigAt(p, v', b, 0).status.Running?)
    ensures !Live(p, v, b)
  {
    EntryRuns(p, v);
    assert p.blocks[b].body[..0] == [];
    if b > 0 && Live(p, v, b) {
      var a := Arrive(p, v, b).pred;
      ArriveSomewhere(p, v, b);
      assert Followed(p, v, a);
      var v' :| LeavesRunning(p, v', a) && ChoiceAt(p, v', a) == ChoiceAt(p, v, a);
      assert Goes(p, v', a, b);
      ArriveIffGoes(p, v', a, b);
    }
  }

  /** A run that has exited did so at a live stop point, with the memory it exited with. */
  lemma ExitIsStop(p: Program, v: Valuation) returns (a: nat, j: nat)
    requires WellFormed(p) && End(p, v).c.status.Exited?
    ensures StopPoint(p, v, a, j) && Live(p, v, a) && MemAt(p, v, a, j) == End(p, v).c.status.mem
    ensures a < |p.blocks|
  {
    ExitsIffExited(p, v);
    a, j :| ExitsAt(p, v, a, j);
    ExitStops(p, v, a, j);
    RunningAt(p, v, a, j);
  }

  /** A well-defined returning run has one stop point only. */
  lemma ReturnIsOnlyStop(p: Program, v: Valuation)
    requires WellFormed(p) && End(p, v).Returned? && End(p, v).c.status.Running?
    ensures OneMemory(p, v, End(p, v).c.mem)
    ensures exists a: nat, j: nat :: StopPoint(p, v, a, j) && Live(p, v, a) && a < |p.blocks| && MemAt(p, v, a, j) == End(p, v).c.mem
  {
    ReturnsIffReturned(p, v);
    var r: nat :| r < |p.blocks| && ReturnsAt(p, v, r);
    var n := |p.blocks[r].body|;
    EndAt(p, v, r);
    LeaveIsConfig(p, v, r);
    RunningAt(p, v, r, n);
    assert StopPoint(p, v, r, n);
    forall a: nat, j: nat | StopPoint(p, v, a, j)
      ensures MemAt(p, v, a, j) == End(p, v).c.mem
    {
      OnlyStopIs(p, v, a, j);
      EndAt(p, v, a);
      LeaveIsConfig(p, v, a);
    }
  }

  lemma OnlyStopIs(p: Program, v: Valuation, a: nat, j: nat)
    requires End(p, v).c.status.Running? && StopPoint(p, v, a, j)
    ensures j == |p.blocks[a].body| && p.blocks[a].term.Return?
  {
    if j < |p.blocks[a].body| {
      if ConfigAt(p, v, a, j).status.Running? {
        assert ExitsAt(p, v, a, j);
        ExitStops(p, v, a, j);
      } else {
        StoppedAt(p, v, a, j);
      }
    }
  }

  /** What the recorded memories yield at the end, if a live stop point has memory `m`. */
  lemma MemoryFinished(p: Program, v: Valuation, mems: Disj<Term>, m: Bits, a: nat, j: nat)
    requires MemoryMeans(p, v, |p.blocks|, 0, mems)
    requires a < |p.blocks| && StopPoint(p, v, a, j) && Live(p, v, a) && MemAt(p, v, a, j) == m
    ensures Covered(mems, v) && (OneMemory(p, v, m) ==> Yields(mems, v, m))
    ensures Yields(mems, v, m) && StopsLive(p, v) && !Unconditional(mems) ==> OneMemory(p, v, m)
  {
    SomethingCovered(p, v, mems, a, j);
    YieldsIff(mems, v, m);
    hide StopPoint, MemAt, Live, Eval, Yields;
    if OneMemory(p, v, m) {
      forall k: nat | Chosen(mems, v, k)
        ensures Eval(mems[k].0, v) == m
      {
        assert Selects(mems, v, mems[k].0);
        assert StopMemory(p, v, |p.blocks|, 0, Eval(mems[k].0, v));
      }
    }
    if Yields(mems, v, m) && StopsLive(p, v) && !Unconditional(mems) {
      forall b: nat, i: nat | StopPoint(p, v, b, i)
        ensures MemAt(p, v, b, i) == m
      {
        StopInside(p, v, b, i);
        assert Selected(mems, v, MemAt(p, v, b, i));
        var x :| Selects(mems, v, x) && Eval(x, v) == MemAt(p, v, b, i);
      }
    }
  }

  lemma StopInside(p: Program, v: Valuation, b: nat, i: nat)
    requires StopPoint(p, v, b, i)
    ensures Earlier(b, i, |p.blocks|, 0)
  {
  }

  lemma SomethingCovered(p: Program, v: Valuation, mems: Disj<Term>, a: nat, j: nat)
    requires MemoryMeans(p, v, |p.blocks|, 0, mems) && a < |p.blocks| && StopPoint(p, v, a, j) && Live(p, v, a)
    ensures Covered(mems, v)
  {
    ConstantsMean(v);
    hide StopPoint, MemAt, Live, Eval, Holds;
    if Unconditional(mems) {
      var k: nat :| k < |mems| && mems[k].1 == True;
      assert Chosen(mems, v, k);
    } else {
      assert Earlier(a, j, |p.blocks|, 0);
      assert Selected(mems, v, MemAt(p, v, a, j));
    }
  }

  // ----- where the recorded memories come from ---------------------------------

  /** The operations at which the entries of a list were recorded, after `AddGuarded`. */
  function PlacesAfter(d: Disj<Term>, places: seq<set<(nat, nat)>>, val: Term, dom: Cond, at: (nat, nat)): (r: seq<set<(nat, nat)>>)
    requires |places| == |d|
    ensures |r| == |AddGuarded(d, val, dom)|
  {
    if dom == False then places
    else
      var (d0, places0) := if dom == True then ([], []) else (d, places);
      var i := IndexOf(d0, val);
      if i < |d0| then places0[i := places0[i] + {at}] else places0 + [{at}]
  }

  /** The run passes one of these stop points, with memory `m`. */
  ghost predicate Passes(p: Program, v: Valuation, places: set<(nat, nat)>, m: Bits) {
    exists a: nat, j: nat :: (a, j) in places && StopPoint(p, v, a, j) && MemAt(p, v, a, j) == m
  }

  /** A guard holds only for runs that pass one of the stop points with the memory of the
      entry, and it holds for all live runs that pass one. */
  ghost predicate PlaceMeans(p: Program, v: Valuation, mem: Term, guard: Cond, places: set<(nat, nat)>) {
    && (Holds(guard, v) ==> Passes(p, v, places, Eval(mem, v)))
    && forall a: nat, j: nat :: (a, j) in places && StopPoint(p, v, a, j) && Live(p, v, a) ==> Holds(guard, v) && MemAt(p, v, a, j) == Eval(mem, v)
  }

  ghost predicate PlacesMean(p: Program, v: Valuation, mems: Disj<Term>, places: seq<set<(nat, nat)>>) {
    |places| == |mems| && forall k: nat :: k < |mems| ==> PlaceMeans(p, v, mems[k].0, mems[k].1, places[k])
  }

  /** ... for every run. */
  ghost predicate PlacesKnown(p: Program, mems: Disj<Term>, places: seq<set<(nat, nat)>>) {
    |places| == |mems| && forall v :: PlacesMean(p, v, mems, places)
  }

  lemma PlaceGrows(p: Program, v: Valuation, mem: Term, guard: Cond, places: set<(nat, nat)>, dom: Cond, b: nat, i: nat)
    requires PlaceMeans(p, v, mem, guard, places)
    requires Holds(dom, v) ==> StopPoint(p, v, b, i) && Eval(mem, v) == MemAt(p, v, b, i)
    requires StopPoint(p, v, b, i) && Live(p, v, b) ==> Holds(dom, v)
    ensures PlaceMeans(p, v, mem, MkOr(guard, dom), places + {(b, i)})
  {
    OrMeans(guard, dom, v);
    hide StopPoint, MemAt, Live, Eval, Holds, MkOr;
    if Holds(guard, v) {
      var a: nat, j: nat :| (a, j) in places && StopPoint(p, v, a, j) && MemAt(p, v, a, j) == Eval(mem, v);
      assert (a, j) in places + {(b, i)};
    } else if Holds(dom, v) {
      assert (b, i) in places + {(b, i)};
    }
  }

  lemma PlaceStarts(p: Program, v: Valuation, mem: Term, dom: Cond, b: nat, i: nat)
    requires Holds(dom, v) ==> StopPoint(p, v, b, i) && Eval(mem, v) == MemAt(p, v, b, i)
    requires StopPoint(p, v, b, i) && Live(p, v, b) ==> Holds(dom, v)
    ensures PlaceMeans(p, v, mem, dom, {(b, i)})
  {
    hide StopPoint, MemAt, Live, Eval, Holds;
    assert (b, i) in {(b, i)};
  }

  /** Recording a memory at a stop point. */
  lemma PlacesStep(p: Program, v: Valuation, mems: Disj<Term>, places: seq<set<(nat, nat)>>, mem: Term, dom: Cond, b: nat, i: nat)
    requires PlacesMean(p, v, mems, places)
    requires Holds(dom, v) ==> StopPoint(p, v, b, i) && Eval(mem, v) == MemAt(p, v, b, i)
    requires StopPoint(p, v, b, i) && Live(p, v, b) ==> Holds(dom, v)
    ensures PlacesMean(p, v, AddGuarded(mems, mem, dom), PlacesAfter(mems, places, mem, dom, (b, i)))
  {
    PlaceStarts(p, v, mem, dom, b, i);
    if dom != False {
      var d0 := if dom == True then [] else mems;
      var places0 := if dom == True then [] else places;
      var n := IndexOf(d0, mem);
      hide PlaceMeans, Holds, StopPoint, MemAt, Live, Eval, MkOr;
      if n < |d0| {
        PlaceGrows(p, v, mem, d0[n].1, places0[n], dom, b, i);
      }
    }
  }

  lemma PlacesKnownStep(p: Program, mems: Disj<Term>, places: seq<set<(nat, nat)>>, mem: Term, dom: Cond, b: nat, i: nat)
    requires PlacesKnown(p, mems, places)
    requires forall v :: Holds(dom, v) ==> StopPoint(p, v, b, i) && Eval(mem, v) == MemAt(p, v, b, i)
    requires forall v :: StopPoint(p, v, b, i) && Live(p, v, b) ==> Holds(dom, v)
    ensures PlacesKnown(p, AddGuarded(mems, mem, dom), PlacesAfter(mems, places, mem, dom, (b, i)))
  {
    hide PlacesMean, Holds, StopPoint, MemAt, Live, Eval, AddGuarded, PlacesAfter;
    forall v
      ensures PlacesMean(p, v, AddGuarded(mems, mem, dom), PlacesAfter(mems, places, mem, dom, (b, i)))
    {
      PlacesStep(p, v, mems, places, mem, dom, b, i);
    }
  }

  /** A stop point of an entry whose guard is literally true. */
  ghost predicate Certain(mems: Disj<Term>, places: seq<set<(nat, nat)>>, a: nat, j: nat) {
    exists k: nat :: k < |mems| && k < |places| && mems[k].1 == True && (a, j) in places[k]
  }

  /** At all of those that the run passes, it has this memory. */
  ghost predicate CertainMemory(p: Program, v: Valuation, mems: Disj<Term>, places: seq<set<(nat, nat)>>, m: Bits) {
    forall a: nat, j: nat :: Certain(mems, places, a, j) && StopPoint(p, v, a, j) ==> MemAt(p, v, a, j) == m
  }

  /** Every run passes one of them; all runs pass it if there is no other. */
  lemma CertainPassed(p: Program, v: Valuation, mems: Disj<Term>, places: seq<set<(nat, nat)>>, k: nat)
    requires PlacesMean(p, v, mems, places) && k < |mems| && mems[k].1 == True
    ensures exists a: nat, j: nat :: (a, j) in places[k] && Certain(mems, places, a, j) && StopPoint(p, v, a, j)
    ensures forall a: nat, j: nat :: places[k] == {(a, j)} ==> StopPoint(p, v, a, j)
  {
    ConstantsMean(v);
    hide StopPoint, MemAt, Live, Eval, Holds;
    assert PlaceMeans(p, v, mems[k].0, mems[k].1, places[k]);
    var a: nat, j: nat :| (a, j) in places[k] && StopPoint(p, v, a, j) && MemAt(p, v, a, j) == Eval(mems[k].0, v);
    assert Certain(mems, places, a, j);
  }

  /** What the list yields if some guard is literally true, by the memories at the stop
      points where those entries were recorded. */
  lemma CertainYields(p: Program, v: Valuation, mems: Disj<Term>, places: seq<set<(nat, nat)>>, m: Bits)
    requires PlacesMean(p, v, mems, places) && Unconditional(mems)
    ensures CertainMemory(p, v, mems, places, m) ==> Yields(mems, v, m)
    ensures Yields(mems, v, m) && StopsLive(p, v) ==> CertainMemory(p, v, mems, places, m)
  {
    ConstantsMean(v);
    var c: nat :| c < |mems| && mems[c].1 == True;
    assert Chosen(mems, v, c);
    YieldsIff(mems, v, m);
    hide StopPoint, MemAt, Live, Eval, Yields, Holds;
    if CertainMemory(p, v, mems, places, m) {
      forall k: nat | Chosen(mems, v, k) && mems[k].1 == True
        ensures Eval(mems[k].0, v) == m
      {
        assert PlaceMeans(p, v, mems[k].0, mems[k].1, places[k]);
        var a: nat, j: nat :| (a, j) in places[k] && StopPoint(p, v, a, j) && MemAt(p, v, a, j) == Eval(mems[k].0, v);
        assert Certain(mems, places, a, j);
      }
    }
    if Yields(mems, v, m) && StopsLive(p, v) {
      forall a: nat, j: nat | Certain(mems, places, a, j) && StopPoint(p, v, a, j)
        ensures MemAt(p, v, a, j) == m
      {
        var k: nat :| k < |mems| && k < |places| && mems[k].1 == True && (a, j) in places[k];
        assert PlaceMeans(p, v, mems[k].0, mems[k].1, places[k]) && Live(p, v, a);
        assert Chosen(mems, v, k);
      }
    }
  }
}
