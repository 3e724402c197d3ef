/** A function for which the memory of a call that does not return is lost: the memory of
    the return after it takes its place. */
module ExitMemory {
  import opened Terms
  import opened Guarded
  import opened Factor
  import opened Execution
  import opened SymExec
  import opened StopPoints
  import opened SymState

  /** A call that does not return, a write to memory, and a return. */
  function CallThenWrite(): Program {
    Program([Block([ExitIf(0), Write(0, 0)], Return(0))], map[0 := Lit([true])], Lit([]))
  }

  function WritesOne(): Valuation {
    Valuation(_ => [], _ => true, (_, _, _) => [true], (_, _) => [])
  }

  lemma ConfigsOf(v: Valuation)
    ensures var p := CallThenWrite();
      && Arrive(p, v, 0) == Arrived(1, Start(p, v)) && Start(p, v) == Config(map[0 := [true]], [], Running)
      && ConfigAt(p, v, 0, 0) == Start(p, v) && ConfigAt(p, v, 0, 1) == Start(p, v).(status := Exited([]))
      && ConfigAt(p, v, 0, 2) == Config(map[0 := [true]], v.fn(0, [], [true]), Exited([]))
  {
    var p := CallThenWrite();
    assert p.blocks[0].body[..0] == [];
    assert Get(Start(p, v).env, 0)[0];
    ConfigStep(p, v, 0, 0);
    ConfigStep(p, v, 0, 1);
  }

  lemma IsValid()
    ensures Valid(CallThenWrite())
  {
    var p := CallThenWrite();
    forall v
      ensures UsesDefined(p, v)
    {
      ConfigsOf(v);
      LeaveIsConfig(p, v, 0);
    }
  }

  /** The run stops at the call, before the write; its return is a second stop point. */
  lemma RunOf(v: Valuation)
    requires v == WritesOne()
    ensures var p := CallThenWrite();
      && End(p, v).c.status == Exited([])
      && StopPoint(p, v, 0, 0) && MemAt(p, v, 0, 0) == [] && StopPoint(p, v, 0, 2) && MemAt(p, v, 0, 2) == [true]
      && StopsLive(p, v) && !OneMemory(p, v, [])
  {
    var p := CallThenWrite();
    ConfigsOf(v);
    LeaveIsConfig(p, v, 0);
    assert StopPoint(p, v, 0, 2);
    forall a: nat, j: nat | StopPoint(p, v, a, j)
      ensures Live(p, v, a)
    {
    }
  }

  /** Symbolic execution records the memory after the write for this run, although the
      write is not reached: the only place left is that of the return. */
  method WriteIsSeen(id: Ids) returns (s: State)
    requires Injective(id)
    ensures s.p == CallThenWrite() && s.Before(1)
    ensures var v := WritesOne(); var e := End(s.p, v);
      e.c.status == Exited([]) && Eval(Pick(s.returnMem, Lit([])), v) == [true]
    ensures |s.returnMem| == 1 && s.returnMem[0].1 == True && s.returnPlaces == [{(0, 2)}]
  {
    hide *;
    var p := CallThenWrite();
    IsValid();
    RunOf(WritesOne());
    RecordedMemory(WritesOne());
    ShapeOf();
    s := new State(p, id);
    var ok := s.StartBB(0);
    Entry(s);
    OpIs(s, 0);
    s.AddNoReturn(0);
    OpIs(s, 0);
    OpIs(s, 1);
    s.ExecWrite(1);
    OpIs(s, 1);
    s.AddReturn(Val(s.values, 0));
  }

  lemma ShapeOf()
    ensures var p := CallThenWrite();
      && |p.blocks| == 1 && |p.blocks[0].body| == 2 && p.blocks[0].body[0] == ExitIf(0) && p.blocks[0].body[1] == Write(0, 0)
      && p.blocks[0].term == Return(0) && p.mem0 == Lit([])
  {
  }

  lemma OpIs(s: State, i: nat)
    requires s.current < |s.p.blocks| && i < |s.p.blocks[s.current].body|
    ensures s.CurrentOp(i) == s.p.blocks[s.current].body[i]
  {
  }

  lemma Entry(s: State)
    requires s.Initial()
    ensures s.path == True && s.mem == s.p.mem0 && s.values == s.p.inputs
  {
  }

  lemma RecordedMemory(v: Valuation)
    requires v == WritesOne()
    ensures var c := NonZero(Val(CallThenWrite().inputs, 0));
      var mem := App(0, Lit([]), Val(CallThenWrite().inputs, 0));
      var d := AddGuarded([], Lit([]), MkAnd(True, c));
      var places := PlacesAfter([], [], Lit([]), MkAnd(True, c), (0, 0));
      && Eval(Pick(AddGuarded(d, mem, True), Lit([])), v) == [true]
      && |AddGuarded(d, mem, True)| == 1 && AddGuarded(d, mem, True)[0].1 == True
      && PlacesAfter(d, places, mem, True, (0, 2)) == [{(0, 2)}]
  {
    var mem := App(0, Lit([]), Val(CallThenWrite().inputs, 0));
    assert Eval(mem, v) == v.fn(0, Eval(Lit([]), v), Eval(Val(CallThenWrite().inputs, 0), v));
  }
}
