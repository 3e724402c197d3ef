/** Whole runs over variadic argument lists: the table of ir/instr.cpp against the lists
    themselves, for every sequence of operations. */
module VarArgRuns {
  import opened Terms
  import opened Factor
  import opened VarArgs

  datatype Act =
    | StartAct(p: Term)
    | EndAct(p: Term)
    | CopyAct(dst: Term, src: Term)
    | ArgAct(p: Term)

  /** The pointers that an operation is about. */
  function Pointers(a: Act): set<Term> {
    match a
    case CopyAct(dst, src) => {src, dst}
    case _ => {a.p}
  }

  function Mentioned(acts: seq<Act>): set<Term> {
    if acts == [] then {} else Mentioned(acts[..|acts| - 1]) + Pointers(acts[|acts| - 1])
  }

  /** The lists after the operations, one for each address. */
  ghost function ListsOf(acts: seq<Act>, v: Valuation): Lists {
    if acts == [] then IncomingAll(v) else ListsNext(ListsOf(acts[..|acts| - 1], v), acts[|acts| - 1], v)
  }

  function ListsNext(lists: Lists, a: Act, v: Valuation): Lists {
    match a
    case StartAct(p) => With(lists, Eval(p, v), ChangedList(Start(p), lists(Eval(p, v)), v))
    case EndAct(p) => With(lists, Eval(p, v), ChangedList(End(p), lists(Eval(p, v)), v))
    case CopyAct(dst, src) => With(lists, Eval(dst, v), lists(Eval(src, v)).(alive := true))
    case ArgAct(p) => With(lists, Eval(p, v), ChangedList(Advance(p), lists(Eval(p, v)), v))
  }

  /** The arguments that the operations give. */
  ghost function ArgsOf(acts: seq<Act>, v: Valuation): seq<Bits> {
    if acts == [] then [] else
      var before, last := acts[..|acts| - 1], acts[|acts| - 1];
      ArgsOf(before, v) + if last.ArgAct? then [ArgOf(ListsOf(before, v)(Eval(last.p, v)), Eval(last.p, v), v)] else []
  }

  /** An operation before was about this address. */
  ghost predicate MentionedAt(before: seq<Act>, p: Term, v: Valuation) {
    exists k :: k in Mentioned(before) && Eval(k, v) == Eval(p, v)
  }

  /** A list may be used if an operation before was about its address, or it is not local. */
  ghost predicate Usable(nonlocal0: Term -> Cond, before: seq<Act>, p: Term, v: Valuation) {
    MentionedAt(before, p, v) || Holds(nonlocal0(p), v)
  }

  /** The operation is well-defined. */
  ghost predicate ActOk(nonlocal0: Term -> Cond, before: seq<Act>, a: Act, v: Valuation) {
    match a
    case StartAct(_) => true
    case EndAct(p) => Usable(nonlocal0, before, p, v) && ListsOf(before, v)(Eval(p, v)).alive
    case CopyAct(_, src) => Usable(nonlocal0, before, src, v) && ListsOf(before, v)(Eval(src, v)).alive
    case ArgAct(p) =>
      var l := ListsOf(before, v)(Eval(p, v));
      Usable(nonlocal0, before, p, v) && l.alive && AtLeast(l.num, v.plus(l.next, Eval(ONE, v)))
  }

  ghost predicate ActsOk(nonlocal0: Term -> Cond, acts: seq<Act>, v: Valuation) {
    acts == [] || (ActsOk(nonlocal0, acts[..|acts| - 1], v) && ActOk(nonlocal0, acts[..|acts| - 1], acts[|acts| - 1], v))
  }

  /** What holds after some of the operations. */
  ghost predicate RanTo(t: Table, nonlocal0: Term -> Cond, acts: seq<Act>, res: seq<Term>, added: seq<Cond>, v: Valuation) {
    && Agrees(t, v, ListsOf(acts, v)) && (HoldsAll(added, v) <==> ActsOk(nonlocal0, acts, v))
    && |res| == |ArgsOf(acts, v)| && forall i :: 0 <= i < |res| ==> Eval(res[i], v) == ArgsOf(acts, v)[i]
  }

  ghost predicate Ran(t: Table, nonlocal0: Term -> Cond, acts: seq<Act>, res: seq<Term>, added: seq<Cond>) {
    t.Keys == Mentioned(acts) && forall v :: RanTo(t, nonlocal0, acts, res, added, v)
  }

  lemma NothingRan(t: Table, nonlocal0: Term -> Cond)
    requires t == map[] && forall v :: Agrees(t, v, IncomingAll(v))
    ensures Ran(t, nonlocal0, [], [], [])
  {
  }

  lemma UsableIs(t: Table, nonlocal0: Term -> Cond, before: seq<Act>, p: Term, v: Valuation)
    requires t.Keys == Mentioned(before)
    ensures Known(t, v, Eval(p, v)) || Holds(nonlocal0(p), v) <==> Usable(nonlocal0, before, p, v)
  {
    hide Eval, Mentioned;
    if Known(t, v, Eval(p, v)) {
      var k :| k in t && Eval(k, v) == Eval(p, v);
      assert k in Mentioned(before);
    }
  }

  /** One operation more. */
  lemma RanStep(t: Table, t': Table, nonlocal0: Term -> Cond, acts: seq<Act>, a: Act, res: seq<Term>, res': seq<Term>, added: seq<Cond>, added': seq<Cond>, v: Valuation)
    requires RanTo(t, nonlocal0, acts, res, added, v) && Agrees(t', v, ListsNext(ListsOf(acts, v), a, v))
    requires HoldsAll(added', v) <==> ActOk(nonlocal0, acts, a, v)
    requires if a.ArgAct? then |res'| == 1 && Eval(res'[0], v) == ArgOf(ListsOf(acts, v)(Eval(a.p, v)), Eval(a.p, v), v) else res' == []
    ensures RanTo(t', nonlocal0, acts + [a], res + res', added + added', v)
  {
    var acts' := acts + [a];
    assert acts'[..|acts' | - 1] == acts && acts'[|acts'| - 1] == a;
    HoldsAllAppend(added, added', v);
    RunParts(nonlocal0, acts, a, v);
    hide *;
    RanNow(t, t', nonlocal0, acts, a, res, res', added, added', v);
  }

  lemma RunParts(nonlocal0: Term -> Cond, acts: seq<Act>, a: Act, v: Valuation)
    ensures ListsOf(acts + [a], v) == ListsNext(ListsOf(acts, v), a, v)
    ensures ArgsOf(acts + [a], v) == ArgsOf(acts, v) + if a.ArgAct? then [ArgOf(ListsOf(acts, v)(Eval(a.p, v)), Eval(a.p, v), v)] else []
    ensures ActsOk(nonlocal0, acts + [a], v) <==> ActsOk(nonlocal0, acts, v) && ActOk(nonlocal0, acts, a, v)
  {
    var acts' := acts + [a];
    assert acts'[..|acts'| - 1] == acts && acts'[|acts'| - 1] == a;
  }

  lemma RanNow(t: Table, t': Table, nonlocal0: Term -> Cond, acts: seq<Act>, a: Act, res: seq<Term>, res': seq<Term>, added: seq<Cond>, added': seq<Cond>, v: Valuation)
    requires RanTo(t, nonlocal0, acts, res, added, v) && Agrees(t', v, ListsNext(ListsOf(acts, v), a, v))
    requires HoldsAll(added', v) <==> ActOk(nonlocal0, acts, a, v)
    requires HoldsAll(added + added', v) <==> HoldsAll(added, v) && HoldsAll(added', v)
    requires if a.ArgAct? then |res'| == 1 && Eval(res'[0], v) == ArgOf(ListsOf(acts, v)(Eval(a.p, v)), Eval(a.p, v), v) else res' == []
    requires ListsOf(acts + [a], v) == ListsNext(ListsOf(acts, v), a, v)
    requires ArgsOf(acts + [a], v) == ArgsOf(acts, v) + if a.ArgAct? then [ArgOf(ListsOf(acts, v)(Eval(a.p, v)), Eval(a.p, v), v)] else []
    requires ActsOk(nonlocal0, acts + [a], v) <==> ActsOk(nonlocal0, acts, v) && ActOk(nonlocal0, acts, a, v)
    ensures RanTo(t', nonlocal0, acts + [a], res + res', added + added', v)
  {
    hide ListsOf, ArgsOf, ActsOk, ActOk, ListsNext, Agrees, HoldsAll, Eval, ArgOf;
  }

  /** One operation, on the table. */
  method Perform(s: ArgLists, a: Act, ghost acts: seq<Act>, ghost res: seq<Term>, ghost added: seq<Cond>) returns (res': seq<Term>, added': seq<Cond>)
    requires Compares(s.uge) && Ran(s.data, s.nonlocal0, acts, res, added)
    modifies s
    ensures Ran(s.data, s.nonlocal0, acts + [a], res + res', added + added')
  {
    ghost var t, v0 := s.data, s.nonlocal0;
    res', added' := [], [];
    match a {
      case StartAct(p) => s.VaStart(p);
      case EndAct(p) => added' := s.VaEnd(p);
      case CopyAct(dst, src) => added' := s.VaCopy(dst, src);
      case ArgAct(p) =>
        var r;
        r, added' := s.VaArg(p);
        res' := [r];
    }
    ghost var r1, a1 := res', added';
    hide ListsOf, ArgsOf, ActsOk, Agrees, Known, HoldsAll, Eval, ArgOf, Mentioned, AtLeast, Compares, RanTo;
    forall v
      ensures RanTo(s.data, v0, acts + [a], res + r1, added + a1, v)
    {
      RanAgrees(t, v0, acts, res, added, v);
      if !a.StartAct? {
        UsableIs(t, v0, acts, if a.CopyAct? then a.src else a.p, v);
      } else {
        NoCondition(v);
      }
      RanStep(t, s.data, v0, acts, a, res, r1, added, a1, v);
    }
    RunKeys(acts, a);
  }

  lemma RunKeys(acts: seq<Act>, a: Act)
    ensures Mentioned(acts + [a]) == Mentioned(acts) + Pointers(a)
  {
    var acts' := acts + [a];
    assert acts'[..|acts'| - 1] == acts && acts'[|acts'| - 1] == a;
  }

  lemma NoCondition(v: Valuation)
    ensures HoldsAll([], v)
  {
  }

  lemma RanAgrees(t: Table, nonlocal0: Term -> Cond, acts: seq<Act>, res: seq<Term>, added: seq<Cond>, v: Valuation)
    requires Ran(t, nonlocal0, acts, res, added)
    ensures RanTo(t, nonlocal0, acts, res, added, v) && Agrees(t, v, ListsOf(acts, v)) && t.Keys == Mentioned(acts)
  {
    hide Agrees, ListsOf;
    assert RanTo(t, nonlocal0, acts, res, added, v);
  }

  /** Every sequence of operations, from the start of the function: the table stands for the
      lists, the results are their arguments, and the conditions say that all operations
      are well-defined. */
  method Execute(nonlocal0: Term -> Cond, uge: (Term, Term) -> Cond, acts: seq<Act>) returns (s: ArgLists, res: seq<Term>, added: seq<Cond>)
    requires Compares(uge)
    ensures Ran(s.data, nonlocal0, acts, res, added)
  {
    s := new ArgLists(nonlocal0, uge);
    res, added := [], [];
    NothingRan(s.data, nonlocal0);
    hide *;
    var i: nat := 0;
    assert acts[..0] == [];
    while i < |acts|
      invariant i <= |acts| && fresh(s) && s.nonlocal0 == nonlocal0 && s.uge == uge && Ran(s.data, nonlocal0, acts[..i], res, added)
    {
      var res', added' := Perform(s, acts[i], acts[..i], res, added);
      assert acts[..i] + [acts[i]] == acts[..i + 1];
      res, added, i := res + res', added + added', i + 1;
    }
    assert acts[..i] == acts;
  }

  // ----- which lists are alive -------------------------------------------------

  /** The operation starts or ends the list at this address, or copies to it. */
  ghost predicate Decides(act: Act, a: Bits, v: Valuation) {
    match act
    case StartAct(p) => Eval(p, v) == a
    case EndAct(p) => Eval(p, v) == a
    case CopyAct(dst, _) => Eval(dst, v) == a
    case ArgAct(_) => false
  }

  /** None of the operations from `k` on decides. */
  ghost predicate Undecided(acts: seq<Act>, k: nat, a: Bits, v: Valuation) {
    forall j :: k <= j < |acts| ==> !Decides(acts[j], a, v)
  }

  lemma AliveAfter(lists: Lists, act: Act, a: Bits, v: Valuation)
    ensures ListsNext(lists, act, v)(a).alive <==> if Decides(act, a, v) then !act.EndAct? else lists(a).alive
  {
  }

  /** The last operation that decides says whether a list is alive; without one, it is alive
      if it was when the function was entered. */
  lemma {:induction false} AliveIff(acts: seq<Act>, a: Bits, v: Valuation)
    ensures Undecided(acts, 0, a, v) ==> (ListsOf(acts, v)(a).alive <==> IncomingAll(v)(a).alive)
    ensures forall k: nat :: k < |acts| && Decides(acts[k], a, v) && Undecided(acts, k + 1, a, v) ==>
      (ListsOf(acts, v)(a).alive <==> !acts[k].EndAct?)
    decreases |acts|
  {
    if acts != [] {
      var before, last := acts[..|acts| - 1], acts[|acts| - 1];
      AliveIff(before, a, v);
      assert before + [last] == acts;
      RunParts(_ => True, before, last, v);
      AliveAfter(ListsOf(before, v), last, a, v);
      hide ListsOf, ListsNext, Decides;
      forall k: nat | k < |acts| && Undecided(acts, k, a, v)
        ensures k < |before| ==> Undecided(before, k, a, v)
      {
        assert forall j :: 0 <= j < |before| ==> before[j] == acts[j];
      }
      assert Undecided(acts, 0, a, v) ==> Undecided(before, 0, a, v) && !Decides(last, a, v) by {
        assert forall j :: 0 <= j < |before| ==> before[j] == acts[j];
      }
      forall k: nat | k < |acts| && Decides(acts[k], a, v) && Undecided(acts, k + 1, a, v)
        ensures ListsOf(acts, v)(a).alive <==> !acts[k].EndAct?
      {
        if k < |before| {
          assert before[k] == acts[k];
          assert forall j :: 0 <= j < |before| ==> before[j] == acts[j];
          assert Undecided(before, k + 1, a, v);
        }
      }
    }
  }

  /** A list that was ended, and neither started nor copied to since, may not be used. */
  lemma UseAfterEnd(nonlocal0: Term -> Cond, acts: seq<Act>, k: nat, use: Act, v: Valuation)
    requires k < |acts| && acts[k].EndAct? && !use.StartAct?
    requires var a := Eval(if use.CopyAct? then use.src else use.p, v); Eval(acts[k].p, v) == a && Undecided(acts, k + 1, a, v)
    ensures !ActsOk(nonlocal0, acts + [use], v)
  {
    var a := Eval(if use.CopyAct? then use.src else use.p, v);
    AliveIff(acts, a, v);
    RunParts(nonlocal0, acts, use, v);
    hide ListsOf, ActsOk, Undecided;
  }

  // ----- how many arguments ----------------------------------------------------

  /** A list is started and asked for `n` arguments. */
  function Uses(p: Term, n: nat): (acts: seq<Act>)
    ensures acts != []
  {
    if n == 0 then [StartAct(p)] else Uses(p, n - 1) + [ArgAct(p)]
  }

  lemma {:induction false} UsesMention(p: Term, n: nat)
    ensures p in Mentioned(Uses(p, n))
    decreases n
  {
    if n == 0 {
      assert [StartAct(p)][..0] == [];
    } else {
      UsesMention(p, n - 1);
      RunKeys(Uses(p, n - 1), ArgAct(p));
    }
  }

  /** A list that was started and has given `n` arguments. */
  ghost predicate Counts(l: List, n: nat, v: Valuation) {
    l.alive && l.isStart && l.num == Eval(NUM_ARGS, v) && |l.next| == 8 && Value(l.next) == n % 256
  }

  lemma UsesFirst(nonlocal0: Term -> Cond, p: Term, v: Valuation)
    ensures ListsOf(Uses(p, 0), v) == ListsNext(IncomingAll(v), StartAct(p), v) && ActsOk(nonlocal0, Uses(p, 0), v)
  {
    assert [] + [StartAct(p)] == [StartAct(p)];
    RunParts(nonlocal0, [], StartAct(p), v);
  }

  lemma UsesNext(nonlocal0: Term -> Cond, p: Term, n: nat, v: Valuation)
    requires n > 0
    ensures ListsOf(Uses(p, n), v) == ListsNext(ListsOf(Uses(p, n - 1), v), ArgAct(p), v)
    ensures ActsOk(nonlocal0, Uses(p, n), v) <==> ActsOk(nonlocal0, Uses(p, n - 1), v) && ActOk(nonlocal0, Uses(p, n - 1), ArgAct(p), v)
  {
    RunParts(nonlocal0, Uses(p, n - 1), ArgAct(p), v);
    hide ListsOf, ActsOk, ActOk, ListsNext;
  }

  lemma CountsStart(lists: Lists, p: Term, v: Valuation)
    ensures Counts(ListsNext(lists, StartAct(p), v)(Eval(p, v)), 0, v)
  {
    ValueOfZeros(Repeat8(false));
    hide Value, Eval;
  }

  lemma CountsNext(lists: Lists, p: Term, n: nat, v: Valuation)
    requires AddsBytes(v) && n > 0 && Counts(lists(Eval(p, v)), n - 1, v)
    ensures Counts(ListsNext(lists, ArgAct(p), v)(Eval(p, v)), n, v)
  {
    OneMeans(v);
    NextCount(n);
    hide Value, Eval, Wrap8;
    var l := lists(Eval(p, v));
    AddsAt(v, l.next, Eval(ONE, v));
    hide AddsBytes;
  }

  lemma NextCount(n: nat)
    requires n > 0
    ensures Wrap8((n - 1) % 256 + 1) == n % 256
  {
  }

  lemma AddsAt(v: Valuation, x: Bits, y: Bits)
    requires AddsBytes(v) && |x| == |y| == 8
    ensures |v.plus(x, y)| == 8 && Value(v.plus(x, y)) == Wrap8(Value(x) + Value(y))
  {
    hide Value, Wrap8;
  }

  /** The counter of the list goes up to 255 and starts again. */
  lemma {:induction false} CounterIs(p: Term, n: nat, v: Valuation)
    requires AddsBytes(v)
    ensures Counts(ListsOf(Uses(p, n), v)(Eval(p, v)), n, v)
    decreases n
  {
    hide *;
    if n == 0 {
      UsesFirst(_ => True, p, v);
      CountsStart(IncomingAll(v), p, v);
    } else {
      CounterIs(p, n - 1, v);
      UsesNext(_ => True, p, n, v);
      CountsNext(ListsOf(Uses(p, n - 1), v), p, n, v);
    }
  }

  lemma OneMore(nonlocal0: Term -> Cond, before: seq<Act>, p: Term, n: nat, v: Valuation)
    requires AddsBytes(v) && |Eval(NUM_ARGS, v)| == 8 && p in Mentioned(before) && Counts(ListsOf(before, v)(Eval(p, v)), n, v)
    ensures Value(Eval(NUM_ARGS, v)) < 256
    ensures ActOk(nonlocal0, before, ArgAct(p), v) <==> n % 256 < Value(Eval(NUM_ARGS, v)) || n % 256 == 255
  {
    hide ListsOf, Value, Eval, Mentioned, AtLeast;
    ByteBound(Eval(NUM_ARGS, v));
    ArgumentCheckIff(v, ListsOf(before, v)(Eval(p, v)).next, Eval(NUM_ARGS, v));
    assert Usable(nonlocal0, before, p, v);
  }

  /** A list of fewer than 255 arguments gives as many as there are, and no more; one of
      255 arguments never runs out. */
  lemma {:induction false} UsesOkIff(nonlocal0: Term -> Cond, p: Term, n: nat, v: Valuation)
    requires AddsBytes(v) && |Eval(NUM_ARGS, v)| == 8
    ensures ActsOk(nonlocal0, Uses(p, n), v) <==> n <= Value(Eval(NUM_ARGS, v)) || Value(Eval(NUM_ARGS, v)) == 255
    decreases n
  {
    hide *;
    if n == 0 {
      UsesFirst(nonlocal0, p, v);
    } else {
      UsesOkIff(nonlocal0, p, n - 1, v);
      CounterIs(p, n - 1, v);
      UsesMention(p, n - 1);
      UsesNext(nonlocal0, p, n, v);
      OneMore(nonlocal0, Uses(p, n - 1), p, n - 1, v);
    }
  }

  // ----- which arguments --------------------------------------------------------

  function Reads(p: Term, n: nat): (acts: seq<Act>) {
    if n == 0 then [] else Reads(p, n - 1) + [ArgAct(p)]
  }

  /** Argument `i`, of this function or of the caller's list at this address. */
  ghost predicate IsArgument(b: Bits, started: bool, a: Bits, i: nat, v: Valuation) {
    exists x :: |x| == 8 && Value(x) == i % 256 && b == if started then v.fn(ARG_FN, x, x) else v.fn(ARG_IN_FN, a, x)
  }

  /** The list has given `n` arguments more than before, and is otherwise the same. */
  ghost predicate Moved(l: List, l0: List, n: nat) {
    l == l0.(next := l.next) && |l.next| == 8 && Value(l.next) == n % 256
  }

  lemma MovedOne(l: List, l0: List, a: Bits, n: nat, v: Valuation)
    requires AddsBytes(v) && Moved(l, l0, n)
    ensures Moved(ChangedList(Advance(NUM_ARGS), l, v), l0, n + 1)
    ensures IsArgument(ArgOf(l, a, v), l0.isStart, a, n, v)
  {
    OneMeans(v);
    NextCount(n + 1);
    hide Value, Eval, Wrap8;
    AddsAt(v, l.next, Eval(ONE, v));
    hide AddsBytes;
  }

  /** From position `k` on, the arguments of one list, in order, from the first. */
  ghost predicate GivesFrom(got: seq<Bits>, k: nat, n: nat, started: bool, a: Bits, v: Valuation) {
    |got| == k + n && forall j: nat :: k <= j < k + n ==> IsArgument(got[j], started, a, j - k, v)
  }

  lemma GivesNext(got: seq<Bits>, k: nat, n: nat, started: bool, a: Bits, b: Bits, v: Valuation)
    requires GivesFrom(got, k, n, started, a, v) && IsArgument(b, started, a, n, v)
    ensures GivesFrom(got + [b], k, n + 1, started, a, v)
  {
    hide IsArgument;
  }

  lemma GivesNothing(got: seq<Bits>, started: bool, a: Bits, v: Valuation)
    ensures GivesFrom(got, |got|, 0, started, a, v)
  {
  }

  /** A list whose counter is zero gives its arguments in order, from the first. */
  lemma {:induction false} ReadsGive(acts: seq<Act>, p: Term, n: nat, a: Bits, l0: List, v: Valuation)
    requires AddsBytes(v) && a == Eval(p, v) && l0 == ListsOf(acts, v)(a) && Moved(l0, l0, 0)
    ensures Moved(ListsOf(acts + Reads(p, n), v)(a), l0, n)
    ensures GivesFrom(ArgsOf(acts + Reads(p, n), v), |ArgsOf(acts, v)|, n, l0.isStart, a, v)
    decreases n
  {
    hide *;
    if n == 0 {
      ReadsStart(acts, p);
      GivesNothing(ArgsOf(acts, v), l0.isStart, a, v);
    } else {
      ReadsGive(acts, p, n - 1, a, l0, v);
      ReadsNext(acts, p, n);
      var before := acts + Reads(p, n - 1);
      RunParts(_ => True, before, ArgAct(p), v);
      AdvanceAt(ListsOf(before, v), p, v);
      MovedOne(ListsOf(before, v)(a), l0, a, n - 1, v);
      GivesNext(ArgsOf(before, v), |ArgsOf(acts, v)|, n - 1, l0.isStart, a, ArgOf(ListsOf(before, v)(a), a, v), v);
    }
  }

  lemma ReadsStart(acts: seq<Act>, p: Term)
    ensures Reads(p, 0) == [] && acts + Reads(p, 0) == acts
  {
  }

  lemma ReadsNext(acts: seq<Act>, p: Term, n: nat)
    requires n > 0
    ensures acts + Reads(p, n) == acts + Reads(p, n - 1) + [ArgAct(p)] && Reads(p, n) == Reads(p, n - 1) + [ArgAct(p)]
  {
  }

  lemma AdvanceAt(lists: Lists, p: Term, v: Valuation)
    ensures ListsNext(lists, ArgAct(p), v)(Eval(p, v)) == ChangedList(Advance(NUM_ARGS), lists(Eval(p, v)), v)
  {
    hide Eval;
  }

  /** A list that was started gives this function's arguments, in order. */
  lemma StartedArguments(p: Term, n: nat, v: Valuation)
    requires AddsBytes(v)
    ensures GivesFrom(ArgsOf([StartAct(p)] + Reads(p, n), v), 0, n, true, Eval(p, v), v)
  {
    hide *;
    JustStarted(p, v);
    ReadsGive([StartAct(p)], p, n, Eval(p, v), ListsOf([StartAct(p)], v)(Eval(p, v)), v);
  }

  lemma JustStarted(p: Term, v: Valuation)
    ensures var l := ListsOf([StartAct(p)], v)(Eval(p, v)); Moved(l, l, 0) && l.isStart
    ensures ArgsOf([StartAct(p)], v) == []
  {
    assert [] + [StartAct(p)] == [StartAct(p)];
    RunParts(_ => True, [], StartAct(p), v);
    CountsStart(IncomingAll(v), p, v);
    assert ArgsOf([], v) == [] && ListsOf([], v) == IncomingAll(v);
    hide Eval, ListsNext, ListsOf, ArgsOf, Value;
  }

  /** A list of the caller gives the arguments of that list, in order; its uses are
      well-defined exactly if it is not local, alive, and has as many arguments. */
  lemma CallerArguments(nonlocal0: Term -> Cond, p: Term, n: nat, v: Valuation)
    requires AddsBytes(v) && |v.fn(NUM_FN, Eval(p, v), Eval(p, v))| == 8
    ensures GivesFrom(ArgsOf(Reads(p, n), v), 0, n, false, Eval(p, v), v)
    ensures ActsOk(nonlocal0, Reads(p, n), v) <==> CallerHas(nonlocal0, p, n, v)
  {
    hide *;
    var a := Eval(p, v);
    NothingYet(a, v);
    ReadsGive([], p, n, a, Incoming(a, v), v);
    CallerOk(nonlocal0, p, n, v);
    NothingBefore(p, n);
  }

  /** The caller's list is alive, not local, and has `n` arguments, as far as the counter can
      tell. */
  ghost predicate CallerHas(nonlocal0: Term -> Cond, p: Term, n: nat, v: Valuation) {
    var a := Eval(p, v);
    var count := Value(v.fn(NUM_FN, a, a));
    n == 0 || (Holds(nonlocal0(p), v) && !ZeroBits(v.fn(ALIVE_FN, a, a)) && (n <= count || count == 255))
  }

  lemma NothingYet(a: Bits, v: Valuation)
    ensures ListsOf([], v)(a) == Incoming(a, v) && Moved(Incoming(a, v), Incoming(a, v), 0) && !Incoming(a, v).isStart && ArgsOf([], v) == []
  {
    ValueOfZeros(Repeat8(false));
    hide Value;
  }

  lemma NothingBefore(p: Term, n: nat)
    ensures [] + Reads(p, n) == Reads(p, n)
  {
  }

  lemma {:induction false} CallerOk(nonlocal0: Term -> Cond, p: Term, n: nat, v: Valuation)
    requires AddsBytes(v) && |v.fn(NUM_FN, Eval(p, v), Eval(p, v))| == 8
    ensures ActsOk(nonlocal0, Reads(p, n), v) <==> CallerHas(nonlocal0, p, n, v)
    decreases n
  {
    hide *;
    ReadsStart([], p);
    if n == 0 {
      NoActs(nonlocal0, p, v);
    } else {
      var a, before := Eval(p, v), Reads(p, n - 1);
      CallerOk(nonlocal0, p, n - 1, v);
      NothingYet(a, v);
      ReadsGive([], p, n - 1, a, Incoming(a, v), v);
      NothingBefore(p, n - 1);
      ReadsNext([], p, n);
      RunParts(nonlocal0, before, ArgAct(p), v);
      CallerMentioned(p, n - 1, v);
      NextOk(nonlocal0, before, p, n, v);
    }
  }

  lemma NoActs(nonlocal0: Term -> Cond, p: Term, v: Valuation)
    ensures ActsOk(nonlocal0, [], v) && CallerHas(nonlocal0, p, 0, v)
  {
    hide Value, Eval;
  }

  lemma NextOk(nonlocal0: Term -> Cond, before: seq<Act>, p: Term, n: nat, v: Valuation)
    requires AddsBytes(v) && |v.fn(NUM_FN, Eval(p, v), Eval(p, v))| == 8 && n > 0
    requires Moved(ListsOf(before, v)(Eval(p, v)), Incoming(Eval(p, v), v), n - 1)
    requires MentionedAt(before, p, v) <==> n > 1
    ensures CallerHas(nonlocal0, p, n - 1, v) && ActOk(nonlocal0, before, ArgAct(p), v) <==> CallerHas(nonlocal0, p, n, v)
  {
    var a := Eval(p, v);
    var l, num := ListsOf(before, v)(a), v.fn(NUM_FN, a, a);
    hide *;
    CallerList(l, a, n - 1, v);
    ArgumentCheckIff(v, l.next, num);
    ByteBound(num);
    CountStep(n, Value(num));
    ActIs(nonlocal0, before, p, l, v);
    HasIs(nonlocal0, p, n, v);
    HasIs(nonlocal0, p, n - 1, v);
    UsableIff(nonlocal0, before, p, n, v);
  }

  lemma CallerList(l: List, a: Bits, n: nat, v: Valuation)
    requires Moved(l, Incoming(a, v), n)
    ensures |l.next| == 8 && Value(l.next) == n % 256 && l.num == v.fn(NUM_FN, a, a) && l.alive == !ZeroBits(v.fn(ALIVE_FN, a, a))
  {
    hide Value;
  }

  lemma ActIs(nonlocal0: Term -> Cond, before: seq<Act>, p: Term, l: List, v: Valuation)
    requires l == ListsOf(before, v)(Eval(p, v))
    ensures ActOk(nonlocal0, before, ArgAct(p), v) <==> Usable(nonlocal0, before, p, v) && l.alive && AtLeast(l.num, v.plus(l.next, Eval(ONE, v)))
  {
    hide Usable, ListsOf, Eval, AtLeast;
  }

  lemma HasIs(nonlocal0: Term -> Cond, p: Term, n: nat, v: Valuation)
    ensures var a := Eval(p, v); var count := Value(v.fn(NUM_FN, a, a));
      CallerHas(nonlocal0, p, n, v) <==> n == 0 || (Holds(nonlocal0(p), v) && !ZeroBits(v.fn(ALIVE_FN, a, a)) && (n <= count || count == 255))
  {
    hide Value, Eval, Holds, ZeroBits;
  }

  lemma UsableIff(nonlocal0: Term -> Cond, before: seq<Act>, p: Term, n: nat, v: Valuation)
    requires MentionedAt(before, p, v) <==> n > 1
    ensures Usable(nonlocal0, before, p, v) <==> n > 1 || Holds(nonlocal0(p), v)
  {
    hide MentionedAt, Holds;
  }

  /** The eight-bit check at one argument more. */
  lemma CountStep(n: nat, count: nat)
    requires n > 0 && count < 256
    ensures (n - 1 == 0 || n - 1 <= count || count == 255) && ((n - 1) % 256 < count || (n - 1) % 256 == 255) <==> n <= count || count == 255
  {
  }

  lemma {:induction false} CallerMentioned(p: Term, n: nat, v: Valuation)
    ensures MentionedAt(Reads(p, n), p, v) <==> n > 0
    decreases n
  {
    if n > 0 {
      RunKeys(Reads(p, n - 1), ArgAct(p));
      assert p in Mentioned(Reads(p, n));
    } else {
      assert Reads(p, 0) == [] && Mentioned([]) == {};
    }
  }
}
