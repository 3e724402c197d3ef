/** The table of variadic argument lists under aliasing pointers: `VaStart`, `VaEnd`,
    `VaCopy` and `VaArg` (ir/instr.cpp). */
module VarArgs {
  import opened Terms
  import opened Guarded
  import opened Factor
  import opened SymExec
  import opened Binary

  /** Several entries may stand for one address; only an active one counts. */
  datatype Entry = Entry(alive: Cond, next: Term, num: Term, isStart: Cond, active: Cond)

  /** Pointer term -> entry. */
  type Table = map<Term, Entry>

  /** What is known of one argument list. */
  datatype List = List(alive: bool, next: Bits, num: Bits, isStart: bool)

  type Lists = Bits -> List

  /** The functions of pointers that describe lists passed in by the caller. */
  const ALIVE_FN: nat := 0
  const NUM_FN: nat := 1
  const ARG_FN: nat := 2
  const ARG_IN_FN: nat := 3

  const ZERO := Lit(Repeat8(false))
  const NUM_ARGS := Leaf(0)
  const ONE := Lit(Repeat8(false)[..7] + [true])

  function Repeat8(b: bool): (r: Bits)
    ensures |r| == 8
  {
    [b, b, b, b, b, b, b, b]
  }

  /** A list that this function has not seen before. */
  function Incoming(a: Bits, v: Valuation): List {
    List(!ZeroBits(v.fn(ALIVE_FN, a, a)), Repeat8(false), v.fn(NUM_FN, a, a), false)
  }

  function IncomingAll(v: Valuation): Lists {
    a => Incoming(a, v)
  }

  function ListOf(e: Entry, v: Valuation): List {
    List(Holds(e.alive, v), Eval(e.next, v), Eval(e.num, v), Holds(e.isStart, v))
  }

  // ----- agreement -----------------------------------------------------------

  ghost predicate ActiveAt(t: Table, v: Valuation, k: Term, a: Bits) {
    k in t && Eval(k, v) == a && Holds(t[k].active, v)
  }

  ghost predicate Known(t: Table, v: Valuation, a: Bits) {
    exists k :: k in t && Eval(k, v) == a
  }

  ghost predicate SomeActive(t: Table, v: Valuation, a: Bits) {
    exists k :: ActiveAt(t, v, k, a)
  }

  ghost predicate AllKnownActive(t: Table, v: Valuation) {
    forall k :: k in t ==> SomeActive(t, v, Eval(k, v))
  }

  ghost predicate OneActive(t: Table, v: Valuation) {
    forall k, k', a :: ActiveAt(t, v, k, a) && ActiveAt(t, v, k', a) ==> k == k'
  }

  ghost predicate ActiveHolds(t: Table, v: Valuation, lists: Lists) {
    forall k, a :: ActiveAt(t, v, k, a) ==> ListOf(t[k], v) == lists(a)
  }

  ghost predicate OthersIncoming(t: Table, v: Valuation, lists: Lists) {
    forall a :: !Known(t, v, a) ==> lists(a) == Incoming(a, v)
  }

  /** Every known address has exactly one active entry, which holds its list; unknown
      addresses have the lists of the caller. */
  ghost predicate Agrees(t: Table, v: Valuation, lists: Lists) {
    AllKnownActive(t, v) && OneActive(t, v) && ActiveHolds(t, v, lists) && OthersIncoming(t, v, lists)
  }

  function With(lists: Lists, a: Bits, l: List): Lists {
    x => if x == a then l else lists(x)
  }

  // ----- updating all entries ------------------------------------------------

  /** How an operation changes the entry of one pointer. */
  datatype Change = Start(p: Term) | End(p: Term) | Kill(p: Term) | Advance(p: Term)

  function Changed(c: Change, k: Term, e: Entry): Entry {
    var eq := Equal(k, c.p);
    match c
    case Start(_) => Entry(MkOr(e.alive, eq), MkIf(eq, ZERO, e.next), MkIf(eq, NUM_ARGS, e.num), MkIfC(eq, True, e.isStart), e.active)
    case End(_) => e.(alive := MkAnd(e.alive, MkNot(eq)))
    case Kill(_) => e.(active := MkAnd(e.active, MkNot(eq)))
    case Advance(_) => e.(next := MkIf(eq, Add(e.next, ONE), e.next))
  }

  function ChangedAll(c: Change, t: Table): (r: Table)
    ensures r.Keys == t.Keys
  {
    map k | k in t :: Changed(c, k, t[k])
  }

  /** What the change does to the list, at its pointer's address. */
  function ChangedList(c: Change, l: List, v: Valuation): List {
    match c
    case Start(_) => List(true, Repeat8(false), Eval(NUM_ARGS, v), true)
    case End(_) => l.(alive := false)
    case Kill(_) => l
    case Advance(_) => l.(next := v.plus(l.next, Eval(ONE, v)))
  }

  lemma ChangedMeans(c: Change, k: Term, e: Entry, v: Valuation)
    ensures ListOf(Changed(c, k, e), v) == if Eval(k, v) == Eval(c.p, v) then ChangedList(c, ListOf(e, v), v) else ListOf(e, v)
    ensures Holds(Changed(c, k, e).active, v) <==> Holds(e.active, v) && !(c.Kill? && Eval(k, v) == Eval(c.p, v))
  {
    var eq := Equal(k, c.p);
    assert Holds(eq, v) <==> Eval(k, v) == Eval(c.p, v);
    assert Eval(ZERO, v) == Repeat8(false);
    assert Eval(Add(e.next, ONE), v) == v.plus(Eval(e.next, v), Eval(ONE, v));
    ConstantsMean(v);
    OrMeans(e.alive, eq, v);
    NotMeans(eq, v);
    AndMeans(e.alive, MkNot(eq), v);
    AndMeans(e.active, MkNot(eq), v);
    IfMeans(eq, ZERO, e.next, v);
    IfMeans(eq, NUM_ARGS, e.num, v);
    IfMeans(eq, Add(e.next, ONE), e.next, v);
    IfCMeans(eq, True, e.isStart, v);
    hide Holds, Eval, MkOr, MkAnd, MkNot, MkIf, MkIfC;
  }

  /** The same keys, and the same active ones. */
  ghost predicate SameActive(t: Table, t': Table, v: Valuation) {
    t'.Keys == t.Keys && forall k, a :: ActiveAt(t', v, k, a) <==> ActiveAt(t, v, k, a)
  }

  lemma SameActiveKeeps(t: Table, t': Table, v: Valuation)
    requires SameActive(t, t', v) && AllKnownActive(t, v) && OneActive(t, v)
    ensures AllKnownActive(t', v) && OneActive(t', v) && forall a :: Known(t', v, a) <==> Known(t, v, a)
  {
    hide ActiveAt, Eval;
    forall k | k in t'
      ensures SomeActive(t', v, Eval(k, v))
    {
      assert k in t && SomeActive(t, v, Eval(k, v));
      var k' :| ActiveAt(t, v, k', Eval(k, v));
      assert ActiveAt(t', v, k', Eval(k, v));
    }
    forall a
      ensures Known(t', v, a) <==> Known(t, v, a)
    {
      if Known(t, v, a) {
        var k :| k in t && Eval(k, v) == a;
        assert k in t';
      }
      if Known(t', v, a) {
        var k :| k in t' && Eval(k, v) == a;
        assert k in t;
      }
    }
  }

  lemma ChangeSameActive(c: Change, t: Table, v: Valuation)
    requires !c.Kill?
    ensures SameActive(t, ChangedAll(c, t), v)
  {
    forall k, a
      ensures ActiveAt(ChangedAll(c, t), v, k, a) <==> ActiveAt(t, v, k, a)
    {
      if k in t {
        ChangedMeans(c, k, t[k], v);
      }
    }
    hide ActiveAt;
  }

  /** Changing the entries of a pointer to an unknown address changes nothing. */
  lemma ChangeUnknown(c: Change, t: Table, v: Valuation, lists: Lists)
    requires Agrees(t, v, lists) && !c.Kill? && !Known(t, v, Eval(c.p, v))
    ensures Agrees(ChangedAll(c, t), v, lists)
  {
    hide *;
    AgreesParts(t, v, lists);
    ChangeSameActive(c, t, v);
    SameActiveKeeps(t, ChangedAll(c, t), v);
    UnknownHolds(c, t, v, lists);
    UnknownOthers(t, ChangedAll(c, t), v, lists);
    AgreesFrom(ChangedAll(c, t), v, lists);
  }

  lemma UnknownHolds(c: Change, t: Table, v: Valuation, lists: Lists)
    requires ActiveHolds(t, v, lists) && !c.Kill? && !Known(t, v, Eval(c.p, v)) && SameActive(t, ChangedAll(c, t), v)
    ensures ActiveHolds(ChangedAll(c, t), v, lists)
  {
    NewIsAlone(t, v);
    hide ChangedAll, ListOf, ChangedList, Eval, Known;
    forall k, a | ActiveAt(ChangedAll(c, t), v, k, a)
      ensures ListOf(ChangedAll(c, t)[k], v) == lists(a)
    {
      ChangedListAt(c, t, v, lists, k, a);
      assert ActiveAt(t, v, k, a);
    }
  }

  lemma UnknownOthers(t: Table, t': Table, v: Valuation, lists: Lists)
    requires OthersIncoming(t, v, lists) && forall a :: Known(t', v, a) <==> Known(t, v, a)
    ensures OthersIncoming(t', v, lists)
  {
    hide Known, Incoming;
  }

  /** Changing all entries of a pointer changes the list at its address, and no other. */
  lemma ChangeAgrees(c: Change, t: Table, v: Valuation, lists: Lists)
    requires Agrees(t, v, lists) && !c.Kill? && Known(t, v, Eval(c.p, v))
    ensures Agrees(ChangedAll(c, t), v, With(lists, Eval(c.p, v), ChangedList(c, lists(Eval(c.p, v)), v)))
  {
    var t', a0 := ChangedAll(c, t), Eval(c.p, v);
    var lists' := With(lists, a0, ChangedList(c, lists(a0), v));
    ChangeSameActive(c, t, v);
    SameActiveKeeps(t, t', v);
    hide AllKnownActive, OneActive, SameActive;
    forall k, a | ActiveAt(t', v, k, a)
      ensures ListOf(t'[k], v) == lists'(a)
    {
      ChangedListAt(c, t, v, lists, k, a);
    }
    hide ActiveAt, ChangedAll, ListOf, Incoming, ChangedList, Eval;
    assert OthersIncoming(t', v, lists') by { hide Known; }
  }

  lemma ChangedListAt(c: Change, t: Table, v: Valuation, lists: Lists, k: Term, a: Bits)
    requires ActiveHolds(t, v, lists) && !c.Kill? && ActiveAt(ChangedAll(c, t), v, k, a)
    ensures ListOf(ChangedAll(c, t)[k], v) == if a == Eval(c.p, v) then ChangedList(c, lists(a), v) else lists(a)
  {
    ChangedMeans(c, k, t[k], v);
    hide Holds, Changed, ListOf, ChangedList;
    assert ActiveAt(t, v, k, a);
  }

  /** The lists after a pointer has got an entry of its own: a new address gets its list. */
  ghost predicate ListsAfter(t: Table, v: Valuation, p: Term, e: Entry, lists: Lists, lists': Lists) {
    && (forall a :: a != Eval(p, v) || Known(t, v, a) ==> lists'(a) == lists(a))
    && (!Known(t, v, Eval(p, v)) ==> ListOf(e, v) == lists'(Eval(p, v)))
  }

  /** A pointer gets an entry of its own, active if no known address matches it. */
  lemma InsertAgrees(t: Table, v: Valuation, lists: Lists, lists': Lists, p: Term, e: Entry)
    requires Agrees(t, v, lists) && p !in t && (Holds(e.active, v) <==> !Known(t, v, Eval(p, v)))
    requires ListsAfter(t, v, p, e, lists, lists')
    ensures Agrees(t[p := e], v, lists')
  {
    hide *;
    AgreesParts(t, v, lists);
    InsertAllActive(t, v, p, e);
    InsertOne(t, v, p, e);
    InsertHolds(t, v, lists, lists', p, e);
    InsertOthers(t, v, lists, lists', p, e);
    AgreesFrom(t[p := e], v, lists');
  }

  lemma AgreesParts(t: Table, v: Valuation, lists: Lists)
    requires Agrees(t, v, lists)
    ensures AllKnownActive(t, v) && OneActive(t, v) && ActiveHolds(t, v, lists) && OthersIncoming(t, v, lists)
  {
  }

  lemma AgreesFrom(t: Table, v: Valuation, lists: Lists)
    requires AllKnownActive(t, v) && OneActive(t, v) && ActiveHolds(t, v, lists) && OthersIncoming(t, v, lists)
    ensures Agrees(t, v, lists)
  {
  }

  lemma InsertAllActive(t: Table, v: Valuation, p: Term, e: Entry)
    requires AllKnownActive(t, v) && p !in t && (Holds(e.active, v) <==> !Known(t, v, Eval(p, v)))
    ensures AllKnownActive(t[p := e], v)
  {
    forall k | k in t[p := e]
      ensures SomeActive(t[p := e], v, Eval(k, v))
    {
      hide Holds, Eval, Known, AllKnownActive;
      InsertSomeActive(t, v, p, e, k);
    }
  }

  lemma InsertOne(t: Table, v: Valuation, p: Term, e: Entry)
    requires OneActive(t, v) && p !in t && (Holds(e.active, v) <==> !Known(t, v, Eval(p, v)))
    ensures OneActive(t[p := e], v)
  {
    InsertActive(t, v, p, e);
    NewIsAlone(t, v);
    var t' := t[p := e];
    hide ActiveAt, Known, Holds, Eval;
    forall k, k', a | ActiveAt(t', v, k, a) && ActiveAt(t', v, k', a)
      ensures k == k'
    {
      assert ActiveAt(t, v, k, a) || k == p;
      assert ActiveAt(t, v, k', a) || k' == p;
      assert ActiveAt(t, v, k, a) ==> Known(t, v, a);
      assert ActiveAt(t, v, k', a) ==> Known(t, v, a);
    }
  }

  lemma InsertHolds(t: Table, v: Valuation, lists: Lists, lists': Lists, p: Term, e: Entry)
    requires ActiveHolds(t, v, lists) && p !in t && (Holds(e.active, v) <==> !Known(t, v, Eval(p, v)))
    requires ListsAfter(t, v, p, e, lists, lists')
    ensures ActiveHolds(t[p := e], v, lists')
  {
    InsertActive(t, v, p, e);
    NewIsAlone(t, v);
    hide Known, Holds, Eval, ListOf;
  }

  lemma InsertOthers(t: Table, v: Valuation, lists: Lists, lists': Lists, p: Term, e: Entry)
    requires OthersIncoming(t, v, lists) && ListsAfter(t, v, p, e, lists, lists')
    ensures OthersIncoming(t[p := e], v, lists')
  {
    InsertKnown(t, v, p, e);
    hide Known, Eval, Incoming, ListOf;
  }

  lemma InsertActive(t: Table, v: Valuation, p: Term, e: Entry)
    requires p !in t && (Holds(e.active, v) <==> !Known(t, v, Eval(p, v)))
    ensures forall k, a :: ActiveAt(t[p := e], v, k, a) <==> ActiveAt(t, v, k, a) || (k == p && a == Eval(p, v) && !Known(t, v, a))
  {
    hide Holds, Eval, Known;
    forall k, a
      ensures ActiveAt(t[p := e], v, k, a) <==> ActiveAt(t, v, k, a) || (k == p && a == Eval(p, v) && !Known(t, v, a))
    {
      if k != p && k in t {
        assert t[p := e][k] == t[k];
      }
    }
  }

  lemma InsertKnown(t: Table, v: Valuation, p: Term, e: Entry)
    ensures forall a :: Known(t[p := e], v, a) <==> Known(t, v, a) || a == Eval(p, v)
  {
    hide Eval;
    var t' := t[p := e];
    forall a
      ensures Known(t', v, a) <==> Known(t, v, a) || a == Eval(p, v)
    {
      if Known(t, v, a) {
        var k :| k in t && Eval(k, v) == a;
        assert k in t';
      }
      if a == Eval(p, v) {
        assert p in t';
      }
      if Known(t', v, a) {
        var k :| k in t' && Eval(k, v) == a;
        assert k == p || k in t;
      }
    }
  }

  lemma InsertSomeActive(t: Table, v: Valuation, p: Term, e: Entry, k: Term)
    requires AllKnownActive(t, v) && p !in t && (Holds(e.active, v) <==> !Known(t, v, Eval(p, v))) && k in t[p := e]
    ensures SomeActive(t[p := e], v, Eval(k, v))
  {
    InsertActive(t, v, p, e);
    hide Holds, Eval, ActiveAt;
    if Known(t, v, Eval(k, v)) {
      var k0 :| k0 in t && Eval(k0, v) == Eval(k, v);
      assert SomeActive(t, v, Eval(k0, v));
      var k' :| ActiveAt(t, v, k', Eval(k, v));
      assert ActiveAt(t[p := e], v, k', Eval(k, v));
    } else {
      assert k == p by {
        assert k in t ==> Known(t, v, Eval(k, v));
      }
      assert ActiveAt(t[p := e], v, p, Eval(k, v));
    }
  }

  /** An active entry is at a known address. */
  lemma NewIsAlone(t: Table, v: Valuation)
    ensures forall k, a :: ActiveAt(t, v, k, a) ==> Known(t, v, a)
  {
    hide Holds, Eval;
  }

  // ----- loops over the table ------------------------------------------------

  /** The table when only the entries of `done` have been changed. */
  function ChangedSome(c: Change, t: Table, done: set<Term>): (r: Table)
    ensures r.Keys == t.Keys
  {
    map k | k in t :: if k in done then Changed(c, k, t[k]) else t[k]
  }

  lemma ChangeOne(c: Change, t: Table, done: set<Term>, k: Term)
    requires k in t && k !in done
    ensures ChangedSome(c, t, done)[k] == t[k]
    ensures ChangedSome(c, t, done)[k := Changed(c, k, t[k])] == ChangedSome(c, t, done + {k})
  {
    hide Changed;
  }

  lemma ChangeStartEnd(c: Change, t: Table)
    ensures ChangedSome(c, t, {}) == t && ChangedSome(c, t, t.Keys) == ChangedAll(c, t)
  {
    hide Changed;
  }

  /** One of the pointers in `done` is at this address. */
  ghost predicate SomeAt(done: set<Term>, v: Valuation, a: Bits) {
    exists k :: k in done && Eval(k, v) == a
  }

  lemma SomeAtStep(done: set<Term>, v: Valuation, a: Bits, k: Term)
    ensures SomeAt(done + {k}, v, a) <==> SomeAt(done, v, a) || Eval(k, v) == a
  {
    hide Eval;
    if Eval(k, v) == a {
      assert k in done + {k};
    }
    if SomeAt(done, v, a) {
      var k' :| k' in done && Eval(k', v) == a;
      assert k' in done + {k};
    }
  }

  lemma MatchStep(done: set<Term>, v: Valuation, matched: Cond, p: Term, k: Term)
    requires Holds(matched, v) <==> SomeAt(done, v, Eval(p, v))
    ensures Holds(MkOr(matched, Equal(k, p)), v) <==> SomeAt(done + {k}, v, Eval(p, v))
  {
    OrMeans(matched, Equal(k, p), v);
    SomeAtStep(done, v, Eval(p, v), k);
    assert Holds(Equal(k, p), v) <==> Eval(k, v) == Eval(p, v);
    hide Holds, Eval, MkOr;
  }

  /** In every world, `matched` says whether one of the pointers in `done` is `p`. */
  ghost predicate MatchedBy(matched: Cond, done: set<Term>, p: Term) {
    forall v :: Holds(matched, v) <==> SomeAt(done, v, Eval(p, v))
  }

  lemma MatchesStart(p: Term)
    ensures MatchedBy(False, {}, p)
  {
    hide Eval;
  }

  lemma MatchesStep(done: set<Term>, matched: Cond, p: Term, k: Term)
    requires MatchedBy(matched, done, p)
    ensures MatchedBy(MkOr(matched, Equal(k, p)), done + {k}, p)
  {
    forall v
      ensures Holds(MkOr(matched, Equal(k, p)), v) <==> SomeAt(done + {k}, v, Eval(p, v))
    {
      MatchStep(done, v, matched, p, k);
    }
  }

  lemma MatchesEnd(t: Table, matched: Cond, p: Term)
    requires MatchedBy(matched, t.Keys, p)
    ensures forall v :: Holds(matched, v) <==> Known(t, v, Eval(p, v))
  {
    hide Holds, Eval, SomeAt, Known;
    forall v
      ensures Holds(matched, v) <==> Known(t, v, Eval(p, v))
    {
      SomeAtAll(t, v, Eval(p, v));
    }
  }

  lemma SomeAtAll(t: Table, v: Valuation, a: Bits)
    ensures SomeAt(t.Keys, v, a) <==> Known(t, v, a)
  {
    hide Eval;
  }

  /** The entry is the one that counts for pointer `p`. */
  function SelectOf(k: Term, e: Entry, p: Term): Cond {
    MkAnd(e.active, Equal(k, p))
  }

  lemma SelectMeans(k: Term, e: Entry, p: Term, v: Valuation)
    ensures Holds(SelectOf(k, e, p), v) <==> Holds(e.active, v) && Eval(k, v) == Eval(p, v)
  {
    AndMeans(e.active, Equal(k, p), v);
    assert Holds(Equal(k, p), v) <==> Eval(k, v) == Eval(p, v);
  }

  /** Conditions added for the entries of `done`: the one that counts satisfies its own. */
  ghost predicate Checked(t: Table, v: Valuation, p: Term, done: set<Term>, ok: (Term, Entry) -> Cond, added: seq<Cond>) {
    HoldsAll(added, v) <==> forall k :: k in done && k in t && ActiveAt(t, v, k, Eval(p, v)) ==> Holds(ok(k, t[k]), v)
  }

  lemma CheckStep(t: Table, v: Valuation, p: Term, done: set<Term>, ok: (Term, Entry) -> Cond, added: seq<Cond>, k: Term)
    requires Checked(t, v, p, done, ok, added) && k in t
    ensures Checked(t, v, p, done + {k}, ok, added + [MkImplies(SelectOf(k, t[k], p), ok(k, t[k]))])
  {
    var c := MkImplies(SelectOf(k, t[k], p), ok(k, t[k]));
    ImpliesMeans(SelectOf(k, t[k], p), ok(k, t[k]), v);
    SelectMeans(k, t[k], p, v);
    PushHoldsAll(added, c, v);
    assert ActiveAt(t, v, k, Eval(p, v)) <==> Holds(SelectOf(k, t[k], p), v);
    hide Holds, HoldsAll, ActiveAt, SelectOf, MkImplies, Eval;
  }

  lemma CheckStart(t: Table, v: Valuation, p: Term, ok: (Term, Entry) -> Cond)
    ensures Checked(t, v, p, {}, ok, [])
  {
  }

  lemma PushHoldsAll(s: seq<Cond>, c: Cond, v: Valuation)
    ensures HoldsAll(s + [c], v) <==> HoldsAll(s, v) && Holds(c, v)
  {
    hide Holds;
    if HoldsAll(s + [c], v) {
      assert forall i :: 0 <= i < |s| ==> (s + [c])[i] == s[i];
      assert (s + [c])[|s|] == c;
    }
  }

  /** All entries have been looked at: the conditions speak about the active entry. */
  lemma CheckEnd(t: Table, v: Valuation, lists: Lists, p: Term, ok: (Term, Entry) -> Cond, added: seq<Cond>) returns (k: Term)
    requires Agrees(t, v, lists) && Known(t, v, Eval(p, v)) && Checked(t, v, p, t.Keys, ok, added)
    ensures ActiveAt(t, v, k, Eval(p, v)) && (HoldsAll(added, v) <==> Holds(ok(k, t[k]), v)) && ListOf(t[k], v) == lists(Eval(p, v))
  {
    k := ActiveEntry(t, v, lists, p);
    hide Holds, HoldsAll, Eval, ListOf;
  }

  lemma ActiveEntry(t: Table, v: Valuation, lists: Lists, p: Term) returns (k: Term)
    requires Agrees(t, v, lists) && Known(t, v, Eval(p, v))
    ensures ActiveAt(t, v, k, Eval(p, v)) && ListOf(t[k], v) == lists(Eval(p, v))
    ensures forall k' :: ActiveAt(t, v, k', Eval(p, v)) ==> k' == k
  {
    hide Holds, Eval, ListOf;
    var k0 :| k0 in t && Eval(k0, v) == Eval(p, v);
    assert SomeActive(t, v, Eval(k0, v));
    k :| ActiveAt(t, v, k, Eval(p, v));
  }

  /** The values collected from the entries of `done`, under their guards. */
  ghost predicate Collected<T(!new)>(t: Table, v: Valuation, p: Term, done: set<Term>, val: (Term, Entry) -> T, d: Disj<T>) {
    && Exclusive(d, v)
    && (Covered(d, v) <==> exists k :: k in done && ActiveAt(t, v, k, Eval(p, v)))
    && forall x :: Selects(d, v, x) ==> exists k :: k in done && ActiveAt(t, v, k, Eval(p, v)) && x == val(k, t[k])
  }

  lemma CollectStart<T(!new)>(t: Table, v: Valuation, p: Term, val: (Term, Entry) -> T)
    ensures Collected(t, v, p, {}, val, [])
  {
    NothingChosen<T>([], v);
  }

  lemma CollectStep<T(!new)>(t: Table, v: Valuation, p: Term, done: set<Term>, val: (Term, Entry) -> T, d: Disj<T>, k: Term)
    requires Collected(t, v, p, done, val, d) && OneActive(t, v) && k in t && k !in done
    ensures Collected(t, v, p, done + {k}, val, AddGuarded(d, val(k, t[k]), SelectOf(k, t[k], p)))
  {
    SelectMeans(k, t[k], p, v);
    assert ActiveAt(t, v, k, Eval(p, v)) <==> Holds(SelectOf(k, t[k], p), v);
    hide Holds, Eval, ActiveAt, SelectOf, Exclusive, Covered, Selects, AddGuarded;
    var a := Eval(p, v);
    forall k' | k' in done && ActiveAt(t, v, k', a)
      ensures !ActiveAt(t, v, k, a)
    {
      assert k' != k;
    }
    AddMeans(d, val(k, t[k]), SelectOf(k, t[k], p), v);
    var d' := AddGuarded(d, val(k, t[k]), SelectOf(k, t[k], p));
    forall x | Selects(d', v, x)
      ensures exists k' :: k' in done + {k} && ActiveAt(t, v, k', a) && x == val(k', t[k'])
    {
      if Selects(d, v, x) {
        var k' :| k' in done && ActiveAt(t, v, k', a) && x == val(k', t[k']);
        assert k' in done + {k};
      } else {
        assert k in done + {k};
      }
    }
    CoveredStep(t, v, a, done, k);
  }

  lemma CoveredStep(t: Table, v: Valuation, a: Bits, done: set<Term>, k: Term)
    ensures (exists k' :: k' in done + {k} && ActiveAt(t, v, k', a)) <==> (exists k' :: k' in done && ActiveAt(t, v, k', a)) || ActiveAt(t, v, k, a)
  {
    hide ActiveAt;
    if ActiveAt(t, v, k, a) {
      assert k in done + {k};
    }
    if k' :| k' in done && ActiveAt(t, v, k', a) {
      assert k' in done + {k};
    }
  }

  /** The collected value is that of the active entry. */
  lemma CollectEnd<T(!new)>(t: Table, v: Valuation, lists: Lists, p: Term, val: (Term, Entry) -> T, d: Disj<T>) returns (k: Term)
    requires Agrees(t, v, lists) && Known(t, v, Eval(p, v)) && Collected(t, v, p, t.Keys, val, d)
    ensures ActiveAt(t, v, k, Eval(p, v)) && ListOf(t[k], v) == lists(Eval(p, v))
    ensures Exclusive(d, v) && Selects(d, v, val(k, t[k]))
  {
    k := ActiveEntry(t, v, lists, p);
    hide Eval, ListOf, Exclusive;
    assert k in t.Keys && ActiveAt(t, v, k, Eval(p, v));
    assert Covered(d, v);
    var i: nat :| Chosen(d, v, i);
    assert Selects(d, v, d[i].0);
  }

  // ----- operations ----------------------------------------------------------

  /** Unsigned comparison of bit-vectors. */
  predicate AtLeast(a: Bits, b: Bits) {
    Value(a) >= Value(b)
  }

  function Value(b: Bits): nat {
    if b == [] then 0 else 2 * Value(b[..|b| - 1]) + if b[|b| - 1] then 1 else 0
  }

  /** `uge` builds the comparison. */
  ghost predicate Compares(uge: (Term, Term) -> Cond) {
    forall x, y, v :: Holds(uge(x, y), v) <==> AtLeast(Eval(x, v), Eval(y, v))
  }

  /** The argument that a list at address `a` gives next. */
  function ArgOf(l: List, a: Bits, v: Valuation): Bits {
    if l.isStart then v.fn(ARG_FN, l.next, l.next) else v.fn(ARG_IN_FN, a, l.next)
  }

  class ArgLists {
    const nonlocal0: Term -> Cond
    const uge: (Term, Term) -> Cond
    var data: Table

    constructor (nonlocal0: Term -> Cond, uge: (Term, Term) -> Cond)
      ensures data == map[] && this.nonlocal0 == nonlocal0 && this.uge == uge
      ensures forall v :: Agrees(data, v, IncomingAll(v))
    {
      this.nonlocal0, this.uge, data := nonlocal0, uge, map[];
    }

    /** Changes all entries in place, and finds out whether one of them matches. */
    method ChangeEntries(c: Change) returns (matched: Cond)
      modifies this
      ensures data == ChangedAll(c, old(data))
      ensures forall v :: Holds(matched, v) <==> Known(old(data), v, Eval(c.p, v))
    {
      hide *;
      ghost var t := data;
      var rest := data.Keys;
      ghost var done: set<Term> := {};
      matched := False;
      ChangeStartEnd(c, t);
      MatchesStart(c.p);
      while rest != {}
        invariant rest !! done && rest + done == t.Keys && data == ChangedSome(c, t, done) && MatchedBy(matched, done, c.p)
        decreases |rest|
      {
        var k :| k in rest;
        ChangeOne(c, t, done, k);
        MatchesStep(done, matched, c.p, k);
        matched := MkOr(matched, Equal(k, c.p));
        data := data[k := Changed(c, k, data[k])];
        rest, done := rest - {k}, done + {k};
      }
      assert done == t.Keys;
      MatchesEnd(t, matched, c.p);
    }

    /** `VaStart::toSMT`. */
    method VaStart(p: Term)
      modifies this
      ensures data.Keys == old(data).Keys + {p}
      ensures forall v, lists :: Agrees(old(data), v, lists) ==>
        Agrees(data, v, With(lists, Eval(p, v), ChangedList(Start(p), lists(Eval(p, v)), v)))
    {
      ghost var t := data;
      var matched := ChangeEntries(Start(p));
      ghost var t' := data;
      var e := Entry(True, ZERO, NUM_ARGS, True, MkNot(matched));
      if p !in data {
        data := data[p := e];
      }
      forall v, lists | Agrees(t, v, lists)
        ensures Agrees(data, v, With(lists, Eval(p, v), ChangedList(Start(p), lists(Eval(p, v)), v)))
      {
        hide Changed, ChangedAll, Agrees;
        Started(t, v, lists, p, matched);
      }
    }

    static lemma Started(t: Table, v: Valuation, lists: Lists, p: Term, matched: Cond)
      requires Agrees(t, v, lists) && (Holds(matched, v) <==> Known(t, v, Eval(p, v)))
      ensures var t' := ChangedAll(Start(p), t);
        var e := Entry(True, ZERO, NUM_ARGS, True, MkNot(matched));
        Agrees(if p in t' then t' else t'[p := e], v, With(lists, Eval(p, v), ChangedList(Start(p), lists(Eval(p, v)), v)))
    {
      var a, c := Eval(p, v), Start(p);
      var t' := ChangedAll(c, t);
      var e := Entry(True, ZERO, NUM_ARGS, True, MkNot(matched));
      var lists' := With(lists, a, ChangedList(c, lists(a), v));
      ConstantsMean(v);
      NotMeans(matched, v);
      StartedEntry(e, v);
      ChangeSameActive(c, t, v);
      KnownSame(t, t', v, a);
      hide Holds, Eval, ListOf, ChangedAll, MkNot, Agrees, Known;
      if Known(t, v, a) {
        ChangeAgrees(c, t, v, lists);
        if p !in t' {
          InsertAgrees(t', v, lists', lists', p, e);
        }
      } else {
        ChangeUnknown(c, t, v, lists);
        if p in t' {
          KeyIsKnown(t', v, p);
        } else {
          InsertAgrees(t', v, lists, lists', p, e);
        }
      }
    }

    static lemma StartedEntry(e: Entry, v: Valuation)
      requires e.alive == True && e.next == ZERO && e.num == NUM_ARGS && e.isStart == True
      ensures forall p, l :: ListOf(e, v) == ChangedList(Start(p), l, v)
    {
    }

    static lemma KeyIsKnown(t: Table, v: Valuation, p: Term)
      requires p in t
      ensures Known(t, v, Eval(p, v))
    {
    }

    static lemma KnownSame(t: Table, t': Table, v: Valuation, a: Bits)
      requires t'.Keys == t.Keys
      ensures Known(t', v, a) <==> Known(t, v, a)
    {
      hide Eval;
      if k :| k in t && Eval(k, v) == a {
        assert k in t';
      }
      if k :| k in t' && Eval(k, v) == a {
        assert k in t;
      }
    }

    /** `ensure_varargs_ptr`: a pointer that matches no entry may belong to a list of the
        caller, if it does not point to local memory. */
    method Ensure(p: Term) returns (added: seq<Cond>)
      modifies this
      ensures data.Keys == old(data).Keys + {p}
      ensures forall v, lists :: Agrees(old(data), v, lists) ==> Agrees(data, v, lists)
      ensures forall v :: Known(data, v, Eval(p, v))
      ensures forall v :: HoldsAll(added, v) <==> Known(old(data), v, Eval(p, v)) || Holds(nonlocal0(p), v)
    {
      ghost var t := data;
      var matched := MatchedOne(p);
      if p in data {
        added := [];
        forall v
          ensures Known(data, v, Eval(p, v)) && HoldsAll(added, v)
        {
          KeyIsKnown(data, v, p);
        }
        return;
      }
      var e := Entry(MkNot(IsZero(App(ALIVE_FN, p, p))), ZERO, App(NUM_FN, p, p), False, MkNot(matched));
      added := [MkOr(matched, nonlocal0(p))];
      data := data[p := e];
      forall v, lists | Agrees(t, v, lists)
        ensures Agrees(data, v, lists)
      {
        hide Agrees;
        Ensured(t, v, lists, p, matched);
      }
      forall v
        ensures Known(data, v, Eval(p, v))
        ensures HoldsAll(added, v) <==> Known(t, v, Eval(p, v)) || Holds(nonlocal0(p), v)
      {
        hide Known, Agrees;
        KeyIsKnown(data, v, p);
        OrMeans(matched, nonlocal0(p), v);
        HoldsOne(added[0], v);
      }
    }

    static lemma Ensured(t: Table, v: Valuation, lists: Lists, p: Term, matched: Cond)
      requires Agrees(t, v, lists) && p !in t && (Holds(matched, v) <==> Known(t, v, Eval(p, v)))
      ensures Agrees(t[p := Entry(MkNot(IsZero(App(ALIVE_FN, p, p))), ZERO, App(NUM_FN, p, p), False, MkNot(matched))], v, lists)
    {
      var e := Entry(MkNot(IsZero(App(ALIVE_FN, p, p))), ZERO, App(NUM_FN, p, p), False, MkNot(matched));
      NotMeans(matched, v);
      NotMeans(IsZero(App(ALIVE_FN, p, p)), v);
      assert ListOf(e, v) == Incoming(Eval(p, v), v);
      assert OthersIncoming(t, v, lists);
      hide Holds, Eval, ListOf, Incoming, Known, Agrees, MkNot;
      InsertAgrees(t, v, lists, lists, p, e);
    }

    /** Whether an entry's pointer equals `p`. */
    method MatchedOne(p: Term) returns (matched: Cond)
      ensures forall v :: Holds(matched, v) <==> Known(data, v, Eval(p, v))
    {
      hide *;
      var rest := data.Keys;
      ghost var done: set<Term> := {};
      matched := False;
      MatchesStart(p);
      while rest != {}
        invariant rest !! done && rest + done == data.Keys && MatchedBy(matched, done, p)
        decreases |rest|
      {
        var k :| k in rest;
        MatchesStep(done, matched, p, k);
        matched := MkOr(matched, Equal(k, p));
        rest, done := rest - {k}, done + {k};
      }
      assert done == data.Keys;
      MatchesEnd(data, matched, p);
    }

    /** Conditions that the active entry has to meet. */
    method CheckActive(p: Term, ok: (Term, Entry) -> Cond) returns (added: seq<Cond>)
      ensures forall v :: Checked(data, v, p, data.Keys, ok, added)
    {
      added := [];
      var rest := data.Keys;
      ghost var done: set<Term> := {};
      forall v
        ensures Checked(data, v, p, done, ok, added)
      {
        CheckStart(data, v, p, ok);
      }
      hide *;
      while rest != {}
        invariant rest !! done && rest + done == data.Keys && forall v :: Checked(data, v, p, done, ok, added)
        decreases |rest|
      {
        var k :| k in rest;
        var added' := added + [MkImplies(SelectOf(k, data[k], p), ok(k, data[k]))];
        ghost var done' := done + {k};
        forall v
          ensures Checked(data, v, p, done', ok, added')
        {
          CheckStep(data, v, p, done, ok, added, k);
        }
        rest, done, added := rest - {k}, done', added';
      }
      assert done == data.Keys;
    }

    /** `VaEnd::toSMT`: well-defined exactly for a list that is alive, which then is not
        any more. */
    method VaEnd(p: Term) returns (added: seq<Cond>)
      modifies this
      ensures data.Keys == old(data).Keys + {p}
      ensures forall v, lists :: Agrees(old(data), v, lists) ==>
        Agrees(data, v, With(lists, Eval(p, v), ChangedList(End(p), lists(Eval(p, v)), v)))
      ensures forall v, lists :: Agrees(old(data), v, lists) ==>
        (HoldsAll(added, v) <==> (Known(old(data), v, Eval(p, v)) || Holds(nonlocal0(p), v)) && lists(Eval(p, v)).alive)
    {
      ghost var t0 := data;
      var added0 := Ensure(p);
      ghost var t := data;
      var ok := (k: Term, e: Entry) => e.alive;
      var added1 := CheckActive(p, ok);
      var matched := ChangeEntries(End(p));
      added := added0 + added1;
      forall v, lists | Agrees(t0, v, lists)
        ensures Agrees(data, v, With(lists, Eval(p, v), ChangedList(End(p), lists(Eval(p, v)), v)))
        ensures HoldsAll(added, v) <==> (Known(t0, v, Eval(p, v)) || Holds(nonlocal0(p), v)) && lists(Eval(p, v)).alive
      {
        hide Agrees, Known, Holds, HoldsAll, Eval, ChangedAll, Checked;
        ChangeAgrees(End(p), t, v, lists);
        var k := CheckEnd(t, v, lists, p, ok, added1);
        HoldsAllAppend(added0, added1, v);
      }
    }

    /** The next argument of a list, at the entry for pointer `k`. */
    static function ArgTerm(k: Term, e: Entry): Term {
      MkIf(e.isStart, App(ARG_FN, e.next, e.next), App(ARG_IN_FN, k, e.next))
    }

    static lemma ArgTermMeans(k: Term, e: Entry, v: Valuation)
      ensures Eval(ArgTerm(k, e), v) == ArgOf(ListOf(e, v), Eval(k, v), v)
    {
      IfMeans(e.isStart, App(ARG_FN, e.next, e.next), App(ARG_IN_FN, k, e.next), v);
      hide MkIf;
    }

    /** The value of the active entry. */
    method Collect<T(!new,==)>(p: Term, val: (Term, Entry) -> T) returns (d: Disj<T>)
      ensures forall v :: OneActive(data, v) ==> Collected(data, v, p, data.Keys, val, d)
    {
      d := [];
      var rest := data.Keys;
      ghost var done: set<Term> := {};
      forall v
        ensures Collected(data, v, p, done, val, d)
      {
        CollectStart(data, v, p, val);
      }
      hide *;
      while rest != {}
        invariant rest !! done && rest + done == data.Keys && forall v :: OneActive(data, v) ==> Collected(data, v, p, done, val, d)
        decreases |rest|
      {
        var k :| k in rest;
        var d' := AddGuarded(d, val(k, data[k]), SelectOf(k, data[k], p));
        ghost var done' := done + {k};
        forall v | OneActive(data, v)
          ensures Collected(data, v, p, done', val, d')
        {
          CollectStep(data, v, p, done, val, d, k);
        }
        rest, done, d := rest - {k}, done', d';
      }
      assert done == data.Keys;
    }

    /** `VaArg::toSMT`: the next argument of the list, which moves on.  Well-defined only
        if the list is alive and, in its own arithmetic, not used up. */
    method VaArg(p: Term) returns (res: Term, added: seq<Cond>)
      requires Compares(uge)
      modifies this
      ensures data.Keys == old(data).Keys + {p}
      ensures forall v, lists :: Agrees(old(data), v, lists) ==>
        var a := Eval(p, v); var l := lists(a);
        && Agrees(data, v, With(lists, a, ChangedList(Advance(p), l, v)))
        && Eval(res, v) == ArgOf(l, a, v)
        && (HoldsAll(added, v) <==>
              (Known(old(data), v, a) || Holds(nonlocal0(p), v)) && l.alive && AtLeast(l.num, v.plus(l.next, Eval(ONE, v))))
    {
      ghost var t0 := data;
      var added0 := Ensure(p);
      ghost var t := data;
      var uge0 := uge;
      var ok := (k: Term, e: Entry) => MkAnd(e.alive, uge0(e.num, Add(e.next, ONE)));
      var added1 := CheckActive(p, ok);
      var d := Collect(p, ArgTerm);
      var matched := ChangeEntries(Advance(p));
      res, added := Pick(d, Lit([])), added0 + added1;
      forall v, lists | Agrees(t0, v, lists)
        ensures var a := Eval(p, v); var l := lists(a);
          && Agrees(data, v, With(lists, a, ChangedList(Advance(p), l, v)))
          && Eval(res, v) == ArgOf(l, a, v)
          && (HoldsAll(added, v) <==>
                (Known(t0, v, a) || Holds(nonlocal0(p), v)) && l.alive && AtLeast(l.num, v.plus(l.next, Eval(ONE, v))))
      {
        assert Agrees(t, v, lists) && Known(t, v, Eval(p, v));
        AgreesParts(t, v, lists);
        var k := CheckEnd(t, v, lists, p, ok, added1);
        ArgCheckMeans(uge0, t[k], v);
        HoldsAllAppend(added0, added1, v);
        ArgAgrees(t, v, lists, p, d);
        hide Agrees, Known, Holds, HoldsAll, Eval, ChangedAll, Checked, Collected, AtLeast, Pick;
        ChangeAgrees(Advance(p), t, v, lists);
      }
    }

    static lemma ArgCheckMeans(uge: (Term, Term) -> Cond, e: Entry, v: Valuation)
      requires Compares(uge)
      ensures Holds(MkAnd(e.alive, uge(e.num, Add(e.next, ONE))), v) <==>
        ListOf(e, v).alive && AtLeast(ListOf(e, v).num, v.plus(ListOf(e, v).next, Eval(ONE, v)))
    {
      AndMeans(e.alive, uge(e.num, Add(e.next, ONE)), v);
      assert Eval(Add(e.next, ONE), v) == v.plus(Eval(e.next, v), Eval(ONE, v));
      hide Eval, MkAnd, AtLeast;
    }

    static lemma ArgAgrees(t: Table, v: Valuation, lists: Lists, p: Term, d: Disj<Term>)
      requires Agrees(t, v, lists) && Known(t, v, Eval(p, v)) && Collected(t, v, p, t.Keys, ArgTerm, d)
      ensures Eval(Pick(d, Lit([])), v) == ArgOf(lists(Eval(p, v)), Eval(p, v), v)
    {
      var k := CollectEnd(t, v, lists, p, ArgTerm, d);
      ArgTermMeans(k, t[k], v);
      hide Agrees, Known, Collected, Pick, ArgTerm, ArgOf, ListOf, Holds;
      PickMeans(d, Lit([]), v, ArgTerm(k, t[k]));
    }

    /** `VaCopy::toSMT`: the destination becomes a live list at the same argument. */
    method VaCopy(dst: Term, src: Term) returns (added: seq<Cond>)
      modifies this
      ensures data.Keys == old(data).Keys + {src, dst}
      ensures forall v, lists :: Agrees(old(data), v, lists) ==>
        var l := lists(Eval(src, v));
        && Agrees(data, v, With(lists, Eval(dst, v), l.(alive := true)))
        && (HoldsAll(added, v) <==> (Known(old(data), v, Eval(src, v)) || Holds(nonlocal0(src), v)) && l.alive)
    {
      ghost var t0 := data;
      var added0 := Ensure(src);
      ghost var t := data;
      var ok := (k: Term, e: Entry) => e.alive;
      var added1 := CheckActive(src, ok);
      var next := Collect(src, NextOf);
      var num := Collect(src, NumOf);
      var isStart := Collect(src, IsStartOf);
      var matched := ChangeEntries(Kill(dst));
      var e := Entry(True, Pick(next, Lit([])), Pick(num, Lit([])), if isStart == [] then False else CollapseAll(isStart), True);
      data := data[dst := e];
      added := added0 + added1;
      forall v, lists | Agrees(t0, v, lists)
        ensures var l := lists(Eval(src, v));
          && Agrees(data, v, With(lists, Eval(dst, v), l.(alive := true)))
          && (HoldsAll(added, v) <==> (Known(t0, v, Eval(src, v)) || Holds(nonlocal0(src), v)) && l.alive)
      {
        hide *;
        assert Agrees(t, v, lists) && Known(t, v, Eval(src, v));
        AgreesParts(t, v, lists);
        var k := CheckEnd(t, v, lists, src, ok, added1);
        AliveAt(t[k], v);
        HoldsAllAppend(added0, added1, v);
        CopiedEntry(t, v, lists, src, next, num, isStart);
        CopyAgrees(t, v, lists, dst, e);
      }
    }

    static lemma AliveAt(e: Entry, v: Valuation)
      ensures ListOf(e, v).alive <==> Holds(e.alive, v)
    {
    }

    static function NextOf(k: Term, e: Entry): Term {
      e.next
    }

    static function NumOf(k: Term, e: Entry): Term {
      e.num
    }

    static function IsStartOf(k: Term, e: Entry): Cond {
      e.isStart
    }

    /** The merged fields are those of the source's active entry. */
    static lemma CopiedEntry(t: Table, v: Valuation, lists: Lists, src: Term, next: Disj<Term>, num: Disj<Term>, isStart: Disj<Cond>)
      requires Agrees(t, v, lists) && Known(t, v, Eval(src, v))
      requires Collected(t, v, src, t.Keys, NextOf, next) && Collected(t, v, src, t.Keys, NumOf, num) && Collected(t, v, src, t.Keys, IsStartOf, isStart)
      ensures ListOf(Entry(True, Pick(next, Lit([])), Pick(num, Lit([])), if isStart == [] then False else CollapseAll(isStart), True), v)
        == lists(Eval(src, v)).(alive := true)
    {
      var k := CollectEnd(t, v, lists, src, NextOf, next);
      var k1 := CollectEnd(t, v, lists, src, NumOf, num);
      var k2 := CollectEnd(t, v, lists, src, IsStartOf, isStart);
      hide Agrees, Known, Collected, Pick, Eval;
      PickMeans(next, Lit([]), v, t[k].next);
      PickMeans(num, Lit([]), v, t[k1].num);
      CollapsedCond(isStart, v, t[k2].isStart);
      ConstantsMean(v);
      hide Holds, CollapseAll;
    }

    static lemma CollapsedCond(d: Disj<Cond>, v: Valuation, x: Cond)
      requires Exclusive(d, v) && Selects(d, v, x)
      ensures d != [] && (Holds(CollapseAll(d), v) <==> Holds(x, v))
    {
      hide Holds, CollapseAll;
      CollapsedIsChosen(d, v, x);
    }

    /** The destination's entries are switched off, and its pointer gets the only active one. */
    static lemma CopyAgrees(t: Table, v: Valuation, lists: Lists, dst: Term, e: Entry)
      requires Agrees(t, v, lists) && e.active == True
      ensures Agrees(ChangedAll(Kill(dst), t)[dst := e], v, With(lists, Eval(dst, v), ListOf(e, v)))
    {
      var t', a := ChangedAll(Kill(dst), t)[dst := e], Eval(dst, v);
      var lists' := With(lists, a, ListOf(e, v));
      AgreesParts(t, v, lists);
      hide Agrees;
      forall k, x
        ensures ActiveAt(t', v, k, x) <==> (if k == dst then x == a else ActiveAt(t, v, k, x) && x != a)
        ensures ActiveAt(t', v, k, x) && k != dst ==> ListOf(t'[k], v) == ListOf(t[k], v)
      {
        KilledEntry(t, v, dst, e, k, x);
      }
      CopyActive(t, t', v, dst);
      hide ListOf, Incoming, ChangedAll, Eval, Holds;
      assert ActiveHolds(t', v, lists') by { hide Known; }
      assert OthersIncoming(t', v, lists') by { hide ActiveAt; KnownGrows(t, t', v, dst); hide Known; }
      AgreesFrom(t', v, lists');
    }

    static lemma KnownGrows(t: Table, t': Table, v: Valuation, dst: Term)
      requires t'.Keys == t.Keys + {dst}
      ensures forall x :: Known(t, v, x) || x == Eval(dst, v) ==> Known(t', v, x)
    {
      hide Eval;
      forall x | Known(t, v, x) || x == Eval(dst, v)
        ensures Known(t', v, x)
      {
        if Known(t, v, x) {
          var k :| k in t && Eval(k, v) == x;
          assert k in t';
        } else {
          assert dst in t';
        }
      }
    }

    static lemma KilledEntry(t: Table, v: Valuation, dst: Term, e: Entry, k: Term, x: Bits)
      requires e.active == True
      ensures var t' := ChangedAll(Kill(dst), t)[dst := e];
        && (ActiveAt(t', v, k, x) <==> (if k == dst then x == Eval(dst, v) else ActiveAt(t, v, k, x) && x != Eval(dst, v)))
        && (ActiveAt(t', v, k, x) && k != dst ==> k in t && ListOf(t'[k], v) == ListOf(t[k], v))
    {
      ConstantsMean(v);
      if k in t {
        ChangedMeans(Kill(dst), k, t[k], v);
      }
      hide Holds, Eval, Changed, ListOf;
    }

    static lemma CopyActive(t: Table, t': Table, v: Valuation, dst: Term)
      requires AllKnownActive(t, v) && OneActive(t, v) && t'.Keys == t.Keys + {dst}
      requires forall k, x :: ActiveAt(t', v, k, x) <==> (if k == dst then x == Eval(dst, v) else ActiveAt(t, v, k, x) && x != Eval(dst, v))
      ensures AllKnownActive(t', v) && OneActive(t', v)
    {
      ActiveIsAt(t, v);
      hide ActiveAt, Eval;
      forall k | k in t'
        ensures SomeActive(t', v, Eval(k, v))
      {
        if Eval(k, v) == Eval(dst, v) {
          assert ActiveAt(t', v, dst, Eval(k, v));
        } else {
          assert SomeActive(t, v, Eval(k, v));
          var k' :| ActiveAt(t, v, k', Eval(k, v));
          assert ActiveAt(t', v, k', Eval(k, v));
        }
      }
    }

    static lemma ActiveIsAt(t: Table, v: Valuation)
      ensures forall k, x :: ActiveAt(t, v, k, x) ==> Eval(k, v) == x
    {
    }
  }

  // ----- limits --------------------------------------------------------------

  /** Eight-bit addition. */
  ghost predicate AddsBytes(v: Valuation) {
    forall x, y :: |x| == |y| == 8 ==> |v.plus(x, y)| == 8 && Value(v.plus(x, y)) == Wrap8(Value(x) + Value(y))
  }

  /** A sum of two bytes, in eight bits. */
  function Wrap8(n: nat): nat {
    if n < 256 then n else n - 256
  }

  lemma {:induction false} ValueBound(b: Bits)
    ensures Value(b) < Pow2(|b|)
  {
    if b != [] {
      ValueBound(b[..|b| - 1]);
    }
  }

  lemma {:induction false} ValueOfZeros(b: Bits)
    requires forall i :: 0 <= i < |b| ==> !b[i]
    ensures Value(b) == 0
  {
    if b != [] {
      ValueOfZeros(b[..|b| - 1]);
    }
  }

  lemma ByteBound(b: Bits)
    requires |b| == 8
    ensures Value(b) < 256
  {
    ValueBound(b);
    hide Value;
    assert Pow2(4) == 16;
  }

  lemma OneMeans(v: Valuation)
    ensures |Eval(ONE, v)| == 8 && Value(Eval(ONE, v)) == 1
  {
    var z := Repeat8(false)[..7];
    var one := z + [true];
    assert Eval(ONE, v) == one;
    ValueOfZeros(z);
    ValueOfLast(z);
  }

  lemma ValueOfLast(z: Bits)
    ensures Value(z + [true]) == 2 * Value(z) + 1
  {
    var b := z + [true];
    assert b[..|b| - 1] == z;
  }

  /** The check for a further argument is exact, except at the last counter value, where
      the addition wraps around and the check always passes. */
  lemma ArgumentCheckIff(v: Valuation, next: Bits, num: Bits)
    requires AddsBytes(v) && |next| == |num| == 8
    ensures AtLeast(num, v.plus(next, Eval(ONE, v))) <==> Value(next) < Value(num) || Value(next) == 255
  {
    hide Value, Eval, Pow2;
    OneMeans(v);
    ByteBound(next);
    ByteBound(num);
    assert Value(v.plus(next, Eval(ONE, v))) == Wrap8(Value(next) + Value(Eval(ONE, v)));
  }

  /** A copy gives the same arguments as its original in every world only if the list was
      started here, or the two are at the same address: arguments of a caller's list are
      named after the pointer, not after the list. */
  lemma CopyGivesSameArgumentsIff(l: List, dst: Bits, src: Bits)
    ensures (forall v :: ArgOf(l, dst, v) == ArgOf(l, src, v)) <==> l.isStart || dst == src
  {
    if !l.isStart && dst != src {
      var v := Valuation(_ => [], _ => true, (_, a, _) => a, (_, _) => []);
      assert ArgOf(l, dst, v) != ArgOf(l, src, v);
    }
  }
}
