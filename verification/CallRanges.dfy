/** How often each function may have been called so far: `FnCallRanges` (ir/state.cpp),
    and its propagation along jumps and merges. */
module CallCounts {
  import Cfg

  /** The kinds of memory that a call may read and write. */
  datatype Access = Access(reads0: set<nat>, writes0: set<nat>)

  function Join(a: Access, b: Access): Access {
    Access(a.reads0 + b.reads0, a.writes0 + b.writes0)
  }

  predicate Within(a: Access, b: Access) {
    a.reads0 <= b.reads0 && a.writes0 <= b.writes0
  }

  /** A number of calls, and whether they may have written. */
  datatype Num = Num(n: nat, writes: bool)

  datatype Entry = Entry(calls: set<Num>, access: Access)

  type Ranges = map<nat, Entry>

  /** The calls made along a path, in order. */
  type Trace = seq<(nat, Access)>

  function Count(t: Trace, fn: nat): nat {
    if t == [] then 0 else Count(t[..|t| - 1], fn) + if t[|t| - 1].0 == fn then 1 else 0
  }

  ghost predicate Wrote(t: Trace, fn: nat) {
    exists i :: 0 <= i < |t| && t[i].0 == fn && t[i].1.writes0 != {}
  }

  ghost predicate AccessCovered(r: Ranges, t: Trace) {
    forall i :: 0 <= i < |t| ==> t[i].0 in r && Within(t[i].1, r[t[i].0].access)
  }

  /** The trace's count is among the recorded ones, with a write flag at least as
      strong; a function that is not recorded was not called. */
  ghost predicate CountCovered(r: Ranges, t: Trace, fn: nat) {
    if fn in r then Num(Count(t, fn), true) in r[fn].calls || (!Wrote(t, fn) && Num(Count(t, fn), false) in r[fn].calls)
    else Count(t, fn) == 0
  }

  ghost predicate Describes(r: Ranges, t: Trace) {
    AccessCovered(r, t) && forall fn :: CountCovered(r, t, fn)
  }

  /** `n` calls of `fn` are possible. */
  ghost predicate Possible(r: Ranges, fn: nat, n: nat) {
    if fn in r then Num(n, true) in r[fn].calls || Num(n, false) in r[fn].calls else n == 0
  }

  /** A recorded function may have been called at least once. */
  ghost predicate Proper(r: Ranges) {
    forall fn :: fn in r ==> exists c :: c in r[fn].calls && c.n > 0
  }

  // ----- one more call -------------------------------------------------------

  ghost function Shift(calls: set<Num>, writes: bool): set<Num> {
    set c | c in calls :: Num(c.n + 1, c.writes || writes)
  }

  ghost function Incremented(r: Ranges, fn: nat, access: Access): Ranges {
    var writes := access.writes0 != {};
    r[fn := if fn in r then Entry(Shift(r[fn].calls, writes), Join(r[fn].access, access)) else Entry({Num(1, writes)}, access)]
  }

  lemma ShiftHas(calls: set<Num>, writes: bool, n: nat, w: bool)
    requires Num(n, w) in calls
    ensures Num(n + 1, w || writes) in Shift(calls, writes)
  {
    assert Num(n + 1, w || writes) == Num(Num(n, w).n + 1, Num(n, w).writes || writes);
  }

  lemma ShiftStep(calls: set<Num>, c: Num, writes: bool)
    ensures Shift(calls + {c}, writes) == Shift(calls, writes) + {Num(c.n + 1, c.writes || writes)}
  {
  }

  lemma TraceStep(t: Trace, fn: nat, access: Access, f: nat)
    ensures var t' := t + [(fn, access)];
      && Count(t', f) == Count(t, f) + (if f == fn then 1 else 0)
      && (Wrote(t', f) <==> Wrote(t, f) || (f == fn && access.writes0 != {}))
  {
    var t' := t + [(fn, access)];
    assert t'[..|t|] == t;
    if Wrote(t, f) {
      var i :| 0 <= i < |t| && t[i].0 == f && t[i].1.writes0 != {};
      assert t'[i] == t[i];
    }
    if f == fn && access.writes0 != {} {
      assert t'[|t|] == (fn, access);
    }
  }

  lemma NotCalled(t: Trace, fn: nat)
    requires Count(t, fn) == 0
    ensures !Wrote(t, fn)
  {
    if t != [] {
      NotCalled(t[..|t| - 1], fn);
      assert t == t[..|t| - 1] + [t[|t| - 1]];
      TraceStep(t[..|t| - 1], t[|t| - 1].0, t[|t| - 1].1, fn);
    }
  }

  /** Recording a call describes every trace extended by it. */
  lemma IncrementDescribes(r: Ranges, t: Trace, fn: nat, access: Access)
    requires Describes(r, t)
    ensures Describes(Incremented(r, fn, access), t + [(fn, access)])
  {
    var r', t', writes := Incremented(r, fn, access), t + [(fn, access)], access.writes0 != {};
    forall f
      ensures CountCovered(r', t', f)
    {
      TraceStep(t, fn, access, f);
      assert CountCovered(r, t, f);
      if f == fn && fn in r {
        if Num(Count(t, f), true) in r[f].calls {
          ShiftHas(r[f].calls, writes, Count(t, f), true);
        } else {
          ShiftHas(r[f].calls, writes, Count(t, f), false);
        }
      } else if f == fn {
        NotCalled(t, f);
      }
    }
    forall i | 0 <= i < |t'|
      ensures t'[i].0 in r' && Within(t'[i].1, r'[t'[i].0].access)
    {
      if i < |t| {
        assert t'[i] == t[i];
      }
    }
  }

  lemma IncrementProper(r: Ranges, fn: nat, access: Access)
    requires Proper(r)
    ensures Proper(Incremented(r, fn, access))
  {
    var r', writes := Incremented(r, fn, access), access.writes0 != {};
    forall f | f in r'
      ensures exists c :: c in r'[f].calls && c.n > 0
    {
      if f == fn && fn !in r {
        assert Num(1, writes) in r'[f].calls;
      } else {
        var c :| c in r[f].calls && c.n > 0;
        if f == fn {
          ShiftHas(r[f].calls, writes, c.n, c.writes);
        }
      }
    }
  }

  /** One call more: exactly the counts of the function are shifted by one. */
  lemma IncrementExact(r: Ranges, fn: nat, access: Access, f: nat, n: nat)
    ensures Possible(Incremented(r, fn, access), f, n) <==> if f == fn then n > 0 && Possible(r, fn, n - 1) else Possible(r, f, n)
  {
    if f == fn && fn in r {
      var r', writes := Incremented(r, fn, access), access.writes0 != {};
      if n > 0 && Num(n - 1, true) in r[fn].calls {
        ShiftHas(r[fn].calls, writes, n - 1, true);
      } else if n > 0 && Num(n - 1, false) in r[fn].calls {
        ShiftHas(r[fn].calls, writes, n - 1, false);
      }
      if Possible(r', f, n) {
        var c :| c in r[fn].calls && c.n + 1 == n;
        assert c == Num(n - 1, true) || c == Num(n - 1, false);
      }
    }
  }

  /** The counts with their flags, where a function that is not recorded has made no calls. */
  ghost function Before(r: Ranges, fn: nat): set<Num> {
    if fn in r then r[fn].calls else {Num(0, false)}
  }

  /** A count is recorded with a write exactly if there was one before or the call may
      write, and without one exactly if neither. */
  lemma IncrementFlags(r: Ranges, fn: nat, access: Access, n: nat)
    ensures Num(n, false) in Incremented(r, fn, access)[fn].calls <==>
      access.writes0 == {} && n > 0 && Num(n - 1, false) in Before(r, fn)
    ensures Num(n, true) in Incremented(r, fn, access)[fn].calls <==>
      n > 0 && (Num(n - 1, true) in Before(r, fn) || (access.writes0 != {} && Num(n - 1, false) in Before(r, fn)))
  {
    if fn in r && n > 0 {
      if Num(n - 1, false) in r[fn].calls {
        ShiftHas(r[fn].calls, access.writes0 != {}, n - 1, false);
      }
      if Num(n - 1, true) in r[fn].calls {
        ShiftHas(r[fn].calls, access.writes0 != {}, n - 1, true);
      }
    }
  }

  /** What the calls may access is added, and other functions stay as they are. */
  lemma IncrementAccess(r: Ranges, fn: nat, access: Access, f: nat, x: nat)
    ensures var r' := Incremented(r, fn, access);
      && (f in r' <==> f == fn || f in r) && (f in r && f != fn ==> r'[f] == r[f])
      && (x in r'[fn].access.reads0 <==> x in access.reads0 || (fn in r && x in r[fn].access.reads0))
      && (x in r'[fn].access.writes0 <==> x in access.writes0 || (fn in r && x in r[fn].access.writes0))
  {
  }

  // ----- merging -------------------------------------------------------------

  ghost function MetEntry(a: Ranges, b: Ranges, fn: nat): Entry
    requires fn in a || fn in b
  {
    if fn !in b then Entry(a[fn].calls + {Num(0, true)}, a[fn].access)
    else if fn !in a then Entry(b[fn].calls + {Num(0, true)}, b[fn].access)
    else Entry(a[fn].calls + b[fn].calls, Join(a[fn].access, b[fn].access))
  }

  ghost function Met(a: Ranges, b: Ranges): Ranges {
    map fn | fn in a.Keys + b.Keys :: MetEntry(a, b, fn)
  }

  /** The merged ranges describe every trace of either side. */
  lemma MetDescribes(a: Ranges, b: Ranges, t: Trace)
    requires Describes(a, t) || Describes(b, t)
    ensures Describes(Met(a, b), t)
  {
    forall fn
      ensures CountCovered(Met(a, b), t, fn)
    {
      assert Describes(a, t) ==> CountCovered(a, t, fn);
      assert Describes(b, t) ==> CountCovered(b, t, fn);
    }
  }

  /** The counts with their flags; a function that is not recorded counts as never called,
      with a flag that says nothing. */
  ghost function Counts(r: Ranges, fn: nat): set<Num> {
    if fn in r then r[fn].calls else {Num(0, true)}
  }

  /** Merging adds no counts, flags or accesses: one is possible exactly if it was on one
      of the sides. */
  lemma MetExact(a: Ranges, b: Ranges, fn: nat, n: nat)
    ensures Possible(Met(a, b), fn, n) <==> Possible(a, fn, n) || Possible(b, fn, n)
    ensures Counts(Met(a, b), fn) == Counts(a, fn) + Counts(b, fn)
    ensures forall x :: (fn in Met(a, b) && x in Met(a, b)[fn].access.reads0) <==>
      (fn in a && x in a[fn].access.reads0) || (fn in b && x in b[fn].access.reads0)
    ensures forall x :: (fn in Met(a, b) && x in Met(a, b)[fn].access.writes0) <==>
      (fn in a && x in a[fn].access.writes0) || (fn in b && x in b[fn].access.writes0)
  {
  }

  lemma MetProper(a: Ranges, b: Ranges)
    requires Proper(a) && Proper(b)
    ensures Proper(Met(a, b))
  {
    forall fn | fn in Met(a, b)
      ensures exists c :: c in Met(a, b)[fn].calls && c.n > 0
    {
      if fn in a {
        var c :| c in a[fn].calls && c.n > 0;
        assert c in Met(a, b)[fn].calls;
      } else {
        var c :| c in b[fn].calls && c.n > 0;
        assert c in Met(a, b)[fn].calls;
      }
    }
  }

  lemma MetSelf(a: Ranges, t: Trace)
    requires Describes(a, t)
    ensures forall fn :: Possible(a, fn, Count(t, fn))
  {
    forall fn
      ensures Possible(a, fn, Count(t, fn))
    {
      assert CountCovered(a, t, fn);
    }
  }

  // ----- nothing is made up ----------------------------------------------------

  /** Some trace has this count. */
  ghost predicate HasCount(ts: iset<Trace>, fn: nat, n: nat) {
    exists t :: t in ts && Count(t, fn) == n
  }

  /** ... without a call that may have written. */
  ghost predicate HasReads(ts: iset<Trace>, fn: nat, n: nat) {
    exists t :: t in ts && Count(t, fn) == n && !Wrote(t, fn)
  }

  /** Some trace has a call that may access this kind of memory. */
  ghost predicate HasAccess(ts: iset<Trace>, fn: nat, x: nat, write: bool) {
    exists t: Trace, i: nat :: t in ts && 0 <= i < |t| && t[i].0 == fn && x in if write then t[i].1.writes0 else t[i].1.reads0
  }

  /** Every count, every flag that excludes writes, and every access comes from a trace. */
  ghost predicate Witnessed(r: Ranges, ts: iset<Trace>) {
    && (exists t :: t in ts)
    && (forall fn: nat, n: nat :: Possible(r, fn, n) ==> HasCount(ts, fn, n))
    && (forall fn: nat, n: nat :: fn in r && Num(n, false) in r[fn].calls ==> HasReads(ts, fn, n))
    && (forall fn: nat, x: nat :: fn in r && x in r[fn].access.reads0 ==> HasAccess(ts, fn, x, false))
    && (forall fn: nat, x: nat :: fn in r && x in r[fn].access.writes0 ==> HasAccess(ts, fn, x, true))
  }

  ghost function Extended(ts: iset<Trace>, fn: nat, access: Access): iset<Trace> {
    iset t | t in ts :: t + [(fn, access)]
  }

  lemma ExtendedHas(ts: iset<Trace>, fn: nat, access: Access, t: Trace)
    requires t in ts
    ensures t + [(fn, access)] in Extended(ts, fn, access)
  {
  }

  lemma CountExtends(ts: iset<Trace>, fn: nat, access: Access, f: nat, n: nat)
    requires HasCount(ts, f, n)
    ensures HasCount(Extended(ts, fn, access), f, if f == fn then n + 1 else n)
  {
    var t :| t in ts && Count(t, f) == n;
    ExtendedHas(ts, fn, access, t);
    TraceStep(t, fn, access, f);
  }

  lemma ReadsExtend(ts: iset<Trace>, fn: nat, access: Access, f: nat, n: nat)
    requires HasReads(ts, f, n) && (f == fn ==> access.writes0 == {})
    ensures HasReads(Extended(ts, fn, access), f, if f == fn then n + 1 else n)
  {
    var t :| t in ts && Count(t, f) == n && !Wrote(t, f);
    ExtendedHas(ts, fn, access, t);
    TraceStep(t, fn, access, f);
  }

  lemma AccessExtends(ts: iset<Trace>, fn: nat, access: Access, f: nat, x: nat, write: bool)
    requires HasAccess(ts, f, x, write)
    ensures HasAccess(Extended(ts, fn, access), f, x, write)
  {
    var t: Trace, i: nat :| t in ts && 0 <= i < |t| && t[i].0 == f && x in if write then t[i].1.writes0 else t[i].1.reads0;
    ExtendedHas(ts, fn, access, t);
    assert (t + [(fn, access)])[i] == t[i];
  }

  lemma AccessNew(ts: iset<Trace>, fn: nat, access: Access, x: nat, write: bool)
    requires (exists t :: t in ts) && x in if write then access.writes0 else access.reads0
    ensures HasAccess(Extended(ts, fn, access), fn, x, write)
  {
    var t :| t in ts;
    ExtendedHas(ts, fn, access, t);
    var t' := t + [(fn, access)];
    assert t'[|t|] == (fn, access);
  }

  /** Recording a call makes nothing up. */
  lemma IncrementWitnessed(r: Ranges, ts: iset<Trace>, fn: nat, access: Access)
    requires Witnessed(r, ts)
    ensures Witnessed(Incremented(r, fn, access), Extended(ts, fn, access))
  {
    var r', ts' := Incremented(r, fn, access), Extended(ts, fn, access);
    hide Incremented, HasCount, HasReads, HasAccess, Extended;
    var t :| t in ts;
    ExtendedHas(ts, fn, access, t);
    forall f: nat, n: nat | Possible(r', f, n)
      ensures HasCount(ts', f, n)
    {
      IncrementExact(r, fn, access, f, n);
      CountExtends(ts, fn, access, f, if f == fn then n - 1 else n);
    }
    forall f: nat, n: nat | f in r' && Num(n, false) in r'[f].calls
      ensures HasReads(ts', f, n)
    {
      IncrementFlags(r, fn, access, n);
      IncrementAccess(r, fn, access, f, 0);
      if f == fn && fn !in r {
        NoneHasReads(r, ts, fn);
      }
      ReadsExtend(ts, fn, access, f, if f == fn then n - 1 else n);
    }
    forall f: nat, x: nat, write: bool | f in r' && x in if write then r'[f].access.writes0 else r'[f].access.reads0
      ensures HasAccess(ts', f, x, write)
    {
      IncrementAccess(r, fn, access, f, x);
      if f == fn && x in if write then access.writes0 else access.reads0 {
        AccessNew(ts, fn, access, x, write);
      } else {
        AccessExtends(ts, fn, access, f, x, write);
      }
    }
  }

  lemma NoneHasReads(r: Ranges, ts: iset<Trace>, fn: nat)
    requires Witnessed(r, ts) && fn !in r
    ensures HasReads(ts, fn, 0)
  {
    assert Possible(r, fn, 0);
    var t :| t in ts && Count(t, fn) == 0;
    NotCalled(t, fn);
  }

  lemma MoreTraces(r: Ranges, ts: iset<Trace>, ts': iset<Trace>)
    requires Witnessed(r, ts) && ts <= ts'
    ensures Witnessed(r, ts')
  {
    hide Possible;
    forall fn: nat, n: nat | HasCount(ts, fn, n)
      ensures HasCount(ts', fn, n)
    {
    }
    forall fn: nat, n: nat | HasReads(ts, fn, n)
      ensures HasReads(ts', fn, n)
    {
    }
    forall fn: nat, x: nat, write | HasAccess(ts, fn, x, write)
      ensures HasAccess(ts', fn, x, write)
    {
    }
  }

  /** Merging makes nothing up. */
  lemma MetWitnessed(a: Ranges, b: Ranges, ts: iset<Trace>)
    requires Witnessed(a, ts) && Witnessed(b, ts)
    ensures Witnessed(Met(a, b), ts)
  {
    hide HasCount, HasReads, HasAccess, Met, Possible;
    forall fn: nat, n: nat
      ensures Possible(Met(a, b), fn, n) ==> HasCount(ts, fn, n)
      ensures fn in Met(a, b) && Num(n, false) in Met(a, b)[fn].calls ==> HasReads(ts, fn, n)
      ensures fn in Met(a, b) && n in Met(a, b)[fn].access.reads0 ==> HasAccess(ts, fn, n, false)
      ensures fn in Met(a, b) && n in Met(a, b)[fn].access.writes0 ==> HasAccess(ts, fn, n, true)
    {
      MetExact(a, b, fn, n);
      assert Num(n, false) in Counts(Met(a, b), fn) ==> Num(n, false) in Counts(a, fn) || Num(n, false) in Counts(b, fn);
    }
  }

  // ----- comparing -----------------------------------------------------------

  ghost predicate AtLeast(a: Ranges, b: Ranges, fn: nat) {
    forall n: nat, m: nat :: Possible(a, fn, n) && Possible(b, fn, m) ==> n >= m
  }

  /** Every possible count of one side is at least every possible count of the other. */
  ghost predicate Larger(a: Ranges, b: Ranges) {
    forall fn :: AtLeast(a, b, fn)
  }

  lemma LargerCounts(a: Ranges, b: Ranges, s: Trace, t: Trace, fn: nat)
    requires Larger(a, b) && Describes(a, s) && Describes(b, t)
    ensures Count(s, fn) >= Count(t, fn)
  {
    MetSelf(a, s);
    MetSelf(b, t);
    hide Possible;
    assert AtLeast(a, b, fn);
  }

  /** `n` is the first count in the order of the set. */
  ghost predicate First(calls: set<Num>, n: nat) {
    (exists c :: c in calls && c.n == n) && forall c :: c in calls ==> n <= c.n
  }

  ghost predicate Last(calls: set<Num>, n: nat) {
    (exists c :: c in calls && c.n == n) && forall c :: c in calls ==> c.n <= n
  }

  lemma FirstLast(a: Ranges, b: Ranges, fn: nat, first: nat, last: nat)
    requires fn in a && fn in b && First(a[fn].calls, first) && Last(b[fn].calls, last)
    ensures AtLeast(a, b, fn) <==> first >= last
  {
    var c :| c in a[fn].calls && c.n == first;
    var d :| d in b[fn].calls && d.n == last;
    assert c == Num(first, true) || c == Num(first, false);
    assert d == Num(last, true) || d == Num(last, false);
    assert Possible(a, fn, first) && Possible(b, fn, last);
    if first >= last {
      forall n: nat, m: nat | Possible(a, fn, n) && Possible(b, fn, m)
        ensures n >= m
      {
        assert first <= n by {
          if Num(n, true) in a[fn].calls {
            assert first <= Num(n, true).n;
          } else {
            assert first <= Num(n, false).n;
          }
        }
        assert m <= last by {
          if Num(m, true) in b[fn].calls {
            assert Num(m, true).n <= last;
          } else {
            assert Num(m, false).n <= last;
          }
        }
      }
    }
  }

  lemma OnlyOther(a: Ranges, b: Ranges, fn: nat)
    requires fn !in a && fn in b && Proper(b)
    ensures !AtLeast(a, b, fn)
  {
    var c :| c in b[fn].calls && c.n > 0;
    assert c == Num(c.n, true) || c == Num(c.n, false);
    assert Possible(b, fn, c.n) && Possible(a, fn, 0);
  }

  lemma NotInOther(a: Ranges, b: Ranges, fn: nat)
    requires fn !in b
    ensures AtLeast(a, b, fn)
  {
  }

  method FirstCount(calls: set<Num>) returns (n: nat)
    requires calls != {}
    ensures First(calls, n)
  {
    var c :| c in calls;
    n := c.n;
    var rest := calls - {c};
    while rest != {}
      invariant rest <= calls && (exists c :: c in calls && c.n == n) && forall c :: c in calls && c !in rest ==> n <= c.n
      decreases |rest|
    {
      var d :| d in rest;
      if d.n < n {
        n := d.n;
      }
      rest := rest - {d};
    }
  }

  method LastCount(calls: set<Num>) returns (n: nat)
    requires calls != {}
    ensures Last(calls, n)
  {
    var c :| c in calls;
    n := c.n;
    var rest := calls - {c};
    while rest != {}
      invariant rest <= calls && (exists c :: c in calls && c.n == n) && forall c :: c in calls && c !in rest ==> c.n <= n
      decreases |rest|
    {
      var d :| d in rest;
      if d.n > n {
        n := d.n;
      }
      rest := rest - {d};
    }
  }

  lemma ProperAt(r: Ranges, fn: nat)
    requires Proper(r) && fn in r
    ensures r[fn].calls != {}
  {
  }

  // ----- FnCallRanges --------------------------------------------------------

  /** The merge, when only the functions in `done` have been merged. */
  ghost predicate Partly(mine: Ranges, theirs: Ranges, done: set<nat>, r: Ranges) {
    && r.Keys == mine.Keys + (theirs.Keys * done)
    && forall fn :: fn in r ==> r[fn] == if fn in done then MetEntry(mine, theirs, fn) else mine[fn]
  }

  lemma PartlyNothing(mine: Ranges, theirs: Ranges)
    ensures Partly(mine, theirs, {}, mine)
  {
  }

  lemma PartlyHas(mine: Ranges, theirs: Ranges, done: set<nat>, r: Ranges, fn: nat)
    requires Partly(mine, theirs, done, r) && fn !in done
    ensures fn in r <==> fn in mine
    ensures fn in r ==> r[fn] == mine[fn]
  {
  }

  lemma PartlyStep(mine: Ranges, theirs: Ranges, done: set<nat>, r: Ranges, fn: nat, e: Entry)
    requires Partly(mine, theirs, done, r) && (fn in mine || fn in theirs) && e == MetEntry(mine, theirs, fn)
    ensures Partly(mine, theirs, done + {fn}, r[fn := e])
  {
  }

  lemma PartlyAll(mine: Ranges, theirs: Ranges, done: set<nat>, r: Ranges)
    requires Partly(mine, theirs, done, r) && theirs.Keys <= done && r.Keys <= done
    ensures r == Met(mine, theirs)
  {
    hide MetEntry;
    assert r.Keys == Met(mine, theirs).Keys;
  }

  lemma MetEntryIs(a: Ranges, b: Ranges, fn: nat)
    requires fn in a || fn in b
    ensures MetEntry(a, b, fn) == if fn !in b then Entry(a[fn].calls + {Num(0, true)}, a[fn].access)
                                  else if fn !in a then Entry(b[fn].calls + {Num(0, true)}, b[fn].access)
                                  else Entry(a[fn].calls + b[fn].calls, Join(a[fn].access, b[fn].access))
  {
  }

  class FnCallRanges {
    var ranges: Ranges

    constructor (r: Ranges)
      ensures ranges == r
    {
      ranges := r;
    }

    static method ShiftAll(calls: set<Num>, canWrite: bool) returns (newSet: set<Num>)
      ensures newSet == Shift(calls, canWrite)
    {
      newSet := {};
      var rest := calls;
      ghost var done: set<Num> := {};
      while rest != {}
        invariant rest + done == calls && newSet == Shift(done, canWrite)
        decreases |rest|
      {
        var c :| c in rest;
        hide Shift;
        ShiftStep(done, c, canWrite);
        newSet := newSet + {Num(c.n + 1, c.writes || canWrite)};
        rest, done := rest - {c}, done + {c};
      }
      assert done == calls;
    }

    method Inc(fn: nat, access: Access)
      modifies this
      ensures ranges == Incremented(old(ranges), fn, access)
      ensures forall t :: Describes(old(ranges), t) ==> Describes(ranges, t + [(fn, access)])
      ensures forall ts :: Witnessed(old(ranges), ts) ==> Witnessed(ranges, Extended(ts, fn, access))
      ensures Proper(old(ranges)) ==> Proper(ranges)
    {
      var canWrite := access.writes0 != {};
      ghost var before := ranges;
      if fn !in ranges {
        ranges := ranges[fn := Entry({Num(1, canWrite)}, access)];
      } else {
        var newSet := ShiftAll(ranges[fn].calls, canWrite);
        ranges := ranges[fn := Entry(newSet, Join(ranges[fn].access, access))];
      }
      assert ranges == Incremented(before, fn, access);
      hide Incremented, Describes, Proper, Witnessed, Extended;
      forall t | Describes(before, t)
        ensures Describes(ranges, t + [(fn, access)])
      {
        IncrementDescribes(before, t, fn, access);
      }
      forall ts | Witnessed(before, ts)
        ensures Witnessed(ranges, Extended(ts, fn, access))
      {
        IncrementWitnessed(before, ts, fn, access);
      }
      if Proper(before) {
        IncrementProper(before, fn, access);
      }
    }

    method MeetWith(other: FnCallRanges)
      modifies this
      ensures ranges == Met(old(ranges), old(other.ranges))
      ensures forall t :: Describes(old(ranges), t) || Describes(old(other.ranges), t) ==> Describes(ranges, t)
      ensures forall ts :: Witnessed(old(ranges), ts) && Witnessed(old(other.ranges), ts) ==> Witnessed(ranges, ts)
      ensures Proper(old(ranges)) && Proper(old(other.ranges)) ==> Proper(ranges)
    {
      ghost var mine := ranges;
      var theirs := other.ranges;
      AddTheirs(theirs);
      AddZeros(mine, theirs);
      hide Met, Describes, Proper, Witnessed;
      forall t | Describes(mine, t) || Describes(theirs, t)
        ensures Describes(ranges, t)
      {
        MetDescribes(mine, theirs, t);
      }
      forall ts | Witnessed(mine, ts) && Witnessed(theirs, ts)
        ensures Witnessed(ranges, ts)
      {
        MetWitnessed(mine, theirs, ts);
      }
      if Proper(mine) && Proper(theirs) {
        MetProper(mine, theirs);
      }
    }

    /** The first loop of the merge: what the other side has recorded. */
    method AddTheirs(theirs: Ranges)
      modifies this
      ensures Partly(old(ranges), theirs, theirs.Keys, ranges)
    {
      hide Partly, MetEntry, Join;
      ghost var mine := ranges;
      var rest := theirs.Keys;
      PartlyNothing(mine, theirs);
      ghost var done: set<nat> := {};
      while rest != {}
        invariant rest + done == theirs.Keys && rest !! done && Partly(mine, theirs, done, ranges)
        decreases |rest|
      {
        var fn :| fn in rest;
        AddTheir(theirs, fn, mine, done);
        rest, done := rest - {fn}, done + {fn};
      }
      assert done == theirs.Keys;
    }

    /** What the other side has recorded for one function. */
    method AddTheir(theirs: Ranges, fn: nat, ghost mine: Ranges, ghost done: set<nat>)
      requires Partly(mine, theirs, done, ranges) && fn in theirs && fn !in done
      modifies this
      ensures Partly(mine, theirs, done + {fn}, ranges)
    {
      hide Partly, MetEntry, Join;
      var e := theirs[fn];
      PartlyHas(mine, theirs, done, ranges, fn);
      MetEntryIs(mine, theirs, fn);
      if fn !in ranges {
        e := Entry(e.calls + {Num(0, true)}, e.access);
      } else {
        e := Entry(ranges[fn].calls + e.calls, Join(ranges[fn].access, e.access));
      }
      PartlyStep(mine, theirs, done, ranges, fn, e);
      ranges := ranges[fn := e];
    }

    /** The second loop: what the other side has not recorded, it may not have called. */
    method AddZeros(ghost mine: Ranges, theirs: Ranges)
      requires Partly(mine, theirs, theirs.Keys, ranges)
      modifies this
      ensures ranges == Met(mine, theirs)
    {
      hide Partly, MetEntry, Join, Met;
      var rest := ranges.Keys;
      ghost var done := theirs.Keys;
      while rest != {}
        invariant rest <= ranges.Keys <= rest + done && rest * done <= theirs.Keys <= done
        invariant Partly(mine, theirs, done, ranges)
        decreases |rest|
      {
        var fn :| fn in rest;
        if fn !in theirs {
          PartlyHas(mine, theirs, done, ranges, fn);
          MetEntryIs(mine, theirs, fn);
          var e := Entry(ranges[fn].calls + {Num(0, true)}, ranges[fn].access);
          PartlyStep(mine, theirs, done, ranges, fn, e);
          ranges, done := ranges[fn := e], done + {fn};
        }
        rest := rest - {fn};
      }
      PartlyAll(mine, theirs, done, ranges);
    }

    /** True exactly if every count possible here is at least every count possible in
        `other`; so it is for every pair of traces. */
    method IsLargerThanInclReads(other: FnCallRanges) returns (larger: bool)
      requires Proper(ranges) && Proper(other.ranges)
      ensures larger <==> Larger(ranges, other.ranges)
      ensures larger ==> forall s, t, fn :: Describes(ranges, s) && Describes(other.ranges, t) ==> Count(s, fn) >= Count(t, fn)
    {
      var a, b := ranges, other.ranges;
      hide Proper, AtLeast, Describes, First, Last;
      var rest := a.Keys;
      while rest != {}
        invariant rest <= a.Keys && forall fn :: fn in a && fn !in rest ==> AtLeast(a, b, fn)
        decreases |rest|
      {
        var fn :| fn in rest;
        if fn in b {
          ProperAt(a, fn);
          ProperAt(b, fn);
          var firstVal := FirstCount(a[fn].calls);
          var otherLastVal := LastCount(b[fn].calls);
          FirstLast(a, b, fn, firstVal, otherLastVal);
          if firstVal < otherLastVal {
            return false;
          }
        } else {
          NotInOther(a, b, fn);
        }
        rest := rest - {fn};
      }
      rest := b.Keys;
      while rest != {}
        invariant rest <= b.Keys && forall fn :: fn in b && fn !in rest ==> fn in a
        decreases |rest|
      {
        var fn :| fn in rest;
        if fn !in a {
          OnlyOther(a, b, fn);
          return false;
        }
        rest := rest - {fn};
      }
      forall fn
        ensures AtLeast(a, b, fn)
      {
        if fn !in b {
          NotInOther(a, b, fn);
        }
      }
      forall s, t, fn | Describes(a, s) && Describes(b, t)
        ensures Count(s, fn) >= Count(t, fn)
      {
        LargerCounts(a, b, s, t, fn);
      }
      return true;
    }
  }

  // ----- along the blocks ----------------------------------------------------

  /** The calls along a path before its last block. */
  function PathTrace(calls: seq<Trace>, p: seq<nat>): Trace
    requires forall i :: 0 <= i < |p| ==> p[i] < |calls|
  {
    if |p| < 2 then [] else PathTrace(calls, p[..|p| - 1]) + calls[p[|p| - 2]]
  }

  /** A path from the entry along recorded jumps: each leads to a later block. */
  ghost predicate ForwardPath(g: Cfg.Graph, p: seq<nat>, b: nat) {
    Cfg.PathFromTo(g, p, 0, b) && forall i {:trigger p[i + 1]} :: 0 <= i < |p| - 1 ==> p[i] < p[i + 1]
  }

  /** Destination -> source -> the ranges at the jump. */
  type Incoming = map<nat, map<nat, Ranges>>

  /** The ranges on one edge describe every path along it. */
  ghost predicate EdgeDescribes(g: Cfg.Graph, calls: seq<Trace>, ins: Incoming, a: nat, d: nat)
    requires |calls| == |g| && a < |g|
  {
    forall p :: ForwardPath(g, p, a) ==> d in ins && a in ins[d] && Describes(ins[d][a], PathTrace(calls, p) + calls[a])
  }

  ghost predicate IncomingProper(ins: Incoming) {
    forall d :: d in ins ==> ins[d] != map[] && forall a :: a in ins[d] ==> Proper(ins[d][a])
  }

  /** The first `n` blocks have been handled. */
  ghost predicate EdgesDescribe(g: Cfg.Graph, calls: seq<Trace>, ins: Incoming, n: nat)
    requires |calls| == |g|
  {
    IncomingProper(ins) && forall a: nat, d: nat :: a < n && a < d && a < |g| && Cfg.Edge(g, a, d) ==> EdgeDescribes(g, calls, ins, a, d)
  }

  /** The ranges at the start of a block describe every path to it. */
  ghost predicate BlockDescribes(g: Cfg.Graph, calls: seq<Trace>, r: Ranges, b: nat)
    requires |calls| == |g|
  {
    forall p :: ForwardPath(g, p, b) ==> Describes(r, PathTrace(calls, p))
  }

  lemma LastStep(g: Cfg.Graph, calls: seq<Trace>, p: seq<nat>, b: nat)
    requires |calls| == |g| && ForwardPath(g, p, b) && b > 0
    ensures |p| >= 2 && p[|p| - 2] < b && p[|p| - 2] < |g| && Cfg.Edge(g, p[|p| - 2], b) && ForwardPath(g, p[..|p| - 1], p[|p| - 2])
    ensures PathTrace(calls, p) == PathTrace(calls, p[..|p| - 1]) + calls[p[|p| - 2]]
  {
    LastEdge(g, p, b);
    PathWithin(g, p, b);
    hide ForwardPath;
  }

  lemma PathWithin(g: Cfg.Graph, p: seq<nat>, b: nat)
    requires ForwardPath(g, p, b)
    ensures forall i :: 0 <= i < |p| ==> p[i] < |g|
  {
  }

  lemma LastEdge(g: Cfg.Graph, p: seq<nat>, b: nat)
    requires ForwardPath(g, p, b) && b > 0
    ensures |p| >= 2 && p[|p| - 2] < b && p[|p| - 2] < |g| && Cfg.Edge(g, p[|p| - 2], b) && ForwardPath(g, p[..|p| - 1], p[|p| - 2])
  {
    var q, n := p[..|p| - 1], |p| - 2;
    assert p[n + 1] == b;
    forall i {:trigger q[i + 1]} | 0 <= i < |q| - 1
      ensures q[i] < q[i + 1] && Cfg.Edge(g, q[i], q[i + 1])
    {
      assert q[i + 1] == p[i + 1];
    }
  }

  lemma BeforeLast(g: Cfg.Graph, p: seq<nat>, b: nat)
    requires ForwardPath(g, p, b)
    ensures |p| >= 2 ==> p[|p| - 2] < b
  {
    var n := |p| - 2;
    assert |p| >= 2 ==> p[n] < p[n + 1];
  }

  lemma EmptyDescribes(g: Cfg.Graph, calls: seq<Trace>)
    requires |calls| == |g|
    ensures BlockDescribes(g, calls, map[], 0)
  {
    forall p | ForwardPath(g, p, 0)
      ensures Describes(map[], PathTrace(calls, p))
    {
      BeforeLast(g, p, 0);
    }
  }

  /** The edges from the sources in `done` have been merged. */
  ghost predicate SourcesDescribed(g: Cfg.Graph, calls: seq<Trace>, r: Ranges, b: nat, done: set<nat>)
    requires |calls| == |g|
  {
    forall p :: ForwardPath(g, p, b) && |p| >= 2 && p[|p| - 2] in done ==> Describes(r, PathTrace(calls, p))
  }

  lemma SourceDescribed(g: Cfg.Graph, calls: seq<Trace>, ins: Incoming, b: nat, a: nat)
    requires |calls| == |g| && EdgesDescribe(g, calls, ins, b) && 0 < b < |g| && b in ins && a in ins[b]
    ensures SourcesDescribed(g, calls, ins[b][a], b, {a})
  {
    hide Describes;
    forall p | ForwardPath(g, p, b) && |p| >= 2 && p[|p| - 2] in {a}
      ensures Describes(ins[b][a], PathTrace(calls, p))
    {
      LastStep(g, calls, p, b);
      assert EdgeDescribes(g, calls, ins, a, b);
    }
  }

  lemma MergedDescribe(g: Cfg.Graph, calls: seq<Trace>, x: Ranges, y: Ranges, b: nat, done: set<nat>, a: nat)
    requires |calls| == |g| && SourcesDescribed(g, calls, x, b, done) && SourcesDescribed(g, calls, y, b, {a})
    ensures SourcesDescribed(g, calls, Met(x, y), b, done + {a})
  {
    hide Describes, Met;
    forall p | ForwardPath(g, p, b) && |p| >= 2 && p[|p| - 2] in done + {a}
      ensures Describes(Met(x, y), PathTrace(calls, p))
    {
      MetDescribes(x, y, PathTrace(calls, p));
    }
  }

  /** The merge of `State::startBB`: the first source is copied, the others are met. */
  method MergeSources(g: Cfg.Graph, calls: seq<Trace>, ins: Incoming, b: nat) returns (analysis: FnCallRanges)
    requires |calls| == |g| && EdgesDescribe(g, calls, ins, b) && EdgesExact(g, calls, ins) && 0 < b < |g| && b in ins
    ensures fresh(analysis) && Proper(analysis.ranges) && BlockDescribes(g, calls, analysis.ranges, b)
    ensures Witnessed(analysis.ranges, TracesTo(g, calls, b, 0))
  {
    hide EdgesDescribe, SourcesDescribed, Proper, Describes, Met, EdgesExact, Witnessed, TracesTo;
    IncomingAt(g, calls, ins, b);
    var first :| first in ins[b];
    analysis := new FnCallRanges(ins[b][first]);
    SourceDescribed(g, calls, ins, b, first);
    SourceWitnessed(g, calls, ins, b, first);
    var rest := ins[b].Keys - {first};
    ghost var done := {first};
    while rest != {}
      invariant fresh(analysis) && Proper(analysis.ranges) && Witnessed(analysis.ranges, TracesTo(g, calls, b, 0))
      invariant rest + done == ins[b].Keys && SourcesDescribed(g, calls, analysis.ranges, b, done)
      decreases |rest|
    {
      var a :| a in rest;
      var other := new FnCallRanges(ins[b][a]);
      SourceDescribed(g, calls, ins, b, a);
      SourceWitnessed(g, calls, ins, b, a);
      MergedDescribe(g, calls, analysis.ranges, other.ranges, b, done, a);
      analysis.MeetWith(other);
      rest, done := rest - {a}, done + {a};
    }
    assert done == ins[b].Keys;
    AllSources(g, calls, ins, b, analysis.ranges);
  }

  lemma IncomingAt(g: Cfg.Graph, calls: seq<Trace>, ins: Incoming, b: nat)
    requires |calls| == |g| && EdgesDescribe(g, calls, ins, b) && b in ins
    ensures ins[b] != map[] && ins[b].Keys != {} && forall a :: a in ins[b] ==> Proper(ins[b][a])
  {
    var m := ins[b];
    assert m.Keys == {} ==> m == map[];
  }

  lemma AllSources(g: Cfg.Graph, calls: seq<Trace>, ins: Incoming, b: nat, r: Ranges)
    requires |calls| == |g| && EdgesDescribe(g, calls, ins, b) && 0 < b < |g|
    requires b in ins && SourcesDescribed(g, calls, r, b, ins[b].Keys)
    ensures BlockDescribes(g, calls, r, b)
  {
    hide Describes;
    forall p | ForwardPath(g, p, b)
      ensures Describes(r, PathTrace(calls, p))
    {
      LastStep(g, calls, p, b);
      assert EdgeDescribes(g, calls, ins, p[|p| - 2], b);
    }
  }

  /** The paths to `b`, extended by the first `i` calls of `b`. */
  ghost predicate WithCalls(g: Cfg.Graph, calls: seq<Trace>, r: Ranges, b: nat, i: nat)
    requires |calls| == |g| && b < |g| && i <= |calls[b]|
  {
    forall p :: ForwardPath(g, p, b) ==> Describes(r, PathTrace(calls, p) + calls[b][..i])
  }

  lemma WithNextCall(g: Cfg.Graph, calls: seq<Trace>, r: Ranges, b: nat, i: nat)
    requires |calls| == |g| && b < |g| && i < |calls[b]| && WithCalls(g, calls, r, b, i)
    ensures WithCalls(g, calls, Incremented(r, calls[b][i].0, calls[b][i].1), b, i + 1)
  {
    hide Describes, Incremented;
    var r' := Incremented(r, calls[b][i].0, calls[b][i].1);
    forall p | ForwardPath(g, p, b)
      ensures Describes(r', PathTrace(calls, p) + calls[b][..i + 1])
    {
      var t := PathTrace(calls, p) + calls[b][..i];
      IncrementDescribes(r, t, calls[b][i].0, calls[b][i].1);
      assert t + [(calls[b][i].0, calls[b][i].1)] == PathTrace(calls, p) + calls[b][..i + 1];
    }
  }

  /** The calls of block `b` are executed, in order. */
  method CountCalls(g: Cfg.Graph, calls: seq<Trace>, b: nat, analysis: FnCallRanges)
    requires |calls| == |g| && b < |g| && Proper(analysis.ranges) && BlockDescribes(g, calls, analysis.ranges, b)
    requires Witnessed(analysis.ranges, TracesTo(g, calls, b, 0))
    modifies analysis
    ensures Proper(analysis.ranges) && WithCalls(g, calls, analysis.ranges, b, |calls[b]|)
    ensures Witnessed(analysis.ranges, TracesTo(g, calls, b, |calls[b]|))
  {
    WithNoCalls(g, calls, analysis.ranges, b);
    hide Proper, Describes, BlockDescribes, WithCalls, Incremented, Witnessed, TracesTo;
    var i: nat := 0;
    while i < |calls[b]|
      invariant i <= |calls[b]| && Proper(analysis.ranges) && WithCalls(g, calls, analysis.ranges, b, i)
      invariant Witnessed(analysis.ranges, TracesTo(g, calls, b, i))
    {
      WithNextCall(g, calls, analysis.ranges, b, i);
      NextCallWitnessed(g, calls, analysis.ranges, b, i);
      analysis.Inc(calls[b][i].0, calls[b][i].1);
      i := i + 1;
    }
  }

  lemma WithNoCalls(g: Cfg.Graph, calls: seq<Trace>, r: Ranges, b: nat)
    requires |calls| == |g| && b < |g| && BlockDescribes(g, calls, r, b)
    ensures WithCalls(g, calls, r, b, 0)
  {
    hide Describes;
    forall p | ForwardPath(g, p, b)
      ensures Describes(r, PathTrace(calls, p) + calls[b][..0])
    {
      assert PathTrace(calls, p) + calls[b][..0] == PathTrace(calls, p);
    }
  }

  /** The edges to the first `j` targets of `b` have been recorded. */
  ghost predicate TargetsDescribed(g: Cfg.Graph, calls: seq<Trace>, ins: Incoming, b: nat, j: nat)
    requires |calls| == |g| && b < |g| && j <= |g[b]|
  {
    EdgesDescribe(g, calls, ins, b) && forall i :: 0 <= i < j && g[b][i] > b ==> EdgeDescribes(g, calls, ins, b, g[b][i])
  }

  function Put(ins: Incoming, d: nat, a: nat, r: Ranges): Incoming {
    var old0: map<nat, Ranges> := if d in ins then ins[d] else map[];
    ins[d := old0[a := r]]
  }

  lemma PutDescribes(g: Cfg.Graph, calls: seq<Trace>, ins: Incoming, b: nat, j: nat, r: Ranges)
    requires |calls| == |g| && b < |g| && j < |g[b]| && TargetsDescribed(g, calls, ins, b, j)
    requires Proper(r) && WithCalls(g, calls, r, b, |calls[b]|)
    ensures TargetsDescribed(g, calls, if g[b][j] > b then Put(ins, g[b][j], b, r) else ins, b, j + 1)
  {
    hide Describes, Proper;
    var d := g[b][j];
    if d > b {
      var ins' := Put(ins, d, b, r);
      assert calls[b][..|calls[b]|] == calls[b];
      assert EdgeDescribes(g, calls, ins', b, d);
      forall a: nat, x: nat | a < |g| && EdgeDescribes(g, calls, ins, a, x) && !(a == b && x == d)
        ensures EdgeDescribes(g, calls, ins', a, x)
      {
        forall p | ForwardPath(g, p, a)
          ensures x in ins' && a in ins'[x] && Describes(ins'[x][a], PathTrace(calls, p) + calls[a])
        {
          assert x in ins && a in ins[x];
        }
      }
      assert IncomingProper(ins') by {
        var m := ins'[d];
        assert b in m && m != map[];
      }
      hide EdgeDescribes, IncomingProper;
      assert EdgesDescribe(g, calls, ins', b);
    }
  }

  /** `State::addJump` to every target of `b`; jumps back are not recorded here. */
  method PushAlong(g: Cfg.Graph, calls: seq<Trace>, ins0: Incoming, b: nat, r: Ranges) returns (ins: Incoming)
    requires |calls| == |g| && b < |g| && EdgesDescribe(g, calls, ins0, b) && EdgesExact(g, calls, ins0)
    requires Proper(r) && WithCalls(g, calls, r, b, |calls[b]|) && Witnessed(r, TracesTo(g, calls, b, |calls[b]|))
    ensures EdgesDescribe(g, calls, ins, b + 1) && EdgesExact(g, calls, ins)
  {
    ins := ins0;
    hide Describes, Proper, WithCalls, EdgeDescribes, EdgesExact, Witnessed, TracesTo;
    var j: nat := 0;
    while j < |g[b]|
      invariant j <= |g[b]| && TargetsDescribed(g, calls, ins, b, j) && EdgesExact(g, calls, ins)
    {
      hide TargetsDescribed, Put;
      PutDescribes(g, calls, ins, b, j, r);
      if g[b][j] > b {
        PutExact(g, calls, ins, b, j, r);
        ins := Put(ins, g[b][j], b, r);
      }
      j := j + 1;
    }
  }

  /** The ranges describe every path to the block, and where there is one, they record
      nothing that comes from no path. */
  ghost predicate RangesExact(g: Cfg.Graph, calls: seq<Trace>, r: Ranges, b: nat)
    requires |calls| == |g| && b < |g|
  {
    && Proper(r) && BlockDescribes(g, calls, r, b)
    && forall p :: ForwardPath(g, p, b) ==> Witnessed(r, TracesTo(g, calls, b, 0)) && CountsExact(g, calls, r, b)
  }

  /** Over all blocks in order: at every block, the ranges are those of the paths to it. */
  method Propagate(g: Cfg.Graph, calls: seq<Trace>) returns (starts: seq<Ranges>)
    requires |calls| == |g| && |g| > 0
    ensures |starts| == |g|
    ensures forall b: nat :: b < |g| ==> RangesExact(g, calls, starts[b], b)
  {
    starts := [];
    var ins: Incoming := map[];
    NothingPushed(g, calls);
    var b: nat := 0;
    while b < |g|
      invariant b <= |g| && |starts| == b && EdgesDescribe(g, calls, ins, b) && EdgesExact(g, calls, ins)
      invariant forall c: nat :: c < b ==> RangesExact(g, calls, starts[c], c)
    {
      hide EdgesDescribe, EdgesExact, RangesExact;
      var start;
      start, ins := ExecuteBlock(g, calls, ins, b);
      starts, b := starts + [start], b + 1;
    }
  }

  /** The ranges at the start of one block, and those at its jumps. */
  method ExecuteBlock(g: Cfg.Graph, calls: seq<Trace>, ins0: Incoming, b: nat) returns (start: Ranges, ins: Incoming)
    requires |calls| == |g| && b < |g| && EdgesDescribe(g, calls, ins0, b) && EdgesExact(g, calls, ins0)
    ensures RangesExact(g, calls, start, b) && EdgesDescribe(g, calls, ins, b + 1) && EdgesExact(g, calls, ins)
  {
    hide *;
    EmptyProper();
    if b > 0 && b !in ins0 {
      NoPathsOut(g, calls, ins0, b);
      start, ins := map[], ins0;
      NotReached(g, calls, start, b);
    } else {
      var analysis := new FnCallRanges(map[]);
      if b > 0 {
        analysis := MergeSources(g, calls, ins0, b);
      } else {
        EmptyDescribes(g, calls);
        EntryWitnessed(g, calls);
      }
      start := analysis.ranges;
      TracesAre(g, calls, start, b);
      AllExact(g, calls, start, b);
      CountCalls(g, calls, b, analysis);
      ins := PushAlong(g, calls, ins0, b, analysis.ranges);
    }
  }

  lemma NothingPushed(g: Cfg.Graph, calls: seq<Trace>)
    requires |calls| == |g|
    ensures EdgesDescribe(g, calls, map[], 0) && EdgesExact(g, calls, map[])
  {
  }

  lemma NotReached(g: Cfg.Graph, calls: seq<Trace>, r: Ranges, b: nat)
    requires |calls| == |g| && b < |g| && Proper(r) && BlockDescribes(g, calls, r, b) && forall p :: !ForwardPath(g, p, b)
    ensures RangesExact(g, calls, r, b)
  {
  }

  lemma AllExact(g: Cfg.Graph, calls: seq<Trace>, r: Ranges, b: nat)
    requires |calls| == |g| && b < |g| && Proper(r) && BlockDescribes(g, calls, r, b)
    requires Witnessed(r, TracesTo(g, calls, b, 0)) && CountsExact(g, calls, r, b)
    ensures RangesExact(g, calls, r, b)
  {
    hide Proper, BlockDescribes, Witnessed, TracesTo, CountsExact, ForwardPath;
  }

  lemma PathIsRecorded(g: Cfg.Graph, calls: seq<Trace>, ins: Incoming, p: seq<nat>, b: nat)
    requires |calls| == |g| && EdgesDescribe(g, calls, ins, b) && 0 < b < |g|
    ensures ForwardPath(g, p, b) ==> b in ins
  {
    if ForwardPath(g, p, b) {
      LastStep(g, calls, p, b);
      var a := p[|p| - 2];
      assert EdgeDescribes(g, calls, ins, a, b) && ForwardPath(g, p[..|p| - 1], a);
    }
  }

  /** A block without recorded edges is on no path. */
  lemma NoPathsOut(g: Cfg.Graph, calls: seq<Trace>, ins: Incoming, b: nat)
    requires |calls| == |g| && EdgesDescribe(g, calls, ins, b) && 0 < b < |g| && b !in ins
    ensures EdgesDescribe(g, calls, ins, b + 1) && BlockDescribes(g, calls, map[], b)
    ensures forall p :: !ForwardPath(g, p, b)
  {
    forall p
      ensures !ForwardPath(g, p, b)
    {
      PathIsRecorded(g, calls, ins, p, b);
    }
    hide Describes, ForwardPath;
  }

  lemma EmptyProper()
    ensures Proper(map[])
  {
  }

  // ----- and no others ---------------------------------------------------------

  /** `t` is the trace of a path to `b` and of the first `i` calls of `b`. */
  ghost predicate Reached(g: Cfg.Graph, calls: seq<Trace>, b: nat, i: nat, t: Trace)
    requires |calls| == |g| && b < |g| && i <= |calls[b]|
  {
    exists p :: ForwardPath(g, p, b) && t == PathTrace(calls, p) + calls[b][..i]
  }

  ghost function TracesTo(g: Cfg.Graph, calls: seq<Trace>, b: nat, i: nat): iset<Trace>
    requires |calls| == |g| && b < |g| && i <= |calls[b]|
  {
    iset t: Trace | Reached(g, calls, b, i, t)
  }

  /** What is recorded at a jump comes from a path along it. */
  ghost predicate EdgesExact(g: Cfg.Graph, calls: seq<Trace>, ins: Incoming)
    requires |calls| == |g|
  {
    forall d: nat, a: nat :: d in ins && a in ins[d] ==> EdgeExact(g, calls, a, d, ins[d][a])
  }

  ghost predicate EdgeExact(g: Cfg.Graph, calls: seq<Trace>, a: nat, d: nat, r: Ranges)
    requires |calls| == |g|
  {
    a < |g| && a < d && Cfg.Edge(g, a, d) && Witnessed(r, TracesTo(g, calls, a, |calls[a]|))
  }

  /** The possible numbers of calls at a block are those of the paths to it. */
  ghost predicate CountsExact(g: Cfg.Graph, calls: seq<Trace>, r: Ranges, b: nat)
    requires |calls| == |g|
  {
    forall fn: nat, n: nat :: Possible(r, fn, n) <==> exists p :: ForwardPath(g, p, b) && Count(PathTrace(calls, p), fn) == n
  }

  lemma EntryWitnessed(g: Cfg.Graph, calls: seq<Trace>)
    requires |calls| == |g| > 0
    ensures Witnessed(map[], TracesTo(g, calls, 0, 0))
  {
    assert ForwardPath(g, [0], 0);
    var ts := TracesTo(g, calls, 0, 0);
    var t: Trace := [];
    assert t == PathTrace(calls, [0]) + calls[0][..0];
    assert Reached(g, calls, 0, 0, t);
    assert t in ts;
    forall fn: nat
      ensures HasCount(ts, fn, 0)
    {
      assert Count(t, fn) == 0;
    }
  }

  /** A path and one more jump. */
  lemma OneMoreJump(g: Cfg.Graph, calls: seq<Trace>, p: seq<nat>, a: nat, b: nat)
    requires |calls| == |g| && ForwardPath(g, p, a) && a < b < |g| && Cfg.Edge(g, a, b)
    ensures ForwardPath(g, p + [b], b) && PathTrace(calls, p + [b]) == PathTrace(calls, p) + calls[a]
  {
    var q := p + [b];
    forall i {:trigger q[i + 1]} | 0 <= i < |q| - 1
      ensures q[i] < q[i + 1] && Cfg.Edge(g, q[i], q[i + 1])
    {
      if i + 1 < |p| {
        assert q[i + 1] == p[i + 1];
      }
    }
    assert q[..|q| - 1] == p;
  }

  lemma TracesAlong(g: Cfg.Graph, calls: seq<Trace>, a: nat, b: nat)
    requires |calls| == |g| && a < b < |g| && Cfg.Edge(g, a, b)
    ensures TracesTo(g, calls, a, |calls[a]|) <= TracesTo(g, calls, b, 0)
  {
    forall t | Reached(g, calls, a, |calls[a]|, t)
      ensures Reached(g, calls, b, 0, t)
    {
      var p :| ForwardPath(g, p, a) && t == PathTrace(calls, p) + calls[a][..|calls[a]|];
      OneMoreJump(g, calls, p, a, b);
      hide ForwardPath, PathTrace;
      assert calls[a][..|calls[a]|] == calls[a] && t == PathTrace(calls, p + [b]) + calls[b][..0];
    }
  }

  lemma SourceWitnessed(g: Cfg.Graph, calls: seq<Trace>, ins: Incoming, b: nat, a: nat)
    requires |calls| == |g| && EdgesExact(g, calls, ins) && b < |g| && b in ins && a in ins[b]
    ensures Witnessed(ins[b][a], TracesTo(g, calls, b, 0))
  {
    hide Witnessed, TracesTo;
    assert EdgeExact(g, calls, a, b, ins[b][a]);
    TracesAlong(g, calls, a, b);
    MoreTraces(ins[b][a], TracesTo(g, calls, a, |calls[a]|), TracesTo(g, calls, b, 0));
  }

  lemma NextCallWitnessed(g: Cfg.Graph, calls: seq<Trace>, r: Ranges, b: nat, i: nat)
    requires |calls| == |g| && b < |g| && i < |calls[b]| && Witnessed(r, TracesTo(g, calls, b, i))
    ensures Witnessed(Incremented(r, calls[b][i].0, calls[b][i].1), TracesTo(g, calls, b, i + 1))
  {
    var fn, access := calls[b][i].0, calls[b][i].1;
    var ts, ts' := TracesTo(g, calls, b, i), TracesTo(g, calls, b, i + 1);
    assert Extended(ts, fn, access) <= ts' by {
      hide ForwardPath, PathTrace;
      forall t | Reached(g, calls, b, i, t)
        ensures Reached(g, calls, b, i + 1, t + [(fn, access)])
      {
        PathsWithin(g, b);
        var p :| ForwardPath(g, p, b) && t == PathTrace(calls, p) + calls[b][..i];
        assert t + [(fn, access)] == PathTrace(calls, p) + calls[b][..i + 1];
      }
    }
    hide Witnessed, TracesTo, Incremented, Extended;
    IncrementWitnessed(r, ts, fn, access);
    MoreTraces(Incremented(r, fn, access), Extended(ts, fn, access), ts');
  }

  lemma PathsWithin(g: Cfg.Graph, b: nat)
    ensures forall p, i :: ForwardPath(g, p, b) && 0 <= i < |p| ==> p[i] < |g|
  {
  }

  lemma PutExact(g: Cfg.Graph, calls: seq<Trace>, ins: Incoming, b: nat, j: nat, r: Ranges)
    requires |calls| == |g| && b < |g| && j < |g[b]| && g[b][j] > b && EdgesExact(g, calls, ins)
    requires Witnessed(r, TracesTo(g, calls, b, |calls[b]|))
    ensures EdgesExact(g, calls, Put(ins, g[b][j], b, r))
  {
    hide Witnessed, TracesTo;
    assert EdgeExact(g, calls, b, g[b][j], r);
    hide EdgeExact;
  }

  /** Where every path is described and everything comes from one, the counts are exact. */
  lemma TracesAre(g: Cfg.Graph, calls: seq<Trace>, r: Ranges, b: nat)
    requires |calls| == |g| && b < |g| && Witnessed(r, TracesTo(g, calls, b, 0)) && BlockDescribes(g, calls, r, b)
    ensures CountsExact(g, calls, r, b)
  {
    var ts := TracesTo(g, calls, b, 0);
    forall fn: nat, n: nat
      ensures Possible(r, fn, n) ==> exists p :: ForwardPath(g, p, b) && Count(PathTrace(calls, p), fn) == n
    {
      hide ForwardPath, Possible, PathTrace, Count;
      if Possible(r, fn, n) {
        assert HasCount(ts, fn, n);
        var t: Trace :| t in ts && Count(t, fn) == n;
        PathsWithin(g, b);
        var p :| ForwardPath(g, p, b) && t == PathTrace(calls, p) + calls[b][..0];
        assert t == PathTrace(calls, p);
      }
    }
    forall p, fn: nat | ForwardPath(g, p, b)
      ensures Possible(r, fn, Count(PathTrace(calls, p), fn))
    {
      MetSelf(r, PathTrace(calls, p));
    }
  }
}
