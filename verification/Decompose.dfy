/** Decomposition of a term into guarded leaves: the constructor of `DisjointExpr<expr>`
    and `simplify` (smt/exprs.cpp). */
module Decompose {
  import opened Terms
  import opened Guarded

  /** `simplify` swaps the operands of an addition. */
  ghost predicate Commutes(v: Valuation) {
    forall x, y :: v.plus(x, y) == v.plus(y, x)
  }

  /** `d` means the same as `e` under `v`: exactly one guard holds, and its value is
      that of `e`. */
  ghost predicate Decomposes(d: Disj<Term>, e: Term, v: Valuation) {
    Exclusive(d, v) && Covered(d, v) && forall x :: Selects(d, v, x) ==> Eval(x, v) == Eval(e, v)
  }

  // ----- the local rewrite ---------------------------------------------------

  datatype Option<T> = None | Some(value: T)

  function TestOperand(a: Term, b: Term, cond: Cond, negate: bool): Option<Term> {
    if b.Extract? && b.of.Ite? && b.of.cond == cond then
      Some(Add(a, Extract(if negate then b.of.else0 else b.of.then0, b.high, b.low)))
    else None
  }

  function Simplify(e: Term, cond: Cond, negate: bool): Term {
    if !e.Add? then e
    else
      var r := TestOperand(e.left, e.right, cond, negate);
      if r.Some? then r.value
      else
        var s := TestOperand(e.right, e.left, cond, negate);
        if s.Some? then s.value else e
  }

  lemma TestMeans(a: Term, b: Term, cond: Cond, negate: bool, v: Valuation)
    requires Commutes(v) && Holds(cond, v) == !negate
    ensures var r := TestOperand(a, b, cond, negate);
      r.Some? ==> Eval(r.value, v) == Eval(Add(a, b), v) == Eval(Add(b, a), v)
  {
    if TestOperand(a, b, cond, negate).Some? {
      var chosen := if negate then b.of.else0 else b.of.then0;
      assert Eval(b.of, v) == Eval(chosen, v);
      assert Eval(Extract(chosen, b.high, b.low), v) == Eval(b, v);
    }
  }

  lemma SimplifyMeans(e: Term, cond: Cond, negate: bool, v: Valuation)
    requires Commutes(v) && Holds(cond, v) == !negate
    ensures Eval(Simplify(e, cond, negate), v) == Eval(e, v)
  {
    if e.Add? {
      TestMeans(e.left, e.right, cond, negate, v);
      TestMeans(e.right, e.left, cond, negate, v);
    }
  }

  /** The condition that the left guard decides, and which way. */
  function Polarity(dom: Cond): (Cond, bool) {
    if dom.Not? then (dom.neg, true) else (dom, false)
  }

  /** Position of the first entry with this very guard, or the length. */
  function Lookup(d: Disj<Term>, dom: Cond): (i: nat)
    ensures i <= |d| && (i < |d| ==> d[i].1 == dom)
  {
    if d == [] then 0 else if d[0].1 == dom then 0 else 1 + Lookup(d[1..], dom)
  }

  // ----- what is left of conditionals ------------------------------------------

  ghost predicate NoIte(d: Disj<Term>) {
    forall i :: 0 <= i < |d| ==> !d[i].0.Ite?
  }

  /** The term is a conditional in form at most: it always has the value of a term that is
      none. */
  ghost predicate Single(t: Term) {
    exists y: Term :: !y.Ite? && forall v :: Commutes(v) ==> Eval(t, v) == Eval(y, v)
  }

  /** The term is no conditional, and neither concatenates nor extracts from one. */
  ghost predicate IsPlain(t: Term) {
    !t.Ite? && (t.Concat? ==> Single(t.hi) && Single(t.lo)) && (t.Extract? ==> Single(t.of))
  }

  ghost predicate AllPlain(d: Disj<Term>) {
    forall i :: 0 <= i < |d| ==> IsPlain(d[i].0)
  }

  lemma AddKeeps(d: Disj<Term>, x: Term, dom: Cond)
    ensures NoIte(d) && !x.Ite? ==> NoIte(AddGuarded(d, x, dom))
    ensures AllPlain(d) && IsPlain(x) ==> AllPlain(AddGuarded(d, x, dom))
  {
    hide IsPlain, MkOr;
  }

  lemma SingleSelf(t: Term)
    requires !t.Ite?
    ensures Single(t)
  {
  }

  /** A term that decomposes into one entry is a conditional in form at most. */
  lemma OneEntry(d: Disj<Term>, t: Term)
    requires |d| == 1 && NoIte(d) && forall v :: Commutes(v) ==> Decomposes(d, t, v)
    ensures Single(t)
  {
    var y := d[0].0;
    hide Eval, Holds, Commutes;
    forall v | Commutes(v)
      ensures Eval(t, v) == Eval(y, v)
    {
      var i: nat :| Chosen(d, v, i);
      assert Selects(d, v, y);
    }
  }

  lemma SimplifyNoIte(e: Term, cond: Cond, negate: bool)
    requires !e.Ite?
    ensures !Simplify(e, cond, negate).Ite?
  {
  }

  /** A pair of values that are no conditionals. */
  lemma PairPlain(d: Disj<Term>, a: Term, b: Term, dom: Cond)
    ensures NoIte(d) ==> NoIte(AddGuarded(d, Concat(a, b), dom))
    ensures AllPlain(d) && !a.Ite? && !b.Ite? ==> AllPlain(AddGuarded(d, Concat(a, b), dom))
  {
    AddKeeps(d, Concat(a, b), dom);
    hide Single, AllPlain, NoIte;
    if !a.Ite? && !b.Ite? {
      SingleSelf(a);
      SingleSelf(b);
    }
  }

  // ----- how many entries --------------------------------------------------------

  /** An upper bound for the entries of a term. */
  function Ways(t: Term): nat {
    match t
    case Concat(a, b) => Ways(a) * Ways(b)
    case Extract(a, _, _) => Ways(a)
    case Ite(_, a, b) => Ways(a) + Ways(b)
    case _ => 1
  }

  function WorkWays(work: Disj<Term>): nat {
    if work == [] then 0 else WorkWays(work[..|work| - 1]) + Ways(work[|work| - 1].0)
  }

  lemma ProductGrows(a: nat, b: nat, x: nat, y: nat)
    requires a <= x && b <= y
    ensures a * b <= x * y
  {
    assert a * b <= x * b && x * b <= x * y;
  }

  lemma {:induction false} AtLeastOneWay(t: Term)
    ensures Ways(t) >= 1
  {
    match t
    case Concat(a, b) =>
      AtLeastOneWay(a);
      AtLeastOneWay(b);
      ProductGrows(1, 1, Ways(a), Ways(b));
    case Extract(a, _, _) => AtLeastOneWay(a);
    case Ite(_, a, b) =>
      AtLeastOneWay(a);
      AtLeastOneWay(b);
    case _ =>
  }

  lemma {:induction false} WorkAtMost(work: Disj<Term>)
    ensures |work| <= WorkWays(work)
  {
    if work != [] {
      WorkAtMost(work[..|work| - 1]);
      AtLeastOneWay(work[|work| - 1].0);
    }
  }

  lemma WorkWaysPush(work: Disj<Term>, x: (Term, Cond))
    ensures WorkWays(work + [x]) == WorkWays(work) + Ways(x.0)
  {
    assert (work + [x])[..|work|] == work;
  }

  lemma SplitWays(work: Disj<Term>, c1: Cond, c2: Cond)
    requires work != [] && work[|work| - 1].0.Ite?
    ensures var t := work[|work| - 1].0; WorkWays(work[..|work| - 1] + [(t.then0, c1), (t.else0, c2)]) == WorkWays(work)
  {
    var t := work[|work| - 1].0;
    var rest := work[..|work| - 1];
    WorkWaysPush(rest, (t.then0, c1));
    WorkWaysPush(rest + [(t.then0, c1)], (t.else0, c2));
    assert rest + [(t.then0, c1), (t.else0, c2)] == rest + [(t.then0, c1)] + [(t.else0, c2)];
  }

  lemma ConcatWays(a: Term, b: Term, n: nat, m: nat)
    requires n <= Ways(a) && m <= Ways(b)
    ensures n * m <= Ways(Concat(a, b)) && Ways(a) <= Ways(Concat(a, b)) && Ways(b) <= Ways(Concat(a, b))
  {
    AtLeastOneWay(a);
    AtLeastOneWay(b);
    ProductGrows(n, m, Ways(a), Ways(b));
    ProductGrows(1, Ways(b), Ways(a), Ways(b));
    ProductGrows(Ways(a), 1, Ways(a), Ways(b));
  }

  lemma AddAtMost(d: Disj<Term>, x: Term, dom: Cond)
    ensures |AddGuarded(d, x, dom)| <= |d| + 1
  {
    hide MkOr;
  }

  // ----- adding the parts of one term -----------------------------------------

  /** `d` has grown from `d0` by an entry of value `val`, which applies if `hit`. */
  ghost predicate Grown(d0: Disj<Term>, d: Disj<Term>, v: Valuation, hit: bool, val: Bits) {
    && Exclusive(d, v) && (Covered(d, v) <==> Covered(d0, v) || hit)
    && forall x :: Selects(d, v, x) ==> Selects(d0, v, x) || (hit && Eval(x, v) == val)
  }

  /** `d0` accepts an entry guarded by `c`. */
  ghost predicate Accepts(d0: Disj<Term>, c: Cond, v: Valuation) {
    Commutes(v) && Exclusive(d0, v) && !(Covered(d0, v) && Holds(c, v))
  }

  /** One of the first `n` guards holds. */
  ghost predicate Within<T>(d: Disj<T>, v: Valuation, n: nat) {
    exists k: nat :: k < n && Chosen(d, v, k)
  }

  lemma WithinStep<T>(d: Disj<T>, v: Valuation, n: nat)
    requires Exclusive(d, v) && n < |d|
    ensures Within(d, v, n + 1) <==> Within(d, v, n) || Holds(d[n].1, v)
    ensures !(Within(d, v, n) && Holds(d[n].1, v))
  {
    if Holds(d[n].1, v) {
      assert Chosen(d, v, n);
    }
    if Within(d, v, n + 1) {
      var k: nat :| k < n + 1 && Chosen(d, v, k);
    }
  }

  lemma WithinAll<T>(d: Disj<T>, v: Valuation)
    ensures Within(d, v, |d|) <==> Covered(d, v)
  {
    if Covered(d, v) {
      var i: nat :| Chosen(d, v, i);
    }
    if Within(d, v, |d|) {
      var k: nat :| k < |d| && Chosen(d, v, k);
    }
  }

  /** Adding one more entry to what has grown so far. */
  lemma GrowStep(d0: Disj<Term>, d: Disj<Term>, v: Valuation, hit: bool, val: Bits, x: Term, dom: Cond)
    requires Grown(d0, d, v, hit, val) && !(hit && Holds(dom, v)) && !(Covered(d0, v) && Holds(dom, v))
    requires Holds(dom, v) ==> Eval(x, v) == val
    ensures Grown(d0, AddGuarded(d, x, dom), v, hit || Holds(dom, v), val)
  {
    AddMeans(d, x, dom, v);
  }

  lemma ChosenEval(d: Disj<Term>, e: Term, v: Valuation, i: nat)
    requires Decomposes(d, e, v) && Chosen(d, v, i)
    ensures Eval(d[i].0, v) == Eval(e, v)
  {
    assert Selects(d, v, d[i].0);
  }

  /** Pairs entry `i` of the left operand with what the right operand is under its guard. */
  method AddRow(d0: Disj<Term>, ghost dStart: Disj<Term>, ghost a: Term, ghost b: Term, c: Cond, lhs: Disj<Term>, rhs: Disj<Term>, i: nat)
    returns (d: Disj<Term>)
    requires i < |lhs|
    requires forall v :: Commutes(v) ==> Decomposes(lhs, a, v) && Decomposes(rhs, b, v)
    requires forall v :: Accepts(dStart, c, v) ==> Grown(dStart, d0, v, Holds(c, v) && Within(lhs, v, i), Eval(Concat(a, b), v))
    ensures forall v :: Accepts(dStart, c, v) ==> Grown(dStart, d, v, Holds(c, v) && Within(lhs, v, i + 1), Eval(Concat(a, b), v))
    ensures (NoIte(d0) ==> NoIte(d)) && (AllPlain(d0) && NoIte(lhs) && NoIte(rhs) ==> AllPlain(d)) && |d| <= |d0| + |rhs|
  {
    d := d0;
    var (lhsVal, lhsDom) := lhs[i];
    var k := Lookup(rhs, lhsDom);
    hide IsPlain, AllPlain;
    if k < |rhs| {
      AddAtMost(d, Concat(lhsVal, rhs[k].0), MkAnd(c, lhsDom));
      PairPlain(d, lhsVal, rhs[k].0, MkAnd(c, lhsDom));
      d := AddGuarded(d, Concat(lhsVal, rhs[k].0), MkAnd(c, lhsDom));
      forall v | Accepts(dStart, c, v)
        ensures Grown(dStart, d, v, Holds(c, v) && Within(lhs, v, i + 1), Eval(Concat(a, b), v))
      {
        RowByLookup(dStart, d0, a, b, c, lhs, rhs, i, k, v);
      }
    } else {
      var (from, negate) := Polarity(lhsDom);
      var j := 0;
      forall v | Accepts(dStart, c, v)
        ensures !Within(rhs, v, 0)
      {
      }
      while j < |rhs|
        invariant j <= |rhs| && |d| <= |d0| + j && (NoIte(d0) ==> NoIte(d)) && (AllPlain(d0) && NoIte(lhs) && NoIte(rhs) ==> AllPlain(d))
        invariant forall v :: Accepts(dStart, c, v) ==>
          Grown(dStart, d, v, Holds(c, v) && (Within(lhs, v, i) || (Holds(lhsDom, v) && Within(rhs, v, j))), Eval(Concat(a, b), v))
      {
        ghost var before := d;
        var (rhsVal, rhsDom) := rhs[j];
        RowPlain(d, lhs, rhs, i, j, from, negate, MkAnd(MkAnd(c, lhsDom), rhsDom));
        AddAtMost(d, Concat(lhsVal, Simplify(rhsVal, from, negate)), MkAnd(MkAnd(c, lhsDom), rhsDom));
        d := AddGuarded(d, Concat(lhsVal, Simplify(rhsVal, from, negate)), MkAnd(MkAnd(c, lhsDom), rhsDom));
        forall v | Accepts(dStart, c, v)
          ensures Grown(dStart, d, v, Holds(c, v) && (Within(lhs, v, i) || (Holds(lhsDom, v) && Within(rhs, v, j + 1))), Eval(Concat(a, b), v))
        {
          RowByProduct(dStart, before, a, b, c, lhs, rhs, i, j, v);
        }
        j := j + 1;
      }
      forall v | Accepts(dStart, c, v)
        ensures Grown(dStart, d, v, Holds(c, v) && Within(lhs, v, i + 1), Eval(Concat(a, b), v))
      {
        WithinAll(rhs, v);
        WithinStep(lhs, v, i);
      }
    }
  }

  lemma RowPlain(d: Disj<Term>, lhs: Disj<Term>, rhs: Disj<Term>, i: nat, j: nat, from: Cond, negate: bool, dom: Cond)
    requires i < |lhs| && j < |rhs|
    ensures var x := Concat(lhs[i].0, Simplify(rhs[j].0, from, negate));
      && (NoIte(d) ==> NoIte(AddGuarded(d, x, dom)))
      && (AllPlain(d) && NoIte(lhs) && NoIte(rhs) ==> AllPlain(AddGuarded(d, x, dom)))
  {
    PairPlain(d, lhs[i].0, Simplify(rhs[j].0, from, negate), dom);
    hide AllPlain, AddGuarded, Simplify;
    if NoIte(rhs) {
      SimplifyNoIte(rhs[j].0, from, negate);
    }
  }

  lemma EvalConcat(a: Term, b: Term, x: Term, v: Valuation)
    ensures Eval(Concat(a, b), v) == Eval(a, v) + Eval(b, v)
    ensures forall y :: Eval(Concat(x, y), v) == Eval(x, v) + Eval(y, v)
  {
  }

  lemma RowByLookup(dStart: Disj<Term>, d: Disj<Term>, a: Term, b: Term, c: Cond, lhs: Disj<Term>, rhs: Disj<Term>, i: nat, k: nat, v: Valuation)
    requires i < |lhs| && k < |rhs| && rhs[k].1 == lhs[i].1
    requires Accepts(dStart, c, v) && Decomposes(lhs, a, v) && Decomposes(rhs, b, v)
    requires Grown(dStart, d, v, Holds(c, v) && Within(lhs, v, i), Eval(Concat(a, b), v))
    ensures Grown(dStart, AddGuarded(d, Concat(lhs[i].0, rhs[k].0), MkAnd(c, lhs[i].1)), v, Holds(c, v) && Within(lhs, v, i + 1), Eval(Concat(a, b), v))
  {
    EvalConcat(a, b, lhs[i].0, v);
    hide Holds, Eval, MkAnd, Simplify, AddGuarded;
    AndMeans(c, lhs[i].1, v);
    WithinStep(lhs, v, i);
    if Holds(lhs[i].1, v) {
      ChosenEval(lhs, a, v, i);
      ChosenEval(rhs, b, v, k);
    }
    GrowStep(dStart, d, v, Holds(c, v) && Within(lhs, v, i), Eval(Concat(a, b), v), Concat(lhs[i].0, rhs[k].0), MkAnd(c, lhs[i].1));
  }

  lemma RowByProduct(dStart: Disj<Term>, d: Disj<Term>, a: Term, b: Term, c: Cond, lhs: Disj<Term>, rhs: Disj<Term>, i: nat, j: nat, v: Valuation)
    requires i < |lhs| && j < |rhs|
    requires Accepts(dStart, c, v) && Decomposes(lhs, a, v) && Decomposes(rhs, b, v)
    requires Grown(dStart, d, v, Holds(c, v) && (Within(lhs, v, i) || (Holds(lhs[i].1, v) && Within(rhs, v, j))), Eval(Concat(a, b), v))
    ensures var (from, negate) := Polarity(lhs[i].1);
      Grown(dStart, AddGuarded(d, Concat(lhs[i].0, Simplify(rhs[j].0, from, negate)), MkAnd(MkAnd(c, lhs[i].1), rhs[j].1)), v,
            Holds(c, v) && (Within(lhs, v, i) || (Holds(lhs[i].1, v) && Within(rhs, v, j + 1))), Eval(Concat(a, b), v))
  {
    EvalConcat(a, b, lhs[i].0, v);
    hide Holds, Eval, MkAnd, Simplify, AddGuarded;
    var (from, negate) := Polarity(lhs[i].1);
    var dom := MkAnd(MkAnd(c, lhs[i].1), rhs[j].1);
    AndMeans(c, lhs[i].1, v);
    AndMeans(MkAnd(c, lhs[i].1), rhs[j].1, v);
    WithinStep(lhs, v, i);
    WithinStep(rhs, v, j);
    if Holds(dom, v) {
      ChosenEval(lhs, a, v, i);
      ChosenEval(rhs, b, v, j);
      SimplifyMeans(rhs[j].0, from, negate, v);
    }
    GrowStep(dStart, d, v, Holds(c, v) && (Within(lhs, v, i) || (Holds(lhs[i].1, v) && Within(rhs, v, j))),
             Eval(Concat(a, b), v), Concat(lhs[i].0, Simplify(rhs[j].0, from, negate)), dom);
  }

  lemma GrownFromSelf(d: Disj<Term>, v: Valuation, val: Bits)
    requires Exclusive(d, v)
    ensures Grown(d, d, v, false, val)
  {
  }

  /** All pairs of the entries of two operands of a concatenation. */
  method AddConcat(d0: Disj<Term>, ghost a: Term, ghost b: Term, c: Cond, lhs: Disj<Term>, rhs: Disj<Term>) returns (d: Disj<Term>)
    requires forall v :: Commutes(v) ==> Decomposes(lhs, a, v) && Decomposes(rhs, b, v)
    ensures forall v :: Accepts(d0, c, v) ==> Grown(d0, d, v, Holds(c, v), Eval(Concat(a, b), v))
    ensures (NoIte(d0) ==> NoIte(d)) && (AllPlain(d0) && NoIte(lhs) && NoIte(rhs) ==> AllPlain(d)) && |d| <= |d0| + |lhs| * |rhs|
  {
    d := d0;
    hide Grown, NoIte, AllPlain;
    var i := 0;
    forall v | Accepts(d0, c, v)
      ensures Grown(d0, d, v, Holds(c, v) && Within(lhs, v, i), Eval(Concat(a, b), v))
    {
      GrownFromSelf(d0, v, Eval(Concat(a, b), v));
    }
    while i < |lhs|
      invariant i <= |lhs| && |d| <= |d0| + i * |rhs| && (NoIte(d0) ==> NoIte(d)) && (AllPlain(d0) && NoIte(lhs) && NoIte(rhs) ==> AllPlain(d))
      invariant forall v :: Accepts(d0, c, v) ==> Grown(d0, d, v, Holds(c, v) && Within(lhs, v, i), Eval(Concat(a, b), v))
    {
      d := AddRow(d, d0, a, b, c, lhs, rhs, i);
      assert (i + 1) * |rhs| == i * |rhs| + |rhs|;
      i := i + 1;
    }
    forall v | Accepts(d0, c, v)
      ensures Grown(d0, d, v, Holds(c, v), Eval(Concat(a, b), v))
    {
      WithinAll(lhs, v);
    }
  }

  lemma ExtractPlain(d: Disj<Term>, part: Term, high: nat, low: nat, dom: Cond)
    ensures NoIte(d) ==> NoIte(AddGuarded(d, Extract(part, high, low), dom))
    ensures AllPlain(d) && !part.Ite? ==> AllPlain(AddGuarded(d, Extract(part, high, low), dom))
  {
    AddKeeps(d, Extract(part, high, low), dom);
    hide Single, AllPlain, NoIte;
    if !part.Ite? {
      SingleSelf(part);
    }
  }

  /** The extracts of the entries of a term. */
  method AddExtract(d0: Disj<Term>, ghost a: Term, high: nat, low: nat, c: Cond, parts: Disj<Term>) returns (d: Disj<Term>)
    requires forall v :: Commutes(v) ==> Decomposes(parts, a, v)
    ensures forall v :: Accepts(d0, c, v) ==> Grown(d0, d, v, Holds(c, v), Eval(Extract(a, high, low), v))
    ensures (NoIte(d0) ==> NoIte(d)) && (AllPlain(d0) && NoIte(parts) ==> AllPlain(d)) && |d| <= |d0| + |parts|
  {
    d := d0;
    ghost var t := Extract(a, high, low);
    var i := 0;
    forall v | Accepts(d0, c, v)
      ensures Grown(d0, d, v, Holds(c, v) && Within(parts, v, i), Eval(t, v))
    {
      GrownFromSelf(d0, v, Eval(t, v));
    }
    while i < |parts|
      invariant i <= |parts| && |d| <= |d0| + i && (NoIte(d0) ==> NoIte(d)) && (AllPlain(d0) && NoIte(parts) ==> AllPlain(d))
      invariant forall v :: Accepts(d0, c, v) ==> Grown(d0, d, v, Holds(c, v) && Within(parts, v, i), Eval(t, v))
    {
      ghost var before := d;
      var (part, dom) := parts[i];
      ExtractPlain(d, part, high, low, MkAnd(c, dom));
      AddAtMost(d, Extract(part, high, low), MkAnd(c, dom));
      d := AddGuarded(d, Extract(part, high, low), MkAnd(c, dom));
      hide NoIte, AllPlain;
      forall v | Accepts(d0, c, v)
        ensures Grown(d0, d, v, Holds(c, v) && Within(parts, v, i + 1), Eval(t, v))
      {
        AndMeans(c, dom, v);
        WithinStep(parts, v, i);
        if Holds(dom, v) {
          ChosenEval(parts, a, v, i);
        }
        GrowStep(d0, before, v, Holds(c, v) && Within(parts, v, i), Eval(t, v), Extract(part, high, low), MkAnd(c, dom));
      }
      i := i + 1;
    }
    forall v | Accepts(d0, c, v)
      ensures Grown(d0, d, v, Holds(c, v), Eval(t, v))
    {
      WithinAll(parts, v);
    }
  }

  // ----- the worklist --------------------------------------------------------

  function Size(t: Term): nat {
    match t
    case Leaf(_) => 1
    case Lit(_) => 1
    case App(_, a, b) => 1 + Size(a) + Size(b)
    case Add(a, b) => 1 + Size(a) + Size(b)
    case Concat(a, b) => 1 + Size(a) + Size(b)
    case Extract(a, _, _) => 1 + Size(a)
    case Ite(_, a, b) => 1 + Size(a) + Size(b)
  }

  function WorkSize(work: Disj<Term>): nat {
    if work == [] then 0 else WorkSize(work[..|work| - 1]) + Size(work[|work| - 1].0)
  }

  /** Pending and finished entries together mean the same as `e`. */
  ghost predicate Together(work: Disj<Term>, d: Disj<Term>, e: Term, v: Valuation) {
    && Exclusive(work, v) && Exclusive(d, v)
    && !(Covered(work, v) && Covered(d, v)) && (Covered(work, v) || Covered(d, v))
    && (forall i: nat :: Chosen(work, v, i) ==> Eval(work[i].0, v) == Eval(e, v))
    && (forall x :: Selects(d, v, x) ==> Eval(x, v) == Eval(e, v))
  }

  /** Taking the last pending entry. */
  lemma PopMeans(work: Disj<Term>, d: Disj<Term>, e: Term, v: Valuation)
    requires Commutes(v) && Together(work, d, e, v) && work != []
    ensures var (t, c) := work[|work| - 1]; var rest := work[..|work| - 1];
      && Accepts(d, c, v)
      && Exclusive(rest, v) && (Holds(c, v) ==> !Covered(rest, v) && !Covered(d, v) && Eval(t, v) == Eval(e, v))
      && (!Holds(c, v) ==> Together(rest, d, e, v))
  {
    hide Holds, Eval;
    var top := |work| - 1;
    var rest := work[..top];
    assert forall i: nat :: Chosen(rest, v, i) ==> Chosen(work, v, i) && i < top;
    assert forall i: nat :: Chosen(work, v, i) && i < top ==> Chosen(rest, v, i);
    if Holds(work[top].1, v) {
      assert Chosen(work, v, top);
    }
  }

  /** Replacing the popped entry by finished ones. */
  lemma FinishMeans(work: Disj<Term>, d: Disj<Term>, d': Disj<Term>, e: Term, v: Valuation)
    requires Commutes(v) && Together(work, d, e, v) && work != []
    requires Grown(d, d', v, Holds(work[|work| - 1].1, v), Eval(work[|work| - 1].0, v))
    ensures Together(work[..|work| - 1], d', e, v)
  {
    PopMeans(work, d, e, v);
  }

  /** Replacing a popped conditional by its two branches. */
  lemma SplitMeans(work: Disj<Term>, d: Disj<Term>, e: Term, v: Valuation)
    requires Commutes(v) && Together(work, d, e, v) && work != [] && work[|work| - 1].0.Ite?
    ensures var (t, c) := work[|work| - 1];
      Together(work[..|work| - 1] + [(t.then0, MkAnd(c, t.cond)), (t.else0, MkAnd(c, MkNot(t.cond)))], d, e, v)
  {
    hide Holds, Eval, MkAnd, MkNot;
    var (t, c) := work[|work| - 1];
    var rest := work[..|work| - 1];
    var work' := rest + [(t.then0, MkAnd(c, t.cond)), (t.else0, MkAnd(c, MkNot(t.cond)))];
    PopMeans(work, d, e, v);
    SplitEval(t, v);
    NotMeans(t.cond, v);
    AndMeans(c, t.cond, v);
    AndMeans(c, MkNot(t.cond), v);
    assert forall i: nat :: Chosen(work', v, i) <==>
      Chosen(rest, v, i) || (Holds(c, v) && i == if Holds(t.cond, v) then |rest| else |rest| + 1);
    if Holds(c, v) {
      assert Chosen(work', v, if Holds(t.cond, v) then |rest| else |rest| + 1);
    } else {
      if Covered(rest, v) {
        var i: nat :| Chosen(rest, v, i);
        assert Chosen(work', v, i);
      }
    }
  }

  lemma SplitEval(t: Term, v: Valuation)
    requires t.Ite?
    ensures Eval(t, v) == if Holds(t.cond, v) then Eval(t.then0, v) else Eval(t.else0, v)
  {
  }

  lemma SplitShrinks(work: Disj<Term>, c1: Cond, c2: Cond)
    requires work != [] && work[|work| - 1].0.Ite?
    ensures var t := work[|work| - 1].0; WorkSize(work[..|work| - 1] + [(t.then0, c1), (t.else0, c2)]) < WorkSize(work)
  {
    var t := work[|work| - 1].0;
    var rest := work[..|work| - 1];
    WorkSizePush(rest, (t.then0, c1));
    WorkSizePush(rest + [(t.then0, c1)], (t.else0, c2));
    assert rest + [(t.then0, c1), (t.else0, c2)] == rest + [(t.then0, c1)] + [(t.else0, c2)];
  }

  lemma WorkSizePush(work: Disj<Term>, x: (Term, Cond))
    ensures WorkSize(work + [x]) == WorkSize(work) + Size(x.0)
  {
    assert (work + [x])[..|work|] == work;
  }

  lemma PopShrinks(work: Disj<Term>)
    requires work != []
    ensures WorkSize(work[..|work| - 1]) < WorkSize(work)
  {
  }

  /** Adds a single entry. */
  lemma AddOneGrows(d: Disj<Term>, t: Term, c: Cond, v: Valuation)
    requires Accepts(d, c, v)
    ensures Grown(d, AddGuarded(d, t, c), v, Holds(c, v), Eval(t, v))
  {
    AddMeans(d, t, c, v);
  }

  /** The pending entries are added as they are: the early stop. */
  method Flush(work: Disj<Term>, d0: Disj<Term>, ghost e: Term) returns (d: Disj<Term>)
    requires forall v :: Commutes(v) ==> Together(work, d0, e, v)
    ensures forall v :: Commutes(v) ==> Decomposes(d, e, v)
    ensures |d| <= |d0| + |work|
  {
    d := d0;
    var rest := work;
    while rest != []
      invariant |d| + |rest| <= |d0| + |work|
      invariant forall v :: Commutes(v) ==> Together(rest, d, e, v)
      decreases |rest|
    {
      var top := |rest| - 1;
      var (t, c) := rest[top];
      ghost var before := d;
      AddAtMost(d, t, c);
      d := AddGuarded(d, t, c);
      forall v | Commutes(v)
        ensures Together(rest[..top], d, e, v)
      {
        PopMeans(rest, before, e, v);
        AddOneGrows(before, t, c, v);
        FinishMeans(rest, before, d, e, v);
      }
      rest := rest[..top];
    }
  }

  /** The constructor `DisjointExpr(e, depth_limit)`.  `*` stands for the memory check,
      which is never met if memory is `ample`; the meaning is kept by every early stop.
      Without one, no value is a conditional, and with a depth of two none is made of
      conditionals either. */
  method Decompose(e: Term, depthLimit: nat, ample: bool) returns (d: Disj<Term>, ghost stopped: bool)
    ensures forall v :: Commutes(v) ==> Decomposes(d, e, v)
    ensures |d| <= Ways(e) && (ample && Ways(e) < 32 ==> !stopped)
    ensures !stopped && depthLimit > 0 ==> NoIte(d)
    ensures !stopped && depthLimit > 1 ==> AllPlain(d)
    decreases depthLimit, 2
  {
    d, stopped := [], false;
    AtLeastOneWay(e);
    if depthLimit == 0 {
      AddAtMost([], e, True);
      d := AddGuarded(d, e, True);
      forall v | Commutes(v)
        ensures Decomposes(d, e, v)
      {
        AddMeans<Term>([], e, True, v);
      }
      return;
    }
    var work := [(e, True)];
    forall v | Commutes(v)
      ensures Together(work, d, e, v)
    {
      assert Chosen(work, v, 0);
    }
    while work != []
      invariant forall v :: Commutes(v) ==> Together(work, d, e, v)
      invariant NoIte(d) && (!stopped && depthLimit > 1 ==> AllPlain(d))
      invariant WorkWays(work) + |d| <= Ways(e) && (ample && Ways(e) < 32 ==> !stopped)
      decreases WorkSize(work)
    {
      hide Together, NoIte, AllPlain, Ways, WorkWays;
      WorkAtMost(work);
      var outOfMemory := *;
      if |work| + |d| >= 32 || (outOfMemory && !ample) {
        d := Flush(work, d, e);
        stopped := true;
        return;
      }
      ghost var inner;
      work, d, inner := Step(work, d, e, depthLimit - 1, ample);
      stopped := stopped || inner;
    }
  }

  /** One round of the worklist loop. */
  method Step(work: Disj<Term>, d0: Disj<Term>, ghost e: Term, depthLimit: nat, ample: bool) returns (work': Disj<Term>, d: Disj<Term>, ghost stopped: bool)
    requires work != [] && forall v :: Commutes(v) ==> Together(work, d0, e, v)
    ensures forall v :: Commutes(v) ==> Together(work', d, e, v)
    ensures WorkSize(work') < WorkSize(work)
    ensures WorkWays(work') + |d| <= WorkWays(work) + |d0| && (ample && WorkWays(work) < 32 ==> !stopped)
    ensures (NoIte(d0) ==> NoIte(d)) && (AllPlain(d0) && !stopped && depthLimit > 0 ==> AllPlain(d))
    decreases depthLimit + 1, 1
  {
    hide Together, NoIte, AllPlain;
    var top := |work| - 1;
    var (t, c) := work[top];
    work', d, stopped := work[..top], d0, false;
    PopShrinks(work);
    match t
    case Ite(cond, then0, else0) =>
      work' := work' + [(then0, MkAnd(c, cond)), (else0, MkAnd(c, MkNot(cond)))];
      SplitShrinks(work, MkAnd(c, cond), MkAnd(c, MkNot(cond)));
      SplitWays(work, MkAnd(c, cond), MkAnd(c, MkNot(cond)));
      forall v | Commutes(v)
        ensures Together(work', d, e, v)
      {
        SplitMeans(work, d0, e, v);
      }
    case _ =>
      d, stopped := Finish(t, c, d0, depthLimit, ample);
      forall v | Commutes(v)
        ensures Together(work', d, e, v)
      {
        PopMeans(work, d0, e, v);
        FinishMeans(work, d0, d, e, v);
      }
  }

  /** Adds what a term other than a conditional splits into. */
  method Finish(t: Term, c: Cond, d0: Disj<Term>, depthLimit: nat, ample: bool) returns (d: Disj<Term>, ghost stopped: bool)
    requires !t.Ite?
    ensures forall v :: Accepts(d0, c, v) ==> Grown(d0, d, v, Holds(c, v), Eval(t, v))
    ensures |d| <= |d0| + Ways(t) && (ample && Ways(t) < 32 ==> !stopped)
    ensures (NoIte(d0) ==> NoIte(d)) && (AllPlain(d0) && !stopped && depthLimit > 0 ==> AllPlain(d))
    decreases depthLimit + 1, 0
  {
    d, stopped := AddGuarded(d0, t, c), false;
    AddKeeps(d0, t, c);
    AddAtMost(d0, t, c);
    AtLeastOneWay(t);
    hide NoIte, AllPlain, Single, Decomposes, Commutes, AddGuarded;
    forall v | Accepts(d0, c, v)
      ensures Grown(d0, d, v, Holds(c, v), Eval(t, v))
    {
      AddOneGrows(d0, t, c, v);
    }
    match t
    case Concat(a, b) =>
      var lhs, stoppedLhs := Decompose(a, depthLimit, ample);
      var rhs, stoppedRhs := Decompose(b, depthLimit, ample);
      ConcatWays(a, b, |lhs|, |rhs|);
      stopped := stoppedLhs || stoppedRhs;
      if !(|lhs| == 1 && |rhs| == 1) {
        d := AddConcat(d0, a, b, c, lhs, rhs);
      } else if !stopped && depthLimit > 0 {
        OneEntry(lhs, a);
        OneEntry(rhs, b);
      }
    case Extract(a, high, low) =>
      var parts;
      parts, stopped := Decompose(a, depthLimit, ample);
      if |parts| != 1 {
        d := AddExtract(d0, a, high, low, c, parts);
      } else if !stopped && depthLimit > 0 {
        OneEntry(parts, a);
      }
    case _ =>
  }
}
