/** Terms and conditions as the SMT layer builds them (smt/expr.cpp, smt/exprs.h), with
    their meaning under a valuation.  Bit-vectors are bit sequences, most significant
    bit first; operators the algorithms do not look into are uninterpreted. */
module Terms {

  type Bits = seq<bool>

  datatype Term =
    | Leaf(id: nat)
    | Lit(bits: Bits)
    | App(fn: nat, arg0: Term, arg1: Term)
    | Add(left: Term, right: Term)
    | Concat(hi: Term, lo: Term)
    | Extract(of: Term, high: nat, low: nat)
    | Ite(cond: Cond, then0: Term, else0: Term)

  datatype Cond =
    | True
    | False
    | Atom(id: nat)
    | IsZero(term: Term)
    | Equal(x: Term, y: Term)
    | Not(neg: Cond)
    | And(a: Cond, b: Cond)
    | Or(a: Cond, b: Cond)
    | IfC(c: Cond, t: Cond, e: Cond)

  datatype Valuation = Valuation(leaf: nat -> Bits, atom: nat -> bool, fn: (nat, Bits, Bits) -> Bits, plus: (Bits, Bits) -> Bits)

  /** Bits `high` down to `low`. */
  function Slice(b: Bits, high: nat, low: nat): Bits {
    if low <= high < |b| then b[|b| - 1 - high..|b| - low] else []
  }

  predicate ZeroBits(b: Bits) {
    forall i :: 0 <= i < |b| ==> !b[i]
  }

  function Eval(t: Term, v: Valuation): Bits {
    match t
    case Leaf(id) => v.leaf(id)
    case Lit(b) => b
    case App(f, a, b) => v.fn(f, Eval(a, v), Eval(b, v))
    case Add(a, b) => v.plus(Eval(a, v), Eval(b, v))
    case Concat(a, b) => Eval(a, v) + Eval(b, v)
    case Extract(a, high, low) => Slice(Eval(a, v), high, low)
    case Ite(c, a, b) => if Holds(c, v) then Eval(a, v) else Eval(b, v)
  }

  predicate Holds(c: Cond, v: Valuation) {
    match c
    case True => true
    case False => false
    case Atom(id) => v.atom(id)
    case IsZero(t) => ZeroBits(Eval(t, v))
    case Equal(x, y) => Eval(x, v) == Eval(y, v)
    case Not(n) => !Holds(n, v)
    case And(a, b) => Holds(a, v) && Holds(b, v)
    case Or(a, b) => Holds(a, v) || Holds(b, v)
    case IfC(c0, t, e) => if Holds(c0, v) then Holds(t, v) else Holds(e, v)
  }

  // ----- simplifying constructors --------------------------------------------

  function MkNot(c: Cond): Cond {
    match c
    case True => False
    case False => True
    case Not(n) => n
    case _ => Not(c)
  }

  function MkAnd(a: Cond, b: Cond): Cond {
    if a == b || a == False || b == True then a
    else if a == True || b == False then b
    else And(a, b)
  }

  function MkOr(a: Cond, b: Cond): Cond {
    if a == b || b == False || a == True then a
    else if b == True || a == False then b
    else if a == Not(b) || b == Not(a) then True
    else if a.And? && b.And? && a.b == b.b && (a.a == Not(b.a) || b.a == Not(a.a)) then a.b
    else Or(a, b)
  }

  function MkIf(c: Cond, t: Term, e: Term): Term
    decreases e, c
  {
    if c == True || t == e then t
    else if c == False then e
    else if e.Ite? && e.then0 == t then MkIf(MkOr(c, e.cond), t, e.else0)
    else Ite(c, t, e)
  }

  function MkImplies(a: Cond, b: Cond): Cond {
    MkOr(MkNot(a), b)
  }

  function MkIfC(c: Cond, t: Cond, e: Cond): Cond {
    if c == True || t == e then t
    else if c == False then e
    else if t == True || c == t then MkOr(c, e)
    else if t == False then MkAnd(MkNot(c), e)
    else if e == True then MkOr(MkNot(c), t)
    else if e == False then MkAnd(c, t)
    else if c.Not? then IfC(c.neg, e, t)
    else IfC(c, t, e)
  }

  /** Conditions built by these constructors never hide `False` on the right of a
      conjunction, so simplification cannot turn a guard into `False`. */
  predicate Clean(c: Cond) {
    c != False && (c.And? ==> Clean(c.b))
  }

  lemma {:induction false} CleanAnd(a: Cond, b: Cond)
    requires (a == False || Clean(a)) && (b == False || Clean(b))
    ensures MkAnd(a, b) == False || Clean(MkAnd(a, b))
  {
  }

  lemma CleanOr(a: Cond, b: Cond)
    requires Clean(a) && Clean(b)
    ensures Clean(MkOr(a, b))
  {
  }

  lemma NotMeans(c: Cond, v: Valuation)
    ensures Holds(MkNot(c), v) <==> !Holds(c, v)
  {
  }

  lemma AndMeans(a: Cond, b: Cond, v: Valuation)
    ensures Holds(MkAnd(a, b), v) <==> Holds(a, v) && Holds(b, v)
  {
  }

  lemma OrMeans(a: Cond, b: Cond, v: Valuation)
    ensures Holds(MkOr(a, b), v) <==> Holds(a, v) || Holds(b, v)
  {
  }

  lemma ImpliesMeans(a: Cond, b: Cond, v: Valuation)
    ensures Holds(MkImplies(a, b), v) <==> (Holds(a, v) ==> Holds(b, v))
  {
    hide MkNot, MkOr, Holds;
    NotMeans(a, v);
    OrMeans(MkNot(a), b, v);
  }

  lemma IteMeans(c: Cond, t: Term, e: Term, v: Valuation)
    ensures Eval(Ite(c, t, e), v) == if Holds(c, v) then Eval(t, v) else Eval(e, v)
  {
  }

  lemma ConstantsMean(v: Valuation)
    ensures Holds(True, v) && !Holds(False, v)
  {
  }

  lemma IfMeans(c: Cond, t: Term, e: Term, v: Valuation)
    ensures Eval(MkIf(c, t, e), v) == if Holds(c, v) then Eval(t, v) else Eval(e, v)
    decreases e, c
  {
    ConstantsMean(v);
    IteMeans(c, t, e, v);
    if !(c == True || t == e) && c != False && e.Ite? && e.then0 == t {
      OrMeans(c, e.cond, v);
      IfMeans(MkOr(c, e.cond), t, e.else0, v);
      IteMeans(e.cond, t, e.else0, v);
    }
    hide Eval, Holds, MkOr;
  }

  lemma RawIfCMeans(c: Cond, t: Cond, e: Cond, v: Valuation)
    ensures Holds(IfC(c, t, e), v) <==> if Holds(c, v) then Holds(t, v) else Holds(e, v)
    ensures c.Not? ==> (Holds(c, v) <==> !Holds(c.neg, v))
  {
  }

  lemma IfCMeans(c: Cond, t: Cond, e: Cond, v: Valuation)
    ensures Holds(MkIfC(c, t, e), v) <==> if Holds(c, v) then Holds(t, v) else Holds(e, v)
  {
    hide MkNot, MkAnd, MkOr, Eval, Holds;
    ConstantsMean(v);
    NotMeans(c, v);
    OrMeans(c, e, v);
    AndMeans(MkNot(c), e, v);
    OrMeans(MkNot(c), t, v);
    AndMeans(c, t, v);
    RawIfCMeans(c, t, e, v);
    if c.Not? {
      RawIfCMeans(c.neg, e, t, v);
    }
  }
}

/** Values guarded by conditions: `DisjointExpr` (smt/exprs.h).  The order in which the
    source's map iterates plays no role while at most one guard holds, so entries are
    kept in order of insertion. */
module Guarded {
  import opened Terms

  type Disj<T> = seq<(T, Cond)>

  /** Position of the entry for `val`, or the length. */
  function IndexOf<T(==)>(d: Disj<T>, val: T): (i: nat)
    ensures i <= |d| && (i < |d| ==> d[i].0 == val) && forall j :: 0 <= j < i ==> d[j].0 != val
  {
    if d == [] then 0 else if d[0].0 == val then 0 else 1 + IndexOf(d[1..], val)
  }

  /** `DisjointExpr::add`. */
  function AddGuarded<T(==)>(d: Disj<T>, val: T, dom: Cond): Disj<T> {
    if dom == False then d
    else
      var d0 := if dom == True then [] else d;
      var i := IndexOf(d0, val);
      if i < |d0| then d0[i := (val, MkOr(d0[i].1, dom))] else d0 + [(val, dom)]
  }

  lemma {:induction false} AddClean<T>(d: Disj<T>, val: T, dom: Cond)
    requires (forall i :: 0 <= i < |d| ==> Clean(d[i].1)) && (dom == False || Clean(dom))
    ensures forall i :: 0 <= i < |AddGuarded(d, val, dom)| ==> Clean(AddGuarded(d, val, dom)[i].1)
    ensures dom != False ==> AddGuarded(d, val, dom) != []
  {
    var d0 := if dom == True then [] else d;
    var i := IndexOf(d0, val);
    if dom != False && i < |d0| {
      CleanOr(d0[i].1, dom);
    }
  }

  /** Entry `i` is the one that applies. */
  ghost predicate Chosen<T>(d: Disj<T>, v: Valuation, i: nat) {
    i < |d| && Holds(d[i].1, v)
  }

  /** At most one guard holds. */
  ghost predicate Exclusive<T>(d: Disj<T>, v: Valuation) {
    forall i: nat, j: nat :: Chosen(d, v, i) && Chosen(d, v, j) ==> i == j
  }

  ghost predicate Covered<T>(d: Disj<T>, v: Valuation) {
    exists i: nat :: Chosen(d, v, i)
  }

  /** The value that applies is `x`. */
  ghost predicate Selects<T>(d: Disj<T>, v: Valuation, x: T) {
    exists i: nat :: Chosen(d, v, i) && d[i].0 == x
  }

  /** Adding under a condition that excludes the other guards. */
  lemma AddMeans<T>(d: Disj<T>, val: T, dom: Cond, v: Valuation)
    requires Exclusive(d, v) && !(Covered(d, v) && Holds(dom, v))
    ensures Exclusive(AddGuarded(d, val, dom), v)
    ensures Covered(AddGuarded(d, val, dom), v) <==> Covered(d, v) || Holds(dom, v)
    ensures forall x :: Selects(AddGuarded(d, val, dom), v, x) <==> Selects(d, v, x) || (x == val && Holds(dom, v))
  {
    ConstantsMean(v);
    hide Holds, Eval, MkOr;
    var d' := AddGuarded(d, val, dom);
    if dom != False {
      var d0 := if dom == True then [] else d;
      var i := IndexOf(d0, val);
      if i < |d0| {
        OrMeans(d0[i].1, dom, v);
      }
      assert forall j: nat :: j < |d0| && j != i ==> d'[j] == d0[j];
      assert d'[i].0 == val && (Holds(d'[i].1, v) <==> Holds(dom, v) || (i < |d0| && Holds(d0[i].1, v)));
      if Holds(dom, v) {
        assert Chosen(d', v, i);
      }
      forall j: nat | Chosen(d, v, j)
        ensures Chosen(d', v, j) && d'[j].0 == d[j].0
      {
      }
      forall j: nat | Chosen(d', v, j)
        ensures (j == i && Holds(dom, v)) || (Chosen(d, v, j) && d'[j].0 == d[j].0)
      {
        assert !Holds(dom, v) ==> d0 == d;
      }
    }
  }

  /** `DisjointExpr::operator()` from position `i` on, over what has been built; `mk`
      builds a conditional value. */
  function CollapseFrom<T>(d: Disj<T>, i: nat, acc: T, mk: (Cond, T, T) -> T): T
    requires i <= |d|
    decreases |d| - i
  {
    if i == |d| then acc
    else if d[i].1 == True then d[i].0
    else CollapseFrom(d, i + 1, mk(d[i].1, d[i].0, acc), mk)
  }

  function Collapsed<T>(d: Disj<T>, default0: T, mk: (Cond, T, T) -> T): T {
    if d == [] then default0 else if d[0].1 == True then d[0].0 else CollapseFrom(d, 1, d[0].0, mk)
  }

  /** `mk` builds conditional values, as far as `val` can tell. */
  ghost predicate Conditional<T(!new), V>(mk: (Cond, T, T) -> T, val: T -> V, v: Valuation) {
    forall c, x, y :: val(mk(c, x, y)) == if Holds(c, v) then val(x) else val(y)
  }

  lemma {:induction false} CollapseFromMeans<T(!new), V>(d: Disj<T>, i: nat, acc: T, mk: (Cond, T, T) -> T, val: T -> V, v: Valuation, k: nat)
    requires Conditional(mk, val, v)
    requires i <= |d| && Exclusive(d, v) && Chosen(d, v, k) && (k < i ==> val(acc) == val(d[k].0))
    ensures val(CollapseFrom(d, i, acc, mk)) == val(d[k].0)
    decreases |d| - i
  {
    ConstantsMean(v);
    hide Holds, Eval;
    if i < |d| {
      if d[i].1 == True {
        assert Chosen(d, v, i);
      } else {
        if Holds(d[i].1, v) {
          assert Chosen(d, v, i);
        }
        assert val(mk(d[i].1, d[i].0, acc)) == if Holds(d[i].1, v) then val(d[i].0) else val(acc);
        CollapseFromMeans(d, i + 1, mk(d[i].1, d[i].0, acc), mk, val, v, k);
      }
    }
  }

  /** The collapsed list means the value that applies. */
  lemma CollapsedMeans<T(!new), V>(d: Disj<T>, default0: T, mk: (Cond, T, T) -> T, val: T -> V, v: Valuation, x: T)
    requires Conditional(mk, val, v) && Exclusive(d, v) && Selects(d, v, x)
    ensures val(Collapsed(d, default0, mk)) == val(x)
  {
    ConstantsMean(v);
    hide Holds, Eval, Conditional;
    var k: nat :| Chosen(d, v, k) && d[k].0 == x;
    if d[0].1 == True {
      assert Chosen(d, v, 0);
    } else {
      CollapseFromMeans(d, 1, d[0].0, mk, val, v, k);
    }
  }
}
