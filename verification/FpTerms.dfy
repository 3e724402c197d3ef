/** Floating-point terms as the e-graph of ir/fast_math.cpp sees them: operations with a
    rounding mode, and marks that allow reassociation. */
module FpTerms {
  type Bits = seq<bool>

  datatype Op = Add | Sub | Mul | Div

  /** Terms; `Reassoc` marks the term below it as reassociable. */
  datatype Fp =
    | Bin(op: Op, rounding: nat, a: Fp, b: Fp)
    | Neg(a: Fp)
    | Reassoc(a: Fp)
    | Leaf(x: nat)

  /** What the operations and the leaves mean. */
  datatype World = World(op: (Op, nat, Bits, Bits) -> Bits, neg: Bits -> Bits, leaf: nat -> Bits)

  ghost predicate Commutes(w: World) {
    forall r, x, y :: w.op(Add, r, x, y) == w.op(Add, r, y, x) && w.op(Mul, r, x, y) == w.op(Mul, r, y, x)
  }

  function Eval(t: Fp, w: World): Bits {
    match t
    case Bin(op, r, a, b) => w.op(op, r, Eval(a, w), Eval(b, w))
    case Neg(a) => w.neg(Eval(a, w))
    case Reassoc(a) => Eval(a, w)
    case Leaf(x) => w.leaf(x)
  }

  /** Equal whatever the operations are, as long as addition and multiplication commute. */
  ghost predicate Same(s: Fp, t: Fp) {
    forall w :: Commutes(w) ==> Eval(s, w) == Eval(t, w)
  }

  // ----- terms up to the order of operands -----------------------------------

  /** What is left of a term when the operands of sums and products have no order. */
  datatype Shape =
    | Unordered(op: Op, rounding: nat, parts: multiset<Shape>, reassoc: bool)
    | Ordered(op: Op, rounding: nat, a: Shape, b: Shape, reassoc: bool)
    | Negated(a: Shape, reassoc: bool)
    | Value(x: nat, reassoc: bool)

  /** The shape of a term that is marked if `reassoc` says so; marks do not add up. */
  function ShapeWith(t: Fp, reassoc: bool): Shape {
    match t
    case Bin(op, r, a, b) =>
      var x, y := ShapeWith(a, false), ShapeWith(b, false);
      if op == Add || op == Mul then Unordered(op, r, multiset{x, y}, reassoc) else Ordered(op, r, x, y, reassoc)
    case Neg(a) => Negated(ShapeWith(a, false), reassoc)
    case Reassoc(a) => ShapeWith(a, true)
    case Leaf(x) => Value(x, reassoc)
  }

  function ShapeOf(t: Fp): Shape {
    ShapeWith(t, false)
  }

  lemma PairEquals(x: Shape, y: Shape, x': Shape, y': Shape)
    requires multiset{x, y} == multiset{x', y'}
    ensures (x == x' && y == y') || (x == y' && y == x')
  {
    assert x in multiset{x', y'};
    if x == x' {
      assert multiset{x, y} - multiset{x} == multiset{y};
      assert multiset{x', y'} - multiset{x} == multiset{y'};
      assert y in multiset{y'};
    } else {
      assert multiset{x, y} - multiset{x} == multiset{y};
      assert multiset{x', y'} - multiset{x} == multiset{x'};
      assert y in multiset{x'};
    }
  }

  /** Equal operations on operands of equal shapes, in some order for sums and products. */
  ghost predicate Alike(s: Fp, t: Fp) {
    match s
    case Bin(op, r, a, b) =>
      && t.Bin? && t.op == op && t.rounding == r
      && ((ShapeOf(a) == ShapeOf(t.a) && ShapeOf(b) == ShapeOf(t.b)) ||
          ((op == Add || op == Mul) && ShapeOf(a) == ShapeOf(t.b) && ShapeOf(b) == ShapeOf(t.a)))
    case Neg(a) => t.Neg? && ShapeOf(a) == ShapeOf(t.a)
    case Reassoc(_) => false
    case Leaf(x) => t.Leaf? && t.x == x
  }

  lemma ShapeAlike(s: Fp, f: bool, t: Fp, g: bool)
    requires ShapeWith(s, f) == ShapeWith(t, g) && !s.Reassoc? && !t.Reassoc?
    ensures Alike(s, t) && f == g
  {
    OuterShape(s, f);
    OuterShape(t, g);
    hide ShapeWith;
    if s.Bin? && (s.op == Add || s.op == Mul) {
      PairEquals(ShapeOf(s.a), ShapeOf(s.b), ShapeOf(t.a), ShapeOf(t.b));
    }
  }

  lemma OuterShape(t: Fp, f: bool)
    ensures match t
      case Bin(op, r, a, b) =>
        ShapeWith(t, f) == if op == Add || op == Mul then Unordered(op, r, multiset{ShapeOf(a), ShapeOf(b)}, f) else Ordered(op, r, ShapeOf(a), ShapeOf(b), f)
      case Neg(a) => ShapeWith(t, f) == Negated(ShapeOf(a), f)
      case Reassoc(a) => true
      case Leaf(x) => ShapeWith(t, f) == Value(x, f)
  {
  }

  lemma ShapeUnmarked(s: Fp, f: bool)
    ensures s.Reassoc? ==> ShapeWith(s, f) == ShapeWith(s.a, true)
  {
  }

  /** Terms of the same shape have the same value in every world. */
  lemma {:induction false} ShapeEval(s: Fp, f: bool, t: Fp, g: bool, w: World)
    requires ShapeWith(s, f) == ShapeWith(t, g) && Commutes(w)
    ensures Eval(s, w) == Eval(t, w)
    decreases s, t
  {
    ShapeUnmarked(s, f);
    ShapeUnmarked(t, g);
    if !s.Reassoc? && !t.Reassoc? {
      ShapeAlike(s, f, t, g);
    }
    hide ShapeWith;
    if s.Reassoc? {
      ShapeEval(s.a, true, t, g, w);
    } else if t.Reassoc? {
      ShapeEval(s, f, t.a, true, w);
    } else if s.Bin? {
      if ShapeOf(s.a) == ShapeOf(t.a) && ShapeOf(s.b) == ShapeOf(t.b) {
        ShapeEval(s.a, false, t.a, false, w);
        ShapeEval(s.b, false, t.b, false, w);
      } else {
        ShapeEval(s.a, false, t.b, false, w);
        ShapeEval(s.b, false, t.a, false, w);
      }
    } else if s.Neg? {
      ShapeEval(s.a, false, t.a, false, w);
    }
  }

  lemma ShapeSame(s: Fp, t: Fp)
    requires ShapeOf(s) == ShapeOf(t)
    ensures Same(s, t)
  {
    forall w | Commutes(w)
      ensures Eval(s, w) == Eval(t, w)
    {
      ShapeEval(s, false, t, false, w);
    }
  }

  // ----- heights and kinds ---------------------------------------------------

  function Max(a: nat, b: nat): nat {
    if a < b then b else a
  }

  /** How deep the operations are nested. */
  function Height(t: Fp): nat {
    match t
    case Bin(_, _, a, b) => 1 + Max(Height(a), Height(b))
    case Neg(a) => 1 + Height(a)
    case Reassoc(a) => Height(a)
    case Leaf(_) => 0
  }

  lemma {:induction false} ShapeHeight(s: Fp, f: bool, t: Fp, g: bool)
    requires ShapeWith(s, f) == ShapeWith(t, g)
    ensures Height(s) == Height(t)
    decreases s, t
  {
    ShapeUnmarked(s, f);
    ShapeUnmarked(t, g);
    if !s.Reassoc? && !t.Reassoc? {
      ShapeAlike(s, f, t, g);
    }
    hide ShapeWith;
    if s.Reassoc? {
      ShapeHeight(s.a, true, t, g);
    } else if t.Reassoc? {
      ShapeHeight(s, f, t.a, true);
    } else if s.Bin? {
      if ShapeOf(s.a) == ShapeOf(t.a) && ShapeOf(s.b) == ShapeOf(t.b) {
        ShapeHeight(s.a, false, t.a, false);
        ShapeHeight(s.b, false, t.b, false);
      } else {
        ShapeHeight(s.a, false, t.b, false);
        ShapeHeight(s.b, false, t.a, false);
      }
    } else if s.Neg? {
      ShapeHeight(s.a, false, t.a, false);
    }
  }

  /** The position of operations in the order of nodes. */
  function OpRank(op: Op): nat {
    match op
    case Add => 0
    case Sub => 1
    case Mul => 2
    case Div => 3
  }

  /** The rank of the outermost operation. */
  function Kind(t: Fp): nat {
    match t
    case Bin(op, _, _, _) => OpRank(op)
    case Neg(_) => 4
    case Reassoc(a) => Kind(a)
    case Leaf(_) => 5
  }

  lemma {:induction false} ShapeKind(s: Fp, f: bool, t: Fp, g: bool)
    requires ShapeWith(s, f) == ShapeWith(t, g)
    ensures Kind(s) == Kind(t)
    decreases s, t
  {
    if s.Reassoc? {
      ShapeKind(s.a, true, t, g);
    } else if t.Reassoc? {
      ShapeKind(s, f, t.a, true);
    }
  }

  /** Operations whose operands are all older in the order of nodes: a sum has no sum and
      no product as an operand, a difference no product, and a product no product. */
  predicate CalmOperand(kind: nat, operand: nat) {
    !(kind == 0 && (operand == 0 || operand == 2)) && !(kind == 1 && operand == 2) && !(kind == 2 && operand == 2)
  }

  predicate Calm(t: Fp) {
    match t
    case Bin(op, _, a, b) => Calm(a) && Calm(b) && CalmOperand(OpRank(op), Kind(a)) && CalmOperand(OpRank(op), Kind(b))
    case Neg(a) => Calm(a)
    case Reassoc(a) => Calm(a)
    case Leaf(_) => true
  }
}
