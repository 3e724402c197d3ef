/** Terms for the contents of memory blocks: single bytes, arrays with stores, and
    lambdas over the offset, with their meaning (smt/expr.cpp, ir/memory.cpp). */
module MemTerms {
  import opened Terms

  /** Offsets within a block, counted in memory bytes; `Bound` is the variable of the
      innermost lambda. */
  datatype Off = Num(n: nat) | Sym(id: nat) | Bound | Plus(a: Off, b: Off) | Minus(a: Off, b: Off)

  /** Conditions that may also look at the bound offset. */
  datatype OffCond =
    | Plain(c: Cond)
    | InRange(o: Off, lo: Off, hi: Off)          // lo <= o < hi
    | ModIs(o: Off, m: nat, k: nat)              // o % m == k
    | Both(x: OffCond, y: OffCond)

  datatype Byte = Raw(t: Term) | Load(arr: Arr, at: Off) | Pick(c: OffCond, x: Byte, y: Byte)

  datatype Arr =
    | Init(id: nat)
    | Const(b: Byte)
    | Store(arr: Arr, at: Off, b: Byte)
    | Either(c: Cond, x: Arr, y: Arr)
    | Lambda(body: Byte)

  /** A block is a single byte that stands for all offsets, or an array. */
  datatype BlockVal = BV(b: Byte) | Cells(a: Arr)

  /** A valuation of all of these; offsets are computed modulo `wrap`. */
  datatype World = World(v: Valuation, off: nat -> nat, init: nat -> nat -> Bits, wrap: nat, bound: nat)

  function Wrap(x: int, m: nat): nat {
    if 0 <= x < m then x else if m > 0 then x % m else if x >= 0 then x else 0
  }

  function EvalOff(o: Off, w: World): nat {
    match o
    case Num(n) => n
    case Sym(id) => w.off(id)
    case Bound => w.bound
    case Plus(a, b) => Wrap(EvalOff(a, w) + EvalOff(b, w), w.wrap)
    case Minus(a, b) => Wrap(EvalOff(a, w) - EvalOff(b, w), w.wrap)
  }

  function HoldsOff(c: OffCond, w: World): bool {
    match c
    case Plain(c0) => Holds(c0, w.v)
    case InRange(o, lo, hi) => EvalOff(lo, w) <= EvalOff(o, w) < EvalOff(hi, w)
    case ModIs(o, m, k) => (if m > 0 then EvalOff(o, w) % m else EvalOff(o, w)) == k
    case Both(x, y) => HoldsOff(x, w) && HoldsOff(y, w)
  }

  function EvalByte(b: Byte, w: World): Bits {
    match b
    case Raw(t) => Eval(t, w.v)
    case Load(arr, at) => EvalArr(arr, w, EvalOff(at, w))
    case Pick(c, x, y) => if HoldsOff(c, w) then EvalByte(x, w) else EvalByte(y, w)
  }

  function EvalArr(a: Arr, w: World, o: nat): Bits {
    match a
    case Init(id) => w.init(id)(o)
    case Const(b) => EvalByte(b, w)
    case Store(arr, at, b) => if EvalOff(at, w) == o then EvalByte(b, w) else EvalArr(arr, w, o)
    case Either(c, x, y) => if Holds(c, w.v) then EvalArr(x, w, o) else EvalArr(y, w, o)
    case Lambda(body) => EvalByte(body, w.(bound := o))
  }

  /** The byte at offset `o` of a block. */
  function At(b: BlockVal, w: World, o: nat): Bits {
    match b
    case BV(x) => EvalByte(x, w)
    case Cells(a) => EvalArr(a, w, o)
  }

  // ----- terms without a free bound offset -----------------------------------

  predicate ClosedOff(o: Off) {
    match o
    case Num(_) => true
    case Sym(_) => true
    case Bound => false
    case Plus(a, b) => ClosedOff(a) && ClosedOff(b)
    case Minus(a, b) => ClosedOff(a) && ClosedOff(b)
  }

  predicate ClosedCond(c: OffCond) {
    match c
    case Plain(_) => true
    case InRange(o, lo, hi) => ClosedOff(o) && ClosedOff(lo) && ClosedOff(hi)
    case ModIs(o, _, _) => ClosedOff(o)
    case Both(x, y) => ClosedCond(x) && ClosedCond(y)
  }

  predicate ClosedByte(b: Byte) {
    match b
    case Raw(_) => true
    case Load(arr, at) => ClosedArr(arr) && ClosedOff(at)
    case Pick(c, x, y) => ClosedCond(c) && ClosedByte(x) && ClosedByte(y)
  }

  /** The body of a lambda may use the bound offset; arrays inside it are closed. */
  predicate ClosedArr(a: Arr) {
    match a
    case Init(_) => true
    case Const(b) => ClosedByte(b)
    case Store(arr, at, b) => ClosedArr(arr) && ClosedOff(at) && ClosedByte(b)
    case Either(_, x, y) => ClosedArr(x) && ClosedArr(y)
    case Lambda(_) => true
  }

  predicate Closed(b: BlockVal) {
    match b
    case BV(x) => ClosedByte(x)
    case Cells(a) => ClosedArr(a)
  }

  lemma {:induction false} ClosedOffSame(o: Off, w: World, n: nat)
    requires ClosedOff(o)
    ensures EvalOff(o, w.(bound := n)) == EvalOff(o, w)
  {
    match o
    case Plus(a, b) =>
      ClosedOffSame(a, w, n);
      ClosedOffSame(b, w, n);
    case Minus(a, b) =>
      ClosedOffSame(a, w, n);
      ClosedOffSame(b, w, n);
    case _ =>
  }

  lemma {:induction false} ClosedCondSame(c: OffCond, w: World, n: nat)
    requires ClosedCond(c)
    ensures HoldsOff(c, w.(bound := n)) == HoldsOff(c, w)
  {
    match c
    case Plain(_) =>
    case InRange(o, lo, hi) =>
      ClosedOffSame(o, w, n);
      ClosedOffSame(lo, w, n);
      ClosedOffSame(hi, w, n);
    case ModIs(o, _, _) => ClosedOffSame(o, w, n);
    case Both(x, y) =>
      ClosedCondSame(x, w, n);
      ClosedCondSame(y, w, n);
  }

  lemma {:induction false} ClosedByteSame(b: Byte, w: World, n: nat)
    requires ClosedByte(b)
    ensures EvalByte(b, w.(bound := n)) == EvalByte(b, w)
  {
    match b
    case Raw(_) =>
    case Load(arr, at) =>
      ClosedOffSame(at, w, n);
      ClosedArrSame(arr, w, n, EvalOff(at, w));
    case Pick(c, x, y) =>
      ClosedCondSame(c, w, n);
      ClosedByteSame(x, w, n);
      ClosedByteSame(y, w, n);
  }

  lemma {:induction false} ClosedArrSame(a: Arr, w: World, n: nat, o: nat)
    requires ClosedArr(a)
    ensures EvalArr(a, w.(bound := n), o) == EvalArr(a, w, o)
  {
    match a
    case Init(_) =>
    case Const(b) => ClosedByteSame(b, w, n);
    case Store(arr, at, b) =>
      ClosedArrSame(arr, w, n, o);
      ClosedOffSame(at, w, n);
      ClosedByteSame(b, w, n);
    case Either(_, x, y) =>
      ClosedArrSame(x, w, n, o);
      ClosedArrSame(y, w, n, o);
    case Lambda(body) =>
      assert w.(bound := n).(bound := o) == w.(bound := o);
  }

  /** The contents of a closed block do not depend on the bound offset. */
  lemma ClosedSame(b: BlockVal, w: World, n: nat, o: nat)
    requires Closed(b)
    ensures At(b, w.(bound := n), o) == At(b, w, o)
  {
    match b
    case BV(x) => ClosedByteSame(x, w, n);
    case Cells(a) => ClosedArrSame(a, w, n, o);
  }

  // ----- building terms ------------------------------------------------------

  function MkBoth(x: OffCond, y: OffCond): OffCond {
    if x == Plain(True) then y else if y == Plain(True) then x else Both(x, y)
  }

  /** `expr::mkIf` on bytes. */
  function MkPick(c: OffCond, x: Byte, y: Byte): Byte {
    if c == Plain(True) || x == y then x else if c == Plain(False) then y else Pick(c, x, y)
  }

  function MkEither(c: Cond, x: Arr, y: Arr): Arr {
    if c == True || x == y then x else if c == False then y else Either(c, x, y)
  }

  /** `mk_block_if`: a single byte is spread out where the other side is an array. */
  function MkBlockIf(c: Cond, x: BlockVal, y: BlockVal): BlockVal {
    if c == True then x
    else if c == False then y
    else match (x, y)
      case (BV(a), BV(b)) => BV(MkPick(Plain(c), a, b))
      case (BV(a), Cells(b)) => Cells(MkEither(c, Const(a), b))
      case (Cells(a), BV(b)) => Cells(MkEither(c, a, Const(b)))
      case (Cells(a), Cells(b)) => Cells(MkEither(c, a, b))
  }

  lemma MkPickMeans(c: OffCond, x: Byte, y: Byte, w: World)
    ensures EvalByte(MkPick(c, x, y), w) == if HoldsOff(c, w) then EvalByte(x, w) else EvalByte(y, w)
    ensures ClosedCond(c) && ClosedByte(x) && ClosedByte(y) ==> ClosedByte(MkPick(c, x, y))
  {
  }

  lemma MkBothMeans(x: OffCond, y: OffCond, w: World)
    ensures HoldsOff(MkBoth(x, y), w) <==> HoldsOff(x, w) && HoldsOff(y, w)
  {
  }

  lemma {:induction false} MkBlockIfMeans(c: Cond, x: BlockVal, y: BlockVal, w: World, o: nat)
    ensures At(MkBlockIf(c, x, y), w, o) == if Holds(c, w.v) then At(x, w, o) else At(y, w, o)
    ensures Closed(x) && Closed(y) ==> Closed(MkBlockIf(c, x, y))
  {
    ConstantsMean(w.v);
    hide Holds;
    match (x, y)
    case (BV(a), BV(b)) =>
      MkPickMeans(Plain(c), a, b, w);
      assert HoldsOff(Plain(c), w) <==> Holds(c, w.v);
    case (BV(a), Cells(b)) =>
      assert EvalArr(Const(a), w, o) == EvalByte(a, w) && ClosedArr(Const(a)) == ClosedByte(a);
    case (Cells(a), BV(b)) =>
      assert EvalArr(Const(b), w, o) == EvalByte(b, w) && ClosedArr(Const(b)) == ClosedByte(b);
    case (Cells(a), Cells(b)) =>
  }

  /** The largest index that a load can have, if one is known. */
  datatype MaxIdx = UpTo(max: int) | Anything

  ghost predicate WithinBound(at: Off, maxIdx: MaxIdx, w: World) {
    maxIdx.UpTo? ==> EvalOff(at, w) <= maxIdx.max
  }

  /** `expr::load`: a store at a constant index above `maxIdx` is skipped, because such
      an index cannot be loaded without undefined behaviour. */
  function LoadArr(a: Arr, at: Off, maxIdx: MaxIdx): Byte {
    match a
    case Store(arr, i, b) =>
      if maxIdx.UpTo? && i.Num? && i.n > maxIdx.max then LoadArr(arr, at, maxIdx)
      else if at == i then b
      else
        var loaded := LoadArr(arr, at, maxIdx);
        if (at.Num? && i.Num?) || b == loaded then loaded else Load(a, at)
    case Const(b) => b
    case _ => Load(a, at)
  }

  /** `raw_load`. */
  function RawLoad(b: BlockVal, at: Off, maxIdx: MaxIdx): Byte {
    match b
    case BV(x) => x
    case Cells(a) => LoadArr(a, at, maxIdx)
  }

  lemma {:induction false} LoadArrMeans(a: Arr, at: Off, maxIdx: MaxIdx, w: World)
    requires WithinBound(at, maxIdx, w)
    ensures EvalByte(LoadArr(a, at, maxIdx), w) == EvalArr(a, w, EvalOff(at, w))
  {
    match a
    case Store(arr, i, b) => LoadArrMeans(arr, at, maxIdx, w);
    case _ =>
  }

  lemma {:induction false} LoadArrClosed(a: Arr, at: Off, maxIdx: MaxIdx)
    requires ClosedArr(a) && ClosedOff(at)
    ensures ClosedByte(LoadArr(a, at, maxIdx))
  {
    match a
    case Store(arr, i, b) => LoadArrClosed(arr, at, maxIdx);
    case _ =>
  }

  /** A load within `maxIdx` reads the block's byte. */
  lemma RawLoadMeans(b: BlockVal, at: Off, maxIdx: MaxIdx, w: World)
    requires WithinBound(at, maxIdx, w)
    ensures EvalByte(RawLoad(b, at, maxIdx), w) == At(b, w, EvalOff(at, w))
    ensures Closed(b) && ClosedOff(at) ==> ClosedByte(RawLoad(b, at, maxIdx))
  {
    match b
    case BV(x) =>
    case Cells(a) =>
      LoadArrMeans(a, at, maxIdx, w);
      if ClosedArr(a) && ClosedOff(at) {
        LoadArrClosed(a, at, maxIdx);
      }
  }

  /** The bound on indices matters: a load beyond it can miss a store. */
  lemma LoadBeyondBoundMisses(w: World, b: Term, c: Term)
    requires Eval(b, w.v) != Eval(c, w.v)
    ensures var a := Store(Const(Raw(c)), Num(1), Raw(b));
      EvalByte(LoadArr(a, Num(1), UpTo(0)), w) != EvalArr(a, w, 1)
  {
    var a := Store(Const(Raw(c)), Num(1), Raw(b));
    assert LoadArr(a, Num(1), UpTo(0)) == LoadArr(Const(Raw(c)), Num(1), UpTo(0)) == Raw(c);
    assert EvalArr(a, w, 1) == EvalByte(Raw(b), w);
  }

  /** `expr::store`: a store over a store at the same index replaces it, and storing
      what a constant array holds anyway changes nothing. */
  function StoreArr(a: Arr, at: Off, b: Byte): Arr {
    match a
    case Store(arr, i, _) => if at == i then StoreArr(arr, at, b) else Store(a, at, b)
    case Const(c) => if c == b then a else Store(a, at, b)
    case _ => Store(a, at, b)
  }

  /** `mk_store`. */
  function MkStore(m: BlockVal, at: Off, b: Byte): BlockVal {
    Cells(StoreArr(if m.BV? then Const(m.b) else m.a, at, b))
  }

  lemma {:induction false} StoreArrMeans(a: Arr, at: Off, b: Byte, w: World, o: nat)
    ensures EvalArr(StoreArr(a, at, b), w, o) == if EvalOff(at, w) == o then EvalByte(b, w) else EvalArr(a, w, o)
    ensures ClosedArr(a) && ClosedOff(at) && ClosedByte(b) ==> ClosedArr(StoreArr(a, at, b))
  {
    match a
    case Store(arr, i, _) =>
      if at == i {
        StoreArrMeans(arr, at, b, w, o);
      }
    case _ =>
  }

  lemma MkStoreMeans(m: BlockVal, at: Off, b: Byte, w: World, o: nat)
    ensures At(MkStore(m, at, b), w, o) == if EvalOff(at, w) == o then EvalByte(b, w) else At(m, w, o)
    ensures Closed(m) && ClosedOff(at) && ClosedByte(b) ==> Closed(MkStore(m, at, b))
  {
    StoreArrMeans(if m.BV? then Const(m.b) else m.a, at, b, w, o);
  }

  /** `expr::mkLambda`, and the return of a constant array to a single byte. */
  function MkLambda(body: Byte): BlockVal {
    if ClosedByte(body) then BV(body)
    else if body.Load? && body.at == Bound then Cells(body.arr)
    else Cells(Lambda(body))
  }

  /** Arrays under a lambda do not use its variable. */
  predicate ArraysClosed(b: Byte) {
    match b
    case Raw(_) => true
    case Load(arr, _) => ClosedArr(arr)
    case Pick(_, x, y) => ArraysClosed(x) && ArraysClosed(y)
  }

  lemma MkLambdaMeans(body: Byte, w: World, o: nat)
    requires ArraysClosed(body)
    ensures At(MkLambda(body), w, o) == EvalByte(body, w.(bound := o)) && Closed(MkLambda(body))
  {
    if ClosedByte(body) {
      ClosedByteSame(body, w, o);
    } else if body.Load? && body.at == Bound {
      ClosedArrSame(body.arr, w, o, o);
    }
  }

  lemma {:induction false} ClosedArrays(b: Byte)
    requires ClosedByte(b)
    ensures ArraysClosed(b)
  {
    match b
    case Pick(_, x, y) =>
      ClosedArrays(x);
      ClosedArrays(y);
    case _ =>
  }

  lemma {:induction false} LoadArrArrays(a: Arr, at: Off, maxIdx: MaxIdx)
    requires ClosedArr(a)
    ensures ArraysClosed(LoadArr(a, at, maxIdx))
  {
    match a
    case Store(arr, i, b) =>
      LoadArrArrays(arr, at, maxIdx);
      ClosedArrays(b);
    case Const(b) => ClosedArrays(b);
    case _ =>
  }

  lemma RawLoadArrays(b: BlockVal, at: Off, maxIdx: MaxIdx)
    requires Closed(b)
    ensures ArraysClosed(RawLoad(b, at, maxIdx))
  {
    match b
    case BV(x) => ClosedArrays(x);
    case Cells(a) => LoadArrArrays(a, at, maxIdx);
  }
}
