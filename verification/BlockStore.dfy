/** Writing to the contents of one block: the bodies that `Memory::store` and
    `Memory::storeLambda` run for each block (ir/memory.cpp). */
module BlockStore {
  import opened Terms
  import opened MemTerms

  datatype Datum = Datum(idx: nat, val: Byte)

  /** The last of the first `k` data with this index, or -1. */
  function IndexFor(data: seq<Datum>, k: nat, x: int): (i: int)
    requires k <= |data|
    ensures -1 <= i < k && (i >= 0 ==> data[i].idx == x) && (i < 0 ==> forall j :: 0 <= j < k ==> data[j].idx != x)
  {
    if k == 0 then -1 else if data[k - 1].idx == x then k - 1 else IndexFor(data, k - 1, x)
  }

  /** The data cover the indices below their number, each once. */
  ghost predicate Covers(data: seq<Datum>) {
    && (forall i :: 0 <= i < |data| ==> data[i].idx < |data| && ClosedByte(data[i].val))
    && (forall i, j :: 0 <= i < j < |data| ==> data[i].idx != data[j].idx)
    && (forall o :: 0 <= o < |data| ==> IndexFor(data, |data|, o) >= 0)
  }

  /** The byte that the data put at index `x`. */
  function DatumAt(data: seq<Datum>, x: int, w: World): Bits {
    var i := IndexFor(data, |data|, x);
    if i >= 0 then EvalByte(data[i].val, w) else []
  }

  /** An access of `n` bytes at `at` stays within a block of this size. */
  ghost predicate Within(at: nat, n: nat, size: Off, w: World) {
    at + n <= EvalOff(size, w) <= w.wrap
  }

  /** Where byte `i` of an `n`-byte value lies. */
  function Place(i: nat, n: nat, littleEndian: bool): int {
    if littleEndian then i else n - 1 - i
  }

  /** The data of a store of these bytes, the lowest byte first. */
  function Placed(bytes: seq<Byte>, littleEndian: bool): (r: seq<Datum>)
    ensures |r| == |bytes|
  {
    seq(|bytes|, i requires 0 <= i < |bytes| =>
      Datum(if Place(i, |bytes|, littleEndian) >= 0 then Place(i, |bytes|, littleEndian) else 0, bytes[i]))
  }

  /** In both byte orders, every place gets exactly its byte. */
  lemma PlacedBytes(bytes: seq<Byte>, littleEndian: bool)
    requires forall i :: 0 <= i < |bytes| ==> ClosedByte(bytes[i])
    ensures Covers(Placed(bytes, littleEndian))
    ensures forall i: nat :: i < |bytes| ==> IndexFor(Placed(bytes, littleEndian), |bytes|, Place(i, |bytes|, littleEndian)) == i
  {
    var data, n := Placed(bytes, littleEndian), |bytes|;
    forall i: nat | i < n
      ensures IndexFor(data, n, Place(i, n, littleEndian)) == i
    {
      assert data[i].idx == Place(i, n, littleEndian);
    }
    forall o | 0 <= o < n
      ensures IndexFor(data, n, o) >= 0
    {
      var i := Place(o, n, littleEndian);
      assert data[i].idx == o;
    }
  }

  /** The lowest byte comes first in little endian, and last in big endian. */
  lemma LowestByteFirst(bytes: seq<Byte>, littleEndian: bool, i: nat, w: World)
    requires i < |bytes| && forall j :: 0 <= j < |bytes| ==> ClosedByte(bytes[j])
    ensures DatumAt(Placed(bytes, littleEndian), if littleEndian then i else |bytes| - 1 - i, w) == EvalByte(bytes[i], w)
  {
    PlacedBytes(bytes, littleEndian);
    assert Place(i, |bytes|, littleEndian) == if littleEndian then i else |bytes| - 1 - i;
    hide EvalByte, ClosedByte, IndexFor, Covers;
  }

  // ----- plain stores --------------------------------------------------------

  lemma OffsetPlus(at: Off, i: nat, w: World)
    requires EvalOff(at, w) + i < w.wrap
    ensures EvalOff(Plus(at, Num(i)), w) == EvalOff(at, w) + i
  {
    var x := EvalOff(at, w) + i;
    assert Wrap(x, w.wrap) == x;
  }

  lemma OffsetSum(at: Off, n: Off, w: World)
    requires EvalOff(at, w) + EvalOff(n, w) < w.wrap
    ensures EvalOff(Plus(at, n), w) == EvalOff(at, w) + EvalOff(n, w)
  {
    var x := EvalOff(at, w) + EvalOff(n, w);
    assert Wrap(x, w.wrap) == x;
  }

  /** The byte at `o` after the first `k` data have been written. */
  function WrittenAt(m0: BlockVal, at: Off, data: seq<Datum>, k: nat, w: World, o: nat): Bits
    requires k <= |data|
  {
    var i := IndexFor(data, k, o - EvalOff(at, w));
    if i >= 0 then EvalByte(data[i].val, w) else At(m0, w, o)
  }

  ghost predicate WrittenTo(m0: BlockVal, m: BlockVal, at: Off, data: seq<Datum>, k: nat, w: World)
    requires k <= |data|
  {
    EvalOff(at, w) + |data| <= w.wrap ==> forall o: nat :: At(m, w, o) == WrittenAt(m0, at, data, k, w, o)
  }

  lemma WrittenNext(m0: BlockVal, at: Off, data: seq<Datum>, k: nat, w: World, o: nat)
    requires k < |data|
    ensures WrittenAt(m0, at, data, k + 1, w, o) ==
      if EvalOff(at, w) + data[k].idx == o then EvalByte(data[k].val, w) else WrittenAt(m0, at, data, k, w, o)
  {
    hide EvalByte, At, EvalOff;
  }

  lemma WriteStep(m0: BlockVal, m: BlockVal, at: Off, data: seq<Datum>, k: nat, w: World)
    requires Covers(data) && k < |data| && WrittenTo(m0, m, at, data, k, w)
    ensures WrittenTo(m0, MkStore(m, Plus(at, Num(data[k].idx)), data[k].val), at, data, k + 1, w)
  {
    hide MkStore, At, EvalByte, EvalOff, WrittenAt;
    var off := Plus(at, Num(data[k].idx));
    if EvalOff(at, w) + |data| <= w.wrap {
      OffsetPlus(at, data[k].idx, w);
      forall o: nat
        ensures At(MkStore(m, off, data[k].val), w, o) == WrittenAt(m0, at, data, k + 1, w, o)
      {
        MkStoreMeans(m, off, data[k].val, w, o);
        WrittenNext(m0, at, data, k, w, o);
      }
    }
  }

  /** A byte that the first `k` data leave alone, or that they set to its old value. */
  lemma WrittenHere(m0: BlockVal, at: Off, data: seq<Datum>, k: nat, w: World, o: nat)
    requires Covers(data) && k < |data| && EvalOff(at, w) + data[k].idx == o
    ensures WrittenAt(m0, at, data, k, w, o) == At(m0, w, o)
  {
    hide EvalByte, At, EvalOff;
  }

  /** Leaving out what the block holds anyway. */
  lemma SkipStep(m0: BlockVal, m: BlockVal, at: Off, data: seq<Datum>, k: nat, w: World)
    requires Covers(data) && k < |data| && WrittenTo(m0, m, at, data, k, w) && m0 == BV(data[k].val)
    ensures WrittenTo(m0, m, at, data, k + 1, w)
  {
    if EvalOff(at, w) + |data| <= w.wrap {
      forall o: nat
        ensures At(m, w, o) == WrittenAt(m0, at, data, k + 1, w, o)
      {
        assert At(m0, w, o) == EvalByte(data[k].val, w);
        hide At, EvalByte, EvalOff, WrittenAt;
        WrittenNext(m0, at, data, k, w, o);
        if EvalOff(at, w) + data[k].idx == o {
          WrittenHere(m0, at, data, k, w, o);
        }
      }
    }
  }

  /** The stores of all data, one by one. */
  method WriteData(m0: BlockVal, at: Off, data: seq<Datum>, fullWrite: bool) returns (m: BlockVal)
    requires Covers(data) && Closed(m0) && ClosedOff(at) && (fullWrite ==> data != [] && m0 == BV(data[0].val))
    ensures Closed(m) && forall w :: WrittenTo(m0, m, at, data, |data|, w)
  {
    m := m0;
    var k: nat := 0;
    hide IndexFor;
    forall w
      ensures WrittenTo(m0, m, at, data, 0, w)
    {
    }
    while k < |data|
      invariant k <= |data| && Closed(m) && forall w :: WrittenTo(m0, m, at, data, k, w)
    {
      hide WrittenTo, Closed, MkStore;
      var m' := m;
      var next := k + 1;
      if fullWrite && data[k].val == data[0].val {
        forall w
          ensures WrittenTo(m0, m', at, data, next, w)
        {
          SkipStep(m0, m, at, data, k, w);
        }
      } else {
        m' := MkStore(m, Plus(at, Num(data[k].idx)), data[k].val);
        forall w
          ensures WrittenTo(m0, m', at, data, next, w)
        {
          WriteStep(m0, m, at, data, k, w);
        }
        StoreClosed(m, at, data[k]);
      }
      m, k := m', next;
    }
  }

  lemma StoreClosed(m: BlockVal, at: Off, d: Datum)
    requires Closed(m) && ClosedOff(at) && ClosedByte(d.val)
    ensures Closed(MkStore(m, Plus(at, Num(d.idx)), d.val))
  {
    MkStoreMeans(m, Plus(at, Num(d.idx)), d.val, World(Valuation(_ => [], _ => true, (_, _, _) => [], (_, _) => []), _ => 0, _ => _ => [], 0, 0), 0);
  }

  /** What becomes of the bytes of a block that a store does not address. */
  datatype Rest = Kept | Becomes(b: Byte)

  ghost predicate RestAt(old0: BlockVal, new0: BlockVal, rest: Rest, w: World, o: nat) {
    At(new0, w, o) == if rest.Becomes? then EvalByte(rest.b, w) else At(old0, w, o)
  }

  /** What a store does to one block: where the guard holds, the addressed bytes change,
      and the others become what `rest` says. */
  ghost predicate Stored(old0: BlockVal, new0: BlockVal, size: Off, cond: Cond, at: Off, data: seq<Datum>, rest: Rest, w: World) {
    && (!Holds(cond, w.v) ==> forall o: nat :: At(new0, w, o) == At(old0, w, o))
    && (Holds(cond, w.v) && Within(EvalOff(at, w), |data|, size, w) ==>
          forall o: nat :: o < EvalOff(size, w) ==> StoredHere(old0, new0, at, data, rest, w, o))
  }

  ghost predicate StoredHere(old0: BlockVal, new0: BlockVal, at: Off, data: seq<Datum>, rest: Rest, w: World, o: nat) {
    var x := o - EvalOff(at, w);
    if 0 <= x < |data| then At(new0, w, o) == DatumAt(data, x, w) else RestAt(old0, new0, rest, w, o)
  }

  lemma StoredMeans(old0: BlockVal, m0: BlockVal, m: BlockVal, size: Off, cond: Cond, at: Off, data: seq<Datum>, rest: Rest, w: World)
    requires Covers(data) && WrittenTo(m0, m, at, data, |data|, w)
    requires m0 == (if rest.Becomes? then BV(rest.b) else old0) || size == Num(|data|)
    ensures Stored(old0, MkBlockIf(cond, m, old0), size, cond, at, data, rest, w)
  {
    var new0 := MkBlockIf(cond, m, old0);
    hide MkBlockIf, At, EvalByte, Holds, WrittenTo, StoredHere, RestAt;
    forall o: nat
      ensures !Holds(cond, w.v) ==> At(new0, w, o) == At(old0, w, o)
    {
      MkBlockIfMeans(cond, m, old0, w, o);
    }
    forall o: nat | Holds(cond, w.v) && Within(EvalOff(at, w), |data|, size, w) && o < EvalOff(size, w)
      ensures StoredHere(old0, new0, at, data, rest, w, o)
    {
      MkBlockIfMeans(cond, m, old0, w, o);
      StoredOne(old0, m0, m, new0, size, at, data, rest, w, o);
    }
  }

  lemma StoredOne(old0: BlockVal, m0: BlockVal, m: BlockVal, new0: BlockVal, size: Off, at: Off, data: seq<Datum>, rest: Rest, w: World, o: nat)
    requires Covers(data) && WrittenTo(m0, m, at, data, |data|, w) && Within(EvalOff(at, w), |data|, size, w) && o < EvalOff(size, w)
    requires m0 == (if rest.Becomes? then BV(rest.b) else old0) || size == Num(|data|)
    requires At(new0, w, o) == At(m, w, o)
    ensures StoredHere(old0, new0, at, data, rest, w, o)
  {
    hide *;
    Bounds(at, data, size, w);
    WrittenAll(m0, at, data, w, o);
    WrittenIs(m0, m, at, data, w, o);
    var x := o - EvalOff(at, w);
    if !(0 <= x < |data|) {
      RestMeans(old0, m0, new0, rest, w, o);
    }
    HereMeans(old0, new0, at, data, rest, w, o);
  }

  lemma Bounds(at: Off, data: seq<Datum>, size: Off, w: World)
    requires Within(EvalOff(at, w), |data|, size, w)
    ensures EvalOff(at, w) + |data| <= EvalOff(size, w) <= w.wrap && (size == Num(|data|) ==> EvalOff(size, w) == |data|)
  {
  }

  lemma WrittenIs(m0: BlockVal, m: BlockVal, at: Off, data: seq<Datum>, w: World, o: nat)
    requires WrittenTo(m0, m, at, data, |data|, w) && EvalOff(at, w) + |data| <= w.wrap
    ensures At(m, w, o) == WrittenAt(m0, at, data, |data|, w, o)
  {
    hide At, EvalOff, WrittenAt;
  }

  lemma HereMeans(old0: BlockVal, new0: BlockVal, at: Off, data: seq<Datum>, rest: Rest, w: World, o: nat)
    ensures var x := o - EvalOff(at, w);
      StoredHere(old0, new0, at, data, rest, w, o) <==> if 0 <= x < |data| then At(new0, w, o) == DatumAt(data, x, w) else RestAt(old0, new0, rest, w, o)
  {
    hide At, EvalOff, DatumAt, RestAt;
  }

  lemma RestMeans(old0: BlockVal, m0: BlockVal, new0: BlockVal, rest: Rest, w: World, o: nat)
    requires m0 == if rest.Becomes? then BV(rest.b) else old0
    ensures At(new0, w, o) == At(m0, w, o) ==> RestAt(old0, new0, rest, w, o)
  {
    hide EvalByte;
  }

  lemma WrittenAll(m0: BlockVal, at: Off, data: seq<Datum>, w: World, o: nat)
    requires Covers(data)
    ensures WrittenAt(m0, at, data, |data|, w, o) ==
      if 0 <= o - EvalOff(at, w) < |data| then DatumAt(data, o - EvalOff(at, w), w) else At(m0, w, o)
  {
    hide At, EvalByte, EvalOff;
    var x := o - EvalOff(at, w);
    if 0 <= x < |data| {
      assert IndexFor(data, |data|, x) >= 0;
    }
  }

  /** An initializer gives up the old contents: the bytes beyond it are poison, except that
      an initializer of one byte is taken for the contents of all bytes. */
  function RestOf(init: bool, data: seq<Datum>, poison: Byte): Rest {
    if !init || data == [] then Kept else if |data| == 1 then Becomes(data[0].val) else Becomes(poison)
  }

  /** What `Memory::store` does to one block. */
  method StoreInto(old0: BlockVal, size: Off, cond: Cond, at: Off, data: seq<Datum>, init: bool, poison: Byte) returns (new0: BlockVal)
    requires Covers(data) && data != [] && Closed(old0) && ClosedOff(at) && ClosedByte(poison)
    ensures Closed(new0) && forall w :: Stored(old0, new0, size, cond, at, data, RestOf(init, data, poison), w)
  {
    var m0 := old0;
    var fullWrite := size.Num? && size.n == |data|;
    if fullWrite || init {
      if |data| == 1 {
        m0 := BV(data[0].val);
      } else {
        m0 := if fullWrite then BV(data[0].val) else BV(poison);
      }
    }
    var m := WriteData(m0, at, data, fullWrite);
    new0 := MkBlockIf(cond, m, old0);
    forall w
      ensures Stored(old0, new0, size, cond, at, data, RestOf(init, data, poison), w)
    {
      hide Covers;
      StoredMeans(old0, m0, m, size, cond, at, data, RestOf(init, data, poison), w);
    }
    BlockIfClosed(cond, m, old0);
  }

  /** A byte beyond an initializer is poison if and only if the initializer has more than
      one byte, or its only byte is poison itself. */
  lemma RestIsPoisonIff(old0: BlockVal, new0: BlockVal, size: Off, cond: Cond, at: Off, data: seq<Datum>, poison: Byte, w: World, o: nat)
    requires data != [] && Stored(old0, new0, size, cond, at, data, RestOf(true, data, poison), w)
    requires Holds(cond, w.v) && Within(EvalOff(at, w), |data|, size, w) && o < EvalOff(size, w)
    requires !(EvalOff(at, w) <= o < EvalOff(at, w) + |data|)
    ensures At(new0, w, o) == EvalByte(poison, w) <==> |data| != 1 || EvalByte(data[0].val, w) == EvalByte(poison, w)
  {
    hide Holds, At, EvalByte, EvalOff, DatumAt, Within, StoredHere;
    HereMeans(old0, new0, at, data, RestOf(true, data, poison), w, o);
  }

  /** A block of four bytes with an initializer of one byte: the last byte is the initializer
      as well, whatever it is, and not poison. */
  method InitializeOne(old0: BlockVal, x: Bits, poison: Bits) returns (new0: BlockVal)
    requires Closed(old0)
    ensures forall w: World :: w.wrap >= 4 ==> At(new0, w, 3) == x
    ensures forall w: World :: w.wrap >= 4 && x != poison ==> At(new0, w, 3) != EvalByte(Raw(Lit(poison)), w)
  {
    var data := [Datum(0, Raw(Lit(x)))];
    assert IndexFor(data, 1, 0) == 0;
    new0 := StoreInto(old0, Num(4), True, Num(0), data, true, Raw(Lit(poison)));
    forall w: World | w.wrap >= 4
      ensures At(new0, w, 3) == x && EvalByte(Raw(Lit(poison)), w) == poison
    {
      ConstantsMean(w.v);
      LiteralBytes(x, poison, w);
      hide Holds, At, EvalByte, IndexFor, DatumAt, StoredHere;
      HereMeans(old0, new0, Num(0), data, RestOf(true, data, Raw(Lit(poison))), w, 3);
      assert Stored(old0, new0, Num(4), True, Num(0), data, RestOf(true, data, Raw(Lit(poison))), w);
      assert Within(EvalOff(Num(0), w), |data|, Num(4), w);
    }
  }

  lemma LiteralBytes(x: Bits, poison: Bits, w: World)
    ensures EvalByte(Raw(Lit(x)), w) == x && EvalByte(Raw(Lit(poison)), w) == poison
    ensures EvalOff(Num(0), w) == 0 && EvalOff(Num(4), w) == 4
  {
  }

  lemma BlockIfClosed(c: Cond, x: BlockVal, y: BlockVal)
    requires Closed(x) && Closed(y)
    ensures Closed(MkBlockIf(c, x, y))
  {
    MkBlockIfMeans(c, x, y, World(Valuation(_ => [], _ => true, (_, _, _) => [], (_, _) => []), _ => 0, _ => _ => [], 0, 0), 0);
  }

  // ----- lambdas -------------------------------------------------------------

  /** The value of the lambda: the data by offset modulo their number, from datum `k`. */
  function Repeated(data: seq<Datum>, k: nat): Byte
    requires k < |data|
    decreases |data| - k
  {
    if k == |data| - 1 then data[k].val
    else MkPick(ModIs(Bound, |data|, data[k].idx), data[k].val, Repeated(data, k + 1))
  }

  lemma {:induction false} RepeatedMeans(data: seq<Datum>, k: nat, w: World, i: nat)
    requires k <= i < |data| && w.bound % |data| == data[i].idx
    requires forall j :: k <= j < i ==> data[j].idx != data[i].idx
    ensures EvalByte(Repeated(data, k), w) == EvalByte(data[i].val, w)
    decreases |data| - k
  {
    if k < |data| - 1 {
      MkPickMeans(ModIs(Bound, |data|, data[k].idx), data[k].val, Repeated(data, k + 1), w);
      if k < i {
        RepeatedMeans(data, k + 1, w, i);
      }
      hide MkPick, EvalByte;
    }
  }

  lemma {:induction false} RepeatedArrays(data: seq<Datum>, k: nat)
    requires k < |data| && forall i :: 0 <= i < |data| ==> ArraysClosed(data[i].val)
    ensures ArraysClosed(Repeated(data, k))
    decreases |data| - k
  {
    if k < |data| - 1 {
      RepeatedArrays(data, k + 1);
    }
  }

  /** A constant array is turned back into a single byte. */
  function Unspread(b: BlockVal): BlockVal {
    if b.Cells? && b.a.Const? then BV(b.a.b) else b
  }

  lemma UnspreadMeans(b: BlockVal, w: World, o: nat)
    ensures At(Unspread(b), w, o) == At(b, w, o) && (Closed(b) ==> Closed(Unspread(b)))
  {
  }

  /** What a lambda store does to one block: every addressed byte becomes the value at
      its offset. */
  ghost predicate Filled(old0: BlockVal, new0: BlockVal, size: Off, cond: Cond, at: Off, n: Off, val: Byte, fullWrite: bool, w: World) {
    && (!Holds(cond, w.v) ==> forall o: nat :: At(new0, w, o) == At(old0, w, o))
    && (Holds(cond, w.v) && Within(EvalOff(at, w), EvalOff(n, w), size, w) && EvalOff(at, w) + EvalOff(n, w) < w.wrap &&
        (fullWrite ==> EvalOff(at, w) == 0 && EvalOff(n, w) == EvalOff(size, w)) ==>
          forall o: nat :: o < EvalOff(size, w) ==>
            At(new0, w, o) == if EvalOff(at, w) <= o < EvalOff(at, w) + EvalOff(n, w) then EvalByte(val, w.(bound := o)) else At(old0, w, o))
  }

  lemma PickedMeans(old0: BlockVal, c: OffCond, val: Byte, w: World, o: nat)
    requires Closed(old0) && ArraysClosed(val)
    ensures var body := MkPick(c, val, RawLoad(old0, Bound, Anything));
      && At(MkLambda(body), w, o) == (if HoldsOff(c, w.(bound := o)) then EvalByte(val, w.(bound := o)) else At(old0, w, o))
      && Closed(MkLambda(body))
  {
    var w' := w.(bound := o);
    var orig := RawLoad(old0, Bound, Anything);
    RawLoadMeans(old0, Bound, Anything, w');
    RawLoadArrays(old0, Bound, Anything);
    ClosedSame(old0, w, o, o);
    MkPickMeans(c, val, orig, w');
    var body := MkPick(c, val, orig);
    MkLambdaMeans(body, w, o);
  }

  /** What `Memory::storeLambda` does to one block. */
  method StoreLambdaInto(old0: BlockVal, size: Off, cond: Cond, at: Off, n: Off, val: Byte, fullWrite: bool, single: bool) returns (new0: BlockVal)
    requires Closed(old0) && ClosedOff(at) && ClosedOff(n) && ArraysClosed(val)
    ensures Closed(new0) && forall w :: Filled(old0, new0, size, cond, at, n, val, fullWrite, w)
  {
    var valNoOffset := single && ClosedByte(val);
    if fullWrite || n == size {
      if valNoOffset {
        new0 := Unspread(MkBlockIf(cond, BV(val), old0));
        forall w
          ensures Filled(old0, new0, size, cond, at, n, val, fullWrite, w)
        {
          ConstantFilled(old0, size, cond, at, n, val, fullWrite, w);
        }
        BlockIfClosed(cond, BV(val), old0);
      } else {
        new0 := MkLambda(MkPick(Plain(cond), val, RawLoad(old0, Bound, Anything)));
        forall w
          ensures Closed(new0) && Filled(old0, new0, size, cond, at, n, val, fullWrite, w)
        {
          AllFilled(old0, size, cond, at, n, val, fullWrite, w);
        }
        LambdaClosed(old0, Plain(cond), val);
      }
    } else {
      var c := MkBoth(Plain(cond), InRange(Bound, at, Plus(at, n)));
      new0 := MkLambda(MkPick(c, val, RawLoad(old0, Bound, Anything)));
      forall w
        ensures Filled(old0, new0, size, cond, at, n, val, fullWrite, w)
      {
        RangeFilled(old0, size, cond, at, n, val, fullWrite, w);
      }
      LambdaClosed(old0, c, val);
    }
  }

  lemma LambdaClosed(old0: BlockVal, c: OffCond, val: Byte)
    requires Closed(old0) && ArraysClosed(val)
    ensures Closed(MkLambda(MkPick(c, val, RawLoad(old0, Bound, Anything))))
  {
    PickedMeans(old0, c, val, World(Valuation(_ => [], _ => true, (_, _, _) => [], (_, _) => []), _ => 0, _ => _ => [], 0, 0), 0);
  }

  lemma ConstantFilled(old0: BlockVal, size: Off, cond: Cond, at: Off, n: Off, val: Byte, fullWrite: bool, w: World)
    requires ClosedByte(val) && (fullWrite || n == size)
    ensures Filled(old0, Unspread(MkBlockIf(cond, BV(val), old0)), size, cond, at, n, val, fullWrite, w)
  {
    var m := MkBlockIf(cond, BV(val), old0);
    forall o: nat
      ensures At(Unspread(m), w, o) == if Holds(cond, w.v) then EvalByte(val, w.(bound := o)) else At(old0, w, o)
    {
      UnspreadMeans(m, w, o);
      MkBlockIfMeans(cond, BV(val), old0, w, o);
      ClosedByteSame(val, w, o);
    }
    hide At, EvalByte, Holds, MkBlockIf, Unspread;
  }

  lemma AllFilled(old0: BlockVal, size: Off, cond: Cond, at: Off, n: Off, val: Byte, fullWrite: bool, w: World)
    requires Closed(old0) && ArraysClosed(val) && (fullWrite || n == size)
    ensures var new0 := MkLambda(MkPick(Plain(cond), val, RawLoad(old0, Bound, Anything)));
      Closed(new0) && Filled(old0, new0, size, cond, at, n, val, fullWrite, w)
  {
    var new0 := MkLambda(MkPick(Plain(cond), val, RawLoad(old0, Bound, Anything)));
    forall o: nat
      ensures Closed(new0) && At(new0, w, o) == if Holds(cond, w.v) then EvalByte(val, w.(bound := o)) else At(old0, w, o)
    {
      PickedMeans(old0, Plain(cond), val, w, o);
      assert HoldsOff(Plain(cond), w.(bound := o)) == Holds(cond, w.v);
    }
    LambdaClosed(old0, Plain(cond), val);
    hide At, EvalByte, Holds, MkLambda, MkPick, RawLoad, Closed;
  }

  lemma RangeFilled(old0: BlockVal, size: Off, cond: Cond, at: Off, n: Off, val: Byte, fullWrite: bool, w: World)
    requires Closed(old0) && ArraysClosed(val) && ClosedOff(at) && ClosedOff(n)
    ensures var c := MkBoth(Plain(cond), InRange(Bound, at, Plus(at, n)));
      Filled(old0, MkLambda(MkPick(c, val, RawLoad(old0, Bound, Anything))), size, cond, at, n, val, fullWrite, w)
  {
    hide At, EvalByte, Holds, HoldsOff, MkLambda, MkPick, RawLoad, Closed, ArraysClosed, MkBoth, EvalOff, ClosedOff;
    var c := MkBoth(Plain(cond), InRange(Bound, at, Plus(at, n)));
    var new0 := MkLambda(MkPick(c, val, RawLoad(old0, Bound, Anything)));
    forall o: nat
      ensures At(new0, w, o) == if Holds(cond, w.v) && EvalOff(at, w) <= o < EvalOff(Plus(at, n), w) then EvalByte(val, w.(bound := o)) else At(old0, w, o)
    {
      PickedMeans(old0, c, val, w, o);
      InRangeMeans(cond, at, n, w, o);
    }
    if EvalOff(at, w) + EvalOff(n, w) < w.wrap {
      OffsetSum(at, n, w);
    }
  }

  lemma InRangeMeans(cond: Cond, at: Off, n: Off, w: World, o: nat)
    requires ClosedOff(at) && ClosedOff(n)
    ensures HoldsOff(MkBoth(Plain(cond), InRange(Bound, at, Plus(at, n))), w.(bound := o)) <==>
              Holds(cond, w.v) && EvalOff(at, w) <= o < EvalOff(Plus(at, n), w)
  {
    var w' := w.(bound := o);
    MkBothMeans(Plain(cond), InRange(Bound, at, Plus(at, n)), w');
    ClosedOffSame(at, w, o);
    ClosedOffSame(Plus(at, n), w, o);
    RangeMeans(at, n, cond, w');
    hide MkBoth, HoldsOff, Holds, EvalOff;
  }

  lemma RangeMeans(at: Off, n: Off, cond: Cond, w: World)
    ensures HoldsOff(InRange(Bound, at, Plus(at, n)), w) <==> EvalOff(at, w) <= w.bound < EvalOff(Plus(at, n), w)
    ensures HoldsOff(Plain(cond), w) <==> Holds(cond, w.v)
  {
  }
}
