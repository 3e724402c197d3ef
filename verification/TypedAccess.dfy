/** Typed accesses from end to end: what is stored at a type and loaded at the same type
    through the same pointer is the value, with its poison (ir/memory.cpp). */
module TypedAccess {
  import opened Terms
  import opened Binary
  import opened Aggregates
  import opened ByteEncoding
  import opened MemTerms
  import Aliasing
  import StoredOffsets
  import opened BlockStore
  import opened BlockMemory
  import opened MemoryState

  /** In this world, the byte terms are those of the integer, with any padding. */
  ghost predicate EncodesInteger(c: Config, bytes: seq<Byte>, w: World, value: Bits, nonPoison: bool, padValue: Bits, padNp: Bits) {
    && Good(c) && c.ints && |value| > 0 && |bytes| == DivideUp(|value|, c.bitsByte)
    && |padValue| == |padNp| == Times(|bytes|, c.bitsByte) - |value|
    && forall i: nat :: i < |bytes| ==> IntegerByteAt(c, bytes, w, padValue + value, padNp + PoisonBits(c, |value|, nonPoison), |value|, i)
  }

  function PoisonBits(c: Config, width: nat, nonPoison: bool): Bits {
    Repeat(nonPoison, NpBits(Scalar(width), true, LayoutOf(c)))
  }

  ghost predicate IntegerByteAt(c: Config, bytes: seq<Byte>, w: World, value: Bits, np: Bits, width: nat, i: nat) {
    i < |bytes| && EvalByte(bytes[i], w) == IntByte(c, Unit(value, i, c.bitsByte), Unit(np, i, c.poisonPerByte), width, i)
  }

  ghost predicate EncodesPointer(c: Config, bytes: seq<Byte>, w: World, ptr: Bits, nonPoison: bool) {
    && Good(c) && c.ptrs && |ptr| == c.ptrBits && bytes != [] && (c.offBits == 0 ==> |bytes| == 1)
    && forall i: nat :: i < |bytes| ==> EvalByte(bytes[i], w) == PtrByte(c, ptr, nonPoison, i)
  }

  /** The loaded bytes, with what is known of their blocks. */
  ghost predicate ReadAs(typed: seq<TypedByte>, ret: seq<Byte>, w: World) {
    |typed| == |ret| && forall i: nat :: i < |ret| ==> typed[i].bits == EvalByte(ret[i], w)
  }

  ghost predicate MayInt(typed: seq<TypedByte>) {
    forall i: nat :: i < |typed| ==> typed[i].mayInt
  }

  ghost predicate MayPtr(typed: seq<TypedByte>) {
    forall i: nat :: i < |typed| ==> typed[i].mayPtr
  }

  ghost predicate PointerRead(c: Config, typed: seq<TypedByte>, autoCast: Bits, ptr: Bits, nonPoison: bool) {
    typed != [] && PointerOf(c, typed, autoCast) == (ptr, nonPoison)
  }

  /** The loaded bytes are those stored. */
  ghost predicate SameBytes(bytes: seq<Byte>, ret: seq<Byte>, w: World) {
    |ret| == |bytes| && forall i: nat :: i < |bytes| ==> EvalByte(ret[i], w) == EvalByte(bytes[i], w)
  }

  lemma IntegerComesBack(c: Config, bytes: seq<Byte>, ret: seq<Byte>, typed: seq<TypedByte>, w: World, value: Bits, nonPoison: bool,
                         padValue: Bits, padNp: Bits, cast: Bits -> Bits)
    requires SameBytes(bytes, ret, w) && EncodesInteger(c, bytes, w, value, nonPoison, padValue, padNp) && ReadAs(typed, ret, w) && MayInt(typed)
    ensures IntegerOf(c, typed, |value|, cast) == StateValue(value, Flag(nonPoison))
  {
    hide IntByte, Unit, EvalByte, NpBits, DivideUp, Times, IntegerOf;
    forall i: nat | i < |typed|
      ensures StoredIntByte(c, typed[i], padValue + value, padNp + PoisonBits(c, |value|, nonPoison), |value|, i)
    {
      assert IntegerByteAt(c, bytes, w, padValue + value, padNp + PoisonBits(c, |value|, nonPoison), |value|, i);
    }
    IntegerRoundTrip(c, value, nonPoison, padValue, padNp, typed, cast);
  }

  lemma PointerComesBack(c: Config, bytes: seq<Byte>, ret: seq<Byte>, typed: seq<TypedByte>, w: World, ptr: Bits, nonPoison: bool, autoCast: Bits)
    requires SameBytes(bytes, ret, w) && EncodesPointer(c, bytes, w, ptr, nonPoison) && ReadAs(typed, ret, w) && MayPtr(typed)
    ensures PointerRead(c, typed, autoCast, ptr, nonPoison)
  {
    hide PtrByte, EvalByte, PointerOf;
    assert StoredPtr(c, typed, ptr, nonPoison);
    PointerRoundTrip(c, ptr, nonPoison, typed);
  }

  /** A store of the bytes of a value, and a load of as many bytes, through any alias
      sets and in either byte order: in every world in which the access is in bounds, an
      integer and a pointer come back with their poison. */
  method StoreAndLoad(m: Memory, p: Aliasing.Pointer, bytes: seq<Byte>, s: Aliasing.AliasSet, littleEndian: bool) returns (ret: seq<Byte>)
    requires m.Valid() && Suits(s, m.blocks, m.width) && ClosedOff(p.off) && forall i :: 0 <= i < |bytes| ==> ClosedByte(bytes[i])
    modifies m
    ensures m.Valid()
    ensures forall w, c, value, nonPoison, padValue, padNp, typed, cast ::
      InOrder(m, old(m.blocks), p, s, bytes, littleEndian, w) && EncodesInteger(c, bytes, w, value, nonPoison, padValue, padNp)
        && ReadAs(typed, ret, w) && MayInt(typed) ==>
      IntegerOf(c, typed, |value|, cast) == StateValue(value, Flag(nonPoison))
    ensures forall w, c, ptr, nonPoison, typed, autoCast ::
      InOrder(m, old(m.blocks), p, s, bytes, littleEndian, w) && EncodesPointer(c, bytes, w, ptr, nonPoison)
        && ReadAs(typed, ret, w) && MayPtr(typed) ==>
      PointerRead(c, typed, autoCast, ptr, nonPoison)
  {
    ghost var b0 := m.blocks;
    ret := StoreAndLoadBytes(m, p, bytes, s, littleEndian);
    hide *;
    forall w, c, value, nonPoison, padValue, padNp, typed, cast |
        InOrder(m, b0, p, s, bytes, littleEndian, w) && EncodesInteger(c, bytes, w, value, nonPoison, padValue, padNp) && ReadAs(typed, ret, w) && MayInt(typed)
      ensures IntegerOf(c, typed, |value|, cast) == StateValue(value, Flag(nonPoison))
    {
      IntegerComesBack(c, bytes, ret, typed, w, value, nonPoison, padValue, padNp, cast);
    }
    forall w, c, ptr, nonPoison, typed, autoCast |
        InOrder(m, b0, p, s, bytes, littleEndian, w) && EncodesPointer(c, bytes, w, ptr, nonPoison) && ReadAs(typed, ret, w) && MayPtr(typed)
      ensures PointerRead(c, typed, autoCast, ptr, nonPoison)
    {
      PointerComesBack(c, bytes, ret, typed, w, ptr, nonPoison, autoCast);
    }
  }

  ghost predicate InOrder(m: Memory, b0: Blocks, p: Aliasing.Pointer, s: Aliasing.AliasSet, bytes: seq<Byte>, littleEndian: bool, w: World) {
    SameShape(b0, m.sizes) && AccessOk(p, s, b0, m.sizes, Writes(Placed(bytes, littleEndian), Kept), w, m.width)
  }

  method StoreAndLoadBytes(m: Memory, p: Aliasing.Pointer, bytes: seq<Byte>, s: Aliasing.AliasSet, littleEndian: bool) returns (ret: seq<Byte>)
    requires m.Valid() && Suits(s, m.blocks, m.width) && ClosedOff(p.off) && forall i :: 0 <= i < |bytes| ==> ClosedByte(bytes[i])
    modifies m
    ensures m.Valid() && forall w :: InOrder(m, old(m.blocks), p, s, bytes, littleEndian, w) ==> SameBytes(bytes, ret, w)
  {
    ghost var b0, st0 := m.blocks, m.stored;
    m.ValidShape();
    PlacedBytes(bytes, littleEndian);
    m.Store(p, Placed(bytes, littleEndian), s, false);
    m.ValidShape();
    SameSuits(m, b0, m.blocks, s);
    ret := m.LoadBytes(p, |bytes|, s, littleEndian);
    forall w | InOrder(m, b0, p, s, bytes, littleEndian, w)
      ensures SameBytes(bytes, ret, w)
    {
      BytesComeBack(m, b0, st0, p, bytes, s, littleEndian, ret, w);
    }
  }

  lemma SameSuits(m: Memory, b0: Blocks, b: Blocks, s: Aliasing.AliasSet)
    requires SameShape(b0, m.sizes) && SameShape(b, m.sizes) && Suits(s, b0, m.width)
    ensures Suits(s, b, m.width)
  {
  }

  lemma BytesComeBack(m: Memory, b0: Blocks, st0: seq<StoredOffsets.StoredSet>, p: Aliasing.Pointer, bytes: seq<Byte>, s: Aliasing.AliasSet,
                      littleEndian: bool, ret: seq<Byte>, w: World)
    requires m.Valid() && SameShape(b0, m.sizes) && (forall i :: 0 <= i < |bytes| ==> ClosedByte(bytes[i])) && Suits(s, b0, m.width)
    requires SameShape(m.blocks, m.sizes) && m.Changed(b0, m.blocks, st0, m.stored, p, s, Writes(Placed(bytes, littleEndian), Kept))
    requires m.BytesLoaded(m.blocks, p, |bytes|, s, littleEndian, ret) && InOrder(m, b0, p, s, bytes, littleEndian, w)
    ensures SameBytes(bytes, ret, w)
  {
    LoadedLength(m, p, |bytes|, s, littleEndian, ret);
    hide EvalByte, ClosedByte, Suits;
    forall i: nat | i < |bytes|
      ensures EvalByte(ret[i], w) == EvalByte(bytes[i], w)
    {
      m.ReadsBackStored(b0, st0, p, bytes, s, littleEndian, ret, i, w);
    }
  }

  lemma LoadedLength(m: Memory, p: Aliasing.Pointer, n: nat, s: Aliasing.AliasSet, littleEndian: bool, ret: seq<Byte>)
    requires SameShape(m.blocks, m.sizes) && m.BytesLoaded(m.blocks, p, n, s, littleEndian, ret)
    ensures |ret| == n
  {
  }
}
