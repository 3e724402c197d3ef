/** Aggregates and vectors packed into bit-vectors, most significant bit first:
    `AggregateType` and `VectorType` (ir/type.cpp), insertvalue and extractvalue
    (ir/instr.cpp). */
module Aggregates {
  import opened Terms

  datatype Type = Scalar(width: nat) | Agg(fields: seq<Field>)

  datatype Field = Field(ty: Type, padding: bool)

  /** A scalar's poison flag is a boolean, an aggregate's a bit-vector. */
  datatype Np = Flag(b: bool) | Packed(bits: Bits)

  datatype StateValue = StateValue(value: Bits, np: Np)

  /** `bits_byte`, `bits_poison_per_byte` and the byte order. */
  datatype Layout = Layout(bitsByte: nat, poisonPerByte: nat, littleEndian: bool)

  function Repeat(b: bool, n: nat): (r: Bits)
    ensures |r| == n && forall i :: 0 <= i < n ==> r[i] == b
  {
    seq(n, _ => b)
  }

  function AllOnes(b: Bits): bool {
    b == Repeat(true, |b|)
  }

  lemma AllOnesRepeat(b: bool, n: nat)
    requires n > 0
    ensures AllOnes(Repeat(b, n)) == b
  {
    assert Repeat(b, n)[0] == b && Repeat(true, n)[0];
  }

  /** Bitwise conjunction of equally wide bit-vectors. */
  function BitAnd(a: Bits, b: Bits): Bits {
    if |a| == |b| then seq(|a|, i requires 0 <= i < |a| => a[i] && b[i]) else []
  }

  // ----- widths --------------------------------------------------------------

  /** The bits of the first `k` fields. */
  function BitsBefore(ty: Type, k: nat): nat
    requires ty.Agg? && k <= |ty.fields|
    decreases ty, k
  {
    if k == 0 then 0 else BitsBefore(ty, k - 1) + TypeBits(ty.fields[k - 1].ty)
  }

  /** `Type::bits`; empty aggregates take one bit. */
  function TypeBits(ty: Type): nat
    decreases ty, if ty.Agg? then |ty.fields| + 1 else 0
  {
    match ty
    case Scalar(n) => n
    case Agg(fields) => if fields == [] then 1 else BitsBefore(ty, |fields|)
  }

  /** `n / d`, rounded up. */
  function DivideUp(n: nat, d: nat): nat {
    if n == 0 || d == 0 then 0 else 1 + DivideUp(if n > d then n - d else 0, d)
  }

  function Times(n: nat, p: nat): nat {
    if n == 0 then 0 else Times(n - 1, p) + p
  }

  function NpBefore(ty: Type, k: nat, fromInt: bool, l: Layout): nat
    requires ty.Agg? && k <= |ty.fields|
    decreases ty, k
  {
    if k == 0 then 0 else NpBefore(ty, k - 1, fromInt, l) + NpBits(ty.fields[k - 1].ty, fromInt, l)
  }

  /** `Type::np_bits`. */
  function NpBits(ty: Type, fromInt: bool, l: Layout): nat
    decreases ty, if ty.Agg? then |ty.fields| + 1 else 0
  {
    match ty
    case Scalar(n) =>
      if !fromInt then 1
      else
        var m := DivideUp(Times(n, l.poisonPerByte), l.bitsByte);
        if n < m then n else m
    case Agg(fields) => if fields == [] then 1 else NpBefore(ty, |fields|, fromInt, l)
  }

  /** Every nested type takes at least one bit. */
  ghost predicate NoZeroWidth(ty: Type) {
    TypeBits(ty) > 0 && (ty.Agg? ==> forall i :: 0 <= i < |ty.fields| ==> NoZeroWidth(ty.fields[i].ty))
  }

  ghost predicate FieldsNonZero(ty: Type)
    requires ty.Agg?
  {
    forall i :: 0 <= i < |ty.fields| ==> TypeBits(ty.fields[i].ty) > 0
  }

  /** The value has the widths of its type. */
  ghost predicate Fits(v: StateValue, ty: Type, l: Layout) {
    && |v.value| == TypeBits(ty)
    && match ty
       case Scalar(_) => v.np.Flag?
       case Agg(_) => v.np.Packed? && |v.np.bits| == NpBits(ty, false, l)
  }

  // ----- single values -------------------------------------------------------

  /** `toBV`. */
  function NpToBV(np: Np): Bits {
    match np
    case Flag(b) => [b]
    case Packed(bits) => bits
  }

  /** `fromBV`. */
  function NpFromBV(ty: Type, bits: Bits): Np {
    match ty
    case Scalar(_) => Flag(AllOnes(bits))
    case Agg(_) => Packed(bits)
  }

  lemma NpRoundTrip(v: StateValue, ty: Type, l: Layout)
    requires Fits(v, ty, l)
    ensures NpFromBV(ty, NpToBV(v.np)) == v.np && |NpToBV(v.np)| == NpBits(ty, false, l)
  {
    if v.np.Flag? {
      assert [v.np.b][0] == v.np.b;
      assert Repeat(true, 1)[0] == true;
      assert v.np.b ==> [v.np.b] == Repeat(true, 1);
    }
  }

  // ----- packing -------------------------------------------------------------

  function Dummy(ty: Type): StateValue
    decreases ty, if ty.Agg? then |ty.fields| + 1 else 0
  {
    match ty
    case Scalar(n) => StateValue(Repeat(false, n), Flag(false))
    case Agg(fields) => Pack(ty, Dummies(ty, |fields|))
  }

  function Dummies(ty: Type, k: nat): (r: seq<StateValue>)
    requires ty.Agg? && k <= |ty.fields|
    ensures |r| == k
    decreases ty, k
  {
    if k == 0 then [] else Dummies(ty, k - 1) + [Dummy(ty.fields[k - 1].ty)]
  }

  /** The value bits of the first `k` parts; fields without bits are left out. */
  function PackValue(ty: Type, parts: seq<StateValue>, k: nat): Bits
    requires ty.Agg? && k <= |ty.fields| && k <= |parts|
  {
    if k == 0 then [] else PackValue(ty, parts, k - 1) + if TypeBits(ty.fields[k - 1].ty) == 0 then [] else parts[k - 1].value
  }

  function PackNp(ty: Type, parts: seq<StateValue>, k: nat): Bits
    requires ty.Agg? && k <= |ty.fields| && k <= |parts|
  {
    if k == 0 then [] else PackNp(ty, parts, k - 1) + if TypeBits(ty.fields[k - 1].ty) == 0 then [] else NpToBV(parts[k - 1].np)
  }

  /** The aggregate of one value for each field, padding included. */
  function Pack(ty: Type, parts: seq<StateValue>): StateValue
    requires ty.Agg? && |ty.fields| == |parts|
  {
    if parts == [] then StateValue([false], Packed([false]))
    else StateValue(PackValue(ty, parts, |parts|), Packed(PackNp(ty, parts, |parts|)))
  }

  /** The number of fields among the first `k` that are not padding. */
  function CountValues(ty: Type, k: nat): nat
    requires ty.Agg? && k <= |ty.fields|
  {
    if k == 0 then 0 else CountValues(ty, k - 1) + if ty.fields[k - 1].padding then 0 else 1
  }

  /** `vals` are the parts that are not padding, and padding is dummy. */
  ghost predicate Spread(ty: Type, vals: seq<StateValue>, parts: seq<StateValue>)
    requires ty.Agg?
  {
    && |parts| == |ty.fields| && |vals| == CountValues(ty, |ty.fields|)
    && forall i: nat :: i < |parts| ==> SpreadAt(ty, vals, parts, i)
  }

  ghost predicate SpreadAt(ty: Type, vals: seq<StateValue>, parts: seq<StateValue>, i: nat)
    requires ty.Agg? && i < |parts| == |ty.fields| && |vals| == CountValues(ty, |ty.fields|)
  {
    if ty.fields[i].padding then parts[i] == Dummy(ty.fields[i].ty)
    else CountValues(ty, i) < |vals| && parts[i] == vals[CountValues(ty, i)]
  }

  /** `AggregateType::aggregateVals`: padding is filled with dummy values. */
  method AggregateVals(ty: Type, vals: seq<StateValue>, ghost parts: seq<StateValue>) returns (v: StateValue)
    requires ty.Agg? && Spread(ty, vals, parts)
    requires forall i :: 0 <= i < |ty.fields| && ty.fields[i].padding ==> TypeBits(ty.fields[i].ty) > 0
    ensures v == Pack(ty, parts)
  {
    if ty.fields == [] {
      return StateValue([false], Packed([false]));
    }
    var value: Bits, np: Bits := [], [];
    var valIdx: nat := 0;
    var idx: nat := 0;
    while idx < |ty.fields|
      invariant idx <= |ty.fields| && valIdx == CountValues(ty, idx)
      invariant value == PackValue(ty, parts, idx) && np == PackNp(ty, parts, idx)
    {
      var f := ty.fields[idx];
      assert SpreadAt(ty, vals, parts, idx);
      if TypeBits(f.ty) == 0 {
        valIdx := valIdx + 1;
      } else {
        var vv;
        if f.padding {
          vv := Dummy(f.ty);
        } else {
          vv := vals[valIdx];
          valIdx := valIdx + 1;
        }
        value, np := value + vv.value, np + NpToBV(vv.np);
      }
      idx := idx + 1;
    }
    v := StateValue(value, Packed(np));
  }

  // ----- extracting ----------------------------------------------------------

  /** `n` bits, when `total` bits precede them. */
  function Part(b: Bits, total: nat, n: nat): Bits {
    if total + n <= |b| then b[total..total + n] else []
  }

  /** Field `i` of an aggregate value. */
  function FieldOf(v: StateValue, ty: Type, i: nat, l: Layout): StateValue
    requires ty.Agg? && i < |ty.fields|
  {
    var f := ty.fields[i].ty;
    StateValue(Part(v.value, BitsBefore(ty, i), TypeBits(f)), NpFromBV(f, Part(NpToBV(v.np), NpBefore(ty, i, false, l), NpBits(f, false, l))))
  }

  /** The bits of a field in the integer form: fields start at the low end in little
      endian, and at the high end otherwise. */
  function IntPart(b: Bits, total: nat, n: nat, l: Layout): Bits {
    if total + n > |b| then [] else if l.littleEndian then b[|b| - total - n..|b| - total] else b[total..total + n]
  }

  /** Field `i` of the integer form of an aggregate. */
  function IntFieldOf(value: Bits, np: Bits, ty: Type, i: nat, l: Layout): (Bits, Bits)
    requires ty.Agg? && i < |ty.fields|
  {
    var f := ty.fields[i].ty;
    (IntPart(value, BitsBefore(ty, i), TypeBits(f), l), IntPart(np, NpBefore(ty, i, true, l), NpBits(f, true, l), l))
  }

  lemma {:induction false} PrefixFits(ty: Type, i: nat, k: nat, l: Layout, fromInt: bool)
    requires ty.Agg? && i < k <= |ty.fields|
    ensures BitsBefore(ty, i) + TypeBits(ty.fields[i].ty) <= BitsBefore(ty, k)
    ensures NpBefore(ty, i, fromInt, l) + NpBits(ty.fields[i].ty, fromInt, l) <= NpBefore(ty, k, fromInt, l)
    decreases k
  {
    if i < k - 1 {
      PrefixFits(ty, i, k - 1, l, fromInt);
    }
  }

  lemma SliceIsPart(b: Bits, total: nat, n: nat)
    requires total + n <= |b| && n > 0
    ensures Slice(b, |b| - total - 1, |b| - total - n) == Part(b, total, n)
    ensures Slice(b, total + n - 1, total) == b[|b| - total - n..|b| - total]
  {
  }

  /** The bits before a field, summed up field by field. */
  method Totals(ty: Type, index: nat, fromInt: bool, l: Layout) returns (totalValue: nat, totalNp: nat)
    requires ty.Agg? && index < |ty.fields|
    ensures totalValue == BitsBefore(ty, index) && totalNp == NpBefore(ty, index, fromInt, l)
  {
    hide DivideUp;
    totalValue, totalNp := 0, 0;
    var i: nat := 0;
    while i < index
      invariant i <= index && totalValue == BitsBefore(ty, i) && totalNp == NpBefore(ty, i, fromInt, l)
    {
      totalValue, totalNp := totalValue + TypeBits(ty.fields[i].ty), totalNp + NpBits(ty.fields[i].ty, fromInt, l);
      i := i + 1;
    }
  }

  /** The slice that holds a field: its highest and lowest bit. */
  function SliceOf(b: Bits, total: nat, n: nat, fromInt: bool, l: Layout): Bits {
    if fromInt && l.littleEndian then Slice(b, if total + n > 0 then total + n - 1 else 0, total)
    else if total + n <= |b| && n > 0 then Slice(b, |b| - total - 1, |b| - total - n)
    else []
  }

  lemma SliceOfMeans(b: Bits, total: nat, n: nat, fromInt: bool, l: Layout)
    requires total + n <= |b| && n > 0
    ensures SliceOf(b, total, n, fromInt, l) == if fromInt then IntPart(b, total, n, l) else Part(b, total, n)
  {
    SliceIsPart(b, total, n);
  }

  /** `part` has `before` bits of `b` below it if `low`, and above it otherwise. */
  ghost predicate SitsAt(b: Bits, part: Bits, before: nat, low: bool) {
    before + |part| <= |b| && part == if low then b[|b| - before - |part|..|b| - before] else b[before..before + |part|]
  }

  /** The poison of a field whose `n` poison bits are so placed: a scalar is well-defined
      if all of them are set, an aggregate keeps them. */
  ghost predicate NpSitsAt(r: Np, f: Type, np: Bits, before: nat, n: nat, low: bool) {
    exists bits :: |bits| == n && SitsAt(np, bits, before, low) &&
      r == if f.Scalar? then Flag(forall k :: 0 <= k < n ==> bits[k]) else Packed(bits)
  }

  lemma SlicePlaced(b: Bits, total: nat, n: nat, fromInt: bool, l: Layout)
    requires total + n <= |b| && n > 0
    ensures var s := SliceOf(b, total, n, fromInt, l); |s| == n && SitsAt(b, s, total, fromInt && l.littleEndian)
  {
  }

  lemma FromBVPlaced(f: Type, np: Bits, bits: Bits, before: nat, low: bool)
    requires SitsAt(np, bits, before, low)
    ensures NpSitsAt(NpFromBV(f, bits), f, np, before, |bits|, low)
  {
    AllOnesIs(bits);
    hide AllOnes, SitsAt;
    if f.Scalar? {
      assert NpFromBV(f, bits) == Flag(AllOnes(bits));
    }
  }

  lemma AllOnesIs(b: Bits)
    ensures AllOnes(b) <==> forall k :: 0 <= k < |b| ==> b[k]
  {
  }

  /** `AggregateType::extract`, for both forms of aggregates and both byte orders. */
  method Extract(value: Bits, np: Bits, ty: Type, index: nat, fromInt: bool, l: Layout) returns (rValue: Bits, rNp: Np)
    requires ty.Agg? && index < |ty.fields| && |value| == TypeBits(ty) && |np| == NpBits(ty, fromInt, l)
    requires TypeBits(ty.fields[index].ty) > 0 && NpBits(ty.fields[index].ty, fromInt, l) > 0
    ensures !fromInt ==> StateValue(rValue, rNp) == FieldOf(StateValue(value, Packed(np)), ty, index, l)
    ensures fromInt ==> (rValue, rNp) == (IntFieldOf(value, np, ty, index, l).0, NpFromBV(ty.fields[index].ty, IntFieldOf(value, np, ty, index, l).1))
    ensures |rValue| == TypeBits(ty.fields[index].ty) && SitsAt(value, rValue, BitsBefore(ty, index), fromInt && l.littleEndian)
    ensures NpSitsAt(rNp, ty.fields[index].ty, np, NpBefore(ty, index, fromInt, l), NpBits(ty.fields[index].ty, fromInt, l), fromInt && l.littleEndian)
  {
    var f := ty.fields[index].ty;
    InRange(value, np, ty, index, fromInt, l);
    FieldOfIs(value, np, ty, index, fromInt, l);
    hide *;
    var totalValue, totalNp := Totals(ty, index, fromInt, l);
    SliceOfMeans(value, totalValue, TypeBits(f), fromInt, l);
    SliceOfMeans(np, totalNp, NpBits(f, fromInt, l), fromInt, l);
    rValue := SliceOf(value, totalValue, TypeBits(f), fromInt, l);
    rNp := NpFromBV(f, SliceOf(np, totalNp, NpBits(f, fromInt, l), fromInt, l));
    SlicePlaced(value, totalValue, TypeBits(f), fromInt, l);
    SlicePlaced(np, totalNp, NpBits(f, fromInt, l), fromInt, l);
    FromBVPlaced(f, np, SliceOf(np, totalNp, NpBits(f, fromInt, l), fromInt, l), totalNp, fromInt && l.littleEndian);
  }

  lemma InRange(value: Bits, np: Bits, ty: Type, index: nat, fromInt: bool, l: Layout)
    requires ty.Agg? && index < |ty.fields| && |value| == TypeBits(ty) && |np| == NpBits(ty, fromInt, l)
    ensures BitsBefore(ty, index) + TypeBits(ty.fields[index].ty) <= |value|
    ensures NpBefore(ty, index, fromInt, l) + NpBits(ty.fields[index].ty, fromInt, l) <= |np|
  {
    hide DivideUp;
    PrefixFits(ty, index, |ty.fields|, l, fromInt);
  }

  lemma FieldOfIs(value: Bits, np: Bits, ty: Type, i: nat, fromInt: bool, l: Layout)
    requires ty.Agg? && i < |ty.fields|
    ensures var f := ty.fields[i].ty;
      FieldOf(StateValue(value, Packed(np)), ty, i, l) ==
        StateValue(Part(value, BitsBefore(ty, i), TypeBits(f)), NpFromBV(f, Part(np, NpBefore(ty, i, false, l), NpBits(f, false, l))))
    ensures var f := ty.fields[i].ty;
      IntFieldOf(value, np, ty, i, l) == (IntPart(value, BitsBefore(ty, i), TypeBits(f), l), IntPart(np, NpBefore(ty, i, true, l), NpBits(f, true, l), l))
  {
    hide TypeBits, NpBits, BitsBefore, NpBefore, Part, IntPart, AllOnes;
  }

  // ----- insert and extract --------------------------------------------------

  ghost predicate FieldsFit(ty: Type, parts: seq<StateValue>, k: nat, l: Layout)
    requires ty.Agg?
  {
    k <= |parts| && k <= |ty.fields| && forall i :: 0 <= i < k ==> Fits(parts[i], ty.fields[i].ty, l)
  }

  lemma {:induction false} PackWidths(ty: Type, parts: seq<StateValue>, k: nat, l: Layout)
    requires ty.Agg? && FieldsFit(ty, parts, k, l) && FieldsNonZero(ty)
    ensures |PackValue(ty, parts, k)| == BitsBefore(ty, k) && |PackNp(ty, parts, k)| == NpBefore(ty, k, false, l)
    decreases k
  {
    if k > 0 {
      PackWidths(ty, parts, k - 1, l);
      NpRoundTrip(parts[k - 1], ty.fields[k - 1].ty, l);
      assert Fits(parts[k - 1], ty.fields[k - 1].ty, l);
    }
  }

  lemma PartOfPrefix(a: Bits, b: Bits, total: nat, n: nat)
    requires total + n <= |a|
    ensures Part(a + b, total, n) == Part(a, total, n)
  {
  }

  lemma PartAtEnd(a: Bits, b: Bits)
    ensures Part(a + b, |a|, |b|) == b
  {
  }

  /** The packed bits of field `i`. */
  lemma {:induction false} PackParts(ty: Type, parts: seq<StateValue>, i: nat, k: nat, l: Layout)
    requires ty.Agg? && FieldsFit(ty, parts, k, l) && FieldsNonZero(ty) && i < k
    ensures Part(PackValue(ty, parts, k), BitsBefore(ty, i), TypeBits(ty.fields[i].ty)) == parts[i].value
    ensures Part(PackNp(ty, parts, k), NpBefore(ty, i, false, l), NpBits(ty.fields[i].ty, false, l)) == NpToBV(parts[i].np)
    decreases k
  {
    var n := k - 1;
    assert Fits(parts[n], ty.fields[n].ty, l) && TypeBits(ty.fields[n].ty) > 0;
    PackWidths(ty, parts, n, l);
    NpRoundTrip(parts[n], ty.fields[n].ty, l);
    var v, np := PackValue(ty, parts, n), PackNp(ty, parts, n);
    assert PackValue(ty, parts, k) == v + parts[n].value && PackNp(ty, parts, k) == np + NpToBV(parts[n].np);
    hide TypeBits, NpBits, BitsBefore, NpBefore, PackValue, PackNp, Part, NpToBV, NpFromBV;
    if i < n {
      PackParts(ty, parts, i, n, l);
      PrefixFits(ty, i, n, l, false);
      PartOfPrefix(v, parts[n].value, BitsBefore(ty, i), TypeBits(ty.fields[i].ty));
      PartOfPrefix(np, NpToBV(parts[n].np), NpBefore(ty, i, false, l), NpBits(ty.fields[i].ty, false, l));
    } else {
      PartAtEnd(v, parts[n].value);
      PartAtEnd(np, NpToBV(parts[n].np));
    }
  }

  /** Extracting a field of a packed aggregate gives that field, with its poison. */
  lemma ExtractPacked(ty: Type, parts: seq<StateValue>, i: nat, l: Layout)
    requires ty.Agg? && |parts| == |ty.fields| && FieldsFit(ty, parts, |parts|, l) && FieldsNonZero(ty) && i < |parts|
    ensures FieldOf(Pack(ty, parts), ty, i, l) == parts[i]
  {
    PackParts(ty, parts, i, |parts|, l);
    NpRoundTrip(parts[i], ty.fields[i].ty, l);
    hide TypeBits, NpBits, BitsBefore, NpBefore, PackValue, PackNp, Part, AllOnes;
  }

  /** In an aggregate, field `i` has the fields before it above it, and its poison bits
      those of the fields before it. */
  lemma PackedPlaces(ty: Type, parts: seq<StateValue>, i: nat, l: Layout)
    requires ty.Agg? && |parts| == |ty.fields| && FieldsFit(ty, parts, |parts|, l) && FieldsNonZero(ty) && i < |parts|
    ensures SitsAt(Pack(ty, parts).value, parts[i].value, BitsBefore(ty, i), false)
    ensures Pack(ty, parts).np.Packed? && SitsAt(Pack(ty, parts).np.bits, NpToBV(parts[i].np), NpBefore(ty, i, false, l), false)
  {
    PackParts(ty, parts, i, |parts|, l);
    PackWidths(ty, parts, |parts|, l);
    PrefixFits(ty, i, |parts|, l, false);
    NpRoundTrip(parts[i], ty.fields[i].ty, l);
    hide TypeBits, NpBits, BitsBefore, NpBefore, PackValue, PackNp, NpToBV;
  }

  /** Padding is zero and poison. */
  lemma {:induction false} DummyIsPoison(ty: Type)
    ensures ZeroBits(Dummy(ty).value) && ZeroBits(NpToBV(Dummy(ty).np))
    decreases ty, if ty.Agg? then |ty.fields| + 1 else 0
  {
    if ty.Agg? {
      DummiesArePoison(ty, |ty.fields|);
      PackOfZeros(ty, Dummies(ty, |ty.fields|), |ty.fields|);
    }
  }

  lemma {:induction false} DummiesArePoison(ty: Type, k: nat)
    requires ty.Agg? && k <= |ty.fields|
    ensures forall i: nat :: i < k ==> ZeroBits(Dummies(ty, k)[i].value) && ZeroBits(NpToBV(Dummies(ty, k)[i].np))
    decreases ty, k
  {
    hide Dummy, ZeroBits, NpToBV;
    if k > 0 {
      DummiesArePoison(ty, k - 1);
      DummyIsPoison(ty.fields[k - 1].ty);
    }
  }

  lemma {:induction false} PackOfZeros(ty: Type, parts: seq<StateValue>, k: nat)
    requires ty.Agg? && k <= |ty.fields| && k <= |parts|
    requires forall i: nat :: i < k ==> ZeroBits(parts[i].value) && ZeroBits(NpToBV(parts[i].np))
    ensures ZeroBits(PackValue(ty, parts, k)) && ZeroBits(PackNp(ty, parts, k))
    decreases k
  {
    if k > 0 {
      PackOfZeros(ty, parts, k - 1);
      hide TypeBits, NpToBV;
    }
  }

  lemma PackFits(ty: Type, parts: seq<StateValue>, l: Layout)
    requires ty.Agg? && |parts| == |ty.fields| && FieldsFit(ty, parts, |parts|, l) && FieldsNonZero(ty)
    ensures Fits(Pack(ty, parts), ty, l)
  {
    PackWidths(ty, parts, |parts|, l);
  }

  lemma FieldFits(v: StateValue, ty: Type, i: nat, l: Layout)
    requires ty.Agg? && i < |ty.fields| && Fits(v, ty, l)
    ensures Fits(FieldOf(v, ty, i, l), ty.fields[i].ty, l)
  {
    PrefixFits(ty, i, |ty.fields|, l, false);
  }

  lemma {:induction false} DummyFits(ty: Type, l: Layout)
    requires NoZeroWidth(ty)
    ensures Fits(Dummy(ty), ty, l)
    decreases ty, if ty.Agg? then |ty.fields| + 1 else 0
  {
    if ty.Agg? {
      DummiesFit(ty, |ty.fields|, l);
      PackFits(ty, Dummies(ty, |ty.fields|), l);
    }
  }

  lemma {:induction false} DummiesFit(ty: Type, k: nat, l: Layout)
    requires ty.Agg? && k <= |ty.fields| && NoZeroWidth(ty)
    ensures FieldsFit(ty, Dummies(ty, k), k, l)
    decreases ty, k
  {
    if k > 0 {
      DummiesFit(ty, k - 1, l);
      DummyFits(ty.fields[k - 1].ty, l);
    }
  }

  /** A path of field indices that avoids padding. */
  ghost predicate IsPath(ty: Type, path: seq<nat>)
    decreases |path|
  {
    path == [] || (ty.Agg? && path[0] < |ty.fields| && !ty.fields[path[0]].padding && IsPath(ty.fields[path[0]].ty, path[1..]))
  }

  /** The type at the end of a path. */
  ghost function TypeAt(ty: Type, path: seq<nat>): Type
    requires IsPath(ty, path)
    decreases |path|
  {
    if path == [] then ty else TypeAt(ty.fields[path[0]].ty, path[1..])
  }

  /** `ExtractValue::toSMT`. */
  ghost function ExtractPath(v: StateValue, ty: Type, path: seq<nat>, l: Layout): StateValue
    requires IsPath(ty, path)
    decreases |path|
  {
    if path == [] then v else ExtractPath(FieldOf(v, ty, path[0], l), ty.fields[path[0]].ty, path[1..], l)
  }

  /** Field `i` after an update along a path. */
  ghost function UpdatedPart(v: StateValue, ty: Type, path: seq<nat>, elem: StateValue, i: nat, l: Layout): StateValue
    requires path != [] && IsPath(ty, path) && i < |ty.fields|
    decreases |path|, 0
  {
    var f := ty.fields[i];
    if f.padding then Dummy(f.ty)
    else if i != path[0] then FieldOf(v, ty, i, l)
    else Update(FieldOf(v, ty, i, l), f.ty, path[1..], elem, l)
  }

  ghost function UpdatedParts(v: StateValue, ty: Type, path: seq<nat>, elem: StateValue, l: Layout): (r: seq<StateValue>)
    requires path != [] && IsPath(ty, path)
    ensures |r| == |ty.fields|
    decreases |path|, 1
  {
    seq(|ty.fields|, i requires 0 <= i < |ty.fields| => UpdatedPart(v, ty, path, elem, i, l))
  }

  /** Replacing the element at the end of a path; padding on the way is reset. */
  ghost function Update(v: StateValue, ty: Type, path: seq<nat>, elem: StateValue, l: Layout): StateValue
    requires IsPath(ty, path)
    decreases |path|, 2
  {
    if path == [] then elem else Pack(ty, UpdatedParts(v, ty, path, elem, l))
  }

  lemma {:induction false} UpdateFits(v: StateValue, ty: Type, path: seq<nat>, elem: StateValue, l: Layout)
    requires IsPath(ty, path) && NoZeroWidth(ty) && Fits(v, ty, l) && Fits(elem, TypeAt(ty, path), l)
    ensures Fits(Update(v, ty, path, elem, l), ty, l)
    ensures path != [] ==> FieldsFit(ty, UpdatedParts(v, ty, path, elem, l), |ty.fields|, l)
    decreases |path|, 1
  {
    if path != [] {
      var parts := UpdatedParts(v, ty, path, elem, l);
      NonZeroFields(ty);
      UpdateIs(v, ty, path, elem, l);
      hide Fits, TypeBits, NpBits, Pack, FieldsNonZero, NoZeroWidth, UpdatedPart, Update, TypeAt;
      forall i: nat | i < |ty.fields|
        ensures Fits(parts[i], ty.fields[i].ty, l)
      {
        UpdatedPartFits(v, ty, path, elem, i, l);
      }
      PackFits(ty, parts, l);
    }
  }

  lemma {:induction false} UpdatedPartFits(v: StateValue, ty: Type, path: seq<nat>, elem: StateValue, i: nat, l: Layout)
    requires path != [] && IsPath(ty, path) && NoZeroWidth(ty) && Fits(v, ty, l) && Fits(elem, TypeAt(ty, path), l) && i < |ty.fields|
    ensures Fits(UpdatedPart(v, ty, path, elem, i, l), ty.fields[i].ty, l)
    decreases |path|, 0
  {
    NonZeroFields(ty);
    hide Fits, TypeBits, NpBits, FieldOf, Dummy, Pack, FieldsNonZero, NoZeroWidth, Update, UpdatedParts;
    FieldFits(v, ty, i, l);
    if ty.fields[i].padding {
      DummyFits(ty.fields[i].ty, l);
    } else if i == path[0] {
      UpdateFits(FieldOf(v, ty, i, l), ty.fields[i].ty, path[1..], elem, l);
    }
  }

  lemma NonZeroFields(ty: Type)
    requires ty.Agg? && NoZeroWidth(ty)
    ensures FieldsNonZero(ty) && forall i :: 0 <= i < |ty.fields| ==> NoZeroWidth(ty.fields[i].ty)
  {
  }

  /** Inserting and then extracting along the same path gives the element, with its poison. */
  lemma {:induction false} InsertThenExtract(v: StateValue, ty: Type, path: seq<nat>, elem: StateValue, l: Layout)
    requires IsPath(ty, path) && NoZeroWidth(ty) && Fits(v, ty, l) && Fits(elem, TypeAt(ty, path), l)
    ensures ExtractPath(Update(v, ty, path, elem, l), ty, path, l) == elem
    decreases |path|
  {
    if path != [] {
      var i := path[0];
      UpdateFits(v, ty, path, elem, l);
      ExtractPacked(ty, UpdatedParts(v, ty, path, elem, l), i, l);
      FieldFits(v, ty, i, l);
      InsertThenExtract(FieldOf(v, ty, i, l), ty.fields[i].ty, path[1..], elem, l);
    }
  }

  /** Neither path continues the other. */
  ghost predicate Apart(p: seq<nat>, q: seq<nat>)
    decreases |p|
  {
    p != [] && q != [] && (p[0] != q[0] || Apart(p[1..], q[1..]))
  }

  /** An insertion changes no element outside its path. */
  lemma {:induction false} InsertElsewhere(v: StateValue, ty: Type, path: seq<nat>, other: seq<nat>, elem: StateValue, l: Layout)
    requires IsPath(ty, path) && IsPath(ty, other) && Apart(path, other)
    requires NoZeroWidth(ty) && Fits(v, ty, l) && Fits(elem, TypeAt(ty, path), l)
    ensures ExtractPath(Update(v, ty, path, elem, l), ty, other, l) == ExtractPath(v, ty, other, l)
    decreases |path|
  {
    var i := other[0];
    UpdateFits(v, ty, path, elem, l);
    ExtractPacked(ty, UpdatedParts(v, ty, path, elem, l), i, l);
    FieldFits(v, ty, i, l);
    if path[0] == i {
      InsertElsewhere(FieldOf(v, ty, i, l), ty.fields[i].ty, path[1..], other[1..], elem, l);
    }
  }

  /** An insertion makes the padding on its way zero and poison. */
  lemma PaddingIsReset(v: StateValue, ty: Type, path: seq<nat>, elem: StateValue, i: nat, l: Layout)
    requires path != [] && IsPath(ty, path) && NoZeroWidth(ty) && Fits(v, ty, l) && Fits(elem, TypeAt(ty, path), l)
    requires i < |ty.fields| && ty.fields[i].padding
    ensures var f := FieldOf(Update(v, ty, path, elem, l), ty, i, l); ZeroBits(f.value) && ZeroBits(NpToBV(f.np))
  {
    UpdateFits(v, ty, path, elem, l);
    NonZeroFields(ty);
    ExtractPacked(ty, UpdatedParts(v, ty, path, elem, l), i, l);
    DummyIsPoison(ty.fields[i].ty);
    hide Fits, FieldOf, Pack, FieldsFit, NoZeroWidth, Dummy, ZeroBits, NpToBV;
  }

  /** `update_repack`: the path is taken from the end of `indices`. */
  method UpdateRepack(v: StateValue, ty: Type, elem: StateValue, indices: seq<nat>, l: Layout) returns (r: StateValue)
    requires indices != [] && IsPath(ty, Reversed(indices)) && NoZeroWidth(ty) && Fits(v, ty, l)
    ensures r == Update(v, ty, Reversed(indices), elem, l)
    decreases |indices|
  {
    ghost var path := Reversed(indices);
    var curIdx, rest := indices[|indices| - 1], indices[..|indices| - 1];
    ReversedHead(indices);
    PathIsAgg(ty, path);
    NonZeroFields(ty);
    UpdateIs(v, ty, path, elem, l);
    ghost var parts := UpdatedParts(v, ty, path, elem, l);
    PartsAre(v, ty, path, elem, l);
    CanExtract(ty, l);
    hide *;
    var inner := elem;
    if rest != [] {
      var f := ExtractField(v, ty, curIdx, l);
      FieldFits(v, ty, curIdx, l);
      inner := UpdateRepack(f, ty.fields[curIdx].ty, elem, rest, l);
    }
    var fields := ExtractAll(v, ty, l);
    RepackedPadding(v, ty, curIdx, inner, parts, l);
    RepackedValues(v, ty, curIdx, inner, parts, fields, l);
    var vals := RepackFields(ty, curIdx, inner, fields, parts);
    SpreadAll(ty, parts, vals);
    r := AggregateVals(ty, vals, parts);
  }

  /** Every field takes value bits and poison bits. */
  ghost predicate Extractable(ty: Type, l: Layout)
    requires ty.Agg?
  {
    forall i :: 0 <= i < |ty.fields| ==> TypeBits(ty.fields[i].ty) > 0 && NpBits(ty.fields[i].ty, false, l) > 0
  }

  lemma CanExtract(ty: Type, l: Layout)
    requires ty.Agg? && NoZeroWidth(ty)
    ensures Extractable(ty, l)
  {
    forall i | 0 <= i < |ty.fields|
      ensures TypeBits(ty.fields[i].ty) > 0 && NpBits(ty.fields[i].ty, false, l) > 0
    {
      FieldNpBits(ty.fields[i].ty, l);
    }
  }

  method ExtractField(v: StateValue, ty: Type, i: nat, l: Layout) returns (f: StateValue)
    requires ty.Agg? && i < |ty.fields| && Extractable(ty, l) && Fits(v, ty, l)
    ensures f == FieldOf(v, ty, i, l)
  {
    var value, np := Extract(v.value, v.np.bits, ty, i, false, l);
    f := StateValue(value, np);
  }

  /** What the new aggregate holds: dummies in padding, the new value, and the old fields. */
  ghost predicate Repacked(v: StateValue, ty: Type, curIdx: nat, inner: StateValue, parts: seq<StateValue>, l: Layout)
    requires ty.Agg?
  {
    && |parts| == |ty.fields|
    && forall i: nat :: i < |parts| ==>
         parts[i] == if ty.fields[i].padding then Dummy(ty.fields[i].ty) else if i == curIdx then inner else FieldOf(v, ty, i, l)
  }

  /** All fields that are not padding. */
  method ExtractAll(v: StateValue, ty: Type, l: Layout) returns (fields: seq<StateValue>)
    requires ty.Agg? && Extractable(ty, l) && Fits(v, ty, l)
    ensures |fields| == |ty.fields| && forall i: nat :: i < |fields| && !ty.fields[i].padding ==> fields[i] == FieldOf(v, ty, i, l)
  {
    fields := [];
    hide Extractable, Fits, FieldOf;
    var i: nat := 0;
    while i < |ty.fields|
      invariant i == |fields| <= |ty.fields| && forall j: nat :: j < i && !ty.fields[j].padding ==> fields[j] == FieldOf(v, ty, j, l)
    {
      var f := v;
      if !ty.fields[i].padding {
        f := ExtractField(v, ty, i, l);
      }
      fields := fields + [f];
      i := i + 1;
    }
  }

  /** The values to pack: the new one at `curIdx`, the old ones elsewhere. */
  method RepackFields(ty: Type, curIdx: nat, inner: StateValue, fields: seq<StateValue>, ghost parts: seq<StateValue>) returns (vals: seq<StateValue>)
    requires ty.Agg? && |fields| == |parts| == |ty.fields|
    requires forall i: nat :: i < |parts| && !ty.fields[i].padding ==> parts[i] == if i == curIdx then inner else fields[i]
    ensures Collected(ty, vals, parts, |ty.fields|)
  {
    vals := [];
    NothingCounted(ty, parts);
    hide Collected;
    var i: nat := 0;
    while i < |ty.fields|
      invariant i <= |ty.fields| && Collected(ty, vals, parts, i)
    {
      if !ty.fields[i].padding {
        var f := if i == curIdx then inner else fields[i];
        CollectOne(ty, vals, f, parts, i);
        vals := vals + [f];
      } else {
        CollectPadding(ty, vals, parts, i);
      }
      i := i + 1;
    }
  }

  /** The fields after an update, in terms of the update one level down. */
  lemma PartsAre(v: StateValue, ty: Type, path: seq<nat>, elem: StateValue, l: Layout)
    requires path != [] && IsPath(ty, path)
    ensures Repacked(v, ty, path[0], Update(FieldOf(v, ty, path[0], l), ty.fields[path[0]].ty, path[1..], elem, l), UpdatedParts(v, ty, path, elem, l), l)
    ensures path[1..] == [] ==> Update(FieldOf(v, ty, path[0], l), ty.fields[path[0]].ty, path[1..], elem, l) == elem
  {
    hide FieldOf, Dummy, Pack;
  }

  lemma PathIsAgg(ty: Type, path: seq<nat>)
    requires path != [] && IsPath(ty, path)
    ensures ty.Agg? && path[0] < |ty.fields| && !ty.fields[path[0]].padding && IsPath(ty.fields[path[0]].ty, path[1..])
  {
  }

  lemma UpdateIs(v: StateValue, ty: Type, path: seq<nat>, elem: StateValue, l: Layout)
    requires path != [] && IsPath(ty, path) && FieldsNonZero(ty)
    ensures Update(v, ty, path, elem, l) == Pack(ty, UpdatedParts(v, ty, path, elem, l))
    ensures forall i :: 0 <= i < |ty.fields| && ty.fields[i].padding ==> TypeBits(ty.fields[i].ty) > 0
  {
    hide Pack, TypeBits, UpdatedPart;
  }

  lemma PartIs(v: StateValue, ty: Type, path: seq<nat>, elem: StateValue, i: nat, l: Layout)
    requires path != [] && IsPath(ty, path) && i < |ty.fields| && !ty.fields[i].padding
    ensures UpdatedParts(v, ty, path, elem, l)[i] ==
      if i != path[0] then FieldOf(v, ty, i, l) else if path[1..] == [] then elem else Update(FieldOf(v, ty, i, l), ty.fields[i].ty, path[1..], elem, l)
  {
    hide FieldOf, Pack;
    if i == path[0] && path[1..] == [] {
      assert Update(FieldOf(v, ty, i, l), ty.fields[i].ty, [], elem, l) == elem;
    }
  }

  function Reversed(s: seq<nat>): seq<nat> {
    if s == [] then [] else [s[|s| - 1]] + Reversed(s[..|s| - 1])
  }

  lemma ReversedHead(s: seq<nat>)
    requires s != []
    ensures Reversed(s) != [] && Reversed(s)[0] == s[|s| - 1] && Reversed(s)[1..] == Reversed(s[..|s| - 1])
  {
  }

  /** The values of the first `n` fields, without padding. */
  ghost predicate Collected(ty: Type, vals: seq<StateValue>, parts: seq<StateValue>, n: nat)
    requires ty.Agg? && n <= |ty.fields| == |parts|
  {
    |vals| == CountValues(ty, n) && forall j: nat :: j < n && !ty.fields[j].padding ==> ValAt(ty, vals, parts, j)
  }

  ghost predicate ValAt(ty: Type, vals: seq<StateValue>, parts: seq<StateValue>, j: nat)
    requires ty.Agg? && j < |ty.fields| == |parts|
  {
    CountValues(ty, j) < |vals| && vals[CountValues(ty, j)] == parts[j]
  }

  lemma NothingCounted(ty: Type, parts: seq<StateValue>)
    requires ty.Agg? && |parts| == |ty.fields|
    ensures Collected(ty, [], parts, 0)
  {
  }

  lemma CollectOne(ty: Type, vals: seq<StateValue>, f: StateValue, parts: seq<StateValue>, i: nat)
    requires ty.Agg? && i < |ty.fields| == |parts| && !ty.fields[i].padding && f == parts[i] && Collected(ty, vals, parts, i)
    ensures Collected(ty, vals + [f], parts, i + 1)
  {
    var vals' := vals + [f];
    assert CountValues(ty, i + 1) == CountValues(ty, i) + 1;
    hide CountValues;
    forall j: nat | j < i + 1 && !ty.fields[j].padding
      ensures ValAt(ty, vals', parts, j)
    {
      assert j < i ==> ValAt(ty, vals, parts, j);
    }
  }

  lemma CollectPadding(ty: Type, vals: seq<StateValue>, parts: seq<StateValue>, i: nat)
    requires ty.Agg? && i < |ty.fields| == |parts| && ty.fields[i].padding && Collected(ty, vals, parts, i)
    ensures Collected(ty, vals, parts, i + 1)
  {
    CountNext(ty, i);
    hide CountValues, ValAt;
  }

  lemma CountNext(ty: Type, i: nat)
    requires ty.Agg? && i < |ty.fields|
    ensures CountValues(ty, i + 1) == CountValues(ty, i) + if ty.fields[i].padding then 0 else 1
  {
  }

  lemma RepackedPadding(v: StateValue, ty: Type, curIdx: nat, inner: StateValue, parts: seq<StateValue>, l: Layout)
    requires ty.Agg? && Repacked(v, ty, curIdx, inner, parts, l)
    ensures |parts| == |ty.fields| && forall i: nat :: i < |parts| && ty.fields[i].padding ==> parts[i] == Dummy(ty.fields[i].ty)
  {
    hide Dummy, FieldOf;
  }

  lemma RepackedValues(v: StateValue, ty: Type, curIdx: nat, inner: StateValue, parts: seq<StateValue>, fields: seq<StateValue>, l: Layout)
    requires ty.Agg? && Repacked(v, ty, curIdx, inner, parts, l) && |fields| == |ty.fields|
    requires forall i: nat :: i < |fields| && !ty.fields[i].padding ==> fields[i] == FieldOf(v, ty, i, l)
    ensures forall i: nat :: i < |parts| && !ty.fields[i].padding ==> parts[i] == if i == curIdx then inner else fields[i]
  {
    hide Dummy, FieldOf;
  }

  lemma SpreadAll(ty: Type, parts: seq<StateValue>, vals: seq<StateValue>)
    requires ty.Agg? && |parts| == |ty.fields| && Collected(ty, vals, parts, |ty.fields|)
    requires forall i: nat :: i < |parts| && ty.fields[i].padding ==> parts[i] == Dummy(ty.fields[i].ty)
    ensures Spread(ty, vals, parts)
  {
    hide Dummy, CountValues;
    forall i: nat | i < |parts|
      ensures SpreadAt(ty, vals, parts, i)
    {
      if !ty.fields[i].padding {
        assert ValAt(ty, vals, parts, i);
      }
    }
  }

  /** Ordinary aggregates keep at least one poison bit for each field. */
  lemma {:induction false} FieldNpBits(ty: Type, l: Layout)
    requires NoZeroWidth(ty)
    ensures NpBits(ty, false, l) > 0
    decreases ty
  {
    if ty.Agg? && ty.fields != [] {
      FieldNpBits(ty.fields[0].ty, l);
      PrefixFits(ty, 0, |ty.fields|, l, false);
    }
  }

  // ----- equality by fields --------------------------------------------------

  lemma PrefixStep(a: Bits, b: Bits, n: nat, w: nat)
    requires n + w <= |a| && n + w <= |b| && a[..n] == b[..n] && Part(a, n, w) == Part(b, n, w)
    ensures a[..n + w] == b[..n + w]
  {
    assert a[..n + w] == a[..n] + Part(a, n, w) && b[..n + w] == b[..n] + Part(b, n, w);
  }

  lemma NextBefore(ty: Type, k: nat, l: Layout)
    requires ty.Agg? && k <= |ty.fields|
    ensures BitsBefore(ty, k) == if k == 0 then 0 else BitsBefore(ty, k - 1) + TypeBits(ty.fields[k - 1].ty)
    ensures NpBefore(ty, k, false, l) == if k == 0 then 0 else NpBefore(ty, k - 1, false, l) + NpBits(ty.fields[k - 1].ty, false, l)
  {
    hide TypeBits, NpBits;
  }

  /** Two bit-vectors with the same fields are the same. */
  lemma {:induction false} EqualByParts(ty: Type, k: nat, a: Bits, b: Bits)
    requires ty.Agg? && k <= |ty.fields| && BitsBefore(ty, k) <= |a| && BitsBefore(ty, k) <= |b|
    requires forall i: nat :: i < k ==> Part(a, BitsBefore(ty, i), TypeBits(ty.fields[i].ty)) == Part(b, BitsBefore(ty, i), TypeBits(ty.fields[i].ty))
    ensures a[..BitsBefore(ty, k)] == b[..BitsBefore(ty, k)]
    decreases k
  {
    hide TypeBits, Part, BitsBefore;
    NextBefore(ty, k, Layout(1, 1, false));
    if k > 0 {
      var n, w := BitsBefore(ty, k - 1), TypeBits(ty.fields[k - 1].ty);
      EqualByParts(ty, k - 1, a, b);
      PrefixStep(a, b, n, w);
    }
  }

  /** The same for poison bits. */
  lemma {:induction false} EqualByNps(ty: Type, k: nat, a: Bits, b: Bits, l: Layout)
    requires ty.Agg? && k <= |ty.fields| && NpBefore(ty, k, false, l) <= |a| && NpBefore(ty, k, false, l) <= |b|
    requires forall i: nat :: i < k ==>
      Part(a, NpBefore(ty, i, false, l), NpBits(ty.fields[i].ty, false, l)) == Part(b, NpBefore(ty, i, false, l), NpBits(ty.fields[i].ty, false, l))
    ensures a[..NpBefore(ty, k, false, l)] == b[..NpBefore(ty, k, false, l)]
    decreases k
  {
    hide NpBits, Part, NpBefore;
    NextBefore(ty, k, l);
    if k > 0 {
      var n, w := NpBefore(ty, k - 1, false, l), NpBits(ty.fields[k - 1].ty, false, l);
      EqualByNps(ty, k - 1, a, b, l);
      PrefixStep(a, b, n, w);
    }
  }

  /** An aggregate is determined by its fields. */
  lemma EqualByFields(ty: Type, a: StateValue, b: StateValue, l: Layout)
    requires ty.Agg? && ty.fields != [] && Fits(a, ty, l) && Fits(b, ty, l) && FieldsNonZero(ty)
    requires forall i: nat :: i < |ty.fields| ==> FieldOf(a, ty, i, l) == FieldOf(b, ty, i, l)
    ensures a == b
  {
    forall i: nat | i < |ty.fields|
      ensures Part(a.value, BitsBefore(ty, i), TypeBits(ty.fields[i].ty)) == Part(b.value, BitsBefore(ty, i), TypeBits(ty.fields[i].ty))
      ensures Part(a.np.bits, NpBefore(ty, i, false, l), NpBits(ty.fields[i].ty, false, l)) == Part(b.np.bits, NpBefore(ty, i, false, l), NpBits(ty.fields[i].ty, false, l))
    {
      SameFieldBits(ty, a, b, i, l);
    }
    hide DivideUp, FieldOf, Part;
    EqualByParts(ty, |ty.fields|, a.value, b.value);
    EqualByNps(ty, |ty.fields|, a.np.bits, b.np.bits, l);
    assert a.value[..|a.value|] == a.value && b.value[..|b.value|] == b.value;
    assert a.np.bits[..|a.np.bits|] == a.np.bits && b.np.bits[..|b.np.bits|] == b.np.bits;
  }

  lemma SameFieldBits(ty: Type, a: StateValue, b: StateValue, i: nat, l: Layout)
    requires ty.Agg? && i < |ty.fields| && Fits(a, ty, l) && Fits(b, ty, l) && FieldOf(a, ty, i, l) == FieldOf(b, ty, i, l)
    ensures Part(a.value, BitsBefore(ty, i), TypeBits(ty.fields[i].ty)) == Part(b.value, BitsBefore(ty, i), TypeBits(ty.fields[i].ty))
    ensures Part(a.np.bits, NpBefore(ty, i, false, l), NpBits(ty.fields[i].ty, false, l)) == Part(b.np.bits, NpBefore(ty, i, false, l), NpBits(ty.fields[i].ty, false, l))
  {
    var f := ty.fields[i].ty;
    PrefixFits(ty, i, |ty.fields|, l, false);
    var x, y := Part(a.np.bits, NpBefore(ty, i, false, l), NpBits(f, false, l)), Part(b.np.bits, NpBefore(ty, i, false, l), NpBits(f, false, l));
    if f.Scalar? {
      assert |x| == |y| == 1;
      OneBit(x, y);
    }
  }

  lemma OneBit(x: Bits, y: Bits)
    requires |x| == |y| == 1 && AllOnes(x) == AllOnes(y)
    ensures x == y
  {
    assert AllOnes(x) <==> x[0] by {
      assert Repeat(true, 1)[0];
      assert x[0] ==> x == Repeat(true, 1);
    }
    assert AllOnes(y) <==> y[0] by {
      assert Repeat(true, 1)[0];
      assert y[0] ==> y == Repeat(true, 1);
    }
  }
}
