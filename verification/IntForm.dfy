/** The integer form of values, in which they are stored to memory: `toInt` and
    `fromInt` (ir/type.cpp).  Poison takes one bit for each unit of memory. */
module IntForm {
  import opened Terms
  import opened Aggregates

  /** A value and its poison bits. */
  datatype IntValue = IntValue(value: Bits, np: Bits)

  /** `next` after `rest`, in the byte order. */
  function Join(rest: Bits, next: Bits, l: Layout): (r: Bits)
    ensures |r| == |rest| + |next|
  {
    if l.littleEndian then next + rest else rest + next
  }

  /** The fields of the first `k` children; in little endian, later ones come higher. */
  function ToIntFields(v: StateValue, ty: Type, k: nat, l: Layout): IntValue
    requires ty.Agg? && k <= |ty.fields|
    decreases ty, k
  {
    if k == 0 then IntValue([], [])
    else
      var rest := ToIntFields(v, ty, k - 1, l);
      var vv := ToInt(FieldOf(v, ty, k - 1, l), ty.fields[k - 1].ty, l);
      IntValue(Join(rest.value, vv.value, l), Join(rest.np, vv.np, l))
  }

  function ToInt(v: StateValue, ty: Type, l: Layout): IntValue
    decreases ty, if ty.Agg? then |ty.fields| + 1 else 0
  {
    match ty
    case Scalar(_) => IntValue(v.value, Repeat(v.np == Flag(true), NpBits(ty, true, l)))
    case Agg(fields) => if fields == [] then IntValue([false], [true]) else ToIntFields(v, ty, |fields|, l)
  }

  /** The child that an integer form holds at field `i`. */
  function ChildOf(v: IntValue, ty: Type, i: nat, l: Layout): IntValue
    requires ty.Agg? && i < |ty.fields|
  {
    var (value, np) := IntFieldOf(v.value, v.np, ty, i, l);
    IntValue(value, np)
  }

  function FromInt(v: IntValue, ty: Type, l: Layout): StateValue
    decreases ty, if ty.Agg? then |ty.fields| + 1 else 0
  {
    match ty
    case Scalar(_) => StateValue(v.value, Flag(AllOnes(v.np)))
    case Agg(fields) => Pack(ty, FromIntFields(v, ty, |fields|, l))
  }

  function FromIntFields(v: IntValue, ty: Type, k: nat, l: Layout): (r: seq<StateValue>)
    requires ty.Agg? && k <= |ty.fields|
    ensures |r| == k
    decreases ty, k
  {
    if k == 0 then [] else FromIntFields(v, ty, k - 1, l) + [FromInt(ChildOf(v, ty, k - 1, l), ty.fields[k - 1].ty, l)]
  }

  // ----- widths --------------------------------------------------------------

  lemma DivideUpPositive(n: nat, p: nat, d: nat)
    requires n > 0 && p > 0 && d > 0
    ensures DivideUp(Times(n, p), d) > 0
  {
    assert Times(n, p) >= p;
  }

  lemma {:induction false} ToIntWidths(v: StateValue, ty: Type, l: Layout)
    requires NoZeroWidth(ty) && Fits(v, ty, l)
    ensures |ToInt(v, ty, l).value| == TypeBits(ty) && |ToInt(v, ty, l).np| == NpBits(ty, true, l)
    decreases ty, if ty.Agg? then |ty.fields| + 1 else 0
  {
    hide DivideUp;
    if ty.Agg? && ty.fields != [] {
      FieldWidths(v, ty, |ty.fields|, l);
    }
  }

  lemma {:induction false} FieldWidths(v: StateValue, ty: Type, k: nat, l: Layout)
    requires ty.Agg? && k <= |ty.fields| && NoZeroWidth(ty) && Fits(v, ty, l)
    ensures |ToIntFields(v, ty, k, l).value| == BitsBefore(ty, k) && |ToIntFields(v, ty, k, l).np| == NpBefore(ty, k, true, l)
    decreases ty, k
  {
    hide Fits, FieldOf, TypeBits, NpBits;
    if k > 0 {
      FieldWidths(v, ty, k - 1, l);
      FieldFits(v, ty, k - 1, l);
      ToIntWidths(FieldOf(v, ty, k - 1, l), ty.fields[k - 1].ty, l);
    }
  }

  // ----- the round trip ------------------------------------------------------

  ghost predicate NoPadding(ty: Type) {
    ty.Agg? ==> forall i :: 0 <= i < |ty.fields| ==> !ty.fields[i].padding && NoPadding(ty.fields[i].ty)
  }

  lemma IntPartOfPrefix(a: Bits, b: Bits, total: nat, n: nat, l: Layout)
    requires total + n <= |a|
    ensures IntPart(Join(a, b, l), total, n, l) == IntPart(a, total, n, l)
  {
  }

  lemma IntPartAtEnd(a: Bits, b: Bits, l: Layout)
    ensures IntPart(Join(a, b, l), |a|, |b|, l) == b
  {
  }

  lemma NextField(v: StateValue, ty: Type, n: nat, l: Layout)
    requires ty.Agg? && n < |ty.fields|
    ensures var rest, vv := ToIntFields(v, ty, n, l), ToInt(FieldOf(v, ty, n, l), ty.fields[n].ty, l);
      ToIntFields(v, ty, n + 1, l) == IntValue(Join(rest.value, vv.value, l), Join(rest.np, vv.np, l))
  {
    hide FieldOf, ToInt, Join;
  }

  /** The integer form of the first `k` fields has the integer form of field `i` at its place. */
  ghost predicate HasChild(r: IntValue, v: StateValue, ty: Type, i: nat, l: Layout)
    requires ty.Agg? && i < |ty.fields|
  {
    ChildOf0(r, BitsBefore(ty, i), TypeBits(ty.fields[i].ty), NpBefore(ty, i, true, l), NpBits(ty.fields[i].ty, true, l), l) ==
      ToInt(FieldOf(v, ty, i, l), ty.fields[i].ty, l)
  }

  function ChildOf0(r: IntValue, total: nat, n: nat, totalNp: nat, np: nat, l: Layout): IntValue {
    IntValue(IntPart(r.value, total, n, l), IntPart(r.np, totalNp, np, l))
  }

  lemma ChildOfPrefix(rest: IntValue, vv: IntValue, total: nat, n: nat, totalNp: nat, np: nat, l: Layout)
    requires total + n <= |rest.value| && totalNp + np <= |rest.np|
    ensures ChildOf0(IntValue(Join(rest.value, vv.value, l), Join(rest.np, vv.np, l)), total, n, totalNp, np, l) ==
            ChildOf0(rest, total, n, totalNp, np, l)
  {
    IntPartOfPrefix(rest.value, vv.value, total, n, l);
    IntPartOfPrefix(rest.np, vv.np, totalNp, np, l);
  }

  lemma ChildAtEnd(rest: IntValue, vv: IntValue, l: Layout)
    ensures ChildOf0(IntValue(Join(rest.value, vv.value, l), Join(rest.np, vv.np, l)), |rest.value|, |vv.value|, |rest.np|, |vv.np|, l) == vv
  {
    IntPartAtEnd(rest.value, vv.value, l);
    IntPartAtEnd(rest.np, vv.np, l);
  }

  /** Child `i` of the integer form is the integer form of field `i`. */
  lemma {:induction false} ToIntParts(v: StateValue, ty: Type, i: nat, k: nat, l: Layout)
    requires ty.Agg? && i < k <= |ty.fields| && NoZeroWidth(ty) && Fits(v, ty, l)
    ensures HasChild(ToIntFields(v, ty, k, l), v, ty, i, l)
    decreases k
  {
    hide *;
    if i < k - 1 {
      ToIntParts(v, ty, i, k - 1, l);
      PrefixFits(ty, i, k - 1, l, true);
      FieldWidths(v, ty, k - 1, l);
      KeepsChild(v, ty, i, k - 1, l);
    } else {
      assert i == k - 1;
      LastChild(v, ty, k - 1, l);
    }
  }

  lemma KeepsChild(v: StateValue, ty: Type, i: nat, n: nat, l: Layout)
    requires ty.Agg? && i < n < |ty.fields| && HasChild(ToIntFields(v, ty, n, l), v, ty, i, l)
    requires BitsBefore(ty, i) + TypeBits(ty.fields[i].ty) <= |ToIntFields(v, ty, n, l).value|
    requires NpBefore(ty, i, true, l) + NpBits(ty.fields[i].ty, true, l) <= |ToIntFields(v, ty, n, l).np|
    ensures HasChild(ToIntFields(v, ty, n + 1, l), v, ty, i, l)
  {
    NextField(v, ty, n, l);
    hide ToIntFields, ToInt, FieldOf, BitsBefore, NpBefore, TypeBits, NpBits, ChildOf0, Join;
    ChildOfPrefix(ToIntFields(v, ty, n, l), ToInt(FieldOf(v, ty, n, l), ty.fields[n].ty, l),
                  BitsBefore(ty, i), TypeBits(ty.fields[i].ty), NpBefore(ty, i, true, l), NpBits(ty.fields[i].ty, true, l), l);
  }

  lemma LastChild(v: StateValue, ty: Type, n: nat, l: Layout)
    requires ty.Agg? && n < |ty.fields| && NoZeroWidth(ty) && Fits(v, ty, l)
    ensures HasChild(ToIntFields(v, ty, n + 1, l), v, ty, n, l)
  {
    NextField(v, ty, n, l);
    NonZeroFields(ty);
    FieldWidths(v, ty, n, l);
    FieldFits(v, ty, n, l);
    hide ToIntFields, ToInt, FieldOf, BitsBefore, NpBefore, TypeBits, NpBits, ChildOf0, Join, Fits, NoZeroWidth;
    ToIntWidths(FieldOf(v, ty, n, l), ty.fields[n].ty, l);
    ChildAtEnd(ToIntFields(v, ty, n, l), ToInt(FieldOf(v, ty, n, l), ty.fields[n].ty, l), l);
  }

  lemma ScalarNpBits(width: nat, l: Layout)
    requires width > 0 && l.poisonPerByte > 0 && l.bitsByte > 0
    ensures NpBits(Scalar(width), true, l) > 0
  {
    DivideUpPositive(width, l.poisonPerByte, l.bitsByte);
    hide DivideUp;
  }

  /** Nested empty aggregates, of which the integer form keeps nothing, are as
      `aggregateVals` builds them. */
  ghost predicate EmptiesPlain(v: StateValue, ty: Type, l: Layout)
    decreases ty
  {
    ty.Agg? ==>
      if ty.fields == [] then v == Pack(ty, [])
      else forall i: nat :: i < |ty.fields| ==> EmptiesPlain(FieldOf(v, ty, i, l), ty.fields[i].ty, l)
  }

  /** Going to the integer form and back gives the value and its poison, in both byte
      orders, if and only if its empty parts are plain. */
  lemma {:induction false} IntRoundTripIff(v: StateValue, ty: Type, l: Layout)
    requires NoZeroWidth(ty) && NoPadding(ty) && Fits(v, ty, l) && l.poisonPerByte > 0 && l.bitsByte > 0
    ensures FromInt(ToInt(v, ty, l), ty, l) == v <==> EmptiesPlain(v, ty, l)
    ensures Fits(FromInt(ToInt(v, ty, l), ty, l), ty, l)
    decreases ty
  {
    match ty
    case Scalar(n) =>
      ScalarNpBits(n, l);
      AllOnesRepeat(v.np == Flag(true), NpBits(ty, true, l));
    case Agg(fields) =>
      if fields != [] {
        var parts := FromIntFields(ToInt(v, ty, l), ty, |fields|, l);
        NonZeroFields(ty);
        forall i: nat | i < |fields|
          ensures Fits(parts[i], fields[i].ty, l)
          ensures parts[i] == FieldOf(v, ty, i, l) <==> EmptiesPlain(FieldOf(v, ty, i, l), fields[i].ty, l)
        {
          ChildProperties(ty, i);
          FieldFits(v, ty, i, l);
          ChildIs(v, ty, i, l);
          hide *;
          FromIntFieldsAt(ToInt(v, ty, l), ty, |fields|, i, l);
          IntRoundTripIff(FieldOf(v, ty, i, l), fields[i].ty, l);
        }
        RepackIff(v, ty, parts, l);
      }
  }

  /** The types that are stored in the integer form: scalars, and vectors of scalars. */
  ghost predicate ScalarOrVector(ty: Type) {
    ty.Agg? ==> ty.fields != [] && forall i :: 0 <= i < |ty.fields| ==> ty.fields[i].ty.Scalar? && !ty.fields[i].padding
  }

  /** For the types that are stored in the integer form, going there and back gives every
      value and its poison. */
  lemma StoredRoundTrip(v: StateValue, ty: Type, l: Layout)
    requires ScalarOrVector(ty) && NoZeroWidth(ty) && Fits(v, ty, l) && l.poisonPerByte > 0 && l.bitsByte > 0
    ensures FromInt(ToInt(v, ty, l), ty, l) == v
  {
    IntRoundTripIff(v, ty, l);
    hide FieldOf, ToInt, FromInt, Fits;
  }

  /** Packing parts of the right widths gives the aggregate whose fields they are. */
  lemma RepackIff(v: StateValue, ty: Type, parts: seq<StateValue>, l: Layout)
    requires ty.Agg? && ty.fields != [] && |parts| == |ty.fields| && FieldsNonZero(ty) && Fits(v, ty, l)
    requires forall i: nat :: i < |parts| ==> Fits(parts[i], ty.fields[i].ty, l)
    ensures Pack(ty, parts) == v <==> forall i: nat :: i < |parts| ==> parts[i] == FieldOf(v, ty, i, l)
    ensures Fits(Pack(ty, parts), ty, l)
  {
    PackFits(ty, parts, l);
    forall i: nat | i < |parts|
      ensures FieldOf(Pack(ty, parts), ty, i, l) == parts[i]
    {
      hide Fits, FieldOf, Pack;
      ExtractPacked(ty, parts, i, l);
    }
    hide Fits, FieldOf, Pack;
    if forall i: nat :: i < |parts| ==> parts[i] == FieldOf(v, ty, i, l) {
      EqualByFields(ty, Pack(ty, parts), v, l);
    }
  }

  /** `fromInt` hands one value for each field to `aggregateVals`, which asks for one for
      each field that is not padding. */
  lemma {:induction false} FromIntAcceptsIff(v: IntValue, ty: Type, k: nat, l: Layout)
    requires ty.Agg? && k <= |ty.fields|
    ensures CountValues(ty, k) <= k
    ensures |FromIntFields(v, ty, k, l)| == CountValues(ty, k) <==> forall i :: 0 <= i < k ==> !ty.fields[i].padding
  {
    if k > 0 {
      FromIntAcceptsIff(v, ty, k - 1, l);
    }
  }

  lemma {:induction false} FromIntFieldsAt(v: IntValue, ty: Type, k: nat, i: nat, l: Layout)
    requires ty.Agg? && i < k <= |ty.fields|
    ensures FromIntFields(v, ty, k, l)[i] == FromInt(ChildOf(v, ty, i, l), ty.fields[i].ty, l)
    decreases k
  {
    hide ChildOf, FromInt;
    if i < k - 1 {
      FromIntFieldsAt(v, ty, k - 1, i, l);
    }
  }

  lemma ChildProperties(ty: Type, i: nat)
    requires ty.Agg? && i < |ty.fields| && NoZeroWidth(ty) && NoPadding(ty)
    ensures NoZeroWidth(ty.fields[i].ty) && NoPadding(ty.fields[i].ty)
  {
  }

  lemma ChildIs(v: StateValue, ty: Type, i: nat, l: Layout)
    requires ty.Agg? && ty.fields != [] && i < |ty.fields| && NoZeroWidth(ty) && Fits(v, ty, l)
    ensures ChildOf(ToInt(v, ty, l), ty, i, l) == ToInt(FieldOf(v, ty, i, l), ty.fields[i].ty, l)
  {
    ToIntParts(v, ty, i, |ty.fields|, l);
    hide NoZeroWidth, Fits, FieldOf, ToIntFields, TypeBits, NpBits, BitsBefore, NpBefore, IntPart, DivideUp;
  }

  // ----- where the fields are ------------------------------------------------

  lemma IntPartPlaced(b: Bits, total: nat, n: nat, l: Layout)
    requires total + n <= |b|
    ensures |IntPart(b, total, n, l)| == n && SitsAt(b, IntPart(b, total, n, l), total, l.littleEndian)
  {
  }

  /** The integer form of field `i`, in that of the aggregate: the fields before it are
      below it in little endian, and above it in big endian; so are their poison bits. */
  lemma FieldPlaces(v: StateValue, ty: Type, i: nat, l: Layout)
    requires ty.Agg? && i < |ty.fields| && NoZeroWidth(ty) && Fits(v, ty, l)
    ensures var r, child := ToInt(v, ty, l), ToInt(FieldOf(v, ty, i, l), ty.fields[i].ty, l);
      && |r.value| == TypeBits(ty) && |r.np| == NpBits(ty, true, l)
      && |child.value| == TypeBits(ty.fields[i].ty) && |child.np| == NpBits(ty.fields[i].ty, true, l)
      && SitsAt(r.value, child.value, BitsBefore(ty, i), l.littleEndian)
      && SitsAt(r.np, child.np, NpBefore(ty, i, true, l), l.littleEndian)
  {
    var r, f := ToInt(v, ty, l), ty.fields[i].ty;
    NonZeroFields(ty);
    ToIntWidths(v, ty, l);
    ToIntParts(v, ty, i, |ty.fields|, l);
    PrefixFits(ty, i, |ty.fields|, l, true);
    assert BitsBefore(ty, |ty.fields|) == TypeBits(ty) && NpBefore(ty, |ty.fields|, true, l) == NpBits(ty, true, l);
    hide ToInt, ToIntFields, FieldOf, Fits, NoZeroWidth, BitsBefore, NpBefore, TypeBits, NpBits, IntPart, SitsAt;
    IntPartPlaced(r.value, BitsBefore(ty, i), TypeBits(f), l);
    IntPartPlaced(r.np, NpBefore(ty, i, true, l), NpBits(f, true, l), l);
    ToIntOfFields(v, ty, l);
  }

  lemma ToIntOfFields(v: StateValue, ty: Type, l: Layout)
    requires ty.Agg? && ty.fields != []
    ensures ToInt(v, ty, l) == ToIntFields(v, ty, |ty.fields|, l)
  {
    hide ToIntFields;
  }

  /** A scalar keeps its bits, all of its poison bits agree, and a form without fields is
      a well-defined zero. */
  lemma ScalarForm(v: StateValue, ty: Type, l: Layout)
    requires ty.Scalar? && Fits(v, ty, l)
    ensures ToInt(v, ty, l).value == v.value && forall k :: 0 <= k < |ToInt(v, ty, l).np| ==> (ToInt(v, ty, l).np[k] <==> v.np.b)
    ensures forall w, np :: FromInt(IntValue(w, np), ty, l) == StateValue(w, Flag(forall k :: 0 <= k < |np| ==> np[k]))
    ensures forall w :: ToInt(w, Agg([]), l) == IntValue([false], [true])
  {
    forall np
      ensures AllOnes(np) <==> forall k :: 0 <= k < |np| ==> np[k]
    {
      AllOnesIs(np);
    }
    hide AllOnes, NpBits;
  }

  ghost predicate IntFits(v: IntValue, ty: Type, l: Layout) {
    |v.value| == TypeBits(ty) && |v.np| == NpBits(ty, true, l)
  }

  lemma ChildFits(v: IntValue, ty: Type, i: nat, l: Layout)
    requires ty.Agg? && i < |ty.fields| && IntFits(v, ty, l)
    ensures IntFits(ChildOf(v, ty, i, l), ty.fields[i].ty, l)
    ensures SitsAt(v.value, ChildOf(v, ty, i, l).value, BitsBefore(ty, i), l.littleEndian)
    ensures SitsAt(v.np, ChildOf(v, ty, i, l).np, NpBefore(ty, i, true, l), l.littleEndian)
  {
    PrefixFits(ty, i, |ty.fields|, l, true);
    var f := ty.fields[i].ty;
    hide BitsBefore, NpBefore, TypeBits, NpBits, IntPart, SitsAt;
    WholeBefore(ty, l);
    IntPartPlaced(v.value, BitsBefore(ty, i), TypeBits(f), l);
    IntPartPlaced(v.np, NpBefore(ty, i, true, l), NpBits(f, true, l), l);
  }

  lemma WholeBefore(ty: Type, l: Layout)
    requires ty.Agg? && ty.fields != []
    ensures BitsBefore(ty, |ty.fields|) == TypeBits(ty) && NpBefore(ty, |ty.fields|, true, l) == NpBits(ty, true, l)
  {
    hide BitsBefore, NpBefore;
  }

  lemma {:induction false} FromIntFits(v: IntValue, ty: Type, l: Layout)
    requires NoZeroWidth(ty) && IntFits(v, ty, l)
    ensures Fits(FromInt(v, ty, l), ty, l)
    decreases ty, if ty.Agg? then |ty.fields| + 1 else 0
  {
    if ty.Agg? {
      NonZeroFields(ty);
      FromIntPartsFit(v, ty, |ty.fields|, l);
      PackFits(ty, FromIntFields(v, ty, |ty.fields|, l), l);
      hide Fits, Pack, FromIntFields, NoZeroWidth;
    }
  }

  lemma {:induction false} FromIntPartsFit(v: IntValue, ty: Type, k: nat, l: Layout)
    requires ty.Agg? && k <= |ty.fields| && NoZeroWidth(ty) && IntFits(v, ty, l)
    ensures FieldsFit(ty, FromIntFields(v, ty, k, l), k, l)
    decreases ty, k
  {
    hide Fits, IntFits, ChildOf, FromInt, TypeBits;
    if k > 0 {
      FromIntPartsFit(v, ty, k - 1, l);
      NonZeroFields(ty);
      ChildFits(v, ty, k - 1, l);
      FromIntFits(ChildOf(v, ty, k - 1, l), ty.fields[k - 1].ty, l);
    }
  }

  /** Back from the integer form: field `i` is what the bits say that have those of the
      fields before it below them in little endian, and above them in big endian. */
  lemma FieldReadFrom(v: IntValue, ty: Type, i: nat, child: IntValue, l: Layout)
    requires ty.Agg? && i < |ty.fields| && NoZeroWidth(ty) && IntFits(v, ty, l) && IntFits(child, ty.fields[i].ty, l)
    requires SitsAt(v.value, child.value, BitsBefore(ty, i), l.littleEndian) && SitsAt(v.np, child.np, NpBefore(ty, i, true, l), l.littleEndian)
    ensures FieldOf(FromInt(v, ty, l), ty, i, l) == FromInt(child, ty.fields[i].ty, l)
  {
    NonZeroFields(ty);
    ChildFits(v, ty, i, l);
    SamePlace(v, child, ChildOf(v, ty, i, l), BitsBefore(ty, i), NpBefore(ty, i, true, l), l);
    var parts := FromIntFields(v, ty, |ty.fields|, l);
    FromIntPartsFit(v, ty, |ty.fields|, l);
    FromIntFieldsAt(v, ty, |ty.fields|, i, l);
    ExtractPacked(ty, parts, i, l);
    hide FieldOf, Pack, FromIntFields, ChildOf, NoZeroWidth, IntFits, SitsAt, BitsBefore, NpBefore;
  }

  lemma SamePlace(v: IntValue, a: IntValue, b: IntValue, before: nat, beforeNp: nat, l: Layout)
    requires |a.value| == |b.value| && |a.np| == |b.np|
    requires SitsAt(v.value, a.value, before, l.littleEndian) && SitsAt(v.value, b.value, before, l.littleEndian)
    requires SitsAt(v.np, a.np, beforeNp, l.littleEndian) && SitsAt(v.np, b.np, beforeNp, l.littleEndian)
    ensures a == b
  {
  }

  // ----- vectors of equal elements -------------------------------------------

  ghost predicate VectorOf(ty: Type, n: nat) {
    ty.Agg? && ty.fields != [] && n > 0 && forall i :: 0 <= i < |ty.fields| ==> ty.fields[i].ty == Scalar(n)
  }

  lemma {:induction false} ElementPlaces(ty: Type, n: nat, k: nat, l: Layout)
    requires VectorOf(ty, n) && k <= |ty.fields|
    ensures BitsBefore(ty, k) == k * n && NpBefore(ty, k, true, l) == k * NpBits(Scalar(n), true, l) && NpBefore(ty, k, false, l) == k
    decreases k
  {
    var m := NpBits(Scalar(n), true, l);
    if k > 0 {
      ElementPlaces(ty, n, k - 1, l);
      assert k * n == (k - 1) * n + n && k * m == (k - 1) * m + m;
    }
    hide DivideUp;
  }

  lemma VectorIsWide(ty: Type, n: nat)
    requires VectorOf(ty, n)
    ensures NoZeroWidth(ty)
  {
    PrefixFits(ty, 0, |ty.fields|, Layout(1, 1, true), true);
  }

  /** Element `i` of a vector of `n`-bit elements, in its integer form: in little endian
      the first element is lowest, in big endian it is highest. */
  lemma VectorAsInteger(v: StateValue, ty: Type, n: nat, i: nat, l: Layout)
    requires VectorOf(ty, n) && i < |ty.fields| && Fits(v, ty, l)
    ensures SitsAt(ToInt(v, ty, l).value, FieldOf(v, ty, i, l).value, i * n, l.littleEndian)
    ensures |FieldOf(v, ty, i, l).value| == n && SitsAt(v.value, FieldOf(v, ty, i, l).value, i * n, false)
    ensures SitsAt(ToInt(v, ty, l).np, Repeat(FieldOf(v, ty, i, l).np == Flag(true), NpBits(Scalar(n), true, l)), i * NpBits(Scalar(n), true, l), l.littleEndian)
  {
    VectorIsWide(ty, n);
    ElementPlaces(ty, n, i, l);
    FieldPlaces(v, ty, i, l);
    ElementOf(v, ty, n, i, l);
    hide *;
  }

  lemma ElementOf(v: StateValue, ty: Type, n: nat, i: nat, l: Layout)
    requires VectorOf(ty, n) && i < |ty.fields| && Fits(v, ty, l) && BitsBefore(ty, i) == i * n
    ensures var e := FieldOf(v, ty, i, l);
      && |e.value| == n && SitsAt(v.value, e.value, i * n, false)
      && ToInt(e, ty.fields[i].ty, l) == IntValue(e.value, Repeat(e.np == Flag(true), NpBits(Scalar(n), true, l))) && ty.fields[i].ty == Scalar(n)
  {
    PrefixFits(ty, i, |ty.fields|, l, true);
    hide NpBits, BitsBefore, NpBefore, DivideUp, AllOnes;
  }

  /** Element `i` of the vector that an integer is read as. */
  lemma VectorFromInteger(v: IntValue, ty: Type, n: nat, i: nat, l: Layout)
    requires VectorOf(ty, n) && i < |ty.fields| && IntFits(v, ty, l)
    ensures |FieldOf(FromInt(v, ty, l), ty, i, l).value| == n
    ensures SitsAt(v.value, FieldOf(FromInt(v, ty, l), ty, i, l).value, i * n, l.littleEndian)
    ensures NpSitsAt(FieldOf(FromInt(v, ty, l), ty, i, l).np, Scalar(n), v.np, i * NpBits(Scalar(n), true, l), NpBits(Scalar(n), true, l), l.littleEndian)
  {
    VectorIsWide(ty, n);
    ElementPlaces(ty, n, i, l);
    ChildFits(v, ty, i, l);
    var child := ChildOf(v, ty, i, l);
    FieldReadFrom(v, ty, i, child, l);
    FromBVPlaced(Scalar(n), v.np, child.np, i * NpBits(Scalar(n), true, l), l.littleEndian);
    hide FieldOf, ChildOf, FromIntFields, NpBits, BitsBefore, NpBefore, SitsAt, NpSitsAt, AllOnes;
  }
}
