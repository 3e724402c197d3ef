/** Vectors accessed with a dynamic index, by shifts and masks: `VectorType::extract`
    and `VectorType::update` (ir/type.cpp). */
module Vectors {
  import opened Terms
  import opened Binary
  import opened Aggregates

  // ----- bit-vector operators ------------------------------------------------

  function Shl(b: Bits, k: nat): Bits {
    if k >= |b| then Repeat(false, |b|) else b[k..] + Repeat(false, k)
  }

  function Lshr(b: Bits, k: nat): Bits {
    if k >= |b| then Repeat(false, |b|) else Repeat(false, k) + b[..|b| - k]
  }

  function BitOr(a: Bits, b: Bits): Bits
    requires |a| == |b|
  {
    seq(|a|, i requires 0 <= i < |a| => a[i] || b[i])
  }

  function BitNot(a: Bits): Bits {
    seq(|a|, i requires 0 <= i < |a| => !a[i])
  }

  /** The shift amount, computed in bit-vectors of the whole width. */
  function ShiftBy(idx: nat, elemWidth: nat, width: nat): nat
  {
    Truncated(Truncated(idx, width) * elemWidth, width)
  }

  function Truncated(n: nat, width: nat): nat {
    if n < Pow2(width) then n else n % Pow2(width)
  }

  lemma {:induction false} MulBound(a: nat, b: nat, n: nat)
    requires a < b && n > 0
    ensures a * n + n <= b * n && a <= a * n
    decreases b
  {
    Distribute(b - 1, n);
    if a < b - 1 {
      MulBound(a, b - 1, n);
    }
    AtLeastOnce(a, n);
  }

  lemma Distribute(a: int, n: int)
    ensures (a + 1) * n == a * n + n
  {
  }

  lemma {:induction false} AtLeastOnce(a: nat, n: nat)
    requires n > 0
    ensures a <= a * n
  {
    if a > 0 {
      Distribute(a - 1, n);
      AtLeastOnce(a - 1, n);
    }
  }

  /** Within the vector the shift amount does not overflow. */
  lemma ShiftInRange(idx: nat, count: nat, elemWidth: nat)
    requires idx < count && elemWidth > 0
    ensures ShiftBy(idx, elemWidth, elemWidth * count) == idx * elemWidth && idx * elemWidth + elemWidth <= elemWidth * count
  {
    MulBound(idx, count, elemWidth);
    WidthFits(elemWidth * count);
  }

  // ----- vectors -------------------------------------------------------------

  /** A vector of `count` elements of this width. */
  function Vector(count: nat, width: nat): Type {
    Agg(seq(count, _ => Field(Scalar(width), false)))
  }

  /** Element bits by shifting the vector up. */
  function ShiftOut(b: Bits, idx: nat, count: nat, width: nat): Bits
    requires count > 0
  {
    Slice(Shl(b, ShiftBy(idx, width, width * count)), if count * width > 0 then count * width - 1 else 0, (count - 1) * width)
  }

  /** `VectorType::extract`. */
  function VectorExtract(v: StateValue, count: nat, width: nat, idx: nat): StateValue
    requires count > 0 && v.np.Packed? && count * width > 0
  {
    StateValue(ShiftOut(v.value, idx, count, width), Flag(AllOnes(ShiftOut(v.np.bits, idx, count, 1))))
  }

  /** The vector with an element masked out and another one put in its place. */
  function MaskIn(b: Bits, elem: Bits, idx: nat, count: nat, width: nat): Bits
    requires count > 0 && |b| == width * count && |elem| == width
  {
    var k := ShiftBy(idx, width, width * count);
    var fill := Repeat(false, Rest(count, width));
    var mask := BitNot(Lshr(Repeat(true, width) + fill, k));
    var shifted := Lshr(elem + fill, k);
    if |mask| == |b| == |shifted| then BitOr(BitAnd(b, mask), shifted) else []
  }

  function Rest(count: nat, width: nat): nat
    requires count > 0
  {
    (count - 1) * width
  }

  /** `VectorType::update`. */
  function VectorUpdate(v: StateValue, count: nat, width: nat, elem: StateValue, idx: nat): StateValue
    requires count > 0 && v.np.Packed? && |v.value| == width * count && |v.np.bits| == count && |elem.value| == width && elem.np.Flag?
  {
    if count == 1 then StateValue(elem.value, Packed([elem.np.b]))
    else StateValue(MaskIn(v.value, elem.value, idx, count, width), Packed(MaskIn(v.np.bits, [elem.np.b], idx, count, 1)))
  }

  lemma ShiftOutMeans(b: Bits, idx: nat, count: nat, width: nat)
    requires idx < count && width > 0 && |b| == width * count
    ensures ShiftOut(b, idx, count, width) == Part(b, idx * width, width)
  {
    ShiftInRange(idx, count, width);
    var k := idx * width;
    var s := Shl(b, k);
    assert |s| == width * count;
    assert count * width - (count - 1) * width == width;
    assert Slice(s, count * width - 1, (count - 1) * width) == s[0..width];
  }

  /** The masked vector: the old bits around the new element. */
  lemma MaskInMeans(b: Bits, elem: Bits, idx: nat, count: nat, width: nat)
    requires idx < count && width > 0 && |b| == width * count && |elem| == width
    ensures var k := idx * width; k + width <= |b| && MaskIn(b, elem, idx, count, width) == b[..k] + elem + b[k + width..]
  {
    ShiftInRange(idx, count, width);
    var k := idx * width;
    assert width + Rest(count, width) == width * count by {
      assert (count - 1) * width == count * width - width;
    }
    MaskBits(b, elem, k, Rest(count, width));
  }

  lemma MaskBits(b: Bits, elem: Bits, k: nat, rest: nat)
    requires |elem| + rest == |b| && k + |elem| <= |b| && |elem| > 0
    ensures var fill := Repeat(false, rest);
      var mask, shifted := BitNot(Lshr(Repeat(true, |elem|) + fill, k)), Lshr(elem + fill, k);
      |mask| == |b| == |shifted| && BitOr(BitAnd(b, mask), shifted) == b[..k] + elem + b[k + |elem|..]
  {
    var fill := Repeat(false, rest);
    var ones := Lshr(Repeat(true, |elem|) + fill, k);
    var shifted := Lshr(elem + fill, k);
    var result := BitOr(BitAnd(b, BitNot(ones)), shifted);
    forall t | 0 <= t < |b|
      ensures result[t] == (b[..k] + elem + b[k + |elem|..])[t]
    {
      assert ones[t] == (k <= t < k + |elem|);
      assert shifted[t] == (k <= t < k + |elem| && elem[t - k]);
    }
  }

  // ----- agreement with the static operations --------------------------------

  lemma {:induction false} VectorBits(count: nat, width: nat, k: nat, l: Layout)
    requires k <= count
    ensures BitsBefore(Vector(count, width), k) == k * width && NpBefore(Vector(count, width), k, false, l) == k
    decreases k
  {
    if k > 0 {
      VectorBits(count, width, k - 1, l);
      assert k * width == (k - 1) * width + width;
    }
  }

  lemma VectorFits(v: StateValue, count: nat, width: nat, l: Layout)
    requires count > 0 && width > 0 && Fits(v, Vector(count, width), l)
    ensures |v.value| == width * count && v.np.Packed? && |v.np.bits| == count && width * count > 0
  {
    VectorBits(count, width, count, l);
    MulBound(0, count, width);
  }

  /** In range, the dynamic extraction is the static one. */
  lemma VectorExtractAgrees(v: StateValue, count: nat, width: nat, idx: nat, l: Layout)
    requires idx < count && width > 0 && Fits(v, Vector(count, width), l) && count * width > 0
    ensures v.np.Packed? && VectorExtract(v, count, width, idx) == FieldOf(v, Vector(count, width), idx, l)
  {
    VectorFits(v, count, width, l);
    ShiftOutMeans(v.value, idx, count, width);
    ShiftOutMeans(v.np.bits, idx, count, 1);
    VectorBits(count, width, idx, l);
    assert idx * 1 == idx;
    hide ShiftOut, BitsBefore, NpBefore, AllOnes, Part;
    assert TypeBits(Scalar(width)) == width && NpBits(Scalar(width), false, l) == 1;
  }

  lemma SplicedPart(b: Bits, elem: Bits, k: nat, j: nat, width: nat)
    requires |elem| == width && k + width <= |b| && j + width <= |b| && (j == k || j + width <= k || k + width <= j)
    ensures Part(b[..k] + elem + b[k + width..], j, width) == if j == k then elem else Part(b, j, width)
  {
  }

  lemma Separate(i: nat, j: nat, width: nat)
    requires width > 0
    ensures i == j || i * width + width <= j * width || j * width + width <= i * width
  {
    if i < j {
      MulBound(i, j, width);
    } else if j < i {
      MulBound(j, i, width);
    }
  }

  /** Element `j` of the masked vector. */
  lemma MaskedPart(b: Bits, elem: Bits, idx: nat, j: nat, count: nat, width: nat)
    requires idx < count && j < count && width > 0 && |b| == width * count && |elem| == width
    ensures Part(MaskIn(b, elem, idx, count, width), j * width, width) == if j == idx then elem else Part(b, j * width, width)
    ensures |MaskIn(b, elem, idx, count, width)| == |b|
  {
    MaskInMeans(b, elem, idx, count, width);
    MulBound(j, count, width);
    Separate(idx, j, width);
    var k, m := idx * width, j * width;
    hide MaskIn, Part;
    assert m + width <= |b| by {
      assert count * width == width * count;
    }
    assert j == idx <==> m == k;
    SplicedPart(b, elem, k, m, width);
  }

  /** In range, the dynamic update is the static one. */
  lemma VectorUpdateAgrees(v: StateValue, count: nat, width: nat, elem: StateValue, idx: nat, l: Layout)
    requires idx < count && width > 0 && Fits(v, Vector(count, width), l) && Fits(elem, Scalar(width), l)
    ensures v.np.Packed? && |v.value| == width * count && |v.np.bits| == count && IsPath(Vector(count, width), [idx])
    ensures VectorUpdate(v, count, width, elem, idx) == Update(v, Vector(count, width), [idx], elem, l)
  {
    var ty := Vector(count, width);
    VectorFits(v, count, width, l);
    VectorPath(count, width, idx);
    assert Fits(elem, TypeAt(ty, [idx]), l);
    VectorNonZero(count, width, l);
    var a, b := VectorUpdate(v, count, width, elem, idx), Update(v, ty, [idx], elem, l);
    UpdatedElements(v, count, width, elem, idx, l);
    MaskedElements(v, count, width, elem, idx, l);
    hide *;
    EqualByFields(ty, a, b, l);
  }

  lemma VectorPath(count: nat, width: nat, idx: nat)
    requires idx < count
    ensures IsPath(Vector(count, width), [idx]) && TypeAt(Vector(count, width), [idx]) == Scalar(width)
  {
    assert [idx][1..] == [];
  }

  lemma VectorNonZero(count: nat, width: nat, l: Layout)
    requires count > 0 && width > 0
    ensures NoZeroWidth(Vector(count, width)) && FieldsNonZero(Vector(count, width)) && Vector(count, width).fields != []
  {
    VectorBits(count, width, count, l);
    MulBound(0, count, width);
    assert NoZeroWidth(Scalar(width));
  }

  /** The elements after the static update. */
  lemma UpdatedElements(v: StateValue, count: nat, width: nat, elem: StateValue, idx: nat, l: Layout)
    requires idx < count && width > 0 && Fits(v, Vector(count, width), l) && Fits(elem, Scalar(width), l)
    ensures IsPath(Vector(count, width), [idx]) && Fits(Update(v, Vector(count, width), [idx], elem, l), Vector(count, width), l)
    ensures forall j: nat :: j < count ==>
      FieldOf(Update(v, Vector(count, width), [idx], elem, l), Vector(count, width), j, l) == if j == idx then elem else FieldOf(v, Vector(count, width), j, l)
  {
    var ty := Vector(count, width);
    VectorPath(count, width, idx);
    VectorNonZero(count, width, l);
    UpdateFits(v, ty, [idx], elem, l);
    var parts := UpdatedParts(v, ty, [idx], elem, l);
    forall j: nat | j < count
      ensures FieldOf(Update(v, ty, [idx], elem, l), ty, j, l) == if j == idx then elem else FieldOf(v, ty, j, l)
    {
      ExtractPacked(ty, parts, j, l);
      PartIs(v, ty, [idx], elem, j, l);
      assert [idx][1..] == [];
      hide Pack, FieldOf, NoZeroWidth, FieldsFit, Fits;
    }
  }

  /** The elements after the dynamic update. */
  lemma MaskedElements(v: StateValue, count: nat, width: nat, elem: StateValue, idx: nat, l: Layout)
    requires idx < count && width > 0 && Fits(v, Vector(count, width), l) && Fits(elem, Scalar(width), l)
    requires v.np.Packed? && |v.value| == width * count && |v.np.bits| == count
    ensures Fits(VectorUpdate(v, count, width, elem, idx), Vector(count, width), l)
    ensures forall j: nat :: j < count ==>
      FieldOf(VectorUpdate(v, count, width, elem, idx), Vector(count, width), j, l) == if j == idx then elem else FieldOf(v, Vector(count, width), j, l)
  {
    VectorBits(count, width, count, l);
    MaskedWidths(v, count, width, elem, idx);
    forall j: nat | j < count
      ensures FieldOf(VectorUpdate(v, count, width, elem, idx), Vector(count, width), j, l) == if j == idx then elem else FieldOf(v, Vector(count, width), j, l)
    {
      MaskedElement(v, count, width, elem, idx, j, l);
    }
    hide VectorUpdate, FieldOf;
  }

  lemma MaskedWidths(v: StateValue, count: nat, width: nat, elem: StateValue, idx: nat)
    requires idx < count && width > 0 && |elem.value| == width && elem.np.Flag?
    requires v.np.Packed? && |v.value| == width * count && |v.np.bits| == count
    ensures var r := VectorUpdate(v, count, width, elem, idx); |r.value| == width * count && r.np.Packed? && |r.np.bits| == count
  {
    if count == 1 {
      assert width * 1 == width;
    } else {
      MaskedPart(v.value, elem.value, idx, idx, count, width);
      MaskedPart(v.np.bits, [elem.np.b], idx, idx, count, 1);
    }
  }

  lemma MaskedElement(v: StateValue, count: nat, width: nat, elem: StateValue, idx: nat, j: nat, l: Layout)
    requires idx < count && j < count && width > 0 && |elem.value| == width && elem.np.Flag?
    requires v.np.Packed? && |v.value| == width * count && |v.np.bits| == count
    ensures FieldOf(VectorUpdate(v, count, width, elem, idx), Vector(count, width), j, l) == if j == idx then elem else FieldOf(v, Vector(count, width), j, l)
  {
    VectorBits(count, width, j, l);
    NpRoundTrip(StateValue(Repeat(false, 1), elem.np), Scalar(1), l);
    assert TypeBits(Scalar(width)) == width && NpBits(Scalar(width), false, l) == 1;
    if count == 1 {
      assert j == 0 && idx == 0;
      assert Part(elem.value, 0, width) == elem.value && Part([elem.np.b], 0, 1) == [elem.np.b];
    } else {
      MaskedPart(v.value, elem.value, idx, j, count, width);
      MaskedPart(v.np.bits, [elem.np.b], idx, j, count, 1);
      assert j * 1 == j;
      hide MaskIn, BitsBefore, NpBefore, AllOnes, Part;
    }
  }
}
