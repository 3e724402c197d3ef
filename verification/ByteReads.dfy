/** What typed reads see of bytes that were stored with other types, widths or byte numbers,
    bit by bit: `bytesToValue` (ir/memory.cpp), outside assembly mode. */
module ByteReads {
  import opened Terms
  import opened Binary
  import opened Aggregates
  import opened ByteEncoding

  /** What was stored in a byte: byte `number` of an integer of some width, or of a pointer. */
  datatype Origin =
    | OfInt(value: Bits, np: Bits, width: nat, number: nat)
    | OfPtr(ptr: Bits, nonPoison: bool, number: nat)

  /** The byte holds what was stored, and what is known of its block is no contradiction:
      a block that may hold pointers only holds no integer. */
  ghost predicate Holds(c: Config, b: TypedByte, s: Origin) {
    match s
    case OfInt(value, np, width, number) =>
      c.ints && (b.mayInt || !b.mayPtr) && |value| == c.bitsByte && |np| == c.poisonPerByte && b.bits == IntByte(c, value, np, width, number)
    case OfPtr(ptr, nonPoison, number) =>
      c.ptrs && b.mayPtr && |ptr| == c.ptrBits && b.bits == PtrByte(c, ptr, nonPoison, number)
  }

  ghost predicate AllHold(c: Config, bytes: seq<TypedByte>, from: seq<Origin>) {
    |from| == |bytes| && forall i: nat :: i < |bytes| ==> Holds(c, bytes[i], from[i])
  }

  /** Bit `t` from the low end. */
  function Bit(b: Bits, t: nat): bool
    requires t < |b|
  {
    b[|b| - 1 - t]
  }

  ghost predicate Casts(c: Config, cast: Bits -> Bits) {
    forall b :: |cast(b)| == c.bitsByte
  }

  /** Both widths are whole bytes, or they are the same, as far as the tag can tell. */
  ghost predicate WidthsAgree(c: Config, stored: nat, width: nat) {
    var (a, b) := (if stored % 8 == 0 then 0 else stored, if width % 8 == 0 then 0 else width);
    a % Pow2(c.subBits) == b % Pow2(c.subBits)
  }

  /** The place of bit `k` of unit `i`, in a row of units of `w` bits. */
  function Place(i: nat, w: nat, k: nat): nat {
    i * w + k
  }

  /** An integer of this width has a poison bit `j` in memory. */
  ghost predicate Covers(c: Config, width: nat, j: nat) {
    j * c.bitsByte < width * c.poisonPerByte
  }

  /** Poison bit `k` of byte `i` of a read of `width` bits is well-defined. */
  ghost predicate NpBitAt(c: Config, s: Origin, width: nat, i: nat, k: nat)
  {
    match s
    case OfInt(value, np, stored, number) =>
      k < |np| && Bit(np, k) && (c.subBits > 0 ==> WidthsAgree(c, stored, width) && number % Pow2(c.numBits) == i % Pow2(c.numBits))
    case OfPtr(_, nonPoison, _) => nonPoison && width % 8 == 0
  }

  /** Every poison bit that the read covers is well-defined. */
  ghost predicate WellDefined(c: Config, from: seq<Origin>, width: nat) {
    forall i: nat, k: nat :: i < |from| && k < c.poisonPerByte && Covers(c, width, Place(i, c.poisonPerByte, k)) ==> NpBitAt(c, from[i], width, i, k)
  }

  /** Value bit `k` of a byte; nothing is read from blocks that hold nothing. */
  ghost predicate ValueBitAt(c: Config, b: TypedByte, s: Origin, cast: Bits -> Bits, k: nat)
    requires k < c.bitsByte && Casts(c, cast) && (s.OfInt? ==> |s.value| == c.bitsByte)
  {
    match s
    case OfInt(value, _, _, _) => b.mayInt && Bit(value, k)
    case OfPtr(_, _, _) => Bit(cast(b.bits), k)
  }

  // ----- bits of numbers and of concatenations --------------------------------

  lemma HalfModulo(n: nat, p: nat)
    requires p > 0
    ensures n % (2 * p) == 2 * ((n / 2) % p) + n % 2
  {
    var h, q, r := n / 2, (n / 2) / p, (n / 2) % p;
    assert n == 2 * h + n % 2 && h == q * p + r;
    assert n == q * (2 * p) + (2 * r + n % 2);
    RemainderIs(n, 2 * p, q, 2 * r + n % 2);
  }

  lemma RemainderIs(n: nat, d: nat, q: nat, r: nat)
    requires d > 0 && n == q * d + r && r < d
    ensures n % d == r
  {
    var q', r' := n / d, n % d;
    assert n == q' * d + r';
    QuotientAtLeast(q, r, q', r', d);
    QuotientAtLeast(q', r', q, r, d);
  }

  lemma QuotientAtLeast(q: nat, r: nat, q': nat, r': nat, d: nat)
    requires q * d + r == q' * d + r' && r < d
    ensures q >= q'
  {
    assert (q + 1) * d == q * d + d;
    CancelLess(q', q + 1, d);
  }

  lemma CancelLess(a: nat, b: nat, d: nat)
    requires a * d < b * d
    ensures a < b
  {
    if a >= b {
      MulAtLeast(a, b, d);
    }
  }

  lemma MulMonotone(n: nat, a: nat, b: nat)
    requires a <= b
    ensures n * a <= n * b
  {
  }

  lemma MulAtLeast(a: nat, b: nat, d: nat)
    requires a >= b
    ensures a * d >= b * d
  {
    assert a * d == b * d + (a - b) * d;
  }

  /** The lowest bits agree exactly if the remainders do. */
  lemma {:induction false} BinEqualIff(n: nat, m: nat, width: nat)
    ensures Bin(n, width) == Bin(m, width) <==> n % Pow2(width) == m % Pow2(width)
  {
    if width > 0 {
      var a, b := Bin(n / 2, width - 1), Bin(m / 2, width - 1);
      var x, y := Bin(n, width), Bin(m, width);
      assert x[..width - 1] == a && y[..width - 1] == b && x[width - 1] == (n % 2 == 1) && y[width - 1] == (m % 2 == 1);
      BinEqualIff(n / 2, m / 2, width - 1);
      HalfModulo(n, Pow2(width - 1));
      HalfModulo(m, Pow2(width - 1));
    } else {
      assert Pow2(0) == 1;
    }
  }

  lemma BitOfConcat(high: Bits, low: Bits, t: nat)
    requires t < |high| + |low|
    ensures Bit(high + low, t) == if t < |low| then Bit(low, t) else Bit(high, t - |low|)
  {
  }

  lemma BitOfLow(b: Bits, n: nat, t: nat)
    requires t < n <= |b|
    ensures |Low(b, n)| == n && Bit(Low(b, n), t) == Bit(b, t)
  {
  }

  lemma AllOnesIff(b: Bits)
    ensures AllOnes(b) <==> forall t: nat :: t < |b| ==> Bit(b, t)
  {
    if forall t: nat :: t < |b| ==> Bit(b, t) {
      forall i | 0 <= i < |b|
        ensures b[i]
      {
        assert Bit(b, |b| - 1 - i);
      }
    }
  }

  // ----- one byte --------------------------------------------------------------

  lemma BitOfMasked(tagged: bool, np: Bits, k: nat)
    requires k < |np|
    ensures |BitAnd(Repeat(tagged, |np|), np)| == |np| && (Bit(BitAnd(Repeat(tagged, |np|), np), k) <==> tagged && Bit(np, k))
  {
  }

  /** The poison bits that one byte contributes. */
  lemma ByteNp(c: Config, b: TypedByte, s: Origin, width: nat, i: nat)
    requires Good(c) && Holds(c, b, s)
    ensures |NpOfByte(c, b, width, i)| == c.poisonPerByte
    ensures forall k: nat :: k < c.poisonPerByte ==> (Bit(NpOfByte(c, b, width, i), k) <==> NpBitAt(c, s, width, i, k))
  {
    match s
    case OfInt(value, np, stored, number) =>
      IntByteFields(c, value, np, stored, number);
      BinEqualIff(Tag(stored), Tag(width), c.subBits);
      BinEqualIff(number, i, c.numBits);
      hide IntByte, IntNonpoison, IntValue, IsPtr, StoredWidth, ByteNumber, Bin, Pow2, Bit, Repeat, BitAnd;
      var tagged := c.subBits == 0 || (WidthsAgree(c, stored, width) && number % Pow2(c.numBits) == i % Pow2(c.numBits));
      assert NpOfByte(c, b, width, i) == BitAnd(Repeat(tagged, c.poisonPerByte), np);
      forall k: nat | k < c.poisonPerByte
        ensures |NpOfByte(c, b, width, i)| == c.poisonPerByte && (Bit(NpOfByte(c, b, width, i), k) <==> NpBitAt(c, s, width, i, k))
      {
        BitOfMasked(tagged, np, k);
      }
    case OfPtr(ptr, nonPoison, number) =>
      PtrByteFields(c, ptr, nonPoison, number);
      hide PtrByte, PtrNonpoison, IsPtr, PtrValue, PtrByteOffset;
  }

  /** The value bits that one byte contributes. */
  lemma ByteValue(c: Config, b: TypedByte, s: Origin, cast: Bits -> Bits)
    requires Good(c) && Holds(c, b, s) && Casts(c, cast)
    ensures |ForceCastToInt(c, b, cast)| == c.bitsByte
    ensures forall k: nat :: k < c.bitsByte ==> (Bit(ForceCastToInt(c, b, cast), k) <==> ValueBitAt(c, b, s, cast, k))
  {
    match s
    case OfInt(value, np, stored, number) =>
      IntByteFields(c, value, np, stored, number);
      hide IntByte, IntNonpoison, IntValue, IsPtr, StoredWidth, ByteNumber, Bin;
    case OfPtr(ptr, nonPoison, number) =>
      PtrByteFields(c, ptr, nonPoison, number);
      hide PtrByte, PtrNonpoison, IsPtr, PtrValue, PtrByteOffset;
  }

  // ----- integer reads ---------------------------------------------------------

  /** Bit `k` of unit `i` of a bit-vector made of units. */
  ghost predicate UnitsAre(r: Bits, units: seq<Bits>, n: nat, w: nat)
    requires n <= |units|
  {
    && |r| == n * w
    && forall i: nat :: i < n ==> UnitIs(r, units[i], i, w)
  }

  ghost predicate UnitIs(r: Bits, unit: Bits, i: nat, w: nat) {
    |unit| == w && forall k: nat :: k < w ==> Place(i, w, k) < |r| && Bit(r, Place(i, w, k)) == Bit(unit, k)
  }

  lemma Within(i: nat, k: nat, n: nat, w: nat)
    requires i < n && k < w
    ensures i * w + k < n * w
  {
    AtLeastFactor(n - i, w);
    assert n * w == i * w + (n - i) * w;
  }

  lemma NextUnit(r: Bits, units: seq<Bits>, n: nat, w: nat)
    requires n < |units| && UnitsAre(r, units, n, w) && |units[n]| == w
    ensures UnitsAre(units[n] + r, units, n + 1, w)
  {
    var r' := units[n] + r;
    assert (n + 1) * w == n * w + w;
    forall i: nat | i < n + 1
      ensures UnitIs(r', units[i], i, w)
    {
      assert i < n ==> UnitIs(r, units[i], i, w);
      forall k: nat | k < w
        ensures Place(i, w, k) < |r'| && Bit(r', Place(i, w, k)) == Bit(units[i], k)
      {
        Within(i, k, n + 1, w);
        BitOfConcat(units[n], r, Place(i, w, k));
        if i < n {
          Within(i, k, n, w);
        }
      }
    }
  }

  lemma {:induction false} ValueUnits(c: Config, bytes: seq<TypedByte>, units: seq<Bits>, n: nat, cast: Bits -> Bits)
    requires |units| == |bytes| && n <= |bytes|
    requires forall i: nat :: i < |bytes| ==> units[i] == ForceCastToInt(c, bytes[i], cast) && |units[i]| == c.bitsByte
    ensures UnitsAre(ReadValue(c, bytes, n, cast), units, n, c.bitsByte)
    decreases n
  {
    hide ForceCastToInt;
    if n > 0 {
      ValueUnits(c, bytes, units, n - 1, cast);
      hide UnitsAre;
      NextUnit(ReadValue(c, bytes, n - 1, cast), units, n - 1, c.bitsByte);
    }
  }

  lemma {:induction false} NpUnits(c: Config, bytes: seq<TypedByte>, units: seq<Bits>, n: nat, width: nat)
    requires |units| == |bytes| && n <= |bytes|
    requires forall i: nat :: i < |bytes| ==> units[i] == NpOfByte(c, bytes[i], width, i) && |units[i]| == c.poisonPerByte
    ensures UnitsAre(ReadNp(c, bytes, n, width), units, n, c.poisonPerByte)
    decreases n
  {
    hide NpOfByte;
    if n > 0 {
      NpUnits(c, bytes, units, n - 1, width);
      hide UnitsAre;
      NextUnit(ReadNp(c, bytes, n - 1, width), units, n - 1, c.poisonPerByte);
    }
  }

  lemma {:induction false} DivideUpIff(n: nat, d: nat, j: nat)
    requires d > 0
    ensures j < DivideUp(n, d) <==> j * d < n
    decreases n
  {
    if n > d && j > 0 {
      DivideUpIff(n - d, d, j - 1);
      assert j * d == (j - 1) * d + d;
    } else if n > 0 && j > 0 {
      AtLeastFactor(j, d);
      assert DivideUp(0, d) == 0;
    }
  }

  /** The number of poison bits of an integer of this width, in memory. */
  lemma NpWidth(c: Config, width: nat, j: nat)
    requires Good(c)
    ensures j < NpBits(Scalar(width), true, LayoutOf(c)) <==> Covers(c, width, j)
  {
    var p, bb := c.poisonPerByte, c.bitsByte;
    hide DivideUp, Times;
    TimesIsProduct(width, p);
    TimesIsProduct(width, bb);
    DivideUpIff(width * p, bb, j);
    MulMonotone(width, p, bb);
    DivideUpLeast(width * p, bb, width);
    assert NpBits(Scalar(width), true, LayoutOf(c)) == DivideUp(width * p, bb);
  }

  /** What the read of an integer sees, for any bytes of integers and of pointers: the
      result is well-defined exactly if every poison bit it covers is, and byte `i` gives
      the bits from `i * bitsByte` up. */
  lemma IntegerRead(c: Config, bytes: seq<TypedByte>, from: seq<Origin>, width: nat, cast: Bits -> Bits)
    requires Good(c) && width > 0 && |bytes| == DivideUp(width, c.bitsByte) && AllHold(c, bytes, from) && Casts(c, cast)
    ensures var v := IntegerOf(c, bytes, width, cast);
      && |v.value| == width && v.np.Flag?
      && (v.np.b <==> WellDefined(c, from, width))
      && forall i: nat, k: nat :: i < |bytes| && k < c.bitsByte && Place(i, c.bitsByte, k) < width ==>
            (Bit(v.value, Place(i, c.bitsByte, k)) <==> ValueBitAt(c, bytes[i], from[i], cast, k))
  {
    IntegerReadNp(c, bytes, from, width);
    IntegerReadValue(c, bytes, from, width, cast);
    hide AllHold, AllOnes, Low, ReadNp, ReadValue, NpBits, DivideUp, NpBitAt, ValueBitAt, Bit, Covers, Place;
  }

  lemma IntegerReadNp(c: Config, bytes: seq<TypedByte>, from: seq<Origin>, width: nat)
    requires Good(c) && width > 0 && |bytes| == DivideUp(width, c.bitsByte) && AllHold(c, bytes, from)
    ensures AllOnes(Low(ReadNp(c, bytes, |bytes|, width), NpBits(Scalar(width), true, LayoutOf(c)))) <==> WellDefined(c, from, width)
  {
    var p, n, m := c.poisonPerByte, |bytes|, NpBits(Scalar(width), true, LayoutOf(c));
    var units := seq(n, i requires 0 <= i < n => NpOfByte(c, bytes[i], width, i));
    var r := ReadNp(c, bytes, n, width);
    hide *;
    NpFits(c, width);
    NpPerByte(c, bytes, from, units, width);
    NpUnits(c, bytes, units, n, width);
    RowLength(r, units, n, p);
    LowOnes(r, units, n, p, m);
    forall j: nat
      ensures j < m <==> Covers(c, width, j)
    {
      NpWidth(c, width, j);
    }
    SameBits(c, from, units, width, m);
  }

  /** The low `m` bits of a row of units are all ones. */
  lemma LowOnes(r: Bits, units: seq<Bits>, n: nat, p: nat, m: nat)
    requires n <= |units| && p > 0 && UnitsAre(r, units, n, p) && m <= |r| && forall i: nat :: i < n ==> |units[i]| == p
    ensures AllOnes(Low(r, m)) <==> forall i: nat, k: nat :: i < n && k < p && Place(i, p, k) < m ==> Bit(units[i], k)
  {
    var low := Low(r, m);
    AllOnesIff(low);
    if m > 0 {
      BitOfLow(r, m, 0);
    }
    forall t: nat | t < m
      ensures |low| == m && Bit(low, t) == Bit(r, t)
    {
      BitOfLow(r, m, t);
    }
    hide Bit, Low, AllOnes, Place;
    if forall i: nat, k: nat :: i < n && k < p && Place(i, p, k) < m ==> Bit(units[i], k) {
      forall t: nat | t < m
        ensures Bit(low, t)
      {
        var i, k := UnitOf(t, n, p);
        assert Bit(units[i], k);
      }
    } else {
      var i: nat, k: nat :| i < n && k < p && Place(i, p, k) < m && !Bit(units[i], k);
      assert !Bit(r, Place(i, p, k));
    }
  }

  lemma NpFits(c: Config, width: nat)
    requires Good(c)
    ensures c.poisonPerByte > 0 && NpBits(Scalar(width), true, LayoutOf(c)) <= DivideUp(width, c.bitsByte) * c.poisonPerByte
  {
    PaddingSuffices(c, width);
    TimesIsProduct(DivideUp(width, c.bitsByte), c.poisonPerByte);
    hide DivideUp, NpBits, Times;
  }

  lemma NpPerByte(c: Config, bytes: seq<TypedByte>, from: seq<Origin>, units: seq<Bits>, width: nat)
    requires Good(c) && AllHold(c, bytes, from) && |units| == |bytes| && forall i: nat :: i < |bytes| ==> units[i] == NpOfByte(c, bytes[i], width, i)
    ensures forall i: nat :: i < |bytes| ==>
      |units[i]| == c.poisonPerByte && forall k: nat :: k < c.poisonPerByte ==> (Bit(units[i], k) <==> NpBitAt(c, from[i], width, i, k))
  {
    hide Holds, NpOfByte, Bit, NpBitAt;
    forall i: nat | i < |bytes|
      ensures |units[i]| == c.poisonPerByte && forall k: nat :: k < c.poisonPerByte ==> (Bit(units[i], k) <==> NpBitAt(c, from[i], width, i, k))
    {
      ByteNp(c, bytes[i], from[i], width, i);
    }
  }

  lemma SameBits(c: Config, from: seq<Origin>, units: seq<Bits>, width: nat, m: nat)
    requires |units| == |from| && forall j: nat :: j < m <==> Covers(c, width, j)
    requires forall i: nat :: i < |units| ==> |units[i]| == c.poisonPerByte && forall k: nat :: k < c.poisonPerByte ==> (Bit(units[i], k) <==> NpBitAt(c, from[i], width, i, k))
    ensures WellDefined(c, from, width) <==> forall i: nat, k: nat :: i < |units| && k < c.poisonPerByte && Place(i, c.poisonPerByte, k) < m ==> Bit(units[i], k)
  {
    hide Covers, Place;
  }

  lemma RowLength(r: Bits, units: seq<Bits>, n: nat, p: nat)
    requires n <= |units| && UnitsAre(r, units, n, p)
    ensures |r| == n * p
  {
  }

  lemma {:induction false} UnitOf(t: nat, n: nat, p: nat) returns (i: nat, k: nat)
    requires p > 0 && t < n * p
    ensures i < n && k < p && Place(i, p, k) == t
    decreases n
  {
    assert n * p == (n - 1) * p + p;
    if t >= (n - 1) * p {
      i, k := n - 1, t - (n - 1) * p;
    } else {
      i, k := UnitOf(t, n - 1, p);
    }
  }

  lemma IntegerReadValue(c: Config, bytes: seq<TypedByte>, from: seq<Origin>, width: nat, cast: Bits -> Bits)
    requires Good(c) && |bytes| == DivideUp(width, c.bitsByte) && AllHold(c, bytes, from) && Casts(c, cast)
    ensures var v := Low(ReadValue(c, bytes, |bytes|, cast), width);
      && |v| == width
      && forall i: nat, k: nat :: i < |bytes| && k < c.bitsByte && Place(i, c.bitsByte, k) < width ==>
            (Bit(v, Place(i, c.bitsByte, k)) <==> ValueBitAt(c, bytes[i], from[i], cast, k))
  {
    var bb, n := c.bitsByte, |bytes|;
    var units := seq(n, i requires 0 <= i < n => ForceCastToInt(c, bytes[i], cast));
    var r := ReadValue(c, bytes, n, cast);
    DivideUpCovers(width, bb);
    TimesIsProduct(n, bb);
    hide ForceCastToInt, DivideUp, ReadValue, Bit, ValueBitAt, Times, IntByte, PtrByte, Low, Place;
    forall i: nat | i < n
      ensures |units[i]| == bb && forall k: nat :: k < bb ==> (Bit(units[i], k) <==> ValueBitAt(c, bytes[i], from[i], cast, k))
    {
      assert Holds(c, bytes[i], from[i]);
      ByteValue(c, bytes[i], from[i], cast);
    }
    ValueUnits(c, bytes, units, n, cast);
    var v := Low(r, width);
    assert |v| == width by {
      LowLength(r, width);
    }
    forall i: nat, k: nat | i < n && k < bb && Place(i, bb, k) < width
      ensures Bit(v, Place(i, bb, k)) <==> ValueBitAt(c, bytes[i], from[i], cast, k)
    {
      BitOfLow(r, width, Place(i, bb, k));
      assert Bit(r, Place(i, bb, k)) == Bit(units[i], k);
    }
  }

  lemma LowLength(b: Bits, n: nat)
    requires n <= |b|
    ensures |Low(b, n)| == n
  {
  }

  /** Each byte of a read contributes its lowest poison bit. */
  lemma LowestCounts(c: Config, width: nat, i: nat)
    requires Good(c) && i < DivideUp(width, c.bitsByte)
    ensures Covers(c, width, Place(i, c.poisonPerByte, 0))
  {
    DivideUpIff(width, c.bitsByte, i);
    MulStrict(width, i * c.bitsByte, c.poisonPerByte);
    Commute(i, c.bitsByte, c.poisonPerByte);
  }

  lemma Commute(i: nat, a: nat, b: nat)
    ensures (i * a) * b == (i * b) * a
  {
  }

  /** The bytes of a pointer, read as an integer: well-defined exactly if the pointer is
      and the integer takes whole bytes; the value is that of the bytes converted, the
      first one lowest. */
  lemma PointerAsInteger(c: Config, ptr: Bits, nonPoison: bool, bytes: seq<TypedByte>, width: nat, cast: Bits -> Bits)
    requires Good(c) && c.ptrs && |ptr| == c.ptrBits && StoredPtr(c, bytes, ptr, nonPoison)
    requires width > 0 && |bytes| == DivideUp(width, c.bitsByte) && Casts(c, cast)
    ensures var v := IntegerOf(c, bytes, width, cast);
      && |v.value| == width && v.np == Flag(nonPoison && width % 8 == 0)
      && forall i: nat, k: nat :: i < |bytes| && k < c.bitsByte && Place(i, c.bitsByte, k) < width ==>
            Bit(v.value, Place(i, c.bitsByte, k)) == Bit(cast(PtrByte(c, ptr, nonPoison, i)), k)
  {
    var from := seq(|bytes|, i requires 0 <= i < |bytes| => OfPtr(ptr, nonPoison, i));
    LowestCounts(c, width, 0);
    hide DivideUp, PtrByte, IntegerOf, Bit, Covers, Place;
    IntegerRead(c, bytes, from, width, cast);
    assert NpBitAt(c, from[0], width, 0, 0) <==> nonPoison && width % 8 == 0;
  }

  /** One byte of an integer with another width, or with another byte number, makes the
      read poison. */
  lemma StrayByteIsPoison(c: Config, bytes: seq<TypedByte>, from: seq<Origin>, width: nat, cast: Bits -> Bits, i: nat)
    requires Good(c) && c.subBits > 0 && width > 0 && |bytes| == DivideUp(width, c.bitsByte) && AllHold(c, bytes, from) && Casts(c, cast)
    requires i < |bytes| && from[i].OfInt? && (!WidthsAgree(c, from[i].width, width) || from[i].number % Pow2(c.numBits) != i % Pow2(c.numBits))
    ensures IntegerOf(c, bytes, width, cast).np == Flag(false)
  {
    LowestCounts(c, width, i);
    assert Holds(c, bytes[i], from[i]);
    hide DivideUp, PtrByte, IntByte, IntegerOf, Bit, WidthsAgree, Pow2, Covers, Place;
    IntegerRead(c, bytes, from, width, cast);
    assert !NpBitAt(c, from[i], width, i, 0);
  }

  /** Where the tags are wide enough, widths agree exactly if they are the same or both
      are multiples of eight. */
  lemma WidthsAgreeIff(c: Config, stored: nat, width: nat)
    requires (stored % 8 != 0 ==> stored < Pow2(c.subBits)) && (width % 8 != 0 ==> width < Pow2(c.subBits))
    ensures WidthsAgree(c, stored, width) <==> stored == width || (stored % 8 == 0 && width % 8 == 0)
  {
    SmallModulo(if stored % 8 == 0 then 0 else stored, Pow2(c.subBits));
    SmallModulo(if width % 8 == 0 then 0 else width, Pow2(c.subBits));
    hide Pow2;
  }

  lemma SmallModulo(n: nat, d: nat)
    requires n < d
    ensures n % d == n
  {
  }

  // ----- pointer reads ---------------------------------------------------------

  /** The byte by itself is well-defined; nothing is read from blocks that hold nothing. */
  ghost predicate ByteSound(b: TypedByte, s: Origin) {
    match s
    case OfInt(_, np, _, _) => b.mayInt && forall k: nat :: k < |np| ==> Bit(np, k)
    case OfPtr(_, nonPoison, _) => nonPoison
  }

  ghost predicate AllSound(bytes: seq<TypedByte>, from: seq<Origin>) {
    |from| == |bytes| && forall i: nat :: i < |bytes| ==> ByteSound(bytes[i], from[i])
  }

  lemma SoundStart()
    ensures AllSound([], [])
  {
  }

  lemma SoundStep(bytes: seq<TypedByte>, from: seq<Origin>, n: nat)
    requires n < |bytes| == |from|
    ensures AllSound(bytes[..n + 1], from[..n + 1]) <==> AllSound(bytes[..n], from[..n]) && ByteSound(bytes[n], from[n])
  {
    hide ByteSound;
    var b, f := bytes[..n + 1], from[..n + 1];
    assert b[n] == bytes[n] && f[n] == from[n];
    assert forall i: nat :: i < n ==> b[i] == bytes[..n][i] && f[i] == from[..n][i];
  }

  ghost predicate FromPtrs(from: seq<Origin>) {
    forall i: nat :: i < |from| ==> from[i].OfPtr?
  }

  /** As far as the encoding can tell, this is byte `i`. */
  ghost predicate NumberFits(c: Config, number: nat, i: nat) {
    if c.offBits == 0 then i % 2 == 0 else number % Pow2(c.offBits) == i % Pow2(c.offBits)
  }

  /** Byte `i` belongs to the pointer of the first byte, at its place. */
  ghost predicate InPlace(c: Config, from: seq<Origin>, i: nat)
    requires i < |from|
  {
    from[i].OfPtr? && from[0].OfPtr? ==> from[i].ptr == from[0].ptr && NumberFits(c, from[i].number, i)
  }

  lemma BytePoison(c: Config, b: TypedByte, s: Origin)
    requires Good(c) && Holds(c, b, s)
    ensures TypedIsPoison(c, b) <==> !ByteSound(b, s)
    ensures TypedIsPtr(c, b) <==> s.OfPtr?
  {
    match s
    case OfInt(value, np, width, number) =>
      IntByteFields(c, value, np, width, number);
      AllOnesIff(np);
      OneBit(np);
      hide IntByte, IntNonpoison, IntValue, IsPtr, StoredWidth, ByteNumber, Bin, AllOnes, Bit, TotalBits;
      assert c.ptrs && !b.mayInt ==> !b.mayPtr;
    case OfPtr(ptr, nonPoison, number) =>
      PtrByteFields(c, ptr, nonPoison, number);
      PtrBytePoison(c, b, ptr, nonPoison, number);
      hide PtrByte, PtrNonpoison, IsPtr, PtrValue, PtrByteOffset, TypedIsPoison;
  }

  lemma OneBit(np: Bits)
    ensures |np| == 1 ==> (np == [true] <==> AllOnes(np))
  {
    assert |np| == 1 && np[0] ==> np == [true];
    assert |np| == 1 ==> Repeat(true, 1)[0];
  }

  lemma BytePlace(c: Config, b: TypedByte, s: Origin, i: nat)
    requires Good(c) && Holds(c, b, s) && s.OfPtr?
    ensures PtrValue(c, b.bits) == s.ptr
    ensures PtrByteOffset(c, b.bits) == Bin(i, Max(c.offBits, 1)) <==> NumberFits(c, s.number, i)
  {
    PtrByteFields(c, s.ptr, s.nonPoison, s.number);
    BinEqualIff(s.number, i, c.offBits);
    LastBit(i);
    hide PtrByte, PtrNonpoison, IsPtr, PtrValue, PtrByteOffset, Bin, Pow2;
  }

  lemma LastBit(i: nat)
    ensures Bin(i, 1) == [i % 2 == 1]
  {
    assert Bin(i, 1) == Bin(i / 2, 0) + [i % 2 == 1];
  }

  lemma {:induction false} PointerBytesAre(c: Config, bytes: seq<TypedByte>, from: seq<Origin>, n: nat)
    requires Good(c) && AllHold(c, bytes, from) && n <= |bytes|
    ensures AllPtrs(c, bytes, n) <==> forall i: nat :: i < n ==> from[i].OfPtr?
    ensures NonePoison(c, bytes, n) <==> AllSound(bytes[..n], from[..n])
    ensures FromPtrs(from) ==> (SamePtr(c, bytes, n) <==> forall i: nat :: i < n ==> InPlace(c, from, i))
    decreases n
  {
    hide Holds, TypedIsPtr, TypedIsPoison, ByteSound, AllSound, PtrValue, PtrByteOffset, NumberFits, Bin, Max;
    if n == 0 {
      SoundStart();
    } else {
      PointerBytesAre(c, bytes, from, n - 1);
      BytePoison(c, bytes[n - 1], from[n - 1]);
      SoundStep(bytes, from, n - 1);
      if FromPtrs(from) {
        BytePlace(c, bytes[0], from[0], 0);
        BytePlace(c, bytes[n - 1], from[n - 1], n - 1);
        assert SamePtr(c, bytes, n) <==> SamePtr(c, bytes, n - 1) && InPlace(c, from, n - 1);
      }
    }
  }

  /** What the read of a pointer sees, for any bytes: it gives a pointer if all bytes are
      of pointers, and is then well-defined exactly if all of them are, belong to one
      pointer and are at their places; otherwise the bytes are converted. */
  lemma PointerRead(c: Config, bytes: seq<TypedByte>, from: seq<Origin>, autoCast: Bits)
    requires Good(c) && bytes != [] && AllHold(c, bytes, from)
    ensures var (ptr, nonPoison) := PointerOf(c, bytes, autoCast);
      && ptr == (if FromPtrs(from) then from[0].ptr else autoCast)
      && (nonPoison <==> AllSound(bytes, from) && (FromPtrs(from) ==> forall i: nat :: i < |bytes| ==> InPlace(c, from, i)))
  {
    PointerBytesAre(c, bytes, from, |bytes|);
    assert Holds(c, bytes[0], from[0]);
    if FromPtrs(from) {
      BytePlace(c, bytes[0], from[0], 0);
    }
    assert bytes[..|bytes|] == bytes && from[..|bytes|] == from;
    hide Holds, AllSound, PtrValue, AllPtrs, SamePtr, NonePoison;
  }
}
