/** Memory bytes as tagged bit-vectors: `Byte`, `valueToBytes` and `bytesToValue`
    (ir/memory.cpp), outside assembly mode. */
module ByteEncoding {
  import opened Terms
  import opened Binary
  import opened Aggregates

  /** The widths that describe the encoding: `bits_byte`, `bits_poison_per_byte`,
      `num_sub_byte_bits`, the width of byte numbers, `Pointer::totalBits`,
      `bits_ptr_byte_offset`, and which accesses occur. */
  datatype Config = Config(bitsByte: nat, poisonPerByte: nat, subBits: nat, numBits: nat, ptrBits: nat, offBits: nat, ints: bool, ptrs: bool)

  ghost predicate Good(c: Config) {
    c.bitsByte > 0 && 0 < c.poisonPerByte <= c.bitsByte && (c.subBits == 0 ==> c.numBits == 0)
  }

  function Max(a: nat, b: nat): nat {
    if a < b then b else a
  }

  /** `byte_has_ptr_bit`, as a number of bits. */
  function PtrBit(c: Config): nat {
    if c.ints && c.ptrs then 1 else 0
  }

  /** `Byte::bitsByte`. */
  function TotalBits(c: Config): nat {
    var ptrLen := if c.ptrs then 1 + c.ptrBits + c.offBits else 0;
    var intLen := (if c.ints then c.bitsByte + c.poisonPerByte else 0) + c.subBits + c.numBits;
    Max(1, PtrBit(c) + Max(ptrLen, intLen))
  }

  function PaddingPtr(c: Config): int {
    TotalBits(c) - PtrBit(c) - 1 - c.ptrBits - c.offBits
  }

  function PaddingInt(c: Config): int {
    TotalBits(c) - PtrBit(c) - c.bitsByte - c.poisonPerByte - c.subBits - c.numBits
  }

  function Zeros(n: int): Bits {
    if n > 0 then Repeat(false, n) else []
  }

  // ----- building bytes ------------------------------------------------------

  /** The tag of a width: whole bytes are all the same. */
  function Tag(width: nat): nat {
    if width % 8 == 0 then 0 else width
  }

  /** A byte of an integer. */
  function IntByte(c: Config, value: Bits, np: Bits, width: nat, number: nat): Bits {
    if !c.ints then Zeros(TotalBits(c))
    else
      (if PtrBit(c) == 1 then [false] else []) + np + value
      + (if c.subBits > 0 then Bin(Tag(width), c.subBits) + Bin(number, c.numBits) else []) + Zeros(PaddingInt(c))
  }

  /** A byte of a pointer. */
  function PtrByte(c: Config, ptr: Bits, nonPoison: bool, i: nat): Bits {
    if !c.ptrs then Zeros(TotalBits(c))
    else (if PtrBit(c) == 1 then [true] else []) + [nonPoison] + ptr + Bin(i, c.offBits) + Zeros(PaddingPtr(c))
  }

  // ----- reading bytes -------------------------------------------------------

  /** `width` bits from bit `start` up. */
  function BitsAt(b: Bits, start: int, width: nat): Bits {
    if width == 0 || start < 0 then [] else Slice(b, start + width - 1, start)
  }

  function IsPtr(c: Config, b: Bits): bool {
    if PtrBit(c) == 0 then c.ptrs else |b| > 0 && b[0]
  }

  function PtrNonpoison(c: Config, b: Bits): bool {
    BitsAt(b, |b| - 1 - PtrBit(c), 1) == [true]
  }

  function PtrValue(c: Config, b: Bits): Bits {
    if c.ptrs then BitsAt(b, c.offBits + PaddingPtr(c), c.ptrBits) else Repeat(false, c.ptrBits)
  }

  function PtrByteOffset(c: Config, b: Bits): Bits {
    if !c.ptrs then Repeat(false, c.offBits) else if c.offBits == 0 then [false] else BitsAt(b, PaddingPtr(c), c.offBits)
  }

  function IntNonpoison(c: Config, b: Bits): Bits {
    if c.ints then BitsAt(b, PaddingInt(c) + c.bitsByte + c.subBits + c.numBits, c.poisonPerByte) else [false]
  }

  function IntValue(c: Config, b: Bits): Bits {
    if c.ints then BitsAt(b, PaddingInt(c) + c.subBits + c.numBits, c.bitsByte) else Repeat(false, c.bitsByte)
  }

  function StoredWidth(c: Config, b: Bits): Bits {
    BitsAt(b, PaddingInt(c) + c.numBits, c.subBits)
  }

  function ByteNumber(c: Config, b: Bits): Bits {
    BitsAt(b, PaddingInt(c), c.numBits)
  }

  /** `Byte::isPoison`. */
  function IsPoison(c: Config, b: Bits): bool {
    if !c.ints then !c.ptrs || !PtrNonpoison(c, b)
    else if PtrBit(c) == 1 && c.poisonPerByte == 1 then IntNonpoison(c, b) != [true]
    else if IsPtr(c, b) then !PtrNonpoison(c, b) else !AllOnes(IntNonpoison(c, b))
  }

  /** A byte with what is known of the types stored in its block. */
  datatype TypedByte = TypedByte(bits: Bits, mayInt: bool, mayPtr: bool)

  function TypedIsPtr(c: Config, b: TypedByte): bool {
    b.mayPtr && IsPtr(c, b.bits)
  }

  /** `TypedByte::forceCastToInt`; `cast` is the conversion of pointer bytes. */
  function ForceCastToInt(c: Config, b: TypedByte, cast: Bits -> Bits): Bits {
    if !b.mayInt && !b.mayPtr then Repeat(false, c.bitsByte)
    else if !b.mayPtr then IntValue(c, b.bits)
    else if !b.mayInt then cast(b.bits)
    else if IsPtr(c, b.bits) then cast(b.bits) else IntValue(c, b.bits)
  }

  function TypedIsPoison(c: Config, b: TypedByte): bool {
    if !b.mayInt && !b.mayPtr then true
    else if !b.mayPtr then !AllOnes(IntNonpoison(c, b.bits))
    else if !b.mayInt then !PtrNonpoison(c, b.bits)
    else IsPoison(c, b.bits)
  }

  // ----- fields of concatenations --------------------------------------------

  lemma BitsOfConcat(a: Bits, m: Bits, z: Bits)
    ensures BitsAt(a + m + z, |z|, |m|) == m
  {
    if |m| > 0 {
      var b := a + m + z;
      assert Slice(b, |z| + |m| - 1, |z|) == b[|a|..|a| + |m|];
    }
  }

  function SixParts(head: Bits, np: Bits, value: Bits, tag: Bits, num: Bits, z: Bits): (b: Bits)
    ensures |b| == |head| + |np| + |value| + |tag| + |num| + |z|
  {
    head + np + value + (tag + num) + z
  }

  lemma SixNp(head: Bits, np: Bits, value: Bits, tag: Bits, num: Bits, z: Bits)
    ensures BitsAt(SixParts(head, np, value, tag, num, z), |z| + |value| + |tag| + |num|, |np|) == np
  {
    var rest := value + (tag + num) + z;
    assert SixParts(head, np, value, tag, num, z) == head + np + rest;
    hide BitsAt, SixParts;
    BitsOfConcat(head, np, rest);
  }

  lemma SixValue(head: Bits, np: Bits, value: Bits, tag: Bits, num: Bits, z: Bits)
    ensures BitsAt(SixParts(head, np, value, tag, num, z), |z| + |tag| + |num|, |value|) == value
  {
    var rest := tag + num + z;
    assert SixParts(head, np, value, tag, num, z) == head + np + value + rest;
    hide BitsAt, SixParts;
    BitsOfConcat(head + np, value, rest);
  }

  lemma SixTag(head: Bits, np: Bits, value: Bits, tag: Bits, num: Bits, z: Bits)
    ensures BitsAt(SixParts(head, np, value, tag, num, z), |z| + |num|, |tag|) == tag
    ensures BitsAt(SixParts(head, np, value, tag, num, z), |z|, |num|) == num
  {
    var front := head + np + value;
    assert SixParts(head, np, value, tag, num, z) == front + tag + (num + z);
    assert SixParts(head, np, value, tag, num, z) == (front + tag) + num + z;
    hide BitsAt, SixParts;
    BitsOfConcat(front, tag, num + z);
    BitsOfConcat(front + tag, num, z);
  }

  lemma IntPaddingFits(c: Config)
    requires c.ints
    ensures PaddingInt(c) >= 0 && TotalBits(c) == PtrBit(c) + c.poisonPerByte + c.bitsByte + c.subBits + c.numBits + PaddingInt(c)
  {
  }

  function TagOf(c: Config, width: nat): Bits {
    if c.subBits > 0 then Bin(Tag(width), c.subBits) else []
  }

  function NumOf(c: Config, number: nat): Bits {
    if c.subBits > 0 then Bin(number, c.numBits) else []
  }

  function IntHead(c: Config): Bits {
    if PtrBit(c) == 1 then [false] else []
  }

  lemma IntByteShape(c: Config, value: Bits, np: Bits, width: nat, number: nat)
    requires Good(c) && c.ints
    ensures IntByte(c, value, np, width, number) == SixParts(IntHead(c), np, value, TagOf(c, width), NumOf(c, number), Zeros(PaddingInt(c)))
    ensures |TagOf(c, width)| == c.subBits && |NumOf(c, number)| == c.numBits && |IntHead(c)| == PtrBit(c)
  {
    hide Bin, Tag, TotalBits, PaddingInt, Zeros;
  }

  lemma IntByteIsInt(c: Config, value: Bits, np: Bits, width: nat, number: nat)
    requires Good(c) && c.ints
    ensures !IsPtr(c, IntByte(c, value, np, width, number))
  {
    hide Bin, Tag, TotalBits, PaddingInt, Zeros;
    IntByteShape(c, value, np, width, number);
  }

  lemma IntByteNp(c: Config, value: Bits, np: Bits, width: nat, number: nat)
    requires Good(c) && c.ints && |value| == c.bitsByte && |np| == c.poisonPerByte
    ensures IntNonpoison(c, IntByte(c, value, np, width, number)) == np
  {
    hide BitsAt, TotalBits, PaddingInt, IntByte, IntHead, SixParts, TagOf, NumOf, Repeat, Bin, Tag, PtrBit, Max;
    IntPaddingFits(c);
    IntByteShape(c, value, np, width, number);
    SixNp(IntHead(c), np, value, TagOf(c, width), NumOf(c, number), Zeros(PaddingInt(c)));
  }

  lemma IntByteValue(c: Config, value: Bits, np: Bits, width: nat, number: nat)
    requires Good(c) && c.ints && |value| == c.bitsByte && |np| == c.poisonPerByte
    ensures IntValue(c, IntByte(c, value, np, width, number)) == value
  {
    hide BitsAt, TotalBits, PaddingInt, IntByte, IntHead, SixParts, TagOf, NumOf, Repeat, Bin, Tag, PtrBit, Max;
    IntPaddingFits(c);
    IntByteShape(c, value, np, width, number);
    SixValue(IntHead(c), np, value, TagOf(c, width), NumOf(c, number), Zeros(PaddingInt(c)));
  }

  lemma IntByteTag(c: Config, value: Bits, np: Bits, width: nat, number: nat)
    requires Good(c) && c.ints && |value| == c.bitsByte && |np| == c.poisonPerByte
    ensures var b := IntByte(c, value, np, width, number);
      |b| == TotalBits(c) && StoredWidth(c, b) == TagOf(c, width) && ByteNumber(c, b) == NumOf(c, number)
  {
    hide BitsAt, TotalBits, PaddingInt, IntByte, IntHead, SixParts, TagOf, NumOf, Repeat, Bin, Tag, PtrBit, Max;
    IntPaddingFits(c);
    IntByteShape(c, value, np, width, number);
    SixTag(IntHead(c), np, value, TagOf(c, width), NumOf(c, number), Zeros(PaddingInt(c)));
  }

  /** What an integer byte holds. */
  lemma IntByteFields(c: Config, value: Bits, np: Bits, width: nat, number: nat)
    requires Good(c) && c.ints && |value| == c.bitsByte && |np| == c.poisonPerByte
    ensures var b := IntByte(c, value, np, width, number);
      && |b| == TotalBits(c) && IntNonpoison(c, b) == np && IntValue(c, b) == value && !IsPtr(c, b)
      && (c.subBits > 0 ==> StoredWidth(c, b) == Bin(Tag(width), c.subBits) && ByteNumber(c, b) == Bin(number, c.numBits))
  {
    IntByteNp(c, value, np, width, number);
    IntByteValue(c, value, np, width, number);
    IntByteTag(c, value, np, width, number);
    IntByteIsInt(c, value, np, width, number);
    assert c.subBits > 0 ==> TagOf(c, width) == Bin(Tag(width), c.subBits) && NumOf(c, number) == Bin(number, c.numBits);
    hide *;
  }

  function FiveParts(head: Bits, np: Bits, ptr: Bits, off: Bits, z: Bits): (b: Bits)
    ensures |b| == |head| + |np| + |ptr| + |off| + |z|
  {
    head + np + ptr + off + z
  }

  lemma FiveNp(head: Bits, np: Bits, ptr: Bits, off: Bits, z: Bits)
    ensures BitsAt(FiveParts(head, np, ptr, off, z), |z| + |off| + |ptr|, |np|) == np
  {
    assert FiveParts(head, np, ptr, off, z) == head + np + (ptr + off + z);
    hide BitsAt, FiveParts;
    BitsOfConcat(head, np, ptr + off + z);
  }

  lemma FivePtr(head: Bits, np: Bits, ptr: Bits, off: Bits, z: Bits)
    ensures BitsAt(FiveParts(head, np, ptr, off, z), |z| + |off|, |ptr|) == ptr
  {
    assert FiveParts(head, np, ptr, off, z) == (head + np) + ptr + (off + z);
    hide BitsAt, FiveParts;
    BitsOfConcat(head + np, ptr, off + z);
  }

  lemma FiveOff(head: Bits, np: Bits, ptr: Bits, off: Bits, z: Bits)
    ensures BitsAt(FiveParts(head, np, ptr, off, z), |z|, |off|) == off
  {
    assert FiveParts(head, np, ptr, off, z) == (head + np + ptr) + off + z;
    hide BitsAt, FiveParts;
    BitsOfConcat(head + np + ptr, off, z);
  }

  function PtrHead(c: Config): Bits {
    if PtrBit(c) == 1 then [true] else []
  }

  lemma PtrPaddingFits(c: Config)
    requires c.ptrs
    ensures PaddingPtr(c) >= 0 && TotalBits(c) == PtrBit(c) + 1 + c.ptrBits + c.offBits + PaddingPtr(c)
  {
  }

  lemma PtrByteShape(c: Config, ptr: Bits, nonPoison: bool, i: nat)
    requires c.ptrs
    ensures PtrByte(c, ptr, nonPoison, i) == FiveParts(PtrHead(c), [nonPoison], ptr, Bin(i, c.offBits), Zeros(PaddingPtr(c)))
    ensures |PtrHead(c)| == PtrBit(c)
  {
    hide Bin, TotalBits, PaddingPtr, Zeros;
  }

  lemma PtrByteIsPtr(c: Config, ptr: Bits, nonPoison: bool, i: nat)
    requires c.ptrs
    ensures IsPtr(c, PtrByte(c, ptr, nonPoison, i))
  {
    hide Bin, TotalBits, PaddingPtr, Zeros;
    PtrByteShape(c, ptr, nonPoison, i);
  }

  lemma PtrByteNp(c: Config, ptr: Bits, nonPoison: bool, i: nat)
    requires c.ptrs && |ptr| == c.ptrBits
    ensures |PtrByte(c, ptr, nonPoison, i)| == TotalBits(c) && PtrNonpoison(c, PtrByte(c, ptr, nonPoison, i)) == nonPoison
  {
    hide BitsAt, TotalBits, PaddingPtr, PtrByte, PtrHead, FiveParts, Repeat, Bin, PtrBit, Max;
    PtrPaddingFits(c);
    PtrByteShape(c, ptr, nonPoison, i);
    FiveNp(PtrHead(c), [nonPoison], ptr, Bin(i, c.offBits), Zeros(PaddingPtr(c)));
    assert [nonPoison][0] == nonPoison;
  }

  lemma PtrByteValue(c: Config, ptr: Bits, nonPoison: bool, i: nat)
    requires c.ptrs && |ptr| == c.ptrBits
    ensures var b := PtrByte(c, ptr, nonPoison, i);
      PtrValue(c, b) == ptr && PtrByteOffset(c, b) == (if c.offBits == 0 then [false] else Bin(i, c.offBits))
  {
    hide BitsAt, TotalBits, PaddingPtr, PtrByte, PtrHead, FiveParts, Repeat, Bin, PtrBit, Max;
    PtrPaddingFits(c);
    PtrByteShape(c, ptr, nonPoison, i);
    FivePtr(PtrHead(c), [nonPoison], ptr, Bin(i, c.offBits), Zeros(PaddingPtr(c)));
    FiveOff(PtrHead(c), [nonPoison], ptr, Bin(i, c.offBits), Zeros(PaddingPtr(c)));
  }

  /** What a pointer byte holds. */
  lemma PtrByteFields(c: Config, ptr: Bits, nonPoison: bool, i: nat)
    requires Good(c) && c.ptrs && |ptr| == c.ptrBits
    ensures var b := PtrByte(c, ptr, nonPoison, i);
      && |b| == TotalBits(c) && PtrNonpoison(c, b) == nonPoison && PtrValue(c, b) == ptr && IsPtr(c, b)
      && PtrByteOffset(c, b) == (if c.offBits == 0 then [false] else Bin(i, c.offBits))
  {
    hide *;
    PtrByteNp(c, ptr, nonPoison, i);
    PtrByteValue(c, ptr, nonPoison, i);
    PtrByteIsPtr(c, ptr, nonPoison, i);
  }

  /** With a pointer bit and one poison bit, both kinds of bytes keep it at the same place. */
  lemma SharedPoisonBit(c: Config, b: Bits)
    requires Good(c) && PtrBit(c) == 1 && c.poisonPerByte == 1 && |b| == TotalBits(c)
    ensures (IntNonpoison(c, b) == [true]) == PtrNonpoison(c, b)
  {
  }

  // ----- integers ------------------------------------------------------------

  function Low(b: Bits, n: nat): Bits {
    if n <= |b| then b[|b| - n..] else b
  }

  /** Unit `i` of a bit-vector, from the low end. */
  function Unit(b: Bits, i: nat, width: nat): Bits {
    BitsAt(b, Times(i, width), width)
  }

  /** `valueToBytes` of an integer whose value and poison bits have been padded. */
  method ValueToBytes(c: Config, value: Bits, np: Bits, width: nat, count: nat) returns (bytes: seq<Bits>)
    ensures |bytes| == count
    ensures forall i: nat :: i < count ==> bytes[i] == IntByte(c, Unit(value, i, c.bitsByte), Unit(np, i, c.poisonPerByte), width, i)
  {
    bytes := [];
    var i: nat := 0;
    hide IntByte, Unit;
    while i < count
      invariant i == |bytes| <= count
      invariant forall j: nat :: j < i ==> bytes[j] == IntByte(c, Unit(value, j, c.bitsByte), Unit(np, j, c.poisonPerByte), width, j)
    {
      bytes := bytes + [IntByte(c, Unit(value, i, c.bitsByte), Unit(np, i, c.poisonPerByte), width, i)];
      i := i + 1;
    }
  }

  /** The poison bits that byte `i` of a read of `width` bits contributes. */
  function NpOfByte(c: Config, b: TypedByte, width: nat, i: nat): Bits {
    var tagged := c.subBits == 0 || (StoredWidth(c, b.bits) == Bin(Tag(width), c.subBits) && ByteNumber(c, b.bits) == Bin(i, c.numBits));
    var np := BitAnd(Repeat(tagged, c.poisonPerByte), IntNonpoison(c, b.bits));
    if c.ptrs && TypedIsPtr(c, b) then Repeat(PtrNonpoison(c, b.bits) && width % 8 == 0, c.poisonPerByte) else np
  }

  /** Value and poison bits of the first `k` bytes, later ones higher. */
  function ReadValue(c: Config, bytes: seq<TypedByte>, k: nat, cast: Bits -> Bits): Bits
    requires k <= |bytes|
  {
    if k == 0 then [] else ForceCastToInt(c, bytes[k - 1], cast) + ReadValue(c, bytes, k - 1, cast)
  }

  function ReadNp(c: Config, bytes: seq<TypedByte>, k: nat, width: nat): Bits
    requires k <= |bytes|
  {
    if k == 0 then [] else NpOfByte(c, bytes[k - 1], width, k - 1) + ReadNp(c, bytes, k - 1, width)
  }

  function LayoutOf(c: Config): Layout {
    Layout(c.bitsByte, c.poisonPerByte, true)
  }

  /** The integer of this width that the bytes hold. */
  function IntegerOf(c: Config, bytes: seq<TypedByte>, width: nat, cast: Bits -> Bits): StateValue {
    StateValue(Low(ReadValue(c, bytes, |bytes|, cast), width),
               Flag(AllOnes(Low(ReadNp(c, bytes, |bytes|, width), NpBits(Scalar(width), true, LayoutOf(c))))))
  }

  /** `bytesToValue` at an integer type. */
  method BytesToValue(c: Config, bytes: seq<TypedByte>, width: nat, cast: Bits -> Bits) returns (v: StateValue)
    ensures v == IntegerOf(c, bytes, width, cast)
  {
    var value: Bits, np: Bits := [], [];
    var i: nat := 0;
    hide ForceCastToInt, NpOfByte;
    while i < |bytes|
      invariant i <= |bytes| && value == ReadValue(c, bytes, i, cast) && np == ReadNp(c, bytes, i, width)
    {
      value, np := ForceCastToInt(c, bytes[i], cast) + value, NpOfByte(c, bytes[i], width, i) + np;
      i := i + 1;
    }
    v := StateValue(Low(value, width), Flag(AllOnes(Low(np, NpBits(Scalar(width), true, LayoutOf(c))))));
  }

  /** The bytes are those of a stored integer, in blocks that are known to hold integers. */
  ghost predicate StoredInt(c: Config, bytes: seq<TypedByte>, value: Bits, np: Bits, width: nat) {
    forall i: nat :: i < |bytes| ==> StoredIntByte(c, bytes[i], value, np, width, i)
  }

  ghost predicate StoredIntByte(c: Config, b: TypedByte, value: Bits, np: Bits, width: nat, i: nat) {
    b.mayInt && b.bits == IntByte(c, Unit(value, i, c.bitsByte), Unit(np, i, c.poisonPerByte), width, i)
  }

  lemma AndOnes(b: Bits)
    ensures BitAnd(Repeat(true, |b|), b) == b
  {
  }

  lemma AndZeros(b: Bits)
    ensures BitAnd(Repeat(false, |b|), b) == Repeat(false, |b|)
  {
  }

  /** Reading one byte at the width at which it was stored. */
  lemma SameWidthByte(c: Config, b: TypedByte, value: Bits, np: Bits, width: nat, i: nat, cast: Bits -> Bits)
    requires Good(c) && c.ints && StoredIntByte(c, b, value, np, width, i)
    requires |Unit(value, i, c.bitsByte)| == c.bitsByte && |Unit(np, i, c.poisonPerByte)| == c.poisonPerByte
    ensures ForceCastToInt(c, b, cast) == Unit(value, i, c.bitsByte) && NpOfByte(c, b, width, i) == Unit(np, i, c.poisonPerByte)
  {
    var x, y := Unit(value, i, c.bitsByte), Unit(np, i, c.poisonPerByte);
    hide Unit;
    IntByteFields(c, x, y, width, i);
    hide IntByte, IntNonpoison, IntValue, IsPtr, StoredWidth, ByteNumber, Bin, Tag;
    AndOnes(y);
  }

  /** The units of a bit-vector, put together again, are its low bits. */
  lemma UnitAtEnd(b: Bits, i: nat, width: nat)
    requires width > 0 && Times(i + 1, width) <= |b|
    ensures Unit(b, i, width) + Low(b, Times(i, width)) == Low(b, Times(i + 1, width)) && |Unit(b, i, width)| == width
  {
    var s := Times(i, width);
    assert Times(i + 1, width) == s + width;
    assert Slice(b, s + width - 1, s) == b[|b| - s - width..|b| - s];
  }

  lemma {:induction false} TimesGrows(i: nat, n: nat, width: nat)
    requires i <= n
    ensures Times(i, width) <= Times(n, width)
    decreases n
  {
    if i < n {
      TimesGrows(i, n - 1, width);
    }
  }

  lemma {:induction false} ReadBack(c: Config, bytes: seq<TypedByte>, value: Bits, np: Bits, width: nat, k: nat, cast: Bits -> Bits)
    requires Good(c) && c.ints && StoredInt(c, bytes, value, np, width) && k <= |bytes|
    requires Times(|bytes|, c.bitsByte) <= |value| && Times(|bytes|, c.poisonPerByte) <= |np|
    ensures ReadValue(c, bytes, k, cast) == Low(value, Times(k, c.bitsByte)) && ReadNp(c, bytes, k, width) == Low(np, Times(k, c.poisonPerByte))
    decreases k
  {
    if k > 0 {
      var i := k - 1;
      ReadBack(c, bytes, value, np, width, i, cast);
      TimesGrows(k, |bytes|, c.bitsByte);
      TimesGrows(k, |bytes|, c.poisonPerByte);
      UnitAtEnd(value, i, c.bitsByte);
      UnitAtEnd(np, i, c.poisonPerByte);
      assert StoredIntByte(c, bytes[i], value, np, width, i);
      hide ForceCastToInt, NpOfByte, Unit, Low, StoredIntByte, StoredInt, Times;
      SameWidthByte(c, bytes[i], value, np, width, i, cast);
    } else {
      assert value[|value|..] == [] && np[|np|..] == [];
    }
  }

  lemma LowOfPadded(pad: Bits, b: Bits, n: nat)
    requires |b| <= n <= |pad| + |b|
    ensures Low(Low(pad + b, n), |b|) == b
  {
  }

  // ----- widths of padded values ---------------------------------------------

  lemma {:induction false} TimesIsProduct(n: nat, p: nat)
    ensures Times(n, p) == n * p
  {
    if n > 0 {
      TimesIsProduct(n - 1, p);
      assert n * p == (n - 1) * p + p;
    }
  }

  lemma {:induction false} DivideUpCovers(n: nat, d: nat)
    requires d > 0
    ensures n <= Times(DivideUp(n, d), d)
    decreases n
  {
    if n > 0 {
      DivideUpCovers(if n > d then n - d else 0, d);
    }
  }

  lemma {:induction false} DivideUpLeast(n: nat, d: nat, k: nat)
    requires d > 0 && n <= Times(k, d)
    ensures DivideUp(n, d) <= k
    decreases k
  {
    if n > 0 {
      DivideUpLeast(if n > d then n - d else 0, d, k - 1);
    }
  }

  lemma {:induction false} AtLeastFactor(k: nat, d: nat)
    requires k > 0
    ensures k * d >= d
  {
    if k > 1 {
      AtLeastFactor(k - 1, d);
      assert k * d == (k - 1) * d + d;
    }
  }

  lemma MulStrict(a: nat, b: nat, d: nat)
    requires a > b && d > 0
    ensures a * d > b * d
  {
    AtLeastFactor(a - b, d);
    assert a * d == b * d + (a - b) * d;
  }

  /** For factors, `a * d <= b * d` gives `a <= b`. */
  lemma CancelFactor(a: nat, b: nat, d: nat)
    requires d > 0 && a * d <= b * d
    ensures a <= b
  {
    if a > b {
      MulStrict(a, b, d);
    }
  }

  lemma ScaleBound(w: nat, n: nat, bb: nat, p: nat, m: nat, d: nat)
    requires 0 < p <= bb && n * bb == w + d && w * p <= m * bb
    ensures n * p <= m + d
  {
    assert n * p * bb == (n * bb) * p == (w + d) * p == w * p + d * p;
    assert d * p <= d * bb;
    assert w * p + d * p <= m * bb + d * bb == (m + d) * bb;
    CancelFactor(n * p, m + d, bb);
  }

  lemma ScaleWithin(w: nat, n: nat, bb: nat, p: nat)
    requires w <= n * bb
    ensures w * p <= (n * p) * bb
  {
    assert w * p <= (n * bb) * p;
    assert (n * bb) * p == (n * p) * bb;
  }

  /** Padding makes the poison bits long enough for all bytes, and the original ones are
      among those that are read back. */
  lemma PaddingSuffices(c: Config, width: nat)
    requires Good(c)
    ensures var n, m := DivideUp(width, c.bitsByte), NpBits(Scalar(width), true, LayoutOf(c));
      && width <= Times(n, c.bitsByte)
      && Times(n, c.poisonPerByte) <= m + (Times(n, c.bitsByte) - width) && m <= Times(n, c.poisonPerByte)
  {
    var bb, p := c.bitsByte, c.poisonPerByte;
    var n, x := DivideUp(width, bb), Times(width, p);
    var m := DivideUp(x, bb);
    DivideUpCovers(width, bb);
    DivideUpCovers(x, bb);
    TimesIsProduct(n, bb);
    TimesIsProduct(n, p);
    TimesIsProduct(width, p);
    TimesIsProduct(m, bb);
    TimesIsProduct(n * p, bb);
    hide Times, DivideUp;
    ScaleBound(width, n, bb, p, m, n * bb - width);
    ScaleWithin(width, n, bb, p);
    DivideUpLeast(x, bb, n * p);
    assert n * p <= n * bb;
  }

  // ----- round trips ---------------------------------------------------------

  /** An integer that is stored and read back at the same width keeps its value and its
      poison, whatever the padding bits are. */
  lemma IntegerRoundTrip(c: Config, value: Bits, nonPoison: bool, padValue: Bits, padNp: Bits, bytes: seq<TypedByte>, cast: Bits -> Bits)
    requires Good(c) && c.ints && |value| > 0 && |bytes| == DivideUp(|value|, c.bitsByte)
    requires |padValue| == |padNp| == Times(|bytes|, c.bitsByte) - |value|
    requires var np := Repeat(nonPoison, NpBits(Scalar(|value|), true, LayoutOf(c)));
      StoredInt(c, bytes, padValue + value, padNp + np, |value|)
    ensures IntegerOf(c, bytes, |value|, cast) == StateValue(value, Flag(nonPoison))
  {
    var width, n := |value|, |bytes|;
    var m := NpBits(Scalar(width), true, LayoutOf(c));
    var np := Repeat(nonPoison, m);
    PaddingSuffices(c, width);
    NpPositive(c, width);
    hide NpBits, DivideUp, Times, ReadValue, ReadNp, StoredInt, Low;
    ReadBack(c, bytes, padValue + value, padNp + np, width, n, cast);
    LowOfPadded(padValue, value, Times(n, c.bitsByte));
    LowOfPadded(padNp, np, Times(n, c.poisonPerByte));
    AllOnesRepeat(nonPoison, m);
  }

  lemma NpPositive(c: Config, width: nat)
    requires Good(c) && width > 0
    ensures NpBits(Scalar(width), true, LayoutOf(c)) > 0
  {
    assert Times(width, c.poisonPerByte) >= c.poisonPerByte;
  }

  /** Reading at a width with another tag than the width stored gives poison: the widths
      differ, and one of them is not a multiple of eight. */
  lemma OtherWidthIsPoison(c: Config, bytes: seq<TypedByte>, value: Bits, np: Bits, stored: nat, number: nat, width: nat)
    requires Good(c) && c.ints && c.subBits > 0 && bytes != []
    requires bytes[0].bits == IntByte(c, value, np, stored, number) && |value| == c.bitsByte && |np| == c.poisonPerByte
    requires width > 0 && Tag(stored) != Tag(width) && Tag(stored) < Pow2(c.subBits) && Tag(width) < Pow2(c.subBits)
    ensures forall cast :: IntegerOf(c, bytes, width, cast).np == Flag(false)
  {
    assert c.poisonPerByte > 0;
    hide ReadValue, ReadNp, Low, NpBits, LayoutOf, NpOfByte, IntByte, Tag, Pow2, AllOnes, Repeat;
    NpPositive(c, width);
    OtherWidthByte(c, bytes[0], value, np, stored, number, width);
    FirstByteClears(c, bytes, width, NpBits(Scalar(width), true, LayoutOf(c)));
  }

  lemma FirstByteClears(c: Config, bytes: seq<TypedByte>, width: nat, n: nat)
    requires bytes != [] && n > 0 && c.poisonPerByte > 0 && NpOfByte(c, bytes[0], width, 0) == Repeat(false, c.poisonPerByte)
    ensures !AllOnes(Low(ReadNp(c, bytes, |bytes|, width), n))
  {
    hide *;
    LastNp(c, bytes, |bytes|, width);
    LastBitClear(ReadNp(c, bytes, |bytes|, width), n);
  }

  lemma LastBitClear(b: Bits, n: nat)
    requires n > 0 && b != [] && !b[|b| - 1]
    ensures !AllOnes(Low(b, n))
  {
    var low := Low(b, n);
    assert low != [] && !low[|low| - 1];
    assert Repeat(true, |low|)[|low| - 1];
  }

  /** A byte with another tag contributes no well-defined bit. */
  lemma OtherWidthByte(c: Config, b: TypedByte, value: Bits, np: Bits, stored: nat, number: nat, width: nat)
    requires Good(c) && c.ints && c.subBits > 0
    requires b.bits == IntByte(c, value, np, stored, number) && |value| == c.bitsByte && |np| == c.poisonPerByte
    requires Tag(stored) != Tag(width) && Tag(stored) < Pow2(c.subBits) && Tag(width) < Pow2(c.subBits)
    ensures NpOfByte(c, b, width, 0) == Repeat(false, c.poisonPerByte)
  {
    IntByteFields(c, value, np, stored, number);
    hide IntByte, Pow2, StoredWidth, ByteNumber, IntNonpoison, IntValue, IsPtr;
    if Bin(Tag(stored), c.subBits) == Bin(Tag(width), c.subBits) {
      BinInjective(Tag(stored), Tag(width), c.subBits);
    }
    hide Bin;
    AndZeros(np);
  }

  /** The lowest poison bit comes from the first byte. */
  lemma {:induction false} LastNp(c: Config, bytes: seq<TypedByte>, k: nat, width: nat)
    requires 0 < k <= |bytes| && NpOfByte(c, bytes[0], width, 0) == Repeat(false, c.poisonPerByte) && c.poisonPerByte > 0
    ensures var r := ReadNp(c, bytes, k, width); r != [] && !r[|r| - 1]
    decreases k
  {
    hide NpOfByte;
    if k > 1 {
      LastNp(c, bytes, k - 1, width);
    } else {
      assert ReadNp(c, bytes, 0, width) == [];
      assert ReadNp(c, bytes, 1, width) == NpOfByte(c, bytes[0], width, 0) + [];
    }
  }

  // ----- pointers ------------------------------------------------------------

  /** The bytes of a pointer. */
  method PointerToBytes(c: Config, ptr: Bits, nonPoison: bool, count: nat) returns (bytes: seq<Bits>)
    ensures |bytes| == count && forall i: nat :: i < count ==> bytes[i] == PtrByte(c, ptr, nonPoison, i)
  {
    bytes := [];
    var i: nat := 0;
    hide PtrByte;
    while i < count
      invariant i == |bytes| <= count && forall j: nat :: j < i ==> bytes[j] == PtrByte(c, ptr, nonPoison, j)
    {
      bytes := bytes + [PtrByte(c, ptr, nonPoison, i)];
      i := i + 1;
    }
  }

  /** Whether the first `k` bytes are all pointer bytes. */
  function AllPtrs(c: Config, bytes: seq<TypedByte>, k: nat): bool
    requires k <= |bytes|
  {
    k == 0 || (AllPtrs(c, bytes, k - 1) && TypedIsPtr(c, bytes[k - 1]))
  }

  /** Whether they are consecutive bytes of the same pointer. */
  function SamePtr(c: Config, bytes: seq<TypedByte>, k: nat): bool
    requires k <= |bytes|
  {
    k == 0 || (SamePtr(c, bytes, k - 1) && PtrByteOffset(c, bytes[k - 1].bits) == Bin(k - 1, Max(c.offBits, 1)) &&
               PtrValue(c, bytes[k - 1].bits) == PtrValue(c, bytes[0].bits))
  }

  function NonePoison(c: Config, bytes: seq<TypedByte>, k: nat): bool
    requires k <= |bytes|
  {
    k == 0 || (NonePoison(c, bytes, k - 1) && !TypedIsPoison(c, bytes[k - 1]))
  }

  /** The pointer that the bytes hold, and whether it is well-defined; `autoCast` is the
      pointer made of integer bytes. */
  function PointerOf(c: Config, bytes: seq<TypedByte>, autoCast: Bits): (Bits, bool)
    requires bytes != []
  {
    (if AllPtrs(c, bytes, |bytes|) then PtrValue(c, bytes[0].bits) else autoCast,
     NonePoison(c, bytes, |bytes|) && (AllPtrs(c, bytes, |bytes|) ==> SamePtr(c, bytes, |bytes|)))
  }

  /** `bytesToValue` at a pointer type. */
  method BytesToPointer(c: Config, bytes: seq<TypedByte>, autoCast: Bits) returns (ptr: Bits, nonPoison: bool)
    requires bytes != []
    ensures (ptr, nonPoison) == PointerOf(c, bytes, autoCast)
  {
    var loadedPtr := PtrValue(c, bytes[0].bits);
    var allArePtr, byteOffsetNp := true, true;
    nonPoison := true;
    var i: nat := 0;
    hide TypedIsPtr, PtrValue, PtrByteOffset, TypedIsPoison, Bin;
    while i < |bytes|
      invariant i <= |bytes| && allArePtr == AllPtrs(c, bytes, i) && byteOffsetNp == SamePtr(c, bytes, i) && nonPoison == NonePoison(c, bytes, i)
    {
      var b := bytes[i];
      allArePtr := allArePtr && TypedIsPtr(c, b);
      byteOffsetNp := byteOffsetNp && PtrByteOffset(c, b.bits) == Bin(i, Max(c.offBits, 1)) && PtrValue(c, b.bits) == loadedPtr;
      nonPoison := nonPoison && !TypedIsPoison(c, b);
      i := i + 1;
    }
    nonPoison := nonPoison && (allArePtr ==> byteOffsetNp);
    ptr := if allArePtr then loadedPtr else autoCast;
  }

  ghost predicate StoredPtr(c: Config, bytes: seq<TypedByte>, ptr: Bits, nonPoison: bool) {
    forall i: nat :: i < |bytes| ==> bytes[i].mayPtr && bytes[i].bits == PtrByte(c, ptr, nonPoison, i)
  }

  /** A pointer that is stored and read back keeps its value and its poison.  A pointer
      in one byte needs no byte offset. */
  lemma PointerRoundTrip(c: Config, ptr: Bits, nonPoison: bool, bytes: seq<TypedByte>)
    requires Good(c) && c.ptrs && |ptr| == c.ptrBits && bytes != [] && (c.offBits == 0 ==> |bytes| == 1)
    requires StoredPtr(c, bytes, ptr, nonPoison)
    ensures forall autoCast :: PointerOf(c, bytes, autoCast) == (ptr, nonPoison)
  {
    PointerBytes(c, ptr, nonPoison, bytes, |bytes|);
    PtrByteFields(c, ptr, nonPoison, 0);
  }

  lemma {:induction false} PointerBytes(c: Config, ptr: Bits, nonPoison: bool, bytes: seq<TypedByte>, k: nat)
    requires Good(c) && c.ptrs && |ptr| == c.ptrBits && (c.offBits == 0 ==> |bytes| == 1) && k <= |bytes|
    requires StoredPtr(c, bytes, ptr, nonPoison)
    ensures AllPtrs(c, bytes, k) && SamePtr(c, bytes, k) && (k > 0 ==> NonePoison(c, bytes, k) == nonPoison)
    decreases k
  {
    if k > 0 {
      var i := k - 1;
      PointerBytes(c, ptr, nonPoison, bytes, i);
      PtrByteFields(c, ptr, nonPoison, 0);
      PtrByteFields(c, ptr, nonPoison, i);
      PtrBytePoison(c, bytes[i], ptr, nonPoison, i);
      assert bytes[0].bits == PtrByte(c, ptr, nonPoison, 0) && bytes[i].bits == PtrByte(c, ptr, nonPoison, i);
      ZeroBit();
      hide PtrByte, PtrValue, PtrByteOffset, PtrNonpoison, IsPtr, TypedIsPoison, Bin;
    }
  }

  lemma ZeroBit()
    ensures Bin(0, 1) == [false]
  {
    assert Bin(0, 1) == Bin(0, 0) + [false];
  }

  lemma PtrBytePoison(c: Config, b: TypedByte, ptr: Bits, nonPoison: bool, i: nat)
    requires Good(c) && c.ptrs && |ptr| == c.ptrBits && b.mayPtr && b.bits == PtrByte(c, ptr, nonPoison, i)
    ensures TypedIsPoison(c, b) == !nonPoison
  {
    PtrByteFields(c, ptr, nonPoison, i);
    if PtrBit(c) == 1 && c.poisonPerByte == 1 {
      SharedPoisonBit(c, b.bits);
    }
    hide PtrByte, PtrNonpoison, IsPtr, IntNonpoison, TotalBits, BitsAt;
  }
}
