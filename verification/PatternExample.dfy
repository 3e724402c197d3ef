/** A pattern fill that does not come out as the repeated pattern: the lambda counts from
    the start of the block, not from the pointer (ir/memory.cpp). */
module PatternExample {
  import opened Terms
  import opened Binary
  import opened MemTerms
  import opened Aliasing
  import opened BlockStore
  import opened BlockMemory
  import opened StoredOffsets
  import opened BlockLoad
  import opened MemoryState

  /** Two local blocks of 16 bytes: the destination, and the pattern. */
  const BLOCKS := Blocks([Cells(Init(0)), Cells(Init(1))], [])
  const SIZES := Sizes([Num(16), Num(16)], [])

  /** A pointer to the second byte of the first block, and one to the second block. */
  const DST := Pointer(Lit([true]), Lit([false]), Num(1))
  const PAT := Pointer(Lit([true]), Lit([true]), Num(0))
  const BOTH := AliasSet([true, true], [])

  /** The second block starts with the bytes a, a, b, a. */
  function WorldOf(a: Bits, b: Bits): World {
    World(Valuation(_ => [], _ => true, (_, _, _) => [], (_, _) => []), _ => 0, i => o => if i == 1 && o == 2 then b else a, 64, 0)
  }

  function PatternOf(a: Bits, b: Bits): nat -> Bits {
    i => if i == 2 then b else a
  }

  lemma IdsAre(w: World, id: Id)
    requires Has(BLOCKS, id)
    ensures IsBlock(DST, w, id, 1) <==> id == Id(true, 0)
    ensures IsBlock(PAT, w, id, 1) <==> id == Id(true, 1)
  {
    assert Bin(0, 1) == [false] && Bin(1, 1) == [true];
  }

  lemma BlocksOk()
    ensures SameShape(BLOCKS, SIZES) && AllClosed(BLOCKS) && Suits(BOTH, BLOCKS, 1) && ClosedOff(DST.off) && ClosedOff(PAT.off) && ClosedOff(Num(8))
    ensures forall i :: 0 <= i < 2 ==> ClosedOff(SIZES.loc[i])
    ensures |SIZES.loc| == 2 && |SIZES.non| == 0 && |BLOCKS.non| == 0 && ClosedByte(Raw(Lit([])))
  {
    assert Pow2(1) == 2;
  }

  /** The pattern is read and stored within the blocks. */
  lemma AccessesOk(m: Memory, a: Bits, b: Bits)
    requires m.sizes == SIZES && m.width == 1 && SameShape(BLOCKS, SIZES)
    ensures m.PatternOk(BLOCKS, DST, PAT, Num(8), 4, BOTH, BOTH, WorldOf(a, b))
    ensures IsBlock(DST, WorldOf(a, b), Id(true, 0), 1) && IsBlock(PAT, WorldOf(a, b), Id(true, 1), 1)
    ensures Has(BLOCKS, Id(true, 0)) && Has(BLOCKS, Id(true, 1)) && Memory.RangeWithin(DST.off, Num(8), SizeOf(BLOCKS, SIZES, Id(true, 0)), WorldOf(a, b))
  {
    var w := WorldOf(a, b);
    IdsAre(w, Id(true, 0));
    IdsAre(w, Id(true, 1));
    assert Member(BOTH, Id(true, 0)) && Member(BOTH, Id(true, 1));
    hide IsBlock, WorldOf;
    assert w.wrap == 64 by { WrapIs(a, b); }
    forall id | Has(BLOCKS, id) && (IsBlock(DST, w, id, 1) || IsBlock(PAT, w, id, 1))
      ensures SizeOf(BLOCKS, SIZES, id) == Num(16)
    {
    }
  }

  lemma WrapIs(a: Bits, b: Bits)
    ensures WorldOf(a, b).wrap == 64
  {
  }

  lemma PatternAre(a: Bits, b: Bits, i: nat)
    ensures Has(BLOCKS, Id(true, 1)) && Memory.PatternBytes(BLOCKS, PAT, Id(true, 1), WorldOf(a, b))(i) == PatternOf(a, b)(i)
  {
    var w := WorldOf(a, b);
    assert BlockOf(BLOCKS, Id(true, 1)) == Cells(Init(1)) && EvalOff(PAT.off, w) == 0 && 0 + i == i;
    assert At(Cells(Init(1)), w, i) == w.init(1)(i) == PatternOf(a, b)(i);
    assert Memory.PatternBytes(BLOCKS, PAT, Id(true, 1), w)(i) == At(BlockOf(BLOCKS, Id(true, 1)), w, EvalOff(PAT.off, w) + i);
  }

  /** Eight bytes are to be filled with the pattern from offset 1 on; they hold the bytes
      a, b, a, a instead, over and over. */
  method FillRotated(a: Bits, b: Bits) returns (m: Memory)
    requires a != b
    ensures m.Valid() && Has(m.blocks, Id(true, 0))
    ensures !Memory.HoldsRepeated(BlockOf(m.blocks, Id(true, 0)), PatternOf(a, b), 4, 1, 8, WorldOf(a, b))
  {
    hide *;
    BlocksOk();
    m := new Memory.AfterInit(1, SIZES, [], Raw(Lit([])), BLOCKS);
    assert m.blocks == BLOCKS;
    ghost var st0 := m.stored;
    m.MemsetPattern(DST, PAT, Num(8), 4, true, BOTH, BOTH);
    m.ValidShape();
    AccessesOk(m, a, b);
    IsPatterned(m, st0, WorldOf(a, b));
    PatternStays(m, a, b);
  }

  lemma IsPatterned(m: Memory, st0: seq<StoredSet>, w: World)
    requires m.sizes == SIZES && SameShape(BLOCKS, SIZES) && SameShape(m.blocks, SIZES)
    requires m.PatternDone(BLOCKS, st0, DST, PAT, Num(8), 4, true, BOTH, BOTH) && m.PatternOk(BLOCKS, DST, PAT, Num(8), 4, BOTH, BOTH, w)
    ensures m.Patterned(BLOCKS, m.blocks, DST, PAT, Num(8), 4, true, w)
  {
  }

  lemma PatternStays(m: Memory, a: Bits, b: Bits)
    requires m.sizes == SIZES && m.width == 1 && SameShape(BLOCKS, SIZES) && SameShape(m.blocks, SIZES) && a != b
    requires m.Patterned(BLOCKS, m.blocks, DST, PAT, Num(8), 4, true, WorldOf(a, b))
    ensures Has(m.blocks, Id(true, 0)) && !Memory.HoldsRepeated(BlockOf(m.blocks, Id(true, 0)), PatternOf(a, b), 4, 1, 8, WorldOf(a, b))
  {
    var w, bytes := WorldOf(a, b), Memory.PatternBytes(BLOCKS, PAT, Id(true, 1), WorldOf(a, b));
    AccessesOk(m, a, b);
    hide *;
    OffsetsAre(w);
    m.FilledWithPatternIff(BLOCKS, m.blocks, DST, PAT, Num(8), 4, true, w, Id(true, 0), Id(true, 1));
    forall i: nat
      ensures bytes(i) == PatternOf(a, b)(i)
    {
      PatternAre(a, b, i);
    }
    Rotates(a, b, bytes);
    SameBytes(BlockOf(m.blocks, Id(true, 0)), bytes, PatternOf(a, b), w);
  }

  lemma OffsetsAre(w: World)
    ensures EvalOff(DST.off, w) == 1 && EvalOff(Num(8), w) == 8 && !Unrolled(Num(8))
  {
  }

  /** Rotated by one byte, the pattern is another one. */
  lemma Rotates(a: Bits, b: Bits, bytes: nat -> Bits)
    requires a != b && forall i: nat :: bytes(i) == PatternOf(a, b)(i)
    ensures !RotationInvariant(bytes, false, 4, true, 1, 8)
  {
    assert Remainder(1, 4) == 1 && Remainder(2, 4) == 2;
    assert bytes(1) == a && bytes(2) == b;
    assert !RotatedAt(bytes, false, 4, true, 1, 1);
  }

  lemma SameBytes(b: BlockVal, bytes: nat -> Bits, bytes': nat -> Bits, w: World)
    requires forall i: nat :: bytes(i) == bytes'(i)
    ensures Memory.HoldsRepeated(b, bytes, 4, 1, 8, w) <==> Memory.HoldsRepeated(b, bytes', 4, 1, 8, w)
  {
    hide At, Remainder;
  }
}
