/** Reading bytes through a pointer: the guarded loads of `Memory::load`, and what they
    select (ir/memory.cpp). */
module BlockLoad {
  import opened Terms
  import opened Binary
  import opened Guarded
  import opened MemTerms
  import opened Aliasing
  import opened BlockStore
  import opened BlockMemory

  function PickPlain(c: Cond, x: Byte, y: Byte): Byte {
    MkPick(Plain(c), x, y)
  }

  /** `DisjointExpr::operator()` on bytes. */
  function PickByte(d: Disj<Byte>, default0: Byte): Byte {
    Collapsed(d, default0, PickPlain)
  }

  lemma PickByteMeans(d: Disj<Byte>, default0: Byte, w: World, val: Bits)
    requires Exclusive(d, w.v) && Covered(d, w.v) && forall x :: Selects(d, w.v, x) ==> EvalByte(x, w) == val
    ensures EvalByte(PickByte(d, default0), w) == val
  {
    var eval := x => EvalByte(x, w);
    forall c, x, y
      ensures eval(PickPlain(c, x, y)) == if Holds(c, w.v) then eval(x) else eval(y)
    {
      MkPickMeans(Plain(c), x, y, w);
      assert HoldsOff(Plain(c), w) == Holds(c, w.v);
    }
    hide Holds, EvalByte, PickPlain;
    var k: nat :| Chosen(d, w.v, k);
    assert Selects(d, w.v, d[k].0);
    CollapsedMeans(d, default0, PickPlain, eval, w.v, d[k].0);
  }

  /** The load of byte `idx` of an `n`-byte access from one block.  If the access covers
      the whole block, it starts at its first byte. */
  function LoadTerm(b: BlockVal, size: Off, at: Off, n: nat, idx: nat): Byte {
    var off := if size == Num(n) then Num(idx) else Plus(at, Num(idx));
    RawLoad(b, off, if size.Num? then UpTo(size.n - n + idx) else Anything)
  }

  lemma LoadTermMeans(b: BlockVal, size: Off, at: Off, n: nat, idx: nat, w: World)
    requires idx < n && Within(EvalOff(at, w), n, size, w)
    ensures EvalByte(LoadTerm(b, size, at, n, idx), w) == At(b, w, EvalOff(at, w) + idx)
  {
    var off := if size == Num(n) then Num(idx) else Plus(at, Num(idx));
    assert EvalOff(off, w) == EvalOff(at, w) + idx by {
      OffsetPlus(at, idx, w);
    }
    RawLoadMeans(b, off, if size.Num? then UpTo(size.n - n + idx) else Anything, w);
  }

  /** The loads from the first `k` visited blocks, under their guards. */
  function GuardedLoads(b: Blocks, sizes: Sizes, hits: seq<Hit>, k: nat, at: Off, n: nat, idx: nat): Disj<Byte>
    requires SameShape(b, sizes) && k <= |hits| && forall j :: 0 <= j < |hits| ==> Has(b, hits[j].id)
  {
    if k == 0 then []
    else
      var id := hits[k - 1].id;
      AddGuarded(GuardedLoads(b, sizes, hits, k - 1, at, n, idx), LoadTerm(BlockOf(b, id), SizeOf(b, sizes, id), at, n, idx), hits[k - 1].cond)
  }

  /** In this world, the `n`-byte access stays within the pointer's block. */
  ghost predicate ReadWithin(p: Pointer, b: Blocks, sizes: Sizes, n: nat, w: World, width: nat)
    requires SameShape(b, sizes)
  {
    forall id :: Has(b, id) && IsBlock(p, w, id, width) ==> Within(EvalOff(p.off, w), n, SizeOf(b, sizes, id), w)
  }

  ghost predicate GuardHeld(hits: seq<Hit>, k: nat, w: World)
    requires k <= |hits|
  {
    exists j :: 0 <= j < k && Holds(hits[j].cond, w.v)
  }

  /** The guarded loads select the byte of the pointer's block. */
  lemma {:induction false} GuardedLoadsMean(p: Pointer, b: Blocks, sizes: Sizes, hits: seq<Hit>, k: nat, n: nat, idx: nat, w: World, width: nat, id: Id)
    requires SameShape(b, sizes) && k <= |hits| && forall j :: 0 <= j < |hits| ==> Has(b, hits[j].id)
    requires Exact(p, hits, w, width) && ReadWithin(p, b, sizes, n, w, width) && idx < n
    requires Has(b, id) && forall j :: 0 <= j < |hits| && IsBlock(p, w, hits[j].id, width) ==> hits[j].id == id
    ensures var d := GuardedLoads(b, sizes, hits, k, p.off, n, idx);
      && Exclusive(d, w.v) && (Covered(d, w.v) <==> GuardHeld(hits, k, w))
      && forall x :: Selects(d, w.v, x) ==> EvalByte(x, w) == At(BlockOf(b, id), w, EvalOff(p.off, w) + idx)
    decreases k
  {
    hide Holds, EvalByte, At, IsBlock, LoadTerm, AddGuarded, Exclusive, Covered, Selects, EvalOff, Within;
    if k > 0 {
      GuardedLoadsMean(p, b, sizes, hits, k - 1, n, idx, w, width, id);
      var h := hits[k - 1];
      var d := GuardedLoads(b, sizes, hits, k - 1, p.off, n, idx);
      var term := LoadTerm(BlockOf(b, h.id), SizeOf(b, sizes, h.id), p.off, n, idx);
      if Holds(h.cond, w.v) {
        LoadTermMeans(BlockOf(b, h.id), SizeOf(b, sizes, h.id), p.off, n, idx, w);
      }
      AddMeans(d, term, h.cond, w.v);
    } else {
      NothingLoaded(w.v);
    }
  }

  lemma NothingLoaded(v: Valuation)
    ensures Exclusive<Byte>([], v) && !Covered<Byte>([], v) && forall x: Byte :: !Selects([], v, x)
  {
  }

  /** A load through the pointer returns the flat byte. */
  lemma LoadIsFlat(p: Pointer, s: AliasSet, b: Blocks, sizes: Sizes, hits: seq<Hit>, n: nat, idx: nat, default0: Byte, w: World, width: nat, id: Id)
    requires SameShape(b, sizes) && Suits(s, b, width) && Enumerates(s, hits) && (forall j :: 0 <= j < |hits| ==> Has(b, hits[j].id))
    requires Exact(p, hits, w, width) && ReadWithin(p, b, sizes, n, w, width) && idx < n
    requires Has(b, id) && IsBlock(p, w, id, width)
    ensures EvalByte(PickByte(GuardedLoads(b, sizes, hits, |hits|, p.off, n, idx), default0), w) == At(BlockOf(b, id), w, EvalOff(p.off, w) + idx)
  {
    OnlyHit(p, s, b, hits, w, width, id);
    SomeGuardHeld(p, hits, w, width);
    hide *;
    GuardedLoadsMean(p, b, sizes, hits, |hits|, n, idx, w, width, id);
    PickByteMeans(GuardedLoads(b, sizes, hits, |hits|, p.off, n, idx), default0, w, At(BlockOf(b, id), w, EvalOff(p.off, w) + idx));
  }

  lemma OnlyHit(p: Pointer, s: AliasSet, b: Blocks, hits: seq<Hit>, w: World, width: nat, id: Id)
    requires Suits(s, b, width) && (forall j :: 0 <= j < |hits| ==> Has(b, hits[j].id)) && Has(b, id) && IsBlock(p, w, id, width)
    ensures forall j :: 0 <= j < |hits| && IsBlock(p, w, hits[j].id, width) ==> hits[j].id == id
  {
    forall j | 0 <= j < |hits| && IsBlock(p, w, hits[j].id, width)
      ensures hits[j].id == id
    {
      SameBlock(p, b, hits[j].id, id, w, width);
    }
  }

  lemma SomeGuardHeld(p: Pointer, hits: seq<Hit>, w: World, width: nat)
    requires Exact(p, hits, w, width)
    ensures GuardHeld(hits, |hits|, w)
  {
    hide Holds, IsBlock;
  }

  /** A pointer refers to one block only. */
  lemma SameBlock(p: Pointer, b: Blocks, x: Id, y: Id, w: World, width: nat)
    requires Has(b, x) && Has(b, y) && |b.loc| <= Pow2(width) && |b.non| <= Pow2(width)
    requires IsBlock(p, w, x, width) && IsBlock(p, w, y, width)
    ensures x == y
  {
    BinInjective(x.i, y.i, width);
  }

  lemma GuardedLoadsStep(b: Blocks, sizes: Sizes, hits: seq<Hit>, k: nat, at: Off, n: nat, idx: nat)
    requires SameShape(b, sizes) && k < |hits| && forall j :: 0 <= j < |hits| ==> Has(b, hits[j].id)
    ensures GuardedLoads(b, sizes, hits, k + 1, at, n, idx) ==
      AddGuarded(GuardedLoads(b, sizes, hits, k, at, n, idx), LoadTerm(BlockOf(b, hits[k].id), SizeOf(b, sizes, hits[k].id), at, n, idx), hits[k].cond)
  {
  }

  // ----- closed terms --------------------------------------------------------

  ghost predicate ClosedVals(d: Disj<Byte>, closed: bool) {
    forall i :: 0 <= i < |d| ==> ArraysClosed(d[i].0) && (closed ==> ClosedByte(d[i].0))
  }

  lemma {:induction false} GuardedLoadsClosed(b: Blocks, sizes: Sizes, hits: seq<Hit>, k: nat, at: Off, n: nat, idx: nat)
    requires SameShape(b, sizes) && k <= |hits| && AllClosed(b) && forall j :: 0 <= j < |hits| ==> Has(b, hits[j].id)
    ensures ClosedVals(GuardedLoads(b, sizes, hits, k, at, n, idx), ClosedOff(at))
    decreases k
  {
    hide Closed, ClosedVals, LoadTerm, AddGuarded, ClosedOff;
    if k > 0 {
      GuardedLoadsClosed(b, sizes, hits, k - 1, at, n, idx);
      var id := hits[k - 1].id;
      assert Closed(BlockOf(b, id));
      LoadTermClosed(BlockOf(b, id), SizeOf(b, sizes, id), at, n, idx);
      AddClosed(GuardedLoads(b, sizes, hits, k - 1, at, n, idx), LoadTerm(BlockOf(b, id), SizeOf(b, sizes, id), at, n, idx), hits[k - 1].cond, ClosedOff(at));
    } else {
      NothingClosed(ClosedOff(at));
    }
  }

  lemma NothingClosed(closed: bool)
    ensures ClosedVals([], closed)
  {
  }

  lemma AddClosed(d: Disj<Byte>, x: Byte, c: Cond, closed: bool)
    requires ClosedVals(d, closed) && ArraysClosed(x) && (closed ==> ClosedByte(x))
    ensures ClosedVals(AddGuarded(d, x, c), closed)
  {
    hide ArraysClosed, ClosedByte, MkOr;
  }

  lemma LoadTermClosed(b: BlockVal, size: Off, at: Off, n: nat, idx: nat)
    requires Closed(b)
    ensures ArraysClosed(LoadTerm(b, size, at, n, idx)) && (ClosedOff(at) ==> ClosedByte(LoadTerm(b, size, at, n, idx)))
  {
    var off := if size == Num(n) then Num(idx) else Plus(at, Num(idx));
    LoadIsClosed(b, off, if size.Num? then UpTo(size.n - n + idx) else Anything);
    hide ArraysClosed, ClosedByte, RawLoad, Closed;
    assert ClosedOff(Num(idx)) && (ClosedOff(at) ==> ClosedOff(off));
  }

  lemma LoadIsClosed(b: BlockVal, at: Off, maxIdx: MaxIdx)
    requires Closed(b)
    ensures ArraysClosed(RawLoad(b, at, maxIdx)) && (ClosedOff(at) ==> ClosedByte(RawLoad(b, at, maxIdx)))
  {
    RawLoadArrays(b, at, maxIdx);
    if b.Cells? && ClosedOff(at) {
      LoadArrClosed(b.a, at, maxIdx);
    }
  }

  lemma {:induction false} CollapseClosed(d: Disj<Byte>, i: nat, acc: Byte, closed: bool)
    requires i <= |d| && ClosedVals(d, closed) && ArraysClosed(acc) && (closed ==> ClosedByte(acc))
    ensures ArraysClosed(CollapseFrom(d, i, acc, PickPlain)) && (closed ==> ClosedByte(CollapseFrom(d, i, acc, PickPlain)))
    decreases |d| - i
  {
    if i < |d| && d[i].1 != True {
      CollapseClosed(d, i + 1, PickPlain(d[i].1, d[i].0, acc), closed);
    }
  }

  lemma PickByteClosed(d: Disj<Byte>, default0: Byte)
    requires ArraysClosed(default0) && ClosedByte(default0)
    ensures forall closed :: ClosedVals(d, closed) ==> ArraysClosed(PickByte(d, default0)) && (closed ==> ClosedByte(PickByte(d, default0)))
  {
    forall closed | ClosedVals(d, closed)
      ensures ArraysClosed(PickByte(d, default0)) && (closed ==> ClosedByte(PickByte(d, default0)))
    {
      if d != [] {
        CollapseClosed(d, 1, d[0].0, closed);
      }
    }
  }
}
