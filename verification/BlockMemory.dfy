/** Block memory: alias-split loads and stores against a flat byte memory, and the
    record of stored offsets that lets refinement skip the others (ir/memory.cpp). */
module BlockMemory {
  import opened Terms
  import opened Binary
  import opened Guarded
  import opened MemTerms
  import opened Aliasing
  import opened BlockStore

  datatype Blocks = Blocks(loc: seq<BlockVal>, non: seq<BlockVal>)

  datatype Sizes = Sizes(loc: seq<Off>, non: seq<Off>)

  predicate Has(b: Blocks, id: Id) {
    id.i < if id.local then |b.loc| else |b.non|
  }

  function BlockOf(b: Blocks, id: Id): BlockVal
    requires Has(b, id)
  {
    if id.local then b.loc[id.i] else b.non[id.i]
  }

  function Put(b: Blocks, id: Id, val: BlockVal): Blocks
    requires Has(b, id)
  {
    if id.local then b.(loc := b.loc[id.i := val]) else b.(non := b.non[id.i := val])
  }

  predicate SameShape(b: Blocks, sizes: Sizes) {
    |b.loc| == |sizes.loc| && |b.non| == |sizes.non|
  }

  function SizeOf(b: Blocks, sizes: Sizes, id: Id): Off
    requires SameShape(b, sizes) && Has(b, id)
  {
    if id.local then sizes.loc[id.i] else sizes.non[id.i]
  }

  ghost predicate AllClosed(b: Blocks) {
    (forall i :: 0 <= i < |b.loc| ==> Closed(b.loc[i])) && (forall i :: 0 <= i < |b.non| ==> Closed(b.non[i]))
  }

  /** Block numbers fit their width, and the set speaks about existing blocks only. */
  ghost predicate Suits(s: AliasSet, b: Blocks, width: nat) {
    |s.loc| <= |b.loc| <= Pow2(width) && |s.non| <= |b.non| <= Pow2(width)
  }

  // ----- effects -------------------------------------------------------------

  /** What a write does to the addressed bytes. */
  datatype Effect = Writes(data: seq<Datum>, rest: Rest) | Fills(n: Off, val: Byte, full: bool)

  ghost predicate EffectOn(e: Effect, old0: BlockVal, new0: BlockVal, size: Off, cond: Cond, at: Off, w: World) {
    match e
    case Writes(data, rest) => Stored(old0, new0, size, cond, at, data, rest, w)
    case Fills(n, val, full) => Filled(old0, new0, size, cond, at, n, val, full, w)
  }

  /** The write stays within a block of this size. */
  ghost predicate EffectWithin(e: Effect, at: Off, size: Off, w: World) {
    match e
    case Writes(data, _) => Within(EvalOff(at, w), |data|, size, w)
    case Fills(n, _, full) =>
      Within(EvalOff(at, w), EvalOff(n, w), size, w) && EvalOff(at, w) + EvalOff(n, w) < w.wrap &&
      (full ==> EvalOff(at, w) == 0 && EvalOff(n, w) == EvalOff(size, w))
  }

  /** Offset `o` is one of the addressed ones. */
  ghost predicate Addressed(e: Effect, at: nat, o: nat, w: World) {
    match e
    case Writes(data, _) => at <= o < at + |data|
    case Fills(n, _, _) => at <= o < at + EvalOff(n, w)
  }

  /** The byte at `o` afterwards, if it is addressed. */
  ghost function Written(e: Effect, at: nat, o: nat, w: World): Bits {
    match e
    case Writes(data, _) => DatumAt(data, o - at, w)
    case Fills(_, val, _) => EvalByte(val, w.(bound := o))
  }

  ghost predicate Forgets(e: Effect) {
    e.Writes? && e.rest.Becomes?
  }

  /** A byte that is not addressed keeps its value, unless the write is an initializer. */
  ghost predicate Untouched(e: Effect, old0: BlockVal, new0: BlockVal, w: World, o: nat) {
    RestAt(old0, new0, if e.Writes? then e.rest else Kept, w, o)
  }

  lemma EffectMeans(e: Effect, old0: BlockVal, new0: BlockVal, size: Off, cond: Cond, at: Off, w: World, o: nat)
    requires EffectOn(e, old0, new0, size, cond, at, w) && o < EvalOff(size, w)
    ensures !Holds(cond, w.v) ==> At(new0, w, o) == At(old0, w, o)
    ensures Holds(cond, w.v) && EffectWithin(e, at, size, w) ==>
      if Addressed(e, EvalOff(at, w), o, w) then At(new0, w, o) == Written(e, EvalOff(at, w), o, w)
      else Untouched(e, old0, new0, w, o)
  {
    hide Holds, At, EvalByte, EvalOff, DatumAt, Stored, Filled, Within;
    match e
    case Writes(data, rest) => StoredAt(old0, new0, size, cond, at, data, rest, w, o);
    case Fills(n, val, full) => FilledAt(old0, new0, size, cond, at, n, val, full, w, o);
  }

  lemma StoredAt(old0: BlockVal, new0: BlockVal, size: Off, cond: Cond, at: Off, data: seq<Datum>, rest: Rest, w: World, o: nat)
    requires Stored(old0, new0, size, cond, at, data, rest, w) && o < EvalOff(size, w)
    ensures !Holds(cond, w.v) ==> At(new0, w, o) == At(old0, w, o)
    ensures Holds(cond, w.v) && Within(EvalOff(at, w), |data|, size, w) ==>
      if EvalOff(at, w) <= o < EvalOff(at, w) + |data| then At(new0, w, o) == DatumAt(data, o - EvalOff(at, w), w)
      else RestAt(old0, new0, rest, w, o)
  {
    hide RestAt, Holds, At, EvalByte, EvalOff, DatumAt, Within, StoredHere;
    HereMeans(old0, new0, at, data, rest, w, o);
  }

  lemma FilledAt(old0: BlockVal, new0: BlockVal, size: Off, cond: Cond, at: Off, n: Off, val: Byte, full: bool, w: World, o: nat)
    requires Filled(old0, new0, size, cond, at, n, val, full, w) && o < EvalOff(size, w)
    ensures !Holds(cond, w.v) ==> At(new0, w, o) == At(old0, w, o)
    ensures Holds(cond, w.v) && EffectWithin(Fills(n, val, full), at, size, w) ==>
      At(new0, w, o) == if EvalOff(at, w) <= o < EvalOff(at, w) + EvalOff(n, w) then EvalByte(val, w.(bound := o)) else At(old0, w, o)
  {
    hide Holds, At, EvalByte, EvalOff, Within;
  }

  /** In this world the pointer's block is in the alias set, and the write stays within it. */
  ghost predicate AccessOk(p: Pointer, s: AliasSet, b: Blocks, sizes: Sizes, e: Effect, w: World, width: nat)
    requires SameShape(b, sizes)
  {
    Aliased(p, s, w, width) && forall id :: Has(b, id) && IsBlock(p, w, id, width) ==> EffectWithin(e, p.off, SizeOf(b, sizes, id), w)
  }

  /** The flat memory afterwards: within the pointer's block exactly the addressed bytes
      change, and no other block changes. */
  ghost predicate Wrote(b0: Blocks, b: Blocks, sizes: Sizes, p: Pointer, e: Effect, w: World, width: nat)
    requires SameShape(b0, sizes) && SameShape(b, sizes)
  {
    forall id, o: nat :: Has(b0, id) && o < EvalOff(SizeOf(b0, sizes, id), w) ==> WroteAt(b0, b, p, e, w, width, id, o)
  }

  ghost predicate WroteAt(b0: Blocks, b: Blocks, p: Pointer, e: Effect, w: World, width: nat, id: Id, o: nat)
    requires Has(b0, id) && Has(b, id)
  {
    if !IsBlock(p, w, id, width) then At(BlockOf(b, id), w, o) == At(BlockOf(b0, id), w, o)
    else if Addressed(e, EvalOff(p.off, w), o, w) then At(BlockOf(b, id), w, o) == Written(e, EvalOff(p.off, w), o, w)
    else Untouched(e, BlockOf(b0, id), BlockOf(b, id), w, o)
  }

  /** The first `k` blocks that the access visits have been handled. */
  ghost predicate Visited0(b0: Blocks, b: Blocks, sizes: Sizes, hits: seq<Hit>, k: nat, at: Off, e: Effect)
    requires k <= |hits|
  {
    && SameShape(b0, sizes) && SameShape(b, sizes) && AllClosed(b)
    && (forall j :: 0 <= j < |hits| ==> Has(b0, hits[j].id))
    && (forall j :: 0 <= j < k ==> Handled(b0, b, sizes, hits[j], at, e))
    && (forall id :: Has(b0, id) && (forall j :: 0 <= j < k ==> hits[j].id != id) ==> BlockOf(b, id) == BlockOf(b0, id))
  }

  ghost predicate Handled(b0: Blocks, b: Blocks, sizes: Sizes, h: Hit, at: Off, e: Effect)
    requires SameShape(b0, sizes) && SameShape(b, sizes) && Has(b0, h.id)
  {
    forall w :: EffectOn(e, BlockOf(b0, h.id), BlockOf(b, h.id), SizeOf(b0, sizes, h.id), h.cond, at, w)
  }

  lemma VisitStart(b0: Blocks, sizes: Sizes, s: AliasSet, hits: seq<Hit>, at: Off, e: Effect, width: nat)
    requires SameShape(b0, sizes) && AllClosed(b0) && Suits(s, b0, width) && Enumerates(s, hits)
    ensures Visited0(b0, b0, sizes, hits, 0, at, e)
  {
  }

  lemma VisitBlock(b0: Blocks, b: Blocks, sizes: Sizes, s: AliasSet, hits: seq<Hit>, k: nat, at: Off, e: Effect, new0: BlockVal)
    requires k < |hits| && Visited0(b0, b, sizes, hits, k, at, e) && Enumerates(s, hits) && Closed(new0)
    requires forall w :: EffectOn(e, BlockOf(b0, hits[k].id), new0, SizeOf(b0, sizes, hits[k].id), hits[k].cond, at, w)
    ensures Visited0(b0, Put(b, hits[k].id, new0), sizes, hits, k + 1, at, e)
  {
    hide EffectOn, Closed;
    var id := hits[k].id;
    var b' := Put(b, id, new0);
    assert forall x :: Has(b0, x) ==> BlockOf(b', x) == if x == id then new0 else BlockOf(b, x);
    forall j | 0 <= j < k + 1
      ensures Handled(b0, b', sizes, hits[j], at, e)
    {
      if j < k {
        assert hits[j].id != id && Handled(b0, b, sizes, hits[j], at, e);
      }
    }
  }

  lemma NotYetVisited(b0: Blocks, b: Blocks, sizes: Sizes, s: AliasSet, hits: seq<Hit>, k: nat, at: Off, e: Effect)
    requires k < |hits| && Visited0(b0, b, sizes, hits, k, at, e) && Enumerates(s, hits)
    ensures Has(b, hits[k].id) && BlockOf(b, hits[k].id) == BlockOf(b0, hits[k].id) && Closed(BlockOf(b, hits[k].id))
  {
    hide Handled, Closed;
  }

  /** After all blocks have been visited, the flat memory has changed as it should. */
  lemma AllWritten(b0: Blocks, b: Blocks, sizes: Sizes, p: Pointer, s: AliasSet, hits: seq<Hit>, e: Effect, w: World, width: nat)
    requires Visited0(b0, b, sizes, hits, |hits|, p.off, e) && Exact(p, hits, w, width) && Enumerates(s, hits)
    requires Suits(s, b0, width) && AccessOk(p, s, b0, sizes, e, w, width)
    ensures Wrote(b0, b, sizes, p, e, w, width)
  {
    hide EffectOn, EffectWithin, Addressed, Written, Forgets, Holds, At, EvalOff, IsBlock;
    forall id, o: nat | Has(b0, id) && o < EvalOff(SizeOf(b0, sizes, id), w)
      ensures WroteAt(b0, b, p, e, w, width, id, o)
    {
      if j: nat :| j < |hits| && hits[j].id == id {
        assert Handled(b0, b, sizes, hits[j], p.off, e);
        EffectMeans(e, BlockOf(b0, id), BlockOf(b, id), SizeOf(b0, sizes, id), hits[j].cond, p.off, w, o);
      } else {
        OnlyMembers(p, s, b0, hits, w, width, id);
      }
    }
  }

  /** A block outside the alias set is not the pointer's block. */
  lemma OnlyMembers(p: Pointer, s: AliasSet, b: Blocks, hits: seq<Hit>, w: World, width: nat, id: Id)
    requires Exact(p, hits, w, width) && Enumerates(s, hits) && Suits(s, b, width) && Has(b, id)
    requires forall j: nat :: j < |hits| ==> hits[j].id != id
    ensures !IsBlock(p, w, id, width)
  {
    hide Holds, Eval, Bin;
    var k: nat :| k < |hits| && Holds(hits[k].cond, w.v);
    if Bin(id.i, width) == Bin(hits[k].id.i, width) {
      BinInjective(id.i, hits[k].id.i, width);
    }
  }
}
