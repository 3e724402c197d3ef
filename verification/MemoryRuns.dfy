/** Whole call-free runs of a function's memory after initialization: stores, lambda
    stores, copies and branch merges (ir/memory.cpp), against a flat byte memory. */
module MemoryRuns {
  import opened Terms
  import opened Binary
  import opened MemTerms
  import opened Aliasing
  import opened BlockStore
  import opened BlockMemory
  import opened StoredOffsets
  import opened MemoryState

  /** What source and target share. */
  datatype Setup = Setup(width: nat, sizes: Sizes, noWrite: seq<bool>, poison: Byte, init: Blocks)

  datatype Run =
    | Begin
    | StoreRun(prev: Run, p: Pointer, data: seq<Datum>, s: AliasSet)
    | FillRun(prev: Run, p: Pointer, n: Off, data: seq<Datum>, s: AliasSet, full: bool)
    | CopyRun(prev: Run, p: Pointer, src: Pointer, n: Off, s: AliasSet, ss: AliasSet)
    | IfRun(cond: Cond, then0: Run, else0: Run)

  ghost predicate GoodSetup(c: Setup) {
    && SameShape(c.init, c.sizes) && AllClosed(c.init) && ClosedByte(c.poison) && |c.noWrite| == |c.init.non|
    && (forall i :: 0 <= i < |c.sizes.loc| ==> ClosedOff(c.sizes.loc[i])) && (forall i :: 0 <= i < |c.sizes.non| ==> ClosedOff(c.sizes.non[i]))
  }

  /** Alias sets leave out the blocks that may not be written, and lambdas read arrays
      that do not depend on the offset. */
  ghost predicate GoodRun(c: Setup, r: Run) {
    match r
    case Begin => true
    case StoreRun(prev, p, data, s) =>
      GoodRun(c, prev) && Suits(s, c.init, c.width) && ClosedOff(p.off) && Covers(data) && Writable(c, s)
    case FillRun(prev, p, n, data, s, _) =>
      && GoodRun(c, prev) && Suits(s, c.init, c.width) && ClosedOff(p.off) && ClosedOff(n) && Writable(c, s)
      && data != [] && forall i :: 0 <= i < |data| ==> ArraysClosed(data[i].val)
    case CopyRun(prev, p, src, n, s, ss) =>
      && GoodRun(c, prev) && Suits(s, c.init, c.width) && Suits(ss, c.init, c.width) && Writable(c, s)
      && ClosedOff(p.off) && ClosedOff(src.off) && ClosedOff(n)
    case IfRun(_, a, b) => GoodRun(c, a) && GoodRun(c, b)
  }

  ghost predicate Writable(c: Setup, s: AliasSet) {
    forall i :: 0 <= i < |s.non| && i < |c.noWrite| && s.non[i] ==> !c.noWrite[i]
  }

  ghost function RangeOf(n: Off): Effect {
    Fills(n, Raw(Lit([])), false)
  }

  /** In this world, every access on the branches that are taken is in bounds. */
  ghost predicate RunOk(c: Setup, r: Run, w: World)
    requires GoodSetup(c)
  {
    match r
    case Begin => true
    case StoreRun(prev, p, data, s) => RunOk(c, prev, w) && AccessOk(p, s, c.init, c.sizes, Writes(data, Kept), w, c.width)
    case FillRun(prev, p, n, data, s, full) =>
      RunOk(c, prev, w) && data != [] && AccessOk(p, s, c.init, c.sizes, Fills(n, Repeated(data, 0), full), w, c.width)
    case CopyRun(prev, p, src, n, s, ss) =>
      && RunOk(c, prev, w) && AccessOk(p, s, c.init, c.sizes, RangeOf(n), w, c.width)
      && AccessOk(src, ss, c.init, c.sizes, RangeOf(n), w, c.width)
    case IfRun(cond, a, b) => if Holds(cond, w.v) then RunOk(c, a, w) else RunOk(c, b, w)
  }

  /** The byte of a flat memory after the run. */
  ghost function Flat(c: Setup, r: Run, w: World, id: Id, o: nat): Bits
    requires Has(c.init, id)
  {
    match r
    case Begin => At(BlockOf(c.init, id), w, o)
    case StoreRun(prev, p, data, _) =>
      if Hit(c, p, |data|, w, id, o) then DatumAt(data, o - EvalOff(p.off, w), w) else Flat(c, prev, w, id, o)
    case FillRun(prev, p, n, data, _, _) =>
      if data != [] && Hit(c, p, EvalOff(n, w), w, id, o) then EvalByte(Repeated(data, 0), w.(bound := o)) else Flat(c, prev, w, id, o)
    case CopyRun(prev, p, src, n, _, _) =>
      if Hit(c, p, EvalOff(n, w), w, id, o) && PointsIn(c, src, w)
      then Flat(c, prev, w, BlockAt(c, src, w), EvalOff(src.off, w) + o - EvalOff(p.off, w))
      else Flat(c, prev, w, id, o)
    case IfRun(cond, a, b) => if Holds(cond, w.v) then Flat(c, a, w, id, o) else Flat(c, b, w, id, o)
  }

  /** An access of this size addresses this byte. */
  ghost predicate Hit(c: Setup, p: Pointer, size: nat, w: World, id: Id, o: nat) {
    IsBlock(p, w, id, c.width) && EvalOff(p.off, w) <= o < EvalOff(p.off, w) + size
  }

  ghost predicate PointsIn(c: Setup, p: Pointer, w: World) {
    exists id :: Has(c.init, id) && IsBlock(p, w, id, c.width)
  }

  ghost function BlockAt(c: Setup, p: Pointer, w: World): (id: Id)
    requires PointsIn(c, p, w)
    ensures Has(c.init, id) && IsBlock(p, w, id, c.width)
  {
    var id :| Has(c.init, id) && IsBlock(p, w, id, c.width);
    id
  }

  ghost predicate FlatIs(c: Setup, r: Run, w: World, b: Blocks)
    requires SameShape(c.init, c.sizes) && SameShape(b, c.sizes)
  {
    forall id, o: nat :: Has(c.init, id) && o < EvalOff(SizeOf(c.init, c.sizes, id), w) ==> At(BlockOf(b, id), w, o) == Flat(c, r, w, id, o)
  }

  // ----- one step ------------------------------------------------------------

  lemma StoreFlat(c: Setup, r: Run, w: World, b0: Blocks, b: Blocks)
    requires r.StoreRun? && SameShape(c.init, c.sizes) && SameShape(b0, c.sizes) && SameShape(b, c.sizes) && FlatIs(c, r.prev, w, b0)
    requires Wrote(b0, b, c.sizes, r.p, Writes(r.data, Kept), w, c.width)
    ensures FlatIs(c, r, w, b)
  {
    hide At, EvalOff, IsBlock, DatumAt;
    forall id, o: nat | Has(c.init, id) && o < EvalOff(SizeOf(c.init, c.sizes, id), w)
      ensures At(BlockOf(b, id), w, o) == Flat(c, r, w, id, o)
    {
      assert Has(b0, id) && WroteAt(b0, b, r.p, Writes(r.data, Kept), w, c.width, id, o);
      assert At(BlockOf(b0, id), w, o) == Flat(c, r.prev, w, id, o);
    }
  }

  lemma FillFlat(c: Setup, r: Run, w: World, b0: Blocks, b: Blocks)
    requires r.FillRun? && r.data != [] && SameShape(c.init, c.sizes) && SameShape(b0, c.sizes) && SameShape(b, c.sizes) && FlatIs(c, r.prev, w, b0)
    requires Wrote(b0, b, c.sizes, r.p, Fills(r.n, Repeated(r.data, 0), r.full), w, c.width)
    ensures FlatIs(c, r, w, b)
  {
    hide At, EvalOff, IsBlock, EvalByte, Repeated;
    var e := Fills(r.n, Repeated(r.data, 0), r.full);
    forall id, o: nat | Has(c.init, id) && o < EvalOff(SizeOf(c.init, c.sizes, id), w)
      ensures At(BlockOf(b, id), w, o) == Flat(c, r, w, id, o)
    {
      assert Has(b0, id) && WroteAt(b0, b, r.p, e, w, c.width, id, o);
      assert At(BlockOf(b0, id), w, o) == Flat(c, r.prev, w, id, o);
    }
  }

  lemma CopyFlat(c: Setup, r: Run, w: World, b0: Blocks, m: Memory, b: Blocks)
    requires r.CopyRun? && GoodSetup(c) && GoodRun(c, r) && SameShape(b0, c.sizes) && SameShape(b, c.sizes) && FlatIs(c, r.prev, w, b0)
    requires RunOk(c, r, w) && m.width == c.width && m.sizes == c.sizes && m.Copied(b0, b, r.p, r.src, r.n, w)
    ensures FlatIs(c, r, w, b)
  {
    SourceKnown(c, r, w);
    var from := BlockAt(c, r.src, w);
    hide At, EvalOff, IsBlock, AllClosed, Suits, Covers, ClosedOff, RunOk, GoodRun, BlockAt;
    forall id, o: nat | Has(c.init, id) && o < EvalOff(SizeOf(c.init, c.sizes, id), w)
      ensures At(BlockOf(b, id), w, o) == Flat(c, r, w, id, o)
    {
      assert m.CopiedAt(b0, b, r.p, r.src, r.n, w, id, from, o);
      assert At(BlockOf(b0, id), w, o) == Flat(c, r.prev, w, id, o);
      if Hit(c, r.p, EvalOff(r.n, w), w, id, o) {
        var x: nat := EvalOff(r.src.off, w) + o - EvalOff(r.p.off, w);
        assert At(BlockOf(b0, from), w, x) == Flat(c, r.prev, w, from, x);
      }
    }
  }

  lemma SourceKnown(c: Setup, r: Run, w: World)
    requires r.CopyRun? && GoodSetup(c) && GoodRun(c, r) && RunOk(c, r, w)
    ensures PointsIn(c, r.src, w)
    ensures var from := BlockAt(c, r.src, w);
      EvalOff(r.src.off, w) + EvalOff(r.n, w) <= EvalOff(SizeOf(c.init, c.sizes, from), w)
  {
    var id :| Member(r.ss, id) && IsBlock(r.src, w, id, c.width);
    assert Has(c.init, id);
    assert PointsIn(c, r.src, w);
    var from := BlockAt(c, r.src, w);
    hide EvalOff, IsBlock;
    assert EffectWithin(RangeOf(r.n), r.src.off, SizeOf(c.init, c.sizes, from), w);
  }

  lemma MergeFlat(c: Setup, r: Run, w: World, a: Blocks, b: Blocks, m: Blocks)
    requires r.IfRun? && SameShape(c.init, c.sizes) && SameShape(a, c.sizes) && SameShape(b, c.sizes) && SameShape(m, c.sizes)
    requires if Holds(r.cond, w.v) then FlatIs(c, r.then0, w, a) else FlatIs(c, r.else0, w, b)
    requires forall id, o: nat :: Has(m, id) ==> Memory.MergedAt(r.cond, a, b, m, id, w, o)
    ensures FlatIs(c, r, w, m)
  {
    hide At, EvalOff, Holds;
    forall id, o: nat | Has(c.init, id) && o < EvalOff(SizeOf(c.init, c.sizes, id), w)
      ensures At(BlockOf(m, id), w, o) == Flat(c, r, w, id, o)
    {
      assert Memory.MergedAt(r.cond, a, b, m, id, w, o);
    }
  }

  /** Whether an access is in order depends on the sizes of the blocks only. */
  lemma SameAccess(c: Setup, b: Blocks, p: Pointer, s: AliasSet, e: Effect, w: World)
    requires SameShape(c.init, c.sizes) && SameShape(b, c.sizes) && AccessOk(p, s, c.init, c.sizes, e, w, c.width)
    ensures AccessOk(p, s, b, c.sizes, e, w, c.width)
  {
    hide Aliased, EffectWithin, IsBlock;
    forall id | Has(b, id) && IsBlock(p, w, id, c.width)
      ensures EffectWithin(e, p.off, SizeOf(b, c.sizes, id), w)
    {
      assert Has(c.init, id);
    }
  }

  lemma CopyAccess(c: Setup, m: Memory, b: Blocks, r: Run, w: World)
    requires GoodSetup(c) && SameShape(b, c.sizes) && m.width == c.width && m.sizes == c.sizes && r.CopyRun? && RunOk(c, r, w)
    ensures m.CopyOk(b, r.p, r.src, r.n, r.s, r.ss, w)
  {
    SameAccess(c, b, r.p, r.s, RangeOf(r.n), w);
    SameAccess(c, b, r.src, r.ss, RangeOf(r.n), w);
    hide Aliased, IsBlock, EvalOff, AllClosed;
  }

  // ----- what is recorded ------------------------------------------------------

  /** Of all writes, only stores may reach this non-local block. */
  ghost predicate OnlyStored(r: Run, i: nat) {
    match r
    case Begin => true
    case StoreRun(prev, _, _, _) => OnlyStored(prev, i)
    case FillRun(prev, _, _, _, s, _) => OnlyStored(prev, i) && !Member(s, Id(false, i))
    case CopyRun(prev, _, _, _, s, _) => OnlyStored(prev, i) && !Member(s, Id(false, i))
    case IfRun(_, a, b) => OnlyStored(a, i) && OnlyStored(b, i)
  }

  /** The offsets of the stores that may reach this non-local block, on all branches. */
  ghost function OffsetsStored(r: Run, i: nat): set<Off> {
    match r
    case Begin => {}
    case StoreRun(prev, p, data, s) =>
      OffsetsStored(prev, i) + if Member(s, Id(false, i)) then (set m: nat | m < |data| :: Plus(p.off, Num(data[m].idx))) else {}
    case FillRun(prev, _, _, _, _, _) => OffsetsStored(prev, i)
    case CopyRun(prev, _, _, _, _, _) => OffsetsStored(prev, i)
    case IfRun(_, a, b) => OffsetsStored(a, i) + OffsetsStored(b, i)
  }

  /** The record of a block that is only stored to is exact. */
  ghost predicate RecordIs(r: Run, st: seq<StoredSet>) {
    forall i: nat :: i < |st| && OnlyStored(r, i) ==> RecordOf(st[i], OffsetsStored(r, i))
  }

  lemma RecordStore(r: Run, st0: seq<StoredSet>, st: seq<StoredSet>)
    requires r.StoreRun? && RecordIs(r.prev, st0) && RecordsExactly(r.s, st0, st, r.p.off, Writes(r.data, Kept))
    ensures RecordIs(r, st)
  {
    hide RecordOf, Member, RecordedAll;
    forall i: nat | i < |st| && OnlyStored(r, i)
      ensures RecordOf(st[i], OffsetsStored(r, i))
    {
      var x := OffsetsStored(r.prev, i);
      RecordedExactly(st0[i], x, OffsetsOf(r.p.off, r.data));
      assert SetOf(OffsetsOf(r.p.off, r.data)) == set m: nat | m < |r.data| :: Plus(r.p.off, Num(r.data[m].idx)) by {
        SetOfOffsets(r.p.off, r.data);
      }
      assert x + {} == x;
    }
  }

  lemma SetOfOffsets(at: Off, data: seq<Datum>)
    ensures SetOf(OffsetsOf(at, data)) == set m: nat | m < |data| :: Plus(at, Num(data[m].idx))
  {
    var offs := OffsetsOf(at, data);
    forall m: nat | m < |data|
      ensures Plus(at, Num(data[m].idx)) in offs
    {
      assert offs[m] == Plus(at, Num(data[m].idx));
    }
  }

  lemma RecordOthers(r: Run, st0: seq<StoredSet>, st: seq<StoredSet>)
    requires (r.FillRun? || r.CopyRun?) && RecordIs(r.prev, st0) && |st| == |st0|
    requires forall i: nat :: i < |st| && !Member(r.s, Id(false, i)) ==> st[i] == st0[i]
    ensures RecordIs(r, st)
  {
    hide RecordOf, Member;
  }

  lemma RecordMerge(r: Run, a: seq<StoredSet>, b: seq<StoredSet>, st: seq<StoredSet>)
    requires r.IfRun? && RecordIs(r.then0, a) && RecordIs(r.else0, b) && |a| == |b| == |st|
    requires forall i: nat :: i < |st| ==> st[i] == MergedSet(a[i], b[i])
    ensures RecordIs(r, st)
  {
    hide RecordOf, MergedSet;
    forall i: nat | i < |st| && OnlyStored(r, i)
      ensures RecordOf(st[i], OffsetsStored(r, i))
    {
      MergedExactly(a[i], b[i], OffsetsStored(r.then0, i), OffsetsStored(r.else0, i));
    }
  }

  lemma RecordStart(st: seq<StoredSet>)
    requires forall i: nat :: i < |st| ==> st[i] == StoredSet({}, false)
    ensures RecordIs(Begin, st)
  {
  }

  // ----- whole runs ----------------------------------------------------------

  ghost predicate Belongs(m: Memory, c: Setup) {
    m.width == c.width && m.sizes == c.sizes && m.noWrite == c.noWrite && m.initial == c.init.non
  }

  /** The memory after a run: its blocks are the flat memory of every world in which the
      run is in order, all that differs from the start is tracked, and the record of a
      block that is only stored to is exact. */
  ghost predicate After(c: Setup, r: Run, m: Memory)
    reads m
  {
    && GoodSetup(c) && m.Valid() && Belongs(m, c) && m.FrozenHere() && RecordIs(r, m.stored)
    && forall w :: RunOk(c, r, w) ==> FlatIs(c, r, w, m.blocks) && m.TracksHere(w)
  }

  method Execute(c: Setup, r: Run) returns (m: Memory)
    requires GoodSetup(c) && GoodRun(c, r)
    ensures fresh(m) && After(c, r, m)
    decreases r
  {
    match r
    case Begin =>
      m := ExecuteBegin(c);
    case StoreRun(prev, p, data, s) =>
      m := Execute(c, prev);
      ExecuteStore(c, r, m);
    case FillRun(prev, p, n, data, s, full) =>
      m := Execute(c, prev);
      ExecuteFill(c, r, m);
    case CopyRun(prev, p, src, n, s, ss) =>
      m := Execute(c, prev);
      ExecuteCopy(c, r, m);
    case IfRun(cond, a, b) =>
      m := Execute(c, a);
      var els := Execute(c, b);
      ExecuteMerge(c, r, m, els);
  }

  method ExecuteBegin(c: Setup) returns (m: Memory)
    requires GoodSetup(c)
    ensures fresh(m) && After(c, Begin, m)
  {
    m := new Memory.AfterInit(c.width, c.sizes, c.noWrite, c.poison, c.init);
    RecordStart(m.stored);
  }

  method ExecuteStore(c: Setup, r: Run, m: Memory)
    requires r.StoreRun? && GoodRun(c, r) && After(c, r.prev, m)
    modifies m
    ensures After(c, r, m)
  {
    ghost var b0, st0 := m.blocks, m.stored;
    assert m.WritableOnly(r.s);
    m.Store(r.p, r.data, r.s, false);
    RecordStore(r, st0, m.stored);
    forall w | RunOk(c, r, w)
      ensures FlatIs(c, r, w, m.blocks) && m.TracksHere(w)
    {
      hide AccessOk, Wrote, FlatIs, Tracks, TracksMore, AllClosed, Closed, ClosedOff, Frozen;
      SameAccess(c, b0, r.p, r.s, Writes(r.data, Kept), w);
      StoreFlat(c, r, w, b0, m.blocks);
    }
  }

  method ExecuteFill(c: Setup, r: Run, m: Memory)
    requires r.FillRun? && GoodRun(c, r) && After(c, r.prev, m)
    modifies m
    ensures After(c, r, m)
  {
    ghost var b0, st0 := m.blocks, m.stored;
    assert m.WritableOnly(r.s);
    m.StoreLambda(r.p, r.n, r.data, r.s, r.full);
    m.KeepsOthers(r.s, st0, r.p.off, Fills(r.n, Repeated(r.data, 0), r.full));
    RecordOthers(r, st0, m.stored);
    forall w | RunOk(c, r, w)
      ensures FlatIs(c, r, w, m.blocks) && m.TracksHere(w)
    {
      hide AccessOk, Wrote, FlatIs, Tracks, TracksMore, AllClosed, Closed, ClosedOff, Frozen, Repeated;
      SameAccess(c, b0, r.p, r.s, Fills(r.n, Repeated(r.data, 0), r.full), w);
      FillFlat(c, r, w, b0, m.blocks);
    }
  }

  method ExecuteCopy(c: Setup, r: Run, m: Memory)
    requires r.CopyRun? && GoodRun(c, r) && After(c, r.prev, m)
    modifies m
    ensures After(c, r, m)
  {
    ghost var b0, st0 := m.blocks, m.stored;
    assert m.WritableOnly(r.s);
    m.Memcpy(r.p, r.src, r.n, r.s, r.ss);
    RecordOthers(r, st0, m.stored);
    forall w | RunOk(c, r, w)
      ensures FlatIs(c, r, w, m.blocks) && m.TracksHere(w)
    {
      hide AccessOk, FlatIs, Tracks, AllClosed, Closed, ClosedOff, Frozen;
      CopyAccess(c, m, b0, r, w);
      CopyFlat(c, r, w, b0, m, m.blocks);
    }
  }

  method ExecuteMerge(c: Setup, r: Run, m: Memory, els: Memory)
    requires r.IfRun? && After(c, r.then0, m) && After(c, r.else0, els) && m != els
    modifies m
    ensures After(c, r, m)
  {
    ghost var b0, st0 := m.blocks, m.stored;
    m.MergeWith(r.cond, els);
    RecordMerge(r, st0, els.stored, m.stored);
    forall w | RunOk(c, r, w)
      ensures FlatIs(c, r, w, m.blocks) && m.TracksHere(w)
    {
      hide FlatIs, Tracks, AllClosed, Closed, ClosedOff, Frozen, Holds;
      MergeFlat(c, r, w, b0, els.blocks, m.blocks);
    }
  }

  // ----- refinement ----------------------------------------------------------

  /** Source and target byte at this offset are related. */
  ghost predicate RelatedAt(refined: (Bits, Bits) -> bool, c: Setup, src: Run, tgt: Run, w: World, i: nat, o: nat)
    requires i < |c.init.non|
  {
    refined(Flat(c, src, w, Id(false, i), o), Flat(c, tgt, w, Id(false, i), o))
  }

  /** The plan for a block that both runs only store to, in all. */
  ghost predicate PlanIs(pl: Plan, size: Off, offs: set<Off>) {
    pl == if offs == {} then Plan({}, false)
          else if (size.Num? && size.n <= 8) || |offs| > MAX_STORED_PTRS_SET then Plan({}, true)
          else Plan(offs, false)
  }

  /** Over all runs of source and target, a reflexive relation that holds at the planned
      offsets of a block holds at all offsets in bounds.  Where the runs only store, the
      plan asks for no more than the offsets stored to, while there are three at most. */
  method PlanRefinement(c: Setup, src: Run, tgt: Run, ghost refined: (Bits, Bits) -> bool) returns (plans: seq<Plan>)
    requires GoodSetup(c) && GoodRun(c, src) && GoodRun(c, tgt) && forall x :: refined(x, x)
    ensures |plans| == |c.init.non|
    ensures forall w, i: nat, o: nat :: RunOk(c, src, w) && RunOk(c, tgt, w) && i < |plans| && o < EvalOff(c.sizes.non[i], w) ==>
      (Checked(plans[i], o, w) ==> RelatedAt(refined, c, src, tgt, w, i, o)) ==> RelatedAt(refined, c, src, tgt, w, i, o)
    ensures forall i: nat :: i < |plans| && OnlyStored(src, i) && OnlyStored(tgt, i) ==>
      PlanIs(plans[i], c.sizes.non[i], OffsetsStored(src, i) + OffsetsStored(tgt, i))
  {
    var ms := Execute(c, src);
    var mt := Execute(c, tgt);
    var ss, ts := ms.stored, mt.stored;
    plans := seq(|c.init.non|, i requires 0 <= i < |c.init.non| => PlanFor(ss[i], ts[i], c.sizes.non[i]));
    forall i: nat | i < |plans| && OnlyStored(src, i) && OnlyStored(tgt, i)
      ensures PlanIs(plans[i], c.sizes.non[i], OffsetsStored(src, i) + OffsetsStored(tgt, i))
    {
      PlanOfStores(src, tgt, ss, ts, i, c.sizes.non[i]);
    }
    forall w, i: nat, o: nat | RunOk(c, src, w) && RunOk(c, tgt, w) && i < |plans| && o < EvalOff(c.sizes.non[i], w)
        && (Checked(plans[i], o, w) ==> RelatedAt(refined, c, src, tgt, w, i, o))
      ensures RelatedAt(refined, c, src, tgt, w, i, o)
    {
      FlatAt(c, src, ms, w, i, o);
      FlatAt(c, tgt, mt, w, i, o);
      hide At, EvalOff, RunOk, GoodRun, Tracks, Checked, PlanFor, AllClosed, Flat;
      PlanSuffices(refined, ms.blocks.non, mt.blocks.non, c.init.non, c.sizes.non, ms.stored, mt.stored, i, o, w);
    }
  }

  lemma PlanOfStores(src: Run, tgt: Run, ss: seq<StoredSet>, ts: seq<StoredSet>, i: nat, size: Off)
    requires RecordIs(src, ss) && RecordIs(tgt, ts) && i < |ss| == |ts| && OnlyStored(src, i) && OnlyStored(tgt, i)
    ensures PlanIs(PlanFor(ss[i], ts[i], size), size, OffsetsStored(src, i) + OffsetsStored(tgt, i))
  {
    var x, y := OffsetsStored(src, i), OffsetsStored(tgt, i);
    hide OnlyStored, OffsetsStored;
    PlanExactly(ss[i], ts[i], size, x, y);
    assert x + y == {} <==> x == {} && y == {};
  }

  lemma FlatAt(c: Setup, r: Run, m: Memory, w: World, i: nat, o: nat)
    requires After(c, r, m) && RunOk(c, r, w) && i < |c.init.non| && o < EvalOff(c.sizes.non[i], w)
    ensures i < |m.blocks.non| && At(m.blocks.non[i], w, o) == Flat(c, r, w, Id(false, i), o) && m.TracksHere(w)
  {
    hide At, EvalOff, RunOk, Tracks, Flat, AllClosed;
    assert FlatIs(c, r, w, m.blocks);
    var id := Id(false, i);
    assert Has(c.init, id) && SizeOf(c.init, c.sizes, id) == c.sizes.non[i] && BlockOf(m.blocks, id) == m.blocks.non[i];
  }
}
