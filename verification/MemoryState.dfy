/** The memory of one function: `Memory` with its loads, stores, fills, copies and
    merges (ir/memory.cpp).  One memory byte is eight bits wide in fills and copies. */
module MemoryState {
  import opened Terms
  import opened Binary
  import opened Guarded
  import opened MemTerms
  import opened Aliasing
  import opened BlockStore
  import opened BlockMemory
  import opened StoredOffsets
  import opened BlockLoad

  /** The guarded bytes that a load has collected so far. */
  datatype Partial = Partial(bytes: seq<Disj<Byte>>)

  // ----- recording -----------------------------------------------------------

  ghost predicate SetGrows(s0: StoredSet, s: StoredSet) {
    forall o: nat, w :: TrackedIn(s0, o, w) ==> TrackedIn(s, o, w)
  }

  /** The offsets of the first `n` data are tracked. */
  ghost predicate RecordedData(s: StoredSet, at: Off, data: seq<Datum>, n: nat)
    requires n <= |data|
  {
    forall m: nat, w :: m < n ==> TrackedIn(s, EvalOff(Plus(at, Num(data[m].idx)), w), w)
  }

  /** Every non-local block among the first `k` visited ones has its offsets recorded. */
  ghost predicate AllRecorded(st0: seq<StoredSet>, st: seq<StoredSet>, hits: seq<Hit>, k: nat, at: Off, e: Effect)
    requires k <= |hits|
  {
    && |st| == |st0| && (forall i :: 0 <= i < |st| ==> SetGrows(st0[i], st[i]))
    && (forall j :: 0 <= j < k && !hits[j].id.local ==> hits[j].id.i < |st| && RecordedFor(st[hits[j].id.i], at, e))
  }

  ghost predicate RecordedFor(s: StoredSet, at: Off, e: Effect) {
    match e
    case Writes(data, _) => RecordedData(s, at, data, |data|)
    case Fills(_, _, _) => s.all
  }

  function OffsetsOf(at: Off, data: seq<Datum>): seq<Off> {
    seq(|data|, m requires 0 <= m < |data| => Plus(at, Num(data[m].idx)))
  }

  /** What a write makes of the record of a block that it may change. */
  function AfterRecord(s: StoredSet, at: Off, e: Effect): StoredSet {
    match e
    case Writes(data, _) => RecordedAll(s, OffsetsOf(at, data))
    case Fills(_, _, _) => StoredSet({}, true)
  }

  /** The non-local blocks of the set have the write recorded, and no others. */
  ghost predicate RecordsExactly(s: AliasSet, st0: seq<StoredSet>, st: seq<StoredSet>, at: Off, e: Effect) {
    |st| == |st0| && forall i: nat :: i < |st| ==> st[i] == if Member(s, Id(false, i)) then AfterRecord(st0[i], at, e) else st0[i]
  }

  /** The same, for the first `k` blocks of an access. */
  ghost predicate RecordsHits(hits: seq<Hit>, k: nat, st0: seq<StoredSet>, st: seq<StoredSet>, at: Off, e: Effect)
    requires k <= |hits|
  {
    |st| == |st0| && forall i: nat :: i < |st| ==> st[i] == if HitIn(hits, k, Id(false, i)) then AfterRecord(st0[i], at, e) else st0[i]
  }

  ghost predicate HitIn(hits: seq<Hit>, k: nat, id: Id)
    requires k <= |hits|
  {
    exists j :: 0 <= j < k && hits[j].id == id
  }

  lemma NoHitYet(hits: seq<Hit>, st0: seq<StoredSet>, at: Off, e: Effect)
    ensures RecordsHits(hits, 0, st0, st0, at, e)
  {
  }

  lemma NextHit(s: AliasSet, hits: seq<Hit>, k: nat, st0: seq<StoredSet>, st: seq<StoredSet>, st': seq<StoredSet>, at: Off, e: Effect)
    requires k < |hits| && RecordsHits(hits, k, st0, st, at, e) && Enumerates(s, hits) && |st'| == |st|
    requires forall x: nat :: x < |st| && (hits[k].id.local || x != hits[k].id.i) ==> st'[x] == st[x]
    requires !hits[k].id.local ==> var i := hits[k].id.i; i < |st| && st'[i] == AfterRecord(st[i], at, e)
    ensures RecordsHits(hits, k + 1, st0, st', at, e)
  {
    hide AfterRecord, Member;
    var h := hits[k].id;
    assert !HitIn(hits, k, h);
    forall i: nat | i < |st|
      ensures HitIn(hits, k + 1, Id(false, i)) <==> HitIn(hits, k, Id(false, i)) || h == Id(false, i)
    {
      if HitIn(hits, k + 1, Id(false, i)) {
        var j :| 0 <= j < k + 1 && hits[j].id == Id(false, i);
      }
      if HitIn(hits, k, Id(false, i)) {
        var j :| 0 <= j < k && hits[j].id == Id(false, i);
        assert 0 <= j < k + 1;
      }
    }
    hide HitIn;
  }

  lemma HitsAreMembers(s: AliasSet, hits: seq<Hit>, st0: seq<StoredSet>, st: seq<StoredSet>, at: Off, e: Effect)
    requires RecordsHits(hits, |hits|, st0, st, at, e) && Enumerates(s, hits)
    ensures RecordsExactly(s, st0, st, at, e)
  {
    hide AfterRecord, Member;
  }

  lemma DataStart(s: StoredSet, at: Off, data: seq<Datum>)
    ensures s == RecordedAll(s, OffsetsOf(at, data[..0]))
  {
  }

  lemma DataNext(s: StoredSet, at: Off, data: seq<Datum>, m: nat)
    requires m < |data|
    ensures Recorded(RecordedAll(s, OffsetsOf(at, data[..m])), Plus(at, Num(data[m].idx))) == RecordedAll(s, OffsetsOf(at, data[..m + 1]))
  {
    var offs := OffsetsOf(at, data[..m + 1]);
    assert offs[..m] == OffsetsOf(at, data[..m]) && offs[m] == Plus(at, Num(data[m].idx));
    hide Recorded, OffsetsOf;
  }

  /** The addressed offsets of the pointer's block are tracked. */
  lemma RecordingTracks(st0: seq<StoredSet>, st: seq<StoredSet>, b: Blocks, sizes: Sizes, p: Pointer, s: AliasSet, hits: seq<Hit>, e: Effect, w: World, width: nat)
    requires AllRecorded(st0, st, hits, |hits|, p.off, e) && Exact(p, hits, w, width) && Enumerates(s, hits) && Suits(s, b, width)
    requires SameShape(b, sizes) && |st| == |b.non| && AccessOk(p, s, b, sizes, e, w, width) && (e.Writes? ==> Covers(e.data))
    ensures TracksMore(st0, st, p, e, w, width)
  {
    forall i: nat, o: nat | i < |st|
      ensures TracksMoreAt(st0, st, p, e, w, width, i, o)
    {
      hide EvalOff, IsBlock, Holds, TrackedIn, Exact, Enumerates, Aliased;
      assert SetGrows(st0[i], st[i]);
      var id := Id(false, i);
      if IsBlock(p, w, id, width) && Addressed(e, EvalOff(p.off, w), o, w) {
        var j := HitOf(p, s, b, hits, w, width, id);
        RecordedOffset(st[i], p.off, e, SizeOf(b, sizes, id), o, w);
      }
    }
  }

  lemma HitOf(p: Pointer, s: AliasSet, b: Blocks, hits: seq<Hit>, w: World, width: nat, id: Id) returns (j: nat)
    requires Exact(p, hits, w, width) && Enumerates(s, hits) && Suits(s, b, width) && Has(b, id) && IsBlock(p, w, id, width)
    ensures j < |hits| && hits[j].id == id
  {
    if forall k: nat :: k < |hits| ==> hits[k].id != id {
      OnlyMembers(p, s, b, hits, w, width, id);
    }
    j :| j < |hits| && hits[j].id == id;
  }

  lemma RecordedOffset(s: StoredSet, at: Off, e: Effect, size: Off, o: nat, w: World)
    requires RecordedFor(s, at, e) && EffectWithin(e, at, size, w) && Addressed(e, EvalOff(at, w), o, w)
    requires e.Writes? ==> Covers(e.data)
    ensures TrackedIn(s, o, w)
  {
    if e.Writes? {
      var x := o - EvalOff(at, w);
      var m := IndexFor(e.data, |e.data|, x);
      OffsetPlus(at, x, w);
      hide EvalOff, TrackedIn;
      assert TrackedIn(s, EvalOff(Plus(at, Num(e.data[m].idx)), w), w);
    }
  }

  lemma GrowsRefl(s: StoredSet)
    ensures SetGrows(s, s)
  {
  }

  class Memory {
    const width: nat
    const sizes: Sizes
    const noWrite: seq<bool>
    const poison: Byte
    ghost const initial: seq<BlockVal>
    var blocks: Blocks
    var stored: seq<StoredSet>

    ghost predicate Valid()
      reads this
    {
      && SameShape(blocks, sizes) && AllClosed(blocks) && ClosedByte(poison)
      && (forall i :: 0 <= i < |sizes.loc| ==> ClosedOff(sizes.loc[i])) && (forall i :: 0 <= i < |sizes.non| ==> ClosedOff(sizes.non[i]))
      && |stored| == |initial| == |noWrite| == |blocks.non|
    }

    /** The records of blocks that are not in the set stay as they are. */
    ghost predicate OthersKept(s: AliasSet, st0: seq<StoredSet>)
      reads this
    {
      |stored| == |st0| && forall i: nat :: i < |stored| && !Member(s, Id(false, i)) ==> stored[i] == st0[i]
    }

    /** After initialization, blocks that may not be written are never changed. */
    ghost predicate FrozenHere()
      reads this
    {
      Frozen(blocks.non, initial, noWrite)
    }

    ghost predicate TracksHere(w: World)
      reads this
    {
      Tracks(blocks.non, initial, sizes.non, stored, w)
    }

    /** A set for a write leaves out the blocks that may not be written. */
    ghost predicate WritableOnly(s: AliasSet) {
      forall i :: 0 <= i < |s.non| && i < |noWrite| && s.non[i] ==> !noWrite[i]
    }

    // ----- stores ------------------------------------------------------------

    /** `record_stored_pointer` for each datum. */
    method RecordData(i: nat, at: Off, data: seq<Datum>)
      requires i < |stored|
      modifies `stored
      ensures |stored| == |old(stored)| && forall x :: 0 <= x < |stored| && x != i ==> stored[x] == old(stored)[x]
      ensures SetGrows(old(stored)[i], stored[i]) && RecordedData(stored[i], at, data, |data|) && (old(stored)[i].all ==> stored[i].all)
      ensures stored[i] == RecordedAll(old(stored)[i], OffsetsOf(at, data))
    {
      ghost var st0 := stored;
      var m: nat := 0;
      GrowsRefl(stored[i]);
      DataStart(stored[i], at, data);
      hide TrackedIn, EvalOff, RecordedAll, OffsetsOf;
      while m < |data|
        invariant m <= |data| && |stored| == |st0| && forall x :: 0 <= x < |stored| && x != i ==> stored[x] == st0[x]
        invariant SetGrows(st0[i], stored[i]) && RecordedData(stored[i], at, data, m) && (st0[i].all ==> stored[i].all)
        invariant stored[i] == RecordedAll(st0[i], OffsetsOf(at, data[..m]))
      {
        var off := Plus(at, Num(data[m].idx));
        hide Recorded;
        RecordOne(st0[i], stored[i], at, data, m);
        DataNext(st0[i], at, data, m);
        stored := stored[i := Recorded(stored[i], off)];
        m := m + 1;
      }
      assert data[..|data|] == data;
    }

    static lemma RecordOne(s0: StoredSet, s: StoredSet, at: Off, data: seq<Datum>, m: nat)
      requires m < |data| && SetGrows(s0, s) && RecordedData(s, at, data, m)
      ensures var s' := Recorded(s, Plus(at, Num(data[m].idx)));
        SetGrows(s0, s') && RecordedData(s', at, data, m + 1) && (s.all ==> s'.all)
    {
      var off := Plus(at, Num(data[m].idx));
      var s' := Recorded(s, off);
      assert s.all ==> s'.all;
      hide TrackedIn, EvalOff, Recorded;
      forall o: nat, w
        ensures TrackedIn(s, o, w) || EvalOff(off, w) == o ==> TrackedIn(s', o, w)
      {
        RecordedTracks(s, off, o, w);
      }
    }

    /** The write to one block of an access. */
    method WriteBlock(h: Hit, at: Off, e: Effect, single: bool) returns (new0: BlockVal)
      requires Valid() && Has(blocks, h.id) && ClosedOff(at)
      requires match e case Writes(data, rest) => Covers(data) && data != [] && rest == RestOf(rest.Becomes?, data, poison) case Fills(n, val, _) => ClosedOff(n) && ArraysClosed(val)
      ensures Closed(new0) && forall w :: EffectOn(e, BlockOf(blocks, h.id), new0, SizeOf(blocks, sizes, h.id), h.cond, at, w)
    {
      var size := SizeOf(blocks, sizes, h.id);
      match e
      case Writes(data, rest) =>
        new0 := StoreInto(BlockOf(blocks, h.id), size, h.cond, at, data, rest.Becomes?, poison);
      case Fills(n, val, full) =>
        new0 := StoreLambdaInto(BlockOf(blocks, h.id), size, h.cond, at, n, val, full, single);
    }

    /** The loop that `access` runs for a write. */
    method WriteAll(p: Pointer, s: AliasSet, e: Effect, single: bool)
      requires Valid() && Suits(s, blocks, width) && ClosedOff(p.off)
      requires match e case Writes(data, rest) => Covers(data) && data != [] && rest == RestOf(rest.Becomes?, data, poison) case Fills(n, val, _) => ClosedOff(n) && ArraysClosed(val)
      modifies this
      ensures Valid() && Changed(old(blocks), blocks, old(stored), stored, p, s, e) && RecordsExactly(s, old(stored), stored, p.off, e)
    {
      var hits := Access(p, s, width);
      ghost var b0, st0 := blocks, stored;
      VisitStart(b0, sizes, s, hits, p.off, e, width);
      RecordStart(st0, hits, p.off, e);
      NoHitYet(hits, st0, p.off, e);
      hide RecordsHits, AfterRecord, Visited0, AllRecorded, EffectOn, Exact, Enumerates, Guarding, Aliased, Closed, AllClosed, Covers;
      var k: nat := 0;
      while k < |hits|
        invariant k <= |hits| && Valid() && Visited0(b0, blocks, sizes, hits, k, p.off, e) && AllRecorded(st0, stored, hits, k, p.off, e)
        invariant SameShape(b0, sizes) && Suits(s, b0, width) && RecordsHits(hits, k, st0, stored, p.off, e)
      {
        var h := hits[k];
        NotYetVisited(b0, blocks, sizes, s, hits, k, p.off, e);
        var new0 := WriteBlock(h, p.off, e, single);
        assert Has(b0, h.id) && SizeOf(b0, sizes, h.id) == SizeOf(blocks, sizes, h.id) && BlockOf(b0, h.id) == BlockOf(blocks, h.id);
        VisitBlock(b0, blocks, sizes, s, hits, k, p.off, e, new0);
        ghost var st := stored;
        if !h.id.local {
          RecordBlock(h.id.i, p.off, e);
        }
        RecordNext(st0, st, stored, s, hits, k, p.off, e);
        NextHit(s, hits, k, st0, st, stored, p.off, e);
        blocks := Put(blocks, h.id, new0);
        VisitedShape(b0, blocks, sizes, hits, k + 1, p.off, e);
        k := k + 1;
      }
      WriteDone(b0, st0, p, s, hits, e);
      HitsAreMembers(s, hits, st0, stored, p.off, e);
    }

    /** The record for one non-local block of an access. */
    method RecordBlock(i: nat, at: Off, e: Effect)
      requires i < |stored|
      modifies `stored
      ensures |stored| == |old(stored)| && forall x :: 0 <= x < |stored| && x != i ==> stored[x] == old(stored)[x]
      ensures SetGrows(old(stored)[i], stored[i]) && RecordedFor(stored[i], at, e) && (old(stored)[i].all ==> stored[i].all)
      ensures stored[i] == AfterRecord(old(stored)[i], at, e)
    {
      match e
      case Writes(data, _) => RecordData(i, at, data);
      case Fills(_, _, _) => stored := stored[i := StoredSet({}, true)];
    }

    static lemma RecordStart(st0: seq<StoredSet>, hits: seq<Hit>, at: Off, e: Effect)
      ensures AllRecorded(st0, st0, hits, 0, at, e)
    {
      hide TrackedIn;
    }

    static lemma RecordNext(st0: seq<StoredSet>, st: seq<StoredSet>, st': seq<StoredSet>, s: AliasSet, hits: seq<Hit>, k: nat, at: Off, e: Effect)
      requires k < |hits| && AllRecorded(st0, st, hits, k, at, e) && |st'| == |st| && Enumerates(s, hits)
      requires forall x :: 0 <= x < |st| && (hits[k].id.local || x != hits[k].id.i) ==> st'[x] == st[x]
      requires !hits[k].id.local ==> var i := hits[k].id.i; i < |st| && SetGrows(st[i], st'[i]) && RecordedFor(st'[i], at, e) && (st[i].all ==> st'[i].all)
      ensures AllRecorded(st0, st', hits, k + 1, at, e)
    {
      hide TrackedIn, RecordedFor;
      forall j | 0 <= j < k + 1 && !hits[j].id.local
        ensures hits[j].id.i < |st'| && RecordedFor(st'[hits[j].id.i], at, e)
      {
        if j < k {
          assert hits[j].id != hits[k].id;
        }
      }
    }

    static lemma VisitedShape(b0: Blocks, b: Blocks, sizes: Sizes, hits: seq<Hit>, k: nat, at: Off, e: Effect)
      requires k <= |hits| && Visited0(b0, b, sizes, hits, k, at, e)
      ensures SameShape(b, sizes) && AllClosed(b)
    {
    }

    lemma WriteDone(b0: Blocks, st0: seq<StoredSet>, p: Pointer, s: AliasSet, hits: seq<Hit>, e: Effect)
      requires Valid() && SameShape(b0, sizes) && Suits(s, b0, width) && Enumerates(s, hits)
      requires Visited0(b0, blocks, sizes, hits, |hits|, p.off, e) && AllRecorded(st0, stored, hits, |hits|, p.off, e)
      requires (forall w :: Aliased(p, s, w, width) ==> Exact(p, hits, w, width)) && (e.Writes? ==> Covers(e.data))
      ensures Changed(b0, blocks, st0, stored, p, s, e)
    {
      hide Exact, Aliased, EffectWithin, Covers, Handled, AllRecorded, Wrote, TracksMore;
      forall w | AccessOk(p, s, b0, sizes, e, w, width)
        ensures Wrote(b0, blocks, sizes, p, e, w, width) && TracksMore(st0, stored, p, e, w, width)
      {
        AllWritten(b0, blocks, sizes, p, s, hits, e, w, width);
        RecordingTracks(st0, stored, b0, sizes, p, s, hits, e, w, width);
      }
    }

    /** What a write promises: the flat memory changes as it should, what was tracked
        and what is written is tracked, and blocks outside the set stay the same. */
    ghost predicate Changed(b0: Blocks, b: Blocks, st0: seq<StoredSet>, st: seq<StoredSet>, p: Pointer, s: AliasSet, e: Effect)
      requires SameShape(b0, sizes) && SameShape(b, sizes)
    {
      && (forall w :: AccessOk(p, s, b0, sizes, e, w, width) ==> Wrote(b0, b, sizes, p, e, w, width) && TracksMore(st0, st, p, e, w, width))
      && (forall id :: Has(b0, id) && !Member(s, id) ==> BlockOf(b, id) == BlockOf(b0, id))
    }

    /** What every write after initialization keeps. */
    ghost predicate Keeps(b0: Blocks, st0: seq<StoredSet>, p: Pointer, s: AliasSet, e: Effect)
      requires SameShape(b0, sizes)
      reads this
    {
      && (Frozen(b0.non, initial, noWrite) && WritableOnly(s) && |blocks.non| == |b0.non| ==> FrozenHere())
      && (forall w :: AccessOk(p, s, b0, sizes, e, w, width) && Tracks(b0.non, initial, sizes.non, st0, w) ==> TracksHere(w))
    }

    lemma WriteKeeps(b0: Blocks, st0: seq<StoredSet>, p: Pointer, s: AliasSet, e: Effect)
      requires Valid() && SameShape(b0, sizes) && Changed(b0, blocks, st0, stored, p, s, e) && !Forgets(e)
      ensures Keeps(b0, st0, p, s, e)
    {
      hide AccessOk, Wrote, TracksMore, Tracks, Forgets, Closed, ClosedOff, ClosedByte;
      forall w | AccessOk(p, s, b0, sizes, e, w, width) && Tracks(b0.non, initial, sizes.non, st0, w)
        ensures TracksHere(w)
      {
        TracksWrite(b0, blocks, sizes, initial, st0, stored, p, e, w, width);
      }
      if Frozen(b0.non, initial, noWrite) && WritableOnly(s) {
        forall i | 0 <= i < |blocks.non| && noWrite[i]
          ensures blocks.non[i] == initial[i]
        {
          var id := Id(false, i);
          assert Has(b0, id) && !Member(s, id);
          assert BlockOf(blocks, id) == BlockOf(b0, id);
        }
      }
    }

    /** A write of nothing. */
    lemma NothingWritten(p: Pointer, s: AliasSet)
      requires Valid()
      ensures Changed(blocks, blocks, stored, stored, p, s, Writes([], Kept))
    {
      hide At, EvalOff, TrackedIn, IsBlock, AccessOk;
    }

    /** `Memory::store` of bytes through a pointer. */
    method Store(p: Pointer, data: seq<Datum>, s: AliasSet, init: bool)
      requires Valid() && Suits(s, blocks, width) && ClosedOff(p.off) && Covers(data)
      modifies this
      ensures Valid() && Changed(old(blocks), blocks, old(stored), stored, p, s, Writes(data, RestOf(init, data, poison)))
      ensures !init ==> Keeps(old(blocks), old(stored), p, s, Writes(data, Kept))
      ensures RecordsExactly(s, old(stored), stored, p.off, Writes(data, RestOf(init, data, poison)))
    {
      ghost var b0, st0 := blocks, stored;
      hide Changed, Suits, Covers, Keeps;
      if data == [] {
        NothingWritten(p, s);
        assert OffsetsOf(p.off, data) == [];
      } else {
        WriteAll(p, s, Writes(data, RestOf(init, data, poison)), true);
      }
      if !init {
        WriteKeeps(b0, st0, p, s, Writes(data, Kept));
      }
    }

    /** `Memory::storeLambda`: the data repeat over the addressed range, by the offset
        within the block. */
    method StoreLambda(p: Pointer, n: Off, data: seq<Datum>, s: AliasSet, full: bool)
      requires Valid() && Suits(s, blocks, width) && ClosedOff(p.off) && ClosedOff(n)
      requires data != [] && forall i :: 0 <= i < |data| ==> ArraysClosed(data[i].val)
      modifies this
      ensures Valid() && Changed(old(blocks), blocks, old(stored), stored, p, s, Fills(n, Repeated(data, 0), full))
      ensures Keeps(old(blocks), old(stored), p, s, Fills(n, Repeated(data, 0), full))
      ensures RecordsExactly(s, old(stored), stored, p.off, Fills(n, Repeated(data, 0), full))
    {
      ghost var b0, st0 := blocks, stored;
      RepeatedArrays(data, 0);
      hide RecordsExactly, Changed, Suits, Keeps, Repeated;
      WriteAll(p, s, Fills(n, Repeated(data, 0), full), |data| == 1);
      WriteKeeps(b0, st0, p, s, Fills(n, Repeated(data, 0), full));
    }

    // ----- loads -------------------------------------------------------------

    /** `Memory::load` of bytes: each one is the flat byte of the pointer's block. */
    method LoadBytes(p: Pointer, n: nat, s: AliasSet, left2right: bool) returns (ret: seq<Byte>)
      requires Valid() && Suits(s, blocks, width)
      ensures BytesLoaded(blocks, p, n, s, left2right, ret)
    {
      ValidShape();
      SuitsFits(s);
      hide *;
      var hits := Access(p, s, width);
      HitsExist(s, hits);
      var loaded := CollectLoads(p, hits, n, left2right);
      ret := PickAll(p, n, s, left2right, hits, loaded);
    }

    /** The loop that `access` runs for a read. */
    method CollectLoads(p: Pointer, hits: seq<Hit>, n: nat, left2right: bool) returns (loaded: Partial)
      requires SameShape(blocks, sizes) && (forall j :: 0 <= j < |hits| ==> Has(blocks, hits[j].id))
      ensures Loaded(p, hits, n, left2right, loaded, |hits|, n)
    {
      hide *;
      loaded := NoLoads(p, hits, n, left2right);
      var k: nat := 0;
      while k < |hits|
        invariant k <= |hits| && Loaded(p, hits, n, left2right, loaded, k, n)
      {
        loaded := AddLoads(p, hits, n, left2right, loaded, k);
        k := k + 1;
      }
    }

    lemma ValidShape()
      requires Valid()
      ensures SameShape(blocks, sizes)
    {
    }

    lemma SuitsFits(s: AliasSet)
      requires Suits(s, blocks, width)
      ensures Aliasing.Fits(s, width)
    {
    }

    /** The bytes of an `n`-byte read, in the order asked for. */
    ghost predicate BytesLoaded(b: Blocks, p: Pointer, n: nat, s: AliasSet, left2right: bool, ret: seq<Byte>)
      requires SameShape(b, sizes)
    {
      |ret| == n && forall i: nat :: i < n ==> LoadsByte(b, p, n, s, if left2right then i else n - 1 - i, ret[i])
    }

    method NoLoads(p: Pointer, hits: seq<Hit>, n: nat, left2right: bool) returns (loaded: Partial)
      requires SameShape(blocks, sizes) && (forall j :: 0 <= j < |hits| ==> Has(blocks, hits[j].id))
      ensures Loaded(p, hits, n, left2right, loaded, 0, n)
    {
      loaded := Partial(seq(n, _ => []));
    }

    /** The bytes of the `k`-th block are added. */
    method AddLoads(p: Pointer, hits: seq<Hit>, n: nat, left2right: bool, loaded0: Partial, k: nat) returns (loaded: Partial)
      requires k < |hits| && Loaded(p, hits, n, left2right, loaded0, k, n)
      ensures Loaded(p, hits, n, left2right, loaded, k + 1, n)
    {
      loaded := loaded0;
      hide GuardedLoads, LoadTerm, AddGuarded;
      var b, size := BlockOf(blocks, hits[k].id), SizeOf(blocks, sizes, hits[k].id);
      var i: nat := 0;
      while i < n
        invariant i <= n && Loaded(p, hits, n, left2right, loaded, k + 1, i)
      {
        var idx := if left2right then i else n - 1 - i;
        GuardedLoadsStep(blocks, sizes, hits, k, p.off, n, idx);
        loaded := Partial(loaded.bytes[i := AddGuarded(loaded.bytes[i], LoadTerm(b, size, p.off, n, idx), hits[k].cond)]);
        i := i + 1;
      }
    }

    method PickAll(p: Pointer, n: nat, s: AliasSet, left2right: bool, ghost hits: seq<Hit>, loaded: Partial) returns (ret: seq<Byte>)
      requires Valid() && Suits(s, blocks, width) && Enumerates(s, hits) && (forall w :: Aliased(p, s, w, width) ==> Exact(p, hits, w, width))
      requires Loaded(p, hits, n, left2right, loaded, |hits|, n)
      ensures BytesLoaded(blocks, p, n, s, left2right, ret)
    {
      hide Exact, Enumerates, Aliased, Valid, Suits, GuardedLoads, LoadsByte, PickByte;
      ret := seq(n, i requires 0 <= i < n => PickByte(loaded.bytes[i], poison));
      forall i: nat | i < n
        ensures LoadsByte(blocks, p, n, s, if left2right then i else n - 1 - i, ret[i])
      {
        LoadedByte(p, n, s, hits, if left2right then i else n - 1 - i);
      }
    }

    /** The guarded bytes, when the blocks before the `k`-th have been added to all, and
        that one to the first `i`. */
    ghost predicate Loaded(p: Pointer, hits: seq<Hit>, n: nat, left2right: bool, loaded: Partial, k: nat, i: nat)
      reads this
    {
      && SameShape(blocks, sizes) && k <= |hits| && (i < n ==> k > 0) && |loaded.bytes| == n && (forall j :: 0 <= j < |hits| ==> Has(blocks, hits[j].id))
      && forall x: nat :: x < n ==>
           loaded.bytes[x] == GuardedLoads(blocks, sizes, hits, if x < i then k else k - 1, p.off, n, if left2right then x else n - 1 - x)
    }

    lemma HitsExist(s: AliasSet, hits: seq<Hit>)
      requires Suits(s, blocks, width) && Enumerates(s, hits)
      ensures forall j :: 0 <= j < |hits| ==> Has(blocks, hits[j].id)
    {
    }

    /** The byte read at index `idx`, in every world in which the read is in order. */
    ghost predicate LoadsByte(b: Blocks, p: Pointer, n: nat, s: AliasSet, idx: nat, x: Byte)
      requires SameShape(b, sizes)
    {
      && (forall id, w :: Has(b, id) && IsBlock(p, w, id, width) && ReadOk(b, p, n, s, w) ==>
            EvalByte(x, w) == At(BlockOf(b, id), w, EvalOff(p.off, w) + idx))
      && ArraysClosed(x) && (ClosedOff(p.off) ==> ClosedByte(x))
    }

    lemma LoadedByte(p: Pointer, n: nat, s: AliasSet, hits: seq<Hit>, idx: nat)
      requires Valid() && Suits(s, blocks, width) && Enumerates(s, hits) && (forall j :: 0 <= j < |hits| ==> Has(blocks, hits[j].id))
      requires (forall w :: Aliased(p, s, w, width) ==> Exact(p, hits, w, width)) && idx < n
      ensures LoadsByte(blocks, p, n, s, idx, PickByte(GuardedLoads(blocks, sizes, hits, |hits|, p.off, n, idx), poison))
    {
      var d := GuardedLoads(blocks, sizes, hits, |hits|, p.off, n, idx);
      ClosedArrays(poison);
      GuardedLoadsClosed(blocks, sizes, hits, |hits|, p.off, n, idx);
      PickByteClosed(d, poison);
      hide Exact, Enumerates, Aliased, ReadWithin, EvalByte, At, GuardedLoads, PickByte, IsBlock, AllClosed, ArraysClosed, ClosedByte, ClosedOff, Suits;
      forall id, w | Has(blocks, id) && IsBlock(p, w, id, width) && ReadOk(blocks, p, n, s, w)
        ensures EvalByte(PickByte(d, poison), w) == At(BlockOf(blocks, id), w, EvalOff(p.off, w) + idx)
      {
        LoadIsFlat(p, s, blocks, sizes, hits, n, idx, poison, w, width, id);
      }
    }

    /** In this world the pointer's block is in the set, and the read stays within it. */
    ghost predicate ReadOk(b: Blocks, p: Pointer, n: nat, s: AliasSet, w: World)
      requires SameShape(b, sizes)
    {
      Aliased(p, s, w, width) && ReadWithin(p, b, sizes, n, w, width)
    }

    /** Bytes that are stored and read back through the same pointer, in the same byte
        order, come back in their places. */
    lemma ReadsBackStored(b0: Blocks, st0: seq<StoredSet>, p: Pointer, bytes: seq<Byte>, s: AliasSet, littleEndian: bool, ret: seq<Byte>, i: nat, w: World)
      requires Valid() && SameShape(b0, sizes) && (forall j :: 0 <= j < |bytes| ==> ClosedByte(bytes[j])) && i < |bytes|
      requires Suits(s, b0, width) && Changed(b0, blocks, st0, stored, p, s, Writes(Placed(bytes, littleEndian), Kept))
      requires BytesLoaded(blocks, p, |bytes|, s, littleEndian, ret)
      requires AccessOk(p, s, b0, sizes, Writes(Placed(bytes, littleEndian), Kept), w, width)
      ensures |ret| == |bytes| && EvalByte(ret[i], w) == EvalByte(bytes[i], w)
    {
      var n := |bytes|;
      var x := if littleEndian then i else n - 1 - i;
      ValidShape();
      LoadedInPlace(p, n, s, littleEndian, ret, i);
      ReadIsOk(b0, p, bytes, s, littleEndian, w);
      var id := WrittenInPlace(b0, st0, p, bytes, s, littleEndian, i, w);
      hide *;
      LoadedAt(blocks, p, n, s, x, ret[i], id, w);
    }

    lemma LoadedInPlace(p: Pointer, n: nat, s: AliasSet, littleEndian: bool, ret: seq<Byte>, i: nat)
      requires SameShape(blocks, sizes) && BytesLoaded(blocks, p, n, s, littleEndian, ret) && i < n
      ensures |ret| == n && LoadsByte(blocks, p, n, s, if littleEndian then i else n - 1 - i, ret[i])
    {
      hide LoadsByte;
    }

    /** A stored byte is in its place in the pointer's block. */
    lemma WrittenInPlace(b0: Blocks, st0: seq<StoredSet>, p: Pointer, bytes: seq<Byte>, s: AliasSet, littleEndian: bool, i: nat, w: World) returns (id: Id)
      requires SameShape(b0, sizes) && SameShape(blocks, sizes) && (forall j :: 0 <= j < |bytes| ==> ClosedByte(bytes[j])) && i < |bytes|
      requires Suits(s, b0, width) && Changed(b0, blocks, st0, stored, p, s, Writes(Placed(bytes, littleEndian), Kept))
      requires AccessOk(p, s, b0, sizes, Writes(Placed(bytes, littleEndian), Kept), w, width)
      ensures Has(blocks, id) && IsBlock(p, w, id, width)
      ensures At(BlockOf(blocks, id), w, EvalOff(p.off, w) + if littleEndian then i else |bytes| - 1 - i) == EvalByte(bytes[i], w)
    {
      var e, at, x := Writes(Placed(bytes, littleEndian), Kept), EvalOff(p.off, w), if littleEndian then i else |bytes| - 1 - i;
      LowestByteFirst(bytes, littleEndian, i, w);
      id :| Member(s, id) && IsBlock(p, w, id, width);
      hide At, EvalByte, Covers, ClosedByte, EvalOff, IsBlock, TracksMore, IndexFor, DatumAt, Placed;
      assert EffectWithin(e, p.off, SizeOf(b0, sizes, id), w);
      assert Wrote(b0, blocks, sizes, p, e, w, width) && WroteAt(b0, blocks, p, e, w, width, id, at + x);
    }

    lemma ReadIsOk(b0: Blocks, p: Pointer, bytes: seq<Byte>, s: AliasSet, littleEndian: bool, w: World)
      requires SameShape(b0, sizes) && SameShape(blocks, sizes)
      requires AccessOk(p, s, b0, sizes, Writes(Placed(bytes, littleEndian), Kept), w, width)
      ensures ReadOk(blocks, p, |bytes|, s, w)
    {
      hide IsBlock, EvalOff;
      forall id | Has(blocks, id) && IsBlock(p, w, id, width)
        ensures Within(EvalOff(p.off, w), |bytes|, SizeOf(blocks, sizes, id), w)
      {
        assert Has(b0, id) && EffectWithin(Writes(Placed(bytes, littleEndian), Kept), p.off, SizeOf(b0, sizes, id), w);
      }
    }

    // ----- fills and copies --------------------------------------------------

    /** The unrolled form of `memset`, for at most four bytes. */
    method MemsetSmall(p: Pointer, val: Byte, n: nat, s: AliasSet)
      requires Valid() && Suits(s, blocks, width) && ClosedOff(p.off) && ClosedByte(val)
      modifies this
      ensures Valid() && Changed(old(blocks), blocks, old(stored), stored, p, s, Fills(Num(n), val, false))
      ensures Keeps(old(blocks), old(stored), p, s, Fills(Num(n), val, false))
    {
      var data: seq<Datum> := [];
      var i: nat := 0;
      while i < n
        invariant i <= n && data == seq(i, j requires 0 <= j < i => Datum(j, val))
      {
        data := data + [Datum(i, val)];
        i := i + 1;
      }
      ghost var b0, st0 := blocks, stored;
      CopiesCover(data, val);
      hide Changed, Suits, Covers, Keeps;
      Store(p, data, s, false);
      StoreIsFill(b0, st0, p, s, data, val);
      WriteKeeps(b0, st0, p, s, Fills(Num(n), val, false));
    }

    static lemma CopiesCover(data: seq<Datum>, val: Byte)
      requires ClosedByte(val) && forall i :: 0 <= i < |data| ==> data[i] == Datum(i, val)
      ensures Covers(data)
    {
      forall o | 0 <= o < |data|
        ensures IndexFor(data, |data|, o) >= 0
      {
        assert data[o].idx == o;
      }
    }

    /** Storing copies of one byte is filling with that byte. */
    lemma StoreIsFill(b0: Blocks, st0: seq<StoredSet>, p: Pointer, s: AliasSet, data: seq<Datum>, val: Byte)
      requires Valid() && SameShape(b0, sizes) && ClosedByte(val) && Covers(data) && forall i :: 0 <= i < |data| ==> data[i] == Datum(i, val)
      requires Changed(b0, blocks, st0, stored, p, s, Writes(data, Kept))
      ensures Changed(b0, blocks, st0, stored, p, s, Fills(Num(|data|), val, false))
    {
      var e, f := Writes(data, Kept), Fills(Num(|data|), val, false);
      forall w | AccessOk(p, s, b0, sizes, f, w, width)
        ensures Wrote(b0, blocks, sizes, p, f, w, width) && TracksMore(st0, stored, p, f, w, width)
      {
        hide Wrote, TracksMore, Aliased, IsBlock, Covers, Closed, ClosedOff;
        assert AccessOk(p, s, b0, sizes, e, w, width);
        SameWrite(b0, blocks, sizes, p, data, val, w, width);
        SameTracking(st0, stored, p, data, val, w, width);
      }
    }

    static lemma SameAddressed(data: seq<Datum>, val: Byte, w: World, at: nat, o: nat)
      requires ClosedByte(val) && Covers(data) && forall i :: 0 <= i < |data| ==> data[i] == Datum(i, val)
      ensures var e, f := Writes(data, Kept), Fills(Num(|data|), val, false);
        && (Addressed(e, at, o, w) <==> Addressed(f, at, o, w))
        && (Addressed(e, at, o, w) ==> Written(e, at, o, w) == Written(f, at, o, w))
    {
      assert EvalOff(Num(|data|), w) == |data|;
      if at <= o < at + |data| {
        ClosedByteSame(val, w, o);
        assert IndexFor(data, |data|, o - at) >= 0;
      }
      hide EvalByte, ClosedByte;
    }

    static lemma SameWrite(b0: Blocks, b: Blocks, sizes: Sizes, p: Pointer, data: seq<Datum>, val: Byte, w: World, width: nat)
      requires ClosedByte(val) && Covers(data) && forall i :: 0 <= i < |data| ==> data[i] == Datum(i, val)
      requires SameShape(b0, sizes) && SameShape(b, sizes) && Wrote(b0, b, sizes, p, Writes(data, Kept), w, width)
      ensures Wrote(b0, b, sizes, p, Fills(Num(|data|), val, false), w, width)
    {
      hide Addressed, Written, At, IsBlock, Covers, EvalOff;
      forall id, o: nat | Has(b0, id) && o < EvalOff(SizeOf(b0, sizes, id), w)
        ensures WroteAt(b0, b, p, Fills(Num(|data|), val, false), w, width, id, o)
      {
        assert WroteAt(b0, b, p, Writes(data, Kept), w, width, id, o);
        SameAddressed(data, val, w, EvalOff(p.off, w), o);
      }
    }

    static lemma SameTracking(st0: seq<StoredSet>, st: seq<StoredSet>, p: Pointer, data: seq<Datum>, val: Byte, w: World, width: nat)
      requires ClosedByte(val) && Covers(data) && forall i :: 0 <= i < |data| ==> data[i] == Datum(i, val)
      requires TracksMore(st0, st, p, Writes(data, Kept), w, width)
      ensures TracksMore(st0, st, p, Fills(Num(|data|), val, false), w, width)
    {
      hide Addressed, Written, IsBlock, Covers, Tracked;
      forall i: nat, o: nat | i < |st|
        ensures TracksMoreAt(st0, st, p, Fills(Num(|data|), val, false), w, width, i, o)
      {
        assert TracksMoreAt(st0, st, p, Writes(data, Kept), w, width, i, o);
        SameAddressed(data, val, w, EvalOff(p.off, w), o);
      }
    }

    /** `Memory::memset`: both forms fill the range with the byte. */
    method Memset(p: Pointer, val: Byte, n: Off, s: AliasSet, full: bool)
      requires Valid() && Suits(s, blocks, width) && ClosedOff(p.off) && ClosedOff(n) && ClosedByte(val)
      modifies this
      ensures Valid() && Changed(old(blocks), blocks, old(stored), stored, p, s, Fills(n, val, full))
      ensures Keeps(old(blocks), old(stored), p, s, Fills(n, val, full))
    {
      hide Changed, Suits, Keeps;
      if !full && n.Num? && n.n <= 4 {
        MemsetSmall(p, val, n.n, s);
      } else {
        ClosedArrays(val);
        StoreLambda(p, n, [Datum(0, val)], s, full);
      }
    }

    /** In this world, source and destination ranges lie within their blocks. */
    ghost predicate CopyOk(b0: Blocks, dst: Pointer, src: Pointer, n: Off, ds: AliasSet, ss: AliasSet, w: World)
      requires SameShape(b0, sizes)
    {
      && Aliased(dst, ds, w, width) && Aliased(src, ss, w, width)
      && (forall id :: Has(b0, id) && IsBlock(dst, w, id, width) ==> RangeWithin(dst.off, n, SizeOf(b0, sizes, id), w))
      && (forall id :: Has(b0, id) && IsBlock(src, w, id, width) ==> RangeWithin(src.off, n, SizeOf(b0, sizes, id), w))
    }

    static ghost predicate RangeWithin(at: Off, n: Off, size: Off, w: World) {
      Within(EvalOff(at, w), EvalOff(n, w), size, w) && EvalOff(at, w) + EvalOff(n, w) < w.wrap
    }

    /** The flat memory after a copy: the destination range holds what the source range
        held before, even where the two overlap. */
    ghost predicate Copied(b0: Blocks, b: Blocks, dst: Pointer, src: Pointer, n: Off, w: World)
      requires SameShape(b0, sizes) && SameShape(b, sizes)
    {
      forall id, from, o: nat :: Has(b0, id) && Has(b0, from) && IsBlock(src, w, from, width) && o < EvalOff(SizeOf(b0, sizes, id), w) ==>
        CopiedAt(b0, b, dst, src, n, w, id, from, o)
    }

    ghost predicate CopiedAt(b0: Blocks, b: Blocks, dst: Pointer, src: Pointer, n: Off, w: World, id: Id, from: Id, o: nat)
      requires SameShape(b0, sizes) && SameShape(b, sizes) && Has(b0, id) && Has(b0, from)
    {
      var at := EvalOff(dst.off, w);
      At(BlockOf(b, id), w, o) ==
        if IsBlock(dst, w, id, width) && at <= o < at + EvalOff(n, w) then At(BlockOf(b0, from), w, EvalOff(src.off, w) + o - at)
        else At(BlockOf(b0, id), w, o)
    }

    /** What every copy promises. */
    ghost predicate CopyDone(b0: Blocks, st0: seq<StoredSet>, dst: Pointer, src: Pointer, n: Off, ds: AliasSet, ss: AliasSet)
      requires SameShape(b0, sizes) && SameShape(blocks, sizes)
      reads this
    {
      && (Frozen(b0.non, initial, noWrite) && WritableOnly(ds) ==> FrozenHere())
      && (forall w :: CopyOk(b0, dst, src, n, ds, ss, w) ==> Copied(b0, blocks, dst, src, n, w))
      && (forall w :: CopyOk(b0, dst, src, n, ds, ss, w) && Tracks(b0.non, initial, sizes.non, st0, w) ==> TracksHere(w))
    }

    /** `Memory::memcpy`.  A copy of a pointer to itself does nothing; up to four bytes
        are loaded and stored, and more are copied by a lambda over the old contents. */
    method Memcpy(dst: Pointer, src: Pointer, n: Off, ds: AliasSet, ss: AliasSet)
      requires Valid() && Suits(ds, blocks, width) && Suits(ss, blocks, width) && ClosedOff(dst.off) && ClosedOff(src.off) && ClosedOff(n)
      modifies this
      ensures Valid() && CopyDone(old(blocks), old(stored), dst, src, n, ds, ss) && OthersKept(ds, old(stored))
    {
      if src == dst {
        SelfCopy(dst, n, ds, ss);
        return;
      }
      hide CopyDone, Suits, OthersKept;
      if n.Num? && n.n <= 4 {
        MemcpySmall(dst, src, n.n, ds, ss);
      } else {
        MemcpyLambda(dst, src, n, ds, ss);
      }
    }

    lemma KeepsOthers(s: AliasSet, st0: seq<StoredSet>, at: Off, e: Effect)
      requires RecordsExactly(s, st0, stored, at, e)
      ensures OthersKept(s, st0)
    {
      hide AfterRecord, Member;
    }

    lemma SelfCopy(p: Pointer, n: Off, ds: AliasSet, ss: AliasSet)
      requires Valid() && |blocks.loc| <= Pow2(width) && |blocks.non| <= Pow2(width)
      ensures CopyDone(blocks, stored, p, p, n, ds, ss)
    {
      forall w, id, from, o: nat | Has(blocks, id) && Has(blocks, from) && IsBlock(p, w, from, width) && o < EvalOff(SizeOf(blocks, sizes, id), w)
        ensures CopiedAt(blocks, blocks, p, p, n, w, id, from, o)
      {
        hide IsBlock, At, EvalOff, Closed, ClosedOff;
        if IsBlock(p, w, id, width) {
          SameBlock(p, blocks, id, from, w, width);
        }
      }
      hide CopiedAt, CopyOk, Closed, ClosedOff;
    }

    method MemcpySmall(dst: Pointer, src: Pointer, n: nat, ds: AliasSet, ss: AliasSet)
      requires Valid() && Suits(ds, blocks, width) && Suits(ss, blocks, width) && ClosedOff(dst.off) && ClosedOff(src.off)
      modifies this
      ensures Valid() && CopyDone(old(blocks), old(stored), dst, src, Num(n), ds, ss) && OthersKept(ds, old(stored))
    {
      ghost var b0, st0 := blocks, stored;
      ValidShape();
      hide *;
      var bytes := LoadBytes(src, n, ss, true);
      LoadedAll(b0, src, n, ss, bytes);
      var data := seq(n, i requires 0 <= i < n => Datum(i, bytes[i]));
      LoadedCover(b0, src, n, ss, bytes, data);
      Store(dst, data, ds, false);
      KeepsOthers(ds, st0, dst.off, Writes(data, Kept));
      SmallCopied(b0, st0, dst, src, n, ds, ss, bytes, data);
    }

    lemma LoadedAll(b0: Blocks, p: Pointer, n: nat, ss: AliasSet, bytes: seq<Byte>)
      requires SameShape(b0, sizes) && BytesLoaded(b0, p, n, ss, true, bytes)
      ensures |bytes| == n && forall i: nat :: i < n ==> LoadsByte(b0, p, n, ss, i, bytes[i])
    {
      hide LoadsByte;
    }

    lemma LoadedCover(b0: Blocks, src: Pointer, n: nat, ss: AliasSet, bytes: seq<Byte>, data: seq<Datum>)
      requires SameShape(b0, sizes) && ClosedOff(src.off) && |bytes| == |data| == n
      requires (forall i: nat :: i < n ==> LoadsByte(b0, src, n, ss, i, bytes[i])) && forall i :: 0 <= i < n ==> data[i] == Datum(i, bytes[i])
      ensures Covers(data)
    {
      forall o | 0 <= o < |data|
        ensures IndexFor(data, |data|, o) >= 0
      {
        assert data[o].idx == o;
      }
      forall i: nat | i < n
        ensures ClosedByte(bytes[i])
      {
        assert LoadsByte(b0, src, n, ss, i, bytes[i]);
      }
    }

    lemma SmallCopied(b0: Blocks, st0: seq<StoredSet>, dst: Pointer, src: Pointer, n: nat, ds: AliasSet, ss: AliasSet, bytes: seq<Byte>, data: seq<Datum>)
      requires Valid() && SameShape(b0, sizes) && Covers(data) && |bytes| == |data| == n
      requires (forall i: nat :: i < n ==> LoadsByte(b0, src, n, ss, i, bytes[i])) && forall i :: 0 <= i < n ==> data[i] == Datum(i, bytes[i])
      requires Changed(b0, blocks, st0, stored, dst, ds, Writes(data, Kept)) && Keeps(b0, st0, dst, ds, Writes(data, Kept))
      ensures CopyDone(b0, st0, dst, src, Num(n), ds, ss)
    {
      forall w | CopyOk(b0, dst, src, Num(n), ds, ss, w)
        ensures AccessOk(dst, ds, b0, sizes, Writes(data, Kept), w, width) && Copied(b0, blocks, dst, src, Num(n), w)
      {
        SmallOk(b0, dst, src, n, ds, ss, data, w);
        hide CopyOk, AccessOk, Wrote, Covers, LoadsByte, CopiedAt, AllClosed, ClosedOff, IsBlock, TracksMore, Keeps;
        assert Wrote(b0, blocks, sizes, dst, Writes(data, Kept), w, width);
        forall id, from, o: nat | Has(b0, id) && Has(b0, from) && IsBlock(src, w, from, width) && o < EvalOff(SizeOf(b0, sizes, id), w)
          ensures CopiedAt(b0, blocks, dst, src, Num(n), w, id, from, o)
        {
          SmallCopiedAt(b0, dst, src, n, ds, ss, bytes, data, w, id, from, o);
        }
      }
      hide CopyOk, AccessOk, Copied, Changed, Covers, LoadsByte, AllClosed, ClosedOff;
    }

    lemma SmallOk(b0: Blocks, dst: Pointer, src: Pointer, n: nat, ds: AliasSet, ss: AliasSet, data: seq<Datum>, w: World)
      requires SameShape(b0, sizes) && |data| == n && CopyOk(b0, dst, src, Num(n), ds, ss, w)
      ensures AccessOk(dst, ds, b0, sizes, Writes(data, Kept), w, width) && ReadOk(b0, src, n, ss, w)
    {
      assert EvalOff(Num(n), w) == n;
      hide Aliased, IsBlock;
    }

    lemma SmallCopiedAt(b0: Blocks, dst: Pointer, src: Pointer, n: nat, ds: AliasSet, ss: AliasSet, bytes: seq<Byte>, data: seq<Datum>,
                        w: World, id: Id, from: Id, o: nat)
      requires SameShape(b0, sizes) && SameShape(blocks, sizes) && Covers(data) && |bytes| == |data| == n
      requires (forall i: nat :: i < n ==> LoadsByte(b0, src, n, ss, i, bytes[i])) && forall i :: 0 <= i < n ==> data[i] == Datum(i, bytes[i])
      requires ReadOk(b0, src, n, ss, w) && Wrote(b0, blocks, sizes, dst, Writes(data, Kept), w, width)
      requires Has(b0, id) && Has(b0, from) && IsBlock(src, w, from, width) && o < EvalOff(SizeOf(b0, sizes, id), w)
      ensures CopiedAt(b0, blocks, dst, src, Num(n), w, id, from, o)
    {
      hide *;
      var at := EvalOff(dst.off, w);
      WroteHere(b0, dst, Writes(data, Kept), w, id, o);
      if at <= o < at + n {
        CopiedDatum(data, bytes, o - at, w);
        LoadedAt(b0, src, n, ss, o - at, bytes[o - at], from, w);
      }
      SmallFrom(b0, dst, src, n, data, w, id, from, o);
    }

    lemma SmallFrom(b0: Blocks, dst: Pointer, src: Pointer, n: nat, data: seq<Datum>, w: World, id: Id, from: Id, o: nat)
      requires SameShape(b0, sizes) && SameShape(blocks, sizes) && Has(b0, id) && Has(b0, from) && Has(blocks, id) && |data| == n
      requires WroteAt(b0, blocks, dst, Writes(data, Kept), w, width, id, o)
      requires var at := EvalOff(dst.off, w);
        at <= o < at + n ==> DatumAt(data, o - at, w) == At(BlockOf(b0, from), w, EvalOff(src.off, w) + (o - at))
      ensures CopiedAt(b0, blocks, dst, src, Num(n), w, id, from, o)
    {
      assert EvalOff(Num(n), w) == n;
      hide IsBlock, At, EvalOff, DatumAt, SameShape;
    }

    static lemma CopiedDatum(data: seq<Datum>, bytes: seq<Byte>, x: nat, w: World)
      requires Covers(data) && |bytes| == |data| && x < |data| && forall i :: 0 <= i < |data| ==> data[i] == Datum(i, bytes[i])
      ensures DatumAt(data, x, w) == EvalByte(bytes[x], w) && IndexFor(data, |data|, x) == x
    {
      assert IndexFor(data, |data|, x) >= 0;
      hide EvalByte;
    }

    lemma LoadedAt(b: Blocks, p: Pointer, n: nat, s: AliasSet, idx: nat, x: Byte, id: Id, w: World)
      requires SameShape(b, sizes) && LoadsByte(b, p, n, s, idx, x) && Has(b, id) && IsBlock(p, w, id, width) && ReadOk(b, p, n, s, w)
      ensures EvalByte(x, w) == At(BlockOf(b, id), w, EvalOff(p.off, w) + idx)
    {
      hide IsBlock, ReadOk, At, EvalByte, EvalOff, ArraysClosed, ClosedByte;
    }

    method MemcpyLambda(dst: Pointer, src: Pointer, n: Off, ds: AliasSet, ss: AliasSet)
      requires Valid() && Suits(ds, blocks, width) && Suits(ss, blocks, width) && ClosedOff(dst.off) && ClosedOff(src.off) && ClosedOff(n)
      modifies this
      ensures Valid() && CopyDone(old(blocks), old(stored), dst, src, n, ds, ss) && OthersKept(ds, old(stored))
    {
      ghost var b0, st0 := blocks, stored;
      ghost var sz := sizes;
      ValidShape();
      ValidClosed();
      hide *;
      var ptrSrc := Pointer(src.loc, src.bid, Plus(src.off, Minus(Bound, dst.off)));
      var bytes := LoadBytes(ptrSrc, 1, ss, true);
      LoadedAll(b0, ptrSrc, 1, ss, bytes);
      assert LoadsByte(b0, ptrSrc, 1, ss, 0, bytes[0]);
      LoadedArrays(b0, ptrSrc, ss, bytes[0]);
      StoreLambda(dst, n, [Datum(0, bytes[0])], ds, false);
      KeepsOthers(ds, st0, dst.off, Fills(n, Repeated([Datum(0, bytes[0])], 0), false));
      LambdaCopied(b0, st0, dst, src, n, ds, ss, bytes[0]);
    }

    lemma ValidClosed()
      requires Valid()
      ensures AllClosed(blocks)
    {
    }

    lemma LoadedArrays(b0: Blocks, p: Pointer, ss: AliasSet, x: Byte)
      requires SameShape(b0, sizes) && LoadsByte(b0, p, 1, ss, 0, x)
      ensures ArraysClosed(x) && ArraysClosed([Datum(0, x)][0].val)
    {
    }

    lemma LambdaCopied(b0: Blocks, st0: seq<StoredSet>, dst: Pointer, src: Pointer, n: Off, ds: AliasSet, ss: AliasSet, x: Byte)
      requires Valid() && SameShape(b0, sizes) && AllClosed(b0) && ClosedOff(dst.off) && ClosedOff(src.off)
      requires LoadsByte(b0, Pointer(src.loc, src.bid, Plus(src.off, Minus(Bound, dst.off))), 1, ss, 0, x)
      requires Changed(b0, blocks, st0, stored, dst, ds, Fills(n, Repeated([Datum(0, x)], 0), false))
      requires Keeps(b0, st0, dst, ds, Fills(n, Repeated([Datum(0, x)], 0), false))
      ensures CopyDone(b0, st0, dst, src, n, ds, ss)
    {
      assert Repeated([Datum(0, x)], 0) == x;
      forall w | CopyOk(b0, dst, src, n, ds, ss, w)
        ensures AccessOk(dst, ds, b0, sizes, Fills(n, x, false), w, width) && Copied(b0, blocks, dst, src, n, w)
      {
        hide Aliased, IsBlock, Wrote, LoadsByte, CopiedAt, AllClosed, Closed, ClosedOff, TracksMore, Keeps, Repeated;
        assert AccessOk(dst, ds, b0, sizes, Fills(n, x, false), w, width);
        assert Wrote(b0, blocks, sizes, dst, Fills(n, x, false), w, width);
        forall id, from, o: nat | Has(b0, id) && Has(b0, from) && IsBlock(src, w, from, width) && o < EvalOff(SizeOf(b0, sizes, id), w)
          ensures CopiedAt(b0, blocks, dst, src, n, w, id, from, o)
        {
          LambdaCopiedAt(b0, dst, src, n, ds, ss, x, w, id, from, o);
        }
      }
      hide CopyOk, AccessOk, Copied, Changed, LoadsByte, AllClosed, ClosedOff, Repeated;
    }

    /** The byte that the lambda reads at offset `o`. */
    lemma LambdaCopiedAt(b0: Blocks, dst: Pointer, src: Pointer, n: Off, ds: AliasSet, ss: AliasSet, x: Byte, w: World, id: Id, from: Id, o: nat)
      requires Valid() && SameShape(b0, sizes) && AllClosed(b0) && ClosedOff(dst.off) && ClosedOff(src.off)
      requires LoadsByte(b0, Pointer(src.loc, src.bid, Plus(src.off, Minus(Bound, dst.off))), 1, ss, 0, x)
      requires CopyOk(b0, dst, src, n, ds, ss, w) && Wrote(b0, blocks, sizes, dst, Fills(n, x, false), w, width)
      requires Has(b0, id) && Has(b0, from) && IsBlock(src, w, from, width) && o < EvalOff(SizeOf(b0, sizes, id), w)
      ensures CopiedAt(b0, blocks, dst, src, n, w, id, from, o)
    {
      var p, w' := Pointer(src.loc, src.bid, Plus(src.off, Minus(Bound, dst.off))), w.(bound := o);
      var at := EvalOff(dst.off, w);
      hide AllClosed, Closed, ClosedOff, At, EvalByte, ArraysClosed, ClosedByte;
      assert WroteAt(b0, blocks, dst, Fills(n, x, false), w, width, id, o);
      if IsBlock(dst, w, id, width) && at <= o < at + EvalOff(n, w) {
        ShiftedOffset(b0, dst, src, n, ds, ss, w, from, o);
        assert IsBlock(p, w', from, width);
        SourceClosed(b0, from, w, o, EvalOff(src.off, w) + o - at);
        hide IsBlock, EvalOff;
      }
    }

    lemma SourceClosed(b0: Blocks, from: Id, w: World, o: nat, x: nat)
      requires AllClosed(b0) && Has(b0, from)
      ensures At(BlockOf(b0, from), w.(bound := o), x) == At(BlockOf(b0, from), w, x)
    {
      ClosedSame(BlockOf(b0, from), w, o, x);
    }

    /** Under the lambda, the source pointer is at the matching offset. */
    lemma ShiftedOffset(b0: Blocks, dst: Pointer, src: Pointer, n: Off, ds: AliasSet, ss: AliasSet, w: World, from: Id, o: nat)
      requires Valid() && SameShape(b0, sizes) && ClosedOff(dst.off) && ClosedOff(src.off) && CopyOk(b0, dst, src, n, ds, ss, w)
      requires Has(b0, from) && IsBlock(src, w, from, width) && EvalOff(dst.off, w) <= o < EvalOff(dst.off, w) + EvalOff(n, w)
      ensures var p, w' := Pointer(src.loc, src.bid, Plus(src.off, Minus(Bound, dst.off))), w.(bound := o);
        EvalOff(p.off, w') == EvalOff(src.off, w) + o - EvalOff(dst.off, w) && ReadOk(b0, p, 1, ss, w')
    {
      var p, w' := Pointer(src.loc, src.bid, Plus(src.off, Minus(Bound, dst.off))), w.(bound := o);
      ShiftedValue(dst, src, n, w, o, SizeOf(b0, sizes, from));
      SameAliased(src, p, ss, w, w');
      forall id | Has(b0, id) && IsBlock(p, w', id, width)
        ensures Within(EvalOff(p.off, w'), 1, SizeOf(b0, sizes, id), w')
      {
        assert IsBlock(src, w, id, width) && ClosedOff(SizeOf(b0, sizes, id));
        ShiftedValue(dst, src, n, w, o, SizeOf(b0, sizes, id));
      }
      hide Aliased, IsBlock, Within, EvalOff, AllClosed, ClosedOff;
    }

    lemma SameAliased(src: Pointer, p: Pointer, s: AliasSet, w: World, w': World)
      requires p.loc == src.loc && p.bid == src.bid && w'.v == w.v && Aliased(src, s, w, width)
      ensures Aliased(p, s, w', width)
    {
      var id :| Member(s, id) && IsBlock(src, w, id, width);
      assert IsBlock(p, w', id, width);
    }

    static lemma ShiftedValue(dst: Pointer, src: Pointer, n: Off, w: World, o: nat, size: Off)
      requires ClosedOff(dst.off) && ClosedOff(src.off) && ClosedOff(size) && RangeWithin(src.off, n, size, w)
      requires EvalOff(dst.off, w) <= o < EvalOff(dst.off, w) + EvalOff(n, w)
      ensures var off, w' := Plus(src.off, Minus(Bound, dst.off)), w.(bound := o);
        EvalOff(off, w') == EvalOff(src.off, w) + o - EvalOff(dst.off, w) && Within(EvalOff(off, w'), 1, size, w')
    {
      ClosedOffSame(dst.off, w, o);
      ClosedOffSame(src.off, w, o);
      ClosedOffSame(size, w, o);
      assert EvalOff(Bound, w.(bound := o)) == o;
    }

    // ----- patterns ----------------------------------------------------------

    /** In this world the whole pattern can be read, and the destination range lies
        within its block. */
    ghost predicate PatternOk(b0: Blocks, dst: Pointer, pat: Pointer, n: Off, len: nat, ds: AliasSet, ss: AliasSet, w: World)
      requires SameShape(b0, sizes)
    {
      && Aliased(dst, ds, w, width) && ReadOk(b0, pat, len, ss, w)
      && forall id :: Has(b0, id) && IsBlock(dst, w, id, width) ==> RangeWithin(dst.off, n, SizeOf(b0, sizes, id), w)
    }

    /** The flat memory after a pattern has been stored: which byte of the pattern is at
        which offset. */
    ghost predicate Patterned(b0: Blocks, b: Blocks, dst: Pointer, pat: Pointer, n: Off, len: nat, littleEndian: bool, w: World)
      requires SameShape(b0, sizes) && SameShape(b, sizes) && len > 0
    {
      forall id, from, o: nat :: Has(b0, id) && Has(b0, from) && IsBlock(pat, w, from, width) && o < EvalOff(SizeOf(b0, sizes, id), w) ==>
        PatternedAt(b0, b, dst, pat, n, len, littleEndian, w, id, from, o)
    }

    ghost predicate PatternedAt(b0: Blocks, b: Blocks, dst: Pointer, pat: Pointer, n: Off, len: nat, littleEndian: bool, w: World, id: Id, from: Id, o: nat)
      requires SameShape(b0, sizes) && SameShape(b, sizes) && len > 0 && Has(b0, id) && Has(b0, from)
    {
      var at := EvalOff(dst.off, w);
      At(BlockOf(b, id), w, o) ==
        if IsBlock(dst, w, id, width) && at <= o < at + EvalOff(n, w)
        then At(BlockOf(b0, from), w, EvalOff(pat.off, w) + PatternIndex(Unrolled(n), len, littleEndian, at, o))
        else At(BlockOf(b0, id), w, o)
    }

    /** What storing a pattern promises. */
    ghost predicate PatternDone(b0: Blocks, st0: seq<StoredSet>, dst: Pointer, pat: Pointer, n: Off, len: nat, littleEndian: bool, ds: AliasSet, ss: AliasSet)
      requires SameShape(b0, sizes) && SameShape(blocks, sizes) && len > 0
      reads this
    {
      && (Frozen(b0.non, initial, noWrite) && WritableOnly(ds) ==> FrozenHere())
      && (forall w :: PatternOk(b0, dst, pat, n, len, ds, ss, w) ==> Patterned(b0, blocks, dst, pat, n, len, littleEndian, w))
      && (forall w :: PatternOk(b0, dst, pat, n, len, ds, ss, w) && Tracks(b0.non, initial, sizes.non, st0, w) ==> TracksHere(w))
    }

    /** `Memory::memset_pattern`, for patterns of 4, 8 or 16 bytes. */
    method MemsetPattern(dst: Pointer, pat: Pointer, n: Off, len: nat, littleEndian: bool, ds: AliasSet, ss: AliasSet)
      requires Valid() && Suits(ds, blocks, width) && Suits(ss, blocks, width) && ClosedOff(dst.off) && ClosedOff(pat.off) && ClosedOff(n)
      requires len >= 4
      modifies this
      ensures Valid() && PatternDone(old(blocks), old(stored), dst, pat, n, len, littleEndian, ds, ss)
    {
      ghost var b0, st0 := blocks, stored;
      ValidShape();
      hide *;
      var bytes := LoadBytes(pat, len, ss, littleEndian);
      LoadedInOrder(b0, pat, len, ss, littleEndian, bytes);
      PatternClosed(b0, pat, len, ss, littleEndian, bytes);
      var small := Unrolled(n);
      UnrolledIs(n);
      var size := if small then n.n else len;
      var data := seq(size, i requires 0 <= i < size => Datum(i, bytes[i]));
      if small {
        InOrderCover(data);
        Store(dst, data, ds, false);
      } else {
        StoreLambda(dst, n, data, ds, false);
        RepeatedArrays(data, 0);
      }
      PatternStored(b0, st0, dst, pat, n, len, littleEndian, ds, ss, bytes, data);
    }

    /** The bytes at the pattern pointer. */
    static ghost function PatternBytes(b0: Blocks, pat: Pointer, from: Id, w: World): nat -> Bits
      requires Has(b0, from)
    {
      (i: nat) => At(BlockOf(b0, from), w, EvalOff(pat.off, w) + i)
    }

    /** The block holds the bytes over and over, from offset `at` on. */
    static ghost predicate HoldsRepeated(b: BlockVal, bytes: nat -> Bits, len: nat, at: nat, size: nat, w: World)
      requires len > 0
    {
      forall o: nat :: at <= o < at + size ==> At(b, w, o) == bytes(Remainder(o - at, len))
    }

    /** The destination holds the repeated pattern if and only if the pattern's bytes do
        not change under the rotation by the destination's offset. */
    lemma FilledWithPatternIff(b0: Blocks, b: Blocks, dst: Pointer, pat: Pointer, n: Off, len: nat, littleEndian: bool, w: World, id: Id, from: Id)
      requires SameShape(b0, sizes) && SameShape(b, sizes) && len >= 4 && Has(b0, id) && Has(b0, from)
      requires Patterned(b0, b, dst, pat, n, len, littleEndian, w) && IsBlock(pat, w, from, width)
      requires IsBlock(dst, w, id, width) && RangeWithin(dst.off, n, SizeOf(b0, sizes, id), w)
      ensures var at, size, bytes := EvalOff(dst.off, w), EvalOff(n, w), PatternBytes(b0, pat, from, w);
        HoldsRepeated(BlockOf(b, id), bytes, len, at, size, w) <==> RotationInvariant(bytes, Unrolled(n), len, littleEndian, at, size)
    {
      var at, size, bytes := EvalOff(dst.off, w), EvalOff(n, w), PatternBytes(b0, pat, from, w);
      hide *;
      SmallSize(n, w);
      InRangeOf(dst.off, n, SizeOf(b0, sizes, id), w);
      PatternRepeatsIff(bytes, Unrolled(n), len, littleEndian, at, size);
      forall o: nat | at <= o < at + size
        ensures At(BlockOf(b, id), w, o) == bytes(PatternIndex(Unrolled(n), len, littleEndian, at, o))
      {
        PatternByteAt(b0, b, dst, pat, n, len, littleEndian, w, id, from, o);
      }
      RepeatedIff(BlockOf(b, id), bytes, Unrolled(n), len, littleEndian, at, size, w);
    }

    lemma PatternByteAt(b0: Blocks, b: Blocks, dst: Pointer, pat: Pointer, n: Off, len: nat, littleEndian: bool, w: World, id: Id, from: Id, o: nat)
      requires SameShape(b0, sizes) && SameShape(b, sizes) && len >= 4 && Has(b0, id) && Has(b0, from)
      requires Patterned(b0, b, dst, pat, n, len, littleEndian, w) && IsBlock(pat, w, from, width) && IsBlock(dst, w, id, width)
      requires EvalOff(dst.off, w) <= o < EvalOff(dst.off, w) + EvalOff(n, w) <= EvalOff(SizeOf(b0, sizes, id), w)
      ensures At(BlockOf(b, id), w, o) == PatternBytes(b0, pat, from, w)(PatternIndex(Unrolled(n), len, littleEndian, EvalOff(dst.off, w), o))
    {
      hide *;
      PatternedHere(b0, b, dst, pat, n, len, littleEndian, w, id, from, o);
      PatternByteOf(b0, b, dst, pat, n, len, littleEndian, w, id, from, o);
    }

    lemma PatternedHere(b0: Blocks, b: Blocks, dst: Pointer, pat: Pointer, n: Off, len: nat, littleEndian: bool, w: World, id: Id, from: Id, o: nat)
      requires SameShape(b0, sizes) && SameShape(b, sizes) && len >= 4 && Has(b0, id) && Has(b0, from)
      requires Patterned(b0, b, dst, pat, n, len, littleEndian, w) && IsBlock(pat, w, from, width) && o < EvalOff(SizeOf(b0, sizes, id), w)
      ensures PatternedAt(b0, b, dst, pat, n, len, littleEndian, w, id, from, o)
    {
      hide IsBlock, EvalOff, PatternedAt;
    }

    lemma PatternByteOf(b0: Blocks, b: Blocks, dst: Pointer, pat: Pointer, n: Off, len: nat, littleEndian: bool, w: World, id: Id, from: Id, o: nat)
      requires SameShape(b0, sizes) && SameShape(b, sizes) && len >= 4 && Has(b0, id) && Has(b0, from)
      requires PatternedAt(b0, b, dst, pat, n, len, littleEndian, w, id, from, o) && IsBlock(dst, w, id, width)
      requires EvalOff(dst.off, w) <= o < EvalOff(dst.off, w) + EvalOff(n, w)
      ensures At(BlockOf(b, id), w, o) == PatternBytes(b0, pat, from, w)(PatternIndex(Unrolled(n), len, littleEndian, EvalOff(dst.off, w), o))
    {
      hide IsBlock, At, EvalOff, PatternIndex, Unrolled;
    }

    static lemma RepeatedIff(b: BlockVal, bytes: nat -> Bits, unrolled: bool, len: nat, littleEndian: bool, at: nat, size: nat, w: World)
      requires len > 0 && forall o: nat :: at <= o < at + size ==> At(b, w, o) == bytes(PatternIndex(unrolled, len, littleEndian, at, o))
      ensures HoldsRepeated(b, bytes, len, at, size, w) <==> Repeats(bytes, unrolled, len, littleEndian, at, size)
    {
      hide At, PatternIndex, Remainder;
      if Repeats(bytes, unrolled, len, littleEndian, at, size) {
        forall o: nat | at <= o < at + size
          ensures At(b, w, o) == bytes(Remainder(o - at, len))
        {
          assert RepeatsAt(bytes, unrolled, len, littleEndian, at, o);
        }
      }
    }

    static lemma SmallSize(n: Off, w: World)
      ensures Unrolled(n) ==> EvalOff(n, w) <= 4
    {
    }

    static lemma InRangeOf(at: Off, n: Off, size: Off, w: World)
      requires RangeWithin(at, n, size, w)
      ensures EvalOff(at, w) + EvalOff(n, w) <= EvalOff(size, w)
    {
      hide EvalOff;
    }

    static lemma UnrolledIs(n: Off)
      ensures Unrolled(n) <==> n.Num? && n.n <= 4
    {
    }

    static lemma InOrderCover(data: seq<Datum>)
      requires forall i :: 0 <= i < |data| ==> data[i].idx == i && ClosedByte(data[i].val)
      ensures Covers(data)
    {
      forall o | 0 <= o < |data|
        ensures IndexFor(data, |data|, o) >= 0
      {
        assert data[o].idx == o;
      }
    }

    lemma LoadedInOrder(b0: Blocks, p: Pointer, n: nat, ss: AliasSet, left2right: bool, bytes: seq<Byte>)
      requires SameShape(b0, sizes) && BytesLoaded(b0, p, n, ss, left2right, bytes)
      ensures |bytes| == n && forall i: nat :: i < n ==> LoadsByte(b0, p, n, ss, InOrderOf(left2right, n, i), bytes[i])
    {
      hide LoadsByte;
    }

    lemma PatternClosed(b0: Blocks, p: Pointer, n: nat, ss: AliasSet, left2right: bool, bytes: seq<Byte>)
      requires SameShape(b0, sizes) && |bytes| == n && ClosedOff(p.off)
      requires forall i: nat :: i < n ==> LoadsByte(b0, p, n, ss, InOrderOf(left2right, n, i), bytes[i])
      ensures forall i :: 0 <= i < n ==> ClosedByte(bytes[i]) && ArraysClosed(bytes[i])
    {
      hide InOrderOf, ClosedOff, ClosedByte, ArraysClosed;
      forall i: nat | i < n
        ensures ClosedByte(bytes[i]) && ArraysClosed(bytes[i])
      {
        assert LoadsByte(b0, p, n, ss, InOrderOf(left2right, n, i), bytes[i]);
      }
    }

    /** The bytes of the pattern have been loaded, and these are the data stored. */
    ghost predicate PatternData(b0: Blocks, pat: Pointer, n: Off, len: nat, littleEndian: bool, ss: AliasSet, bytes: seq<Byte>, data: seq<Datum>)
      requires SameShape(b0, sizes)
    {
      && len >= 4 && |bytes| == len && |data| == (if Unrolled(n) then n.n else len)
      && (forall i :: 0 <= i < |data| ==> data[i] == Datum(i, bytes[i]) && ClosedByte(bytes[i]))
      && (forall i: nat :: i < len ==> LoadsByte(b0, pat, len, ss, InOrderOf(littleEndian, len, i), bytes[i]))
    }

    static ghost function PatternEffect(n: Off, data: seq<Datum>): Effect
      requires data != [] || Unrolled(n)
    {
      if Unrolled(n) then Writes(data, Kept) else Fills(n, Repeated(data, 0), false)
    }

    lemma PatternStored(b0: Blocks, st0: seq<StoredSet>, dst: Pointer, pat: Pointer, n: Off, len: nat, littleEndian: bool, ds: AliasSet, ss: AliasSet,
                        bytes: seq<Byte>, data: seq<Datum>)
      requires Valid() && SameShape(b0, sizes) && len >= 4 && |bytes| == len && |data| == (if Unrolled(n) then n.n else len)
      requires forall i :: 0 <= i < |data| ==> data[i] == Datum(i, bytes[i]) && ClosedByte(bytes[i])
      requires forall i: nat :: i < len ==> LoadsByte(b0, pat, len, ss, InOrderOf(littleEndian, len, i), bytes[i])
      requires Changed(b0, blocks, st0, stored, dst, ds, PatternEffect(n, data)) && Keeps(b0, st0, dst, ds, PatternEffect(n, data))
      ensures PatternDone(b0, st0, dst, pat, n, len, littleEndian, ds, ss)
    {
      var e := PatternEffect(n, data);
      assert PatternData(b0, pat, n, len, littleEndian, ss, bytes, data);
      forall w | PatternOk(b0, dst, pat, n, len, ds, ss, w)
        ensures AccessOk(dst, ds, b0, sizes, e, w, width) && Patterned(b0, blocks, dst, pat, n, len, littleEndian, w)
      {
        PatternFits(b0, dst, pat, n, len, ds, ss, data, w);
        hide PatternOk, AccessOk, Wrote, LoadsByte, PatternedAt, AllClosed, ClosedOff, IsBlock, TracksMore, Keeps, PatternEffect, PatternData;
        assert Wrote(b0, blocks, sizes, dst, e, w, width);
        forall id, from, o: nat | Has(b0, id) && Has(b0, from) && IsBlock(pat, w, from, width) && o < EvalOff(SizeOf(b0, sizes, id), w)
          ensures PatternedAt(b0, blocks, dst, pat, n, len, littleEndian, w, id, from, o)
        {
          PatternPlaced(b0, dst, pat, n, len, littleEndian, ds, ss, bytes, data, w, id, from, o);
        }
      }
      hide PatternOk, AccessOk, Patterned, Changed, LoadsByte, AllClosed, ClosedOff, PatternEffect, PatternData;
    }

    lemma PatternFits(b0: Blocks, dst: Pointer, pat: Pointer, n: Off, len: nat, ds: AliasSet, ss: AliasSet, data: seq<Datum>, w: World)
      requires SameShape(b0, sizes) && len >= 4 && |data| == (if Unrolled(n) then n.n else len) && PatternOk(b0, dst, pat, n, len, ds, ss, w)
      ensures AccessOk(dst, ds, b0, sizes, PatternEffect(n, data), w, width)
    {
      if n.Num? {
        assert EvalOff(n, w) == n.n;
      }
      hide Aliased, IsBlock, ReadOk, EvalOff;
    }

    lemma PatternPlaced(b0: Blocks, dst: Pointer, pat: Pointer, n: Off, len: nat, littleEndian: bool, ds: AliasSet, ss: AliasSet,
                        bytes: seq<Byte>, data: seq<Datum>, w: World, id: Id, from: Id, o: nat)
      requires SameShape(b0, sizes) && SameShape(blocks, sizes) && PatternData(b0, pat, n, len, littleEndian, ss, bytes, data)
      requires PatternOk(b0, dst, pat, n, len, ds, ss, w) && Wrote(b0, blocks, sizes, dst, PatternEffect(n, data), w, width)
      requires Has(b0, id) && Has(b0, from) && IsBlock(pat, w, from, width) && o < EvalOff(SizeOf(b0, sizes, id), w)
      ensures PatternedAt(b0, blocks, dst, pat, n, len, littleEndian, w, id, from, o)
    {
      var e, at := PatternEffect(n, data), EvalOff(dst.off, w);
      hide *;
      WroteHere(b0, dst, e, w, id, o);
      PatternSized(b0, pat, n, len, littleEndian, ss, bytes, data);
      PatternAddressed(n, len, data, w, at, o);
      if at <= o < at + EvalOff(n, w) {
        ReadOfPattern(b0, dst, pat, n, len, ds, ss, w);
        PatternByte(b0, pat, n, len, littleEndian, ss, bytes, data, w, from, at, o);
      }
      PatternFrom(b0, dst, pat, n, len, littleEndian, data, w, id, from, o);
    }

    /** The byte written at an offset of the range. */
    lemma PatternByte(b0: Blocks, pat: Pointer, n: Off, len: nat, littleEndian: bool, ss: AliasSet, bytes: seq<Byte>, data: seq<Datum>,
                      w: World, from: Id, at: nat, o: nat)
      requires SameShape(b0, sizes) && PatternData(b0, pat, n, len, littleEndian, ss, bytes, data) && at <= o < at + EvalOff(n, w)
      requires ReadOk(b0, pat, len, ss, w) && Has(b0, from) && IsBlock(pat, w, from, width)
      ensures len >= 4
      ensures Written(PatternEffect(n, data), at, o, w) ==
        At(BlockOf(b0, from), w, EvalOff(pat.off, w) + InOrderOf(littleEndian, len, PatternPhase(Unrolled(n), len, at, o)))
    {
      hide *;
      PatternSized(b0, pat, n, len, littleEndian, ss, bytes, data);
      PatternWritten(n, len, bytes, data, w, at, o);
      PatternRead(b0, pat, n, len, littleEndian, ss, bytes, data, w, from, PatternPhase(Unrolled(n), len, at, o));
    }

    lemma WroteHere(b0: Blocks, p: Pointer, e: Effect, w: World, id: Id, o: nat)
      requires SameShape(b0, sizes) && SameShape(blocks, sizes) && Wrote(b0, blocks, sizes, p, e, w, width)
      requires Has(b0, id) && o < EvalOff(SizeOf(b0, sizes, id), w)
      ensures Has(blocks, id) && WroteAt(b0, blocks, p, e, w, width, id, o)
    {
      hide EvalOff, WroteAt;
    }

    lemma PatternSized(b0: Blocks, pat: Pointer, n: Off, len: nat, littleEndian: bool, ss: AliasSet, bytes: seq<Byte>, data: seq<Datum>)
      requires SameShape(b0, sizes) && PatternData(b0, pat, n, len, littleEndian, ss, bytes, data)
      ensures len >= 4 && |bytes| == len && |data| == (if Unrolled(n) then n.n else len)
      ensures forall i :: 0 <= i < |data| ==> data[i] == Datum(i, bytes[i]) && ClosedByte(bytes[i])
    {
      hide ClosedByte, LoadsByte;
    }

    lemma ReadOfPattern(b0: Blocks, dst: Pointer, pat: Pointer, n: Off, len: nat, ds: AliasSet, ss: AliasSet, w: World)
      requires SameShape(b0, sizes) && PatternOk(b0, dst, pat, n, len, ds, ss, w)
      ensures ReadOk(b0, pat, len, ss, w)
    {
      hide ReadOk, IsBlock;
    }

    lemma PatternFrom(b0: Blocks, dst: Pointer, pat: Pointer, n: Off, len: nat, littleEndian: bool, data: seq<Datum>, w: World, id: Id, from: Id, o: nat)
      requires SameShape(b0, sizes) && SameShape(blocks, sizes) && Has(b0, id) && Has(b0, from) && len >= 4 && (data != [] || Unrolled(n))
      requires var e, at := PatternEffect(n, data), EvalOff(dst.off, w);
        && WroteAt(b0, blocks, dst, e, w, width, id, o) && (Addressed(e, at, o, w) <==> at <= o < at + EvalOff(n, w)) && !Forgets(e)
        && (at <= o < at + EvalOff(n, w) ==>
              Written(e, at, o, w) == At(BlockOf(b0, from), w, EvalOff(pat.off, w) + InOrderOf(littleEndian, len, PatternPhase(Unrolled(n), len, at, o))))
      ensures PatternedAt(b0, blocks, dst, pat, n, len, littleEndian, w, id, from, o)
    {
      hide PatternEffect, IsBlock, At, EvalOff, Addressed, Written, PatternPhase, InOrderOf, Unrolled;
    }

    static lemma PatternAddressed(n: Off, len: nat, data: seq<Datum>, w: World, at: nat, o: nat)
      requires len >= 4 && |data| == (if Unrolled(n) then n.n else len)
      ensures Addressed(PatternEffect(n, data), at, o, w) <==> at <= o < at + EvalOff(n, w)
      ensures !Forgets(PatternEffect(n, data))
    {
      if n.Num? {
        assert EvalOff(n, w) == n.n;
      }
    }

    static lemma PatternWritten(n: Off, len: nat, bytes: seq<Byte>, data: seq<Datum>, w: World, at: nat, o: nat)
      requires len >= 4 && |bytes| == len && |data| == (if Unrolled(n) then n.n else len) && at <= o < at + EvalOff(n, w)
      requires forall i :: 0 <= i < |data| ==> data[i] == Datum(i, bytes[i]) && ClosedByte(bytes[i])
      ensures var k := PatternPhase(Unrolled(n), len, at, o);
        k < len && Written(PatternEffect(n, data), at, o, w) == EvalByte(bytes[k], w)
    {
      var k := PatternPhase(Unrolled(n), len, at, o);
      if Unrolled(n) {
        assert EvalOff(n, w) == n.n;
        IndexInOrder(data, k);
      } else {
        RepeatedMeans(data, 0, w.(bound := o), k);
        ClosedByteSame(bytes[k], w, o);
      }
      hide EvalByte, ClosedByte, Repeated;
    }

    static lemma IndexInOrder(data: seq<Datum>, k: nat)
      requires k < |data| && forall i :: 0 <= i < |data| ==> data[i].idx == i
      ensures IndexFor(data, |data|, k) == k
    {
      assert data[k].idx == k;
    }

    lemma PatternRead(b0: Blocks, pat: Pointer, n: Off, len: nat, littleEndian: bool, ss: AliasSet, bytes: seq<Byte>, data: seq<Datum>, w: World, from: Id, k: nat)
      requires SameShape(b0, sizes) && PatternData(b0, pat, n, len, littleEndian, ss, bytes, data) && k < len
      requires ReadOk(b0, pat, len, ss, w) && Has(b0, from) && IsBlock(pat, w, from, width)
      ensures EvalByte(bytes[k], w) == At(BlockOf(b0, from), w, EvalOff(pat.off, w) + InOrderOf(littleEndian, len, k))
    {
      assert LoadsByte(b0, pat, len, ss, InOrderOf(littleEndian, len, k), bytes[k]);
      hide InOrderOf, IsBlock, At, EvalByte, EvalOff, ReadOk, ClosedByte, ArraysClosed;
    }

    // ----- merging -----------------------------------------------------------

    /** Both memories belong to the same function. */
    ghost predicate SameFunction(other: Memory) {
      other.width == width && other.sizes == sizes && other.noWrite == noWrite && other.initial == initial
    }

    /** `Memory::mkIf`, into the memory of the first side. */
    method MergeWith(cond: Cond, els: Memory)
      requires Valid() && els.Valid() && SameFunction(els) && els != this && FrozenHere() && els.FrozenHere()
      modifies this
      ensures Valid() && FrozenHere()
      ensures forall id, w, o: nat :: Has(blocks, id) ==> MergedAt(cond, old(blocks), els.blocks, blocks, id, w, o)
      ensures forall w: World :: (if Holds(cond, w.v) then old(TracksHere(w)) else els.TracksHere(w)) ==> TracksHere(w)
      ensures |stored| == |old(stored)| == |els.stored| && forall i: nat :: i < |stored| ==> stored[i] == MergedSet(old(stored)[i], els.stored[i])
    {
      ghost var b0, st0 := blocks, stored;
      var non := MergeNonlocal(cond, els);
      var loc := MergeLocal(cond, els);
      var st := MergeStored(els);
      blocks := Blocks(loc, non);
      stored := st;
      MergeDone(cond, b0, els, st0);
    }

    static ghost predicate MergedAt(cond: Cond, a: Blocks, b: Blocks, m: Blocks, id: Id, w: World, o: nat)
      requires Has(m, id) && |a.loc| == |b.loc| == |m.loc| && |a.non| == |b.non| == |m.non|
    {
      At(BlockOf(m, id), w, o) == if Holds(cond, w.v) then At(BlockOf(a, id), w, o) else At(BlockOf(b, id), w, o)
    }

    method MergeNonlocal(cond: Cond, els: Memory) returns (non: seq<BlockVal>)
      requires Valid() && els.Valid() && SameFunction(els)
      ensures |non| == |blocks.non|
      ensures forall i :: 0 <= i < |non| ==> non[i] == if noWrite[i] then blocks.non[i] else MkBlockIf(cond, blocks.non[i], els.blocks.non[i])
    {
      non := blocks.non;
      hide MkBlockIf, Closed, ClosedOff, AllClosed;
      var bid: nat := 0;
      while bid < |non|
        invariant bid <= |non| == |blocks.non|
        invariant forall i :: 0 <= i < |non| ==>
          non[i] == if noWrite[i] || i >= bid then blocks.non[i] else MkBlockIf(cond, blocks.non[i], els.blocks.non[i])
      {
        if !noWrite[bid] {
          non := non[bid := MkBlockIf(cond, non[bid], els.blocks.non[bid])];
        }
        bid := bid + 1;
      }
    }

    method MergeLocal(cond: Cond, els: Memory) returns (loc: seq<BlockVal>)
      requires Valid() && els.Valid() && SameFunction(els)
      ensures |loc| == |blocks.loc| && forall i :: 0 <= i < |loc| ==> loc[i] == MkBlockIf(cond, blocks.loc[i], els.blocks.loc[i])
    {
      loc := blocks.loc;
      hide MkBlockIf, Closed, ClosedOff, AllClosed;
      var bid: nat := 0;
      while bid < |loc|
        invariant bid <= |loc| == |blocks.loc|
        invariant forall i :: 0 <= i < |loc| ==> loc[i] == if i >= bid then blocks.loc[i] else MkBlockIf(cond, blocks.loc[i], els.blocks.loc[i])
      {
        loc := loc[bid := MkBlockIf(cond, loc[bid], els.blocks.loc[bid])];
        bid := bid + 1;
      }
    }

    method MergeStored(els: Memory) returns (st: seq<StoredSet>)
      requires Valid() && els.Valid() && SameFunction(els)
      ensures |st| == |stored| && forall i :: 0 <= i < |st| ==> st[i] == MergedSet(stored[i], els.stored[i])
    {
      st := stored;
      hide MergedSet, Closed, ClosedOff, AllClosed;
      var i: nat := 0;
      while i < |st|
        invariant i <= |st| == |stored|
        invariant forall x :: 0 <= x < |st| ==> st[x] == if x >= i then stored[x] else MergedSet(stored[x], els.stored[x])
      {
        st := st[i := MergedSet(st[i], els.stored[i])];
        i := i + 1;
      }
    }

    /** What the merge promises, from the blocks and sets it has built. */
    lemma MergeDone(cond: Cond, b0: Blocks, els: Memory, st0: seq<StoredSet>)
      requires els.Valid() && SameFunction(els) && els.FrozenHere() && Frozen(b0.non, initial, noWrite) && AllClosed(b0) && SameShape(b0, sizes)
      requires SameShape(blocks, sizes) && |st0| == |stored| == |b0.non| && ClosedByte(poison)
      requires forall i :: 0 <= i < |blocks.non| ==>
        blocks.non[i] == if noWrite[i] then b0.non[i] else MkBlockIf(cond, b0.non[i], els.blocks.non[i])
      requires forall i :: 0 <= i < |blocks.loc| ==> blocks.loc[i] == MkBlockIf(cond, b0.loc[i], els.blocks.loc[i])
      requires forall i :: 0 <= i < |stored| ==> stored[i] == MergedSet(st0[i], els.stored[i])
      ensures Valid() && FrozenHere()
      ensures forall id, w, o: nat :: Has(blocks, id) ==> MergedAt(cond, b0, els.blocks, blocks, id, w, o)
      ensures forall w: World :: (if Holds(cond, w.v) then Tracks(b0.non, initial, sizes.non, st0, w) else els.TracksHere(w)) ==> TracksHere(w)
    {
      MergeClosed(cond, b0, els);
      forall id, w, o: nat | Has(blocks, id)
        ensures MergedAt(cond, b0, els.blocks, blocks, id, w, o)
      {
        hide MkBlockIf, At, Holds, Closed, ClosedOff, AllClosed, MergedSet;
        MkBlockIfMeans(cond, BlockOf(b0, id), BlockOf(els.blocks, id), w, o);
      }
      forall w: World | if Holds(cond, w.v) then Tracks(b0.non, initial, sizes.non, st0, w) else els.TracksHere(w)
        ensures TracksHere(w)
      {
        hide MkBlockIf, Holds, Tracks, Closed, ClosedOff, AllClosed, MergedSet;
        TracksMerge(cond, b0.non, els.blocks.non, blocks.non, initial, sizes.non, noWrite, st0, els.stored, stored, w);
      }
    }

    lemma MergeClosed(cond: Cond, b0: Blocks, els: Memory)
      requires SameShape(b0, sizes) && SameShape(blocks, sizes) && SameShape(els.blocks, sizes) && AllClosed(b0) && AllClosed(els.blocks)
      requires |noWrite| == |blocks.non|
      requires forall i :: 0 <= i < |blocks.non| ==>
        blocks.non[i] == if noWrite[i] then b0.non[i] else MkBlockIf(cond, b0.non[i], els.blocks.non[i])
      requires forall i :: 0 <= i < |blocks.loc| ==> blocks.loc[i] == MkBlockIf(cond, b0.loc[i], els.blocks.loc[i])
      ensures AllClosed(blocks)
    {
      hide MkBlockIf, Closed;
      forall i | 0 <= i < |blocks.non|
        ensures Closed(blocks.non[i])
      {
        BlockIfClosed(cond, b0.non[i], els.blocks.non[i]);
      }
      forall i | 0 <= i < |blocks.loc|
        ensures Closed(blocks.loc[i])
      {
        BlockIfClosed(cond, b0.loc[i], els.blocks.loc[i]);
      }
    }

    /** The memory at the end of initialization: nothing has been stored yet. */
    constructor AfterInit(width: nat, sizes: Sizes, noWrite: seq<bool>, poison: Byte, blocks: Blocks)
      requires SameShape(blocks, sizes) && AllClosed(blocks) && ClosedByte(poison) && |noWrite| == |blocks.non|
      requires (forall i :: 0 <= i < |sizes.loc| ==> ClosedOff(sizes.loc[i])) && (forall i :: 0 <= i < |sizes.non| ==> ClosedOff(sizes.non[i]))
      ensures Valid() && FrozenHere() && forall w :: TracksHere(w)
      ensures this.blocks == blocks && initial == blocks.non && forall i: nat :: i < |stored| ==> stored[i] == StoredSet({}, false)
      ensures this.width == width && this.sizes == sizes && this.noWrite == noWrite
    {
      this.width, this.sizes, this.noWrite, this.poison, this.blocks := width, sizes, noWrite, poison, blocks;
      initial := blocks.non;
      stored := seq(|blocks.non|, _ => StoredSet({}, false));
    }
  }

  // ----- which byte of a pattern -----------------------------------------------

  /** Whether the bytes are stored one by one. */
  predicate Unrolled(n: Off) {
    n.Num? && n.n <= 4
  }

  /** The position of the loaded byte that ends up at offset `o` of the block: relative to
      the pointer if the bytes are stored one by one, but to the block in a lambda. */
  function PatternPhase(unrolled: bool, len: nat, at: nat, o: nat): nat
    requires len > 0 && at <= o
  {
    if unrolled then o - at else Remainder(o, len)
  }

  function Remainder(x: nat, len: nat): nat
    requires len > 0
  {
    x % len
  }

  /** Loads for a little-endian machine go from low to high addresses. */
  function InOrderOf(left2right: bool, n: nat, i: nat): nat {
    if left2right || i >= n then i else n - 1 - i
  }

  function PatternIndex(unrolled: bool, len: nat, littleEndian: bool, at: nat, o: nat): nat
    requires len > 0 && at <= o
  {
    InOrderOf(littleEndian, len, PatternPhase(unrolled, len, at, o))
  }

  ghost predicate RepeatsAt(pattern: nat -> Bits, unrolled: bool, len: nat, littleEndian: bool, at: nat, o: nat)
    requires len > 0 && at <= o
  {
    pattern(PatternIndex(unrolled, len, littleEndian, at, o)) == pattern(Remainder(o - at, len))
  }

  /** The range holds the pattern over and over, from the pointer on. */
  ghost predicate Repeats(pattern: nat -> Bits, unrolled: bool, len: nat, littleEndian: bool, at: nat, n: nat)
    requires len > 0
  {
    forall o: nat :: at <= o < at + n ==> RepeatsAt(pattern, unrolled, len, littleEndian, at, o)
  }

  ghost predicate RotatedAt(pattern: nat -> Bits, unrolled: bool, len: nat, littleEndian: bool, at: nat, i: nat)
    requires len > 0
  {
    pattern(InOrderOf(littleEndian, len, if unrolled then i else Remainder(i + Remainder(at, len), len))) == pattern(i)
  }

  /** The first `n` bytes of the pattern equal those of the pattern read in the order of
      the loads and, unless they are stored one by one, rotated by the pointer's offset. */
  ghost predicate RotationInvariant(pattern: nat -> Bits, unrolled: bool, len: nat, littleEndian: bool, at: nat, n: nat)
    requires len > 0
  {
    forall i: nat :: i < n && i < len ==> RotatedAt(pattern, unrolled, len, littleEndian, at, i)
  }

  /** A stored pattern is the repeated pattern if and only if, as far as it is stored, it
      does not change when it is rotated by the pointer's offset in its block. */
  lemma PatternRepeatsIff(pattern: nat -> Bits, unrolled: bool, len: nat, littleEndian: bool, at: nat, n: nat)
    requires len > 0 && (unrolled ==> n <= len)
    ensures Repeats(pattern, unrolled, len, littleEndian, at, n) <==> RotationInvariant(pattern, unrolled, len, littleEndian, at, n)
  {
    hide InOrderOf, Remainder;
    if Repeats(pattern, unrolled, len, littleEndian, at, n) {
      forall i: nat | i < n && i < len
        ensures RotatedAt(pattern, unrolled, len, littleEndian, at, i)
      {
        var o := at + i;
        assert RepeatsAt(pattern, unrolled, len, littleEndian, at, o);
        PhaseOf(len, at, o);
        SmallRemainder(i, len);
      }
    }
    if RotationInvariant(pattern, unrolled, len, littleEndian, at, n) {
      forall o: nat | at <= o < at + n
        ensures RepeatsAt(pattern, unrolled, len, littleEndian, at, o)
      {
        var i := Remainder(o - at, len);
        PhaseOf(len, at, o);
        if unrolled {
          SmallRemainder(o - at, len);
        }
        assert RotatedAt(pattern, unrolled, len, littleEndian, at, i);
      }
    }
  }

  lemma SmallRemainder(i: nat, len: nat)
    requires i < len
    ensures Remainder(i, len) == i
  {
  }

  lemma PhaseOf(len: nat, at: nat, o: nat)
    requires len > 0 && at <= o
    ensures var i := Remainder(o - at, len);
      i < len && i <= o - at && Remainder(o, len) == Remainder(i + Remainder(at, len), len)
  {
    ModOfSums(o - at, at, len);
  }

  lemma ModOfSums(x: nat, y: nat, l: nat)
    requires l > 0
    ensures (y + x) % l == (x % l + y % l) % l
  {
    var a, b := x / l, y / l;
    var r := x % l + y % l;
    assert x == a * l + x % l && y == b * l + y % l;
    assert x + y == (a + b + r / l) * l + r % l by {
      assert (a + b + r / l) * l == a * l + b * l + (r / l) * l;
    }
    RemainderUnique(x + y, a + b + r / l, r % l, l);
  }

  lemma RemainderUnique(x: nat, q: int, r: nat, l: nat)
    requires l > 0 && x == q * l + r && r < l
    ensures x % l == r
  {
    var q', r' := x / l, x % l;
    assert q' * l + r' == q * l + r;
    assert (q' - q) * l == q' * l - q * l && (q - q') * l == q * l - q' * l;
    if q' > q {
      MulAtLeast(q' - q, l);
    } else if q' < q {
      MulAtLeast(q - q', l);
    }
  }

  lemma MulAtLeast(k: int, l: nat)
    requires k >= 1
    ensures k * l >= l
  {
  }
}
