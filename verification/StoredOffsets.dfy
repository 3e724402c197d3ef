/** The record of stored offsets per non-local block: it covers every offset at which
    the block differs from its initial contents, so refinement may skip the others
    (ir/memory.cpp). */
module StoredOffsets {
  import opened Terms
  import opened Binary
  import opened MemTerms
  import opened Aliasing
  import opened BlockStore
  import opened BlockMemory

  const MAX_STORED_PTRS_SET := 3

  /** The offsets stored to, or all of them. */
  datatype StoredSet = StoredSet(offs: set<Off>, all: bool)

  ghost predicate TrackedIn(s: StoredSet, o: nat, w: World) {
    s.all || exists f :: f in s.offs && EvalOff(f, w) == o
  }

  ghost predicate Tracked(st: seq<StoredSet>, i: nat, o: nat, w: World) {
    i < |st| && TrackedIn(st[i], o, w)
  }

  /** `record_stored_pointer`. */
  function Recorded(s: StoredSet, off: Off): StoredSet {
    if s.all then s
    else if |s.offs + {off}| > MAX_STORED_PTRS_SET then StoredSet({}, true)
    else StoredSet(s.offs + {off}, false)
  }

  /** What merging two memories does to the sets of one block. */
  function MergedSet(a: StoredSet, b: StoredSet): StoredSet {
    var offs := a.offs + b.offs;
    if a.all || b.all || |offs| > MAX_STORED_PTRS_SET then StoredSet({}, true) else StoredSet(offs, false)
  }

  /** Several offsets are recorded, one after the other. */
  function RecordedAll(s: StoredSet, offs: seq<Off>): StoredSet {
    if offs == [] then s else Recorded(RecordedAll(s, offs[..|offs| - 1]), offs[|offs| - 1])
  }

  function SetOf(offs: seq<Off>): set<Off> {
    set f | f in offs
  }

  /** What recording gives, in all: these very offsets up to three of them, and everything
      from the fourth on. */
  ghost predicate RecordOf(s: StoredSet, offs: set<Off>) {
    s == if |offs| <= MAX_STORED_PTRS_SET then StoredSet(offs, false) else StoredSet({}, true)
  }

  lemma SmallerSet(a: set<Off>, b: set<Off>)
    requires a <= b
    ensures |a| <= |b|
  {
    assert b == a + (b - a);
  }

  lemma RecordOne(s: StoredSet, offs: set<Off>, f: Off)
    requires RecordOf(s, offs)
    ensures RecordOf(Recorded(s, f), offs + {f})
  {
    SmallerSet(offs, offs + {f});
  }

  lemma {:induction false} RecordedExactly(s: StoredSet, x: set<Off>, offs: seq<Off>)
    requires RecordOf(s, x)
    ensures RecordOf(RecordedAll(s, offs), x + SetOf(offs))
    decreases |offs|
  {
    if offs == [] {
      assert SetOf(offs) == {} && x + {} == x;
    } else {
      var before, last := offs[..|offs| - 1], offs[|offs| - 1];
      RecordedExactly(s, x, before);
      RecordOne(RecordedAll(s, before), x + SetOf(before), last);
      assert x + SetOf(offs) == x + SetOf(before) + {last};
    }
  }

  /** Merging gives the record of the stores on both sides. */
  lemma MergedExactly(a: StoredSet, b: StoredSet, x: set<Off>, y: set<Off>)
    requires RecordOf(a, x) && RecordOf(b, y)
    ensures RecordOf(MergedSet(a, b), x + y)
  {
    SmallerSet(x, x + y);
    SmallerSet(y, x + y);
  }

  lemma RecordedTracks(s: StoredSet, off: Off, o: nat, w: World)
    ensures TrackedIn(s, o, w) || EvalOff(off, w) == o ==> TrackedIn(Recorded(s, off), o, w)
  {
    hide EvalOff;
    if TrackedIn(s, o, w) && !s.all {
      var f :| f in s.offs && EvalOff(f, w) == o;
      assert f in s.offs + {off};
    } else if EvalOff(off, w) == o {
      assert off in s.offs + {off};
    }
  }

  lemma MergedTracks(a: StoredSet, b: StoredSet, o: nat, w: World)
    ensures TrackedIn(a, o, w) || TrackedIn(b, o, w) ==> TrackedIn(MergedSet(a, b), o, w)
  {
    hide EvalOff;
    if TrackedIn(a, o, w) && !a.all {
      var f :| f in a.offs && EvalOff(f, w) == o;
      assert f in a.offs + b.offs;
    } else if TrackedIn(b, o, w) && !b.all {
      var f :| f in b.offs && EvalOff(f, w) == o;
      assert f in a.offs + b.offs;
    }
  }

  /** Wherever a non-local block differs from its initial contents, the offset is tracked. */
  ghost predicate Tracks(non: seq<BlockVal>, initial: seq<BlockVal>, sizes: seq<Off>, st: seq<StoredSet>, w: World)
  {
    && |non| == |initial| == |sizes| == |st|
    && forall i: nat, o: nat :: i < |non| && o < EvalOff(sizes[i], w) && !Tracked(st, i, o, w) ==> At(non[i], w, o) == At(initial[i], w, o)
  }

  /** Nothing that was tracked is dropped, and what the write addresses is tracked. */
  ghost predicate TracksMore(st0: seq<StoredSet>, st: seq<StoredSet>, p: Pointer, e: Effect, w: World, width: nat) {
    && |st| == |st0|
    && forall i: nat, o: nat :: i < |st| ==> TracksMoreAt(st0, st, p, e, w, width, i, o)
  }

  ghost predicate TracksMoreAt(st0: seq<StoredSet>, st: seq<StoredSet>, p: Pointer, e: Effect, w: World, width: nat, i: nat, o: nat) {
    Tracked(st0, i, o, w) || (IsBlock(p, w, Id(false, i), width) && Addressed(e, EvalOff(p.off, w), o, w)) ==> Tracked(st, i, o, w)
  }

  lemma TracksWrite(b0: Blocks, b: Blocks, sizes: Sizes, initial: seq<BlockVal>, st0: seq<StoredSet>, st: seq<StoredSet>,
                    p: Pointer, e: Effect, w: World, width: nat)
    requires SameShape(b0, sizes) && SameShape(b, sizes) && Tracks(b0.non, initial, sizes.non, st0, w)
    requires Wrote(b0, b, sizes, p, e, w, width) && !Forgets(e) && TracksMore(st0, st, p, e, w, width)
    ensures Tracks(b.non, initial, sizes.non, st, w)
  {
    hide At, EvalOff, TrackedIn, IsBlock, Addressed, Written, Tracked;
    forall i: nat, o: nat | i < |b.non| && o < EvalOff(sizes.non[i], w) && !Tracked(st, i, o, w)
      ensures At(b.non[i], w, o) == At(initial[i], w, o)
    {
      var id := Id(false, i);
      assert Has(b0, id) && WroteAt(b0, b, p, e, w, width, id, o);
      assert TracksMoreAt(st0, st, p, e, w, width, i, o);
    }
  }

  /** Blocks that may never be written are skipped by merges. */
  ghost predicate Frozen(non: seq<BlockVal>, initial: seq<BlockVal>, noWrite: seq<bool>) {
    |non| == |initial| == |noWrite| && forall i :: 0 <= i < |non| && noWrite[i] ==> non[i] == initial[i]
  }

  /** The merged memory tracks what the side that applies tracks. */
  lemma TracksMerge(cond: Cond, a: seq<BlockVal>, b: seq<BlockVal>, m: seq<BlockVal>, initial: seq<BlockVal>, sizes: seq<Off>, noWrite: seq<bool>,
                    sa: seq<StoredSet>, sb: seq<StoredSet>, st: seq<StoredSet>, w: World)
    requires if Holds(cond, w.v) then Tracks(a, initial, sizes, sa, w) else Tracks(b, initial, sizes, sb, w)
    requires |a| == |b| == |m| == |st| == |sa| == |sb| == |initial| && Frozen(a, initial, noWrite) && Frozen(b, initial, noWrite)
    requires forall i :: 0 <= i < |m| ==> m[i] == if noWrite[i] then a[i] else MkBlockIf(cond, a[i], b[i])
    requires forall i :: 0 <= i < |m| ==> st[i] == MergedSet(sa[i], sb[i])
    ensures Tracks(m, initial, sizes, st, w)
  {
    hide At, EvalOff, TrackedIn, Holds, MkBlockIf, MergedSet;
    forall i: nat, o: nat | i < |m| && o < EvalOff(sizes[i], w) && !Tracked(st, i, o, w)
      ensures At(m[i], w, o) == At(initial[i], w, o)
    {
      MkBlockIfMeans(cond, a[i], b[i], w, o);
      MergedTracks(sa[i], sb[i], o, w);
      assert !Tracked(sa, i, o, w) && !Tracked(sb, i, o, w);
    }
  }

  // ----- refinement ----------------------------------------------------------

  /** The offsets of one block that refinement looks at. */
  datatype Plan = Plan(offs: set<Off>, all: bool)

  /** The choice in `Memory::refined`. */
  function PlanFor(src: StoredSet, tgt: StoredSet, size: Off): Plan {
    if !src.all && src.offs == {} && !tgt.all && tgt.offs == {} then Plan({}, false)
    else if size.Num? && size.n <= 8 then Plan({}, true)
    else if src.all || tgt.all || |src.offs + tgt.offs| > MAX_STORED_PTRS_SET then Plan({}, true)
    else Plan(src.offs + tgt.offs, false)
  }

  ghost predicate Checked(pl: Plan, o: nat, w: World) {
    pl.all || exists f :: f in pl.offs && EvalOff(f, w) == o
  }

  /** What is checked, in all: nothing if neither side stored, everything in a small block
      or if more than three offsets were stored to, and else the offsets stored to. */
  lemma PlanExactly(src: StoredSet, tgt: StoredSet, size: Off, x: set<Off>, y: set<Off>)
    requires RecordOf(src, x) && RecordOf(tgt, y)
    ensures PlanFor(src, tgt, size) ==
      if x == {} && y == {} then Plan({}, false)
      else if (size.Num? && size.n <= 8) || |x + y| > MAX_STORED_PTRS_SET then Plan({}, true)
      else Plan(x + y, false)
  {
    SmallerSet(x, x + y);
    SmallerSet(y, x + y);
  }

  /** What is not checked is tracked by neither side. */
  lemma UncheckedIsUntracked(src: StoredSet, tgt: StoredSet, size: Off, o: nat, w: World)
    ensures !Checked(PlanFor(src, tgt, size), o, w) ==> !TrackedIn(src, o, w) && !TrackedIn(tgt, o, w)
  {
    hide EvalOff;
    var pl := PlanFor(src, tgt, size);
    forall f | f in src.offs + tgt.offs && !pl.all
      ensures f in pl.offs
    {
    }
  }

  /** Checking the planned offsets is enough: a reflexive relation that holds between
      source and target bytes there holds at every offset of the block. */
  lemma PlanSuffices(refined: (Bits, Bits) -> bool, src: seq<BlockVal>, tgt: seq<BlockVal>, initial: seq<BlockVal>, sizes: seq<Off>,
                     ss: seq<StoredSet>, ts: seq<StoredSet>, i: nat, o: nat, w: World)
    requires Tracks(src, initial, sizes, ss, w) && Tracks(tgt, initial, sizes, ts, w)
    requires i < |src| && o < EvalOff(sizes[i], w) && forall x :: refined(x, x)
    requires Checked(PlanFor(ss[i], ts[i], sizes[i]), o, w) ==> refined(At(src[i], w, o), At(tgt[i], w, o))
    ensures refined(At(src[i], w, o), At(tgt[i], w, o))
  {
    UncheckedIsUntracked(ss[i], ts[i], sizes[i], o, w);
    hide At, EvalOff, TrackedIn, Checked, PlanFor;
    if !Checked(PlanFor(ss[i], ts[i], sizes[i]), o, w) {
      assert !Tracked(ss, i, o, w) && !Tracked(ts, i, o, w);
    }
  }
}
