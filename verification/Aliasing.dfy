/** Which blocks a pointer may refer to, and the guards under which an access touches
    them: `AliasSet` and `Memory::access` (ir/memory.cpp). */
module Aliasing {
  import opened Terms
  import opened MemTerms
  import opened Binary

  /** One flag per local and per non-local block. */
  datatype AliasSet = AliasSet(loc: seq<bool>, non: seq<bool>)

  datatype Id = Id(local: bool, i: nat)

  function Flags(s: AliasSet, local: bool): seq<bool> {
    if local then s.loc else s.non
  }

  predicate Member(s: AliasSet, id: Id) {
    id.i < |Flags(s, id.local)| && Flags(s, id.local)[id.i]
  }

  // ----- symbolic membership -------------------------------------------------

  /** The first block that is not in the set. */
  function FirstGap(v: seq<bool>): (i: nat)
    ensures i <= |v| && (i < |v| ==> !v[i]) && forall j :: 0 <= j < i ==> v[j]
  {
    if v == [] || !v[0] then 0 else 1 + FirstGap(v[1..])
  }

  /** No member follows the first gap. */
  ghost predicate NoGap(v: seq<bool>) {
    forall j :: FirstGap(v) <= j < |v| ==> !v[j]
  }

  /** `AliasSet::isFullUpToAlias`, with the index that the second scan tests. */
  method IsFullUpToAlias(v: seq<bool>) returns (upto: int)
    ensures upto == FirstGap(v) - 1
  {
    var i := 0;
    while i != |v|
      invariant i <= |v| && forall j :: 0 <= j < i ==> v[j]
    {
      if !v[i] {
        break;
      }
      i := i + 1;
    }
    var i2 := i;
    while i2 != |v|
      invariant i <= i2 <= |v|
    {
      if v[i] {
        assert false;
        return -1;
      }
      i2 := i2 + 1;
    }
    upto := i - 1;
  }

  /** Whether the condition built by `mayAlias(islocal, bid)` holds of block `b`. */
  predicate MayAliasHolds(v: seq<bool>, b: nat) {
    if FirstGap(v) > 0 then b < FirstGap(v) else b < |v| && v[b]
  }

  /** The condition says exactly which blocks are members if and only if the set does
      not start with a run of members that is followed by a gap and further members. */
  lemma MayAliasExactIff(v: seq<bool>)
    ensures (forall b: nat :: b < |v| ==> (MayAliasHolds(v, b) <==> v[b])) <==> (v == [] || !v[0] || NoGap(v))
  {
    if v != [] && v[0] && !NoGap(v) {
      var j: nat :| FirstGap(v) <= j < |v| && v[j];
      assert !MayAliasHolds(v, j);
    }
  }

  /** A set with a gap: block 2 is a member, but the condition excludes it. */
  lemma MayAliasMissesBehindGap()
    ensures !MayAliasHolds([true, false, true], 2)
  {
    assert FirstGap([true, false, true]) == 1 + FirstGap([false, true]) by {
      assert [true, false, true][1..] == [false, true];
    }
  }

  /** `ule` compares the block number `bid` with a constant. */
  ghost predicate AtMost(ule: nat -> Cond, bid: Term, width: nat) {
    forall n, b: nat, v: Valuation :: b < Pow2(width) && Eval(bid, v) == Bin(b, width) ==> (Holds(ule(n), v) <==> b <= n)
  }

  /** Of every block, the condition holds exactly if `MayAliasHolds` does. */
  ghost predicate SaysMayAlias(ret: Cond, bid: Term, width: nat, v: seq<bool>) {
    forall b: nat, w: Valuation :: b < Pow2(width) && Eval(bid, w) == Bin(b, width) ==> (Holds(ret, w) <==> MayAliasHolds(v, b))
  }

  /** The condition holds of the members among the first `i` blocks. */
  ghost predicate SaysMember(ret: Cond, bid: Term, width: nat, v: seq<bool>, i: nat) {
    forall b: nat, w: Valuation :: b < Pow2(width) && Eval(bid, w) == Bin(b, width) ==> (Holds(ret, w) <==> b < i && b < |v| && v[b])
  }

  /** `AliasSet::mayAlias` for a symbolic block number. */
  method MayAlias(v: seq<bool>, ule: nat -> Cond, bid: Term, width: nat) returns (ret: Cond)
    requires |v| <= Pow2(width) && AtMost(ule, bid, width)
    ensures SaysMayAlias(ret, bid, width, v)
  {
    hide Eval, Holds, Bin, Pow2, MkOr;
    var upto := IsFullUpToAlias(v);
    if upto >= 0 {
      return ule(upto);
    }
    ret := False;
    var i: nat := 0;
    NothingMayAlias(bid, width, v);
    while i < |v|
      invariant i <= |v| && SaysMember(ret, bid, width, v, i)
    {
      hide SaysMember;
      var c := if v[i] then Equal(bid, Lit(Bin(i, width))) else False;
      MayAliasNext(v, bid, width, ret, c, i);
      if v[i] {
        ret := MkOr(ret, Equal(bid, Lit(Bin(i, width))));
      }
      i := i + 1;
    }
  }

  lemma NothingMayAlias(bid: Term, width: nat, v: seq<bool>)
    ensures SaysMember(False, bid, width, v, 0)
  {
    forall w: Valuation
      ensures !Holds(False, w)
    {
      ConstantsMean(w);
    }
  }

  lemma MayAliasNext(v: seq<bool>, bid: Term, width: nat, ret: Cond, c: Cond, i: nat)
    requires i < |v| <= Pow2(width) && SaysMember(ret, bid, width, v, i) && c == if v[i] then Equal(bid, Lit(Bin(i, width))) else False
    ensures SaysMember(if v[i] then MkOr(ret, c) else ret, bid, width, v, i + 1)
  {
    hide Eval, Holds, MkOr, Bin, Pow2;
    forall b: nat, w: Valuation | b < Pow2(width) && Eval(bid, w) == Bin(b, width)
      ensures Holds(if v[i] then MkOr(ret, c) else ret, w) <==> b < i + 1 && b < |v| && v[b]
    {
      if v[i] {
        OrMeans(ret, c, w);
        NumberIs(bid, width, b, i, w);
      }
    }
  }

  lemma NumberIs(bid: Term, width: nat, b: nat, i: nat, w: Valuation)
    requires b < Pow2(width) && i < Pow2(width) && Eval(bid, w) == Bin(b, width)
    ensures Holds(Equal(bid, Lit(Bin(i, width))), w) <==> b == i
  {
    if Bin(b, width) == Bin(i, width) {
      BinInjective(b, i, width);
    }
    hide Bin, Pow2;
  }

  // ----- guards --------------------------------------------------------------

  datatype Pointer = Pointer(loc: Term, bid: Term, off: Off)

  ghost predicate WellPtr(p: Pointer, w: World, width: nat) {
    |Eval(p.loc, w.v)| == 1 && |Eval(p.bid, w.v)| == width
  }

  /** In this world, the pointer refers to this block. */
  ghost predicate IsBlock(p: Pointer, w: World, id: Id, width: nat) {
    (Eval(p.loc, w.v) == [true] <==> id.local) && Eval(p.bid, w.v) == Bin(id.i, width)
  }

  function CountMembers(v: seq<bool>): nat {
    if v == [] then 0 else (if v[0] then 1 else 0) + CountMembers(v[1..])
  }

  lemma {:induction false} CountFinds(v: seq<bool>, i: nat)
    requires i < |v| && v[i]
    ensures CountMembers(v) >= 1
    ensures CountMembers(v) == 1 ==> forall j :: 0 <= j < |v| && v[j] ==> j == i
  {
    if i > 0 {
      CountFinds(v[1..], i - 1);
      assert forall j :: 1 <= j < |v| ==> v[j] == v[1..][j - 1];
    } else if CountMembers(v) == 1 {
      forall j: nat | 0 < j < |v| && v[j]
        ensures false
      {
        CountFinds(v[1..], j - 1);
      }
    }
  }

  function IsLocalCond(p: Pointer): Cond {
    Equal(p.loc, Lit([true]))
  }

  /** The condition that `access` passes for one block of the set. */
  function GuardOf(p: Pointer, s: AliasSet, id: Id, width: nat): Cond {
    var hasLocal, hasNonlocal := CountMembers(s.loc), CountMembers(s.non);
    var hasBoth := hasLocal > 0 && hasNonlocal > 0;
    if hasLocal + hasNonlocal == 1 then True
    else if id.local then
      if hasLocal == 1 then IsLocalCond(p)
      else if hasBoth then Equal(Concat(p.loc, p.bid), Lit([true] + Bin(id.i, width)))
      else Equal(p.bid, Lit(Bin(id.i, width)))
    else
      if hasNonlocal == 1 then MkNot(IsLocalCond(p))
      else if hasBoth then Equal(Concat(p.loc, p.bid), Lit([false] + Bin(id.i, width)))
      else Equal(p.bid, Lit(Bin(id.i, width)))
  }

  ghost predicate Fits(s: AliasSet, width: nat) {
    |s.loc| <= Pow2(width) && |s.non| <= Pow2(width)
  }

  lemma ConcatEqual(a: Bits, b: Bits, c: Bits, d: Bits)
    requires |a| == |c|
    ensures a + b == c + d <==> a == c && b == d
  {
    if a + b == c + d {
      assert (a + b)[..|a|] == a && (c + d)[..|c|] == c && (a + b)[|a|..] == b && (c + d)[|c|..] == d;
    }
  }

  lemma EqualMeans(t: Term, b: Bits, v: Valuation)
    ensures Holds(Equal(t, Lit(b)), v) <==> Eval(t, v) == b
  {
    assert Eval(Lit(b), v) == b;
  }

  /** Comparing one bit, a block number, and both together. */
  lemma CompareMeans(p: Pointer, w: World, i: nat, bit: bool, width: nat)
    requires WellPtr(p, w, width)
    ensures Holds(IsLocalCond(p), w.v) <==> Eval(p.loc, w.v) == [true]
    ensures Holds(Equal(p.bid, Lit(Bin(i, width))), w.v) <==> Eval(p.bid, w.v) == Bin(i, width)
    ensures Holds(Equal(Concat(p.loc, p.bid), Lit([bit] + Bin(i, width))), w.v) <==>
              (Eval(p.loc, w.v) == [true] <==> bit) && Eval(p.bid, w.v) == Bin(i, width)
  {
    var x, y := Eval(p.loc, w.v), Eval(p.bid, w.v);
    ConcatEqual(x, y, [bit], Bin(i, width));
    assert x == [x[0]] && (x == [bit] <==> x[0] == bit) && (x == [true] <==> x[0]);
    EqualMeans(p.loc, [true], w.v);
    EqualMeans(p.bid, Bin(i, width), w.v);
    EqualMeans(Concat(p.loc, p.bid), [bit] + Bin(i, width), w.v);
    assert Eval(Concat(p.loc, p.bid), w.v) == x + y;
    hide Eval, Holds, Bin;
  }

  /** If the pointer's block is in the set, exactly its guard holds. */
  lemma GuardMeans(p: Pointer, s: AliasSet, id: Id, real0: Id, w: World, width: nat)
    requires Fits(s, width) && WellPtr(p, w, width) && Member(s, id) && Member(s, real0) && IsBlock(p, w, real0, width)
    ensures Holds(GuardOf(p, s, id, width), w.v) <==> id == real0
    ensures IsBlock(p, w, id, width) <==> id == real0
  {
    CompareMeans(p, w, id.i, id.local, width);
    NotMeans(IsLocalCond(p), w.v);
    ConstantsMean(w.v);
    CountFinds(Flags(s, id.local), id.i);
    CountFinds(Flags(s, real0.local), real0.i);
    if Bin(id.i, width) == Bin(real0.i, width) {
      BinInjective(id.i, real0.i, width);
    }
    hide Holds, Eval, Bin, CountMembers, MkNot;
  }

  datatype Hit = Hit(id: Id, cond: Cond)

  /** The hits are the members of the set, each once. */
  ghost predicate Enumerates(s: AliasSet, hits: seq<Hit>) {
    && (forall k :: 0 <= k < |hits| ==> Member(s, hits[k].id))
    && (forall k, l :: 0 <= k < l < |hits| ==> hits[k].id != hits[l].id)
    && (forall id :: Member(s, id) ==> exists k :: 0 <= k < |hits| && hits[k].id == id)
  }

  ghost predicate Guarding(p: Pointer, s: AliasSet, hits: seq<Hit>, width: nat) {
    forall k :: 0 <= k < |hits| ==> hits[k].cond == GuardOf(p, s, hits[k].id, width)
  }

  /** The pointer's block is in the set. */
  ghost predicate Aliased(p: Pointer, s: AliasSet, w: World, width: nat) {
    WellPtr(p, w, width) && exists id :: Member(s, id) && IsBlock(p, w, id, width)
  }

  /** Exactly the guard of the pointer's block holds. */
  ghost predicate Exact(p: Pointer, hits: seq<Hit>, w: World, width: nat) {
    && (forall k :: 0 <= k < |hits| ==> (Holds(hits[k].cond, w.v) <==> IsBlock(p, w, hits[k].id, width)))
    && (forall k, l :: 0 <= k < |hits| && 0 <= l < |hits| && Holds(hits[k].cond, w.v) && Holds(hits[l].cond, w.v) ==> k == l)
    && (exists k :: 0 <= k < |hits| && Holds(hits[k].cond, w.v))
  }

  lemma AccessExact(p: Pointer, s: AliasSet, hits: seq<Hit>, w: World, width: nat)
    requires Fits(s, width) && Enumerates(s, hits) && Guarding(p, s, hits, width) && Aliased(p, s, w, width)
    ensures Exact(p, hits, w, width)
  {
    hide Holds, Eval, GuardOf, Bin;
    var real0 :| Member(s, real0) && IsBlock(p, w, real0, width);
    forall k | 0 <= k < |hits|
      ensures Holds(hits[k].cond, w.v) <==> hits[k].id == real0
      ensures IsBlock(p, w, hits[k].id, width) <==> hits[k].id == real0
    {
      GuardMeans(p, s, hits[k].id, real0, w, width);
    }
  }

  ghost predicate Visited(s: AliasSet, hits: seq<Hit>, local: bool, n: nat) {
    && (forall k :: 0 <= k < |hits| ==> Member(s, hits[k].id) && hits[k].id.local == local && hits[k].id.i < n)
    && (forall k, l :: 0 <= k < l < |hits| ==> hits[k].id != hits[l].id)
    && (forall i: nat :: i < n && Member(s, Id(local, i)) ==> exists k :: 0 <= k < |hits| && hits[k].id == Id(local, i))
  }

  lemma VisitNext(s: AliasSet, hits: seq<Hit>, local: bool, n: nat, c: Cond)
    requires Visited(s, hits, local, n)
    ensures Visited(s, if Member(s, Id(local, n)) then hits + [Hit(Id(local, n), c)] else hits, local, n + 1)
  {
    var id := Id(local, n);
    if Member(s, id) {
      var hits' := hits + [Hit(id, c)];
      assert hits'[|hits|].id == id;
      forall i: nat | i < n + 1 && Member(s, Id(local, i))
        ensures exists k :: 0 <= k < |hits'| && hits'[k].id == Id(local, i)
      {
        if i < n {
          var k :| 0 <= k < |hits| && hits[k].id == Id(local, i);
          assert hits'[k] == hits[k];
        }
      }
    }
  }

  /** One of the two loops of `access`. */
  method Visit(p: Pointer, s: AliasSet, local: bool, width: nat) returns (hits: seq<Hit>)
    ensures Visited(s, hits, local, |Flags(s, local)|) && Guarding(p, s, hits, width)
  {
    hide GuardOf;
    hits := [];
    var v := Flags(s, local);
    var i: nat := 0;
    while i < |v|
      invariant i <= |v| && Visited(s, hits, local, i) && Guarding(p, s, hits, width)
    {
      hide Visited, Guarding;
      ghost var next := VisitStep(p, s, hits, local, i, width);
      if v[i] {
        hits := hits + [Hit(Id(local, i), GuardOf(p, s, Id(local, i), width))];
      }
      i := i + 1;
    }
  }

  lemma VisitStep(p: Pointer, s: AliasSet, hits: seq<Hit>, local: bool, n: nat, width: nat) returns (hits': seq<Hit>)
    requires Visited(s, hits, local, n) && Guarding(p, s, hits, width) && n < |Flags(s, local)|
    ensures hits' == if Flags(s, local)[n] then hits + [Hit(Id(local, n), GuardOf(p, s, Id(local, n), width))] else hits
    ensures Visited(s, hits', local, n + 1) && Guarding(p, s, hits', width)
  {
    var h := Hit(Id(local, n), GuardOf(p, s, Id(local, n), width));
    hide GuardOf;
    hits' := if Flags(s, local)[n] then hits + [h] else hits;
    VisitNext(s, hits, local, n, h.cond);
    hide Visited;
  }

  /** `Memory::access`: the blocks that an access visits, with their guards. */
  method Access(p: Pointer, s: AliasSet, width: nat) returns (hits: seq<Hit>)
    requires Fits(s, width)
    ensures Enumerates(s, hits) && Guarding(p, s, hits, width)
    ensures forall w :: Aliased(p, s, w, width) ==> Exact(p, hits, w, width)
  {
    hide GuardOf, Exact, Aliased, Visited;
    var locals := Visit(p, s, true, width);
    var nonlocals := Visit(p, s, false, width);
    hits := locals + nonlocals;
    AllVisited(s, locals, nonlocals);
    forall w | Aliased(p, s, w, width)
      ensures Exact(p, hits, w, width)
    {
      AccessExact(p, s, hits, w, width);
    }
  }

  lemma AllVisited(s: AliasSet, locals: seq<Hit>, nonlocals: seq<Hit>)
    requires Visited(s, locals, true, |s.loc|) && Visited(s, nonlocals, false, |s.non|)
    ensures Enumerates(s, locals + nonlocals)
  {
    var hits := locals + nonlocals;
    forall id | Member(s, id)
      ensures exists k :: 0 <= k < |hits| && hits[k].id == id
    {
      if id.local {
        var k :| 0 <= k < |locals| && locals[k].id == Id(true, id.i);
        assert hits[k] == locals[k];
      } else {
        var k :| 0 <= k < |nonlocals| && nonlocals[k].id == Id(false, id.i);
        assert hits[|locals| + k] == nonlocals[k];
      }
    }
  }
}
