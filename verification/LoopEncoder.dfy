/** Library functions that loop over memory, encoded by bounded unrolling:
    `LoopLikeFunctionApproximator`, `Strlen` and `Memcmp` (ir/instr.cpp). */
module LoopEncoder {
  import opened Terms
  import opened Binary
  import opened Factor

  /** One iteration: its value, poison flag, conditions against undefined behaviour, and
      whether the loop goes on. */
  datatype Step = Step(res: Term, np: Cond, ub: seq<Cond>, cont: Cond)

  type Body = nat -> Step

  // ----- the unbounded loop --------------------------------------------------

  /** The loop goes on at iterations `i` to `j`, exclusively. */
  ghost predicate GoesOn(body: Body, v: Valuation, i: nat, j: nat) {
    forall m: nat :: i <= m < j ==> Holds(body(m).cont, v)
  }

  /** From iteration `i`, the loop stops after iteration `k`. */
  ghost predicate StopsAt(body: Body, v: Valuation, i: nat, k: nat) {
    i <= k && GoesOn(body, v, i, k) && !Holds(body(k).cont, v)
  }

  /** No iteration that the loop gets to from `i` has undefined behaviour. */
  ghost predicate NoUb(body: Body, v: Valuation, i: nat) {
    forall j: nat :: i <= j && GoesOn(body, v, i, j) ==> HoldsAll(body(j).ub, v)
  }

  ghost predicate NpUpTo(body: Body, v: Valuation, i: nat, k: nat) {
    forall j: nat :: i <= j <= k ==> Holds(body(j).np, v)
  }

  /** The encoding agrees with the loop that starts at iteration `i`. */
  ghost predicate Encodes(body: Body, v: Valuation, i: nat, res: Term, np: Cond, ub: Cond) {
    && (Holds(ub, v) <==> NoUb(body, v, i))
    && (Holds(ub, v) ==> exists k: nat :: EndsWith(body, v, i, k, res, np))
  }

  ghost predicate EndsWith(body: Body, v: Valuation, i: nat, k: nat, res: Term, np: Cond) {
    StopsAt(body, v, i, k) && Eval(res, v) == Eval(body(k).res, v) && (Holds(np, v) <==> NpUpTo(body, v, i, k))
  }

  lemma StoppedHere(body: Body, v: Valuation, i: nat)
    requires !(HoldsAll(body(i).ub, v) && Holds(body(i).cont, v))
    ensures NoUb(body, v, i) <==> HoldsAll(body(i).ub, v)
    ensures HoldsAll(body(i).ub, v) ==> EndsWith(body, v, i, i, body(i).res, body(i).np)
  {
    hide Holds, Eval, HoldsAll;
    assert GoesOn(body, v, i, i);
    if HoldsAll(body(i).ub, v) {
      forall j: nat | i <= j && GoesOn(body, v, i, j)
        ensures HoldsAll(body(j).ub, v)
      {
        assert j == i || Holds(body(i).cont, v);
      }
    }
  }

  /** One more iteration in front. */
  lemma GoesOnFirst(body: Body, v: Valuation, i: nat, j: nat)
    requires i < j && Holds(body(i).cont, v)
    ensures GoesOn(body, v, i, j) <==> GoesOn(body, v, i + 1, j)
  {
    hide Holds;
  }

  lemma NoUbFirst(body: Body, v: Valuation, i: nat)
    requires HoldsAll(body(i).ub, v) && Holds(body(i).cont, v)
    ensures NoUb(body, v, i) <==> NoUb(body, v, i + 1)
  {
    hide Holds, HoldsAll, GoesOn;
    if NoUb(body, v, i) {
      forall j: nat | i + 1 <= j && GoesOn(body, v, i + 1, j)
        ensures HoldsAll(body(j).ub, v)
      {
        GoesOnFirst(body, v, i, j);
      }
    }
    if NoUb(body, v, i + 1) {
      forall j: nat | i <= j && GoesOn(body, v, i, j)
        ensures HoldsAll(body(j).ub, v)
      {
        if i < j {
          GoesOnFirst(body, v, i, j);
        }
      }
    }
  }

  // ----- encoding ------------------------------------------------------------

  /** The worlds that the encoding speaks about: those in which the state is
      well-defined, the iterations before were too, and the added preconditions hold. */
  ghost predicate Considered(stateUb: seq<Cond>, prefix: seq<Cond>, pre: seq<Cond>, v: Valuation) {
    HoldsAll(stateUb, v) && HoldsAll(prefix, v) && HoldsAll(pre, v)
  }

  /** Stopping at iteration `i` is right where the precondition or the condition itself
      excludes going on, or the iteration is undefined anyway. */
  lemma StopMeans(body: Body, v: Valuation, i: nat, prefix: seq<Cond>, pre: seq<Cond>, stateUb: seq<Cond>, isLast: bool)
    requires Considered(stateUb, prefix, pre, v)
    requires isLast ==> pre == [MkImplies(MkAndAll(prefix + body(i).ub), MkNot(body(i).cont))]
    requires isLast || body(i).cont == False || MkAndAll(body(i).ub) == False || False in stateUb
    ensures Encodes(body, v, i, body(i).res, body(i).np, MkAndAll(body(i).ub))
  {
    var s := body(i);
    ConstantsMean(v);
    MkAndAllMeans(s.ub, v);
    HoldsAllMembers(stateUb, v);
    hide Holds, Eval, HoldsAll, MkAndAll, MkImplies, MkNot, EndsWith, NoUb;
    if isLast {
      HoldsOne(pre[0], v);
      ImpliesMeans(MkAndAll(prefix + s.ub), MkNot(s.cont), v);
      NotMeans(s.cont, v);
      MkAndAllMeans(prefix + s.ub, v);
      HoldsAllAppend(prefix, s.ub, v);
    }
    StoppedHere(body, v, i);
  }

  /** Putting one iteration in front of the encoding of the rest. */
  lemma PrependMeans(body: Body, v: Valuation, i: nat, prefix: seq<Cond>, pre: seq<Cond>, stateUb: seq<Cond>, res: Term, np: Cond, ub: Cond)
    requires Considered(stateUb, prefix, pre, v)
    requires Considered(stateUb, prefix + body(i).ub + [body(i).cont], pre, v) ==> Encodes(body, v, i + 1, res, np, ub)
    ensures var s := body(i);
      Encodes(body, v, i, MkIf(s.cont, res, s.res), MkAnd(s.np, MkImplies(s.cont, np)), MkAnd(MkAndAll(s.ub), MkImplies(s.cont, ub)))
  {
    var s := body(i);
    MkAndAllMeans(s.ub, v);
    IfMeans(s.cont, res, s.res, v);
    ImpliesMeans(s.cont, np, v);
    ImpliesMeans(s.cont, ub, v);
    AndMeans(s.np, MkImplies(s.cont, np), v);
    AndMeans(MkAndAll(s.ub), MkImplies(s.cont, ub), v);
    HoldsAllAppend(prefix + s.ub, [s.cont], v);
    HoldsAllAppend(prefix, s.ub, v);
    HoldsOne(s.cont, v);
    hide Holds, Eval, HoldsAll, MkAndAll, MkImplies, MkIf, MkAnd, NoUb, StopsAt, NpUpTo;
    var res', np', ub' := MkIf(s.cont, res, s.res), MkAnd(s.np, MkImplies(s.cont, np)), MkAnd(MkAndAll(s.ub), MkImplies(s.cont, ub));
    if HoldsAll(s.ub, v) && Holds(s.cont, v) {
      NoUbFirst(body, v, i);
      if Holds(ub, v) {
        var k: nat :| EndsWith(body, v, i + 1, k, res, np);
        EndsLater(body, v, i, k);
        assert EndsWith(body, v, i, k, res', np');
      }
    } else {
      StoppedHere(body, v, i);
      if HoldsAll(s.ub, v) {
        assert EndsWith(body, v, i, i, res', np');
      }
    }
  }

  lemma EndsLater(body: Body, v: Valuation, i: nat, k: nat)
    requires Holds(body(i).cont, v) && StopsAt(body, v, i + 1, k)
    ensures StopsAt(body, v, i, k) && (NpUpTo(body, v, i, k) <==> Holds(body(i).np, v) && NpUpTo(body, v, i + 1, k))
  {
    hide Holds;
    GoesOnFirst(body, v, i, k);
  }

  // ----- what the precondition leaves out --------------------------------------

  /** From iteration `i` on, the loop gets to iteration `k`, and there it stops or is
      undefined. */
  ghost predicate EndsAt(body: Body, v: Valuation, i: nat, k: nat) {
    i <= k && GoesOn(body, v, i, k) && !(Holds(body(k).cont, v) && HoldsAll(body(k).ub, v))
  }

  /** ... at iteration `n` or before. */
  ghost predicate EndsBy(body: Body, v: Valuation, i: nat, n: nat) {
    exists k: nat :: k <= n && EndsAt(body, v, i, k)
  }

  /** The precondition added after iteration `n` excludes exactly the worlds in which the
      loop goes on after it. */
  ghost predicate ExcludesLonger(body: Body, v: Valuation, i: nat, n: nat, prefix: seq<Cond>, pre: seq<Cond>) {
    HoldsAll(pre, v) <==> (HoldsAll(prefix, v) ==> EndsBy(body, v, i, n))
  }

  lemma EndsHere(body: Body, v: Valuation, i: nat)
    ensures EndsBy(body, v, i, i) <==> !(Holds(body(i).cont, v) && HoldsAll(body(i).ub, v))
  {
    hide Holds, HoldsAll;
    assert GoesOn(body, v, i, i);
    if !(Holds(body(i).cont, v) && HoldsAll(body(i).ub, v)) {
      assert EndsAt(body, v, i, i);
    }
  }

  /** The precondition of the last iteration. */
  lemma LastExcludes(body: Body, v: Valuation, i: nat, prefix: seq<Cond>)
    ensures ExcludesLonger(body, v, i, i, prefix, [MkImplies(MkAndAll(prefix + body(i).ub), MkNot(body(i).cont))])
  {
    var s := body(i);
    var c := MkImplies(MkAndAll(prefix + s.ub), MkNot(s.cont));
    HoldsOne(c, v);
    ImpliesMeans(MkAndAll(prefix + s.ub), MkNot(s.cont), v);
    NotMeans(s.cont, v);
    MkAndAllMeans(prefix + s.ub, v);
    HoldsAllAppend(prefix, s.ub, v);
    EndsHere(body, v, i);
    hide Holds, HoldsAll, MkImplies, MkAndAll, MkNot, EndsBy;
    assert HoldsAll([c], v) <==> Holds(c, v);
  }

  lemma ExcludesIs(body: Body, v: Valuation, i: nat, n: nat, prefix: seq<Cond>, pre: seq<Cond>)
    ensures ExcludesLonger(body, v, i, n, prefix, pre) <==> (HoldsAll(pre, v) <==> (HoldsAll(prefix, v) ==> EndsBy(body, v, i, n)))
  {
  }

  lemma EndsFirst(body: Body, v: Valuation, i: nat, n: nat)
    requires i < n
    ensures EndsBy(body, v, i, n) <==> EndsBy(body, v, i, i) || EndsBy(body, v, i + 1, n)
  {
    EndsHere(body, v, i);
    hide HoldsAll, Holds;
    if Holds(body(i).cont, v) {
      forall k: nat | i < k
        ensures EndsAt(body, v, i, k) <==> EndsAt(body, v, i + 1, k)
      {
        GoesOnFirst(body, v, i, k);
      }
      if EndsBy(body, v, i + 1, n) {
        var k: nat :| k <= n && EndsAt(body, v, i + 1, k);
        assert EndsAt(body, v, i, k);
      }
    } else {
      assert EndsAt(body, v, i, i);
    }
    if EndsBy(body, v, i, i) {
      var k: nat :| k <= i && EndsAt(body, v, i, k);
      assert k <= n;
    } else if EndsBy(body, v, i, n) {
      var k: nat :| k <= n && EndsAt(body, v, i, k);
      assert k != i;
      assert EndsAt(body, v, i + 1, k);
    }
  }

  /** The precondition of a later iteration. */
  lemma LaterExcludes(body: Body, v: Valuation, i: nat, n: nat, prefix: seq<Cond>, pre: seq<Cond>)
    requires i < n && ExcludesLonger(body, v, i + 1, n, prefix + body(i).ub + [body(i).cont], pre)
    ensures ExcludesLonger(body, v, i, n, prefix, pre)
  {
    var s := body(i);
    HoldsAllAppend(prefix + s.ub, [s.cont], v);
    HoldsAllAppend(prefix, s.ub, v);
    HoldsOne(s.cont, v);
    EndsHere(body, v, i);
    EndsFirst(body, v, i, n);
    hide HoldsAll, Holds, EndsBy;
  }

  /** `unroll_cnt - 1`, in unsigned arithmetic. */
  function LastIteration(unrollCnt: nat): nat {
    if unrollCnt == 0 then 0xFFFF_FFFF else unrollCnt - 1
  }

  /** The encoding that started at iteration `i` gives up after iteration `last`: not
      before the unroll count, and not where the condition is constant, up to the limit
      for constant inputs. */
  ghost predicate GivesUpAfter(body: Body, i: nat, unrollCnt: nat, last: nat) {
    && i <= last && LastIteration(unrollCnt) <= last
    && (last < 512 ==> body(last).cont != True && body(last).cont != False)
    && forall m: nat :: i <= m < last ==> body(m).cont != False
  }

  /** `_loop`, from iteration `i`.  Iterations with constant conditions are followed
      beyond the unroll count. */
  method Loop(body: Body, stateUb: seq<Cond>, prefix: seq<Cond>, i: nat, unrollCnt: nat)
    returns (res: Term, np: Cond, ub: Cond, pre: seq<Cond>, ghost last: nat)
    ensures forall v :: Considered(stateUb, prefix, pre, v) ==> Encodes(body, v, i, res, np, ub)
    ensures pre != [] ==> GivesUpAfter(body, i, unrollCnt, last) && forall v :: ExcludesLonger(body, v, i, last, prefix, pre)
    decreases (if LastIteration(unrollCnt) < 512 then 512 else LastIteration(unrollCnt) + 1) - i
  {
    var s := body(i);
    var isLast := i >= LastIteration(unrollCnt);
    if i < 512 {
      isLast := isLast && !(s.cont == True || s.cont == False);
    }
    pre := if isLast then [MkImplies(MkAndAll(prefix + s.ub), MkNot(s.cont))] else [];
    last := i;
    hide Considered, Encodes, MkAndAll, MkImplies, MkIf, MkAnd, MkNot, ExcludesLonger;
    if isLast || s.cont == False || MkAndAll(s.ub) == False || False in stateUb {
      res, np, ub := s.res, s.np, MkAndAll(s.ub);
      forall v | Considered(stateUb, prefix, pre, v)
        ensures Encodes(body, v, i, res, np, ub)
      {
        StopMeans(body, v, i, prefix, pre, stateUb, isLast);
      }
      forall v | isLast
        ensures ExcludesLonger(body, v, i, last, prefix, pre)
      {
        LastExcludes(body, v, i, prefix);
      }
      return;
    }
    var resNext, npNext, ubNext;
    resNext, npNext, ubNext, pre, last := Loop(body, stateUb, prefix + s.ub + [s.cont], i + 1, unrollCnt);
    res, np, ub := MkIf(s.cont, resNext, s.res), MkAnd(s.np, MkImplies(s.cont, npNext)), MkAnd(MkAndAll(s.ub), MkImplies(s.cont, ubNext));
    forall v | Considered(stateUb, prefix, pre, v)
      ensures Encodes(body, v, i, res, np, ub)
    {
      PrependMeans(body, v, i, prefix, pre, stateUb, resNext, npNext, ubNext);
    }
    forall v | pre != []
      ensures ExcludesLonger(body, v, i, last, prefix, pre)
    {
      LaterExcludes(body, v, i, last, prefix, pre);
    }
  }

  /** Every world in which the loop ends within the unroll count meets the precondition. */
  lemma ShortIsKept(body: Body, v: Valuation, unrollCnt: nat, last: nat, pre: seq<Cond>, k: nat)
    requires pre != [] ==> GivesUpAfter(body, 0, unrollCnt, last) && ExcludesLonger(body, v, 0, last, [], pre)
    requires k <= LastIteration(unrollCnt) && EndsAt(body, v, 0, k)
    ensures HoldsAll(pre, v)
  {
    hide EndsAt;
    if pre != [] {
      assert EndsBy(body, v, 0, last);
    } else {
      NothingHolds(v);
    }
  }

  /** If all conditions are constant up to an iteration before the limit at which the loop
      stops, nothing is left out. */
  lemma ConstantsAreFollowed(body: Body, unrollCnt: nat, last: nat, pre: seq<Cond>, k: nat)
    requires pre != [] ==> GivesUpAfter(body, 0, unrollCnt, last)
    requires k < 512 && (forall m: nat :: m < k ==> body(m).cont == True) && body(k).cont == False
    ensures pre == []
  {
  }

  /** `encode`: wherever the added preconditions hold, the bounded encoding has the value,
      poison flag and undefined behaviour of the unbounded loop. */
  method Encode(body: Body, stateUb: seq<Cond>, unrollCnt: nat) returns (res: Term, np: Cond, ub: Cond, pre: seq<Cond>, ghost last: nat)
    ensures forall v :: HoldsAll(stateUb, v) && HoldsAll(pre, v) ==> Encodes(body, v, 0, res, np, ub)
    ensures pre != [] ==> GivesUpAfter(body, 0, unrollCnt, last) && forall v :: HoldsAll(pre, v) <==> EndsBy(body, v, 0, last)
    ensures forall v, k: nat :: k <= LastIteration(unrollCnt) && EndsAt(body, v, 0, k) ==> HoldsAll(pre, v)
  {
    res, np, ub, pre, last := Loop(body, stateUb, [], 0, unrollCnt);
    ghost var n := last;
    forall v | pre != []
      ensures HoldsAll(pre, v) <==> EndsBy(body, v, 0, n)
    {
      hide *;
      NothingHolds(v);
      ExcludesIs(body, v, 0, n, [], pre);
    }
    forall v, k: nat | k <= LastIteration(unrollCnt) && EndsAt(body, v, 0, k)
      ensures HoldsAll(pre, v)
    {
      hide *;
      ShortIsKept(body, v, unrollCnt, n, pre, k);
    }
    hide HoldsAll, Encodes;
    forall v | HoldsAll(stateUb, v) && HoldsAll(pre, v)
      ensures Encodes(body, v, 0, res, np, ub)
    {
      NothingHolds(v);
      assert Considered(stateUb, [], pre, v);
    }
  }

  lemma NothingHolds(v: Valuation)
    ensures HoldsAll([], v)
  {
  }

  // ----- strlen --------------------------------------------------------------

  /** A one-byte load: its value and the conditions under which it is defined. */
  datatype Access = Access(value: Term, ub: seq<Cond>)

  function StrlenBody(load: nat -> Access, bits: nat): Body {
    (i: nat) => Step(Lit(Bin(i, bits)), True, load(i).ub, MkNot(IsZero(load(i).value)))
  }

  ghost predicate ZeroByte(load: nat -> Access, v: Valuation, i: nat) {
    ZeroBits(Eval(load(i).value, v))
  }

  /** `k` is the index of the first zero byte. */
  ghost predicate FirstZero(load: nat -> Access, v: Valuation, k: nat) {
    ZeroByte(load, v, k) && forall j: nat :: j < k ==> !ZeroByte(load, v, j)
  }

  /** The bytes up to the first zero are read without undefined behaviour. */
  ghost predicate ReadsDefined(load: nat -> Access, v: Valuation) {
    forall j: nat :: (forall m: nat :: m < j ==> !ZeroByte(load, v, m)) ==> HoldsAll(load(j).ub, v)
  }

  lemma StrlenGoesOn(load: nat -> Access, bits: nat, v: Valuation, j: nat)
    ensures GoesOn(StrlenBody(load, bits), v, 0, j) <==> forall m: nat :: m < j ==> !ZeroByte(load, v, m)
  {
    forall m: nat
      ensures Holds(StrlenBody(load, bits)(m).cont, v) <==> !ZeroByte(load, v, m)
    {
      NotMeans(IsZero(load(m).value), v);
    }
    hide Holds, ZeroByte, MkNot;
  }

  lemma StrlenUb(load: nat -> Access, bits: nat, v: Valuation)
    ensures NoUb(StrlenBody(load, bits), v, 0) <==> ReadsDefined(load, v)
  {
    var body := StrlenBody(load, bits);
    forall j: nat
      ensures GoesOn(body, v, 0, j) <==> forall m: nat :: m < j ==> !ZeroByte(load, v, m)
      ensures body(j).ub == load(j).ub
    {
      StrlenGoesOn(load, bits, v, j);
    }
    hide GoesOn, ZeroByte, HoldsAll, StrlenBody;
  }

  lemma StrlenEnds(load: nat -> Access, bits: nat, v: Valuation, res: Term, np: Cond, k: nat)
    requires EndsWith(StrlenBody(load, bits), v, 0, k, res, np)
    ensures FirstZero(load, v, k) && Eval(res, v) == Bin(k, bits)
  {
    StrlenGoesOn(load, bits, v, k);
    NotMeans(IsZero(load(k).value), v);
    assert Eval(Lit(Bin(k, bits)), v) == Bin(k, bits);
    hide Bin, GoesOn, NpUpTo, MkNot;
  }

  lemma StrlenMeans(load: nat -> Access, bits: nat, v: Valuation, res: Term, np: Cond, ub: Cond)
    requires Encodes(StrlenBody(load, bits), v, 0, res, np, ub)
    ensures Holds(ub, v) <==> ReadsDefined(load, v)
    ensures Holds(ub, v) ==> exists k: nat :: FirstZero(load, v, k) && Eval(res, v) == Bin(k, bits)
  {
    hide Holds, EndsWith, NoUb, ReadsDefined, FirstZero, StrlenBody, Bin;
    StrlenUb(load, bits, v);
    if Holds(ub, v) {
      var k: nat :| EndsWith(StrlenBody(load, bits), v, 0, k, res, np);
      StrlenEnds(load, bits, v, res, np, k);
    }
  }

  /** The reads end at byte `k`: it is zero, or reading it is undefined. */
  ghost predicate ReadsEndAt(load: nat -> Access, v: Valuation, k: nat) {
    (forall j: nat :: j < k ==> !ZeroByte(load, v, j)) && (ZeroByte(load, v, k) || !HoldsAll(load(k).ub, v))
  }

  lemma StrlenEndsAt(load: nat -> Access, bits: nat, v: Valuation, k: nat)
    ensures EndsAt(StrlenBody(load, bits), v, 0, k) <==> ReadsEndAt(load, v, k)
  {
    StrlenGoesOn(load, bits, v, k);
    NotMeans(IsZero(load(k).value), v);
    assert StrlenBody(load, bits)(k).ub == load(k).ub;
    hide GoesOn, MkNot, HoldsAll;
  }

  /** `Strlen::toSMT`: the result is the index of the first zero byte.  Only worlds are
      left out in which no byte within the unroll count ends the reads. */
  method Strlen(load: nat -> Access, bits: nat, stateUb: seq<Cond>, unrollCnt: nat) returns (res: Term, ub: Cond, pre: seq<Cond>)
    ensures forall v, k: nat :: k <= LastIteration(unrollCnt) && ReadsEndAt(load, v, k) ==> HoldsAll(pre, v)
    ensures forall v :: HoldsAll(stateUb, v) && HoldsAll(pre, v) ==> (Holds(ub, v) <==> ReadsDefined(load, v))
    ensures forall v :: HoldsAll(stateUb, v) && HoldsAll(pre, v) && Holds(ub, v) ==>
      exists k: nat :: FirstZero(load, v, k) && Eval(res, v) == Bin(k, bits)
  {
    var np;
    ghost var last;
    res, np, ub, pre, last := Encode(StrlenBody(load, bits), stateUb, unrollCnt);
    forall v, k: nat | k <= LastIteration(unrollCnt) && ReadsEndAt(load, v, k)
      ensures HoldsAll(pre, v)
    {
      hide *;
      StrlenEndsAt(load, bits, v, k);
    }
    forall v | HoldsAll(stateUb, v) && HoldsAll(pre, v)
      ensures Holds(ub, v) <==> ReadsDefined(load, v)
      ensures Holds(ub, v) ==> exists k: nat :: FirstZero(load, v, k) && Eval(res, v) == Bin(k, bits)
    {
      hide Encodes, FirstZero, ReadsDefined;
      StrlenMeans(load, bits, v, res, np, ub);
    }
  }

  // ----- memcmp --------------------------------------------------------------

  /** One pair of bytes: whether they are equal, whether the first is at least the second,
      and whether neither is poison. */
  datatype Pair = Pair(eq: Cond, ge: Cond, np: Cond)

  /** `more(i)` says that at least `i + 2` bytes are compared. */
  function MemcmpBody(pairs: nat -> Pair, more: nat -> Cond, zero: Term, above: Term, below: Term): Body {
    (i: nat) => Step(MkIf(pairs(i).eq, zero, MkIf(pairs(i).ge, above, below)), pairs(i).np, [], MkAnd(pairs(i).eq, more(i)))
  }

  /** `num` is the number of bytes to compare. */
  ghost predicate Counts(more: nat -> Cond, num: nat, v: Valuation) {
    forall i: nat :: Holds(more(i), v) <==> num >= i + 2
  }

  /** The comparison is decided at byte `k`: all before are equal, and it is the first
      that differs or the last one. */
  ghost predicate DecidedAt(pairs: nat -> Pair, num: nat, v: Valuation, k: nat) {
    k < num && (forall j: nat :: j < k ==> Holds(pairs(j).eq, v)) && (k == num - 1 || !Holds(pairs(k).eq, v))
  }

  function ResultOf(p: Pair, zero: Term, above: Term, below: Term, v: Valuation): Bits {
    if Holds(p.eq, v) then Eval(zero, v) else if Holds(p.ge, v) then Eval(above, v) else Eval(below, v)
  }

  ghost predicate Compared(pairs: nat -> Pair, num: nat, zero: Term, above: Term, below: Term, v: Valuation, res: Term, np: Cond, k: nat) {
    && DecidedAt(pairs, num, v, k) && Eval(res, v) == ResultOf(pairs(k), zero, above, below, v)
    && (Holds(np, v) <==> forall j: nat :: j <= k ==> Holds(pairs(j).np, v))
  }

  lemma MemcmpGoesOn(pairs: nat -> Pair, more: nat -> Cond, zero: Term, above: Term, below: Term, num: nat, v: Valuation)
    requires Counts(more, num, v)
    ensures forall m: nat :: Holds(MemcmpBody(pairs, more, zero, above, below)(m).cont, v) <==> Holds(pairs(m).eq, v) && num >= m + 2
  {
    forall m: nat
      ensures Holds(MemcmpBody(pairs, more, zero, above, below)(m).cont, v) <==> Holds(pairs(m).eq, v) && num >= m + 2
    {
      AndMeans(pairs(m).eq, more(m), v);
      hide Holds, MkAnd, MkIf;
    }
  }

  lemma MemcmpStops(pairs: nat -> Pair, more: nat -> Cond, zero: Term, above: Term, below: Term, num: nat, v: Valuation, k: nat)
    requires num > 0 && Counts(more, num, v) && StopsAt(MemcmpBody(pairs, more, zero, above, below), v, 0, k)
    ensures DecidedAt(pairs, num, v, k)
  {
    var body := MemcmpBody(pairs, more, zero, above, below);
    MemcmpGoesOn(pairs, more, zero, above, below, num, v);
    hide Holds, MemcmpBody, Counts;
    if k > 0 {
      var m: nat := k - 1;
      assert Holds(body(m).cont, v);
    }
    forall j: nat | j < k
      ensures Holds(pairs(j).eq, v)
    {
      assert Holds(body(j).cont, v);
    }
  }

  lemma MemcmpNoUb(pairs: nat -> Pair, more: nat -> Cond, zero: Term, above: Term, below: Term, v: Valuation)
    ensures NoUb(MemcmpBody(pairs, more, zero, above, below), v, 0)
  {
    NothingHolds(v);
    assert forall j: nat :: MemcmpBody(pairs, more, zero, above, below)(j).ub == [];
    hide GoesOn, MemcmpBody, HoldsAll;
  }

  lemma MemcmpEnds(pairs: nat -> Pair, more: nat -> Cond, zero: Term, above: Term, below: Term, num: nat, v: Valuation, res: Term, np: Cond, k: nat)
    requires num > 0 && Counts(more, num, v) && EndsWith(MemcmpBody(pairs, more, zero, above, below), v, 0, k, res, np)
    ensures Compared(pairs, num, zero, above, below, v, res, np, k)
  {
    var p := pairs(k);
    MemcmpStops(pairs, more, zero, above, below, num, v, k);
    IfMeans(p.eq, zero, MkIf(p.ge, above, below), v);
    IfMeans(p.ge, above, below, v);
    NpOfBytes(pairs, more, zero, above, below, v, k);
    hide Holds, Eval, DecidedAt, StopsAt, MkIf, MkAnd, Counts, NpUpTo;
  }

  lemma NpOfBytes(pairs: nat -> Pair, more: nat -> Cond, zero: Term, above: Term, below: Term, v: Valuation, k: nat)
    ensures NpUpTo(MemcmpBody(pairs, more, zero, above, below), v, 0, k) <==> forall j: nat :: j <= k ==> Holds(pairs(j).np, v)
  {
    assert forall j: nat :: MemcmpBody(pairs, more, zero, above, below)(j).np == pairs(j).np;
    hide Holds, MkIf, MkAnd, MemcmpBody;
  }

  lemma MemcmpMeans(pairs: nat -> Pair, more: nat -> Cond, zero: Term, above: Term, below: Term, num: nat, v: Valuation, res: Term, np: Cond, ub: Cond)
    requires num > 0 && Counts(more, num, v) && Encodes(MemcmpBody(pairs, more, zero, above, below), v, 0, res, np, ub)
    ensures exists k: nat :: Compared(pairs, num, zero, above, below, v, res, np, k)
  {
    hide Holds, EndsWith, NoUb, Compared, MemcmpBody, Counts;
    MemcmpNoUb(pairs, more, zero, above, below, v);
    var k: nat :| EndsWith(MemcmpBody(pairs, more, zero, above, below), v, 0, k, res, np);
    MemcmpEnds(pairs, more, zero, above, below, num, v, res, np, k);
  }

  /** There is nothing to compare, or the comparison is decided at byte `last` or before. */
  ghost predicate DecidedBy(pairs: nat -> Pair, num: nat, v: Valuation, last: nat) {
    num == 0 || exists k: nat :: k <= last && DecidedAt(pairs, num, v, k)
  }

  lemma MemcmpEndsAt(pairs: nat -> Pair, more: nat -> Cond, zero: Term, above: Term, below: Term, num: nat, v: Valuation, last: nat) returns (k: nat)
    requires Counts(more, num, v) && DecidedBy(pairs, num, v, last)
    ensures k <= last && EndsAt(MemcmpBody(pairs, more, zero, above, below), v, 0, k)
  {
    k := 0;
    if num > 0 {
      k :| k <= last && DecidedAt(pairs, num, v, k);
    }
    hide Holds, MemcmpBody, Counts, HoldsAll;
    var body := MemcmpBody(pairs, more, zero, above, below);
    MemcmpGoesOn(pairs, more, zero, above, below, num, v);
    assert GoesOn(body, v, 0, k);
    assert !Holds(body(k).cont, v);
  }

  /** `Memcmp::toSMT`: zero bytes compare equal, without poison; otherwise the first
      differing byte decides, or the last one.  Only worlds are left out in which the
      comparison is not decided within the unroll count. */
  method Memcmp(pairs: nat -> Pair, more: nat -> Cond, isEmpty: Cond, zero: Term, above: Term, below: Term,
                ghost num: Valuation -> nat, stateUb: seq<Cond>, unrollCnt: nat)
    returns (res: Term, np: Cond, pre: seq<Cond>)
    requires forall v :: Counts(more, num(v), v) && (Holds(isEmpty, v) <==> num(v) == 0)
    ensures forall v :: DecidedBy(pairs, num(v), v, LastIteration(unrollCnt)) ==> HoldsAll(pre, v)
    ensures forall v :: HoldsAll(stateUb, v) && HoldsAll(pre, v) && num(v) == 0 ==> Eval(res, v) == Eval(zero, v) && Holds(np, v)
    ensures forall v :: HoldsAll(stateUb, v) && HoldsAll(pre, v) && num(v) > 0 ==>
      exists k: nat :: Compared(pairs, num(v), zero, above, below, v, res, np, k)
  {
    var val, np0, ub;
    ghost var last;
    val, np0, ub, pre, last := Encode(MemcmpBody(pairs, more, zero, above, below), stateUb, unrollCnt);
    forall v | DecidedBy(pairs, num(v), v, LastIteration(unrollCnt))
      ensures HoldsAll(pre, v)
    {
      assert Counts(more, num(v), v);
      hide *;
      var k := MemcmpEndsAt(pairs, more, zero, above, below, num(v), v, LastIteration(unrollCnt));
    }
    res, np := MkIf(isEmpty, zero, val), MkImplies(MkNot(isEmpty), np0);
    forall v | HoldsAll(stateUb, v) && HoldsAll(pre, v)
      ensures num(v) == 0 ==> Eval(res, v) == Eval(zero, v) && Holds(np, v)
      ensures num(v) > 0 ==> exists k: nat :: Compared(pairs, num(v), zero, above, below, v, res, np, k)
    {
      assert Counts(more, num(v), v) && (Holds(isEmpty, v) <==> num(v) == 0);
      hide *;
      MemcmpEmpty(isEmpty, zero, val, np0, v);
      if num(v) > 0 {
        MemcmpMeans(pairs, more, zero, above, below, num(v), v, val, np0, ub);
        var k: nat :| Compared(pairs, num(v), zero, above, below, v, val, np0, k);
        SameCompared(pairs, num(v), zero, above, below, v, val, np0, res, np, k);
      }
    }
  }

  lemma MemcmpEmpty(isEmpty: Cond, zero: Term, val: Term, np0: Cond, v: Valuation)
    ensures Eval(MkIf(isEmpty, zero, val), v) == if Holds(isEmpty, v) then Eval(zero, v) else Eval(val, v)
    ensures Holds(MkImplies(MkNot(isEmpty), np0), v) <==> Holds(isEmpty, v) || Holds(np0, v)
  {
    hide *;
    IfMeans(isEmpty, zero, val, v);
    NotMeans(isEmpty, v);
    ImpliesMeans(MkNot(isEmpty), np0, v);
  }

  lemma SameCompared(pairs: nat -> Pair, num: nat, zero: Term, above: Term, below: Term, v: Valuation, res: Term, np: Cond, res': Term, np': Cond, k: nat)
    requires Compared(pairs, num, zero, above, below, v, res, np, k) && Eval(res', v) == Eval(res, v) && (Holds(np', v) <==> Holds(np, v))
    ensures Compared(pairs, num, zero, above, below, v, res', np', k)
  {
    hide Holds, Eval, DecidedAt, ResultOf;
  }
}
