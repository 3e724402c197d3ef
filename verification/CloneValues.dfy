/** SSA cloning: how `cloneBB` and `rauw_op` (ir/function.cpp) resolve the operands of
    the instructions they copy, over all the rounds of `Function::unroll`. */
module CloneValues {

  /** An instruction that defines value `id` (unless void) from the values `ops`. */
  datatype Instr = Instr(id: nat, isPhi: bool, isVoid: bool, ops: seq<nat>)

  /** The original value `id`, or its clone made in round 2, 3, ... */
  datatype Value = Orig(id: nat) | Clone(id: nat, round: nat)

  /** The instructions of the loop blocks, in topological order, header first. */
  type Loop = seq<seq<Instr>>

  ghost predicate DefinedAt(loop: Loop, v: nat, b: nat, i: nat) {
    b < |loop| && i < |loop[b]| && loop[b][i].id == v && !loop[b][i].isVoid
  }

  /** Every value has one definition. */
  ghost predicate SSA(loop: Loop) {
    && (forall v: nat, b: nat, i: nat, c: nat, j: nat :: DefinedAt(loop, v, b, i) && DefinedAt(loop, v, c, j) ==> b == c && i == j)
    && (forall b: nat, i: nat :: b < |loop| && i < |loop[b]| && loop[b][i].isPhi ==> !loop[b][i].isVoid)
  }

  ghost predicate Defined(loop: Loop, v: nat) {
    exists b: nat, i: nat :: DefinedAt(loop, v, b, i)
  }

  ghost predicate DefinedBefore(loop: Loop, v: nat, b: nat, i: nat) {
    exists c: nat, j: nat :: DefinedAt(loop, v, c, j) && (c < b || (c == b && j < i))
  }

  /** `v` is a phi of block `b` among its first `i` instructions. */
  ghost predicate PhiBefore(loop: Loop, v: nat, b: nat, i: nat)
    requires b < |loop| && i <= |loop[b]|
  {
    exists j: nat :: j < i && loop[b][j].id == v && loop[b][j].isPhi
  }

  /** The copy of `v` that belongs to the round before `u`. */
  function Previous(v: nat, u: nat): Value {
    if u <= 2 then Orig(v) else Clone(v, u - 1)
  }

  /** What operand `op` of instruction `i` of block `b` becomes in round `u`. */
  ghost function Resolved(loop: Loop, u: nat, b: nat, i: nat, op: nat): Value
    requires b < |loop| && i < |loop[b]|
  {
    if !Defined(loop, op) then Orig(op)
    else if loop[b][i].isPhi && op == loop[b][i].id then if u <= 3 then Orig(op) else Clone(op, u - 2)
    else if loop[b][i].isPhi && PhiBefore(loop, op, b, i) then Previous(op, u)
    else if DefinedBefore(loop, op, b, i) then Clone(op, u)
    else Previous(op, u)
  }

  ghost function ResolvedOps(loop: Loop, u: nat, b: nat, i: nat): seq<Value>
    requires b < |loop| && i < |loop[b]|
  {
    seq(|loop[b][i].ops|, j requires 0 <= j < |loop[b][i].ops| => Resolved(loop, u, b, i, loop[b][i].ops[j]))
  }

  /** The operands of a copy of block `b`. */
  ghost predicate BlockCopy(loop: Loop, u: nat, b: nat, copy: seq<seq<Value>>)
    requires b < |loop|
  {
    |copy| == |loop[b]| && forall i :: 0 <= i < |copy| ==> copy[i] == ResolvedOps(loop, u, b, i)
  }

  /** The operands of the copies of all blocks in one round. */
  ghost predicate RoundCopy(loop: Loop, u: nat, copy: seq<seq<seq<Value>>>) {
    |copy| == |loop| && forall b :: 0 <= b < |copy| ==> BlockCopy(loop, u, b, copy[b])
  }

  // ----- what this means for the loop ----------------------------------------

  /** An ordinary operand defined earlier in the body is read in the same iteration. */
  lemma OrdinaryReadsSameRound(loop: Loop, u: nat, b: nat, i: nat, op: nat)
    requires SSA(loop) && b < |loop| && i < |loop[b]| && DefinedBefore(loop, op, b, i)
    requires !loop[b][i].isPhi || !PhiBefore(loop, op, b, i)
    ensures Resolved(loop, u, b, i, op) == Clone(op, u)
  {
    var c: nat, j: nat :| DefinedAt(loop, op, c, j) && (c < b || (c == b && j < i));
    if loop[b][i].isPhi && op == loop[b][i].id {
      assert DefinedAt(loop, op, b, i);
    }
  }

  /** The phis of the header come first. */
  ghost predicate PhisFirst(block: seq<Instr>) {
    forall i, j :: 0 <= i < j < |block| && block[j].isPhi ==> block[i].isPhi
  }

  /** A header phi reads its in-loop operands from the previous iteration, whatever
      the order of the phis, unless it names itself. */
  lemma HeaderPhiReadsPreviousRound(loop: Loop, u: nat, i: nat, op: nat)
    requires SSA(loop) && |loop| > 0 && PhisFirst(loop[0]) && i < |loop[0]| && loop[0][i].isPhi
    requires Defined(loop, op) && op != loop[0][i].id
    ensures Resolved(loop, u, 0, i, op) == Previous(op, u)
  {
    if DefinedBefore(loop, op, 0, i) {
      var c: nat, j: nat :| DefinedAt(loop, op, c, j) && (c < 0 || (c == 0 && j < i));
      assert PhiBefore(loop, op, 0, i);
    }
  }

  /** A phi that names itself reads the previous iteration in round 2 only; later it
      lags one round behind. */
  lemma SelfPhiReadsPreviousRoundIff(loop: Loop, u: nat, b: nat, i: nat)
    requires SSA(loop) && b < |loop| && i < |loop[b]| && loop[b][i].isPhi && u >= 2
    ensures Resolved(loop, u, b, i, loop[b][i].id) == Previous(loop[b][i].id, u) <==> u == 2
    ensures u >= 3 ==> Resolved(loop, u, b, i, loop[b][i].id) == Previous(loop[b][i].id, u - 1)
  {
    assert DefinedAt(loop, loop[b][i].id, b, i);
  }

  // ----- the value map -------------------------------------------------------

  ghost function Clones(v: nat, n: nat): seq<Value> {
    seq(n, j requires 0 <= j < n => Clone(v, j + 2))
  }

  /** How often `v` has been cloned when round `u` reaches instruction `i` of block `b`. */
  ghost function Count(loop: Loop, v: nat, u: nat, b: nat, i: nat): nat
    requires u >= 2
  {
    if !Defined(loop, v) then 0 else if DefinedBefore(loop, v, b, i) then u - 1 else u - 2
  }

  /** The value map at that point: every cloned value with its clones, oldest first. */
  ghost predicate VmapAt(loop: Loop, vmap: map<nat, seq<Value>>, u: nat, b: nat, i: nat)
    requires u >= 2
  {
    && (forall v :: v in vmap ==> Count(loop, v, u, b, i) > 0 && vmap[v] == Clones(v, Count(loop, v, u, b, i)))
    && (forall v :: Count(loop, v, u, b, i) > 0 ==> v in vmap)
  }

  lemma DefinedStep(loop: Loop, v: nat, b: nat, i: nat)
    requires b < |loop| && i < |loop[b]|
    ensures DefinedBefore(loop, v, b, i + 1) <==> DefinedBefore(loop, v, b, i) || DefinedAt(loop, v, b, i)
  {
    if DefinedBefore(loop, v, b, i + 1) {
      var c: nat, j: nat :| DefinedAt(loop, v, c, j) && (c < b || (c == b && j < i + 1));
    }
    if DefinedAt(loop, v, b, i) {
      assert b == b && i < i + 1;
    }
  }

  lemma DefinedNextBlock(loop: Loop, v: nat, b: nat)
    requires b < |loop|
    ensures DefinedBefore(loop, v, b + 1, 0) <==> DefinedBefore(loop, v, b, |loop[b]|)
  {
    if DefinedBefore(loop, v, b + 1, 0) {
      var c: nat, j: nat :| DefinedAt(loop, v, c, j) && (c < b + 1 || (c == b + 1 && j < 0));
    }
  }

  /** After the last block, a round is complete and the next one can start. */
  lemma NextRound(loop: Loop, vmap: map<nat, seq<Value>>, u: nat)
    requires u >= 2 && VmapAt(loop, vmap, u, |loop|, 0)
    ensures VmapAt(loop, vmap, u + 1, 0, 0)
  {
    forall v
      ensures Count(loop, v, u + 1, 0, 0) == Count(loop, v, u, |loop|, 0)
    {
      if Defined(loop, v) {
        var b: nat, i: nat :| DefinedAt(loop, v, b, i);
        assert DefinedBefore(loop, v, |loop|, 0);
      }
    }
  }

  lemma NextBlock(loop: Loop, vmap: map<nat, seq<Value>>, u: nat, b: nat)
    requires u >= 2 && b < |loop| && VmapAt(loop, vmap, u, b, |loop[b]|)
    ensures VmapAt(loop, vmap, u, b + 1, 0)
  {
    forall v
      ensures Count(loop, v, u, b + 1, 0) == Count(loop, v, u, b, |loop[b]|)
    {
      DefinedNextBlock(loop, v, b);
    }
  }

  lemma NotBeforeItself(loop: Loop, v: nat, b: nat, i: nat)
    requires SSA(loop) && DefinedAt(loop, v, b, i)
    ensures !DefinedBefore(loop, v, b, i)
  {
  }

  /** Recording the clone of one instruction. */
  lemma RecordClone(loop: Loop, vmap: map<nat, seq<Value>>, u: nat, b: nat, i: nat)
    requires SSA(loop) && u >= 2 && b < |loop| && i < |loop[b]| && VmapAt(loop, vmap, u, b, i)
    ensures var v := loop[b][i].id;
      VmapAt(loop, if loop[b][i].isVoid then vmap else vmap[v := (if v in vmap then vmap[v] else []) + [Clone(v, u)]], u, b, i + 1)
  {
    var id := loop[b][i].id;
    forall v
      ensures Count(loop, v, u, b, i + 1) == Count(loop, v, u, b, i) + if v == id && !loop[b][i].isVoid then 1 else 0
    {
      DefinedStep(loop, v, b, i);
      if DefinedAt(loop, v, b, i) {
        NotBeforeItself(loop, v, b, i);
      }
    }
    if !loop[b][i].isVoid {
      var n := Count(loop, id, u, b, i);
      assert DefinedAt(loop, id, b, i);
      assert !DefinedBefore(loop, id, b, i) && n == u - 2;
      assert Clones(id, n) + [Clone(id, u)] == Clones(id, n + 1);
    }
  }

  /** The replacement that `rauw_op` picks is the resolved value. */
  lemma PickIsResolved(loop: Loop, vmap: map<nat, seq<Value>>, u: nat, b: nat, i: nat, op: nat)
    requires SSA(loop) && u >= 2 && b < |loop| && i < |loop[b]| && VmapAt(loop, vmap, u, b, i)
    ensures Resolved(loop, u, b, i, op) ==
      if op !in vmap then Orig(op)
      else if loop[b][i].isPhi && PhiBefore(loop, op, b, i + 1) then
        if |vmap[op]| >= 2 then vmap[op][|vmap[op]| - 2] else Orig(op)
      else if |vmap[op]| > 0 then vmap[op][|vmap[op]| - 1] else Orig(op)
  {
    var n := Count(loop, op, u, b, i);
    if loop[b][i].isPhi {
      if op == loop[b][i].id {
        assert DefinedAt(loop, op, b, i);
        NotBeforeItself(loop, op, b, i);
      } else if PhiBefore(loop, op, b, i + 1) {
        var j: nat :| j < i + 1 && loop[b][j].id == op && loop[b][j].isPhi;
        assert DefinedAt(loop, op, b, j);
        assert PhiBefore(loop, op, b, i) && DefinedBefore(loop, op, b, i);
      }
    }
  }

  class Cloner {
    /** Original value -> its clones, oldest first. */
    var vmap: map<nat, seq<Value>>

    constructor ()
      ensures vmap == map[]
    {
      vmap := map[];
    }

    /** `rauw_op` for an operand that is not an aggregate: the table of clones gives the
        copy that the operand stands for in round `u`. */
    method ResolveOp(loop: Loop, ghost u: nat, b: nat, i: nat, phis: set<nat>, op: nat) returns (v: Value)
      requires SSA(loop) && u >= 2 && b < |loop| && i < |loop[b]| && VmapAt(loop, vmap, u, b, i)
      requires forall v: nat :: v in phis <==> PhiBefore(loop, v, b, i + 1)
      ensures v == Resolved(loop, u, b, i, op)
    {
      PickIsResolved(loop, vmap, u, b, i, op);
      var isPhi := loop[b][i].isPhi;
      v := Orig(op);
      if op in vmap {
        var copies := vmap[op];
        if isPhi && op in phis {
          if |copies| >= 2 {
            v := copies[|copies| - 2];
          }
        } else {
          v := copies[|copies| - 1];
        }
      }
    }

    /** `cloneBB`: copies the instructions of block `b` in round `u`. */
    method CloneBlock(loop: Loop, u: nat, b: nat) returns (copy: seq<seq<Value>>)
      requires SSA(loop) && u >= 2 && b < |loop| && VmapAt(loop, vmap, u, b, 0)
      modifies this
      ensures VmapAt(loop, vmap, u, b + 1, 0)
      ensures BlockCopy(loop, u, b, copy)
    {
      var phis := {};
      copy := [];
      var i := 0;
      while i < |loop[b]|
        invariant i <= |loop[b]| && VmapAt(loop, vmap, u, b, i)
        invariant forall v: nat :: v in phis <==> PhiBefore(loop, v, b, i)
        invariant |copy| == i && forall j :: 0 <= j < i ==> copy[j] == ResolvedOps(loop, u, b, j)
      {
        var instr := loop[b][i];
        if instr.isPhi {
          phis := phis + {instr.id};
        }
        PhiStep(loop, b, i);
        var ops := CloneOps(loop, u, b, i, phis);
        copy := copy + [ops];
        RecordClone(loop, vmap, u, b, i);
        if !instr.isVoid {
          vmap := vmap[instr.id := (if instr.id in vmap then vmap[instr.id] else []) + [Clone(instr.id, u)]];
        }
        i := i + 1;
      }
      NextBlock(loop, vmap, u, b);
    }

    method CloneOps(loop: Loop, ghost u: nat, b: nat, i: nat, phis: set<nat>) returns (ops: seq<Value>)
      requires SSA(loop) && u >= 2 && b < |loop| && i < |loop[b]| && VmapAt(loop, vmap, u, b, i)
      requires forall v: nat :: v in phis <==> PhiBefore(loop, v, b, i + 1)
      ensures ops == ResolvedOps(loop, u, b, i)
    {
      ops := [];
      var j := 0;
      while j < |loop[b][i].ops|
        invariant j <= |loop[b][i].ops| && |ops| == j
        invariant forall l :: 0 <= l < j ==> ops[l] == Resolved(loop, u, b, i, loop[b][i].ops[l])
      {
        var op := loop[b][i].ops[j];
        var v := ResolveOp(loop, u, b, i, phis, op);
        ops := ops + [v];
        j := j + 1;
      }
    }

    /** One round: copies every block, in order. */
    method CloneRound(loop: Loop, u: nat) returns (copy: seq<seq<seq<Value>>>)
      requires SSA(loop) && u >= 2 && VmapAt(loop, vmap, u, 0, 0)
      modifies this
      ensures VmapAt(loop, vmap, u + 1, 0, 0)
      ensures RoundCopy(loop, u, copy)
    {
      copy := [];
      var b := 0;
      while b < |loop|
        invariant b <= |loop| && VmapAt(loop, vmap, u, b, 0) && |copy| == b
        invariant forall c :: 0 <= c < b ==> BlockCopy(loop, u, c, copy[c])
      {
        hide VmapAt, BlockCopy;
        var instrs := CloneBlock(loop, u, b);
        copy := copy + [instrs];
        b := b + 1;
      }
      NextRound(loop, vmap, u);
    }

    /** All rounds 2 .. k, then one more copy of the header of a loop with a body. */
    method CloneLoop(loop: Loop, k: nat) returns (copies: seq<seq<seq<seq<Value>>>>, exit: seq<seq<Value>>)
      requires SSA(loop) && |loop| > 0 && k >= 1 && vmap == map[]
      modifies this
      ensures |copies| == k - 1 && forall r :: 0 <= r < |copies| ==> RoundCopy(loop, r + 2, copies[r])
      ensures |loop| > 1 ==> BlockCopy(loop, k + 1, 0, exit)
    {
      copies, exit := [], [];
      var u := 2;
      EmptyVmap(loop);
      while u <= k
        invariant u == 2 || 2 < u <= k + 1
        invariant VmapAt(loop, vmap, u, 0, 0) && |copies| == u - 2
        invariant forall r :: 0 <= r < |copies| ==> RoundCopy(loop, r + 2, copies[r])
      {
        hide VmapAt, RoundCopy;
        var copy := CloneRound(loop, u);
        copies := copies + [copy];
        u := u + 1;
      }
      if |loop| > 1 {
        exit := CloneBlock(loop, u, 0);
      }
    }
  }

  lemma EmptyVmap(loop: Loop)
    ensures VmapAt(loop, map[], 2, 0, 0)
  {
    forall v
      ensures Count(loop, v, 2, 0, 0) == 0
    {
    }
  }

  lemma PhiStep(loop: Loop, b: nat, i: nat)
    requires b < |loop| && i < |loop[b]|
    ensures forall v: nat :: PhiBefore(loop, v, b, i + 1) <==>
      PhiBefore(loop, v, b, i) || (loop[b][i].isPhi && v == loop[b][i].id)
  {
    forall v: nat
      ensures PhiBefore(loop, v, b, i + 1) <==> PhiBefore(loop, v, b, i) || (loop[b][i].isPhi && v == loop[b][i].id)
    {
      if PhiBefore(loop, v, b, i + 1) {
        var j: nat :| j < i + 1 && loop[b][j].id == v && loop[b][j].isPhi;
      }
      if loop[b][i].isPhi && v == loop[b][i].id {
        assert i < i + 1;
      }
    }
  }
}
