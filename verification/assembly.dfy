/** Turning the marked positions into the returned instruction list. */
module Assembly {
  import opened Opcodes
  import opened Insns

  /** `BitSet.nextSetBit` on a bit set whose members lie below `size`: the
      least member at or after `from`, or -1 when there is none. */
  function NextSetBit(bits: set<nat>, from: nat, size: nat): (r: int)
    requires forall b :: b in bits ==> b < size
    decreases size - from
    ensures r == -1 <==> forall b :: b in bits ==> b < from
    ensures r != -1 ==> from <= r < size && r in bits && forall b :: b in bits && from <= b ==> r <= b
  {
    if from >= size then -1
    else if from in bits then from
    else NextSetBit(bits, from + 1, size)
  }

  /** The assembly loop from `initPos` on, as written: while some marked
      position lies at or after `initPos`, it appends `insns[initPos]` and
      steps to the next position, marked or not. */
  function AssembleFrom(insns: seq<Insn>, bits: set<nat>, initPos: nat): (r: seq<Insn>)
    requires forall b :: b in bits ==> b < |insns|
    requires initPos <= |insns|
    decreases |insns| - initPos
    ensures initPos + |r| <= |insns|
    ensures r == insns[initPos..initPos + |r|]
    ensures forall b :: b in bits ==> b < initPos + |r|
    ensures |r| > 0 ==> initPos + |r| - 1 in bits
  {
    if NextSetBit(bits, initPos, |insns|) == -1 then []
    else [insns[initPos]] + AssembleFrom(insns, bits, initPos + 1)
  }

  /** The returned list as written: every instruction from the first up to the
      last marked one, in program order, marked or not. */
  function AssembleAsWritten(insns: seq<Insn>, bits: set<nat>): (r: seq<Insn>)
    requires forall b :: b in bits ==> b < |insns|
    ensures |r| <= |insns| && r == insns[..|r|]
    ensures forall b :: b in bits ==> b < |r| && r[b] == insns[b]
    ensures r == [] <==> bits == {}
    ensures r != [] ==> |r| - 1 in bits
  {
    AssembleFrom(insns, bits, 0)
  }

  /** The marked positions at or after `from`, ascending: what the loop
      visits when it jumps to `nextSetBit(initPos)` before appending. */
  function MarkedFrom(bits: set<nat>, from: nat, size: nat): (ps: seq<nat>)
    requires forall b :: b in bits ==> b < size
    decreases size - from
    ensures forall x :: x in ps <==> x in bits && from <= x
    ensures forall i :: 0 <= i < |ps| ==> ps[i] < size
    ensures forall i, j :: 0 <= i < j < |ps| ==> ps[i] < ps[j]
  {
    var next := NextSetBit(bits, from, size);
    if next == -1 then [] else [next] + MarkedFrom(bits, next + 1, size)
  }

  /** A strictly ascending sequence has as many elements as the set it lists. */
  lemma {:induction false} AscendingCardinality(ps: seq<nat>, bits: set<nat>)
    requires forall i, j :: 0 <= i < j < |ps| ==> ps[i] < ps[j]
    requires forall x :: x in ps <==> x in bits
    ensures |ps| == |bits|
  {
    if ps != [] {
      var rest := bits - {ps[0]};
      forall x | x in ps[1..] ensures x in rest {
        var i :| 1 <= i < |ps| && ps[i] == x;
      }
      AscendingCardinality(ps[1..], rest);
    }
  }

  /** The list the loop evidently means to return: exactly the marked
      instructions, once each, in program order. */
  function AssembleMarked(insns: seq<Insn>, bits: set<nat>): (r: seq<Insn>)
    requires forall b :: b in bits ==> b < |insns|
    ensures |r| == |bits|
    ensures var ps := MarkedFrom(bits, 0, |insns|);
            |ps| == |r| && forall k :: 0 <= k < |r| ==> r[k] == insns[ps[k]]
  {
    var ps := MarkedFrom(bits, 0, |insns|);
    AscendingCardinality(ps, bits);
    seq(|ps|, k requires 0 <= k < |ps| => insns[ps[k]])
  }

  /** In any three-instruction method with positions 1 and 2 marked, the
      loop as written returns all three instructions. */
  lemma AssembleOneTwo(insns: seq<Insn>)
    requires |insns| == 3
    ensures AssembleAsWritten(insns, {1, 2}) == insns
  {
    var bits: set<nat> := {1, 2};
    assert NextSetBit(bits, 3, 3) == -1;
    assert NextSetBit(bits, 2, 3) == 2;
    assert NextSetBit(bits, 1, 3) == 1;
    assert NextSetBit(bits, 0, 3) == 1;
    assert AssembleFrom(insns, bits, 2) == [insns[2]];
    assert AssembleFrom(insns, bits, 1) == insns[1..];
  }

  /** As written, the list also carries unmarked instructions: with the
      label at position 0 unmarked, it is still returned. */
  lemma AssemblyKeepsUnmarkedPrefix()
    ensures var insns := [LabelNode, Plain(ICONST_1), FieldInsn(PUTSTATIC, "A", "f", "Ljava/lang/Object;")];
            AssembleAsWritten(insns, {1, 2}) == insns
  {
    AssembleOneTwo([LabelNode, Plain(ICONST_1), FieldInsn(PUTSTATIC, "A", "f", "Ljava/lang/Object;")]);
  }

  /** Marking positions 1 and 2 of three, the walk visits exactly 1 then 2. */
  lemma MarkedOneTwo()
    ensures MarkedFrom({1, 2}, 0, 3) == [1, 2]
  {
    var bits: set<nat> := {1, 2};
    assert NextSetBit(bits, 3, 3) == -1;
    assert MarkedFrom(bits, 3, 3) == [];
    assert NextSetBit(bits, 2, 3) == 2;
    assert MarkedFrom(bits, 2, 3) == [2];
    assert NextSetBit(bits, 1, 3) == 1;
    assert NextSetBit(bits, 0, 3) == 1;
  }

  /** The intended list drops the unmarked label. */
  lemma AssemblyMarkedDropsUnmarked()
    ensures var insns := [LabelNode, Plain(ICONST_1), FieldInsn(PUTSTATIC, "A", "f", "Ljava/lang/Object;")];
            AssembleMarked(insns, {1, 2}) == insns[1..]
  {
    var insns := [LabelNode, Plain(ICONST_1), FieldInsn(PUTSTATIC, "A", "f", "Ljava/lang/Object;")];
    MarkedOneTwo();
    var r := AssembleMarked(insns, {1, 2});
    assert |r| == 2 && r[0] == insns[1] && r[1] == insns[2];
  }
}
