/** The stack-effect table: how many operand-stack cells an instruction
    consumes, given the analyzer frame before it.

    `Simulate` is the table as `Interpreter.simulate` states it. `SimulateFixed` repairs
    its one misread cell (DUP2_X2 with a long or double on top), and
    `JvmsForm` is an independent reference: the forms of the pop/dup/swap
    instructions in chapter 6 of the Java Virtual Machine Specification. */
module StackEffect {
  import opened Opcodes
  import opened Results
  import opened Insns

  /** A pop-count table: instruction and frame before it to a count or a fault. */
  type PopCount = (Insn, Option<Frame>) -> Result<nat>

  /** The `k`-th cell from the top (k = 1 is the top cell), as read by
      `frame.getStack(frame.stackSize - k)`: a missing frame or a read below
      the bottom of the stack is a fault. */
  function CellFromTop(frame: Option<Frame>, k: nat): (r: Result<Cell>)
    requires 1 <= k
    ensures r.Ok? <==> frame.Some? && k <= |frame.value.stack|
    ensures r.Ok? ==> r.value == frame.value.stack[|frame.value.stack| - k]
    ensures r.Err? ==> r.error == if frame.None? then NullFrame else StackUnderflow(|frame.value.stack| - k)
  {
    match frame
    case None => Err(NullFrame)
    case Some(f) =>
      if k <= |f.stack| then Ok(f.stack[|f.stack| - k]) else Err(StackUnderflow(|f.stack| - k))
  }

  /** The width of the `k`-th cell from the top: 1 exactly where the forms of
      the pop/dup instructions see a category-1 value, 2 exactly where they
      see a category-2 value. */
  function WidthFromTop(frame: Option<Frame>, k: nat): (r: Result<Width>)
    requires 1 <= k
    ensures r == Ok(1) <==> frame.Some? && Cat1(frame.value.stack, k)
    ensures r == Ok(2) <==> frame.Some? && Cat2(frame.value.stack, k)
    ensures r.Ok? <==> frame.Some? && k <= |frame.value.stack|
    ensures r.Ok? ==> r.value == frame.value.stack[|frame.value.stack| - k].size
    ensures r.Err? ==> r.error == if frame.None? then NullFrame else StackUnderflow(|frame.value.stack| - k)
  {
    var cell :- CellFromTop(frame, k);
    Ok(cell.size)
  }

  /** DUP2_X2 as `Interpreter.simulate` decides it: the width of the top cell and of the
      cell three below the top. */
  function Dup2X2(frame: Option<Frame>): Result<nat> {
    var top :- WidthFromTop(frame, 1);
    if top == 1 then
      var third :- WidthFromTop(frame, 3);
      if third == 1 then Ok(4) else Ok(3)
    else
      var third :- WidthFromTop(frame, 3);
      if third == 1 then Ok(3) else Ok(2)
  }

  /** DUP2_X2 with the second cell read when the top cell is wide, as the
      instruction's forms require. */
  function Dup2X2Fixed(frame: Option<Frame>): Result<nat> {
    var top :- WidthFromTop(frame, 1);
    if top == 1 then
      var third :- WidthFromTop(frame, 3);
      if third == 1 then Ok(4) else Ok(3)
    else
      var second :- WidthFromTop(frame, 2);
      if second == 1 then Ok(3) else Ok(2)
  }

  /** The group of instructions without operands. */
  function SimulateInsn(op: int, frame: Option<Frame>): Result<nat> {
    if op == NOP then Ok(0)
    else if IsConstant(op) then Ok(0)
    else if IsArrayLoad(op) then Ok(2)
    else if IsArrayStore(op) then Ok(3)
    else if op == POP then Ok(1)
    else if op == POP2 then
      (var w :- WidthFromTop(frame, 1); Ok(if w == 1 then 2 else 1))
    else if op == DUP then Ok(1)
    else if op == DUP_X1 then Ok(2)
    else if op == DUP_X2 then
      (var w :- WidthFromTop(frame, 2); Ok(if w == 1 then 3 else 2))
    else if op == DUP2 then
      (var w :- WidthFromTop(frame, 1); Ok(if w == 1 then 2 else 1))
    else if op == DUP2_X1 then
      (var w :- WidthFromTop(frame, 1); Ok(if w == 1 then 3 else 2))
    else if op == DUP2_X2 then Dup2X2(frame)
    else if op == SWAP then Ok(2)
    else if IsArithmetic(op) then Ok(2)
    else if IsNegation(op) then Ok(1)
    else if IsBitwise(op) then Ok(2)
    else if IsConversion(op) then Ok(1)
    else if IsComparison(op) then Ok(2)
    else if IsValueReturn(op) then Ok(1)
    else if op == RETURN then Ok(0)
    else if op == ARRAYLENGTH then Ok(1)
    else if op == ATHROW then Ok(1)
    else if IsMonitor(op) then Ok(1)
    else Err(UnknownOpcode(INSN, op))
  }

  /** The number of stack cells `insn` consumes, as `Interpreter.simulate` gives it.
      Only the width-dependent pop/dup instructions look at the frame; an
      opcode its node group does not list is a fault, never a default count. */
  function Simulate(insn: Insn, frame: Option<Frame>): (r: Result<nat>)
    ensures r.Ok? && insn.Plain? && IsStackOp(insn.op) ==> 1 <= r.value <= 4
    ensures r.Err? && !(insn.Plain? && IsWidthDependent(insn.op)) ==>
              r.error == UnknownOpcode(insn.NodeType(), insn.Opcode())
              || r.error == UnknownNodeType(insn.NodeType(), insn.Opcode())
    ensures r.Err? && (r.error.UnknownOpcode? || r.error.UnknownNodeType?) ==>
              r.error.nodeType == insn.NodeType() && r.error.opcode == insn.Opcode()
  {
    match insn
    case Plain(op) => SimulateInsn(op, frame)
    case IntInsn(op, _) =>
      if op == BIPUSH || op == SIPUSH then Ok(0)
      else if op == NEWARRAY then Ok(1)
      else Err(UnknownOpcode(INT_INSN, op))
    case VarInsn(op, _) =>
      if IsLocalLoadOpcode(op) then Ok(0)
      else if IsLocalStoreOpcode(op) then Ok(1)
      else if op == RET then Ok(0)
      else Err(UnknownOpcode(VAR_INSN, op))
    case TypeInsn(op, _) =>
      if op == NEW then Ok(0)
      else if op == ANEWARRAY then Ok(1)
      else if op == CHECKCAST || op == INSTANCEOF then Ok(1)
      else Err(UnknownOpcode(TYPE_INSN, op))
    case FieldInsn(op, _, _, _) =>
      if op == GETSTATIC then Ok(0)
      else if op == PUTSTATIC then Ok(1)
      else if op == GETFIELD then Ok(1)
      else if op == PUTFIELD then Ok(2)
      else Err(UnknownOpcode(FIELD_INSN, op))
    case MethodInsn(op, _, _, _, argCount) =>
      Ok(argCount + if op != INVOKESTATIC then 1 else 0)
    case InvokeDynamicInsn(_, _, argCount) => Ok(argCount)
    case JumpInsn(op, _) =>
      if IFEQ <= op <= IFLE then Ok(1)
      else if IsBinaryBranch(op) then Ok(2)
      else if op == GOTO then Ok(0)
      else if op == JSR then Ok(0)
      else if op == IFNULL || op == IFNONNULL then Ok(1)
      else Err(UnknownOpcode(JUMP_INSN, op))
    case LabelNode => Ok(0)
    case LdcInsn => Ok(0)
    case IincInsn(_, _) => Ok(0)
    case TableSwitchInsn => Ok(1)
    case LookupSwitchInsn => Ok(1)
    case MultiANewArrayInsn(_, dims) => Ok(dims)
    case FrameNode => Ok(0)
    case LineNumberNode(_) => Ok(0)
    case ForeignNode(t, op) => Err(UnknownNodeType(t, op))
  }

  /** The table with DUP2_X2 repaired; every other instruction as `Simulate`. */
  function SimulateFixed(insn: Insn, frame: Option<Frame>): (r: Result<nat>)
    ensures insn != Plain(DUP2_X2) ==> r == Simulate(insn, frame)
    ensures r.Ok? && insn.Plain? && IsStackOp(insn.op) ==> 1 <= r.value <= 4
  {
    if insn == Plain(DUP2_X2) then Dup2X2Fixed(frame) else Simulate(insn, frame)
  }

  // ---- the reference: forms of the pop/dup/swap instructions -----------------

  /** The `k`-th cell from the top exists and holds a category-1 value. */
  predicate Cat1(stack: seq<Cell>, k: nat) {
    1 <= k <= |stack| && stack[|stack| - k].size == 1
  }

  /** The `k`-th cell from the top exists and holds a category-2 value. */
  predicate Cat2(stack: seq<Cell>, k: nat) {
    1 <= k <= |stack| && stack[|stack| - k].size == 2
  }

  /** The number of cells a pop/dup/swap instruction consumes under the form
      of the Java Virtual Machine Specification that `stack` matches, or
      `None` when no form matches (the instruction would not type-check). */
  function JvmsForm(op: int, stack: seq<Cell>): Option<nat> {
    if op == POP then
      if Cat1(stack, 1) then Some(1) else None
    else if op == POP2 then
      if Cat1(stack, 1) && Cat1(stack, 2) then Some(2)
      else if Cat2(stack, 1) then Some(1) else None
    else if op == DUP then
      if Cat1(stack, 1) then Some(1) else None
    else if op == DUP_X1 then
      if Cat1(stack, 1) && Cat1(stack, 2) then Some(2) else None
    else if op == DUP_X2 then
      if Cat1(stack, 1) && Cat1(stack, 2) && Cat1(stack, 3) then Some(3)
      else if Cat1(stack, 1) && Cat2(stack, 2) then Some(2) else None
    else if op == DUP2 then
      if Cat1(stack, 1) && Cat1(stack, 2) then Some(2)
      else if Cat2(stack, 1) then Some(1) else None
    else if op == DUP2_X1 then
      if Cat1(stack, 1) && Cat1(stack, 2) && Cat1(stack, 3) then Some(3)
      else if Cat2(stack, 1) && Cat1(stack, 2) then Some(2) else None
    else if op == DUP2_X2 then
      if Cat1(stack, 1) && Cat1(stack, 2) && Cat1(stack, 3) && Cat1(stack, 4) then Some(4)
      else if Cat2(stack, 1) && Cat1(stack, 2) && Cat1(stack, 3) then Some(3)
      else if Cat1(stack, 1) && Cat1(stack, 2) && Cat2(stack, 3) then Some(3)
      else if Cat2(stack, 1) && Cat2(stack, 2) then Some(2) else None
    else if op == SWAP then
      if Cat1(stack, 1) && Cat1(stack, 2) then Some(2) else None
    else None
  }

  // ---- properties of the table -----------------------------------------------

  /** Instructions without operands that consume nothing, whatever the frame. */
  lemma NullaryCounts(op: int, f: Option<Frame>)
    requires op == NOP || IsConstant(op) || op == RETURN
    ensures Simulate(Plain(op), f) == Ok(0)
  {
  }

  /** Instructions without operands that consume one cell, whatever the frame. */
  lemma UnaryCounts(op: int, f: Option<Frame>)
    requires op == POP || op == DUP || op == ARRAYLENGTH || op == ATHROW || IsNegation(op) || IsConversion(op)
             || IsValueReturn(op) || IsMonitor(op)
    ensures Simulate(Plain(op), f) == Ok(1)
  {
  }

  /** Instructions without operands that consume two or three cells,
      whatever the frame. */
  lemma BinaryCounts(op: int, f: Option<Frame>)
    ensures (|| op == DUP_X1 || op == SWAP || IsArrayLoad(op) || IsArithmetic(op) || IsBitwise(op)
             || IsComparison(op)) ==> Simulate(Plain(op), f) == Ok(2)
    ensures IsArrayStore(op) ==> Simulate(Plain(op), f) == Ok(3)
  {
  }

  /** Counts of the instructions with operands: fixed per opcode, or taken
      from the argument count or the number of dimensions. */
  lemma OperandCounts()
    ensures forall v, f :: Simulate(IntInsn(BIPUSH, v), f) == Ok(0) && Simulate(IntInsn(SIPUSH, v), f) == Ok(0)
    ensures forall v, f :: Simulate(IntInsn(NEWARRAY, v), f) == Ok(1)
    ensures forall op, s, f :: IsLocalLoadOpcode(op) ==> Simulate(VarInsn(op, s), f) == Ok(0)
    ensures forall op, s, f :: IsLocalStoreOpcode(op) ==> Simulate(VarInsn(op, s), f) == Ok(1)
    ensures forall s, f :: Simulate(VarInsn(RET, s), f) == Ok(0)
    ensures forall d, f :: Simulate(TypeInsn(NEW, d), f) == Ok(0)
    ensures forall op, d, f :: (op == ANEWARRAY || op == CHECKCAST || op == INSTANCEOF) ==> Simulate(TypeInsn(op, d), f) == Ok(1)
    ensures forall o, n, d, f :: Simulate(FieldInsn(GETSTATIC, o, n, d), f) == Ok(0)
    ensures forall o, n, d, f :: Simulate(FieldInsn(PUTSTATIC, o, n, d), f) == Ok(1)
    ensures forall o, n, d, f :: Simulate(FieldInsn(GETFIELD, o, n, d), f) == Ok(1)
    ensures forall o, n, d, f :: Simulate(FieldInsn(PUTFIELD, o, n, d), f) == Ok(2)
    ensures forall op, o, n, d, k: nat, f :: op != INVOKESTATIC ==> Simulate(MethodInsn(op, o, n, d, k), f) == Ok(k + 1)
    ensures forall o, n, d, k: nat, f :: Simulate(MethodInsn(INVOKESTATIC, o, n, d, k), f) == Ok(k)
    ensures forall n, d, k: nat, f :: Simulate(InvokeDynamicInsn(n, d, k), f) == Ok(k)
    ensures forall op, t, f :: IsUnaryBranch(op) ==> Simulate(JumpInsn(op, t), f) == Ok(1)
    ensures forall op, t, f :: IsBinaryBranch(op) ==> Simulate(JumpInsn(op, t), f) == Ok(2)
    ensures forall op, t, f :: (op == GOTO || op == JSR) ==> Simulate(JumpInsn(op, t), f) == Ok(0)
    ensures forall f :: Simulate(LabelNode, f) == Ok(0) && Simulate(LdcInsn, f) == Ok(0)
    ensures forall f :: Simulate(FrameNode, f) == Ok(0)
    ensures forall l, f :: Simulate(LineNumberNode(l), f) == Ok(0)
    ensures forall s, i, f :: Simulate(IincInsn(s, i), f) == Ok(0)
    ensures forall f :: Simulate(TableSwitchInsn, f) == Ok(1) && Simulate(LookupSwitchInsn, f) == Ok(1)
    ensures forall d, k: nat, f :: Simulate(MultiANewArrayInsn(d, k), f) == Ok(k)
  {
  }

  /** The width-dependent counts, case by case, on a frame deep enough for
      the cells `Interpreter.simulate` reads. */
  lemma WidthDependentCounts(f: Frame)
    ensures |f.stack| >= 1 ==>
              var top := f.stack[|f.stack| - 1].size;
              && Simulate(Plain(POP2), Some(f)) == Ok(if top == 1 then 2 else 1)
              && Simulate(Plain(DUP2), Some(f)) == Ok(if top == 1 then 2 else 1)
              && Simulate(Plain(DUP2_X1), Some(f)) == Ok(if top == 1 then 3 else 2)
    ensures |f.stack| >= 2 ==>
              Simulate(Plain(DUP_X2), Some(f)) == Ok(if f.stack[|f.stack| - 2].size == 1 then 3 else 2)
    ensures |f.stack| >= 3 ==>
              var top, third := f.stack[|f.stack| - 1].size, f.stack[|f.stack| - 3].size;
              Simulate(Plain(DUP2_X2), Some(f)) ==
                Ok(if top == 1 && third == 1 then 4
                   else if top == 1 then 3
                   else if third == 1 then 3
                   else 2)
  {
  }

  /** The width-dependent instructions fail exactly when the frame is missing
      or too shallow for the cells they read. */
  lemma WidthReadFaults(op: int, frame: Option<Frame>)
    requires IsWidthDependent(op)
    ensures var need := if op == DUP2_X2 then 3 else if op == DUP_X2 then 2 else 1;
            Simulate(Plain(op), frame).Err? <==> frame.None? || |frame.value.stack| < need
    ensures frame.None? ==> Simulate(Plain(op), frame) == Err(NullFrame)
  {
  }

  /** An opcode outside the table of its node group is a fault, never a
      default count; every listed opcode of the group gets a count. */
  lemma UnknownInsnOpcodesRejected(op: int, f: Option<Frame>)
    ensures !IsInsnOpcode(op) ==> Simulate(Plain(op), f) == Err(UnknownOpcode(INSN, op))
    ensures IsInsnOpcode(op) && !IsWidthDependent(op) ==> Simulate(Plain(op), f).Ok?
  {
  }

  /** The same for the node groups with operands, and for foreign node types. */
  lemma UnknownOperandOpcodesRejected(op: int, f: Option<Frame>)
    ensures forall v :: Simulate(IntInsn(op, v), f).Err? <==> !IsIntOpcode(op)
    ensures forall s :: Simulate(VarInsn(op, s), f).Err? <==> !IsVarOpcode(op)
    ensures forall d :: Simulate(TypeInsn(op, d), f).Err? <==> !IsTypeOpcode(op)
    ensures forall o, n, d :: Simulate(FieldInsn(op, o, n, d), f).Err? <==> !IsFieldOpcode(op)
    ensures forall t :: Simulate(JumpInsn(op, t), f).Err? <==> !IsJumpOpcode(op)
    ensures forall t: ForeignType :: Simulate(ForeignNode(t, op), f) == Err(UnknownNodeType(t, op))
  {
  }

  /** Only the width-dependent instructions depend on the frame at all. */
  lemma FrameReadOnlyForWidths(insn: Insn, f1: Option<Frame>, f2: Option<Frame>)
    requires !(insn.Plain? && IsWidthDependent(insn.op))
    ensures Simulate(insn, f1) == Simulate(insn, f2)
  {
  }

  /** The repaired table consumes exactly the cells of the form the stack
      matches, for every pop/dup/swap instruction. */
  lemma SimulateFixedFollowsForms(op: int, f: Frame)
    requires IsStackOp(op)
    requires JvmsForm(op, f.stack).Some?
    ensures SimulateFixed(Plain(op), Some(f)) == Ok(JvmsForm(op, f.stack).value)
  {
  }

  /** The table as written agrees with the forms everywhere except the
      fourth form of DUP2_X2, two category-2 values. */
  lemma SimulateFollowsFormsExceptWideDup2X2(op: int, f: Frame)
    requires IsStackOp(op)
    requires JvmsForm(op, f.stack).Some?
    requires !(op == DUP2_X2 && Cat2(f.stack, 1) && Cat2(f.stack, 2))
    ensures Simulate(Plain(op), Some(f)) == Ok(JvmsForm(op, f.stack).value)
  {
  }

  /** DUP2_X2 in its fourth form (two category-2 values): the table as written
      reads the cell three below the top, so it consumes three cells when a
      category-1 value lies under the pair, and fails when nothing does. */
  lemma Dup2X2MisreadsFourthForm()
    ensures var s := [Cell(1, {0}), Cell(2, {1}), Cell(2, {2})];
            && JvmsForm(DUP2_X2, s) == Some(2)
            && Simulate(Plain(DUP2_X2), Some(Frame(s, []))) == Ok(3)
            && SimulateFixed(Plain(DUP2_X2), Some(Frame(s, []))) == Ok(2)
    ensures var s := [Cell(2, {0}), Cell(2, {1})];
            && JvmsForm(DUP2_X2, s) == Some(2)
            && Simulate(Plain(DUP2_X2), Some(Frame(s, []))) == Err(StackUnderflow(-1))
            && SimulateFixed(Plain(DUP2_X2), Some(Frame(s, []))) == Ok(2)
  {
  }
}
