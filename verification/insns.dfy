/** The instruction tree of one method and the analyzer frames that annotate it.

    An instruction is one of ASM's node classes; its opcode is kept as a plain
    integer so that an opcode a node class does not expect can be written down
    (the stack-effect table rejects such nodes). Instructions are identified by
    their position in the method, which is what `InsnList.indexOf` returns. */
module Insns {
  import opened Opcodes
  import opened Results

  datatype Insn =
    | Plain(op: int)                                        // InsnNode: no operand
    | IntInsn(op: int, operand: int)                        // BIPUSH, SIPUSH, NEWARRAY
    | VarInsn(op: int, slot: nat)                           // local loads and stores, RET
    | TypeInsn(op: int, desc: string)                       // NEW, ANEWARRAY, CHECKCAST, INSTANCEOF
    | FieldInsn(op: int, owner: string, name: string, desc: string)
    | MethodInsn(op: int, owner: string, name: string, desc: string, argCount: nat)
      // argCount: the length of the argument list of `desc`
    | InvokeDynamicInsn(name: string, desc: string, argCount: nat)
    | JumpInsn(op: int, target: nat)
    | LabelNode
    | LdcInsn
    | IincInsn(slot: nat, increment: int)
    | TableSwitchInsn
    | LookupSwitchInsn
    | MultiANewArrayInsn(desc: string, dims: nat)
    | FrameNode
    | LineNumberNode(line: int)
    | ForeignNode(nodeType: ForeignType, op: int)
      // a node class outside ASM's sixteen, reporting a type code of its own
  {
    /** The opcode ASM reports for this node. */
    function Opcode(): int {
      match this
      case Plain(op) => op
      case IntInsn(op, _) => op
      case VarInsn(op, _) => op
      case TypeInsn(op, _) => op
      case FieldInsn(op, _, _, _) => op
      case MethodInsn(op, _, _, _, _) => op
      case InvokeDynamicInsn(_, _, _) => INVOKEDYNAMIC
      case JumpInsn(op, _) => op
      case LabelNode => NO_OPCODE
      case LdcInsn => LDC
      case IincInsn(_, _) => IINC
      case TableSwitchInsn => TABLESWITCH
      case LookupSwitchInsn => LOOKUPSWITCH
      case MultiANewArrayInsn(_, _) => MULTIANEWARRAY
      case FrameNode => NO_OPCODE
      case LineNumberNode(_) => NO_OPCODE
      case ForeignNode(_, op) => op
    }

    /** The node-type code ASM reports for this node. */
    function NodeType(): int {
      match this
      case Plain(_) => INSN
      case IntInsn(_, _) => INT_INSN
      case VarInsn(_, _) => VAR_INSN
      case TypeInsn(_, _) => TYPE_INSN
      case FieldInsn(_, _, _, _) => FIELD_INSN
      case MethodInsn(_, _, _, _, _) => METHOD_INSN
      case InvokeDynamicInsn(_, _, _) => INVOKE_DYNAMIC_INSN
      case JumpInsn(_, _) => JUMP_INSN
      case LabelNode => LABEL
      case LdcInsn => LDC_INSN
      case IincInsn(_, _) => IINC_INSN
      case TableSwitchInsn => TABLESWITCH_INSN
      case LookupSwitchInsn => LOOKUPSWITCH_INSN
      case MultiANewArrayInsn(_, _) => MULTIANEWARRAY_INSN
      case FrameNode => FRAME
      case LineNumberNode(_) => LINE
      case ForeignNode(t, _) => t
    }

    /** A load of a local variable (the slicer follows the local's producers). */
    predicate IsLocalLoad() {
      VarInsn? && ILOAD <= op <= ALOAD
    }
  }

  /** A node-type code that none of ASM's sixteen node classes reports. */
  type ForeignType = t: int | !(INSN <= t <= LINE) witness -1

  /** Width of a value: 1 for category-1 values, 2 for long and double. */
  type Width = w: int | w == 1 || w == 2 witness 1

  /** One operand-stack slot: its width and the positions of every
      instruction that may have produced it. */
  datatype Cell = Cell(size: Width, origins: set<nat>)

  /** The abstract frame before an instruction: the stack (top last) and, per
      local slot, the positions that may have written it. */
  datatype Frame = Frame(stack: seq<Cell>, locals: seq<set<nat>>)

  /** A method's instructions together with the analyzer's frame before each
      of them; `None` is the null frame ASM leaves at unreachable code. */
  datatype MethodBody = MethodBody(insns: seq<Insn>, frames: seq<Option<Frame>>)

  /** Every origin recorded in `f` is a position below `n`. */
  predicate FrameFits(f: Frame, n: nat) {
    && (forall k :: 0 <= k < |f.stack| ==> forall o :: o in f.stack[k].origins ==> o < n)
    && (forall k :: 0 <= k < |f.locals| ==> forall o :: o in f.locals[k] ==> o < n)
  }

  /** What the analyzer guarantees: one frame slot per instruction, and every
      origin it records is an instruction of the same method. */
  predicate WellFormed(m: MethodBody) {
    && |m.frames| == |m.insns|
    && forall p :: 0 <= p < |m.frames| && m.frames[p].Some? ==> FrameFits(m.frames[p].value, |m.insns|)
  }

  type Analyzed = m: MethodBody | WellFormed(m) witness MethodBody([], [])

  /** The positions of a method with `n` instructions. */
  function Positions(n: nat): (ps: set<nat>)
    ensures forall p: nat :: p in ps <==> p < n
  {
    if n == 0 then {} else Positions(n - 1) + {n - 1}
  }
}
