/** JVM opcode numbers (chapter 6 of the Java Virtual Machine Specification),
    the node-type codes of ASM's instruction tree, and the opcode families the
    stack-effect table groups together. */
module Opcodes {

  // ---- opcodes -------------------------------------------------------------

  const NOP := 0
  const ACONST_NULL := 1
  const ICONST_M1 := 2
  const ICONST_0 := 3
  const ICONST_1 := 4
  const ICONST_2 := 5
  const ICONST_3 := 6
  const ICONST_4 := 7
  const ICONST_5 := 8
  const LCONST_0 := 9
  const LCONST_1 := 10
  const FCONST_0 := 11
  const FCONST_1 := 12
  const FCONST_2 := 13
  const DCONST_0 := 14
  const DCONST_1 := 15
  const BIPUSH := 16
  const SIPUSH := 17
  const LDC := 18
  const ILOAD := 21
  const LLOAD := 22
  const FLOAD := 23
  const DLOAD := 24
  const ALOAD := 25
  const IALOAD := 46
  const LALOAD := 47
  const FALOAD := 48
  const DALOAD := 49
  const AALOAD := 50
  const BALOAD := 51
  const CALOAD := 52
  const SALOAD := 53
  const ISTORE := 54
  const LSTORE := 55
  const FSTORE := 56
  const DSTORE := 57
  const ASTORE := 58
  const IASTORE := 79
  const LASTORE := 80
  const FASTORE := 81
  const DASTORE := 82
  const AASTORE := 83
  const BASTORE := 84
  const CASTORE := 85
  const SASTORE := 86
  const POP := 87
  const POP2 := 88
  const DUP := 89
  const DUP_X1 := 90
  const DUP_X2 := 91
  const DUP2 := 92
  const DUP2_X1 := 93
  const DUP2_X2 := 94
  const SWAP := 95
  const IADD := 96
  const LADD := 97
  const FADD := 98
  const DADD := 99
  const ISUB := 100
  const LSUB := 101
  const FSUB := 102
  const DSUB := 103
  const IMUL := 104
  const LMUL := 105
  const FMUL := 106
  const DMUL := 107
  const IDIV := 108
  const LDIV := 109
  const FDIV := 110
  const DDIV := 111
  const IREM := 112
  const LREM := 113
  const FREM := 114
  const DREM := 115
  const INEG := 116
  const LNEG := 117
  const FNEG := 118
  const DNEG := 119
  const ISHL := 120
  const LSHL := 121
  const ISHR := 122
  const LSHR := 123
  const IUSHR := 124
  const LUSHR := 125
  const IAND := 126
  const LAND := 127
  const IOR := 128
  const LOR := 129
  const IXOR := 130
  const LXOR := 131
  const IINC := 132
  const I2L := 133
  const I2F := 134
  const I2D := 135
  const L2I := 136
  const L2F := 137
  const L2D := 138
  const F2I := 139
  const F2L := 140
  const F2D := 141
  const D2I := 142
  const D2L := 143
  const D2F := 144
  const I2B := 145
  const I2C := 146
  const I2S := 147
  const LCMP := 148
  const FCMPL := 149
  const FCMPG := 150
  const DCMPL := 151
  const DCMPG := 152
  const IFEQ := 153
  const IFNE := 154
  const IFLT := 155
  const IFGE := 156
  const IFGT := 157
  const IFLE := 158
  const IF_ICMPEQ := 159
  const IF_ICMPNE := 160
  const IF_ICMPLT := 161
  const IF_ICMPGE := 162
  const IF_ICMPGT := 163
  const IF_ICMPLE := 164
  const IF_ACMPEQ := 165
  const IF_ACMPNE := 166
  const GOTO := 167
  const JSR := 168
  const RET := 169
  const TABLESWITCH := 170
  const LOOKUPSWITCH := 171
  const IRETURN := 172
  const LRETURN := 173
  const FRETURN := 174
  const DRETURN := 175
  const ARETURN := 176
  const RETURN := 177
  const GETSTATIC := 178
  const PUTSTATIC := 179
  const GETFIELD := 180
  const PUTFIELD := 181
  const INVOKEVIRTUAL := 182
  const INVOKESPECIAL := 183
  const INVOKESTATIC := 184
  const INVOKEINTERFACE := 185
  const INVOKEDYNAMIC := 186
  const NEW := 187
  const NEWARRAY := 188
  const ANEWARRAY := 189
  const ARRAYLENGTH := 190
  const ATHROW := 191
  const CHECKCAST := 192
  const INSTANCEOF := 193
  const MONITORENTER := 194
  const MONITOREXIT := 195
  const MULTIANEWARRAY := 197
  const IFNULL := 198
  const IFNONNULL := 199

  /** ASM reports -1 as the opcode of labels, line numbers and frames. */
  const NO_OPCODE := -1

  // ---- ASM node types (AbstractInsnNode.getType) ---------------------------

  const INSN := 0
  const INT_INSN := 1
  const VAR_INSN := 2
  const TYPE_INSN := 3
  const FIELD_INSN := 4
  const METHOD_INSN := 5
  const INVOKE_DYNAMIC_INSN := 6
  const JUMP_INSN := 7
  const LABEL := 8
  const LDC_INSN := 9
  const IINC_INSN := 10
  const TABLESWITCH_INSN := 11
  const LOOKUPSWITCH_INSN := 12
  const MULTIANEWARRAY_INSN := 13
  const FRAME := 14
  const LINE := 15

  // ---- families of zero-operand instructions --------------------------------
  // Each family is a contiguous run of opcode numbers; the comment lists it.

  /** ACONST_NULL, ICONST_M1 .. ICONST_5, LCONST_0/1, FCONST_0/1/2, DCONST_0/1 */
  predicate IsConstant(op: int) { ACONST_NULL <= op <= DCONST_1 }
  /** IALOAD, LALOAD, FALOAD, DALOAD, AALOAD, BALOAD, CALOAD, SALOAD */
  predicate IsArrayLoad(op: int) { IALOAD <= op <= SALOAD }
  /** IASTORE, LASTORE, FASTORE, DASTORE, AASTORE, BASTORE, CASTORE, SASTORE */
  predicate IsArrayStore(op: int) { IASTORE <= op <= SASTORE }
  /** POP, POP2, DUP, DUP_X1, DUP_X2, DUP2, DUP2_X1, DUP2_X2, SWAP */
  predicate IsStackOp(op: int) { POP <= op <= SWAP }
  /** The stack operations whose count depends on the widths of stack cells. */
  predicate IsWidthDependent(op: int) {
    op == POP2 || op == DUP_X2 || op == DUP2 || op == DUP2_X1 || op == DUP2_X2
  }
  /** xADD, xSUB, xMUL, xDIV, xREM for x in I, L, F, D */
  predicate IsArithmetic(op: int) { IADD <= op <= DREM }
  /** INEG, LNEG, FNEG, DNEG */
  predicate IsNegation(op: int) { INEG <= op <= DNEG }
  /** ISHL, LSHL, ISHR, LSHR, IUSHR, LUSHR, IAND, LAND, IOR, LOR, IXOR, LXOR */
  predicate IsBitwise(op: int) { ISHL <= op <= LXOR }
  /** I2L, I2F, I2D, L2I, L2F, L2D, F2I, F2L, F2D, D2I, D2L, D2F, I2B, I2C, I2S */
  predicate IsConversion(op: int) { I2L <= op <= I2S }
  /** LCMP, FCMPL, FCMPG, DCMPL, DCMPG */
  predicate IsComparison(op: int) { LCMP <= op <= DCMPG }
  /** IRETURN, LRETURN, FRETURN, DRETURN, ARETURN */
  predicate IsValueReturn(op: int) { IRETURN <= op <= ARETURN }
  /** MONITORENTER, MONITOREXIT */
  predicate IsMonitor(op: int) { op == MONITORENTER || op == MONITOREXIT }

  /** Every opcode the zero-operand group of the table lists. */
  predicate IsInsnOpcode(op: int) {
    || op == NOP || IsConstant(op) || IsArrayLoad(op) || IsArrayStore(op) || IsStackOp(op)
    || IsArithmetic(op) || IsNegation(op) || IsBitwise(op) || IsConversion(op)
    || IsComparison(op) || IsValueReturn(op) || op == RETURN || op == ARRAYLENGTH
    || op == ATHROW || IsMonitor(op)
  }

  // ---- families of instructions with operands -------------------------------

  /** ILOAD, LLOAD, FLOAD, DLOAD, ALOAD */
  predicate IsLocalLoadOpcode(op: int) { ILOAD <= op <= ALOAD }
  /** ISTORE, LSTORE, FSTORE, DSTORE, ASTORE */
  predicate IsLocalStoreOpcode(op: int) { ISTORE <= op <= ASTORE }
  predicate IsVarOpcode(op: int) { IsLocalLoadOpcode(op) || IsLocalStoreOpcode(op) || op == RET }
  predicate IsIntOpcode(op: int) { op == BIPUSH || op == SIPUSH || op == NEWARRAY }
  predicate IsTypeOpcode(op: int) { op == NEW || op == ANEWARRAY || op == CHECKCAST || op == INSTANCEOF }
  predicate IsFieldOpcode(op: int) { GETSTATIC <= op <= PUTFIELD }
  /** IFEQ, IFNE, IFLT, IFGE, IFGT, IFLE, IFNULL, IFNONNULL */
  predicate IsUnaryBranch(op: int) { IFEQ <= op <= IFLE || op == IFNULL || op == IFNONNULL }
  /** IF_ICMPEQ .. IF_ICMPLE, IF_ACMPEQ, IF_ACMPNE */
  predicate IsBinaryBranch(op: int) { IF_ICMPEQ <= op <= IF_ACMPNE }
  predicate IsJumpOpcode(op: int) { IsUnaryBranch(op) || IsBinaryBranch(op) || op == GOTO || op == JSR }
}
