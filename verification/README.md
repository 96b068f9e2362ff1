# Field-initializer slicer, modelled in Dafny

This project models the backward slicer in `Interpreter` of the `asm`
library, together with the stack-effect table it relies on. Given a field,
the slicer works in four steps:

1. It finds the first instruction in the writer method that stores to the field.
2. It walks backwards over the abstract frames a source-tracking analysis
   computed. From each instruction it reaches:
   - the producers of the stack cells the instruction consumes;
   - the writers of the local a load reads;
   - for an allocation, the constructor call that initialises the object.
3. It marks every instruction it reaches.
4. It returns the initializer as a list of instructions.

Modules:

- `Results`: `Option`, `Result` and `Fault`. Each exception the slicer and
  the stack-effect table raise is a `Fault` variant. The two exceptions listed
  under "Left out" are not modelled.
- `Opcodes`: opcode numbers as in chapter 6 of the Java Virtual Machine
  Specification, ASM's node-type codes, and the opcode families of the table.
- `Insns`: one instruction variant per ASM node class.
  - A frame is a stack of cells (width 1 or 2, plus a set of origin positions)
    and one origin set per local.
  - `Analyzed` is a method body whose frames fit its instructions.
- `StackEffect`: `simulate`, which counts the stack cells an instruction
  consumes. It is checked against an independent reference, `JvmsForm`, that
  lists the forms of POP … SWAP from the JVM specification.
- `Slicer`: the worklist and its three kinds of edge.
  - `Slice` proves that the marked set is the least set closed under those
    edges that contains the target, and that every position is queued once.
  - On a fault, it proves that no closed set containing the target exists.
- `Assembly`: the loop that turns the marked positions into the returned list.
  It is modelled both as written and as intended.
- `Initializer`: `extractInitializer` as written, and a corrected pipeline that
  uses the three corrected definitions from the Findings below.

The slicer takes the pop-count table as a parameter (`PopCount`):

- the as-written pipeline passes `Simulate`;
- the corrected pipeline passes `SimulateFixed`.

## Model

| member | source | states |
|---|---|---|
| StackEffect.WidthFromTop | asm/src/main/kotlin/org/spectral/asm/util/Interpreter.kt:164-188 | the `.size == 1` test of the POP2/DUP* cases holds exactly where the JVM specification's forms see a category-1 value, and width 2 exactly where they see a category-2 value. The read fails exactly when the frame is missing or the stack is shallower than the cell read |
| StackEffect.Simulate | asm/src/main/kotlin/org/spectral/asm/util/Interpreter.kt:156-248 | every POP…SWAP result lies in 1..4. Outside the width-dependent opcodes the only error is an unknown-opcode or unknown-node-type fault, and that fault carries the node's type and opcode |
| StackEffect.SimulateFixed | asm/src/main/kotlin/org/spectral/asm/util/Interpreter.kt:178-188 | the repaired table agrees with the as-written one on every instruction except DUP2_X2. Its stack-op results also lie in 1..4 |
| StackEffect.NullaryCounts | asm/src/main/kotlin/org/spectral/asm/util/Interpreter.kt:158-196 | NOP, every constant push and RETURN consume 0 cells in any frame |
| StackEffect.UnaryCounts | asm/src/main/kotlin/org/spectral/asm/util/Interpreter.kt:163-199 | POP, DUP, negations, conversions, value returns, ARRAYLENGTH, ATHROW and the monitor instructions consume 1 cell in any frame |
| StackEffect.BinaryCounts | asm/src/main/kotlin/org/spectral/asm/util/Interpreter.kt:161-194 | array loads, DUP_X1, SWAP, binary arithmetic, shifts and logic, and comparisons consume 2 cells, and array stores consume 3 |
| StackEffect.OperandCounts | asm/src/main/kotlin/org/spectral/asm/util/Interpreter.kt:202-245 | gives the fixed counts of each operand-carrying group: int, var, type, field and jump instructions, labels, LDC, IINC, switches, frames and line numbers. A method call consumes its argument count plus one unless it is INVOKESTATIC. invokedynamic consumes its argument count, and MULTIANEWARRAY consumes its dimension count |
| StackEffect.WidthDependentCounts | asm/src/main/kotlin/org/spectral/asm/util/Interpreter.kt:163-189 | POP2 and DUP2 consume 2 if the top cell is narrow, else 1. DUP_X2 consumes 3 if the second cell is narrow, else 2. DUP2_X1 consumes 3 or 2 by the top width. DUP2_X2 consumes 4/3/3/2 over the (top, third) width pairs |
| StackEffect.WidthReadFaults | asm/src/main/kotlin/org/spectral/asm/util/Interpreter.kt:164-188 | a width-dependent opcode fails exactly when the frame is missing or a cell it reads is absent |
| StackEffect.UnknownInsnOpcodesRejected | asm/src/main/kotlin/org/spectral/asm/util/Interpreter.kt:158-200 | a zero-operand node whose opcode is not in its table is an unknown-opcode fault, never a count |
| StackEffect.UnknownOperandOpcodesRejected | asm/src/main/kotlin/org/spectral/asm/util/Interpreter.kt:202-246 | an int, var, type, field or jump node with an opcode outside its group is an unknown-opcode fault. A node whose type code is outside ASM's sixteen is an unknown-node-type fault |
| StackEffect.FrameReadOnlyForWidths | asm/src/main/kotlin/org/spectral/asm/util/Interpreter.kt:156-248 | the frame influences the count only for the five width-dependent opcodes |
| StackEffect.SimulateFixedFollowsForms | asm/src/main/kotlin/org/spectral/asm/util/Interpreter.kt:163-189 | on every stack that fits one of the JVM specification's forms of POP…SWAP, the repaired table consumes exactly the cells that form names |
| StackEffect.SimulateFollowsFormsExceptWideDup2X2 | asm/src/main/kotlin/org/spectral/asm/util/Interpreter.kt:163-189 | the as-written table agrees with the forms everywhere except the fourth form of DUP2_X2, two wide cells |
| StackEffect.Dup2X2MisreadsFourthForm | asm/src/main/kotlin/org/spectral/asm/util/Interpreter.kt:178-188 | on (int, double, double) the as-written table gives 3 where the form gives 2. On (double, double) it reads below the stack, where the form gives 2 |
| Slicer.StackOrigins | asm/src/main/kotlin/org/spectral/asm/util/Interpreter.kt:78-87 | the union of the origins of the top n cells is exactly the origins of the cells at indices stackSize-n .. stackSize-1. It fails exactly when n > 0 and the frame is missing or shallower than n; with n = 0 the frame is not read |
| Slicer.FirstMatch | asm/src/main/kotlin/org/spectral/asm/util/Interpreter.kt:107-125 | a forward scan returns the first hit from its start, nothing when there is no hit, or a cast fault at the first bad node met before a hit |
| Slicer.FirstConstructorCall | asm/src/main/kotlin/org/spectral/asm/util/Interpreter.kt:104-125 | for NEW it finds the first later INVOKESPECIAL `<init>` on the allocated type, whether or not that call is already visited. It is a cast fault exactly when an INVOKESPECIAL opcode on a non-method node comes before any match |
| Slicer.Dependencies | asm/src/main/kotlin/org/spectral/asm/util/Interpreter.kt:76-126 | every position an instruction makes the slicer mark is a position of the method |
| Slicer.Enqueue | asm/src/main/kotlin/org/spectral/asm/util/Interpreter.kt:81-86 | marking adds exactly the dependencies to the visited set. A position is queued when it is marked, never twice, and the queue only grows at its end |
| Slicer.Slice | asm/src/main/kotlin/org/spectral/asm/util/Interpreter.kt:62-129 | the loop terminates. The target is marked and queued first, and every position is queued exactly once. On success the marked set is the least set that contains the target and is closed under the operand, local and constructor edges. On a fault no such closed set exists |
| Slicer.ClosedCoversOperands | asm/src/main/kotlin/org/spectral/asm/util/Interpreter.kt:76-87 | in a closed set, every member's consumed cells exist and their producers are members |
| Slicer.ClosedCoversLocals | asm/src/main/kotlin/org/spectral/asm/util/Interpreter.kt:93-103 | in a closed set, every ILOAD..ALOAD member reads an existing slot whose writers are members |
| Slicer.ClosedCoversConstructor | asm/src/main/kotlin/org/spectral/asm/util/Interpreter.kt:104-126 | in a closed set, every NEW member is a type node, and its first later matching constructor call, if any, is a member |
| Slicer.DependenciesWithinIffCovered | asm/src/main/kotlin/org/spectral/asm/util/Interpreter.kt:76-126 | at one position, the slicer's dependencies succeed and lie in a set exactly when the consumed cells exist with producers in the set, a loaded slot exists with writers in the set, and a NEW's constructor call, if any, is in the set |
| Slicer.ClosedIffEdgesCovered | asm/src/main/kotlin/org/spectral/asm/util/Interpreter.kt:76-126 | a set is closed exactly when each member is a position whose operand, local and constructor edges all stay inside it |
| Slicer.LeastClosedUnique | asm/src/main/kotlin/org/spectral/asm/util/Interpreter.kt:62-129 | the slice does not depend on the order in which the queue visits the origins of a cell |
| Assembly.NextSetBit | asm/src/main/kotlin/org/spectral/asm/util/Interpreter.kt:138 | gives the least marked position at or after `from`, or -1 exactly when none exists |
| Assembly.AssembleFrom | asm/src/main/kotlin/org/spectral/asm/util/Interpreter.kt:136-142 | from `initPos`, the loop appends the contiguous run of instructions that ends at the last marked position |
| Assembly.AssembleAsWritten | asm/src/main/kotlin/org/spectral/asm/util/Interpreter.kt:135-146 | the result is the prefix `insns[0..max]`, where max is the highest marked position. It holds every marked instruction at its own index, and it is empty exactly when nothing is marked |
| Assembly.MarkedFrom | asm/src/main/kotlin/org/spectral/asm/util/Interpreter.kt:138-141 | repeatedly jumping to the next set bit visits exactly the marked positions from `from` on, in strictly ascending order |
| Assembly.AscendingCardinality | asm/src/main/kotlin/org/spectral/asm/util/Interpreter.kt:138-141 | that ascending walk has as many steps as there are marked positions |
| Assembly.AssembleMarked | asm/src/main/kotlin/org/spectral/asm/util/Interpreter.kt:135-146 | the intended list holds exactly the marked instructions, once each, in program order |
| Assembly.AssembleOneTwo | asm/src/main/kotlin/org/spectral/asm/util/Interpreter.kt:138-141 | in any three-instruction method with positions 1 and 2 marked, the as-written loop returns all three instructions, the unmarked first one included |
| Assembly.AssemblyKeepsUnmarkedPrefix | asm/src/main/kotlin/org/spectral/asm/util/Interpreter.kt:138-141 | with only positions 1 and 2 marked, the as-written loop still returns the unmarked label at position 0 |
| Assembly.AssemblyMarkedDropsUnmarked | asm/src/main/kotlin/org/spectral/asm/util/Interpreter.kt:138-141 | on the same input, the intended list omits the label |
| Initializer.IsPrimitive | asm/src/main/kotlin/org/spectral/asm/util/Interpreter.kt:250-252 | the getter as written holds for every sort |
| Initializer.GuardPassesReferenceSorts | asm/src/main/kotlin/org/spectral/asm/util/Interpreter.kt:25 | the object and array sorts pass the as-written guard but not the intended one |
| Initializer.FindTarget | asm/src/main/kotlin/org/spectral/asm/util/Interpreter.kt:34-53 | the target is the first PUTFIELD/PUTSTATIC with the field's name and descriptor whose owner is the field's owner or resolves to the field. When no instruction matches there is none. A PUTFIELD/PUTSTATIC opcode on a non-field node met first is a cast fault |
| Initializer.SliceField | asm/src/main/kotlin/org/spectral/asm/util/Interpreter.kt:34-129 | with no target the slice is empty. Otherwise it starts at a field write, and its marked set is the least closed one or the fault rules out every closed one |
| Initializer.InitializerBody | asm/src/main/kotlin/org/spectral/asm/util/Interpreter.kt:27-146 | the body after the guard returns the method's instructions from the first one up to the highest position in the least closed set of the as-written table. The result is empty when the field is never written |
| Initializer.ExtractInitializer | asm/src/main/kotlin/org/spectral/asm/util/Interpreter.kt:24-25 | extractInitializer as written returns the empty list for every field and method |
| Initializer.ExtractInitializerIntended | asm/src/main/kotlin/org/spectral/asm/util/Interpreter.kt:24-147 | with the three corrections: a primitive field yields the empty list. A reference field yields exactly the instructions of the least closed set under the repaired table, in program order |

## Left out

- Node classes outside ASM's sixteen that report one of ASM's own type codes
  are not modelled. `ForeignNode` carries only a type code outside 0..15.
  A foreign class reporting one of those codes would be dispatched by that
  code in `simulate` (Interpreter.kt:157-245): it could return a count, or
  fail a cast.
- The analyzer that computes frames (`Analyzer` with `SourceInterpreter`,
  Interpreter.kt:58-60) is library code, so frames are an input.
  - `Analyzed` requires one frame slot per instruction and only in-method
    origins.
  - Reading a missing frame, which ASM leaves at unreachable code, is a
    `NullFrame` fault rather than a precondition. A frame is read for a
    nonzero pop count, a width test or a local load.
  - The analyzer's own `AnalyzerException` is not modelled.
- Descriptor parsing (`Type.getArgumentTypes`, Interpreter.kt:226-229) is a
  library call. Invocation nodes carry their argument count instead.
- Field resolution through the class model (`field.group[...]` and
  `resolveField`, Interpreter.kt:40-44) is a `Resolver` oracle supplied by
  the caller.
- Choosing the writer method (`field.writeRefs.iterator().next()`,
  Interpreter.kt:29) belongs to the external class model, so the method is a
  parameter. The exception that call raises for a field with no writers is not
  modelled.
- `BitSet`, `ArrayDeque` and `InsnList.indexOf` are represented as a
  `set<nat>`, a `seq` with a head index, and positions used directly as
  instruction identities.
- The order of the queue is not modelled. `extractInitializer` enqueues a step's
  dependencies in a fixed order: cell by cell from the top down, each cell's
  origin set in its iteration order, then the local, then the constructor
  call. `Enqueue` appends the new dependencies of a step in any order.
  `LeastClosedUnique` shows that the marked set does not depend on that
  order. The fault does: when two marked instructions would both fault,
  `extractInitializer` always raises the one its fixed order reaches first,
  while `Slice` may return the other, and its contract names no particular
  `Fault`.
- ASM's `Frame.getStack` does no bounds check of its own, and a negative
  index reads into the locals array. The model turns any read below the
  bottom of the operand stack into a `StackUnderflow` fault. This happens in
  two places.
  - In its width tests (Interpreter.kt:164-188), `simulate` would read a
    local's width.
  - In the slicer loop (Interpreter.kt:79), `extractInitializer` would read a local's
    value and mark and enqueue that local's writers, where the model stops
    with a fault. One case is DUP2_X2 on a stack of two doubles in a method
    with locals.
- A constructor call already matched to an earlier allocation is not
  skipped. The code at Interpreter.kt:107-125 keeps no record of matched
  calls and takes the first matching call after the NEW, so
  `FirstConstructorCall` does the same.

## Findings

| source | as written | input that shows it | evidently intended | confidence | as-written member | corrected member |
|---|---|---|---|---|---|---|
| asm/src/main/kotlin/org/spectral/asm/util/Interpreter.kt:251 | `sort != OBJECT \|\| sort != ARRAY` holds for every sort, so the guard at line 25 makes `extractInitializer` return the empty list for every field | any field whose type has sort OBJECT (10) | `&&`: only non-reference fields are skipped | high; not executed | Initializer.GuardPassesReferenceSorts | Initializer.ExtractInitializerIntended |
| asm/src/main/kotlin/org/spectral/asm/util/Interpreter.kt:184 | DUP2_X2 with a wide top cell tests the width at `stackSize - 3` | stack (int, double, double): gives 3 where the fourth form consumes 2; stack (double, double): reads below the operand stack | with a wide top the next value is at `stackSize - 2`, as in ASM's own `Frame.execute` | medium; not executed | StackEffect.Dup2X2MisreadsFourthForm | StackEffect.SimulateFixedFollowsForms |
| asm/src/main/kotlin/org/spectral/asm/util/Interpreter.kt:138-141 | the loop appends `insns[initPos]` while any bit at or after `initPos` is set, so it returns every instruction up to the last marked one | instructions (label, ICONST_1, PUTSTATIC A.f) with positions 1 and 2 marked: the unmarked label is returned | jump to `nextSetBit(initPos)` before appending, returning only the marked instructions | medium; not executed | Assembly.AssemblyKeepsUnmarkedPrefix | Assembly.AssembleMarked |
