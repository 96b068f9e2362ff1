/** Failure-compatible wrappers used throughout the model.
    `Interpreter.simulate` and `Interpreter.extractInitializer` signal their
    error conditions by throwing; here each such exception is a `Fault`
    carried by `Result.Err`. */
module Results {

  /** A nullable reference: a missing analyzer frame, or a search that found nothing. */
  datatype Option<+T> = None | Some(value: T)

  /** The exceptions the slicer can raise, one variant per cause. */
  datatype Fault =
    | UnknownOpcode(nodeType: int, opcode: int)    // IllegalArgumentException: opcode not in its group's table
    | UnknownNodeType(nodeType: int, opcode: int)  // IllegalArgumentException: node type outside ASM's sixteen
    | NullFrame                                    // NullPointerException: the analyzer left no frame here
    | StackUnderflow(index: int)                   // a stack read below the bottom of the operand stack
    | NoSuchLocal(index: int)                      // IndexOutOfBoundsException from Frame.getLocal
    | BadCast                                      // ClassCastException from an `as` on an instruction node

  datatype Result<+T> = Ok(value: T) | Err(error: Fault) {

    predicate IsFailure() {
      Err?
    }

    function PropagateFailure<U>(): Result<U>
      requires Err?
    {
      Err(error)
    }

    function Extract(): T
      requires Ok?
    {
      value
    }
  }
}
