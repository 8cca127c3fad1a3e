/** Failure-compatible wrappers shared by every component of the VM.
    Most faults stand for situations the C source leaves undefined. Two do
    not: `NotAnInteger` and the wrong-kind case of `BadPoolRef` stand where
    the C reinterprets a union (a pointer's bits read as an integer, one
    pool entry's payload read as another's), which the abstract heap and
    pool cannot reproduce. */
module Results {

  /** The faults the model reports where the C source has no outcome the
      model can reproduce. */
  datatype Fault =
    | StackUnderflow      // top/pop on an empty operand or call stack
    | BadPoolRef          // pool index out of range, unset, or of the wrong kind (the C reinterprets the payload)
    | DivideByZero        // DIV with a zero right operand
    | Overflow            // 32-bit signed overflow in ADD/SUB/MUL/DIV
    | NotAnInteger        // integer opcode applied to a heap reference (the C reads the pointer's bits)
    | NotAnObject         // field access through an integer or a dangling reference
    | BadSlot             // var or field slot index beyond the frame or object
    | PcOutOfRange        // program counter beyond the instruction stream
    | TableFull           // a vtable insert with no free slot (the source loops forever)
    | Truncated           // binary input ended early
    | Malformed           // binary string without its terminating NUL

  datatype Option<+T> = None | Some(value: T)

  datatype Result<+T> = Ok(value: T) | Err(fault: Fault) {
    predicate IsFailure() {
      Err?
    }

    function PropagateFailure<U>(): Result<U>
      requires Err?
    {
      Err(fault)
    }

    function Extract(): T
      requires Ok?
    {
      value
    }
  }
}
