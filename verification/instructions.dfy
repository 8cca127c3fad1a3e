/** The instruction record and opcode numbering (instruction.h). */
module Instructions {

  /** An unsigned 8-bit value: the width of an opcode. */
  newtype Byte = x: int | 0 <= x < 0x100

  /** An unsigned 32-bit value: the width of an operand. */
  newtype Word = x: int | 0 <= x < 0x1_0000_0000

  const PUSH: Byte := 0
  const PUSH_CONST: Byte := 1
  const PUSH_VAR: Byte := 2
  const PUSH_FIELD: Byte := 3
  const POP: Byte := 4
  const POP_VAR: Byte := 5
  const POP_FIELD: Byte := 6
  const ADD: Byte := 7
  const SUB: Byte := 8
  const MUL: Byte := 9
  const DIV: Byte := 10
  const JUMP: Byte := 11
  const JUMP_EQ: Byte := 12
  const JUMP_NE: Byte := 13
  const JUMP_LT: Byte := 14
  const JUMP_LE: Byte := 15
  const JUMP_GT: Byte := 16
  const JUMP_GE: Byte := 17
  const CALL: Byte := 18
  const RETURN: Byte := 19
  const NEW: Byte := 20
  const DUP: Byte := 21

  datatype Instruction = Instruction(opcode: Byte, operand: Word)

  /** The opcodes whose operand is a branch target: JUMP and the six
      compare-and-branch opcodes after it. */
  predicate IsJump(op: Byte) {
    JUMP <= op <= JUMP_GE
  }
}
