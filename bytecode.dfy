/**
 * The instruction nodes the comparator dispatches on, as a closed tagged type: one
 * constructor per ASM node kind that has its own comparison rule, and one for every
 * other kind (plain, variable, invokedynamic, label, frame and line-number nodes).
 */
module Bytecode {

  /** ASM type sorts of a constant-loaded type. */
  const SORT_ARRAY: nat := 9
  const SORT_OBJECT: nat := 10
  const SORT_METHOD: nat := 11

  /**
   * The constant of a load-constant instruction. Float and double constants are kept as
   * their bit patterns: they are only ever compared and collected, never computed with.
   */
  datatype Constant =
    | IntConst(intValue: int)
    | LongConst(longValue: int)
    | FloatConst(floatBits: bv32)
    | DoubleConst(doubleBits: bv64)
    | StringConst(text: string)
    | TypeConst(sort: nat, descriptor: string)
    | HandleConst(handle: string)

  /** Both constants are instances of the same runtime class. */
  predicate SameConstantClass(x: Constant, y: Constant) {
    match x
    case IntConst(_) => y.IntConst?
    case LongConst(_) => y.LongConst?
    case FloatConst(_) => y.FloatConst?
    case DoubleConst(_) => y.DoubleConst?
    case StringConst(_) => y.StringConst?
    case TypeConst(_, _) => y.TypeConst?
    case HandleConst(_) => y.HandleConst?
  }

  /**
   * An instruction. A jump carries the position of its target label in the instruction
   * list it belongs to.
   */
  datatype Insn =
    | IntInsn(opcode: int, operand: int)
    | TypeInsn(opcode: int, desc: string)
    | FieldInsn(opcode: int, owner: string, name: string, desc: string)
    | MethodInsn(opcode: int, owner: string, name: string, desc: string, itf: bool)
    | JumpInsn(opcode: int, labelPos: int)
    | LdcInsn(opcode: int, cst: Constant)
    | IincInsn(opcode: int, localVar: int, incr: int)
    | TableSwitchInsn(opcode: int, min: int, max: int)
    | LookupSwitchInsn(opcode: int, keys: seq<int>)
    | MultiANewArrayInsn(opcode: int, desc: string, dims: int)
    | OtherInsn(opcode: int, kind: nat)

}
