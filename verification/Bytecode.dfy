/** The instruction set (aivm_program.h). */
module Bytecode {

  datatype Opcode =
    | NOP | HALT | STUB | PUSH_INT | POP | STORE_LOCAL | LOAD_LOCAL | ADD_INT | JUMP | JUMP_IF_FALSE
    | PUSH_BOOL | CALL | RET | EQ_INT | EQ | CONST | STR_CONCAT | TO_STRING | STR_ESCAPE | RETURN
    | STR_SUBSTRING | STR_REMOVE | CALL_SYS | ASYNC_CALL | ASYNC_CALL_SYS | AWAIT | PAR_BEGIN | PAR_FORK
    | PAR_JOIN | PAR_CANCEL | STR_UTF8_BYTE_COUNT | NODE_KIND | NODE_ID | ATTR_COUNT | ATTR_KEY
    | ATTR_VALUE_KIND | ATTR_VALUE_STRING | ATTR_VALUE_INT | ATTR_VALUE_BOOL | CHILD_COUNT | CHILD_AT
    | MAKE_BLOCK | APPEND_CHILD | MAKE_ERR | MAKE_LIT_STRING | MAKE_LIT_INT | MAKE_LIT_BOOL | MAKE_NODE
    | MAKE_FIELD_STRING | MAKE_MAP

  datatype Instr = Instr(op: Opcode, arg: int)

  /** The system call the boot code makes for an entry with parameters. */
  const ARGS_TARGET := "sys.process.args"

  const MAX_INSTRUCTIONS := 16384
  const MAX_CONSTANTS := 1024
  const MAX_STRING_BYTES := 8192
  const MAX_BYTES_STORAGE := 32768
}
