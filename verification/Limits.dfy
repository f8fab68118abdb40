/** Limits that several parts of the core share (llimits.h, luaconf.h, lopcodes.h). */
module Limits {

  /** Two less than the largest int of 32 bits. */
  const MAX_INT := 2147483645

  /** The registers of one function. */
  const MAXSTACK := 250

  /** The largest number of a constant. */
  const MAXARG_Bx := 262143

  /** The largest offset of a jump. */
  const MAXARG_sBx := 131071

  /** Nested calls of C functions, and nested syntactic constructs. */
  const LUAI_MAXCCALLS := 200
}
