/**
 * The constants of kilim.Constants that the shim generator uses, with the
 * ASM opcodes and access flags it inherits. Opcode and flag values are those
 * of chapter 6 and section 4.6 of the JVM Specification, Java SE 8 edition.
 */
module Constants {

  const FIBER_CLASS: string := "kilim/Fiber"
  const D_FIBER: string := "Lkilim/Fiber;"
  const D_FIBER_LAST_ARG: string := "Lkilim/Fiber;)"
  const D_OBJECT: string := "Ljava/lang/Object;"
  const SAM_SHIM_PREFIX: string := "$shim$"

  const ACC_PRIVATE: bv16 := 0x0002
  const ACC_STATIC: bv16 := 0x0008

  const ILOAD: int := 21
  const LLOAD: int := 22
  const FLOAD: int := 23
  const DLOAD: int := 24
  const ALOAD: int := 25
  const IRETURN: int := 172
  const LRETURN: int := 173
  const FRETURN: int := 174
  const DRETURN: int := 175
  const ARETURN: int := 176
  const RETURN: int := 177
  const INVOKEVIRTUAL: int := 182
  const INVOKEINTERFACE: int := 185
}
