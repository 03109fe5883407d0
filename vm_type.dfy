/**
 * kilim.analysis.VMType, reduced to what the shim generator asks of it: the
 * storage family of a type descriptor, its width in local-variable slots
 * (section 2.6.1 of the JVM Specification) and the load and return opcodes
 * of each family.
 */
module VMType {

  import opened Constants

  datatype VmType = TObject | TInt | TLong | TFloat | TDouble

  /**
   * VMType.toVmType: the family of a descriptor, read off its first
   * character; boolean, byte, char and short share the int family, and
   * object and array descriptors form the reference family.
   */
  function ToVmType(t: string): VmType
    requires |t| > 0
  {
    match t[0]
    case 'Z' => TInt
    case 'B' => TInt
    case 'C' => TInt
    case 'S' => TInt
    case 'I' => TInt
    case 'J' => TLong
    case 'F' => TFloat
    case 'D' => TDouble
    case _ => TObject
  }

  /** VMType.category: two slots for long and double, one for everything else. */
  function Category(v: VmType): nat
  {
    if v == TLong || v == TDouble then 2 else 1
  }

  /** VMType.loadInsn */
  function LoadInsn(v: VmType): int
  {
    match v
    case TObject => ALOAD
    case TInt => ILOAD
    case TLong => LLOAD
    case TFloat => FLOAD
    case TDouble => DLOAD
  }

  /** VMType.retInsn */
  function RetInsn(v: VmType): int
  {
    match v
    case TObject => ARETURN
    case TInt => IRETURN
    case TLong => LRETURN
    case TFloat => FRETURN
    case TDouble => DRETURN
  }
}
