/**
 * The ASM visitors the shim generator writes to, modelled as append-only
 * sinks: a class sink records the headers of the methods declared on it, a
 * method sink records the instructions visited on it, in order. Stack and
 * local-variable sizing, constant pools and frames are not modelled.
 */
module Asm {

  /** One visit call on a method visitor. */
  datatype Insn =
    | VarInsn(opcode: int, slot: int)
    | MethodInsn(opcode: int, owner: string, name: string, desc: string, isInterface: bool)
    | SimpleInsn(opcode: int)
    | Maxs(maxStack: int, maxLocals: int)
    | End

  /** The arguments of ClassVisitor.visitMethod (the generic signature, always null here, is left out). */
  datatype MethodHeader = MethodHeader(access: bv16, name: string, desc: string, exceptions: seq<string>)

  /** Three successive single appends are one append of the three. */
  lemma AppendThree(s: seq<Insn>, a: Insn, b: Insn, c: Insn)
    ensures s + [a] + [b] + [c] == s + [a, b, c]
  {
  }

  class MethodSink {
    var code: seq<Insn>

    constructor ()
      ensures code == []
    {
      code := [];
    }

    method VisitVarInsn(opcode: int, slot: int)
      modifies this
      ensures code == old(code) + [VarInsn(opcode, slot)]
    {
      code := code + [VarInsn(opcode, slot)];
    }

    method VisitMethodInsn(opcode: int, owner: string, name: string, desc: string, isInterface: bool)
      modifies this
      ensures code == old(code) + [MethodInsn(opcode, owner, name, desc, isInterface)]
    {
      code := code + [MethodInsn(opcode, owner, name, desc, isInterface)];
    }

    method VisitInsn(opcode: int)
      modifies this
      ensures code == old(code) + [SimpleInsn(opcode)]
    {
      code := code + [SimpleInsn(opcode)];
    }

    method VisitMaxs(maxStack: int, maxLocals: int)
      modifies this
      ensures code == old(code) + [Maxs(maxStack, maxLocals)]
    {
      code := code + [Maxs(maxStack, maxLocals)];
    }

    method VisitEnd()
      modifies this
      ensures code == old(code) + [End]
    {
      code := code + [End];
    }
  }

  class ClassSink {
    var methods: seq<MethodHeader>

    constructor ()
      ensures methods == []
    {
      methods := [];
    }

    method VisitMethod(access: bv16, name: string, desc: string, exceptions: array<string>)
      returns (mv: MethodSink)
      modifies this
      ensures methods == old(methods) + [MethodHeader(access, name, desc, exceptions[..])]
      ensures fresh(mv) && mv.code == []
    {
      mv := new MethodSink();
      methods := methods + [MethodHeader(access, name, desc, exceptions[..])];
    }
  }
}
