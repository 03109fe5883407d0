# Kilim's SAM shim generator in Dafny

Kilim is a JVM library of lightweight threads, called fibers. It rewrites
bytecode so that a "pausable" method takes the current `kilim.Fiber` as an
extra last argument. A call through a single-abstract-method (SAM) interface
can reach code the VM generated itself (a lambda), and that code was never
rewritten. So the weaver replaces each such call with a call to a private
static shim method, `$shim$<index>`. The shim takes the callee first, then
the original arguments, then the Fiber. It forwards the call with the Fiber
as the last argument, stores the callee in the Fiber with `Fiber.setCallee`,
and returns the call's result.

`kilim.analysis.SAMweaver` is the class that describes one shim and writes
it. This project models that class:

- its identity (`equals`, `hashCode`);
- its naming (`setIndex`, `getShimMethodName`);
- its descriptors (`getShimDesc` and the Fiber-extended descriptor of the
  forwarded call);
- the method body `accept` writes to an ASM class visitor;
- the lookup of the interface method's declared exceptions (`getExceptions`,
  `internalName`).

Modules:

- `SamWeaving` (sam_weaver.dfy): the class `SamWeaver`, with its fields and
  methods, and the lemmas about it.
- `ShimBody` (shim_body.dfy): the instruction sequence of a shim, as a
  function `ShimCode` of its argument descriptors, and the predicate
  `ShimLayout` that describes it position by position.
- `Asm` (asm.dfy): the ASM `ClassVisitor` and `MethodVisitor` as sinks that
  only append what they are given.
- `TypeDesc`, `VMType` and `Constants`: the parts of Kilim's
  descriptor and type helpers and constants that the shim generator uses.
  Descriptors follow sections 4.3.2 and 4.3.3 of the JVM Specification.
  Slot widths follow section 2.6.1.
- `JavaStrings`: `String.replace`, `String.indexOf`, `String.hashCode` and
  `Integer.toString`.
- `Mirrors`: the class-metadata service, as a table from class names to
  declared methods.

The `accept` loop, `setIndex`, the `internalName` array fill and the
`getExceptions` search are imperative methods. The rest are functions and
lemmas.

## Model

| member | source | states |
|---|---|---|
| `SamWeaving.SamWeaver.constructor` | src/kilim/analysis/SAMweaver.java:78-88 | the four descriptive fields and the context are the arguments; the index starts at -1 |
| `SamWeaving.SamWeaver.SetIndex` | src/kilim/analysis/SAMweaver.java:90-92 | the index becomes the given 32-bit value |
| `SamWeaving.SamWeaver.Equals` | src/kilim/analysis/SAMweaver.java:94-101 | equals: the other object is a weaver with the same descriptor, method name and interface name; its contract is EqualsIgnoresDispatchAndIndex and EqualsIsEquivalence |
| `SamWeaving.EqualsIgnoresDispatchAndIndex` | src/kilim/analysis/SAMweaver.java:94-101 | two weavers are equal exactly when interface name, method name and descriptor agree (dispatch kind and index play no part); a weaver never equals null |
| `SamWeaving.EqualsIsEquivalence` | src/kilim/analysis/SAMweaver.java:94-101 | equals is reflexive, symmetric and transitive on weavers |
| `SamWeaving.SamWeaver.HashCode` | src/kilim/analysis/SAMweaver.java:107-109 | hashCode: the 32-bit XOR of the String hashes of method name and descriptor; its contract is HashCodeAgreesWithEquals |
| `JavaStrings.StringHash` | src/kilim/analysis/SAMweaver.java:108 | String.hashCode: h := 31 * h + c over the characters, wrapping at 32 bits; it agrees with Java for text inside the Basic Multilingual Plane |
| `SamWeaving.HashCodeAgreesWithEquals` | src/kilim/analysis/SAMweaver.java:107-109 | equal weavers have equal hash codes (the XOR of the 32-bit String hashes of method name and descriptor) |
| `SamWeaving.SamWeaver.ShimMethodName` | src/kilim/analysis/SAMweaver.java:111-114 | getShimMethodName: `$shim$` followed by Integer.toString of the non-negative index; its contract is ShimMethodNameEncodesIndex and ShimMethodNamesDistinct |
| `SamWeaving.ShimMethodNameEncodesIndex` | src/kilim/analysis/SAMweaver.java:111-114 | with a non-negative index, the shim name is `$shim$` followed by decimal digits that read back as the index |
| `SamWeaving.ShimMethodNamesDistinct` | src/kilim/analysis/SAMweaver.java:111-114 | two weavers get the same shim name exactly when their indexes are equal |
| `JavaStrings.DecimalRoundTrip` | src/kilim/analysis/SAMweaver.java:113 | the digits Integer.toString writes for a non-negative number read back as that number |
| `JavaStrings.Decimal` | src/kilim/analysis/SAMweaver.java:113 | Integer.toString of a non-negative number is non-empty and all digits, and has a leading zero only for 0 |
| `JavaStrings.IndexOf` | src/kilim/analysis/SAMweaver.java:141 | stands for the `indexOf(')')` with which TypeDesc.getArgumentTypes (line 141) and TypeDesc.getReturnTypeDesc (line 167) find the end of the arguments: the first position of a character, or -1 exactly when it does not occur |
| `TypeDesc.Interned` | src/kilim/analysis/SAMweaver.java:117 | TypeDesc.getInterned of an internal class name: its object descriptor 'L' + name + ';' (section 4.3.2); the behaviour of this collaborator is assumed from the JVM Specification |
| `JavaStrings.ReplaceParens` | src/kilim/analysis/SAMweaver.java:117-118 | on a descriptor with one '(' and one ')', the two replace-alls of getShimDesc insert the callee descriptor after '(' and put the Fiber-terminated text in place of ')' |
| `SamWeaving.SamWeaver.ShimDesc` | src/kilim/analysis/SAMweaver.java:116-119 | getShimDesc: every '(' of the descriptor replaced by '(' and the interface's object descriptor, then every ')' by the Fiber descriptor and ')'; its contract is ShimDescLayout and ShimDescSignature |
| `SamWeaving.ShimDescLayout` | src/kilim/analysis/SAMweaver.java:116-119 | the shim descriptor is '(', the interface's object descriptor, the original arguments, the Fiber and ')', then the original return descriptor |
| `SamWeaving.ShimDescSignature` | src/kilim/analysis/SAMweaver.java:116-119 | the shim descriptor is well formed; its arguments split back into the interface type, the original arguments in order and the Fiber; its return descriptor is the original one |
| `SamWeaving.SamWeaver.FiberCallDesc` | src/kilim/analysis/SAMweaver.java:150 | the forwarded call's descriptor: every ')' of the descriptor replaced by the Fiber descriptor and ')'; its contract is FiberCallDescSignature |
| `SamWeaving.FiberCallDescSignature` | src/kilim/analysis/SAMweaver.java:150 | the forwarded call's descriptor is the original one with the Fiber as an extra last argument and the same return descriptor |
| `TypeDesc.ArgumentTypes` | src/kilim/analysis/SAMweaver.java:141 | TypeDesc.getArgumentTypes: the field descriptors between '(' and the first ')', in order, or None when the text there is not a sequence of field descriptors (section 4.3.3); every piece is one field descriptor; the behaviour of this collaborator is assumed from the JVM Specification |
| `TypeDesc.ReturnTypeDesc` | src/kilim/analysis/SAMweaver.java:167 | TypeDesc.getReturnTypeDesc: the text after the first ')' (section 4.3.3); the behaviour of this collaborator is assumed from the JVM Specification |
| `TypeDesc.MethodDescOf` | src/kilim/analysis/SAMweaver.java:141 | a descriptor built from field descriptors and a return descriptor is well formed, and getArgumentTypes and getReturnTypeDesc give those parts back |
| `TypeDesc.SplitFieldDescs` | src/kilim/analysis/SAMweaver.java:141 | an argument split concatenates back to the text it came from, and every piece is one field descriptor |
| `TypeDesc.SplitConcat` | src/kilim/analysis/SAMweaver.java:141 | splitting a concatenation of field descriptors gives back exactly those descriptors |
| `TypeDesc.MethodDescParts` | src/kilim/analysis/SAMweaver.java:141 | a well-formed descriptor is '(' + its concatenated arguments + ')' + its return descriptor |
| `Asm.ClassSink.VisitMethod` | src/kilim/analysis/SAMweaver.java:137-138 | ClassVisitor.visitMethod: appends one method header with the given access flags, name, descriptor and exception names, and returns a new, empty method visitor |
| `Asm.MethodSink.VisitVarInsn` | src/kilim/analysis/SAMweaver.java:143 | MethodVisitor.visitVarInsn (also at lines 162-163): appends one local-variable instruction with that opcode and slot |
| `Asm.MethodSink.VisitMethodInsn` | src/kilim/analysis/SAMweaver.java:155-164 | MethodVisitor.visitMethodInsn: appends one call instruction with that opcode, owner, name, descriptor and interface flag |
| `Asm.MethodSink.VisitInsn` | src/kilim/analysis/SAMweaver.java:168-173 | MethodVisitor.visitInsn: appends one instruction without operands (the return) |
| `Asm.MethodSink.VisitMaxs` | src/kilim/analysis/SAMweaver.java:174 | MethodVisitor.visitMaxs: appends the maxs record with the given values |
| `Asm.MethodSink.VisitEnd` | src/kilim/analysis/SAMweaver.java:175 | MethodVisitor.visitEnd: appends the end marker |
| `ShimBody.ShimCode` | src/kilim/analysis/SAMweaver.java:140-175 | the whole instruction sequence accept writes for argument descriptors ts and return descriptor retDesc: the loads of ts, the dispatch, the Fiber and callee loads, setCallee, the return, maxs and end; WriteShimBody is proved to write exactly this, and ShimCodeLayout and ShimBodyLayout state what it holds |
| `SamWeaving.SamWeaver.Accept` | src/kilim/analysis/SAMweaver.java:135-176 | appends one private static method named by the index, with the shim descriptor and the exceptions of the interface method, and writes a body with the layout of a shim forwarding this weaver's arguments and result (`ShimBody.ShimLayout`) |
| `SamWeaving.SamWeaver.WriteShimBody` | src/kilim/analysis/SAMweaver.java:139-175 | the instructions written into the empty method are exactly `ShimCode` of the shim's argument and return descriptors; the loop keeps the loads written so far and the next free slot |
| `SamWeaving.ShimBodyLayout` | src/kilim/analysis/SAMweaver.java:136-175 | for a well-formed descriptor and interface name, the body accept writes satisfies `ShimLayout` for the weaver's own arguments, result, dispatch kind, owner, name and Fiber-extended descriptor |
| `ShimBody.ShimCodeLayout` | src/kilim/analysis/SAMweaver.java:139-175 | a shim whose arguments are callee, args and Fiber loads the callee from slot 0, each argument from 1 plus the widths before it, and the Fiber from the last slot; then dispatch, setCallee, return, maxs and end, and nothing else |
| `VMType.ToVmType` | src/kilim/analysis/SAMweaver.java:142 | VMType.toVmType (also at line 171): the storage family of a descriptor from its first character, with Z, B, C, S and I in the int family and objects and arrays in the reference family; the behaviour of this collaborator is assumed from the JVM Specification |
| `VMType.Category` | src/kilim/analysis/SAMweaver.java:144 | VMType.category: two local-variable slots for long and double and one for every other family (section 2.6.1); the behaviour of this collaborator is assumed from the JVM Specification |
| `VMType.LoadInsn` | src/kilim/analysis/SAMweaver.java:143 | VMType.loadInsn: ILOAD, LLOAD, FLOAD, DLOAD or ALOAD for the family; the behaviour of this collaborator is assumed from the JVM Specification |
| `VMType.RetInsn` | src/kilim/analysis/SAMweaver.java:172 | VMType.retInsn: IRETURN, LRETURN, FRETURN, DRETURN or ARETURN for the family; the behaviour of this collaborator is assumed from the JVM Specification |
| `ShimBody.LoadArgs` | src/kilim/analysis/SAMweaver.java:140-146 | one load per argument descriptor |
| `ShimBody.ShimLoads` | src/kilim/analysis/SAMweaver.java:140-147 | with callee and Fiber around the arguments, the slots total those of the arguments plus two; the callee loads from slot 0 and the Fiber from the slot after all the arguments, which is fiberVar |
| `ShimBody.ShimArgLoad` | src/kilim/analysis/SAMweaver.java:140-146 | argument k of the original method is loaded with its family's opcode from slot 1 plus the widths of the arguments before it |
| `ShimBody.ShimCodeArgLoads` | src/kilim/analysis/SAMweaver.java:140-146 | the same for every argument, stated about the whole shim body |
| `ShimBody.ShimSlotsTo` | src/kilim/analysis/SAMweaver.java:140-146 | with the callee first, the slot of shim argument k + 1 is one more than the slot of original argument k |
| `ShimBody.SlotsDisjoint` | src/kilim/analysis/SAMweaver.java:144 | argument k's slots end no later than the first slot of any later argument: no two arguments share a slot |
| `ShimBody.ReturnChoice` | src/kilim/analysis/SAMweaver.java:166-173 | the return instruction is RETURN exactly for a void result, and otherwise the return opcode of the result's family |
| `SamWeaving.InternalNames` | src/kilim/analysis/SAMweaver.java:178-183 | the contents internalName returns for a non-null array: every name with '.' replaced by '/', in order; InternalName is proved to return exactly this |
| `SamWeaving.SamWeaver.InternalName` | src/kilim/analysis/SAMweaver.java:178-183 | null gives null; otherwise a new array of the same length with every name in internal form |
| `JavaStrings.Replace` | src/kilim/analysis/SAMweaver.java:117-118 | String.replace with a one-character target (also at lines 150 and 181): every occurrence, left to right, replaced by the new text; its contract is ReplaceParens, ReplaceOnly and ReplaceByChar |
| `JavaStrings.ReplaceOnly` | src/kilim/analysis/SAMweaver.java:150 | replacing the only occurrence of a character puts the new text in its place and keeps the rest |
| `JavaStrings.DotsToSlashes` | src/kilim/analysis/SAMweaver.java:181 | replace('.', '/') keeps the length, turns every '.' into '/' and nothing else, and leaves no '.' |
| `JavaStrings.ReplaceByChar` | src/kilim/analysis/SAMweaver.java:181 | replacing a character by a character keeps the length and changes exactly the occurrences |
| `Mirrors.ClassForName` | src/kilim/analysis/SAMweaver.java:187 | context.detector.classForName: the mirror of the named class, or None where the lookup throws ClassMirrorNotFoundException (caught at lines 198-199) |
| `SamWeaving.SamWeaver.MatchedExceptionArray` | src/kilim/analysis/SAMweaver.java:187-196 | the exception array of the first declared method of the interface with this name and descriptor; None when the class is missing, no method matches or the array is null; its contract is FirstMatch's, and GetExceptions is proved against it |
| `SamWeaving.SamWeaver.ShimExceptions` | src/kilim/analysis/SAMweaver.java:185-206 | what getExceptions returns: the matched exceptions in internal form, or none; GetExceptions is proved to return exactly this |
| `SamWeaving.SamWeaver.GetExceptions` | src/kilim/analysis/SAMweaver.java:185-206 | a new array holding the internal names of the exceptions of the first declared method with this name and descriptor; empty when the class or method is missing or the list is null |
| `SamWeaving.FirstMatch` | src/kilim/analysis/SAMweaver.java:188-197 | the position of the first declared method with this name and descriptor, or None exactly when there is none |

## Left out

- Bytecode emission is abstract. The ASM visitors record only what
  they are given. The constant pool, frame computation and the maxs that ASM
  computes are not modelled.
- The `signature` argument of `visitMethod` (always null) is not modelled.
- The context's class loading is not modelled. `context.detector.classForName`
  is a lookup in a table; a missing class stands for
  `ClassMirrorNotFoundException`.
- `TypeDesc`, `VMType` and `Constants` are outside the modelled class. Their
  behaviour is assumed from the JVM Specification and from how the shim
  generator uses them. `TypeDesc.getInterned` is taken to return
  `"L" + name + ";"`.
- Class names are taken to hold no ';', '(' or ')'. This is what makes the
  replace-alls of `getShimDesc` touch only the descriptor's own parentheses.
- Strings are sequences of Dafny characters, which are Unicode scalar
  values. Java strings are UTF-16 units, so a character outside the Basic
  Multilingual Plane is one Dafny char but two Java chars, and a lone
  surrogate cannot be written at all.
- JavaStrings.StringHash and SamWeaving.SamWeaver.HashCode match Java's
  `String.hashCode` only for text inside the Basic Multilingual Plane. For
  other text Java hashes the two surrogates and the model hashes the one
  scalar value. HashCodeAgreesWithEquals holds either way.
- `toString` is not modelled. It only builds a debugging message.
- SamWeaving.SamWeaver.ShimMethodName: the `assert index >= 0` of getShimMethodName
  is a precondition here. With assertions disabled, Java would print a
  negative index with a minus sign; that case is not modelled.
- SamWeaving.SamWeaver.GetExceptions: the `assert false` of getExceptions on the
  fallback path is not modelled as a failure. The model takes the path Java
  takes with assertions disabled and returns an empty array.
- SamWeaving.SamWeaver.Accept: the exceptions in the appended method header
  are stated as those found before the call (`old`). Accept may modify only
  the class visitor and the method visitor it creates, so its frame already
  keeps the interface's exception arrays unchanged.
- SamWeaving.SamWeaver.Accept: the loading loop and the rest of the body are
  a separate method, `WriteShimBody`. It is given the shim's argument and
  return descriptors, as `accept` computes them.
