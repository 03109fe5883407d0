/**
 * kilim.analysis.SAMweaver: the generator of the private static "shim" method
 * that replaces a call to a pausable single-abstract-method interface. The
 * shim takes the callee first and the Fiber last, forwards the call with the
 * Fiber as trailing argument, records the callee with Fiber.setCallee and
 * returns the call's result.
 */
module SamWeaving {

  import opened Options
  import opened JavaStrings
  import opened Constants
  import opened TypeDesc
  import opened VMType
  import opened Asm
  import opened Mirrors
  import opened ShimBody

  type int32 = x: int | -0x8000_0000 <= x < 0x8000_0000

  /** Every name in its internal form. */
  function InternalNames(ws: seq<string>): seq<string>
  {
    seq(|ws|, i requires 0 <= i < |ws| => DotsToSlashes(ws[i]))
  }

  /** The position of the first method in ms declared with this name and descriptor. */
  function FirstMatch(ms: seq<MethodMirror>, name: string, desc: string): (k: Option<nat>)
    ensures k.Some? ==> k.value < |ms| && Declares(ms[k.value], name, desc)
    ensures k.Some? ==> forall j :: 0 <= j < k.value ==> !Declares(ms[j], name, desc)
    ensures k.None? ==> forall j :: 0 <= j < |ms| ==> !Declares(ms[j], name, desc)
  {
    if ms == [] then None
    else if Declares(ms[0], name, desc) then Some(0)
    else
      match FirstMatch(ms[1..], name, desc)
      case None => None
      case Some(k) => Some(k + 1)
  }

  class SamWeaver {
    const interfaceName: string
    const methodName: string
    const desc: string
    const itf: bool
    var index: int32
    /** The class-metadata service of the weaving context. */
    const detector: Detector

    constructor (detector: Detector, interfaceName: string, methodName: string, desc: string, itf: bool)
      ensures this.detector == detector && this.interfaceName == interfaceName
      ensures this.methodName == methodName && this.desc == desc && this.itf == itf
      ensures index == -1
    {
      this.detector := detector;
      this.interfaceName := interfaceName;
      this.methodName := methodName;
      this.desc := desc;
      this.itf := itf;
      index := -1;
    }

    method SetIndex(index: int32)
      modifies this
      ensures this.index == index
    {
      this.index := index;
    }

    /** Object.equals: another weaver for the same interface, method name and descriptor. */
    predicate Equals(obj: object?)
    {
      obj is SamWeaver &&
      var that := obj as SamWeaver;
      desc == that.desc && methodName == that.methodName && interfaceName == that.interfaceName
    }

    function HashCode(): bv32
    {
      StringHash(methodName) ^ StringHash(desc)
    }

    function ShimMethodName(): string
      reads this
      requires index >= 0
    {
      SAM_SHIM_PREFIX + Decimal(index)
    }

    function ShimDesc(): string
    {
      Replace(Replace(desc, '(', "(" + Interned(interfaceName)), ')', D_FIBER_LAST_ARG)
    }

    /** The descriptor of the forwarded call: desc with the Fiber inserted before ')'. */
    function FiberCallDesc(): string
    {
      Replace(desc, ')', D_FIBER + ")")
    }

    /** The exception array of the first declared method matching methodName and desc, when there is one. */
    function MatchedExceptionArray(): Option<array<string>>
    {
      match ClassForName(detector, interfaceName)
      case None => None
      case Some(cm) =>
        match FirstMatch(cm.declaredMethods, methodName, desc)
        case None => None
        case Some(k) =>
          var ex := cm.declaredMethods[k].exceptionTypes;
          if ex == null then None else Some(ex)
    }

    /** The exceptions the shim declares: those of the matched method, in internal form, or none. */
    function ShimExceptions(): seq<string>
      reads if MatchedExceptionArray().Some? then {MatchedExceptionArray().value} else {}
    {
      match MatchedExceptionArray()
      case None => []
      case Some(ex) => InternalNames(ex[..])
    }

    /**
     * Declares the shim on cv and writes its body: load every argument,
     * forward the call, record the callee in the Fiber, return.
     */
    method Accept(cv: ClassSink) returns (mv: MethodSink)
      requires index >= 0
      requires WellFormedMethodDesc(desc) && ValidClassName(interfaceName)
      modifies cv
      ensures cv.methods
           == old(cv.methods) + [MethodHeader(ACC_STATIC | ACC_PRIVATE, ShimMethodName(), ShimDesc(), old(ShimExceptions()))]
      ensures fresh(mv)
      ensures var ts := ArgumentTypes(ShimDesc());
              var retDesc := ReturnTypeDesc(ShimDesc());
              && ts.Some? && NonEmptyTypes(ts.value) && |retDesc| > 0
              && mv.code == ShimCode(ts.value, retDesc, itf, interfaceName, methodName, FiberCallDesc())
    ensures NonEmptyTypes(ArgumentTypes(desc).value)
    ensures ShimLayout(mv.code, ArgumentTypes(desc).value, ReturnTypeDesc(desc),
                       itf, interfaceName, methodName, FiberCallDesc())
    {
      var shimDesc := ShimDesc();
      ghost var ex := ShimExceptions();
      var exceptions := GetExceptions();
      ghost var header := old(cv.methods) + [MethodHeader(ACC_STATIC | ACC_PRIVATE, ShimMethodName(), shimDesc, ex)];
      mv := cv.VisitMethod(ACC_STATIC | ACC_PRIVATE, ShimMethodName(), shimDesc, exceptions);
      assert cv.methods == header;
      assert WellFormedMethodDesc(shimDesc) by { ShimDescSignature(this); }
      var argTypes := ArgumentTypes(shimDesc).value;
      var retDesc := ReturnTypeDesc(shimDesc);
      WriteShimBody(mv, argTypes, retDesc, itf, interfaceName, methodName, FiberCallDesc());
      ShimBodyLayout(this);
      assert cv.methods == header;
    }

    /**
     * The body of a shim with argument descriptors argTypes and result
     * descriptor retDesc: load every argument, each
     * from the slot after those of its predecessors; forward the call to
     * owner.name with descriptor callDesc; push the Fiber (the last argument)
     * and the callee (slot 0) and call Fiber.setCallee; return the call's
     * result; close the method.
     */
    static method WriteShimBody(mv: MethodSink, argTypes: seq<string>, retDesc: string, itf: bool,
                                owner: string, name: string, callDesc: string)
      requires NonEmptyTypes(argTypes) && |retDesc| > 0 && mv.code == []
      modifies mv
      ensures mv.code == ShimCode(argTypes, retDesc, itf, owner, name, callDesc)
    {
      var ivar := 0;
      for i := 0 to |argTypes|
        invariant mv.code == LoadArgs(argTypes)[..i]
        invariant ivar == SlotsTo(argTypes, i)
      {
        var vmt := ToVmType(argTypes[i]);
        mv.VisitVarInsn(LoadInsn(vmt), ivar);
        ivar := ivar + Category(vmt);
        assert LoadArgs(argTypes)[..i + 1] == LoadArgs(argTypes)[..i] + [LoadArgs(argTypes)[i]];
      }
      assert LoadArgs(argTypes)[..|argTypes|] == LoadArgs(argTypes);
      assert ivar == Slots(argTypes);
      var fiberVar := ivar - 1;

      ghost var loads := mv.code;
      if itf {
        mv.VisitMethodInsn(INVOKEINTERFACE, owner, name, callDesc, true);
      } else {
        mv.VisitMethodInsn(INVOKEVIRTUAL, owner, name, callDesc, false);
      }
      assert mv.code == loads + [Dispatch(itf, owner, name, callDesc)];

      ghost var dispatched := mv.code;
      mv.VisitVarInsn(ALOAD, fiberVar);
      mv.VisitVarInsn(ALOAD, 0);
      mv.VisitMethodInsn(INVOKEVIRTUAL, FIBER_CLASS, "setCallee", SET_CALLEE_DESC, false);
      AppendThree(dispatched, VarInsn(ALOAD, fiberVar), VarInsn(ALOAD, 0), SetCallee);

      ghost var body := mv.code;
      if retDesc[0] == 'V' {
        mv.VisitInsn(RETURN);
      } else {
        var vmt := ToVmType(retDesc);
        mv.VisitInsn(RetInsn(vmt));
      }
      assert mv.code == body + [ReturnInsn(retDesc)];
      mv.VisitMaxs(0, 0);
      mv.VisitEnd();
      AppendThree(body, ReturnInsn(retDesc), Maxs(0, 0), End);
      assert mv.code == LoadArgs(argTypes) + [Dispatch(itf, owner, name, callDesc)]
                        + [VarInsn(ALOAD, Slots(argTypes) - 1), VarInsn(ALOAD, 0), SetCallee]
                        + [ReturnInsn(retDesc), Maxs(0, 0), End];
      ShimCodeParts(argTypes, retDesc, itf, owner, name, callDesc);
    }

    /** Every name of words in internal form, in a new array; null stays null. */
    static method InternalName(words: array?<string>) returns (mod: array?<string>)
      ensures words == null ==> mod == null
      ensures words != null ==> mod != null && fresh(mod) && mod[..] == InternalNames(words[..])
    {
      if words == null {
        return words;
      }
      mod := new string[words.Length];
      for ii := 0 to mod.Length
        invariant forall j :: 0 <= j < ii ==> mod[j] == DotsToSlashes(words[j])
      {
        mod[ii] := DotsToSlashes(words[ii]);
      }
      assert mod[..] == InternalNames(words[..]);
    }

    /**
     * The exceptions declared by the first method of the interface with this
     * name and descriptor, in internal form. A missing class, a missing
     * method or a null exception list all reach the fallback: no exceptions.
     */
    method GetExceptions() returns (r: array<string>)
      ensures fresh(r) && r[..] == ShimExceptions()
    {
      var cm := ClassForName(detector, interfaceName);
      if cm.Some? {
        var ms := cm.value.declaredMethods;
        var i := 0;
        while i < |ms|
          invariant 0 <= i <= |ms|
          invariant forall j :: 0 <= j < i ==> !Declares(ms[j], methodName, desc)
        {
          var m := ms[i];
          if m.name == methodName && m.desc == desc {
            assert FirstMatch(ms, methodName, desc) == Some(i);
            var ret := m.exceptionTypes;
            if ret != null {
              var mod := InternalName(ret);
              return mod;
            }
            break;
          }
          i := i + 1;
        }
      }
      // SAMweaver.getExceptions asserts false here: the interface was already resolved earlier in weaving
      r := new string[0];
    }
  }

  // ---- identity ----

  /** equals compares interfaceName, methodName and desc, and ignores itf and index. */
  lemma EqualsIgnoresDispatchAndIndex(a: SamWeaver, b: SamWeaver)
    ensures a.Equals(b) <==> a.interfaceName == b.interfaceName && a.methodName == b.methodName && a.desc == b.desc
    ensures !a.Equals(null)
  {
  }

  /** equals is an equivalence on weavers. */
  lemma EqualsIsEquivalence(a: SamWeaver, b: SamWeaver, c: SamWeaver)
    ensures a.Equals(a)
    ensures a.Equals(b) ==> b.Equals(a)
    ensures a.Equals(b) && b.Equals(c) ==> a.Equals(c)
  {
  }

  /** Equal weavers have equal hash codes. */
  lemma HashCodeAgreesWithEquals(a: SamWeaver, b: SamWeaver)
    requires a.Equals(b)
    ensures a.HashCode() == b.HashCode()
  {
  }

  // ---- naming ----

  /** The shim name is the reserved prefix followed by the decimal digits of the index, which it encodes. */
  lemma ShimMethodNameEncodesIndex(w: SamWeaver)
    requires w.index >= 0
    ensures var name := w.ShimMethodName();
            && |name| > |SAM_SHIM_PREFIX| && name[..|SAM_SHIM_PREFIX|] == SAM_SHIM_PREFIX
            && IsDigits(name[|SAM_SHIM_PREFIX|..]) && DecimalValue(name[|SAM_SHIM_PREFIX|..]) == w.index
  {
    var name := w.ShimMethodName();
    assert name[|SAM_SHIM_PREFIX|..] == Decimal(w.index);
    DecimalRoundTrip(w.index);
  }

  /** Two indexed weavers get the same shim name exactly when they have the same index. */
  lemma ShimMethodNamesDistinct(a: SamWeaver, b: SamWeaver)
    requires a.index >= 0 && b.index >= 0
    ensures a.ShimMethodName() == b.ShimMethodName() <==> a.index == b.index
  {
    if a.ShimMethodName() == b.ShimMethodName() {
      assert a.ShimMethodName()[|SAM_SHIM_PREFIX|..] == Decimal(a.index);
      assert b.ShimMethodName()[|SAM_SHIM_PREFIX|..] == Decimal(b.index);
      DecimalInjective(a.index, b.index);
    }
  }

  // ---- descriptors ----

  /**
   * The shim descriptor is "(", the interface's descriptor, the original
   * arguments, the Fiber and ")", then the original return descriptor.
   */
  lemma ShimDescLayout(w: SamWeaver)
    requires WellFormedMethodDesc(w.desc) && ValidClassName(w.interfaceName)
    ensures w.ShimDesc()
         == "(" + Interned(w.interfaceName) + Concat(ArgumentTypes(w.desc).value) + D_FIBER_LAST_ARG
            + ReturnTypeDesc(w.desc)
  {
    var a := Concat(ArgumentTypes(w.desc).value);
    var r := ReturnTypeDesc(w.desc);
    var iface := Interned(w.interfaceName);
    MethodDescParts(w.desc);
    ConcatNoParens(ArgumentTypes(w.desc).value);
    ReturnDescNoParens(r);
    assert ')' !in iface;
    ReplaceParens(a, r, iface, D_FIBER_LAST_ARG);
  }

  /**
   * The shim descriptor is well formed; its arguments are the interface type,
   * the original arguments in order, and the Fiber; its return type is the
   * original one.
   */
  lemma ShimDescSignature(w: SamWeaver)
    requires WellFormedMethodDesc(w.desc) && ValidClassName(w.interfaceName)
    ensures WellFormedMethodDesc(w.ShimDesc())
    ensures ArgumentTypes(w.ShimDesc())
         == Some([Interned(w.interfaceName)] + ArgumentTypes(w.desc).value + [D_FIBER])
    ensures ReturnTypeDesc(w.ShimDesc()) == ReturnTypeDesc(w.desc)
  {
    var ts := ArgumentTypes(w.desc).value;
    var x := Interned(w.interfaceName);
    var r := ReturnTypeDesc(w.desc);
    var ts' := [x] + ts + [D_FIBER];
    ShimDescLayout(w);
    ConcatAround(x, ts, D_FIBER);
    assert D_FIBER_LAST_ARG == D_FIBER + ")";
    RegroupFirst(x, Concat(ts), D_FIBER, r);
    assert w.ShimDesc() == "(" + Concat(ts') + ")" + r;
    InternedIsFieldDesc(w.interfaceName);
    FiberIsFieldDesc();
    FieldDescsAround(x, ts, D_FIBER);
    MethodDescOf(ts', r);
  }

  lemma FiberIsFieldDesc()
    ensures IsFieldDesc(D_FIBER)
  {
    NameLengthOf("kilim/Fiber", []);
    assert D_FIBER[1..] == "kilim/Fiber" + [';'] + [];
  }

  lemma InternedIsFieldDesc(className: string)
    requires ValidClassName(className)
    ensures IsFieldDesc(Interned(className))
  {
    NameLengthOf(className, []);
    assert Interned(className)[1..] == className + [';'] + [];
  }

  /**
   * The forwarded call's descriptor is the original one with the Fiber as
   * last argument and the same return type.
   */
  lemma FiberCallDescSignature(w: SamWeaver)
    requires WellFormedMethodDesc(w.desc)
    ensures w.FiberCallDesc() == "(" + Concat(ArgumentTypes(w.desc).value) + D_FIBER + ")" + ReturnTypeDesc(w.desc)
    ensures ArgumentTypes(w.FiberCallDesc()) == Some(ArgumentTypes(w.desc).value + [D_FIBER])
    ensures ReturnTypeDesc(w.FiberCallDesc()) == ReturnTypeDesc(w.desc)
  {
    var ts := ArgumentTypes(w.desc).value;
    var a := Concat(ts);
    var r := ReturnTypeDesc(w.desc);
    MethodDescParts(w.desc);
    ConcatNoParens(ts);
    ReturnDescNoParens(r);
    assert ')' !in "(" + a;
    assert w.desc == ("(" + a) + [')'] + r;
    ReplaceOnly("(" + a, r, ')', D_FIBER + ")");
    Regroup(a, D_FIBER, r);
    FiberIsFieldDesc();
    FieldDescsAround(D_FIBER, ts, D_FIBER);
    ConcatAround([], ts, D_FIBER);
    MethodDescOf(ts + [D_FIBER], r);
  }

  // ---- shim body ----

  /**
   * The body Accept writes is the layout of a shim forwarding the weaver's
   * own arguments and result to the interface method, with the
   * Fiber-extended descriptor.
   */
  lemma ShimBodyLayout(w: SamWeaver)
    requires WellFormedMethodDesc(w.desc) && ValidClassName(w.interfaceName)
    ensures ArgumentTypes(w.ShimDesc()).Some? && NonEmptyTypes(ArgumentTypes(w.ShimDesc()).value)
    ensures NonEmptyTypes(ArgumentTypes(w.desc).value) && |ReturnTypeDesc(w.ShimDesc())| > 0
    ensures ShimLayout(ShimCode(ArgumentTypes(w.ShimDesc()).value, ReturnTypeDesc(w.ShimDesc()),
                                w.itf, w.interfaceName, w.methodName, w.FiberCallDesc()),
                       ArgumentTypes(w.desc).value, ReturnTypeDesc(w.desc),
                       w.itf, w.interfaceName, w.methodName, w.FiberCallDesc())
  {
    var args := ArgumentTypes(w.desc).value;
    var x := Interned(w.interfaceName);
    ShimDescSignature(w);
    assert |x| > 0 && x[0] == 'L';
    assert |D_FIBER| > 0 && D_FIBER[0] == 'L';
    SurroundsConcat(x, args, D_FIBER);
    var sts := ArgumentTypes(w.ShimDesc()).value;
    assert Surrounds(sts, x, args, D_FIBER);
    ShimCodeLayout(sts, x, args, D_FIBER, ReturnTypeDesc(w.ShimDesc()),
                   w.itf, w.interfaceName, w.methodName, w.FiberCallDesc());
  }
}
