/**
 * The instructions of a shim method, as a function of its argument and
 * result descriptors: the specification the body writer is checked against,
 * with the slot arithmetic of section 2.6.1 of the JVM Specification.
 */
module ShimBody {

  import opened Constants
  import opened TypeDesc
  import opened VMType
  import opened Asm

  /** Descriptor of Fiber.setCallee(Object): void. */
  const SET_CALLEE_DESC: string := "(" + D_OBJECT + ")V"

  /** The call that records the callee in the Fiber. */
  const SetCallee: Insn := MethodInsn(INVOKEVIRTUAL, FIBER_CLASS, "setCallee", SET_CALLEE_DESC, false)

  predicate NonEmptyTypes(ts: seq<string>)
  {
    forall i :: 0 <= i < |ts| ==> |ts[i]| > 0
  }

  /** Local-variable slots taken by the first k arguments: two for long and double, one otherwise. */
  function SlotsTo(ts: seq<string>, k: nat): nat
    requires NonEmptyTypes(ts) && k <= |ts|
  {
    if k == 0 then 0 else SlotsTo(ts, k - 1) + Category(ToVmType(ts[k - 1]))
  }

  /** Local-variable slots taken by all the arguments. */
  function Slots(ts: seq<string>): nat
    requires NonEmptyTypes(ts)
  {
    SlotsTo(ts, |ts|)
  }

  /** One load per argument, in order: argument k, with its family's opcode, from the slot after the widths of arguments 0..k-1. */
  function LoadArgs(ts: seq<string>): (code: seq<Insn>)
    requires NonEmptyTypes(ts)
    ensures |code| == |ts|
  {
    seq(|ts|, k requires 0 <= k < |ts| => VarInsn(LoadInsn(ToVmType(ts[k])), SlotsTo(ts, k)))
  }

  /** The forwarding call: interface dispatch when itf, virtual dispatch otherwise. */
  function Dispatch(itf: bool, owner: string, name: string, callDesc: string): Insn
  {
    if itf then MethodInsn(INVOKEINTERFACE, owner, name, callDesc, true)
    else MethodInsn(INVOKEVIRTUAL, owner, name, callDesc, false)
  }

  /** RETURN for a void result, otherwise the return opcode of the result's family. */
  function ReturnInsn(retDesc: string): Insn
    requires |retDesc| > 0
  {
    if retDesc[0] == 'V' then SimpleInsn(RETURN) else SimpleInsn(RetInsn(ToVmType(retDesc)))
  }

  /**
   * The instructions of a shim whose arguments have descriptors ts (callee
   * first, Fiber last) and whose result has descriptor retDesc.
   */
  function ShimCode(ts: seq<string>, retDesc: string, itf: bool, owner: string, name: string, callDesc: string)
    : seq<Insn>
    requires NonEmptyTypes(ts) && |retDesc| > 0
  {
    LoadArgs(ts)
    + [ Dispatch(itf, owner, name, callDesc),
        VarInsn(ALOAD, Slots(ts) - 1),
        VarInsn(ALOAD, 0),
        SetCallee,
        ReturnInsn(retDesc),
        Maxs(0, 0),
        End ]
  }

  lemma ShimCodeParts(ts: seq<string>, retDesc: string, itf: bool, owner: string, name: string, callDesc: string)
    requires NonEmptyTypes(ts) && |retDesc| > 0
    ensures ShimCode(ts, retDesc, itf, owner, name, callDesc)
         == LoadArgs(ts) + [Dispatch(itf, owner, name, callDesc)]
            + [VarInsn(ALOAD, Slots(ts) - 1), VarInsn(ALOAD, 0),
               SetCallee]
            + [ReturnInsn(retDesc), Maxs(0, 0), End]
  {
  }

  /** The instructions of a shim, position by position. */
  lemma ShimCodeAt(ts: seq<string>, retDesc: string, itf: bool, owner: string, name: string, callDesc: string)
    requires NonEmptyTypes(ts) && |retDesc| > 0
    ensures var code := ShimCode(ts, retDesc, itf, owner, name, callDesc);
            var n := |ts|;
            && |code| == n + 7
            && (forall k :: 0 <= k < n ==> code[k] == LoadArgs(ts)[k])
            && code[n] == Dispatch(itf, owner, name, callDesc)
            && code[n + 1] == VarInsn(ALOAD, Slots(ts) - 1)
            && code[n + 2] == VarInsn(ALOAD, 0)
            && code[n + 3] == SetCallee
            && code[n + 4] == ReturnInsn(retDesc)
            && code[n + 5] == Maxs(0, 0) && code[n + 6] == End
  {
  }

  /**
   * Arguments occupy disjoint slots: argument k ends at or before the slot
   * where any later argument j starts.
   */
  lemma {:induction false} SlotsDisjoint(ts: seq<string>, k: nat, j: nat)
    requires NonEmptyTypes(ts) && k < j <= |ts|
    ensures SlotsTo(ts, k) + Category(ToVmType(ts[k])) <= SlotsTo(ts, j)
  {
    if j > k + 1 {
      SlotsDisjoint(ts, k, j - 1);
    }
  }

  /** sts is args with x in front and f behind. */
  predicate Surrounds(sts: seq<string>, x: string, args: seq<string>, f: string)
  {
    && |sts| == |args| + 2 && sts[0] == x && sts[|args| + 1] == f
    && forall k :: 1 <= k <= |args| ==> sts[k] == args[k - 1]
  }

  lemma SurroundsConcat(x: string, args: seq<string>, f: string)
    ensures Surrounds([x] + args + [f], x, args, f)
  {
  }

  /** A shim's argument list, a reference x, the arguments args and a reference f, has no empty descriptor. */
  lemma ShimArgsNonEmpty(sts: seq<string>, x: string, args: seq<string>, f: string)
    requires Surrounds(sts, x, args, f) && |x| > 0 && |f| > 0 && NonEmptyTypes(args)
    ensures NonEmptyTypes(sts)
  {
    forall i | 0 <= i < |sts|
      ensures |sts[i]| > 0
    {
      if 0 < i <= |args| {
        assert sts[i] == args[i - 1];
      }
    }
  }

  /** In such a list the first k + 1 arguments take one slot more than the first k of args. */
  lemma {:induction false} ShimSlotsTo(sts: seq<string>, x: string, args: seq<string>, f: string, k: nat)
    requires Surrounds(sts, x, args, f) && |x| > 0 && x[0] == 'L' && NonEmptyTypes(sts) && NonEmptyTypes(args)
    requires k <= |args|
    ensures SlotsTo(sts, k + 1) == 1 + SlotsTo(args, k)
  {
    if k > 0 {
      ShimSlotsTo(sts, x, args, f, k - 1);
      assert sts[k] == args[k - 1];
    }
  }

  /**
   * The loads of a shim whose arguments sts are a reference x, the
   * arguments args and a reference f: x from slot 0, argument k of args from
   * slot 1 plus the widths before it, f from the slot after all of them,
   * which is the last slot the arguments take.
   */
  lemma ShimLoads(sts: seq<string>, x: string, args: seq<string>, f: string)
    requires Surrounds(sts, x, args, f) && |x| > 0 && x[0] == 'L' && |f| > 0 && f[0] == 'L'
    requires NonEmptyTypes(args)
    ensures NonEmptyTypes(sts)
    ensures Slots(sts) == Slots(args) + 2
    ensures var loads := LoadArgs(sts);
            && loads[0] == VarInsn(ALOAD, 0)
            && loads[|args| + 1] == VarInsn(ALOAD, 1 + Slots(args))
  {
    ShimArgsNonEmpty(sts, x, args, f);
    ShimSlotsTo(sts, x, args, f, |args|);
  }

  /** The load at position k reads type k from the slot after those of the types before it. */
  lemma LoadArgsAt(ts: seq<string>, k: nat)
    requires NonEmptyTypes(ts) && k < |ts|
    ensures LoadArgs(ts)[k] == VarInsn(LoadInsn(ToVmType(ts[k])), SlotsTo(ts, k))
  {
  }

  /** The load of one argument: LoadArgs(sts)[k] for 1 <= k <= |args|. */
  lemma ShimArgLoad(sts: seq<string>, x: string, args: seq<string>, f: string, k: nat)
    requires Surrounds(sts, x, args, f) && |x| > 0 && x[0] == 'L' && NonEmptyTypes(sts) && NonEmptyTypes(args)
    requires 1 <= k <= |args|
    ensures LoadArgs(sts)[k] == VarInsn(LoadInsn(ToVmType(args[k - 1])), 1 + SlotsTo(args, k - 1))
  {
    ShimSlotsTo(sts, x, args, f, k - 1);
    assert sts[k] == args[k - 1];
    LoadArgsAt(sts, k);
  }

  /** In the shim code, instruction k loads argument k - 1 of args from slot 1 plus the widths of the arguments before it. */
  lemma ShimCodeArgLoads(sts: seq<string>, x: string, args: seq<string>, f: string, retDesc: string,
                         itf: bool, owner: string, name: string, callDesc: string)
    requires Surrounds(sts, x, args, f) && |x| > 0 && x[0] == 'L' && |f| > 0 && NonEmptyTypes(args) && |retDesc| > 0
    ensures NonEmptyTypes(sts)
    ensures forall k :: 1 <= k <= |args| ==>
              ShimCode(sts, retDesc, itf, owner, name, callDesc)[k] == VarInsn(LoadInsn(ToVmType(args[k - 1])), 1 + SlotsTo(args, k - 1))
  {
    ShimArgsNonEmpty(sts, x, args, f);
    ShimCodeAt(sts, retDesc, itf, owner, name, callDesc);
    forall k | 1 <= k <= |args|
      ensures ShimCode(sts, retDesc, itf, owner, name, callDesc)[k] == VarInsn(LoadInsn(ToVmType(args[k - 1])), 1 + SlotsTo(args, k - 1))
    {
      ShimArgLoad(sts, x, args, f, k);
    }
  }

  /** A return descriptor starts with 'V' only when it is "V". */
  lemma ReturnChoice(r: string)
    requires IsReturnDesc(r)
    ensures ReturnInsn(r) == SimpleInsn(RETURN) <==> r == "V"
    ensures r != "V" ==> ReturnInsn(r) == SimpleInsn(RetInsn(ToVmType(r)))
  {
    if r != "V" {
      assert FieldDescLength(r) == |r| > 0;
      assert r[0] != 'V';
    }
  }

  /**
   * code is the body of a shim that forwards a call with arguments args and
   * result retDesc: with n = |args| + 2 shim arguments, the callee from
   * slot 0; instruction k loads argument k - 1 of args from slot 1 plus
   * the widths before it; the Fiber from the slot after all of them; the
   * dispatch chosen by itf; the Fiber and the callee again and
   * Fiber.setCallee; RETURN exactly for a void result, otherwise the return
   * of the result's family; then maxs and end, and nothing else.
   */
  predicate ShimLayout(code: seq<Insn>, args: seq<string>, retDesc: string,
                       itf: bool, owner: string, name: string, callDesc: string)
    requires NonEmptyTypes(args) && |retDesc| > 0
  {
    var n := |args| + 2;
    && |code| == n + 7
    && code[0] == VarInsn(ALOAD, 0)
    && (forall k :: 1 <= k <= |args| ==>
          code[k] == VarInsn(LoadInsn(ToVmType(args[k - 1])), 1 + SlotsTo(args, k - 1)))
    && code[n - 1] == VarInsn(ALOAD, 1 + Slots(args))
    && code[n] == MethodInsn(if itf then INVOKEINTERFACE else INVOKEVIRTUAL, owner, name, callDesc, itf)
    && code[n + 1] == code[n - 1]
    && code[n + 2] == VarInsn(ALOAD, 0)
    && code[n + 3] == MethodInsn(INVOKEVIRTUAL, FIBER_CLASS, "setCallee", "(" + D_OBJECT + ")V", false)
    && (code[n + 4] == SimpleInsn(RETURN) <==> retDesc == "V")
    && (retDesc != "V" ==> code[n + 4] == SimpleInsn(RetInsn(ToVmType(retDesc))))
    && code[n + 5] == Maxs(0, 0) && code[n + 6] == End
  }

  /**
   * The shim for arguments sts that are a reference x (the callee), the
   * arguments args and a reference f (the Fiber) has the layout of a shim
   * forwarding args.
   */
  lemma ShimCodeLayout(sts: seq<string>, x: string, args: seq<string>, f: string, retDesc: string,
                       itf: bool, owner: string, name: string, callDesc: string)
    requires Surrounds(sts, x, args, f) && |x| > 0 && x[0] == 'L' && |f| > 0 && f[0] == 'L'
    requires NonEmptyTypes(args) && IsReturnDesc(retDesc)
    ensures NonEmptyTypes(sts) && |retDesc| > 0
    ensures Slots(sts) == Slots(args) + 2
    ensures ShimLayout(ShimCode(sts, retDesc, itf, owner, name, callDesc), args, retDesc, itf, owner, name, callDesc)
  {
    ReturnChoice(retDesc);
    ShimLoads(sts, x, args, f);
    ShimCodeArgLoads(sts, x, args, f, retDesc, itf, owner, name, callDesc);
    ShimCodeAt(sts, retDesc, itf, owner, name, callDesc);
  }
}
