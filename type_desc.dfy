/**
 * kilim.analysis.TypeDesc, reduced to what the shim generator asks of it:
 * splitting a method descriptor (section 4.3.3 of the JVM Specification) into
 * its argument descriptors and its return descriptor, and turning an internal
 * class name into an object descriptor. Field descriptors follow section
 * 4.3.2; a class name inside one is taken to hold no ';', '(' or ')'.
 */
module TypeDesc {

  import opened Options
  import opened JavaStrings

  const BaseTypeChars: string := "BCDFIJSZ"

  predicate NameChar(c: char)
  {
    c != ';' && c != '(' && c != ')'
  }

  predicate ValidClassName(n: string)
  {
    |n| > 0 && forall i :: 0 <= i < |n| ==> NameChar(n[i])
  }

  /** Length of the longest run of class-name characters at the head of s. */
  function NameLength(s: string): (n: nat)
    ensures n <= |s|
    ensures forall i :: 0 <= i < n ==> NameChar(s[i])
    ensures n < |s| ==> !NameChar(s[n])
  {
    if |s| == 0 || !NameChar(s[0]) then 0 else 1 + NameLength(s[1..])
  }

  /** Length of the field descriptor at the head of s, or 0 when s does not start with one. */
  function FieldDescLength(s: string): (n: nat)
    ensures n <= |s|
    ensures '(' !in s[..n] && ')' !in s[..n]
  {
    if |s| == 0 then 0
    else if s[0] in BaseTypeChars then 1
    else if s[0] == 'L' then
      var k := NameLength(s[1..]);
      if 0 < k && k + 1 < |s| && s[k + 1] == ';' then
        assert s[..k + 2] == [s[0]] + s[1..][..k] + [';'];
        k + 2
      else 0
    else if s[0] == '[' then
      var k := FieldDescLength(s[1..]);
      if k == 0 then 0
      else
        assert s[..k + 1] == [s[0]] + s[1..][..k];
        k + 1
    else 0
  }

  /** t is exactly one field descriptor. */
  predicate IsFieldDesc(t: string)
  {
    |t| > 0 && FieldDescLength(t) == |t|
  }

  /** t is a return descriptor: 'V' or a field descriptor. */
  predicate IsReturnDesc(t: string)
  {
    t == "V" || IsFieldDesc(t)
  }

  /** TypeDesc.getInterned applied to an internal class name: its object descriptor. */
  function Interned(className: string): string
  {
    "L" + className + ";"
  }

  function Concat(ts: seq<string>): string
  {
    if ts == [] then [] else ts[0] + Concat(ts[1..])
  }

  /** Splits s into consecutive field descriptors; None when s is not such a concatenation. */
  function SplitFieldDescs(s: string): (r: Option<seq<string>>)
    ensures r.Some? ==> Concat(r.value) == s
    ensures r.Some? ==> forall i :: 0 <= i < |r.value| ==> IsFieldDesc(r.value[i])
    decreases |s|
  {
    if |s| == 0 then Some([])
    else
      var n := FieldDescLength(s);
      if n == 0 then None
      else
        match SplitFieldDescs(s[n..])
        case None => None
        case Some(ts) =>
          FieldDescHead(s, []);
          assert s[..n] + [] == s[..n];
          assert ([s[..n]] + ts)[1..] == ts;
          assert s == s[..n] + s[n..];
          Some([s[..n]] + ts)
  }

  /** TypeDesc.getArgumentTypes: the argument descriptors of a method descriptor, in order. */
  function ArgumentTypes(d: string): (r: Option<seq<string>>)
    ensures r.Some? ==> forall i :: 0 <= i < |r.value| ==> IsFieldDesc(r.value[i])
  {
    var k := IndexOf(d, ')');
    if 0 < k && d[0] == '(' then SplitFieldDescs(d[1..k]) else None
  }

  /** TypeDesc.getReturnTypeDesc: the text after the first ')'. */
  function ReturnTypeDesc(d: string): string
  {
    d[IndexOf(d, ')') + 1..]
  }

  predicate WellFormedMethodDesc(d: string)
  {
    ArgumentTypes(d).Some? && IsReturnDesc(ReturnTypeDesc(d))
  }

  // ---- lemmas ----

  lemma NameLengthOf(b: string, r: string)
    requires forall i :: 0 <= i < |b| ==> NameChar(b[i])
    ensures NameLength(b + [';'] + r) == |b|
  {
    var x := b + [';'] + r;
    assert x[|b|] == ';';
  }

  /** The descriptor at the head of s is recognised whatever follows it. */
  lemma {:induction false} FieldDescHead(s: string, r: string)
    requires FieldDescLength(s) > 0
    ensures FieldDescLength(s[..FieldDescLength(s)] + r) == FieldDescLength(s)
  {
    var n := FieldDescLength(s);
    var x := s[..n] + r;
    assert x[0] == s[0];
    if s[0] in BaseTypeChars {
    } else if s[0] == 'L' {
      var k := NameLength(s[1..]);
      assert x[1..] == s[1..k + 1] + [';'] + r;
      NameLengthOf(s[1..k + 1], r);
    } else {
      FieldDescHead(s[1..], r);
      assert x[1..] == s[1..][..n - 1] + r;
    }
  }

  lemma {:induction false} ConcatAppend(a: seq<string>, b: seq<string>)
    ensures Concat(a + b) == Concat(a) + Concat(b)
  {
    if a == [] {
      assert a + b == b;
    } else {
      assert (a + b)[0] == a[0];
      assert (a + b)[1..] == a[1..] + b;
      ConcatAppend(a[1..], b);
      calc {
        Concat(a + b);
        a[0] + Concat(a[1..] + b);
        a[0] + (Concat(a[1..]) + Concat(b));
      }
    }
  }

  lemma ConcatAround(x: string, ts: seq<string>, y: string)
    ensures Concat([x] + ts + [y]) == x + Concat(ts) + y
    ensures Concat(ts + [y]) == Concat(ts) + y
  {
    ConcatAppend([x] + ts, [y]);
    ConcatAppend([x], ts);
    ConcatAppend(ts, [y]);
    assert Concat([y]) == y + Concat([]);
    assert Concat([x]) == x + Concat([]);
  }

  /** Regrouping "(" + a + f + ")" + r around the argument text a + f. */
  lemma Regroup(a: string, f: string, r: string)
    ensures "(" + (a + f) + ")" + r == "(" + a + f + ")" + r
    ensures ("(" + a) + (f + ")") + r == "(" + a + f + ")" + r
  {
  }

  /** Regrouping "(" + (x + a + f) + ")" + r so that f is followed by ')'. */
  lemma RegroupFirst(x: string, a: string, f: string, r: string)
    ensures "(" + (x + a + f) + ")" + r == "(" + x + a + (f + ")") + r
  {
  }

  lemma FieldDescsAround(x: string, ts: seq<string>, y: string)
    requires IsFieldDesc(x) && IsFieldDesc(y)
    requires forall i :: 0 <= i < |ts| ==> IsFieldDesc(ts[i])
    ensures forall i :: 0 <= i < |[x] + ts + [y]| ==> IsFieldDesc(([x] + ts + [y])[i])
    ensures forall i :: 0 <= i < |ts + [y]| ==> IsFieldDesc((ts + [y])[i])
  {
    var us := [x] + ts + [y];
    forall i | 0 <= i < |us|
      ensures IsFieldDesc(us[i])
    {
      if 0 < i < |us| - 1 {
        assert us[i] == ts[i - 1];
      }
    }
    forall i | 0 <= i < |ts + [y]|
      ensures IsFieldDesc((ts + [y])[i])
    {
      if i < |ts| {
        assert (ts + [y])[i] == ts[i];
      }
    }
  }

  lemma {:induction false} ConcatNoParens(ts: seq<string>)
    requires forall i :: 0 <= i < |ts| ==> IsFieldDesc(ts[i])
    ensures '(' !in Concat(ts) && ')' !in Concat(ts)
  {
    if ts != [] {
      assert ts[0][..|ts[0]|] == ts[0];
      ConcatNoParens(ts[1..]);
    }
  }

  lemma ReturnDescNoParens(t: string)
    requires IsReturnDesc(t)
    ensures '(' !in t && ')' !in t
  {
    if t != "V" {
      assert t[..|t|] == t;
    }
  }

  /** Splitting a concatenation of field descriptors gives them back. */
  lemma {:induction false} SplitConcat(ts: seq<string>)
    requires forall i :: 0 <= i < |ts| ==> IsFieldDesc(ts[i])
    ensures SplitFieldDescs(Concat(ts)) == Some(ts)
  {
    if ts != [] {
      var s := Concat(ts);
      var n := |ts[0]|;
      FieldDescHead(ts[0], Concat(ts[1..]));
      assert ts[0][..n] == ts[0];
      assert s[..n] == ts[0];
      assert s[n..] == Concat(ts[1..]);
      SplitConcat(ts[1..]);
      assert [ts[0]] + ts[1..] == ts;
    }
  }

  /** The first ')' of "(" + Concat(ts) + ")" + ret ends the arguments ts and starts ret. */
  lemma MethodDescSplit(ts: seq<string>, ret: string)
    requires forall i :: 0 <= i < |ts| ==> IsFieldDesc(ts[i])
    ensures var d := "(" + Concat(ts) + ")" + ret;
            var k := IndexOf(d, ')');
            && 0 < k && d[0] == '(' && d[1..k] == Concat(ts) && d[k + 1..] == ret
  {
    ConcatNoParens(ts);
    IndexOfClose(Concat(ts), ret);
  }

  /**
   * A method descriptor assembled from argument descriptors ts and return
   * descriptor ret is well formed and splits back into ts and ret.
   */
  lemma MethodDescOf(ts: seq<string>, ret: string)
    requires forall i :: 0 <= i < |ts| ==> IsFieldDesc(ts[i])
    requires IsReturnDesc(ret)
    ensures WellFormedMethodDesc("(" + Concat(ts) + ")" + ret)
    ensures ArgumentTypes("(" + Concat(ts) + ")" + ret) == Some(ts)
    ensures ReturnTypeDesc("(" + Concat(ts) + ")" + ret) == ret
  {
    MethodDescSplit(ts, ret);
    SplitConcat(ts);
  }

  /** A well-formed method descriptor is "(" + its arguments + ")" + its return descriptor. */
  lemma MethodDescParts(d: string)
    requires WellFormedMethodDesc(d)
    ensures d == "(" + Concat(ArgumentTypes(d).value) + ")" + ReturnTypeDesc(d)
  {
    var k := IndexOf(d, ')');
    assert d == d[..1] + d[1..k] + [d[k]] + d[k + 1..];
  }
}
