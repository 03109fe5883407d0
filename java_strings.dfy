/**
 * The parts of java.lang.String and java.lang.Integer that the shim
 * generator relies on, over Dafny strings. Dafny characters are Unicode
 * scalar values, while Java strings are UTF-16 units: a character outside
 * the Basic Multilingual Plane is one Dafny char but two Java chars, and a
 * lone surrogate cannot be written at all. So StringHash matches Java's
 * String.hashCode only for text inside the Basic Multilingual Plane.
 */
module JavaStrings {

  /** String.indexOf(char): the first position of c in s, or -1 when c does not occur. */
  function IndexOf(s: string, c: char): (k: int)
    ensures -1 <= k < |s|
    ensures k == -1 <==> c !in s
    ensures 0 <= k ==> s[k] == c && c !in s[..k]
  {
    if |s| == 0 then -1
    else if s[0] == c then 0
    else
      var k := IndexOf(s[1..], c);
      assert s == [s[0]] + s[1..];
      if k == -1 then -1
      else
        assert s[..k + 1] == [s[0]] + s[1..][..k];
        k + 1
  }

  /** The first occurrence of c is at k when s[k] is c and no earlier character is. */
  lemma IndexOfAt(s: string, c: char, k: nat)
    requires k < |s| && s[k] == c && c !in s[..k]
    ensures IndexOf(s, c) == k
  {
    assert s[..k + 1][k] == c;
  }

  /**
   * String.replace with a one-character target: every occurrence of c in s,
   * scanned left to right, is replaced by t; the inserted text is not rescanned.
   */
  function Replace(s: string, c: char, t: string): string
  {
    if |s| == 0 then []
    else (if s[0] == c then t else [s[0]]) + Replace(s[1..], c, t)
  }

  lemma {:induction false} ReplaceAppend(a: string, b: string, c: char, t: string)
    ensures Replace(a + b, c, t) == Replace(a, c, t) + Replace(b, c, t)
  {
    if |a| == 0 {
      assert a + b == b;
    } else {
      assert (a + b)[1..] == a[1..] + b;
      ReplaceAppend(a[1..], b, c, t);
    }
  }

  lemma {:induction false} ReplaceAbsent(s: string, c: char, t: string)
    requires c !in s
    ensures Replace(s, c, t) == s
  {
    if |s| > 0 {
      assert s == [s[0]] + s[1..];
      ReplaceAbsent(s[1..], c, t);
    }
  }

  /** In "(" + a + ")" + r with no ')' in a, the first ')' closes a. */
  lemma IndexOfClose(a: string, r: string)
    requires ')' !in a
    ensures IndexOf("(" + a + ")" + r, ')') == |a| + 1
    ensures ("(" + a + ")" + r)[1..|a| + 1] == a
    ensures ("(" + a + ")" + r)[|a| + 2..] == r
  {
    var d := "(" + a + ")" + r;
    assert d[..|a| + 1] == "(" + a;
    IndexOfAt(d, ')', |a| + 1);
  }

  /** Replacing the only occurrence of c. */
  lemma ReplaceOnly(pre: string, post: string, c: char, t: string)
    requires c !in pre && c !in post
    ensures Replace(pre + [c] + post, c, t) == pre + t + post
  {
    ReplaceAppend(pre + [c], post, c, t);
    ReplaceAppend(pre, [c], c, t);
    ReplaceAbsent(pre, c, t);
    ReplaceAbsent(post, c, t);
    assert Replace([c], c, t) == t by {
      assert Replace([c], c, t) == t + Replace([], c, t);
    }
    assert Replace(pre + [c], c, t) == pre + t;
  }

  /**
   * In "(" + a + ")" + r with no other parenthesis, replacing '(' by "(" + x
   * and then ')' by y gives "(" + x + a + y + r.
   */
  lemma ReplaceParens(a: string, r: string, x: string, y: string)
    requires '(' !in a && ')' !in a && '(' !in r && ')' !in r && ')' !in x
    ensures Replace(Replace("(" + a + ")" + r, '(', "(" + x), ')', y) == "(" + x + a + y + r
  {
    assert "(" + a + ")" + r == [] + ['('] + (a + ")" + r);
    ReplaceOnly([], a + ")" + r, '(', "(" + x);
    assert [] + ("(" + x) + (a + ")" + r) == ("(" + x + a) + [')'] + r;
    ReplaceOnly("(" + x + a, r, ')', y);
  }

  /** Replacing one character by one character keeps the length and changes exactly the occurrences. */
  lemma {:induction false} ReplaceByChar(s: string, c: char, d: char)
    ensures |Replace(s, c, [d])| == |s|
    ensures forall i :: 0 <= i < |s| ==> Replace(s, c, [d])[i] == if s[i] == c then d else s[i]
  {
    if |s| > 0 {
      ReplaceByChar(s[1..], c, d);
    }
  }

  /** s.replace('.', '/'): a binary class name turned into its internal form. */
  function DotsToSlashes(s: string): (r: string)
    ensures |r| == |s|
    ensures forall i :: 0 <= i < |s| ==> r[i] == if s[i] == '.' then '/' else s[i]
    ensures '.' !in r
  {
    ReplaceByChar(s, '.', '/');
    Replace(s, '.', "/")
  }

  predicate IsDigits(s: string)
  {
    forall i :: 0 <= i < |s| ==> '0' <= s[i] <= '9'
  }

  function DigitChar(d: nat): (c: char)
    requires d < 10
    ensures '0' <= c <= '9'
  {
    (d + '0' as int) as char
  }

  function DigitValue(c: char): nat
    requires '0' <= c <= '9'
  {
    c as int - '0' as int
  }

  /**
   * Integer.toString of a non-negative value: its decimal digits, most
   * significant first, with no leading zero.
   */
  function Decimal(n: nat): (s: string)
    ensures |s| > 0 && IsDigits(s)
    ensures s[0] == '0' <==> n == 0
    ensures n == 0 ==> s == "0"
  {
    if n < 10 then [DigitChar(n)] else Decimal(n / 10) + [DigitChar(n % 10)]
  }

  /** The value of a string of decimal digits. */
  function DecimalValue(s: string): nat
    requires IsDigits(s)
  {
    if |s| == 0 then 0 else DecimalValue(s[..|s| - 1]) * 10 + DigitValue(s[|s| - 1])
  }

  /** Reading back the digits of Integer.toString gives the number. */
  lemma {:induction false} DecimalRoundTrip(n: nat)
    ensures DecimalValue(Decimal(n)) == n
  {
    if n >= 10 {
      var s := Decimal(n);
      assert s[..|s| - 1] == Decimal(n / 10);
      DecimalRoundTrip(n / 10);
    }
  }

  lemma DecimalInjective(m: nat, n: nat)
    requires Decimal(m) == Decimal(n)
    ensures m == n
  {
    DecimalRoundTrip(m);
    DecimalRoundTrip(n);
  }

  /** String.hashCode: h := 31 * h + c over the characters, in 32-bit arithmetic. */
  function StringHash(s: string): bv32
  {
    if |s| == 0 then 0
    else StringHash(s[..|s| - 1]) * 31 + (s[|s| - 1] as int) as bv32
  }
}
