/** C# `int` values: the unchecked addition that the window-option
    adjustments use, `int.Parse` as the creation handlers call it, and the
    decimal text that an integer id payload renders to. */
module Int32Text {
  import opened Wrappers

  const INT32_MIN: int := -0x8000_0000
  const INT32_MAX: int := 0x7FFF_FFFF
  const INT32_RANGE: int := 0x1_0000_0000

  type Int32 = v: int | INT32_MIN <= v <= INT32_MAX

  /** Two's-complement wrap-around, as C# applies it in an unchecked context. */
  function Wrap32(v: int): (r: Int32)
    ensures (r - v) % INT32_RANGE == 0
    ensures INT32_MIN <= v <= INT32_MAX ==> r == v
  {
    var k := (v - INT32_MIN) / INT32_RANGE;
    assert v - INT32_MIN == k * INT32_RANGE + (v - INT32_MIN) % INT32_RANGE;
    (v - INT32_MIN) % INT32_RANGE + INT32_MIN
  }

  /** `a + b` on two C# `int`s (unchecked, so it wraps on overflow). */
  function Add32(a: Int32, b: Int32): (r: Int32)
    ensures INT32_MIN <= a + b <= INT32_MAX ==> r == a + b
    ensures a + b > INT32_MAX ==> r == a + b - INT32_RANGE
    ensures a + b < INT32_MIN ==> r == a + b + INT32_RANGE
  {
    Wrap32(a + b)
  }

  predicate IsDigit(c: char) { '0' <= c <= '9' }

  /** Every character of `s` is a decimal digit. */
  predicate AllDigits(s: string) { forall i | 0 <= i < |s| :: IsDigit(s[i]) }

  function DigitValue(c: char): nat
    requires IsDigit(c)
  {
    c as int - '0' as int
  }

  /** Value of a string of decimal digits, most significant digit first. */
  function DigitsValue(s: string): nat
    requires AllDigits(s)
    decreases |s|
  {
    if s == [] then 0 else 10 * DigitsValue(s[..|s| - 1]) + DigitValue(s[|s| - 1])
  }

  /** The white space that `NumberStyles.Integer` accepts around a number. */
  predicate IsWhite(c: char) { c == ' ' || '\t' <= c <= '\r' }

  function TrimStart(s: string): (r: string)
    ensures |r| <= |s| && r == s[|s| - |r|..]
    ensures r == [] || !IsWhite(r[0])
    decreases |s|
  {
    if s != [] && IsWhite(s[0]) then TrimStart(s[1..]) else s
  }

  function TrimEnd(s: string): (r: string)
    ensures |r| <= |s| && r == s[..|r|]
    ensures r == [] || !IsWhite(r[|r| - 1])
    decreases |s|
  {
    if s != [] && IsWhite(s[|s| - 1]) then TrimEnd(s[..|s| - 1]) else s
  }

  /** `int.Parse(s)` with the default `NumberStyles.Integer`: optional white
      space, an optional sign, one or more decimal digits, optional white
      space. `None` where .NET throws (`FormatException` for a malformed
      string, `OverflowException` for a value outside `int`). */
  function ParseInt32(s: string): Option<Int32>
  {
    ParseSigned(TrimEnd(TrimStart(s)))
  }

  /** The trimmed text: an optional sign, then the digits. */
  function ParseSigned(t: string): Option<Int32>
  {
    if t != [] && t[0] == '-' then
      match Magnitude(t[1..])
      case None => None
      case Some(m) => Narrow(-(m as int))
    else
      var digits := if t != [] && t[0] == '+' then t[1..] else t;
      match Magnitude(digits)
      case None => None
      case Some(m) => Narrow(m)
  }

  /** The value of one or more decimal digits. */
  function Magnitude(digits: string): Option<nat>
  {
    if digits == [] || !AllDigits(digits) then None else Some(DigitsValue(digits))
  }

  /** The value, if an `int` can hold it (`OverflowException` otherwise). */
  function Narrow(v: int): Option<Int32>
  {
    if INT32_MIN <= v <= INT32_MAX then Some(v) else None
  }

  function DigitChar(d: nat): char
    requires d < 10
  {
    ('0' as int + d) as char
  }

  function NatText(n: nat): string
    decreases n
  {
    if n < 10 then [DigitChar(n)] else NatText(n / 10) + [DigitChar(n % 10)]
  }

  /** `n.ToString()` for an `int`: a minus sign for negatives, then the digits. */
  function IntText(n: int): string
  {
    if n < 0 then ['-'] + NatText(-n) else NatText(n)
  }

  lemma {:induction false} NatTextDigits(n: nat)
    ensures NatText(n) != [] && AllDigits(NatText(n))
    ensures DigitsValue(NatText(n)) == n
    decreases n
  {
    if n >= 10 {
      NatTextDigits(n / 10);
      var s := NatText(n);
      assert s[..|s| - 1] == NatText(n / 10);
    }
  }

  /** Trimming leaves alone a string that neither starts nor ends with white
      space. */
  lemma TrimUntouched(s: string)
    requires s != [] && !IsWhite(s[0]) && !IsWhite(s[|s| - 1])
    ensures TrimEnd(TrimStart(s)) == s
  {
  }

  /** A plain run of digits is read as its value, or rejected as an
      overflow. */
  lemma ParseDigits(d: string)
    requires d != [] && AllDigits(d)
    ensures ParseInt32(d) == if DigitsValue(d) <= INT32_MAX then Some(DigitsValue(d)) else None
  {
    TrimUntouched(d);
    assert TrimEnd(TrimStart(d)) == d;
    assert d[0] != '-' && d[0] != '+';
    assert Magnitude(d) == Some(DigitsValue(d));
    assert ParseSigned(d) == Narrow(DigitsValue(d));
  }

  /** A minus sign followed by digits is read as the negated value, or
      rejected as an overflow. */
  lemma ParseNegatedDigits(s: string)
    requires |s| > 1 && s[0] == '-' && AllDigits(s[1..])
    ensures ParseInt32(s) == if -(DigitsValue(s[1..]) as int) >= INT32_MIN then Some(-(DigitsValue(s[1..]) as int)) else None
  {
    SignedUntrimmed(s);
    NegatedDigits(s);
  }

  /** The sign step for a minus sign on trimmed text. */
  lemma NegatedDigits(t: string)
    requires |t| > 1 && t[0] == '-' && AllDigits(t[1..])
    ensures ParseSigned(t) == if -(DigitsValue(t[1..]) as int) >= INT32_MIN then Some(-(DigitsValue(t[1..]) as int)) else None
  {
    SignedDigits(t);
  }

  /** A sign followed by digits has nothing for trimming to drop. */
  lemma SignedUntrimmed(s: string)
    requires |s| > 1 && (s[0] == '-' || s[0] == '+') && AllDigits(s[1..])
    ensures ParseInt32(s) == ParseSigned(s)
  {
    assert IsDigit(s[1..][|s| - 2]);
    TrimUntouched(s);
  }

  /** The sign step on trimmed text: the digits after the sign are read as
      the magnitude, negated after a minus. */
  lemma SignedDigits(t: string)
    requires |t| > 1 && (t[0] == '-' || t[0] == '+') && AllDigits(t[1..])
    ensures ParseSigned(t) ==
      Narrow(if t[0] == '-' then -(DigitsValue(t[1..]) as int) else DigitsValue(t[1..]))
  {
    assert Magnitude(t[1..]) == Some(DigitsValue(t[1..]));
  }

  /** Every `int` id the host sends as a number is read back by `int.Parse`
      as that same id. */
  lemma ParseIntTextRoundTrip(n: Int32)
    ensures ParseInt32(IntText(n)) == Some(n)
  {
    var magnitude: nat := if n < 0 then -(n as int) else n;
    NatTextDigits(magnitude);
    if n < 0 {
      var s := ['-'] + NatText(magnitude);
      assert s[1..] == NatText(magnitude);
      ParseNegatedDigits(s);
    } else {
      ParseDigits(NatText(magnitude));
    }
  }

  /** Leading white space is dropped, and nothing else. */
  lemma {:induction false} TrimStartDropsPadding(pre: string, t: string)
    requires forall i | 0 <= i < |pre| :: IsWhite(pre[i])
    requires t == [] || !IsWhite(t[0])
    ensures TrimStart(pre + t) == t
    decreases |pre|
  {
    if pre == [] {
      assert pre + t == t;
    } else {
      assert (pre + t)[1..] == pre[1..] + t;
      TrimStartDropsPadding(pre[1..], t);
    }
  }

  /** Trailing white space is dropped, and nothing else. */
  lemma {:induction false} TrimEndDropsPadding(t: string, post: string)
    requires forall i | 0 <= i < |post| :: IsWhite(post[i])
    requires t == [] || !IsWhite(t[|t| - 1])
    ensures TrimEnd(t + post) == t
    decreases |post|
  {
    if post == [] {
      assert t + post == t;
    } else {
      assert (t + post)[..|t + post| - 1] == t + post[..|post| - 1];
      TrimEndDropsPadding(t, post[..|post| - 1]);
    }
  }

  /** White space around a number does not change how it is read. */
  lemma ParseIgnoresPadding(pre: string, t: string, post: string)
    requires forall i | 0 <= i < |pre| :: IsWhite(pre[i])
    requires forall i | 0 <= i < |post| :: IsWhite(post[i])
    requires t != [] && !IsWhite(t[0]) && !IsWhite(t[|t| - 1])
    ensures ParseInt32(pre + t + post) == ParseInt32(t)
  {
    assert pre + t + post == pre + (t + post);
    assert (t + post)[0] == t[0];
    TrimStartDropsPadding(pre, t + post);
    TrimEndDropsPadding(t, post);
    TrimUntouched(t);
  }

  /** A plus sign followed by digits is read as the value itself. */
  lemma ParsePlusDigits(s: string)
    requires |s| > 1 && s[0] == '+' && AllDigits(s[1..])
    ensures ParseInt32(s) == if DigitsValue(s[1..]) <= INT32_MAX then Some(DigitsValue(s[1..])) else None
  {
    SignedUntrimmed(s);
    SignedDigits(s);
  }

  /** A stray character, or no digits at all, is a format error. */
  lemma ParseRejectsMalformed()
    ensures ParseInt32("4x") == None
    ensures ParseInt32("") == None
  {
    assert TrimStart("4x") == "4x" && TrimEnd("4x") == "4x";
    assert !AllDigits("4x") by {
      assert !IsDigit("4x"[1]);
    }
  }
}
