/**
 * The few Python string primitives the controller relies on:
 * `str.isspace`, `str.strip`, `int(str)` in base 10, and the `02d`
 * integer format (which C's `%02d` shares).
 */
module PyText {
  import opened Wrappers

  /** Python's `str.isspace` for one character. */
  predicate IsSpace(c: char) {
    var n := c as int;
    (9 <= n <= 13) || (28 <= n <= 32) || n == 0x85 || n == 0xA0 || n == 0x1680
    || (0x2000 <= n <= 0x200A) || n == 0x2028 || n == 0x2029 || n == 0x202F
    || n == 0x205F || n == 0x3000
  }

  /** The characters at which Python's `str.splitlines` breaks a line. */
  predicate IsLineBreak(c: char) {
    var n := c as int;
    (10 <= n <= 13) || (28 <= n <= 30) || n == 0x85 || n == 0x2028 || n == 0x2029
  }

  lemma LineBreakIsSpace(c: char)
    requires IsLineBreak(c)
    ensures IsSpace(c)
  {
  }

  predicate AllSpace(s: string) {
    forall i :: 0 <= i < |s| ==> IsSpace(s[i])
  }

  predicate IsDigit(c: char) {
    '0' <= c <= '9'
  }

  function DigitValue(c: char): (d: nat)
    requires IsDigit(c)
    ensures d < 10
  {
    c as int - '0' as int
  }

  function DigitChar(d: nat): (c: char)
    requires d < 10
    ensures IsDigit(c) && DigitValue(c) == d
  {
    ('0' as int + d) as char
  }

  /** The index of the first non-whitespace character at or after `i` (or `|s|`). */
  function SkipSpace(s: string, i: nat): (j: nat)
    requires i <= |s|
    ensures i <= j <= |s|
    ensures j < |s| ==> !IsSpace(s[j])
    decreases |s| - i
  {
    if i < |s| && IsSpace(s[i]) then SkipSpace(s, i + 1) else i
  }

  /** The end of `s[lo..j]` once its trailing whitespace is dropped. */
  function BackSpace(s: string, lo: nat, j: nat): (k: nat)
    requires lo <= j <= |s|
    ensures lo <= k <= j
    ensures k > lo ==> !IsSpace(s[k - 1])
    decreases j
  {
    if j > lo && IsSpace(s[j - 1]) then BackSpace(s, lo, j - 1) else j
  }

  lemma {:induction false} SkipSpaceSkipsSpace(s: string, i: nat, k: nat)
    requires i <= |s| && i <= k < SkipSpace(s, i)
    ensures IsSpace(s[k])
    decreases |s| - i
  {
    if k > i {
      SkipSpaceSkipsSpace(s, i + 1, k);
    }
  }

  lemma {:induction false} BackSpaceSkipsSpace(s: string, lo: nat, j: nat, k: nat)
    requires lo <= j <= |s| && BackSpace(s, lo, j) <= k < j
    ensures IsSpace(s[k])
    decreases j
  {
    if k < j - 1 {
      BackSpaceSkipsSpace(s, lo, j - 1, k);
    }
  }

  /** How many leading whitespace characters `str.strip()` removes. */
  function LeadingSpaces(s: string): (n: nat)
    ensures n <= |s|
  {
    SkipSpace(s, 0)
  }

  /** `str.strip()`: `s` with its leading and trailing whitespace removed. */
  function Strip(s: string): (r: string)
    ensures |r| <= |s|
    ensures r == [] || (!IsSpace(r[0]) && !IsSpace(r[|r| - 1]))
  {
    var a := SkipSpace(s, 0);
    s[a..BackSpace(s, a, |s|)]
  }

  /** The stripped text sits inside `s` with only whitespace around it. */
  lemma StripInside(s: string)
    ensures LeadingSpaces(s) + |Strip(s)| <= |s|
    ensures s[LeadingSpaces(s)..LeadingSpaces(s) + |Strip(s)|] == Strip(s)
    ensures AllSpace(s[..LeadingSpaces(s)])
    ensures AllSpace(s[LeadingSpaces(s) + |Strip(s)|..])
  {
    var a := SkipSpace(s, 0);
    var b := BackSpace(s, a, |s|);
    forall k | 0 <= k < a ensures IsSpace(s[..a][k]) {
      SkipSpaceSkipsSpace(s, 0, k);
    }
    forall k | 0 <= k < |s| - b ensures IsSpace(s[b..][k]) {
      BackSpaceSkipsSpace(s, a, |s|, b + k);
    }
  }

  /** Stripping leaves a string alone exactly when it has no whitespace at either end. */
  lemma StripUnchanged(s: string)
    requires s == [] || (!IsSpace(s[0]) && !IsSpace(s[|s| - 1]))
    ensures Strip(s) == s
  {
  }

  lemma StripEmptyIff(s: string)
    ensures Strip(s) == [] <==> AllSpace(s)
  {
    StripInside(s);
  }

  /** Stripping twice is stripping once. */
  lemma StripIdempotent(s: string)
    ensures Strip(Strip(s)) == Strip(s)
  {
    StripUnchanged(Strip(s));
  }

  /**
   * The digits of `s` from index `i` on, after an already-read leading
   * digit: Python's grammar `('_'? digit)*`, folded into the value `acc`
   * read so far; `None` when the text does not follow the grammar.
   */
  function MoreDigits(s: string, i: nat, acc: nat): (r: Option<nat>)
    requires i <= |s|
    decreases |s| - i
  {
    if i == |s| then Some(acc)
    else if IsDigit(s[i]) then MoreDigits(s, i + 1, acc * 10 + DigitValue(s[i]))
    else if s[i] == '_' && i + 1 < |s| && IsDigit(s[i + 1]) then
      MoreDigits(s, i + 2, acc * 10 + DigitValue(s[i + 1]))
    else None
  }

  /** An unsigned decimal numeral from index `i` to the end of `s`, as `int()` reads it. */
  function Unsigned(s: string, i: nat): (r: Option<nat>)
    requires i <= |s|
  {
    if i < |s| && IsDigit(s[i]) then MoreDigits(s, i + 1, DigitValue(s[i])) else None
  }

  /**
   * Python's `int(s)` for a `str` in base 10: surrounding whitespace is
   * ignored, one sign is allowed; `None` stands for the `ValueError` it
   * raises.
   */
  function PyInt(s: string): (r: Option<int>)
  {
    var t := Strip(s);
    if |t| == 0 then None
    else if t[0] == '-' || t[0] == '+' then
      match Unsigned(t, 1)
      case None => None
      case Some(v) => Some(if t[0] == '-' then 0 - v else v)
    else
      match Unsigned(t, 0)
      case None => None
      case Some(v) => Some(v)
  }

  /** Two ASCII digits read as a decimal number: the reference `PyInt` is checked against. */
  function TwoDigitValue(s: string): (v: nat)
    requires |s| == 2 && IsDigit(s[0]) && IsDigit(s[1])
    ensures v < 100
  {
    DigitValue(s[0]) * 10 + DigitValue(s[1])
  }

  /** One character from index `i` to the end: a numeral exactly when it is a digit. */
  lemma UnsignedOne(s: string, i: nat)
    requires i + 1 == |s|
    ensures Unsigned(s, i) == if IsDigit(s[i]) then Some(DigitValue(s[i])) else None
  {
  }

  lemma UnsignedTwo(s: string)
    requires |s| == 2
    ensures Unsigned(s, 0).Some? <==> IsDigit(s[0]) && IsDigit(s[1])
    ensures Unsigned(s, 0).Some? ==> Unsigned(s, 0).value == TwoDigitValue(s)
  {
    if IsDigit(s[0]) && IsDigit(s[1]) {
      assert MoreDigits(s, 1, DigitValue(s[0])) == MoreDigits(s, 2, TwoDigitValue(s));
    }
  }

  /** On two ASCII digits `int()` succeeds and reads them in base 10. */
  lemma PyIntTwoDigits(s: string)
    requires |s| == 2 && IsDigit(s[0]) && IsDigit(s[1])
    ensures PyInt(s) == Some(TwoDigitValue(s))
  {
    assert !IsSpace(s[0]) && !IsSpace(s[1]);
    StripUnchanged(s);
    UnsignedTwo(s);
  }

  /** On one character `int()` succeeds exactly on an ASCII digit. */
  lemma PyIntOneChar(s: string)
    requires |s| == 1
    ensures PyInt(s).Some? <==> IsDigit(s[0])
    ensures IsDigit(s[0]) ==> PyInt(s) == Some(DigitValue(s[0]))
  {
    if IsSpace(s[0]) {
      StripEmptyIff(s);
    } else {
      StripUnchanged(s);
      UnsignedOne(s, 0);
    }
  }

  /** Whatever `int()` makes of two characters lies in [-9, 99]. */
  lemma PyIntTwoCharsRange(s: string)
    requires |s| == 2
    ensures PyInt(s).Some? ==> -9 <= PyInt(s).value <= 99
  {
    var t := Strip(s);
    if |t| == 0 {
    } else if t[0] == '-' || t[0] == '+' {
      if |t| == 2 {
        UnsignedOne(t, 1);
      }
    } else if |t| == 1 {
      UnsignedOne(t, 0);
    } else {
      UnsignedTwo(t);
    }
  }

  /** The decimal digits of `n`, most significant first, without leading zeros. */
  function Decimal(n: nat): (s: string)
    ensures |s| >= 1
    ensures n < 10 <==> |s| == 1
  {
    if n < 10 then [DigitChar(n)] else Decimal(n / 10) + [DigitChar(n % 10)]
  }

  lemma DecimalLength(n: nat)
    ensures n < 100 ==> |Decimal(n)| <= 2
    ensures n < 1000 ==> |Decimal(n)| <= 3
  {
  }

  /**
   * Python's `f"{v:02d}"`, which is also C's `%02d`: at least two
   * characters, zero-padded, a minus sign counted in the width.
   */
  function Pad2(v: int): (s: string)
  {
    if v < 0 then "-" + Decimal(-v)
    else if v < 10 then "0" + Decimal(v)
    else Decimal(v)
  }

  /** C's `%01d`: the decimal digits, a minus sign for negatives, no padding. */
  function Pad1(v: int): (s: string)
    ensures |s| >= 1
  {
    if v < 0 then "-" + Decimal(-v) else Decimal(v)
  }

  /** `%01d` of a single digit is that digit. */
  lemma Pad1Digit(v: int)
    requires 0 <= v < 10
    ensures Pad1(v) == [DigitChar(v)]
  {
  }

  /** The two ASCII digits of a number below 100: the reference `Pad2` meets there. */
  function TwoDigits(n: nat): (s: string)
    requires n < 100
    ensures |s| == 2 && IsDigit(s[0]) && IsDigit(s[1]) && TwoDigitValue(s) == n
  {
    [DigitChar(n / 10), DigitChar(n % 10)]
  }

  /** Reading two digits and writing the value back gives the same two characters. */
  lemma TwoDigitsOfValue(s: string)
    requires |s| == 2 && IsDigit(s[0]) && IsDigit(s[1])
    ensures TwoDigits(TwoDigitValue(s)) == s
  {
    var v := TwoDigitValue(s);
    assert v / 10 == DigitValue(s[0]) && v % 10 == DigitValue(s[1]);
    assert DigitChar(DigitValue(s[0])) == s[0] && DigitChar(DigitValue(s[1])) == s[1];
  }

  /** For 0..99, `02d` writes exactly the two decimal digits. */
  lemma Pad2TwoDigits(v: int)
    requires 0 <= v < 100
    ensures Pad2(v) == TwoDigits(v)
  {
    if v >= 10 {
      assert Decimal(v / 10) == [DigitChar(v / 10)];
    }
  }

  /** `int()` reads back what `02d` writes, for 0..99. */
  lemma PyIntPad2(v: int)
    requires 0 <= v < 100
    ensures PyInt(Pad2(v)) == Some(v)
  {
    Pad2TwoDigits(v);
    PyIntTwoDigits(TwoDigits(v));
  }
}
