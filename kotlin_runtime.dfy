/** The parts of the Kotlin/JVM runtime whose exact behaviour the upload manager
    relies on: 32- and 64-bit two's-complement arithmetic, decimal formatting of
    `Long` (string templates), `String.toLongOrNull`, `String.substringAfter`,
    `CharSequence.isBlank` and `String?.orEmpty`. */
module Kotlin {
  import opened Wrappers

  const IntMin: int := -0x8000_0000
  const IntMax: int := 0x7FFF_FFFF
  const LongMin: int := -0x8000_0000_0000_0000
  const LongMax: int := 0x7FFF_FFFF_FFFF_FFFF

  predicate IsInt(x: int) { IntMin <= x <= IntMax }
  predicate IsLong(x: int) { LongMin <= x <= LongMax }

  /** The `Int` that an exact result wraps around to. */
  function WrapInt(x: int): (r: int)
    ensures IsInt(r)
    ensures (x - r) % 0x1_0000_0000 == 0
    ensures IsInt(x) ==> r == x
  {
    (x - IntMin) % 0x1_0000_0000 + IntMin
  }

  /** The `Long` that an exact result wraps around to. */
  function WrapLong(x: int): (r: int)
    ensures IsLong(r)
    ensures (x - r) % 0x1_0000_0000_0000_0000 == 0
    ensures IsLong(x) ==> r == x
  {
    (x - LongMin) % 0x1_0000_0000_0000_0000 + LongMin
  }

  /** `Long` division, which truncates toward zero (the divisor is positive
      here): the remainder a - q * b takes the sign of the dividend and is
      smaller than the divisor in magnitude. */
  function DivLong(a: int, b: int): (q: int)
    requires b > 0
    ensures a >= 0 ==> 0 <= a - q * b < b
    ensures a < 0 ==> -b < a - q * b <= 0
  {
    if a >= 0 then
      assert a == (a / b) * b + a % b;
      a / b
    else
      assert -a == ((-a) / b) * b + (-a) % b;
      -((-a) / b)
  }

  // ---------------------------------------------------------------- decimal text

  predicate IsDigit(c: char) { '0' <= c <= '9' }

  predicate IsDigits(s: string) { forall i :: 0 <= i < |s| ==> IsDigit(s[i]) }

  function DigitChar(d: nat): (c: char)
    requires d < 10
    ensures IsDigit(c) && c as int - '0' as int == d
  {
    (d + '0' as int) as char
  }

  function DigitValue(c: char): nat
    requires IsDigit(c)
  {
    c as int - '0' as int
  }

  /** The value of a string of decimal digits, most significant first. */
  function DigitsValue(s: string): nat
    requires IsDigits(s)
  {
    if s == [] then 0 else DigitsValue(s[..|s| - 1]) * 10 + DigitValue(s[|s| - 1])
  }

  /** Decimal text of a non-negative number: digits only, no leading zero. */
  function NatToString(n: nat): (s: string)
    ensures |s| >= 1 && IsDigits(s)
    ensures |s| > 1 ==> s[0] != '0'
  {
    if n < 10 then [DigitChar(n)] else NatToString(n / 10) + [DigitChar(n % 10)]
  }

  /** `NatToString` and `DigitsValue` are inverse. */
  lemma {:induction false} NatToStringValue(n: nat)
    ensures DigitsValue(NatToString(n)) == n
  {
    var s := NatToString(n);
    if n >= 10 {
      NatToStringValue(n / 10);
      assert s[..|s| - 1] == NatToString(n / 10);
    }
  }

  /** What a `Long` looks like in a string template (`"$x"`): the decimal
      digits of its magnitude without leading zeros, after a '-' when negative. */
  function LongToString(x: int): string
  {
    if x < 0 then "-" + NatToString(-x) else NatToString(x)
  }

  /** The text of a `Long` is its magnitude's decimal digits, after a '-'
      exactly when it is negative, with no leading zero. */
  lemma LongToStringDigits(x: int)
    ensures x >= 0 ==> |LongToString(x)| >= 1 && IsDigits(LongToString(x)) && DigitsValue(LongToString(x)) == x
    ensures x < 0 ==> |LongToString(x)| >= 2 && LongToString(x)[0] == '-'
    ensures x < 0 ==> IsDigits(LongToString(x)[1..]) && DigitsValue(LongToString(x)[1..]) == -x
    ensures x >= 0 && |LongToString(x)| > 1 ==> LongToString(x)[0] != '0'
    ensures x < 0 && |LongToString(x)| > 2 ==> LongToString(x)[1] != '0'
  {
    if x < 0 {
      NatToStringValue(-x);
      var d := NatToString(-x);
      assert ("-" + d)[1..] == d;
    } else {
      NatToStringValue(x);
    }
  }

  /** `String.toLongOrNull()` in radix 10, over the digits '0' to '9': an
      optional sign, then at least one digit, the signed value lying in the
      `Long` range; otherwise null. */
  function ToLongOrNull(s: string): (r: Option<int>)
    ensures r.Some? ==> IsLong(r.value)
    ensures r.Some? ==> |s| >= 1 && (IsDigits(s) || ((s[0] == '-' || s[0] == '+') && |s| >= 2 && IsDigits(s[1..])))
  {
    if |s| == 0 then None
    else if s[0] < '0' then
      if |s| == 1 then None
      else if s[0] == '-' then
        (if IsDigits(s[1..]) && DigitsValue(s[1..]) <= -LongMin then Some(0 - DigitsValue(s[1..])) else None)
      else if s[0] == '+' then
        (if IsDigits(s[1..]) && DigitsValue(s[1..]) <= LongMax then Some(DigitsValue(s[1..])) else None)
      else None
    else if IsDigits(s) && DigitsValue(s) <= LongMax then Some(DigitsValue(s))
    else None
  }

  /** What `toLongOrNull` reads, case by case: plain digits give their value,
      a '+' or '-' before the digits gives the value with that sign, each
      exactly when it lies in the `Long` range; any other text gives null. */
  lemma ToLongOrNullCases(s: string)
    ensures s != [] && IsDigits(s) ==>
              ToLongOrNull(s) == (if DigitsValue(s) <= LongMax then Some(DigitsValue(s)) else None)
    ensures |s| >= 2 && s[0] == '+' && IsDigits(s[1..]) ==>
              ToLongOrNull(s) == (if DigitsValue(s[1..]) <= LongMax then Some(DigitsValue(s[1..])) else None)
    ensures |s| >= 2 && s[0] == '-' && IsDigits(s[1..]) ==>
              ToLongOrNull(s) == (if DigitsValue(s[1..]) <= -LongMin then Some(-(DigitsValue(s[1..]) as int)) else None)
    ensures !(s != [] && IsDigits(s)) && !(|s| >= 2 && (s[0] == '+' || s[0] == '-') && IsDigits(s[1..])) ==>
              ToLongOrNull(s) == None
  {
    if s != [] && IsDigits(s) {
      assert !(s[0] < '0');
    }
  }

  /** Leading zeros, both signs, the `Long` bounds and malformed text. */
  lemma ToLongOrNullExamples()
    ensures ToLongOrNull("007") == Some(7)
    ensures ToLongOrNull("+5") == Some(5)
    ensures ToLongOrNull("-0") == Some(0)
    ensures ToLongOrNull("") == None && ToLongOrNull("-") == None && ToLongOrNull("+") == None
    ensures ToLongOrNull("1a") == None && ToLongOrNull(" 1") == None && ToLongOrNull("--1") == None
  {
    assert DigitsValue("0") == 0;
    assert "00"[..1] == "0";
    assert DigitsValue("00") == 0;
    assert "007"[..2] == "00";
    assert DigitsValue("007") == 7;
    assert "+5"[1..] == "5" && "5"[..0] == "";
    assert DigitsValue("5") == 5;
    assert "-0"[1..] == "0";
    assert !IsDigit("1a"[1]) && !IsDigit(" 1"[0]) && !IsDigit("--1"[1..][0]);
  }

  /** Every `Long` reads back from its own decimal text. */
  lemma LongToStringRoundTrip(x: int)
    requires IsLong(x)
    ensures ToLongOrNull(LongToString(x)) == Some(x)
  {
    LongToStringDigits(x);
    var s := LongToString(x);
    if x >= 0 {
      assert !(s[0] < '0');
    } else {
      assert s[0] < '0' && |s| > 1;
    }
  }

  // ---------------------------------------------------------------- String helpers

  /** `d` occurs in `s` at index `j`. */
  predicate OccursAt(s: string, d: string, j: nat)
  {
    j + |d| <= |s| && s[j..j + |d|] == d
  }

  /** The first index at or after `from` where `d` occurs in `s`, if any. */
  function IndexOf(s: string, d: string, from: nat): (r: Option<nat>)
    ensures r.Some? ==> from <= r.value && OccursAt(s, d, r.value)
    ensures r.Some? ==> forall j :: from <= j < r.value ==> !OccursAt(s, d, j)
    ensures r.None? ==> forall j :: from <= j ==> !OccursAt(s, d, j)
    decreases |s| - from
  {
    if from + |d| > |s| then None
    else if s[from..from + |d|] == d then Some(from)
    else IndexOf(s, d, from + 1)
  }

  /** `s.substringAfter(delimiter)`: what follows the first occurrence of the
      delimiter, or the whole string when it does not occur. */
  function SubstringAfter(s: string, delimiter: string): (r: string)
    ensures IndexOf(s, delimiter, 0).None? ==> r == s
    ensures IndexOf(s, delimiter, 0).Some? ==> s == s[..IndexOf(s, delimiter, 0).value] + delimiter + r
    ensures (forall j :: !OccursAt(s, delimiter, j)) ==> r == s
    ensures OccursAt(s, delimiter, 0) ==> r == s[|delimiter|..]
  {
    match IndexOf(s, delimiter, 0)
    case Some(i) => s[i + |delimiter|..]
    case None => s
  }

  /** A string that starts with the delimiter continues right after it. */
  lemma SubstringAfterPrefix(delimiter: string, t: string)
    ensures SubstringAfter(delimiter + t, delimiter) == t
  {
    var s := delimiter + t;
    assert s[0..|delimiter|] == delimiter;
  }

  /** `Char.isWhitespace()` on the JVM: `Character.isWhitespace` or `Character.isSpaceChar`. */
  predicate IsWhitespace(c: char)
  {
    var u := c as int;
    || 0x09 <= u <= 0x0D || 0x1C <= u <= 0x20          // control whitespace and the space
    || u == 0xA0 || u == 0x1680 || 0x2000 <= u <= 0x200A  // space separators
    || u == 0x2028 || u == 0x2029                       // line and paragraph separators
    || u == 0x202F || u == 0x205F || u == 0x3000
  }

  /** `CharSequence.isBlank()`: empty or whitespace only. */
  predicate IsBlank(s: string) { forall i :: 0 <= i < |s| ==> IsWhitespace(s[i]) }

  /** The empty string, spaces, tabs, line breaks and no-break spaces are
      blank; a string with any other character is not. */
  lemma BlankExamples()
    ensures IsBlank("") && IsBlank(" \t\r\n") && IsBlank("\U{A0}\U{3000}")
    ensures !IsBlank(" a ") && !IsBlank("token") && !IsBlank("\U{200B}")
  {
    assert !IsWhitespace(" a "[1]);
    assert !IsWhitespace("token"[0]);
    assert !IsWhitespace("\U{200B}"[0]);
  }

  /** `String?.orEmpty()`. */
  function OrEmpty(s: Option<string>): (r: string)
    ensures s.None? ==> r == ""
    ensures s.Some? ==> r == s.value
  {
    s.GetOr("")
  }
}
