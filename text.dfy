/**
 * The JavaScript string operations the core relies on, over `string` (a sequence of Unicode scalar
 * values): `length` in UTF-16 code units, `trim`, `toLowerCase` on ASCII letters, `startsWith`,
 * `padStart(2, "0")`, `Number.prototype.toString` for integers and the global `parseInt`.
 */
module Text {
  import opened Wrappers

  /** ECMAScript WhiteSpace and LineTerminator code points: what `trim` removes and `parseInt` skips. */
  predicate IsWhitespace(c: char) {
    c == '\t' || c == '\n' || c == '\U{B}' || c == '\U{C}' || c == '\r' || c == ' ' || c == '\U{A0}'
    || c == '\U{1680}' || ('\U{2000}' <= c <= '\U{200A}') || c == '\U{2028}' || c == '\U{2029}'
    || c == '\U{202F}' || c == '\U{205F}' || c == '\U{3000}' || c == '\U{FEFF}'
  }

  /** A string that `trim` turns into "" (every character is whitespace). */
  predicate IsBlank(s: string) {
    forall i :: 0 <= i < |s| ==> IsWhitespace(s[i])
  }

  /** A character outside the Basic Multilingual Plane, which UTF-16 stores as a surrogate pair. */
  predicate IsAstral(c: char) {
    c as int > 0xFFFF
  }

  /** `s.length`: the number of UTF-16 code units, two for each astral character. */
  function Utf16Length(s: string): (n: nat)
    ensures |s| <= n <= 2 * |s|
    ensures n == |s| <==> forall i :: 0 <= i < |s| ==> !IsAstral(s[i])
  {
    if s == [] then 0
    else
      assert forall i :: 1 <= i < |s| ==> s[i] == s[1..][i - 1];
      (if IsAstral(s[0]) then 2 else 1) + Utf16Length(s[1..])
  }

  /** `trimStart`: drops the longest whitespace prefix. */
  function TrimStart(s: string): (r: string)
    ensures |r| <= |s| && r == s[|s| - |r|..]
    ensures r == [] || !IsWhitespace(r[0])
    ensures IsBlank(s[..|s| - |r|])
  {
    if s != [] && IsWhitespace(s[0]) then TrimStart(s[1..]) else s
  }

  /** A string that starts with a non-blank character is left as it is. */
  lemma TrimStartOfNonBlank(s: string)
    requires s != [] && !IsWhitespace(s[0])
    ensures TrimStart(s) == s
  {
  }

  /** `trimEnd`: drops the longest whitespace suffix. */
  function TrimEnd(s: string): (r: string)
    ensures |r| <= |s| && r == s[..|r|]
    ensures r == [] || !IsWhitespace(r[|r| - 1])
    ensures IsBlank(s[|r|..])
  {
    if s != [] && IsWhitespace(s[|s| - 1]) then TrimEnd(s[..|s| - 1]) else s
  }

  /** `String.prototype.trim`. */
  function Trim(s: string): (r: string)
    ensures |r| <= |s|
    ensures r == [] || (!IsWhitespace(r[0]) && !IsWhitespace(r[|r| - 1]))
    ensures r == [] <==> IsBlank(s)
  {
    var t := TrimStart(s);
    TrimEnd(t)
  }

  /** Trimming twice is trimming once. */
  lemma TrimIdempotent(s: string)
    ensures Trim(Trim(s)) == Trim(s)
  {
    var r := Trim(s);
    assert TrimStart(r) == r;
    assert TrimEnd(r) == r;
  }

  function LowerChar(c: char): char {
    if 'A' <= c <= 'Z' then (c as int + 32) as char else c
  }

  /** `toLowerCase`, on the ASCII letters only. */
  function ToLower(s: string): (r: string)
    ensures |r| == |s| && forall i :: 0 <= i < |s| ==> r[i] == LowerChar(s[i])
  {
    seq(|s|, i requires 0 <= i < |s| => LowerChar(s[i]))
  }

  /** Lower-casing twice is lower-casing once. */
  lemma ToLowerIdempotent(s: string)
    ensures ToLower(ToLower(s)) == ToLower(s)
  {
  }

  /** `s.startsWith(prefix)`. */
  predicate StartsWith(s: string, prefix: string) {
    |prefix| <= |s| && s[..|prefix|] == prefix
  }

  predicate IsDigit(c: char) {
    '0' <= c <= '9'
  }

  function DigitChar(d: nat): (c: char)
    requires d < 10
    ensures IsDigit(c)
  {
    ('0' as int + d) as char
  }

  /** The value `parseInt` gives a digit character in any radix up to 36, or 36 for any other character. */
  function DigitValue(c: char): nat {
    if '0' <= c <= '9' then c as int - '0' as int
    else if 'a' <= c <= 'z' then c as int - 'a' as int + 10
    else if 'A' <= c <= 'Z' then c as int - 'A' as int + 10
    else 36
  }

  predicate AllDigits(s: string, radix: nat) {
    forall i :: 0 <= i < |s| ==> DigitValue(s[i]) < radix
  }

  /** The number a string of digits in the given radix denotes. */
  function ValueOf(s: string, radix: nat): nat
    requires AllDigits(s, radix)
  {
    if s == [] then 0 else ValueOf(s[..|s| - 1], radix) * radix + DigitValue(s[|s| - 1])
  }

  /** Leading zeros do not change a digit string's value. */
  lemma {:induction false} LeadingZero(s: string, radix: nat)
    requires 0 < radix && AllDigits(s, radix)
    ensures AllDigits("0" + s, radix) && ValueOf("0" + s, radix) == ValueOf(s, radix)
  {
    if s != [] {
      assert ("0" + s)[..|s|] == "0" + s[..|s| - 1];
      LeadingZero(s[..|s| - 1], radix);
    }
  }

  /** `n.toString()` for a non-negative integer `n`. */
  function DecimalString(n: nat): (r: string)
    ensures |r| >= 1 && forall i :: 0 <= i < |r| ==> IsDigit(r[i])
    ensures r[0] == '0' <==> n == 0
  {
    if n < 10 then [DigitChar(n)] else DecimalString(n / 10) + [DigitChar(n % 10)]
  }

  /** `i.toString()` for any integer `i`. */
  function IntString(i: int): (r: string)
    ensures |r| >= 1
  {
    if i < 0 then "-" + DecimalString(-i) else DecimalString(i)
  }

  /** Reading back what `toString` wrote gives the number again. */
  lemma {:induction false} DecimalRoundTrip(n: nat)
    ensures AllDigits(DecimalString(n), 10) && ValueOf(DecimalString(n), 10) == n
  {
    var s := DecimalString(n);
    if n >= 10 {
      DecimalRoundTrip(n / 10);
      assert s[..|s| - 1] == DecimalString(n / 10);
    }
  }

  /** `s.padStart(2, "0")`. */
  function PadStart2(s: string): (r: string)
    ensures |r| == if |s| < 2 then 2 else |s|
    ensures r[|r| - |s|..] == s && forall i :: 0 <= i < |r| - |s| ==> r[i] == '0'
  {
    if |s| == 0 then "00" else if |s| == 1 then "0" + s else s
  }

  /** The length of the longest prefix of `s` made of digits in the given radix. */
  function DigitPrefixLength(s: string, radix: nat): (k: nat)
    ensures k <= |s| && AllDigits(s[..k], radix)
    ensures k == |s| || DigitValue(s[k]) >= radix
  {
    if s == [] || DigitValue(s[0]) >= radix then 0
    else
      var k := 1 + DigitPrefixLength(s[1..], radix);
      assert s[..k] == [s[0]] + s[1..][..k - 1];
      k
  }

  lemma {:induction false} DigitPrefixOfDigits(s: string, radix: nat)
    requires AllDigits(s, radix)
    ensures DigitPrefixLength(s, radix) == |s|
  {
    if s != [] {
      DigitPrefixOfDigits(s[1..], radix);
    }
  }

  /** The digit prefix of digits followed by a non-digit ends at that non-digit. */
  lemma {:induction false} DigitPrefixOfConcat(d: string, rest: string, radix: nat)
    requires AllDigits(d, radix) && rest != [] && DigitValue(rest[0]) >= radix
    ensures DigitPrefixLength(d + rest, radix) == |d|
  {
    if d != [] {
      assert (d + rest)[1..] == d[1..] + rest;
      DigitPrefixOfConcat(d[1..], rest, radix);
    } else {
      assert d + rest == rest;
    }
  }

  /** The number written by the longest digit prefix of `body`, or `None` when there is no digit. */
  function ReadDigits(body: string, radix: nat): (v: Option<nat>)
    ensures v.None? <==> DigitPrefixLength(body, radix) == 0
  {
    var k := DigitPrefixLength(body, radix);
    if k == 0 then None else Some(ValueOf(body[..k], radix))
  }

  /** A non-empty string of digits is read whole. */
  lemma ReadAllDigits(d: string, radix: nat)
    requires d != [] && AllDigits(d, radix)
    ensures ReadDigits(d, radix) == Some(ValueOf(d, radix))
  {
    assert d[..|d|] == d;
    DigitPrefixOfDigits(d, radix);
  }

  /** An unsigned number: hexadecimal after "0x" or "0X", decimal otherwise, up to the first non-digit. */
  function ParseUnsigned(u: string): (v: Option<nat>)
    ensures u != [] && DigitValue(u[0]) >= 10 ==> v.None?
  {
    var hex := |u| >= 2 && u[0] == '0' && (u[1] == 'x' || u[1] == 'X');
    ReadDigits(if hex then u[2..] else u, if hex then 16 else 10)
  }

  /** An optional sign, then an unsigned number; a minus sign negates it. */
  function ParseSigned(t: string): Option<int> {
    var signed := t != [] && (t[0] == '+' || t[0] == '-');
    match ParseUnsigned(if signed then t[1..] else t)
    case None => None
    case Some(v) => Some(if signed && t[0] == '-' then -(v as int) else v)
  }

  /**
   * The global `parseInt(s)` without a radix: skip leading whitespace, take an optional sign, read a
   * hexadecimal number after "0x"/"0X" and a decimal one otherwise, up to the first non-digit.
   * `None` stands for NaN (no digit at all); -0 is represented by 0.
   */
  function ParseInt(s: string): Option<int> {
    ParseSigned(TrimStart(s))
  }

  /** Decimal digits without a leading zero, or a single digit, are read as their value. */
  lemma ParseUnsignedDecimal(d: string)
    requires d != [] && AllDigits(d, 10) && (|d| == 1 || d[0] != '0')
    ensures ParseUnsigned(d) == Some(ValueOf(d, 10))
  {
    assert !(|d| >= 2 && d[0] == '0');
    ReadAllDigits(d, 10);
  }

  /** Without a sign the unsigned number is the result. */
  lemma ParseSignedDigits(d: string)
    requires d != [] && IsDigit(d[0]) && ParseUnsigned(d).Some?
    ensures ParseSigned(d) == Some(ParseUnsigned(d).value as int)
  {
  }

  /** A minus sign negates the unsigned number after it. */
  lemma ParseSignedMinus(d: string, v: nat)
    requires ParseUnsigned(d) == Some(v)
    ensures ParseSigned("-" + d) == Some(-(v as int))
  {
    assert ("-" + d)[0] == '-' && ("-" + d)[1..] == d;
  }

  /** A text that starts with something other than white space goes to the sign reader untouched. */
  lemma ParseIntOfUntrimmed(s: string)
    requires s != [] && !IsWhitespace(s[0])
    ensures ParseInt(s) == ParseSigned(s)
  {
    TrimStartOfNonBlank(s);
  }

  /** `parseInt` reads decimal digits without a leading zero, or a single digit, as their value. */
  lemma ParseIntOfDigits(d: string)
    requires d != [] && IsDigit(d[0]) && AllDigits(d, 10) && (|d| == 1 || d[0] != '0')
    ensures ParseInt(d) == Some(ValueOf(d, 10) as int)
  {
    ParseIntOfUntrimmed(d);
    ParseUnsignedDecimal(d);
    ParseSignedDigits(d);
  }

  /** `parseInt` reads back what `toString` wrote for a non-negative integer. */
  lemma ParseIntOfDecimal(n: nat)
    ensures ParseInt(DecimalString(n)) == Some(n)
  {
    DecimalRoundTrip(n);
    ParseIntOfDigits(DecimalString(n));
  }

  /** `parseInt` reads a minus sign followed by the digits of `n`, without a leading zero, as `-n`. */
  lemma ParseIntOfMinusDigits(d: string, n: nat)
    requires d != [] && AllDigits(d, 10) && d[0] != '0' && ValueOf(d, 10) == n
    ensures ParseInt("-" + d) == Some(-(n as int))
  {
    ParseUnsignedDecimal(d);
    ParseSignedMinus(d, n);
    assert ("-" + d)[0] == '-';
    ParseIntOfUntrimmed("-" + d);
  }

  /** `parseInt(String(i))` gives back a negative `i`. */
  lemma ParseIntOfNegative(i: int)
    requires i < 0
    ensures ParseInt(IntString(i)) == Some(i)
  {
    DecimalRoundTrip(-i);
    ParseIntOfMinusDigits(DecimalString(-i), -i);
  }

  /** `parseInt(String(i))` gives back `i`, negative numbers included. */
  lemma ParseIntOfIntString(i: int)
    ensures ParseInt(IntString(i)) == Some(i)
  {
    if i >= 0 {
      ParseIntOfDecimal(i);
    } else {
      ParseIntOfNegative(i);
    }
  }

  /** `parseInt` is NaN on a string whose first non-blank character is neither a sign nor a digit. */
  lemma ParseIntOfNonNumeric(s: string)
    requires TrimStart(s) != []
    requires var c := TrimStart(s)[0]; c != '+' && c != '-' && !IsDigit(c)
    ensures ParseInt(s) == None
  {
  }
}
