/**
 * The few java.lang.String and Character operations the services rely on,
 * restricted to ASCII letters for case conversion.
 */
module Text {
  import opened Wrappers

  const MIN_LONG: int := -0x8000_0000_0000_0000
  const MAX_LONG: int := 0x7FFF_FFFF_FFFF_FFFF

  const UPPERCASE_LETTERS: string := "ABCDEFGHIJKLMNOPQRSTUVWXYZ"
  const LOWERCASE_LETTERS: string := "abcdefghijklmnopqrstuvwxyz"
  const DECIMAL_DIGITS: string := "0123456789"

  predicate IsUpper(c: char) { 'A' <= c <= 'Z' }
  predicate IsLower(c: char) { 'a' <= c <= 'z' }
  predicate IsDigit(c: char) { '0' <= c <= '9' }

  /** The three alphabets hold exactly what their names say. */
  lemma AlphabetClasses()
    ensures forall k :: 0 <= k < |UPPERCASE_LETTERS| ==> IsUpper(UPPERCASE_LETTERS[k])
    ensures forall k :: 0 <= k < |LOWERCASE_LETTERS| ==> IsLower(LOWERCASE_LETTERS[k])
    ensures forall k :: 0 <= k < |DECIMAL_DIGITS| ==> IsDigit(DECIMAL_DIGITS[k])
  {
  }

  /** Character.isWhitespace for the characters the regular expressions call \s. */
  predicate IsSpace(c: char) { c == ' ' || c == '\t' || c == '\n' || c == '\r' || c == '\U{000B}' || c == '\U{000C}' }

  /**
   * Character.isWhitespace: the ASCII whitespace above, the separators
   * U+001C to U+001F, and the Unicode space, line and paragraph separators
   * other than the non-breaking ones (U+00A0, U+2007, U+202F).
   */
  predicate IsWhitespace(c: char)
  {
    IsSpace(c) || ('\U{001C}' <= c <= '\U{001F}') || c == '\U{1680}'
    || ('\U{2000}' <= c <= '\U{2006}') || ('\U{2008}' <= c <= '\U{200A}')
    || c == '\U{2028}' || c == '\U{2029}' || c == '\U{205F}' || c == '\U{3000}'
  }

  function UpperChar(c: char): (r: char)
    ensures IsLower(c) ==> IsUpper(r)
    ensures !IsLower(c) ==> r == c
  {
    if IsLower(c) then (c as int - 32) as char else c
  }

  function LowerChar(c: char): (r: char)
    ensures IsUpper(c) ==> IsLower(r)
    ensures !IsUpper(c) ==> r == c
  {
    if IsUpper(c) then (c as int + 32) as char else c
  }

  /** String.toUpperCase on ASCII letters: same length, each character converted. */
  function ToUpper(s: string): (r: string)
    ensures |r| == |s|
    ensures forall i :: 0 <= i < |s| ==> r[i] == UpperChar(s[i])
  {
    if s == [] then [] else [UpperChar(s[0])] + ToUpper(s[1..])
  }

  /** String.toLowerCase on ASCII letters: same length, each character converted. */
  function ToLower(s: string): (r: string)
    ensures |r| == |s|
    ensures forall i :: 0 <= i < |s| ==> r[i] == LowerChar(s[i])
  {
    if s == [] then [] else [LowerChar(s[0])] + ToLower(s[1..])
  }

  predicate StartsWith(s: string, prefix: string)
  {
    |prefix| <= |s| && s[..|prefix|] == prefix
  }

  /** String.contains: sub occurs at some position of s. */
  predicate Contains(s: string, sub: string)
  {
    exists i :: 0 <= i <= |s| - |sub| && OccursAt(s, sub, i)
  }

  predicate OccursAt(s: string, sub: string, i: int)
  {
    0 <= i <= |s| - |sub| && s[i..i + |sub|] == sub
  }

  /** String.equalsIgnoreCase for ASCII letters. */
  predicate EqualsIgnoreCase(a: string, b: string)
  {
    |a| == |b| && forall i :: 0 <= i < |a| ==> UpperChar(a[i]) == UpperChar(b[i])
  }

  /** String.trim().isEmpty(): every character is a control character or a space. */
  predicate IsBlank(s: string)
  {
    forall i :: 0 <= i < |s| ==> s[i] <= ' '
  }

  /** The decimal digits of n, most significant first (Long.toString of a non-negative value). */
  function Digits(n: nat): (r: string)
    ensures |r| > 0
    ensures forall i :: 0 <= i < |r| ==> IsDigit(r[i])
  {
    if n < 10 then [('0' as int + n) as char]
    else Digits(n / 10) + [('0' as int + n % 10) as char]
  }

  /** Long.toString / String.valueOf of an integer. */
  function IntToString(n: int): string
  {
    if n < 0 then "-" + Digits(-n) else Digits(n)
  }

  /** The number an all-digit string denotes. */
  function DigitsValue(s: string): nat
    requires forall i :: 0 <= i < |s| ==> IsDigit(s[i])
  {
    if s == [] then 0
    else
      assert IsDigit(s[|s| - 1]);
      DigitsValue(s[..|s| - 1]) * 10 + (s[|s| - 1] as int - '0' as int)
  }

  /**
   * Long.parseLong / Long.valueOf: an optional sign followed by at least one
   * decimal digit, within the range of a 64-bit long; anything else is a
   * NumberFormatException, here None.
   */
  function ParseLong(s: string): (r: Option<int>)
    ensures r.Some? ==> MIN_LONG <= r.value <= MAX_LONG
    ensures r.Some? ==> |s| > 0 && (IsDigit(s[0]) || s[0] == '-' || s[0] == '+')
  {
    if |s| == 0 then None
    else
      var negative := s[0] == '-';
      var body := if s[0] == '-' || s[0] == '+' then s[1..] else s;
      if |body| == 0 || exists i :: 0 <= i < |body| && !IsDigit(body[i]) then None
      else
        var magnitude: int := DigitsValue(body);
        var v := if negative then 0 - magnitude else magnitude;
        if MIN_LONG <= v <= MAX_LONG then Some(v) else None
  }

  lemma {:induction false} DigitsValueOfDigits(n: nat)
    ensures DigitsValue(Digits(n)) == n
  {
    if n >= 10 {
      var init := Digits(n / 10);
      var last := ('0' as int + n % 10) as char;
      assert Digits(n) == init + [last];
      assert (init + [last])[..|init|] == init;
      DigitsValueOfDigits(n / 10);
    }
  }

  /** Long.parseLong(Long.toString(n)) == n for every long n. */
  lemma ParseLongOfIntToString(n: int)
    requires MIN_LONG <= n <= MAX_LONG
    ensures ParseLong(IntToString(n)) == Some(n)
  {
    DigitsValueOfDigits(if n < 0 then -n else n);
    var s := IntToString(n);
    if n < 0 {
      assert s[1..] == Digits(-n);
    }
  }

  /** A String as string concatenation prints it: its text, or "null". */
  function NullableText(s: Option<string>): (r: string)
    ensures s.Some? ==> r == s.value
    ensures s.None? ==> r == "null"
  {
    if s.Some? then s.value else "null"
  }

  /** A Long as string concatenation prints it: its digits, or "null". */
  function IdText(id: Option<int>): (r: string)
    ensures id.Some? ==> r == IntToString(id.value)
    ensures id.None? ==> r == "null"
  {
    if id.Some? then IntToString(id.value) else "null"
  }

  /** The index of the last occurrence of c in s, or -1 (String.lastIndexOf). */
  function LastIndexOf(s: string, c: char): (r: int)
    ensures -1 <= r < |s|
    ensures r >= 0 ==> s[r] == c
    ensures forall i :: r < i < |s| ==> s[i] != c
  {
    if s == [] then -1
    else if s[|s| - 1] == c then |s| - 1
    else LastIndexOf(s[..|s| - 1], c)
  }
}
