/**
 * The JavaScript string operations the catalog core relies on:
 * `toLowerCase`, `startsWith`, `includes`, the regular-expression class `\s`,
 * and the decimal rendering of a non-negative integer inside a template literal.
 */
module JsString {

  // ---------------------------------------------------------------------------
  // toLowerCase (ASCII letters only)
  // ---------------------------------------------------------------------------

  predicate IsUpper(c: char) { 'A' <= c <= 'Z' }

  function LowerChar(c: char): (r: char)
    ensures IsUpper(c) ==> r as int == c as int + 32
    ensures !IsUpper(c) ==> r == c
    ensures !IsUpper(r)
  {
    if IsUpper(c) then (c as int + 32) as char else c
  }

  /** `s.toLowerCase()`, restricted to the ASCII letters. */
  function ToLowerCase(s: string): (r: string)
    ensures |r| == |s|
    ensures forall i :: 0 <= i < |s| ==> r[i] == LowerChar(s[i])
  {
    seq(|s|, i requires 0 <= i < |s| => LowerChar(s[i]))
  }

  /** Lowercasing twice is lowercasing once. */
  lemma ToLowerCaseIdempotent(s: string)
    ensures ToLowerCase(ToLowerCase(s)) == ToLowerCase(s)
  {
    var once := ToLowerCase(s);
    assert forall i :: 0 <= i < |s| ==> ToLowerCase(once)[i] == once[i];
  }

  /** Lowercasing works character by character, so it distributes over concatenation. */
  lemma ToLowerCaseAppend(a: string, b: string)
    ensures ToLowerCase(a + b) == ToLowerCase(a) + ToLowerCase(b)
  {
  }

  // ---------------------------------------------------------------------------
  // The regular-expression class \s
  // ---------------------------------------------------------------------------

  /**
   * The characters matched by `\s`: the ECMAScript WhiteSpace code points
   * (tab, vertical tab, form feed, no-break space, byte order mark and the
   * space separators) and the LineTerminator code points.
   */
  predicate IsWhitespace(c: char)
  {
    c == '\t' || c == '\n' || c == '\U{B}' || c == '\U{C}' || c == '\r' || c == ' '
    || c == '\U{A0}' || c == '\U{1680}' || ('\U{2000}' <= c <= '\U{200A}')
    || c == '\U{2028}' || c == '\U{2029}' || c == '\U{202F}' || c == '\U{205F}'
    || c == '\U{3000}' || c == '\U{FEFF}'
  }

  /** ASCII lowercasing never turns a non-space character into a space or back. */
  lemma LowerCharKeepsWhitespace(c: char)
    ensures IsWhitespace(LowerChar(c)) <==> IsWhitespace(c)
  {
  }

  // ---------------------------------------------------------------------------
  // startsWith and includes
  // ---------------------------------------------------------------------------

  /** `s.startsWith(prefix)`. */
  predicate StartsWith(s: string, prefix: string)
  {
    |prefix| <= |s| && s[..|prefix|] == prefix
  }

  /** `s.startsWith(s)` always holds. */
  lemma StartsWithSelf(s: string)
    ensures StartsWith(s, s)
  {
  }

  /** True when `needle` occurs in `hay` at position `i`. */
  predicate OccursAt(hay: string, needle: string, i: int)
  {
    0 <= i && i + |needle| <= |hay| && hay[i..i + |needle|] == needle
  }

  /** `hay.includes(needle)`: the needle occurs at some position of the haystack. */
  predicate Includes(hay: string, needle: string)
  {
    exists i | 0 <= i <= |hay| - |needle| :: OccursAt(hay, needle, i)
  }

  /** The empty string is included in every string. */
  lemma IncludesEmpty(hay: string)
    ensures Includes(hay, "")
  {
    assert OccursAt(hay, "", 0);
  }

  /** A needle whose first two characters never stand side by side in `hay` is not included in it. */
  lemma NotIncludesPair(hay: string, needle: string)
    requires |needle| >= 2
    requires forall i :: 0 <= i < |hay| - 1 ==> !(hay[i] == needle[0] && hay[i + 1] == needle[1])
    ensures !Includes(hay, needle)
  {
    forall i | 0 <= i <= |hay| - |needle|
      ensures !OccursAt(hay, needle, i)
    {
      assert hay[i..i + |needle|][0] == hay[i] && hay[i..i + |needle|][1] == hay[i + 1];
    }
  }

  // ---------------------------------------------------------------------------
  // Decimal rendering of a non-negative integer, as in `${n}`
  // ---------------------------------------------------------------------------

  predicate IsDigit(c: char) { '0' <= c <= '9' }

  predicate AllDigits(s: string) { forall i :: 0 <= i < |s| ==> IsDigit(s[i]) }

  function DigitChar(d: nat): (c: char)
    requires d < 10
    ensures IsDigit(c) && c as int - '0' as int == d
  {
    ('0' as int + d) as char
  }

  /** The decimal digits of `n`, most significant first, with no leading zero. */
  function DecimalString(n: nat): (r: string)
    ensures |r| > 0 && AllDigits(r)
    ensures r[0] == '0' <==> n == 0
    decreases n
  {
    if n < 10 then [DigitChar(n)] else DecimalString(n / 10) + [DigitChar(n % 10)]
  }

  /** The number a string of decimal digits denotes. */
  function DecimalValue(s: string): nat
    requires AllDigits(s)
  {
    if s == [] then 0
    else 10 * DecimalValue(s[..|s| - 1]) + (s[|s| - 1] as int - '0' as int)
  }

  /** Reading back the decimal rendering gives the number again. */
  lemma {:induction false} DecimalRoundTrip(n: nat)
    ensures DecimalValue(DecimalString(n)) == n
    decreases n
  {
    var r := DecimalString(n);
    if n >= 10 {
      DecimalRoundTrip(n / 10);
      assert r[..|r| - 1] == DecimalString(n / 10);
    }
  }

  /** Distinct numbers have distinct decimal renderings. */
  lemma DecimalStringInjective(a: nat, b: nat)
    ensures DecimalString(a) == DecimalString(b) <==> a == b
  {
    if DecimalString(a) == DecimalString(b) {
      DecimalRoundTrip(a);
      DecimalRoundTrip(b);
    }
  }
}
