/**
 * The fixed character sets of `random_string`: one static character array holding the
 * digits, the lower-case and the upper-case ASCII letters, and four spans over it.
 */
module RandomStrings {

  const NUMERIC_ASCII_CHARS: string := "0123456789"
  const LOWERCASE_ASCII_CHARS: string := "abcdefghijklmnopqrstuvwxyz"
  const UPPERCASE_ASCII_CHARS: string := "ABCDEFGHIJKLMNOPQRSTUVWXYZ"

  /** `sizeof` of a string literal: its characters and the terminating NUL. */
  function SizeOf(literal: string): (n: nat)
    ensures n == |literal| + 1
  {
    |literal| + 1
  }

  /** `alphanumeric_chars`: the three literals concatenated, with the one terminating NUL. */
  const ALPHANUMERIC_CHARS: seq<char> := NUMERIC_ASCII_CHARS + LOWERCASE_ASCII_CHARS + UPPERCASE_ASCII_CHARS + ['\0']

  predicate IsDigit(c: char) { '0' <= c <= '9' }
  predicate IsLower(c: char) { 'a' <= c <= 'z' }
  predicate IsUpper(c: char) { 'A' <= c <= 'Z' }
  predicate IsAlphanumeric(c: char) { IsDigit(c) || IsLower(c) || IsUpper(c) }

  /** `ascii_number_charset()`: the ten digits, in order, at the start of the array. */
  function NumberCharset(): (r: seq<char>)
    ensures |r| == 10
    ensures forall i :: 0 <= i < |r| ==> r[i] as int == '0' as int + i
    ensures r == ALPHANUMERIC_CHARS[..10]
  {
    ALPHANUMERIC_CHARS[0..SizeOf(NUMERIC_ASCII_CHARS) - 1]
  }

  /** `ascii_lowercase_charset()`: the 26 lower-case letters, in order, from index 10. */
  function LowercaseCharset(): (r: seq<char>)
    ensures |r| == 26
    ensures forall i :: 0 <= i < |r| ==> r[i] as int == 'a' as int + i
    ensures r == ALPHANUMERIC_CHARS[10..36]
  {
    var start := SizeOf(NUMERIC_ASCII_CHARS) - 1;
    assert ALPHANUMERIC_CHARS[10..36] == LOWERCASE_ASCII_CHARS;
    ALPHANUMERIC_CHARS[start..start + (SizeOf(LOWERCASE_ASCII_CHARS) - 1)]
  }

  /** `ascii_uppercase_charset()`: the 26 upper-case letters, in order, from index 36. */
  function UppercaseCharset(): (r: seq<char>)
    ensures |r| == 26
    ensures forall i :: 0 <= i < |r| ==> r[i] as int == 'A' as int + i
    ensures r == ALPHANUMERIC_CHARS[36..62]
  {
    var start := (SizeOf(NUMERIC_ASCII_CHARS) - 1) + (SizeOf(LOWERCASE_ASCII_CHARS) - 1);
    assert ALPHANUMERIC_CHARS[36..62] == UPPERCASE_ASCII_CHARS;
    ALPHANUMERIC_CHARS[start..start + (SizeOf(UPPERCASE_ASCII_CHARS) - 1)]
  }

  /**
   * `ascii_alphanumeric_charset()` as written: a span over the whole array, so 63 entries, the
   * last of them the terminating NUL, which is not alphanumeric.
   */
  function AlphanumericCharsetAsWritten(): (r: seq<char>)
    ensures r == ALPHANUMERIC_CHARS
  {
    ALPHANUMERIC_CHARS
  }

  /** The span as written holds an entry that is not alphanumeric: the NUL at index 62. */
  lemma AsWrittenHoldsNul()
    ensures |AlphanumericCharsetAsWritten()| == 63
    ensures AlphanumericCharsetAsWritten()[62] == '\0'
    ensures !IsAlphanumeric(AlphanumericCharsetAsWritten()[62])
  {
  }

  /**
   * `ascii_alphanumeric_charset()` as intended: the array without its terminator, 62 entries,
   * every one alphanumeric.
   */
  function AlphanumericCharset(): (r: seq<char>)
    ensures |r| == 62
    ensures forall i :: 0 <= i < |r| ==> IsAlphanumeric(r[i])
  {
    AlphanumericIsNumberLowerUpper();
    ALPHANUMERIC_CHARS[..|ALPHANUMERIC_CHARS| - 1]
  }

  /** The intended alphanumeric set is the three smaller sets laid end to end. */
  lemma AlphanumericIsNumberLowerUpper()
    ensures ALPHANUMERIC_CHARS[..|ALPHANUMERIC_CHARS| - 1] == NumberCharset() + LowercaseCharset() + UppercaseCharset()
    ensures forall c :: c in NumberCharset() ==> IsDigit(c)
    ensures forall c :: c in LowercaseCharset() ==> IsLower(c)
    ensures forall c :: c in UppercaseCharset() ==> IsUpper(c)
  {
    var n, l, u := NumberCharset(), LowercaseCharset(), UppercaseCharset();
    assert forall i :: 0 <= i < |n| ==> IsDigit(n[i]);
    assert forall i :: 0 <= i < |l| ==> IsLower(l[i]);
    assert forall i :: 0 <= i < |u| ==> IsUpper(u[i]);
  }

  /** The three smaller sets share no character. */
  lemma SubsetsDisjoint()
    ensures forall c :: c in NumberCharset() ==> c !in LowercaseCharset() && c !in UppercaseCharset()
    ensures forall c :: c in LowercaseCharset() ==> c !in UppercaseCharset()
  {
    AlphanumericIsNumberLowerUpper();
  }
}
