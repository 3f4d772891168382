/** Character classes of Python's `str` methods, restricted to the characters the
    programs meet: ASCII, the Unicode white space that `str.isspace` accepts, and the
    two caseless Latin-1 letters U+00AA and U+00BA (alphabetic, with `upper()` and
    `lower()` both the identity). */
module Chars {

  /** `c.isspace()`: every character Python's `str.split()`, `str.strip()` and the
      regular expression class `\s` treat as white space. */
  predicate IsSpace(c: char) {
    c == ' ' || ('\t' <= c <= '\r') || ('\U{1C}' <= c <= '\U{1F}')
    || c == '\U{85}' || c == '\U{A0}' || c == '\U{1680}'
    || ('\U{2000}' <= c <= '\U{200A}') || c == '\U{2028}' || c == '\U{2029}'
    || c == '\U{202F}' || c == '\U{205F}' || c == '\U{3000}'
  }

  /** Membership in `string.punctuation`: the 32 ASCII punctuation characters. */
  predicate IsPunct(c: char) {
    ('!' <= c <= '/') || (':' <= c <= '@') || ('[' <= c <= '`') || ('{' <= c <= '~')
  }

  predicate IsAsciiUpper(c: char) { 'A' <= c <= 'Z' }

  predicate IsAsciiLower(c: char) { 'a' <= c <= 'z' }

  /** The two caseless letters of the model: feminine and masculine ordinal indicators. */
  predicate IsCaseless(c: char) { c == '\U{AA}' || c == '\U{BA}' }

  /** `c.isalpha()` */
  predicate IsAlpha(c: char) { IsAsciiUpper(c) || IsAsciiLower(c) || IsCaseless(c) }

  /** `c.isupper()` */
  predicate IsUpper(c: char) { IsAsciiUpper(c) }

  predicate IsDigit(c: char) { '0' <= c <= '9' }

  /** A character the regular expression `\b` counts as part of a word. */
  predicate IsWordChar(c: char) { IsAlpha(c) || IsDigit(c) || c == '_' }

  /** `c.lower()` */
  function Lower(c: char): (r: char)
    ensures !IsAsciiUpper(r)
    ensures IsAlpha(r) == IsAlpha(c) && IsPunct(r) == IsPunct(c) && IsSpace(r) == IsSpace(c)
    ensures Upper(r) == Upper(c)
  {
    if IsAsciiUpper(c) then (c as int + 32) as char else c
  }

  /** `c.upper()` */
  function Upper(c: char): (r: char)
    ensures !IsAsciiLower(r)
    ensures IsAlpha(r) == IsAlpha(c)
  {
    if IsAsciiLower(c) then (c as int - 32) as char else c
  }
}
