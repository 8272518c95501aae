/**
 Character classes used by the validators: the whitespace Python's `str`
 methods and `\s` agree on, the bracketed classes of the regular expressions
 in validation.py, and the Unicode tables the model keeps abstract.
 */
module Chars {

  /** Python's `str.isspace()`: what `strip()` removes and what `\s` matches in a `str` pattern. */
  predicate IsSpace(c: char) {
    || ('\t' <= c <= '\r')                // \t \n \v \f \r
    || ('\U{1C}' <= c <= '\U{1F}')        // information separators
    || c == ' '
    || c == '\U{85}' || c == '\U{A0}' || c == '\U{1680}'
    || ('\U{2000}' <= c <= '\U{200A}')
    || c == '\U{2028}' || c == '\U{2029}' || c == '\U{202F}' || c == '\U{205F}'
    || c == '\U{3000}'
  }

  predicate IsAsciiDigit(c: char) { '0' <= c <= '9' }
  predicate IsAsciiUpper(c: char) { 'A' <= c <= 'Z' }
  predicate IsAsciiLower(c: char) { 'a' <= c <= 'z' }
  predicate IsAsciiLetter(c: char) { IsAsciiUpper(c) || IsAsciiLower(c) }
  predicate IsAscii(c: char) { c <= '\U{7F}' }

  /** `[0-9_]`, the class of both the card-number and the CVV pattern. */
  predicate IsCardChar(c: char) { IsAsciiDigit(c) || c == '_' }

  /** `[a-zA-Z0-9._%+-]`, the local part of an e-mail address. */
  predicate IsEmailLocalChar(c: char) {
    IsAsciiLetter(c) || IsAsciiDigit(c) || c == '.' || c == '_' || c == '%' || c == '+' || c == '-'
  }

  /** `[a-zA-Z0-9.-]`, the domain part of an e-mail address. */
  predicate IsEmailDomainChar(c: char) {
    IsAsciiLetter(c) || IsAsciiDigit(c) || c == '.' || c == '-'
  }

  /** `[A-Za-zÀ-ÖØ-öø-ÿ\s'\-]`: letters, the Latin-1 accented ranges, whitespace, apostrophe, hyphen. */
  predicate IsNameChar(c: char) {
    || IsAsciiLetter(c)
    || ('\U{C0}' <= c <= '\U{D6}')
    || ('\U{D8}' <= c <= '\U{F6}')
    || ('\U{F8}' <= c <= '\U{FF}')
    || IsSpace(c)
    || c == '\'' || c == '-'
  }

  /** `[.!@#$%^&*()\-_=\+\[\]{}<>?]`, the symbols a password must draw on. */
  predicate IsPasswordSymbol(c: char) {
    c in ".!@#$%^&*()-_=+[]{}<>?"
  }

  /**
   The Unicode tables the validators consult but the model does not spell out:
   NFKC normalisation and the class of decimal digits matched by `\d`.
   */
  datatype Unicode = Unicode(nfkc: string -> string, isDecimal: char -> bool) {

    /** Facts of the Unicode standard that some lemmas rely on. */
    ghost predicate Valid() {
      && (forall s: string {:trigger nfkc(s)} :: (forall k :: 0 <= k < |s| ==> IsAscii(s[k])) ==> nfkc(s) == s)
      && (forall c :: IsAsciiDigit(c) ==> isDecimal(c))
      && (forall c :: isDecimal(c) ==> !IsSpace(c))
    }
  }

  /** `[.A-Za-z\d!@#$%^&*()\-_=\+\[\]{}<>?]`, every character a password may contain. */
  predicate IsPasswordChar(u: Unicode, c: char) {
    c == '.' || IsAsciiLetter(c) || u.isDecimal(c) || IsPasswordSymbol(c)
  }

  /** Python's `str.lower()` on one ASCII character; every other character is left as it is. */
  function LowerChar(c: char): (r: char)
    ensures !IsAsciiUpper(r)
    ensures IsAsciiUpper(c) ==> IsAsciiLower(r) && r as int == c as int + ('a' as int - 'A' as int)
    ensures !IsAsciiUpper(c) ==> r == c
  {
    if IsAsciiUpper(c) then (c as int - 'A' as int + 'a' as int) as char else c
  }
}
