/** Go strings are byte strings. A byte is modelled as the character with
    the same code, so that literals such as '"' or "Schedule" can be written
    directly; a code 0x80..0xFF stands for the byte of that value. Every
    classification below is stated by code, so it answers for codes 0..255
    exactly as the Go program does on bytes. */
module Bytes {

  type Byte = char

  type Bytes = seq<Byte>

  /** The four bytes the tokenizer skips between tokens. */
  predicate IsSpace(c: Byte) {
    c == ' ' || c == '\t' || c == '\n' || c == '\r'
  }

  /** `unicode.IsLetter` applied to the rune of a single byte: ASCII letters
      and the Latin-1 letters ª, µ, º, À..Ö, Ø..ö, ø..ÿ. */
  predicate IsLetter(c: Byte) {
    || ('A' <= c <= 'Z')
    || ('a' <= c <= 'z')
    || c as int == 0xAA
    || c as int == 0xB5
    || c as int == 0xBA
    || (0xC0 <= c as int <= 0xD6)
    || (0xD8 <= c as int <= 0xF6)
    || (0xF8 <= c as int <= 0xFF)
  }

  /** `unicode.IsDigit` on a single byte: Latin-1 has no decimal digits
      besides the ASCII ones. */
  predicate IsDigit(c: Byte) {
    '0' <= c <= '9'
  }

  /** A byte that may begin an identifier. */
  predicate IsIdentStart(c: Byte) {
    IsLetter(c) || c == '_'
  }

  /** A byte that may continue an identifier. */
  predicate IsIdentPart(c: Byte) {
    IsLetter(c) || IsDigit(c) || c == '_'
  }

  /** A non-empty run of identifier bytes that starts with a letter or `_`. */
  predicate IsIdentifier(s: Bytes) {
    && |s| > 0
    && IsIdentStart(s[0])
    && forall k :: 0 <= k < |s| ==> IsIdentPart(s[k])
  }
}
