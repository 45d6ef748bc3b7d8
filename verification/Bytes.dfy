/**
 Byte strings, the common currency of the JSON printer, the JSON reader and the
 signalling messages.  A `char` of the source is a byte 0..255 here; where the
 source relies on `char` being signed, the model says so explicitly.
 */
module Bytes {
  type byte = x: int | 0 <= x < 256
  type bytes = seq<byte>

  const QUOTE: byte := 34
  const BACKSLASH: byte := 92
  const COMMA: byte := 44
  const COLON: byte := 58
  const LBRACE: byte := 123
  const RBRACE: byte := 125
  const LBRACKET: byte := 91
  const RBRACKET: byte := 93
  const MINUS: byte := 45
  const ZERO: byte := 48
  const NINE: byte := 57
  const SLASH: byte := 47
  const STAR: byte := 42
  const TAB: byte := 9
  const LF: byte := 10
  const CR: byte := 13
  const SPACE: byte := 32

  predicate IsDigit(b: byte) {
    ZERO <= b <= NINE
  }

  predicate IsSpace(b: byte) {
    b == SPACE || b == TAB || b == CR || b == LF
  }

  /** True when `t` stands at offset `pos` of `doc`. */
  predicate At(doc: bytes, pos: nat, t: bytes) {
    pos + |t| <= |doc| && doc[pos..pos + |t|] == t
  }
}
