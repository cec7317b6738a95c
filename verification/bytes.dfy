/** Bytes, the characters the struct decoder looks at, ASCII lower-casing,
    the nul-terminated input buffer and the error values of the decoder. */
module Bytes {

  type Byte = bv8

  /** The bytes of a Go string. */
  type Bytes = seq<Byte>

  datatype Option<T> = None | Some(value: T)

  const NUL: Byte := 0x00
  const TAB: Byte := 0x09
  const LF: Byte := 0x0A
  const CR: Byte := 0x0D
  const SPACE: Byte := 0x20
  const QUOTE: Byte := 0x22        // '"'
  const COMMA: Byte := 0x2C        // ','
  const COLON: Byte := 0x3A        // ':'
  const BACKSLASH: Byte := 0x5C    // '\\'
  const LOWER_L: Byte := 0x6C      // 'l'
  const LOWER_N: Byte := 0x6E      // 'n'
  const LOWER_U: Byte := 0x75      // 'u'
  const LBRACE: Byte := 0x7B       // '{'
  const RBRACE: Byte := 0x7D       // '}'

  /** The four whitespace bytes of JSON (RFC 8259, section 2). */
  predicate IsSpace(c: Byte) {
    c == SPACE || c == TAB || c == LF || c == CR
  }

  /** ASCII lower-casing of one byte: 'A'..'Z' move up by 32, every other byte is kept. */
  function Lower(c: Byte): (r: Byte)
    ensures 0x41 <= c <= 0x5A ==> r == c + 0x20
    ensures !(0x41 <= c <= 0x5A) ==> r == c
  {
    if 0x41 <= c <= 0x5A then c + 0x20 else c
  }

  /** Lower-casing keeps the bytes the key scanners stop at. */
  lemma LowerKeepsDelimiters(c: Byte)
    ensures Lower(c) == QUOTE <==> c == QUOTE
    ensures Lower(c) == NUL <==> c == NUL
    ensures Lower(c) == BACKSLASH <==> c == BACKSLASH
  {
  }

  /** Byte-wise ASCII lower-casing of a key. */
  function LowerString(s: Bytes): (r: Bytes)
    ensures |r| == |s|
    ensures forall i :: 0 <= i < |s| ==> r[i] == Lower(s[i])
  {
    seq(|s|, i requires 0 <= i < |s| => Lower(s[i]))
  }

  /** The decoder's input: the document followed by one nul byte, the end-of-input sentinel. */
  predicate Terminated(buf: Bytes) {
    |buf| > 0 && buf[|buf| - 1] == NUL
  }

  /** `skipWhiteSpace` on a buffer: the first position at or after `c` that holds no whitespace. */
  function SkipWhiteSpace(buf: Bytes, c: nat): (r: nat)
    requires Terminated(buf) && c < |buf|
    ensures c <= r < |buf| && !IsSpace(buf[r])
    ensures !IsSpace(buf[c]) ==> r == c
    decreases |buf| - c
  {
    if IsSpace(buf[c]) then SkipWhiteSpace(buf, c + 1) else c
  }

  /** Every byte `skipWhiteSpace` passes over is whitespace. */
  lemma {:induction false} SkipsOnlySpace(buf: Bytes, c: nat)
    requires Terminated(buf) && c < |buf|
    ensures forall k :: c <= k < SkipWhiteSpace(buf, c) ==> IsSpace(buf[k])
    decreases |buf| - c
  {
    if IsSpace(buf[c]) {
      SkipsOnlySpace(buf, c + 1);
    }
  }

  /** The errors the struct decoder produces; collaborators return values of the same type. */
  datatype Error =
    | NotAtBeginningOfValue(offset: int)
    | UnexpectedEndOfJSON(what: string, offset: int)
    | InvalidCharacter(c: Byte, what: string, offset: int)
    | Expected(what: string, offset: int)
    | UnknownField(key: Bytes)
}
