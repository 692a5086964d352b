/**
 * Stand-in for the RESP wire library (github.com/tidwall/resp): request tokens
 * are binary-safe byte strings, and a handler answers with exactly one reply,
 * one per `conn.Write*` call the handlers make.
 */
module Resp {

  newtype byte = x: int | 0 <= x < 256

  /** The payload of a bulk string, as `resp.Value.Bytes()` yields it. */
  type ByteString = seq<byte>

  /** What a handler writes back: `WriteError`, `WriteNull`, `WriteBytes`, `WriteSimpleString`. */
  datatype Reply =
    | Error(msg: string)
    | Null
    | Bytes(b: ByteString)
    | Simple(s: string)

  /**
   * A Go string built from a byte slice keeps the bytes as they are
   * (`resp.Value.String()`, and `%s` in `fmt.Sprintf`); here each byte
   * becomes the character with the same code.
   */
  function Text(b: ByteString): (s: string)
    ensures |s| == |b|
    ensures forall i :: 0 <= i < |b| ==> s[i] as int == b[i] as int
  {
    seq(|b|, i requires 0 <= i < |b| => (b[i] as int) as char)
  }

  /** Distinct byte strings never turn into the same text. */
  lemma TextInjective(a: ByteString, b: ByteString)
    requires Text(a) == Text(b)
    ensures a == b
  {
  }
}
