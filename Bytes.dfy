/** Octets, fixed-size byte blocks, and Go's string-to-bytes conversion. */
module Bytes {

  newtype byte = b: int | 0 <= b < 256

  /** Exactly 32 bytes: the size of the token nonce and of an HMAC-SHA256 tag. */
  type Block32 = s: seq<byte> | |s| == 32 witness seq(32, _ => 0)

  /** The bytes of one character in UTF-8. */
  function CodePoint(c: char): seq<byte>
  {
    var n := c as int;
    if n < 0x80 then [n as byte]
    else if n < 0x800 then [(0xC0 + n / 64) as byte, (0x80 + n % 64) as byte]
    else if n < 0x10000 then
      [(0xE0 + n / 4096) as byte, (0x80 + n / 64 % 64) as byte, (0x80 + n % 64) as byte]
    else
      [(0xF0 + n / 262144) as byte, (0x80 + n / 4096 % 64) as byte,
       (0x80 + n / 64 % 64) as byte, (0x80 + n % 64) as byte]
  }

  /** Go's `[]byte(s)`: a Go string holds its text as UTF-8 bytes. */
  function Utf8(s: string): seq<byte>
  {
    if s == [] then [] else CodePoint(s[0]) + Utf8(s[1..])
  }
}
