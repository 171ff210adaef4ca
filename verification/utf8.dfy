/**
 * Bytes, and the UTF-8 encoding of text (`str::as_bytes`). Decoding with
 * replacement characters (`String::from_utf8_lossy`) belongs to the standard
 * library and is a parameter wherever it is used.
 */
module Utf8 {

  type byte = x: int | 0 <= x < 256

  /** The byte value of a line feed. */
  const LF_BYTE: byte := 10

  /** The UTF-8 encoding of one Unicode scalar value: one to four bytes. */
  function EncodeChar(c: char): (r: seq<byte>)
    ensures 1 <= |r| <= 4
    ensures (c as int < 0x80) <==> |r| == 1
    ensures |r| == 1 ==> r[0] == c as int
  {
    var n := c as int;
    if n < 0x80 then [n]
    else if n < 0x800 then [0xC0 + n / 0x40, 0x80 + n % 0x40]
    else if n < 0x1_0000 then [0xE0 + n / 0x1000, 0x80 + (n / 0x40) % 0x40, 0x80 + n % 0x40]
    else [0xF0 + n / 0x4_0000, 0x80 + (n / 0x1000) % 0x40, 0x80 + (n / 0x40) % 0x40, 0x80 + n % 0x40]
  }

  /** The UTF-8 encoding of a string. */
  function Encode(s: string): (r: seq<byte>)
    ensures |s| <= |r| <= 4 * |s|
  {
    if |s| == 0 then [] else EncodeChar(s[0]) + Encode(s[1..])
  }

  /** Encoding distributes over concatenation. */
  lemma {:induction false} EncodeAppend(a: string, b: string)
    ensures Encode(a + b) == Encode(a) + Encode(b)
  {
    if |a| > 0 {
      assert (a + b)[0] == a[0];
      assert (a + b)[1..] == a[1..] + b;
      EncodeAppend(a[1..], b);
    } else {
      assert a + b == b;
    }
  }

  /** A string ending in a line feed encodes to bytes ending in the byte 10. */
  lemma {:induction false} EncodeLineFeed(a: string)
    ensures Encode(a + ['\n']) == Encode(a) + [LF_BYTE]
  {
    EncodeAppend(a, ['\n']);
  }
}
