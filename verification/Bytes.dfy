/** Byte strings, as Go's string and []byte values hold them. */
module Bytes {
  type Byte = b: int | 0 <= b < 256

  type Text = seq<Byte>

  const SPACE: Byte := 0x20
  const NEWLINE: Byte := 0x0A
  const LT: Byte := 0x3C

  /** The bytes of an ASCII literal. */
  function Ascii(s: string): (t: Text)
    ensures |t| == |s|
    ensures forall i :: 0 <= i < |s| ==> t[i] == (s[i] as int) % 128
  {
    seq(|s|, i requires 0 <= i < |s| => (s[i] as int) % 128)
  }

  /** Whether needle occurs in s at offset i. */
  predicate OccursAt(s: Text, needle: Text, i: int) {
    0 <= i && i + |needle| <= |s| && s[i..i + |needle|] == needle
  }
}
