/** Go's len on a string counts the bytes of its UTF-8 encoding. */
module Utf8 {
  /** The number of bytes UTF-8 uses for one character. */
  function CharBytes(c: char): (n: nat)
    ensures 1 <= n <= 4
    ensures c as int < 0x80 <==> n == 1
  {
    if c as int < 0x80 then 1
    else if c as int < 0x800 then 2
    else if c as int < 0x1_0000 then 3
    else 4
  }

  /** len(s) in Go. */
  function ByteLen(s: string): (n: nat)
    ensures |s| <= n <= 4 * |s|
    ensures (forall i :: 0 <= i < |s| ==> s[i] as int < 0x80) ==> n == |s|
  {
    if |s| == 0 then 0 else CharBytes(s[0]) + ByteLen(s[1..])
  }
}
