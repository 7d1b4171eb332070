// Definitions shared by the other modules.
module Wrappers {
  datatype Option<T> = None | Some(value: T)
}

// Bytes of C character arrays, seen as unsigned, and NUL-terminated strings without their NUL.
module CStrings {
  type Byte = b: int | 0 <= b < 256
  type CString = s: seq<Byte> | 0 !in s witness []

  // A text in ASCII.
  function Ascii(s: string): (t: CString)
    ensures |t| == |s| && forall i :: 0 <= i < |s| ==> t[i] == AsciiByte(s[i])
  {
    seq(|s|, i requires 0 <= i < |s| => AsciiByte(s[i]))
  }

  function AsciiByte(c: char): (b: Byte)
    ensures b > 0
  {
    if 0 < c as int < 128 then c as int else 0x3f
  }
}
