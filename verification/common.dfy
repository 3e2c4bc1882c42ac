/** Values shared by every part of the binding model: raw bytes as the C
    library hands them over, and the Option/Result wrappers the Rust side
    uses for nullable pointers and fallible calls. */
module Common {

  /** One byte of a C buffer. */
  newtype byte = b: int | 0 <= b < 256

  /** A byte string, as read out of a C buffer. */
  type Bytes = seq<byte>

  /** The C string terminator. */
  const NUL: byte := 0

  datatype Option<+T> = None | Some(value: T)

  datatype Result<+T, +E> = Ok(value: T) | Err(error: E)

  /** True when every character of `s` is 7-bit ASCII. */
  predicate IsAscii(s: string)
  {
    forall i :: 0 <= i < |s| ==> s[i] as int < 128
  }

  /** The bytes of an ASCII literal, as Rust's `"...".to_string()` stores them. */
  function Ascii(s: string): (r: Bytes)
    requires IsAscii(s)
    ensures |r| == |s|
    ensures forall i :: 0 <= i < |s| ==> r[i] as int == s[i] as int
    ensures NUL in r <==> '\0' in s
  {
    seq(|s|, i requires 0 <= i < |s| => s[i] as int as byte)
  }
}
