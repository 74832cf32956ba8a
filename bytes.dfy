/** Byte strings and the small pieces of Rust's `str` / `io` semantics the object store relies on. */
module Bytes {

  /** An unsigned 8-bit value (Rust `u8`). */
  newtype byte = x: int | 0 <= x < 0x100

  /** A byte string: the contents of a `Vec<u8>`, or the UTF-8 bytes of a Rust `String`. */
  type Bytes = seq<byte>

  datatype Option<+T> = None | Some(value: T)

  datatype Result<+T, +E> = Ok(value: T) | Err(error: E)

  /**
   * The `std::io::ErrorKind`s the core can produce: `NotFound` from opening a missing
   * file, `InvalidData` from the header strip and the UTF-8 check, and `InvalidInput`,
   * the kind flate2's zlib decoder reports with "corrupt deflate stream".
   */
  datatype ErrorKind = NotFound | InvalidData | InvalidInput

  /** A `std::io::Error`: its kind and its message. */
  datatype IoError = IoError(kind: ErrorKind, message: string)

  const NUL: byte := 0

  /** The bytes of an ASCII string literal. */
  function Ascii(s: string): (r: Bytes)
    ensures |r| == |s|
  {
    seq(|s|, i requires 0 <= i < |s| => (s[i] as int % 0x100) as byte)
  }

  /** `str::find` / `Iterator::position` for one byte: the index of its first occurrence, if any. */
  function FirstIndexOf(s: Bytes, b: byte): (r: Option<nat>)
    ensures r.None? <==> b !in s
    ensures r.Some? ==> r.value < |s| && s[r.value] == b && b !in s[..r.value]
  {
    if s == [] then None
    else if s[0] == b then Some(0)
    else
      match FirstIndexOf(s[1..], b)
      case None => None
      case Some(k) =>
        assert s[..k + 1] == [s[0]] + s[1..][..k];
        Some(k + 1)
  }

  /** A byte that does not occur in `prefix` is first found just after it. */
  lemma FirstIndexAfterPrefix(prefix: Bytes, b: byte, rest: Bytes)
    requires b !in prefix
    ensures FirstIndexOf(prefix + [b] + rest, b) == Some(|prefix|)
  {
    var s := prefix + [b] + rest;
    assert s[|prefix|] == b;
  }

  /**
   * `str::is_char_boundary`: index `i` of the UTF-8 text `s` is a boundary when it is
   * 0, the end, or falls on a byte that is not a continuation byte (0x80..0xBF).
   */
  predicate IsCharBoundary(s: Bytes, i: nat)
  {
    i == 0 || i == |s| || (i < |s| && !(0x80 <= s[i] < 0xC0))
  }

  /** Text made only of ASCII bytes (below 0x80). */
  predicate IsAscii(s: Bytes)
  {
    forall i :: 0 <= i < |s| ==> s[i] < 0x80
  }

  /** In ASCII text every index up to the end is a char boundary. */
  lemma AsciiBoundaries(s: Bytes, i: nat)
    requires IsAscii(s) && i <= |s|
    ensures IsCharBoundary(s, i)
  {
  }
}
