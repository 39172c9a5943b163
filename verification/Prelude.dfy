/** Machine integers, strings as UTF-8 bytes, and the two stock failure types. */
module Prelude {

  type byte = x: int | 0 <= x < 0x100
  type u16 = x: int | 0 <= x < 0x1_0000
  type u32 = x: int | 0 <= x < 0x1_0000_0000
  type u64 = x: int | 0 <= x < 0x1_0000_0000_0000_0000

  /** A Rust `String`/`&str`: its UTF-8 bytes. */
  type Str = seq<byte>

  const U32_LIMIT: int := 0x1_0000_0000

  datatype Option<+T> = None | Some(value: T)

  datatype Result<+T, +E> = Ok(value: T) | Err(error: E) {
    predicate IsFailure() { Err? }

    function PropagateFailure<U>(): Result<U, E>
      requires Err?
    {
      Err(error)
    }

    function Extract(): T
      requires Ok?
    {
      value
    }
  }

  /** The bytes of an ASCII literal. */
  function Ascii(s: string): Str
    requires forall i :: 0 <= i < |s| ==> s[i] as int < 0x80
  {
    seq(|s|, i requires 0 <= i < |s| => s[i] as int)
  }

  /** Does `needle` occur as a contiguous slice of `haystack`? The empty needle always does. */
  predicate Occurs(haystack: Str, needle: Str) {
    exists i | 0 <= i <= |haystack| :: OccursAt(haystack, needle, i)
  }

  predicate OccursAt(haystack: Str, needle: Str, i: nat) {
    i + |needle| <= |haystack| && haystack[i..i + |needle|] == needle
  }

  /** ASCII capitals become small letters; every other byte stays. */
  function LowerAscii(s: Str): Str {
    seq(|s|, i requires 0 <= i < |s| => if 0x41 <= s[i] <= 0x5A then s[i] + 0x20 else s[i])
  }
}
