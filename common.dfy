/**
 * Shared vocabulary: an optional value, the C integer widths the source relies on,
 * and reading a NUL-terminated C string that is held as a Dafny string.
 */
module Common {

  /** A value that may be absent (a NULL pointer in the source). */
  datatype Option<T> = None | Some(value: T)

  /** 2^32: the range of `unsigned int` / `uint32_t`. */
  const U32_LIMIT: nat := 0x1_0000_0000

  /** 2^64: the range of `size_t` on the platforms flashrom supports. */
  const SIZE_LIMIT: nat := 0x1_0000_0000_0000_0000

  /** A C string's text: no NUL byte inside (the terminator is implicit). */
  predicate NoNul(s: string) {
    forall i :: 0 <= i < |s| ==> s[i] != '\0'
  }

  /** `s[i]` of the C string: the terminator (and beyond) read as NUL. */
  function CharAt(s: string, i: nat): char {
    if i < |s| then s[i] else '\0'
  }
}
