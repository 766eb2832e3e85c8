/** Small shared vocabulary: optional values and the unsigned 32-bit range. */
module Common {

  datatype Option<T> = None | Some(value: T)

  /**
   * The result of a step whose behaviour the C++ language leaves undefined for some
   * inputs (a null dereference, an out-of-range `operator[]`, a buffer overrun).
   */
  datatype Outcome<T> = Defined(value: T) | Undefined

  /** 2^32: one past the largest `uint32_t`. */
  const U32_LIMIT: nat := 0x1_0000_0000

  /** 2^64: one past the largest `uint64_t`. */
  const U64_LIMIT: nat := 0x1_0000_0000_0000_0000

  predicate IsU32(x: int) { 0 <= x < U32_LIMIT }

  /** A `uint32_t` value. */
  type uint32 = x: int | 0 <= x < 0x1_0000_0000

  /** Conversion of an integer to `uint32_t` (C++ modular conversion). */
  function ToU32(x: int): (r: nat)
    ensures r < U32_LIMIT
    ensures IsU32(x) ==> r == x
    ensures (x - r) % U32_LIMIT == 0
  {
    x % U32_LIMIT
  }

  /** No element of `s` occurs twice. */
  predicate NoDuplicates<T(==)>(s: seq<T>)
  {
    forall i, j :: 0 <= i < j < |s| ==> s[i] != s[j]
  }
}
