/** Shared vocabulary: optional values, results, bytes, 32-bit words and integer ranges. */
module Prelude {

  datatype Option<+T> = None | Some(value: T)

  datatype Result<+T, +E> = Ok(value: T) | Err(error: E)

  type byte = x: int | 0 <= x < 256

  const U32_MAX := 0xffff_ffff

  predicate IsU32(v: int) {
    0 <= v <= U32_MAX
  }

  predicate IsI16(v: int) {
    -0x8000 <= v <= 0x7fff
  }

  function Max(a: int, b: int): int {
    if a < b then b else a
  }

  function Min(a: int, b: int): int {
    if a < b then a else b
  }

  /** The integers lo, lo + 1, ..., hi. */
  function Range(lo: int, hi: int): (r: set<int>)
    ensures forall q :: q in r <==> lo <= q <= hi
    ensures |r| == Max(hi - lo + 1, 0)
    decreases hi - lo + 1
  {
    if hi < lo then {} else Range(lo, hi - 1) + {hi}
  }

  lemma Inhabited(s: set<int>)
    requires s != {}
    ensures exists q :: q in s
  {
    assert (forall q :: q !in s) ==> s == {};
  }
}
