/**
 The configuration bitset of a heap array and the status codes the
 operations return. A status code is the negated value of a flag bit, so
 several failure causes share one code.
 */
module Flags {

  /** Resizing is refused (only honoured together with HEAP_CANFAIL). */
  const HEAP_NOEXPAND: bv32 := 0x01
  /** Insertion is refused (only honoured together with HEAP_CANFAIL). */
  const HEAP_LOCK: bv32 := 0x02
  /** Checked mode: resize honours its two refusals, and insertion can succeed only with it set. */
  const HEAP_CANFAIL: bv32 := 0x04
  /** Max-heap ordering. */
  const HEAP_MAX: bv32 := 0x10
  /** Min-heap ordering. */
  const HEAP_MIN: bv32 := 0x20

  /** Success. */
  const OK: int := 0
  /** Resize refused, allocation failed, or insertion into a full heap: -1. */
  const ERR_NOEXPAND: int := -1
  /** Insertion into a locked heap: -2. */
  const ERR_LOCK: int := -2
  /** Insertion in the wrong ordering mode, or in unchecked mode: -32. */
  const ERR_MODE: int := -32

  /** `FLAG(hf, f)`: every bit of the mask `f` is set in `hf`. */
  function Flag(hf: bv32, f: bv32): (r: bool)
    ensures r <==> hf | f == hf
  {
    hf & f == f
  }

  /** Testing a union of masks tests each mask: the guards of the source test
      two flags at once, and fire only when both are set. */
  lemma FlagOfUnion(hf: bv32, f: bv32, g: bv32)
    ensures Flag(hf, f | g) <==> Flag(hf, f) && Flag(hf, g)
  {
  }

  /** Each status code is the negated value of a flag: -1 is -HEAP_NOEXPAND,
      -2 is -HEAP_LOCK and -32 is -HEAP_MIN. */
  lemma StatusCodes()
    ensures ERR_NOEXPAND == -(HEAP_NOEXPAND as int)
    ensures ERR_LOCK == -(HEAP_LOCK as int)
    ensures ERR_MODE == -(HEAP_MIN as int)
  {
  }
}
