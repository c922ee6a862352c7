/** Optional values, the source's unsigned 64-bit arithmetic, and the size of a subset. */
module Common {

  datatype Option<T> = None | Some(value: T)

  const U64_MAX: nat := 0xFFFF_FFFF_FFFF_FFFF

  function SatAdd(a: nat, b: nat): nat { if a + b > U64_MAX then U64_MAX else a + b }

  function SatSub(a: nat, b: nat): nat { if a < b then 0 else a - b }

  /** Subtraction of an atomic counter, which wraps around below zero. */
  function WrapSub(a: nat, b: nat): nat { if a < b then (a - b) % (U64_MAX + 1) else a - b }

  lemma SubsetSize<T>(a: set<T>, b: set<T>)
    requires a <= b
    ensures |a| <= |b| && (|a| == |b| ==> a == b)
  {
    assert b == a + (b - a) && |b| == |a| + |b - a|;
  }
}
