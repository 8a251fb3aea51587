/** The `numbers` value shared by both variants, and the reference sequence
    `[lo, hi)` that a traversal of it is expected to produce. */
module Bounded {

  /** A lazy sequence of the integers `0, 1, ..., bound - 1`. It stores only
      its exclusive upper limit; the elements are computed from positions. */
  datatype Numbers = Numbers(bound: int)

  /** The default-constructed value: the in-class initialiser sets the bound
      to 0, so the sequence is well-formed and has no elements. */
  function DefaultNumbers(): (r: Numbers)
    ensures r.bound >= 0
    ensures Iota(0, r.bound) == []
  {
    Numbers(0)
  }

  /** The half-open integer interval `[lo, hi)` in increasing order: the
      independent reference that every traversal is compared against. */
  function Iota(lo: int, hi: int): (r: seq<int>)
    requires lo <= hi
    ensures |r| == hi - lo
    ensures forall i :: 0 <= i < |r| ==> r[i] == lo + i
  {
    seq(hi - lo, i requires 0 <= i < hi - lo => lo + i)
  }

  /** The range of a 32-bit C++ `int`. */
  predicate IsInt32(x: int) {
    -0x8000_0000 <= x < 0x8000_0000
  }
}
