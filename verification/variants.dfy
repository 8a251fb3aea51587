/** The two variants side by side: the capability level changes which
    operations exist, never what a traversal yields. */
module Variants {
  import opened Bounded
  import ForwardIterator
  import FacadeCursor

  /** For every non-negative bound, the hand-written iterator and the facade
      cursor yield the same values, and both yield `[0, bound)`. */
  lemma TraversalsAgree(bound: int)
    requires bound >= 0
    ensures ForwardIterator.Traverse(Numbers(bound)) == FacadeCursor.Traverse(Numbers(bound))
    ensures FacadeCursor.Traverse(Numbers(bound)) == Iota(0, bound)
  {
  }

  /** The driver's `numbers(4)` yields `0, 1, 2, 3` under both variants. */
  lemma NumbersFour()
    ensures ForwardIterator.Traverse(Numbers(4)) == [0, 1, 2, 3]
    ensures FacadeCursor.Traverse(Numbers(4)) == [0, 1, 2, 3]
  {
  }
}
