/** The random-access capability level of the facade cursor: the `prev`,
    `advance` and `distance_to` operations that the build flag adds on top of
    `read`, `equal` and `next`. The laws below are what makes the cursor
    usable as a random-access position: `advance` is `next`/`prev` repeated,
    and `distance_to` measures how far `advance` has to go. */
module RandomAccess {
  import opened Bounded
  import opened FacadeCursor

  /** `prev()`: one element back; undone by `next()`. */
  function Prev(c: Cursor): (r: Cursor)
    ensures Next(r) == c
    ensures Read(r) == Read(c) - 1
  {
    Cursor(c.pos - 1)
  }

  /** `advance(n)`: jump by a signed offset in one step. A jump of 0 stays
      put; a jump of 1 or -1 is a single `next()` or `prev()`. */
  function Advance(c: Cursor, n: int): (r: Cursor)
    ensures n == 0 ==> r == c
    ensures n == 1 ==> r == Next(c)
    ensures n == -1 ==> r == Prev(c)
  {
    Cursor(c.pos + n)
  }

  /** `distance_to(x)`: the signed offset that `advance` needs to get from
      `c` to `x`; it is zero exactly when the cursors are `equal`. */
  function DistanceTo(c: Cursor, x: Cursor): (r: int)
    ensures Advance(c, r) == x
    ensures Equal(Advance(c, r), x)
    ensures r == 0 <==> Equal(c, x)
  {
    x.pos - c.pos
  }

  /** `k` successive calls of `prev()`. */
  function PrevN(c: Cursor, k: nat): Cursor
    decreases k
  {
    if k == 0 then c else PrevN(Prev(c), k - 1)
  }

  /** `next` and `prev` undo each other, in either order. */
  lemma NextPrevInverse(c: Cursor)
    ensures Prev(Next(c)) == c
    ensures Next(Prev(c)) == c
  {
  }

  /** A non-negative jump is that many calls of `next()`. */
  lemma {:induction false} AdvanceIsRepeatedNext(c: Cursor, n: nat)
    ensures Advance(c, n) == NextN(c, n)
    decreases n
  {
    if n > 0 {
      AdvanceIsRepeatedNext(Next(c), n - 1);
    }
  }

  /** A negative jump is that many calls of `prev()`. */
  lemma {:induction false} AdvanceIsRepeatedPrev(c: Cursor, n: nat)
    ensures Advance(c, -(n as int)) == PrevN(c, n)
    decreases n
  {
    if n > 0 {
      AdvanceIsRepeatedPrev(Prev(c), n - 1);
    }
  }

  /** Two jumps compose into one jump by the sum of the offsets. */
  lemma AdvanceComposes(c: Cursor, m: int, n: int)
    ensures Advance(Advance(c, m), n) == Advance(c, m + n)
  {
  }

  /** `distance_to` is antisymmetric, zero from a cursor to itself, and
      inverts `advance`: the distance to where a jump lands is the jump. */
  lemma DistanceLaws(a: Cursor, b: Cursor, n: int)
    ensures DistanceTo(a, b) == -DistanceTo(b, a)
    ensures DistanceTo(a, a) == 0
    ensures DistanceTo(a, Advance(a, n)) == n
    ensures Equal(Advance(a, DistanceTo(a, b)), b)
  {
  }

  /** Stepping the source cursor forward shortens the distance by one, and
      stepping it back lengthens it by one. */
  lemma DistanceAfterStep(a: Cursor, b: Cursor)
    ensures DistanceTo(Next(a), b) == DistanceTo(a, b) - 1
    ensures DistanceTo(Prev(a), b) == DistanceTo(a, b) + 1
  {
  }

  /** The random-access size: the distance from `begin_cursor()` to
      `end_cursor()` is the bound, and for a non-negative bound it is the
      number of values the forward traversal yields and the number of
      `next()` calls that carry the begin cursor onto the end cursor. */
  lemma {:induction false} SizeIsTraversalLength(n: Numbers)
    requires n.bound >= 0
    ensures DistanceTo(BeginCursor(n), EndCursor(n)) == n.bound
    ensures DistanceTo(BeginCursor(n), EndCursor(n)) == |Traverse(n)|
    ensures NextN(BeginCursor(n), DistanceTo(BeginCursor(n), EndCursor(n))) == EndCursor(n)
  {
    WalkReachesEnd(BeginCursor(n), EndCursor(n));
  }
}
