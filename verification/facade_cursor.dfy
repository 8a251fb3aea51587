/** The cursor of the range-facade variant, at its forward capability level:
    `read`, `equal` and `next`, with `begin_cursor()` and `end_cursor()` at
    positions `0` and `bound`. The facade turns these into an iterator whose
    range-for loop reads until the working cursor is `equal` to the end. */
module FacadeCursor {
  import opened Bounded

  /** A position token. It does not refer back to the `numbers` that made it. */
  datatype Cursor = Cursor(pos: int)

  /** A default-constructed cursor, at position 0: the same place as the
      `begin_cursor()` of every `numbers`. */
  function DefaultCursor(): (r: Cursor)
    ensures forall n: Numbers :: Equal(r, BeginCursor(n))
  {
    Cursor(0)
  }

  /** `read()`: the element at the current position is the position itself,
      so rebuilding a cursor from it gives back the same cursor. */
  function Read(c: Cursor): (r: int)
    ensures Cursor(r) == c
  {
    c.pos
  }

  /** `equal(x)`: position equality, which for a bare position token is
      equality of the whole token. */
  predicate Equal(c: Cursor, x: Cursor)
    ensures Equal(c, x) <==> c == x
    ensures Equal(c, x) <==> Read(c) == Read(x)
  {
    c.pos == x.pos
  }

  /** `next()`: one element further on; the cursor holds nothing else to change. */
  function Next(c: Cursor): (r: Cursor)
    ensures Read(r) == Read(c) + 1
    ensures !Equal(r, c)
  {
    Cursor(c.pos + 1)
  }

  /** `begin_cursor()`: position 0, whatever the bound. */
  function BeginCursor(n: Numbers): (r: Cursor)
    ensures Read(r) == 0
  {
    Cursor(0)
  }

  /** `end_cursor()`: position `bound`. Begin and end meet exactly when the
      sequence is empty, i.e. when the bound is 0. */
  function EndCursor(n: Numbers): (r: Cursor)
    ensures Read(r) == n.bound
    ensures Equal(BeginCursor(n), r) <==> n.bound == 0
  {
    Cursor(n.bound)
  }

  /** `k` successive calls of `next()`. */
  function NextN(c: Cursor, k: nat): Cursor
    decreases k
  {
    if k == 0 then c else NextN(Next(c), k - 1)
  }

  /** The values the facade's iterator yields between `first` and `last`:
      while the cursors are not `equal`, `read` and then `next`. The result
      is `[first, last)`. */
  function Walk(first: Cursor, last: Cursor): (r: seq<int>)
    requires first.pos <= last.pos
    ensures r == Iota(first.pos, last.pos)
    decreases last.pos - first.pos
  {
    if Equal(first, last) then
      []
    else
      var rest := Walk(Next(first), last);
      [Read(first)] + rest
  }

  /** The full traversal of a `numbers` value, from `begin_cursor()` to
      `end_cursor()`: exactly `0, 1, ..., bound - 1`. */
  function Traverse(n: Numbers): (r: seq<int>)
    requires n.bound >= 0
    ensures |r| == n.bound
    ensures forall i :: 0 <= i < |r| ==> r[i] == i
  {
    Walk(BeginCursor(n), EndCursor(n))
  }

  /** Walking from `first` reaches `last` after exactly `last - first` calls
      of `next()`, and that is also the number of values yielded. */
  lemma {:induction false} WalkReachesEnd(first: Cursor, last: Cursor)
    requires first.pos <= last.pos
    ensures NextN(first, last.pos - first.pos) == last
    ensures |Walk(first, last)| == last.pos - first.pos
    decreases last.pos - first.pos
  {
    if first.pos < last.pos {
      WalkReachesEnd(Next(first), last);
    }
  }

  /** A default-constructed `numbers` is empty: `begin_cursor()` is `equal`
      to `end_cursor()` and the traversal yields nothing. */
  lemma DefaultIsEmpty()
    ensures Equal(BeginCursor(DefaultNumbers()), EndCursor(DefaultNumbers()))
    ensures Traverse(DefaultNumbers()) == []
  {
  }
}
