/** The hand-written forward iterator of `numbers`: an iterator is a bare
    position, `begin()` and `end()` hand out positions `0` and `bound`, and a
    range-for loop walks from one to the other with `!=`, `*` and `++`. */
module ForwardIterator {
  import opened Bounded

  /** A position token. It does not refer back to the `numbers` that made it. */
  datatype Iterator = Iterator(pos: int)

  /** What an increment leaves behind: the iterator the operator was applied
      to (`receiver`, after the update) and the value the operator returns. */
  datatype Stepped = Stepped(receiver: Iterator, returned: Iterator)

  /** A default-constructed iterator, at position 0: the same place as the
      `begin()` of every `numbers`. */
  function DefaultIterator(): (r: Iterator)
    ensures forall n: Numbers :: Eq(r, Begin(n))
  {
    Iterator(0)
  }

  /** `*it`: the element at the current position is the position itself, so
      rebuilding an iterator from it gives back the same iterator. */
  function Deref(it: Iterator): (r: int)
    ensures Iterator(r) == it
  {
    it.pos
  }

  /** `it == other`: position equality, which for a bare position token is
      equality of the whole token. */
  predicate Eq(x: Iterator, y: Iterator)
    ensures Eq(x, y) <==> x == y
    ensures Eq(x, y) <==> Deref(x) == Deref(y)
  {
    x.pos == y.pos
  }

  /** `it != other`: exactly the negation of `==`. */
  predicate Neq(x: Iterator, y: Iterator)
    ensures Neq(x, y) <==> !Eq(x, y)
    ensures Neq(x, y) <==> x != y
  {
    !Eq(x, y)
  }

  /** `++it`: the receiver moves one element further on, and the operator
      returns that same, already updated, iterator. */
  function PreIncrement(it: Iterator): (r: Stepped)
    ensures r.returned == r.receiver
    ensures Deref(r.receiver) == Deref(it) + 1
    ensures Neq(r.receiver, it)
  {
    var updated := Iterator(it.pos + 1);
    Stepped(updated, updated)
  }

  /** `it++`: the receiver ends where `++it` would leave it, while the
      operator returns a copy taken before the step. */
  function PostIncrement(it: Iterator): (r: Stepped)
    ensures r.returned == it
    ensures r.receiver == PreIncrement(it).receiver
  {
    var tmp := it;
    var stepped := PreIncrement(it);
    Stepped(stepped.receiver, tmp)
  }

  /** `begin()`: position 0, whatever the bound. */
  function Begin(n: Numbers): (r: Iterator)
    ensures Deref(r) == 0
  {
    Iterator(0)
  }

  /** `end()`: position `bound`. Begin and end meet exactly when the sequence
      is empty, i.e. when the bound is 0. */
  function End(n: Numbers): (r: Iterator)
    ensures Deref(r) == n.bound
    ensures Eq(Begin(n), r) <==> n.bound == 0
  {
    Iterator(n.bound)
  }

  /** The values a range-for loop yields between `first` and `last`: while the
      two differ, dereference and pre-increment. The result is `[first, last)`. */
  function Collect(first: Iterator, last: Iterator): (r: seq<int>)
    requires first.pos <= last.pos
    ensures r == Iota(first.pos, last.pos)
    decreases last.pos - first.pos
  {
    if !Neq(first, last) then
      []
    else
      var rest := Collect(PreIncrement(first).receiver, last);
      [Deref(first)] + rest
  }

  /** The full traversal of a `numbers` value, from `begin()` to `end()`. */
  function Traverse(n: Numbers): (r: seq<int>)
    requires n.bound >= 0
    ensures |r| == n.bound
    ensures forall i :: 0 <= i < |r| ==> r[i] == i
  {
    Collect(Begin(n), End(n))
  }

  /** The range-for statement `for (auto i : n)` with the loop body's printing
      replaced by collecting the yielded values. */
  method RangeFor(n: Numbers) returns (values: seq<int>)
    requires n.bound >= 0
    ensures values == Iota(0, n.bound)
    ensures values == Traverse(n)
  {
    var it := Begin(n);
    var last := End(n);
    values := [];
    while Neq(it, last)
      invariant 0 <= it.pos <= last.pos
      invariant values == Iota(0, it.pos)
      decreases last.pos - it.pos
    {
      values := values + [Deref(it)];
      it := PreIncrement(it).receiver;
    }
  }

  /** The value `it++` returns is one `++` behind the receiver it leaves. */
  lemma PostIncrementTrailsByOne(it: Iterator)
    ensures PreIncrement(PostIncrement(it).returned).receiver == PostIncrement(it).receiver
    ensures Neq(PostIncrement(it).returned, PostIncrement(it).receiver)
  {
  }

  /** A default-constructed `numbers` is empty: `begin() == end()` and the
      traversal yields nothing. */
  lemma DefaultIsEmpty()
    ensures Eq(Begin(DefaultNumbers()), End(DefaultNumbers()))
    ensures Traverse(DefaultNumbers()) == []
  {
  }

  /** For a bound that fits in a 32-bit `int`, no `++` performed by the
      traversal leaves the `int` range: each yielded value plus one is still
      representable, so the loop has no signed overflow. */
  lemma TraversalDoesNotOverflow(n: Numbers)
    requires 0 <= n.bound && IsInt32(n.bound)
    ensures forall i :: 0 <= i < |Traverse(n)| ==> IsInt32(Traverse(n)[i] + 1)
  {
  }
}
