# numbers: a lazy integer sequence, in two capability levels

`numbers(bound)` is a sequence that stores nothing but its exclusive upper
limit and produces `0, 1, ..., bound - 1` on demand from a bare integer
position. The repository writes it twice:

- `generator/cpp.cpp` hand-writes a forward iterator: `begin()` and `end()`
  hand out iterators at positions `0` and `bound`, `*it` returns the
  position, `++` advances it, and `==`/`!=` compare positions.
- `generator/rv3.cpp` writes a cursor for a range facade: `read`, `equal` and
  `next`, with `begin_cursor()`/`end_cursor()` at `0` and `bound`. A build
  flag adds the random-access operations `prev`, `advance(n)` and
  `distance_to`.

The model is functional. Iterators and cursors are immutable position tokens
(`Iterator(pos)`, `Cursor(pos)`), `numbers` is `Numbers(bound)`, and each
operation is a pure function. A C++ operator that updates its receiver
returns the updated receiver; the two increments of the iterator return a
`Stepped(receiver, returned)` pair so that both the receiver after the call
and the operator's return value are visible. The range-for loop is modelled
twice: as a recursive function that collects `*it` until the iterator
reaches `end()`, and as a `while` loop (`ForwardIterator.RangeFor`). Every
traversal is compared with an independent reference, `Bounded.Iota(lo, hi)`,
the interval `[lo, hi)` written as a sequence comprehension.

Files and modules:

- `bounded.dfy`, module `Bounded`: the `Numbers` value, its default and the
  reference interval `Iota`.
- `forward_iterator.dfy`, module `ForwardIterator`: `generator/cpp.cpp`.
- `facade_cursor.dfy`, module `FacadeCursor`: the always-present part of the
  cursor in `generator/rv3.cpp`.
- `random_access.dfy`, module `RandomAccess`: the flag-gated `prev`,
  `advance` and `distance_to`, and their laws. The build flag is not a
  global switch here. The forward level is module `FacadeCursor` alone, and
  the random-access level is that module plus `RandomAccess`.
- `variants.dfy`, module `Variants`: both variants yield the same values.

## Model

| member | source | states |
|---|---|---|
| Bounded.DefaultNumbers | generator/cpp.cpp:8-14 | the default constructor (here and at generator/rv3.cpp:9-15) gives a well-formed `numbers` whose interval is empty; `ForwardIterator.DefaultIsEmpty` and `FacadeCursor.DefaultIsEmpty` show that both traversals of it yield nothing |
| ForwardIterator.DefaultIterator | generator/cpp.cpp:23 | a default-constructed iterator is `==` to the `begin()` of every `numbers` |
| ForwardIterator.Deref | generator/cpp.cpp:28-30 | dereferencing yields the position: an iterator rebuilt from the value is the same iterator |
| ForwardIterator.Eq | generator/cpp.cpp:31-33 | `==` holds iff the two iterators are the same token, iff their dereferenced values agree |
| ForwardIterator.Neq | generator/cpp.cpp:34-36 | `!=` is exactly the negation of `==`, i.e. the iterators differ |
| ForwardIterator.PreIncrement | generator/cpp.cpp:37-40 | `++it` returns the same iterator it leaves as the receiver, whose value is one more than before, so it is `!=` to the old one |
| ForwardIterator.PostIncrement | generator/cpp.cpp:41-45 | `it++` returns the iterator as it was before the call and leaves the receiver where `++it` would |
| ForwardIterator.PostIncrementTrailsByOne | generator/cpp.cpp:41-45 | the value `it++` returns is one `++` behind the receiver it leaves, and differs from it |
| ForwardIterator.Begin | generator/cpp.cpp:50-52 | `begin()` dereferences to 0 |
| ForwardIterator.End | generator/cpp.cpp:53-55 | `end()` sits at `bound`, and `begin() == end()` iff the bound is 0 |
| ForwardIterator.Collect | generator/cpp.cpp:59-61 | testing `!=` against the end, dereferencing and pre-incrementing from `first` yields exactly `[first, last)` |
| ForwardIterator.Traverse | generator/cpp.cpp:50-55 | for a non-negative bound, the traversal from `begin()` to `end()` has `bound` elements and the i-th is `i` |
| ForwardIterator.RangeFor | generator/cpp.cpp:59-61 | the range-for loop terminates and yields `[0, bound)`, the same values as the recursive traversal |
| ForwardIterator.DefaultIsEmpty | generator/cpp.cpp:8-14 | a default-constructed `numbers` has `begin() == end()` and yields nothing |
| ForwardIterator.TraversalDoesNotOverflow | generator/cpp.cpp:37-40 | for a bound that fits a 32-bit `int`, no increment made by the traversal overflows |
| FacadeCursor.DefaultCursor | generator/rv3.cpp:18 | a default-constructed cursor is `equal` to the `begin_cursor()` of every `numbers` |
| FacadeCursor.Read | generator/rv3.cpp:23-25 | `read()` yields the position: a cursor rebuilt from the value is the same cursor |
| FacadeCursor.Equal | generator/rv3.cpp:26-28 | `equal` holds iff the cursors are the same token, iff they read the same value |
| FacadeCursor.Next | generator/rv3.cpp:29 | `next()` reads one more than before, so it is no longer `equal` to the old cursor |
| FacadeCursor.BeginCursor | generator/rv3.cpp:39-41 | `begin_cursor()` reads 0 |
| FacadeCursor.EndCursor | generator/rv3.cpp:42-44 | `end_cursor()` sits at `bound`, and it is `equal` to `begin_cursor()` iff the bound is 0 |
| FacadeCursor.Walk | generator/rv3.cpp:53-55 | reading and calling `next()` until the cursor is `equal` to `last` yields exactly `[first, last)` |
| FacadeCursor.Traverse | generator/rv3.cpp:39-44 | for a non-negative bound, the traversal from `begin_cursor()` to `end_cursor()` has `bound` elements and the i-th is `i` |
| FacadeCursor.WalkReachesEnd | generator/rv3.cpp:29 | from `first`, exactly `last - first` calls of `next()` reach `last`, and the walk yields that many values |
| FacadeCursor.DefaultIsEmpty | generator/rv3.cpp:9-15 | a default-constructed `numbers` has `begin_cursor()` `equal` to `end_cursor()` and yields nothing |
| RandomAccess.Prev | generator/rv3.cpp:31 | `prev()` is undone by `next()` and reads one less than before |
| RandomAccess.Advance | generator/rv3.cpp:32 | `advance(0)` is the identity, `advance(1)` is `next()`, `advance(-1)` is `prev()` |
| RandomAccess.DistanceTo | generator/rv3.cpp:33 | `advance(distance_to(x))` lands on `x` (and is `equal` to it), and the distance is zero iff the cursors are `equal` |
| RandomAccess.NextPrevInverse | generator/rv3.cpp:29-31 | `next` then `prev`, or `prev` then `next`, restores the cursor |
| RandomAccess.AdvanceIsRepeatedNext | generator/rv3.cpp:29-32 | `advance(n)` for `n >= 0` equals `n` calls of `next()` |
| RandomAccess.AdvanceIsRepeatedPrev | generator/rv3.cpp:31-32 | `advance(-n)` for `n >= 0` equals `n` calls of `prev()` |
| RandomAccess.AdvanceComposes | generator/rv3.cpp:32 | two jumps compose into one jump by the sum of the offsets |
| RandomAccess.DistanceLaws | generator/rv3.cpp:32-33 | `distance_to` is antisymmetric, zero from a cursor to itself, inverts `advance`, and `a.advance(a.distance_to(b))` is `equal` to `b` |
| RandomAccess.DistanceAfterStep | generator/rv3.cpp:29-33 | `next()` on the source cursor shortens a distance by one, and `prev()` lengthens it by one |
| RandomAccess.SizeIsTraversalLength | generator/rv3.cpp:29-44 | the distance from `begin_cursor()` to `end_cursor()` is the bound, the number of values the traversal yields, and the number of `next()` calls from begin to end |
| Variants.TraversalsAgree | generator/rv3.cpp:53-55 | for every non-negative bound both variants yield the same values, namely `[0, bound)` |
| Variants.NumbersFour | generator/cpp.cpp:59-61 | `numbers(4)` yields `[0, 1, 2, 3]` under both variants |

## Left out

- `main`, `std::cout` and printing (generator/cpp.cpp:58-62, generator/rv3.cpp:47-56): driver I/O. The range-for loop of `main` is modelled with the values collected instead of printed.
- The range library (`view_facade`, `range_access`), the `iterator_category` and other member typedefs, and the `static_assert` checks that `numbers` is a forward or random-access view. They are compile-time checks against a library that is not part of this model; the random-access capability is expressed only through the laws in `RandomAccess`.
- The facade's own iterator is not modelled separately: `FacadeCursor.Walk` states directly what a range-for loop over the facade does with the cursor (`equal` against the end, `read`, `next`).
- Negative bounds: a traversal from 0 never reaches a negative end by incrementing, so `Collect`, `Walk`, `Traverse` and `RangeFor` require the end not to lie before the start instead of modelling the non-terminating loop.
- 32-bit `int` overflow (undefined behaviour in C++): positions, `advance` offsets and distances are unbounded integers. Only `ForwardIterator.TraversalDoesNotOverflow` relates the model back to 32 bits.
- Mutation in place: `++`, `next`, `prev` and `advance` update their receiver in C++; here they return the updated token. Since the tokens hold only a position, nothing else can change. `++it` returns a reference to the receiver in C++, but `Stepped.returned` is a copy, so a chained `++(++it)`, which moves `it` twice, is not expressible; the range-for loop discards that result, so no modelled behaviour depends on it.
- Reading or stepping outside `[0, bound)` is not a contract violation in the model: the operations are total, as the C++ code computes them.
