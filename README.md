# Iteration utilities: scan algorithms, `xrange` and `zip`

A Dafny model of a small C++ library of iteration utilities. It has three parts.

- **Scan algorithms** (`include/stl-algorithms.h`, module `Algorithms` in `stl_algorithms.dfy`).
  These are the predicate searches and checks `find_if`, `find_if_not`, `find_last`, `find_not`,
  `find_backward`, `all_of`, `any_of`, `none_of`, `one_of`, `is_sorted`, `is_partitioned` and
  `is_palindrome`. A range is a `seq<T>`, an iterator is an index into it, and `last` is `|s|`.
  A predicate is a total function `T -> bool`; a comparator is a function `(T, T) -> bool`
  applied to the two dereferenced elements, which is what `IteratorComparator` does.
  Each loop is a `method` whose `while` loop follows the C++ loop.
  Each one-line composition is a `method` that calls the loop it is built on.
- **`xrange`** (`include/xrange.h`, module `Ranges` in `xrange.dfy`).
  `XRangeIterator` is a class with the field `value`, which changes, and the constant fields
  `endValue` and `step`. The throwing constructor is the static method `Create`, which returns
  `Err(ZeroStep)` for a zero step. `Valid()` is the object invariant: the value is on the end or
  strictly inside the bound. `Remaining()` is the sequence still to be yielded, given by the
  specification function `Progression`. `xrange` is the class `XRange`, with one constructor for
  each of the three C++ overloads. `T` is the unbounded `int`.
- **`zip`** (`include/zip.h`, module `Zipping` in `zip.dfy`).
  `ZipIterator` holds the two read-only sequences and one `nat` cursor into each.
  `Zip` holds the two sequences, and `Begin`/`End` pair their begins and their ends.
  `Zipped` is a recursive reference definition of the result, and `Remaining()` is the pairs an
  iterator still has to yield.

Both adapters have a `Collect` method. It is the range-based `for` loop a client writes: take
`begin()` and `end()`, then dereference and advance while the two iterators are not equal.
`Collect`'s postcondition is the theorem about full iteration:
- `Ranges.Collect` yields exactly `Progression(start, end, step)`, or fails for a zero step;
- `Zipping.Collect` yields `min(|A|, |B|)` pairs `(A[i], B[i])`.

`is_palindrome` is evidently meant to compare each element with its mirror image, for every
length. The loop at include/stl-algorithms.h:285 does that only for empty and odd-length ranges.
For an even length the two positions cross, and the walk leaves the range unless a mismatch turns
up first (see Findings). `IsPalindromeAsWritten` and `IsPalindromeEq` model the loop as written;
`IsPalindrome` is the corrected walk.

## Model

| member | source | states |
|---|---|---|
| `Algorithms.FindIf` | include/stl-algorithms.h:214-226 | the result is the least index whose element satisfies `p`, or `|s|` when none does; every earlier element fails `p` |
| `Algorithms.FindIfNot` | include/stl-algorithms.h:228-240 | the result is the least index whose element fails `p`, or `|s|`; every earlier element satisfies `p` |
| `Algorithms.FindLast` | include/stl-algorithms.h:242-256 | the result is the greatest index whose element satisfies `p`, every later element fails it; `|s|` exactly when no element satisfies `p` |
| `Algorithms.FindNot` | include/stl-algorithms.h:258-264 | the result is the first index whose element differs from `x`, all before it equal `x`; `|s|` if all equal `x` |
| `Algorithms.FindBackward` | include/stl-algorithms.h:266-272 | the result is the last index whose element equals `x` (a forward scan), or `|s|` when `x` does not occur |
| `Algorithms.AllOf` | include/stl-algorithms.h:135-141 | true iff every element satisfies `p`; true on the empty range |
| `Algorithms.NoneOf` | include/stl-algorithms.h:151-157 | true iff no element satisfies `p`, i.e. iff the count of matches is zero; true on the empty range |
| `Algorithms.AnyOf` | include/stl-algorithms.h:143-149 | true iff some element satisfies `p`, i.e. iff the count is positive; false on the empty range |
| `Algorithms.OneOf` | include/stl-algorithms.h:159-177 | true iff the count of matches is exactly one, iff there is a unique matching index |
| `Algorithms.CountPrefix` | include/stl-algorithms.h:166-174 | a prefix never has more matches than the whole range, so stopping at the second match is sound |
| `Algorithms.CountZero` | include/stl-algorithms.h:151-157 | the count is zero iff no element matches |
| `Algorithms.CountOne` | include/stl-algorithms.h:159-177 | the count is one iff exactly one index matches and all others fail |
| `Algorithms.IsSortedBase` | include/stl-algorithms.h:90-109 | true iff `comp` holds of every adjacent pair; true on empty and singleton ranges |
| `Algorithms.IsSorted` | include/stl-algorithms.h:179-184 | with the default `<`: true iff every adjacent pair is strictly increasing, and then every pair `i < j` is strictly ordered |
| `Algorithms.IsSortedBy` | include/stl-algorithms.h:186-192 | with a caller comparator on the dereferenced elements: true iff it holds of every adjacent pair |
| `Algorithms.AdjacentLessIsStrictlyIncreasing` | include/stl-algorithms.h:59-64 | under `<`, adjacent order implies `s[i] < s[j]` for all `i < j` |
| `Algorithms.AdjacentDuplicateIsUnsorted` | include/stl-algorithms.h:59-64 | under the strict default `<`, two equal neighbours make the range unsorted |
| `Algorithms.IsPartitioned` | include/stl-algorithms.h:194-212 | true iff no match follows a failure, iff the range splits into a matching prefix and a failing suffix |
| `Algorithms.PartitionedIffSplits` | include/stl-algorithms.h:194-212 | the pairwise statement of partitioning is equivalent to the prefix/suffix split |
| `Algorithms.IsPalindromeAsWritten` | include/stl-algorithms.h:274-292 | as written: empty or odd length gives true iff every mirrored pair of the first half satisfies `p`; even length leaves the range iff all `|s|` cross comparisons succeed, and otherwise gives false |
| `Algorithms.EvenPalindromeRunsOff` | include/stl-algorithms.h:283-289 | `[1, 2, 2, 1]` with `==` passes every cross comparison, so the walk as written leaves the range |
| `Algorithms.IsPalindrome` | include/stl-algorithms.h:274-292 | corrected walk, for every length: true iff `p(s[i], s[|s|-1-i])` for all `i < |s|/2`; true on empty and singleton ranges |
| `Algorithms.IsPalindromeEq` | include/stl-algorithms.h:294-299 | the walk as written under the default `==`: empty or odd length gives true iff `s[i] == s[|s|-1-i]` for all `i < |s|/2`; even length leaves the range iff every cross comparison is equal, and otherwise gives false |
| `Algorithms.PalindromeExamples` | tests/test_algorithms.cpp:122-135 | `[1,2,3,4,5]` is mirrored under parity but not under `==`; `[1,2,3,2,1]` is mirrored under both |
| `Ranges.ProgressionTerms` | include/xrange.h:48-56 | the yielded values are exactly the terms `start + k*step` for `k < n`, all in bounds, and no term with `k >= n` is in bounds |
| `Ranges.ClampKeepsProgression` | include/xrange.h:27-29 | moving a start already past the end onto the end does not change what is yielded |
| `Ranges.EmptyWhenPastEnd` | include/xrange.h:27-29 | a start at or past the end in the step's direction yields nothing |
| `Ranges.XRangeIterator.constructor` | include/xrange.h:18-30 | for a non-zero step: the value is clamped to the end when already past it; the invariant holds |
| `Ranges.XRangeIterator.Create` | include/xrange.h:18-30 | fails with `ZeroStep` iff the step is zero; otherwise the new iterator has the clamped value and has the progression from the start still to yield |
| `Ranges.XRangeIterator.Equals` | include/xrange.h:32-38 | compares values only; against the `end()` iterator it is true iff nothing is left to yield |
| `Ranges.XRangeIterator.IsBordersOk` | include/xrange.h:69-75 | true iff there is another value to yield |
| `Ranges.XRangeIterator.Deref` | include/xrange.h:40-42 | on an iterator not at the end, yields the next value of the progression |
| `Ranges.XRangeIterator.Increment` | include/xrange.h:48-56 | the value becomes `value + step` if that is in bounds and the end otherwise; an iterator at the end stays there; the remaining values lose their first element; the invariant is kept |
| `Ranges.XRangeIterator.PostIncrement` | include/xrange.h:58-63 | returns a fresh copy of the pre-advance state, with the same values left to yield, and advances this iterator as `Increment` does: the remaining values lose their first element |
| `Ranges.XRange.FromEnd` | include/xrange.h:89-93 | `xrange(end)` is start 0, step 1 |
| `Ranges.XRange.FromBounds` | include/xrange.h:95-99 | `xrange(start, end)` is step 1 |
| `Ranges.XRange.constructor` | include/xrange.h:101-105 | `xrange(start, end, step)` stores the three values and does not check the step |
| `Ranges.XRange.Begin` | include/xrange.h:107-109 | fails with `ZeroStep` iff the step is zero; otherwise the iterator holds the clamped `start` and still has the whole progression from `start` to yield |
| `Ranges.XRange.End` | include/xrange.h:111-113 | fails with `ZeroStep` iff the step is zero; otherwise the iterator sits on the end with nothing to yield |
| `Ranges.Collect` | include/xrange.h:32-56 | iterating from `begin()` until equal to `end()` fails iff the step is zero, and otherwise yields exactly the progression |
| `Ranges.DefaultBoundsExamples` | tests/test_xrange.cpp:5-29 | `xrange(5)` gives `[0,1,2,3,4]` and `xrange(3,5)` gives `[3,4]` |
| `Ranges.StepExamples` | tests/test_xrange.cpp:57-75 | `xrange(1,6,2)` gives `[1,3,5]` and `xrange(6,1,-2)` gives `[6,4,2]` |
| `Zipping.ZippedPairs` | include/zip.h:37-50 | the zipped sequence has `min(|A|,|B|)` pairs and its `i`-th pair is `(A[i], B[i])` |
| `Zipping.ZipIterator.constructor` | include/zip.h:24-27 | the iterator holds the two given cursors, each a position between the begin and the end of its sequence |
| `Zipping.ZipIterator.Equals` | include/zip.h:29-31 | compared with `end()`: equal iff no pair is left to yield, which for a lockstep iterator means it has reached the end of the shorter sequence |
| `Zipping.ZipIterator.Deref` | include/zip.h:37-39 | yields the first of the pairs still to be yielded |
| `Zipping.ZipIterator.Increment` | include/zip.h:45-50 | both cursors advance by exactly one, and the pairs still to be yielded lose their first |
| `Zipping.ZipIterator.PostIncrement` | include/zip.h:52-57 | returns a fresh copy of the pre-advance cursors, with the same pairs left, and advances this iterator as `Increment` does |
| `Zipping.Zip.constructor` | include/zip.h:77-80 | the view refers to the two given sequences |
| `Zipping.Zip.Begin` | include/zip.h:82-84 | both cursors at position 0 of the two sequences |
| `Zipping.Zip.End` | include/zip.h:86-88 | the cursors are at `|A|` and `|B|` |
| `Zipping.Collect` | include/zip.h:29-50 | full iteration yields exactly `min(|A|,|B|)` pairs `(A[i], B[i])` in order, equal to `Zipped(A, B)` |
| `Zipping.ShorterSecondExample` | tests/test_zip.cpp:36-40 | zipping `{1,2,3,4}` with `{5,6,7}` gives `(1,5), (2,6), (3,7)` |

## Findings

| source | as written | input that shows it | evidently intended | confidence | as-written member | corrected member |
|---|---|---|---|---|---|---|
| include/stl-algorithms.h:283-291 | the walk continues while `first != prev`, with `++first, --prev` | `{1, 2, 2, 1}` with `==`: the positions cross, every comparison succeeds, and `prev` is stepped before the beginning while `first` is dereferenced at `last` | stop once the two positions meet or cross, so every length gets the mirrored-pair answer | not executed; high | `Algorithms.IsPalindromeAsWritten` and its default-predicate form `Algorithms.IsPalindromeEq`, with `Algorithms.EvenPalindromeRunsOff` | `Algorithms.IsPalindrome` |

## Left out

- The `RequireIter`, `RequireInputIter`, `RequireFwdIter` and `RequireBidirIter` aliases: they are compile-time capability checks with no run-time behaviour. Genericity over `seq<T>` takes their place.
- The duplicated C++11 and C++20 branches, and `constexpr`: there is one model of each function.
- `operator!=` on both iterators: it is the negation of `Equals`, and the `Collect` loops use `!Equals`.
- `operator->` on both iterators: it returns the iterator itself and has no behaviour of its own.
- Writing through the reference that `XRangeIterator::operator*` returns: `Deref` returns the value.
- Floating-point `xrange`, and machine-integer overflow of `value_ += step_`: the model uses unbounded `int`.
- `Algorithms.IsSorted` with the default comparator is modelled on `int` only, because Dafny has no generic `<`. The comparator form `IsSortedBy` is generic.
- Predicates and comparators are total, side-effect-free functions. A stateful C++ functor is not modelled.
- `zip` over containers of different kinds (lists, sets): each container is its sequence of elements in iteration order. Lifetimes of the borrowed containers, and mutating them during iteration, have no analogue over immutable `seq`.
- `Zipping.ZipIterator.Increment`, `Zipping.ZipIterator.PostIncrement` and `Zipping.ZipIterator.Deref` require both cursors to be before their ends. In C++, advancing or dereferencing an end iterator is undefined.
- `Ranges.XRangeIterator.Increment` and `Ranges.XRangeIterator.PostIncrement` require `Valid()`, the invariant that every constructed iterator has.
- `bin/main.cpp`: a demonstration that prints pairs; it is I/O only.
- `tests/test_algorithms.cpp:104-105` compares the standard library's `is_partitioned` with itself, so it says nothing about this one.
