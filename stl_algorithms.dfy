/// Linear scans over a finite range under a caller-supplied predicate or
/// comparator. A range is a `seq<T>`, an iterator is an index into it, and
/// the past-the-end iterator `last` is `|s|`.
module Algorithms {

  // ---------------------------------------------------------------------
  // Specification functions
  // ---------------------------------------------------------------------

  /** The number of elements of `s` that satisfy `p`. */
  function Count<T>(s: seq<T>, p: T -> bool): (n: nat)
  {
    if |s| == 0 then 0
    else Count(s[..|s| - 1], p) + (if p(s[|s| - 1]) then 1 else 0)
  }

  /** `comp` holds of every adjacent pair of `s`. */
  ghost predicate AdjacentHold<T>(s: seq<T>, comp: (T, T) -> bool)
  {
    forall i :: 0 <= i < |s| - 1 ==> comp(s[i], s[i + 1])
  }

  /** No element satisfying `p` comes after an element that fails `p`. */
  ghost predicate Partitioned<T>(s: seq<T>, p: T -> bool)
  {
    forall i, j :: 0 <= i < j < |s| && !p(s[i]) ==> !p(s[j])
  }

  /** `s` splits at `k` into a prefix that satisfies `p` and a suffix that does not. */
  ghost predicate SplitsAt<T>(s: seq<T>, p: T -> bool, k: int)
  {
    0 <= k <= |s| &&
    (forall i :: 0 <= i < k ==> p(s[i])) &&
    (forall i :: k <= i < |s| ==> !p(s[i]))
  }

  /** Element `i` and its mirror `|s| - 1 - i` are related by `p`, for every `i` in the first half. */
  ghost predicate Mirrored<T>(s: seq<T>, p: (T, T) -> bool)
  {
    forall i :: 0 <= i < |s| / 2 ==> p(s[i], s[|s| - 1 - i])
  }

  /** Every element is related by `p` to its mirror image, across the whole range. */
  ghost predicate FullSweep<T>(s: seq<T>, p: (T, T) -> bool)
  {
    forall i :: 0 <= i < |s| ==> p(s[i], s[|s| - 1 - i])
  }

  // ---------------------------------------------------------------------
  // Lemmas about the specification functions
  // ---------------------------------------------------------------------

  /** Counting a prefix never gives more than counting the whole range. */
  lemma {:induction false} CountPrefix<T>(s: seq<T>, p: T -> bool, i: nat)
    requires i <= |s|
    ensures Count(s[..i], p) <= Count(s, p)
    decreases |s| - i
  {
    if i < |s| {
      CountPrefix(s, p, i + 1);
      assert s[..i + 1][..i] == s[..i];
    } else {
      assert s[..i] == s;
    }
  }

  /** No element satisfies `p` exactly when the count is zero. */
  lemma {:induction false} CountZero<T>(s: seq<T>, p: T -> bool)
    ensures Count(s, p) == 0 <==> forall i :: 0 <= i < |s| ==> !p(s[i])
  {
    if |s| > 0 {
      var init := s[..|s| - 1];
      CountZero(init, p);
      assert forall i :: 0 <= i < |init| ==> init[i] == s[i];
    }
  }

  /** The count is one exactly when a single index satisfies `p`. */
  lemma {:induction false} CountOne<T>(s: seq<T>, p: T -> bool)
    ensures Count(s, p) == 1 <==>
            exists k :: 0 <= k < |s| && p(s[k]) && forall j :: 0 <= j < |s| && j != k ==> !p(s[j])
  {
    if |s| > 0 {
      var n := |s| - 1;
      var init := s[..n];
      assert forall i :: 0 <= i < |init| ==> init[i] == s[i];
      CountOne(init, p);
      CountZero(init, p);
      if Count(s, p) == 1 {
        if p(s[n]) {
          assert forall j :: 0 <= j < |s| && j != n ==> !p(s[j]);
        } else {
          var k :| 0 <= k < |init| && p(init[k]) && forall j :: 0 <= j < |init| && j != k ==> !p(init[j]);
          assert forall j :: 0 <= j < |s| && j != k ==> !p(s[j]);
        }
      }
      if exists k :: 0 <= k < |s| && p(s[k]) && forall j :: 0 <= j < |s| && j != k ==> !p(s[j]) {
        var k :| 0 <= k < |s| && p(s[k]) && forall j :: 0 <= j < |s| && j != k ==> !p(s[j]);
        if k == n {
          assert forall i :: 0 <= i < |init| ==> !p(init[i]);
        } else {
          assert !p(s[n]);
          assert forall j :: 0 <= j < |init| && j != k ==> !p(init[j]);
        }
      }
    }
  }

  /** The pairwise statement of partitioning is the prefix/suffix statement of it. */
  lemma PartitionedIffSplits<T>(s: seq<T>, p: T -> bool)
    ensures Partitioned(s, p) <==> exists k :: SplitsAt(s, p, k)
  {
    if Partitioned(s, p) {
      var k := 0;
      while k < |s| && p(s[k])
        invariant 0 <= k <= |s|
        invariant forall i :: 0 <= i < k ==> p(s[i])
      {
        k := k + 1;
      }
      assert SplitsAt(s, p, k);
    }
    if exists k :: SplitsAt(s, p, k) {
      var k :| SplitsAt(s, p, k);
      forall i, j | 0 <= i < j < |s| && !p(s[i]) ensures !p(s[j]) {
        assert k <= i;
      }
    }
  }

  /** Under the strict comparator `<`, adjacent order gives strict order of all pairs. */
  lemma {:induction false} AdjacentLessIsStrictlyIncreasing(s: seq<int>, i: int, j: int)
    requires AdjacentHold(s, (a: int, b: int) => a < b)
    requires 0 <= i < j < |s|
    ensures s[i] < s[j]
    decreases j - i
  {
    assert s[j - 1] < s[j];
    if i < j - 1 {
      AdjacentLessIsStrictlyIncreasing(s, i, j - 1);
    }
  }

  /** Under the default comparator `<`, two equal adjacent elements make a range unsorted. */
  lemma AdjacentDuplicateIsUnsorted(s: seq<int>, i: int)
    requires 0 <= i < |s| - 1 && s[i] == s[i + 1]
    ensures !AdjacentHold(s, (a: int, b: int) => a < b)
  {
  }

  // ---------------------------------------------------------------------
  // Searches
  // ---------------------------------------------------------------------

  /** `find_if`: the first position whose element satisfies `p`, or `|s|`. */
  method FindIf<T>(s: seq<T>, p: T -> bool) returns (pos: nat)
    ensures pos <= |s|
    ensures pos < |s| ==> p(s[pos])
    ensures forall j :: 0 <= j < pos ==> !p(s[j])
  {
    var first := 0;
    while first != |s|
      invariant 0 <= first <= |s|
      invariant forall j :: 0 <= j < first ==> !p(s[j])
    {
      if p(s[first]) {
        return first;
      }
      first := first + 1;
    }
    return |s|;
  }

  /** `find_if_not`: the first position whose element fails `p`, or `|s|`. */
  method FindIfNot<T>(s: seq<T>, p: T -> bool) returns (pos: nat)
    ensures pos <= |s|
    ensures pos < |s| ==> !p(s[pos])
    ensures forall j :: 0 <= j < pos ==> p(s[j])
  {
    var first := 0;
    while first != |s|
      invariant 0 <= first <= |s|
      invariant forall j :: 0 <= j < first ==> p(s[j])
    {
      if !p(s[first]) {
        return first;
      }
      first := first + 1;
    }
    return |s|;
  }

  /** `find_last`: the last position whose element satisfies `p`, or `|s|`. */
  method FindLast<T>(s: seq<T>, p: T -> bool) returns (res: nat)
    ensures res <= |s|
    ensures res < |s| ==> p(s[res]) && forall j :: res < j < |s| ==> !p(s[j])
    ensures res == |s| ==> forall j :: 0 <= j < |s| ==> !p(s[j])
  {
    res := |s|;
    var first := 0;
    while first != |s|
      invariant 0 <= first <= |s|
      invariant res == |s| || res < first
      invariant res < |s| ==> p(s[res]) && forall j :: res < j < first ==> !p(s[j])
      invariant res == |s| ==> forall j :: 0 <= j < first ==> !p(s[j])
    {
      if p(s[first]) {
        res := first;
      }
      first := first + 1;
    }
  }

  /** `find_not`: the first position whose element differs from `x`, or `|s|`. */
  method FindNot<T(==)>(s: seq<T>, x: T) returns (pos: nat)
    ensures pos <= |s|
    ensures pos < |s| ==> s[pos] != x
    ensures forall j :: 0 <= j < pos ==> s[j] == x
  {
    pos := FindIfNot(s, a => a == x);
  }

  /** `find_backward`: the last position whose element equals `x`, or `|s|` (a forward scan). */
  method FindBackward<T(==)>(s: seq<T>, x: T) returns (pos: nat)
    ensures pos <= |s|
    ensures pos < |s| ==> s[pos] == x && forall j :: pos < j < |s| ==> s[j] != x
    ensures pos == |s| ==> forall j :: 0 <= j < |s| ==> s[j] != x
  {
    pos := FindLast(s, a => a == x);
  }

  // ---------------------------------------------------------------------
  // Quantifiers
  // ---------------------------------------------------------------------

  /** `all_of`: `find_if_not` reaches the end. */
  method AllOf<T>(s: seq<T>, p: T -> bool) returns (b: bool)
    ensures b <==> forall i :: 0 <= i < |s| ==> p(s[i])
    ensures |s| == 0 ==> b
  {
    var pos := FindIfNot(s, p);
    b := pos == |s|;
  }

  /** `none_of`: `find_if` reaches the end. */
  method NoneOf<T>(s: seq<T>, p: T -> bool) returns (b: bool)
    ensures b <==> forall i :: 0 <= i < |s| ==> !p(s[i])
    ensures b <==> Count(s, p) == 0
    ensures |s| == 0 ==> b
  {
    var pos := FindIf(s, p);
    b := pos == |s|;
    CountZero(s, p);
  }

  /** `any_of`: the negation of `none_of`. */
  method AnyOf<T>(s: seq<T>, p: T -> bool) returns (b: bool)
    ensures b <==> exists i :: 0 <= i < |s| && p(s[i])
    ensures b <==> Count(s, p) > 0
    ensures |s| == 0 ==> !b
  {
    var none := NoneOf(s, p);
    b := !none;
  }

  /** `one_of`: exactly one element satisfies `p`; gives up at the second match. */
  method OneOf<T>(s: seq<T>, p: T -> bool) returns (b: bool)
    ensures b <==> Count(s, p) == 1
    ensures b <==> exists k :: 0 <= k < |s| && p(s[k]) && forall j :: 0 <= j < |s| && j != k ==> !p(s[j])
  {
    CountOne(s, p);
    var exist := false;
    var first := 0;
    while first != |s|
      invariant 0 <= first <= |s|
      invariant Count(s[..first], p) <= 1
      invariant exist <==> Count(s[..first], p) == 1
    {
      assert s[..first + 1][..first] == s[..first];
      if p(s[first]) {
        if exist {
          CountPrefix(s, p, first + 1);
          return false;
        }
        exist := true;
      }
      first := first + 1;
    }
    assert s[..first] == s;
    b := exist;
  }

  // ---------------------------------------------------------------------
  // Order and shape
  // ---------------------------------------------------------------------

  /** `base::is_sorted_base`: `comp` holds of every adjacent pair (`first`, `next`). */
  method IsSortedBase<T>(s: seq<T>, comp: (T, T) -> bool) returns (b: bool)
    ensures b <==> AdjacentHold(s, comp)
    ensures |s| <= 1 ==> b
  {
    if |s| == 0 {
      return true;
    }
    var first := 0;
    var next := first + 1;
    while next != |s|
      invariant 1 <= next <= |s| && first == next - 1
      invariant forall i :: 0 <= i < first ==> comp(s[i], s[i + 1])
    {
      if !comp(s[first], s[next]) {
        return false;
      }
      first, next := next, next + 1;
    }
    return true;
  }

  /** `is_sorted` with the default comparator, which is the strict `<`. */
  method IsSorted(s: seq<int>) returns (b: bool)
    ensures b <==> forall i :: 0 <= i < |s| - 1 ==> s[i] < s[i + 1]
    ensures b ==> forall i, j :: 0 <= i < j < |s| ==> s[i] < s[j]
  {
    b := IsSortedBase(s, (x: int, y: int) => x < y);
    if b {
      forall i, j | 0 <= i < j < |s| ensures s[i] < s[j] {
        AdjacentLessIsStrictlyIncreasing(s, i, j);
      }
    }
  }

  /** `is_sorted` with a caller comparator applied to the two dereferenced elements. */
  method IsSortedBy<T>(s: seq<T>, compare: (T, T) -> bool) returns (b: bool)
    ensures b <==> forall i :: 0 <= i < |s| - 1 ==> compare(s[i], s[i + 1])
  {
    b := IsSortedBase(s, compare);
  }

  /** `is_partitioned`: skip the leading run that satisfies `p`, then reject any later match. */
  method IsPartitioned<T>(s: seq<T>, p: T -> bool) returns (b: bool)
    ensures b <==> Partitioned(s, p)
    ensures b <==> exists k :: SplitsAt(s, p, k)
  {
    PartitionedIffSplits(s, p);
    var first := 0;
    while first != |s|
      invariant 0 <= first <= |s|
      invariant forall j :: 0 <= j < first ==> p(s[j])
    {
      if !p(s[first]) {
        break;
      }
      first := first + 1;
    }
    var split := first;
    while first != |s|
      invariant split <= first <= |s|
      invariant forall j :: split <= j < first ==> !p(s[j])
    {
      if p(s[first]) {
        assert !p(s[split]);
        return false;
      }
      first := first + 1;
    }
    assert SplitsAt(s, p, split);
    return true;
  }

  // ---------------------------------------------------------------------
  // Palindromes
  // ---------------------------------------------------------------------

  /** How the walk of `is_palindrome` as written ends. */
  datatype Walk = Returned(result: bool) | OutOfRange

  /**
   * `is_palindrome` as written: the two positions move inward while
   * `first != prev`. They meet only for odd lengths; for an even length with
   * no mismatch they cross, and the walk steps `prev` before the beginning
   * and dereferences `first` at the end, which is reported as `OutOfRange`.
   */
  method IsPalindromeAsWritten<T>(s: seq<T>, p: (T, T) -> bool) returns (w: Walk)
    ensures |s| == 0 || |s| % 2 == 1 ==> w == Returned(Mirrored(s, p))
    ensures |s| > 0 && |s| % 2 == 0 ==> (w == OutOfRange <==> FullSweep(s, p))
    ensures |s| > 0 && |s| % 2 == 0 && w != OutOfRange ==> w == Returned(false)
  {
    if |s| == 0 {
      return Returned(true);
    }
    var first: int := 0;
    var prev: int := |s| - 1;
    while first != prev
      invariant 0 <= first <= |s| && first + prev == |s| - 1
      invariant forall i :: 0 <= i < first ==> p(s[i], s[|s| - 1 - i])
      invariant |s| % 2 == 1 ==> first <= |s| / 2
      decreases |s| - first
    {
      if first == |s| {
        assert |s| % 2 == 0;
        return OutOfRange;
      }
      if !p(s[first], s[prev]) {
        return Returned(false);
      }
      first, prev := first + 1, prev - 1;
    }
    assert |s| % 2 == 1 && first == |s| / 2;
    return Returned(true);
  }

  /** `is_palindrome` corrected to stop once the two positions meet or cross. */
  method IsPalindrome<T>(s: seq<T>, p: (T, T) -> bool) returns (b: bool)
    ensures b <==> Mirrored(s, p)
    ensures |s| <= 1 ==> b
  {
    if |s| == 0 {
      return true;
    }
    var first: int := 0;
    var prev: int := |s| - 1;
    while first < prev
      invariant 0 <= first <= |s| / 2 && first + prev == |s| - 1
      invariant forall i :: 0 <= i < first ==> p(s[i], s[|s| - 1 - i])
    {
      if !p(s[first], s[prev]) {
        return false;
      }
      first, prev := first + 1, prev - 1;
    }
    return true;
  }

  /**
   * `is_palindrome` with the default predicate `==`, built on the walk as
   * written: like it, an even-length range with no mismatch leaves the range.
   */
  method IsPalindromeEq<T(==)>(s: seq<T>) returns (w: Walk)
    ensures |s| == 0 || |s| % 2 == 1 ==>
              w == Returned(forall i :: 0 <= i < |s| / 2 ==> s[i] == s[|s| - 1 - i])
    ensures |s| > 0 && |s| % 2 == 0 ==> (w == OutOfRange <==> forall i :: 0 <= i < |s| ==> s[i] == s[|s| - 1 - i])
    ensures |s| > 0 && |s| % 2 == 0 && w != OutOfRange ==> w == Returned(false)
  {
    w := IsPalindromeAsWritten(s, (x: T, y: T) => x == y);
  }

  /** The even-length palindrome `[1, 2, 2, 1]` sends the walk as written out of the range. */
  lemma EvenPalindromeRunsOff()
    ensures FullSweep([1, 2, 2, 1], (x: int, y: int) => x == y)
  {
  }

  /**
   * The parity predicate of the tests accepts `[1, 2, 3, 4, 5]` and
   * `[1, 2, 3, 2, 1]`; equality accepts only the second.
   */
  lemma PalindromeExamples()
    ensures Mirrored([1, 2, 3, 4, 5], (x: int, y: int) => x % 2 == y % 2)
    ensures !Mirrored([1, 2, 3, 4, 5], (x: int, y: int) => x == y)
    ensures Mirrored([1, 2, 3, 2, 1], (x: int, y: int) => x == y)
    ensures Mirrored([1, 2, 3, 2, 1], (x: int, y: int) => x % 2 == y % 2)
  {
    var a := [1, 2, 3, 4, 5];
    assert a[0] != a[4];
  }
}
