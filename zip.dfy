/// `zip`: a lazy view pairing two read-only sequences element by element,
/// which stops at the shorter of the two.
module Zipping {

  function Min(a: int, b: int): (m: int)
  {
    if a <= b then a else b
  }

  /** Reference definition: pair the heads, then zip the tails, until either runs out. */
  function Zipped<A, B>(first: seq<A>, second: seq<B>): (r: seq<(A, B)>)
  {
    if |first| == 0 || |second| == 0 then []
    else [(first[0], second[0])] + Zipped(first[1..], second[1..])
  }

  /** The zipped sequence has `min(|first|, |second|)` pairs, the `i`-th being `(first[i], second[i])`. */
  lemma {:induction false} ZippedPairs<A, B>(first: seq<A>, second: seq<B>)
    ensures |Zipped(first, second)| == Min(|first|, |second|)
    ensures forall i :: 0 <= i < |Zipped(first, second)| ==> Zipped(first, second)[i] == (first[i], second[i])
  {
    if |first| > 0 && |second| > 0 {
      ZippedPairs(first[1..], second[1..]);
    }
  }

  /** The iterator: one cursor into each sequence. */
  class ZipIterator<A, B> {
    const first: seq<A>
    const second: seq<B>
    var it1: nat
    var it2: nat

    /** Cursors stay within their sequences (the end position included). */
    ghost predicate Valid()
      reads this
    {
      it1 <= |first| && it2 <= |second|
    }

    /** The pairs still to be yielded from the two cursors onwards. */
    ghost function Remaining(): (r: seq<(A, B)>)
      reads this
      requires Valid()
    {
      Zipped(first[it1..], second[it2..])
    }

    constructor (first: seq<A>, second: seq<B>, it1: nat, it2: nat)
      requires it1 <= |first| && it2 <= |second|
      ensures Valid()
      ensures this.first == first && this.second == second
      ensures this.it1 == it1 && this.it2 == it2
    {
      this.first := first;
      this.second := second;
      this.it1 := it1;
      this.it2 := it2;
    }

    /**
     * `operator==`: equal as soon as either pair of cursors coincides. So an
     * iterator that has advanced in lockstep from `begin()` equals `end()`
     * exactly when it has reached the end of the shorter sequence; in
     * general, a valid iterator equals `end()` exactly when no pair is left.
     */
    predicate Equals(other: ZipIterator<A, B>)
      reads this, other
      ensures Valid() && other.it1 == |first| && other.it2 == |second| ==>
                (Equals(other) <==> Remaining() == [])
      ensures it1 == it2 <= Min(|first|, |second|) && other.it1 == |first| && other.it2 == |second| ==>
                (Equals(other) <==> it1 == Min(|first|, |second|))
    {
      it1 == other.it1 || it2 == other.it2
    }

    /** `operator*` yields the next pair still to be yielded. */
    function Deref(): (r: (A, B))
      reads this
      requires it1 < |first| && it2 < |second|
      ensures Valid() && Remaining() != [] && r == Remaining()[0]
    {
      (first[it1], second[it2])
    }

    /** `operator++` advances both cursors by one. */
    method Increment()
      requires it1 < |first| && it2 < |second|
      modifies this
      ensures it1 == old(it1) + 1 && it2 == old(it2) + 1
      ensures Valid()
      ensures Remaining() == old(Remaining())[1..]
    {
      assert first[it1..][1..] == first[it1 + 1..];
      assert second[it2..][1..] == second[it2 + 1..];
      it1 := it1 + 1;
      it2 := it2 + 1;
    }

    /** Post-increment: a copy of the iterator before it advanced. */
    method PostIncrement() returns (res: ZipIterator<A, B>)
      requires it1 < |first| && it2 < |second|
      modifies this
      ensures fresh(res)
      ensures res.first == first && res.second == second
      ensures res.it1 == old(it1) && res.it2 == old(it2)
      ensures it1 == old(it1) + 1 && it2 == old(it2) + 1
      ensures res.Valid() && res.Remaining() == old(Remaining())
      ensures Remaining() == old(Remaining())[1..]
    {
      res := new ZipIterator(first, second, it1, it2);
      Increment();
    }
  }

  /** `zip`: a view of two sequences; it owns neither and changes neither. */
  class Zip<A, B> {
    const first: seq<A>
    const second: seq<B>

    constructor (first: seq<A>, second: seq<B>)
      ensures this.first == first && this.second == second
    {
      this.first := first;
      this.second := second;
    }

    /** `begin()`: both cursors at the start. */
    method Begin() returns (it: ZipIterator<A, B>)
      ensures fresh(it) && it.Valid()
      ensures it.first == first && it.second == second
      ensures it.it1 == 0 && it.it2 == 0
    {
      it := new ZipIterator(first, second, 0, 0);
    }

    /** `end()`: both cursors at the end. */
    method End() returns (it: ZipIterator<A, B>)
      ensures fresh(it) && it.Valid()
      ensures it.first == first && it.second == second
      ensures it.it1 == |first| && it.it2 == |second|
    {
      it := new ZipIterator(first, second, |first|, |second|);
    }
  }

  /**
   * A range-based `for` over a `zip`: take `begin()` and `end()`, then
   * yield `*it` and advance while `it != end`. The pairs collected are the
   * zipped sequence: `min(|A|, |B|)` pairs `(A[i], B[i])`, in order.
   */
  method Collect<A, B>(z: Zip<A, B>) returns (pairs: seq<(A, B)>)
    ensures pairs == Zipped(z.first, z.second)
    ensures |pairs| == Min(|z.first|, |z.second|)
    ensures forall i :: 0 <= i < |pairs| ==> pairs[i] == (z.first[i], z.second[i])
  {
    var it := z.Begin();
    var stop := z.End();
    pairs := [];
    assert z.first[0..] == z.first && z.second[0..] == z.second;
    while !it.Equals(stop)
      invariant it.first == z.first && it.second == z.second
      invariant stop.it1 == |z.first| && stop.it2 == |z.second|
      invariant it.it1 == |pairs| && it.it2 == |pairs| && |pairs| <= Min(|z.first|, |z.second|)
      invariant it.Valid() && pairs + it.Remaining() == Zipped(z.first, z.second)
      decreases Min(|z.first|, |z.second|) - |pairs|
    {
      var x := it.Deref();
      it.Increment();
      pairs := pairs + [x];
    }
    ZippedPairs(z.first, z.second);
  }

  /** `zip({1, 2, 3, 4}, {5, 6, 7})` stops after three pairs. */
  lemma ShorterSecondExample()
    ensures Zipped([1, 2, 3, 4], [5, 6, 7]) == [(1, 5), (2, 6), (3, 7)]
  {
  }
}
