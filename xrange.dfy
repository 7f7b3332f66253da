/// `xrange`: a lazy arithmetic progression from `start` towards `end` by
/// `step`, over unbounded integers, and the iterator that walks it.
module Ranges {

  /** The one run-time failure of the component. */
  datatype Error = ZeroStep

  datatype Result<T> = Ok(value: T) | Err(error: Error)

  /** `IsBordersOk`: `value` is strictly inside the bound in the direction of `step`. */
  predicate InBounds(value: int, endValue: int, step: int)
  {
    if step > 0 then value < endValue else value > endValue
  }

  /** The `k`-th term of the progression. */
  function Term(start: int, step: int, k: int): (t: int)
  {
    start + k * step
  }

  /** The distance still to cover; it shrinks with every in-bound step. */
  function Distance(value: int, endValue: int, step: int): (d: int)
  {
    if step > 0 then endValue - value else value - endValue
  }

  /** The values yielded from `start`: each in-bound term, in order, until the first that is not. */
  ghost function Progression(start: int, endValue: int, step: int): (r: seq<int>)
    requires step != 0
    decreases Distance(start, endValue, step)
  {
    if InBounds(start, endValue, step) then [start] + Progression(start + step, endValue, step)
    else []
  }

  /** The value the constructor starts from: a start already past the end is moved onto it. */
  function Clamp(value: int, endValue: int, step: int): (v: int)
  {
    if (step < 0 && value < endValue) || (step > 0 && value > endValue) then endValue else value
  }

  /**
   * The progression is exactly the in-bound terms `start + k * step` for
   * `k = 0, 1, ...`: every term it holds is in bounds, the next term is not,
   * and no later term is in bounds either.
   */
  lemma {:induction false} ProgressionTerms(start: int, endValue: int, step: int)
    requires step != 0
    ensures var r := Progression(start, endValue, step);
      && (forall k :: 0 <= k < |r| ==> r[k] == Term(start, step, k) && InBounds(r[k], endValue, step))
      && (forall k :: |r| <= k ==> !InBounds(Term(start, step, k), endValue, step))
    decreases Distance(start, endValue, step)
  {
    var r := Progression(start, endValue, step);
    if InBounds(start, endValue, step) {
      var tail := Progression(start + step, endValue, step);
      ProgressionTerms(start + step, endValue, step);
      assert r == [start] + tail;
      forall k | 0 <= k < |r| ensures r[k] == Term(start, step, k) {
        if k > 0 {
          assert r[k] == tail[k - 1] == Term(start + step, step, k - 1);
        }
      }
      forall k | |r| <= k ensures !InBounds(Term(start, step, k), endValue, step) {
        assert Term(start, step, k) == Term(start + step, step, k - 1);
      }
    }
  }

  /** Clamping does not change which values are yielded. */
  lemma ClampKeepsProgression(start: int, endValue: int, step: int)
    requires step != 0
    ensures Progression(Clamp(start, endValue, step), endValue, step) == Progression(start, endValue, step)
  {
  }

  /** The iterator: `value` changes as it advances, `endValue` and `step` are fixed. */
  class XRangeIterator {
    var value: int
    const endValue: int
    const step: int

    /** The value is either on the end or strictly inside the bound. */
    ghost predicate Valid()
      reads this
    {
      step != 0 && (value == endValue || InBounds(value, endValue, step))
    }

    /** The values still to be yielded. */
    ghost function Remaining(): (r: seq<int>)
      reads this
      requires step != 0
    {
      Progression(value, endValue, step)
    }

    /** The constructor for a non-zero step; `Create` is the one that can fail. */
    constructor (value: int, endValue: int, step: int)
      requires step != 0
      ensures Valid()
      ensures this.value == Clamp(value, endValue, step)
      ensures this.endValue == endValue && this.step == step
    {
      this.endValue := endValue;
      this.step := step;
      this.value := value;
      new;
      if (step < 0 && this.value < endValue) || (step > 0 && this.value > endValue) {
        this.value := endValue;
      }
    }

    /** Construction, which rejects a zero step and clamps a start already past the end. */
    static method Create(value: int, endValue: int, step: int) returns (r: Result<XRangeIterator>)
      ensures r.Err? <==> step == 0
      ensures r.Err? ==> r.error == ZeroStep
      ensures r.Ok? ==> fresh(r.value) && r.value.Valid()
      ensures r.Ok? ==> r.value.value == Clamp(value, endValue, step)
      ensures r.Ok? ==> r.value.endValue == endValue && r.value.step == step
      ensures r.Ok? ==> r.value.Remaining() == Progression(value, endValue, step)
    {
      if step == 0 {
        return Err(ZeroStep);
      }
      var it := new XRangeIterator(value, endValue, step);
      ClampKeepsProgression(value, endValue, step);
      return Ok(it);
    }

    /**
     * `operator==` compares the current values only; against an iterator on
     * the end value (what `end()` returns) it is therefore true exactly when
     * nothing is left to yield.
     */
    predicate Equals(other: XRangeIterator)
      reads this, other
      ensures Valid() && other.value == endValue ==> (Equals(other) <==> Remaining() == [])
    {
      value == other.value
    }

    /** `IsBordersOk`: there is another value to yield exactly when the value is in bounds. */
    predicate IsBordersOk()
      reads this
      requires step != 0
      ensures IsBordersOk() <==> Remaining() != []
    {
      InBounds(value, endValue, step)
    }

    /** `operator*` yields the next value of the progression. */
    function Deref(): (r: int)
      reads this
      ensures Valid() && value != endValue ==> Remaining() != [] && r == Remaining()[0]
    {
      value
    }

    /** `operator++`: add the step, and clamp to the end once out of bounds. */
    method Increment()
      requires Valid()
      modifies this
      ensures Valid()
      ensures value == if InBounds(old(value) + step, endValue, step) then old(value) + step else endValue
      ensures old(value) == endValue ==> value == endValue
      ensures old(Remaining()) != [] ==> Remaining() == old(Remaining())[1..]
    {
      value := value + step;
      if !IsBordersOk() {
        value := endValue;
      }
    }

    /** Post-increment: a copy of the iterator before it advanced. */
    method PostIncrement() returns (res: XRangeIterator)
      requires Valid()
      modifies this
      ensures fresh(res) && res.Valid()
      ensures res.value == old(value) && res.endValue == endValue && res.step == step
      ensures res.Remaining() == old(Remaining())
      ensures Valid()
      ensures value == if InBounds(old(value) + step, endValue, step) then old(value) + step else endValue
      ensures old(Remaining()) != [] ==> Remaining() == old(Remaining())[1..]
    {
      res := new XRangeIterator(value, endValue, step);
      Increment();
    }
  }

  /** `xrange`: a plain holder of the three bounds. */
  class XRange {
    const start: int
    const end: int
    const step: int

    /** `xrange(end)`: from 0 by 1. */
    constructor FromEnd(end: int)
      ensures this.start == 0 && this.end == end && this.step == 1
    {
      this.start := 0;
      this.end := end;
      this.step := 1;
    }

    /** `xrange(start, end)`: by 1. */
    constructor FromBounds(start: int, end: int)
      ensures this.start == start && this.end == end && this.step == 1
    {
      this.start := start;
      this.end := end;
      this.step := 1;
    }

    /** `xrange(start, end, step)`; a zero step is accepted here and rejected by `Begin` and `End`. */
    constructor (start: int, end: int, step: int)
      ensures this.start == start && this.end == end && this.step == step
    {
      this.start := start;
      this.end := end;
      this.step := step;
    }

    /** `begin()`: the iterator at `start`. */
    method Begin() returns (r: Result<XRangeIterator>)
      ensures r.Err? <==> step == 0
      ensures r.Err? ==> r.error == ZeroStep
      ensures r.Ok? ==> fresh(r.value) && r.value.Valid()
      ensures r.Ok? ==> r.value.value == Clamp(start, end, step)
      ensures r.Ok? ==> r.value.endValue == end && r.value.step == step
      ensures r.Ok? ==> r.value.Remaining() == Progression(start, end, step)
    {
      r := XRangeIterator.Create(start, end, step);
    }

    /** `end()`: the iterator at `end`, which has nothing left to yield. */
    method End() returns (r: Result<XRangeIterator>)
      ensures r.Err? <==> step == 0
      ensures r.Err? ==> r.error == ZeroStep
      ensures r.Ok? ==> fresh(r.value) && r.value.Valid()
      ensures r.Ok? ==> r.value.value == end && r.value.endValue == end && r.value.step == step
      ensures r.Ok? ==> r.value.Remaining() == []
    {
      r := XRangeIterator.Create(end, end, step);
    }
  }

  /**
   * A range-based `for` over an `xrange`: take `begin()` and `end()`, then
   * yield `*it` and advance while `it != end`. A zero step fails; otherwise
   * the values collected are exactly the progression.
   */
  method Collect(range: XRange) returns (r: Result<seq<int>>)
    ensures r.Err? <==> range.step == 0
    ensures r.Ok? ==> r.value == Progression(range.start, range.end, range.step)
  {
    var b := range.Begin();
    if b.Err? {
      return Err(b.error);
    }
    // `end()` would fail as well, but `begin()` has already succeeded.
    var e := range.End();
    var it, stop := b.value, e.value;
    var acc := [];
    while !it.Equals(stop)
      invariant it.Valid() && it.endValue == range.end && it.step == range.step
      invariant stop.value == range.end
      invariant acc + it.Remaining() == Progression(range.start, range.end, range.step)
      decreases Distance(it.value, it.endValue, it.step)
    {
      var x := it.Deref();
      it.Increment();
      acc := acc + [x];
    }
    return Ok(acc);
  }

  /** `xrange(5)` yields `[0, 1, 2, 3, 4]` and `xrange(3, 5)` yields `[3, 4]`. */
  lemma DefaultBoundsExamples()
    ensures Progression(0, 5, 1) == [0, 1, 2, 3, 4]
    ensures Progression(3, 5, 1) == [3, 4]
  {
  }

  /** `xrange(1, 6, 2)` yields `[1, 3, 5]` and `xrange(6, 1, -2)` yields `[6, 4, 2]`. */
  lemma StepExamples()
    ensures Progression(1, 6, 2) == [1, 3, 5]
    ensures Progression(6, 1, -2) == [6, 4, 2]
  {
  }

  /** For a positive step, starting at or past the end yields nothing; likewise for a negative step. */
  lemma EmptyWhenPastEnd(start: int, endValue: int, step: int)
    requires (step > 0 && start >= endValue) || (step < 0 && start <= endValue)
    ensures Progression(start, endValue, step) == []
  {
  }
}
