/** The sliding-window rate collector of util.py: a bounded FIFO of the most
    recent samples with a running sum, whose estimate is scaled up to the
    full window while the window is still filling. */
module Util {
  import opened Common

  /** The sum of a sequence, taken from the front. */
  function Sum(s: seq<int>): int
  {
    if s == [] then 0 else s[0] + Sum(s[1..])
  }

  lemma {:induction false} SumAppend(s: seq<int>, x: int)
    ensures Sum(s + [x]) == Sum(s) + x
  {
    if s != [] {
      assert (s + [x])[1..] == s[1..] + [x];
      SumAppend(s[1..], x);
    }
  }

  /** How many of `n` recorded values a window of capacity `points` keeps. */
  function Kept(n: nat, points: int): nat
  {
    Min(n, Max(points, 0))
  }

  /** The values a window of capacity `points` holds after recording `history`:
      the last `Kept(|history|, points)` of them, in arrival order. */
  function Window(history: seq<int>, points: int): (w: seq<int>)
  {
    history[|history| - Kept(|history|, points)..]
  }

  /** Recording one more value: the new window is the old window followed by
      the value, with the oldest values dropped down to the capacity. */
  lemma {:induction false} WindowAppend(history: seq<int>, points: int, x: int)
    ensures var ext := Window(history, points) + [x];
            Window(history + [x], points) == ext[|ext| - Kept(|history| + 1, points)..]
  {
    var h' := history + [x];
    var k := Kept(|history|, points);
    var k' := Kept(|h'|, points);
    var ext := Window(history, points) + [x];
    assert k' <= k + 1;
    assert |ext| == k + 1;
    forall i | 0 <= i < k'
      ensures Window(h', points)[i] == ext[|ext| - k'..][i]
    {
      if i == k' - 1 {
      } else {
        assert h'[|h'| - k' + i] == history[|history| - k + (k + 1 - k' + i)];
      }
    }
  }

  /** A full window of capacity `points` holds exactly `points` values. */
  lemma {:induction false} WindowFull(history: seq<int>, points: int)
    requires 1 <= points <= |history|
    ensures |Window(history, points)| == points
    ensures Window(history, points) == history[|history| - points..]
  {
  }

  /** The result of `record`: the scaled-up rate, or the raw triple
      `(cum_sum, len(buckets), points)`. */
  datatype Estimate = Scaled(rate: real) | Raw(sum: int, count: nat, points: int)

  /** `(cum_sum * points) / len(buckets)`, with exact division. */
  function ScaleUp(sum: int, points: int, count: nat): (r: real)
    requires count > 0
    ensures count == points ==> r == sum as real
    ensures sum >= 0 && points >= count ==> r >= sum as real
  {
    (sum * points) as real / count as real
  }

  class Collector {
    var points: int
    var buckets: seq<int>
    var cumSum: int
    /** Every value recorded so far. */
    ghost var history: seq<int>

    ghost predicate Valid()
      reads this
    {
      cumSum == Sum(buckets) && buckets == Window(history, points)
    }

    constructor (points: int)
      ensures Valid()
      ensures this.points == points && buckets == [] && cumSum == 0 && history == []
    {
      this.points := points;
      buckets := [];
      cumSum := 0;
      history := [];
    }

    /** Append `value`, evict from the front while over capacity, and return
        the scaled estimate or the raw triple. A negative capacity makes the
        eviction loop pop from the emptied deque, which raises. */
    method Record(value: int, scaleUp: bool) returns (r: Result<Estimate>)
      requires Valid()
      modifies this
      ensures Valid()
      ensures points == old(points) && history == old(history) + [value]
      ensures buckets == Window(history, points) && cumSum == Sum(buckets)
      ensures |buckets| == Kept(|history|, points)
      ensures points < 0 ==> r == Err(EmptyDeque)
      ensures points >= 0 && scaleUp && buckets == [] ==> r == Err(DivisionByZero)
      ensures points >= 0 && scaleUp && buckets != [] ==> r == Ok(Scaled(ScaleUp(cumSum, points, |buckets|)))
      ensures points >= 0 && !scaleUp ==> r == Ok(Raw(cumSum, |buckets|, points))
    {
      SumAppend(buckets, value);
      WindowAppend(history, points, value);
      ghost var ext := buckets + [value];
      ghost var kept := Kept(|history| + 1, points);
      cumSum := cumSum + value;
      buckets := buckets + [value];
      history := history + [value];
      while |buckets| > points
        invariant points == old(points) && history == old(history) + [value]
        invariant cumSum == Sum(buckets)
        invariant |buckets| <= |ext| && buckets == ext[|ext| - |buckets|..]
        invariant |buckets| >= kept
        decreases |buckets|
      {
        if buckets == [] {
          return Err(EmptyDeque);
        }
        assert buckets[1..] == ext[|ext| - |buckets| + 1..];
        cumSum := cumSum - buckets[0];
        buckets := buckets[1..];
      }
      assert |buckets| == kept;
      if !scaleUp {
        r := Ok(Raw(cumSum, |buckets|, points));
      } else if buckets == [] {
        r := Err(DivisionByZero);
      } else {
        r := Ok(Scaled(ScaleUp(cumSum, points, |buckets|)));
      }
    }
  }
}
