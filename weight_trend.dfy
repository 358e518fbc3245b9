/**
 * `determineWeightTrend`: whether a weight went up, went down or stayed
 * within a threshold of the previous one. Weights are JavaScript numbers,
 * modelled as reals.
 */
module WeightTrend {
  datatype Trend = Up | Down | Stable

  const DefaultThreshold: real := 0.5

  function Abs(x: real): (r: real)
    ensures r >= 0.0 && (r == x || r == -x)
  {
    if x < 0.0 then -x else x
  }

  /** The trend from `previous` to `current`; a change smaller than `threshold` is no trend. */
  function DetermineWeightTrend(current: real, previous: real, threshold: real): (t: Trend)
    ensures t == Stable <==> Abs(current - previous) < threshold
    ensures t == Up <==> Abs(current - previous) >= threshold && current > previous
    ensures t == Down <==> Abs(current - previous) >= threshold && current <= previous
  {
    var change := current - previous;
    if Abs(change) < threshold then Stable
    else if change > 0.0 then Up
    else Down
  }

  /** The call with the threshold argument left out. */
  function DetermineWeightTrendDefault(current: real, previous: real): Trend {
    DetermineWeightTrend(current, previous, DefaultThreshold)
  }

  /** The trend seen from the other end. */
  function Mirror(t: Trend): Trend {
    match t
    case Up => Down
    case Down => Up
    case Stable => Stable
  }

  /** Under the default threshold a change of less than half a kilogram either way is stable. */
  lemma DefaultIsHalfKilogram(current: real, previous: real)
    ensures DetermineWeightTrendDefault(current, previous) == Stable <==> -0.5 < current - previous < 0.5
  {
  }

  /** Equal weights are stable under any positive threshold, but `'down'` under a threshold of 0 or less. */
  lemma EqualWeights(w: real, threshold: real)
    ensures threshold > 0.0 ==> DetermineWeightTrend(w, w, threshold) == Stable
    ensures threshold <= 0.0 ==> DetermineWeightTrend(w, w, threshold) == Down
  {
  }

  /**
   * Swapping the two weights swaps up and down and keeps stable, except for
   * equal weights under a non-positive threshold.
   */
  lemma SwapMirrors(current: real, previous: real, threshold: real)
    requires current != previous || threshold > 0.0
    ensures DetermineWeightTrend(previous, current, threshold) == Mirror(DetermineWeightTrend(current, previous, threshold))
  {
    assert Abs(previous - current) == Abs(current - previous);
  }

  /** Without the side condition the swap property fails: equal weights are `'down'` both ways. */
  lemma SwapFailsAtZeroThreshold()
    ensures DetermineWeightTrend(70.0, 70.0, 0.0) == Down
    ensures Mirror(DetermineWeightTrend(70.0, 70.0, 0.0)) == Up
  {
  }

  /** Moving the current weight up never moves the trend down: `Down < Stable < Up` is kept. */
  lemma TrendMonotoneInCurrent(c1: real, c2: real, previous: real, threshold: real)
    requires c1 <= c2
    ensures Rank(DetermineWeightTrend(c1, previous, threshold)) <= Rank(DetermineWeightTrend(c2, previous, threshold))
  {
  }

  function Rank(t: Trend): int {
    match t
    case Down => 0
    case Stable => 1
    case Up => 2
  }
}
