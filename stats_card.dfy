/** The trend indicator of the dashboard's `StatsCard`: the direction and the
    percentage shown next to a value, either passed in or derived from the
    previous value. */
module StatsCard {
  import opened Types
  import opened CurrencyUtils

  datatype Trend = Up | Down | Neutral

  /** `calculatedTrend`: an explicit trend wins; otherwise the direction of
      `value` relative to `previousValue`, and none without a previous value. */
  function CalculatedTrend(trend: Option<Trend>, value: real, previousValue: Option<real>): (r: Option<Trend>)
    ensures trend.Some? ==> r == trend
    ensures trend.None? ==> (r.None? <==> previousValue.None?)
    ensures trend.None? && previousValue.Some? ==>
      (r == Some(Up) <==> value > previousValue.value) &&
      (r == Some(Down) <==> value < previousValue.value) &&
      (r == Some(Neutral) <==> value == previousValue.value)
  {
    if trend.Some? then trend
    else if previousValue.Some? then
      (if value > previousValue.value then Some(Up)
       else if value < previousValue.value then Some(Down)
       else Some(Neutral))
    else None
  }

  /** `calculatedTrendValue`: an explicit value wins; otherwise the change
      relative to the previous value's magnitude, and none when the previous
      value is absent or zero. */
  function CalculatedTrendValue(trendValue: Option<real>, value: real, previousValue: Option<real>): (r: Option<real>)
    ensures trendValue.Some? ==> r == trendValue
    ensures trendValue.None? ==> (r.Some? <==> previousValue.Some? && previousValue.value != 0.0)
  {
    if trendValue.Some? then trendValue
    else if previousValue.Some? && previousValue.value != 0.0 then
      Some((value - previousValue.value) / RealAbs(previousValue.value) * 100.0)
    else None
  }

  /** The indicator is rendered only when both a trend and a trend value exist. */
  predicate ShowsIndicator(trend: Option<Trend>, trendValue: Option<real>, value: real, previousValue: Option<real>)
  {
    CalculatedTrend(trend, value, previousValue).Some?
    && CalculatedTrendValue(trendValue, value, previousValue).Some?
  }

  /** The percentage printed beside the arrow: the trend value's magnitude. */
  function DisplayedMagnitude(trendValue: Option<real>, value: real, previousValue: Option<real>): (m: real)
    requires CalculatedTrendValue(trendValue, value, previousValue).Some?
    ensures m >= 0.0
    ensures m == CalculatedTrendValue(trendValue, value, previousValue).value
         || m == -CalculatedTrendValue(trendValue, value, previousValue).value
  {
    RealAbs(CalculatedTrendValue(trendValue, value, previousValue).value)
  }

  /** The derived trend value is the utility's percentage change from a
      non-zero previous value, and its sign agrees with the derived trend. */
  lemma DerivedTrendAgrees(value: real, prev: real)
    requires prev != 0.0
    ensures CalculatedTrendValue(None, value, Some(prev)) == Some(CalculatePercentChange(prev, value))
    ensures CalculatedTrend(None, value, Some(prev)) == Some(Up)
        <==> CalculatedTrendValue(None, value, Some(prev)).value > 0.0
    ensures CalculatedTrend(None, value, Some(prev)) == Some(Down)
        <==> CalculatedTrendValue(None, value, Some(prev)).value < 0.0
  {
  }

  /** With nothing passed in, a zero previous value hides the indicator even
      when the value moved, while a missing one hides it always. */
  lemma IndicatorHiddenWithoutBase(value: real, previousValue: Option<real>)
    ensures ShowsIndicator(None, None, value, previousValue)
        <==> previousValue.Some? && previousValue.value != 0.0
  {
  }
}
