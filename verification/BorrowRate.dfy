/** The three-segment borrow rate curve. */
module BorrowRate {
  import opened FixedPoint
  import opened ReserveConfig
  import Arith

  /** The rate `above` into a segment of width `span` that rises by `range` from
      `low`. Every error is the same, so their order does not matter. */
  function Rise(above: Rate, span: Rate, range: Rate, low: Rate): Result<Rate> {
    var weight :- RateDiv(above, span);
    var part :- RateMul(weight, range);
    RateAdd(part, low)
  }

  /** The same with a 192-bit product, for the steep last segment. */
  function WideRise(above: Rate, span: Rate, range: Rate, low: Rate): Result<Rate> {
    var weight :- RateDiv(above, span);
    var part :- TryMul(weight, range);
    var rate :- TryAdd(part, low);
    ToRate(rate)
  }

  /** `current_borrow_rate` at a given utilization. */
  function RateAt(c: Config, utilization: Rate): Result<Rate> {
    var optimalUtilization := PercentRate(c.optimalUtilizationRate);
    var maxUtilization := PercentRate(c.maxUtilizationRate);
    if utilization <= optimalUtilization then
      var minRate := PercentRate(c.minBorrowRate);
      if optimalUtilization == 0 then Ok(minRate)
      else if c.optimalBorrowRate < c.minBorrowRate then Err(MathOverflow)
      else Rise(utilization, optimalUtilization, PercentRate(c.optimalBorrowRate - c.minBorrowRate), minRate)
    else if utilization <= maxUtilization then
      var above :- RateSub(utilization, optimalUtilization);
      var span :- RateSub(maxUtilization, optimalUtilization);
      var optimalRate := PercentRate(c.optimalBorrowRate);
      var range :- RateSub(PercentRate(c.maxBorrowRate), optimalRate);
      Rise(above, span, range, optimalRate)
    else
      var above :- RateSub(utilization, maxUtilization);
      if c.maxUtilizationRate > 100 then Err(MathOverflow) else
      var maxRate := PercentRate(c.maxBorrowRate);
      var range :- RateSub(c.superMaxBorrowRate * PERCENT_SCALER, maxRate);
      WideRise(above, PercentRate(100 - c.maxUtilizationRate), range, maxRate)
  }

  // ---- one segment ----

  /** The share `x / span` of `range`, with both truncations of the code. */
  function Share(x: nat, span: nat, range: nat): nat
    requires span > 0
  {
    Floor(Floor(x * WAD, span) * range, WAD)
  }

  lemma ShareMonotone(x: nat, y: nat, span: nat, range: nat)
    requires x <= y && span > 0
    ensures Share(x, span, range) <= Share(y, span, range)
  {
    hide Floor;
    Arith.MulMono(x, y, WAD);
    FloorOrdered(x * WAD, y * WAD, span);
    Arith.MulMono(Floor(x * WAD, span), Floor(y * WAD, span), range);
    FloorOrdered(Floor(x * WAD, span) * range, Floor(y * WAD, span) * range, WAD);
  }

  lemma FullShare(span: nat, range: nat)
    requires span > 0
    ensures Floor(span * WAD, span) == WAD && Share(span, span, range) == range
  {
    hide Floor;
    FloorOfMultiple(WAD, span);
    FloorOfMultiple(range, WAD);
  }

  /** Inside a segment nothing leaves 128 bits. */
  lemma ShareFits(x: nat, span: nat, range: nat)
    requires x <= span <= WAD && span > 0 && range < U64_LIMIT * PERCENT_SCALER
    ensures x * WAD < U128_LIMIT && Floor(x * WAD, span) <= WAD
    ensures Floor(x * WAD, span) * range < U192_LIMIT
    ensures range < U8_LIMIT * PERCENT_SCALER ==> Floor(x * WAD, span) * range < U128_LIMIT
    ensures Share(x, span, range) <= range
  {
    hide Floor;
    Arith.MulMono(x, WAD, WAD);
    Arith.MulMono(x, span, WAD);
    FloorOrdered(x * WAD, span * WAD, span);
    FullShare(span, range);
    ShareMonotone(x, span, span, range);
    Arith.MulMono(Floor(x * WAD, span), WAD, range);
  }

  // ---- the curve ----

  /** The rate at the low end of the segment `utilization` falls in. */
  function SegmentLow(c: Config, utilization: Rate): nat {
    PERCENT_SCALER *
    if utilization <= PercentRate(c.optimalUtilizationRate) then c.minBorrowRate
    else if utilization <= PercentRate(c.maxUtilizationRate) then c.optimalBorrowRate
    else c.maxBorrowRate
  }

  /** The rate at the high end of the segment `utilization` falls in. */
  function SegmentHigh(c: Config, utilization: Rate): nat {
    PERCENT_SCALER *
    if utilization <= PercentRate(c.optimalUtilizationRate) then c.optimalBorrowRate
    else if utilization <= PercentRate(c.maxUtilizationRate) then c.maxBorrowRate
    else c.superMaxBorrowRate
  }

  /** How far into its segment `utilization` is, in percent bounds `from..to`. */
  function SegmentFrom(c: Config, utilization: Rate): nat {
    PERCENT_SCALER *
    if utilization <= PercentRate(c.optimalUtilizationRate) then 0
    else if utilization <= PercentRate(c.maxUtilizationRate) then c.optimalUtilizationRate
    else c.maxUtilizationRate
  }

  function SegmentTo(c: Config, utilization: Rate): nat {
    PERCENT_SCALER *
    if utilization <= PercentRate(c.optimalUtilizationRate) then c.optimalUtilizationRate
    else if utilization <= PercentRate(c.maxUtilizationRate) then c.maxUtilizationRate
    else 100
  }

  /** The formula all three segments share. */
  function Interpolated(c: Config, u: Rate): nat
    requires SegmentFrom(c, u) <= u && SegmentLow(c, u) <= SegmentHigh(c, u)
    requires SegmentTo(c, u) == 0 || SegmentFrom(c, u) < SegmentTo(c, u)
  {
    SegmentLow(c, u)
    + if SegmentTo(c, u) == 0 then 0
      else Share(u - SegmentFrom(c, u), SegmentTo(c, u) - SegmentFrom(c, u), SegmentHigh(c, u) - SegmentLow(c, u))
  }

  lemma SegmentsInOrder(c: Config, u: Rate)
    requires Valid(c) && u <= WAD
    ensures SegmentFrom(c, u) <= u <= SegmentTo(c, u) <= WAD && SegmentLow(c, u) <= SegmentHigh(c, u)
    ensures SegmentTo(c, u) == 0 || SegmentFrom(c, u) < SegmentTo(c, u)
  {
  }

  lemma RiseIs(above: Rate, span: Rate, range: Rate, low: Rate)
    requires above <= span <= WAD && span > 0 && range < U64_LIMIT * PERCENT_SCALER && low < U8_LIMIT * PERCENT_SCALER
    ensures WideRise(above, span, range, low) == Ok(low + Share(above, span, range))
    ensures range < U8_LIMIT * PERCENT_SCALER ==> Rise(above, span, range, low) == Ok(low + Share(above, span, range))
  {
    ShareFits(above, span, range);
    hide Floor;
  }

  lemma FirstSegment(c: Config, u: Rate)
    requires Valid(c) && u <= PercentRate(c.optimalUtilizationRate) <= WAD
    ensures RateAt(c, u) == Ok(Interpolated(c, u))
  {
    hide Share, Rise, WideRise;
    if c.optimalUtilizationRate > 0 {
      RiseIs(u, PercentRate(c.optimalUtilizationRate), PercentRate(c.optimalBorrowRate - c.minBorrowRate),
        PercentRate(c.minBorrowRate));
    }
  }

  lemma MiddleSegment(c: Config, u: Rate)
    requires Valid(c) && PercentRate(c.optimalUtilizationRate) < u <= PercentRate(c.maxUtilizationRate) <= WAD
    ensures RateAt(c, u) == Ok(Interpolated(c, u))
  {
    hide Share, Rise, WideRise;
    RiseIs(u - PercentRate(c.optimalUtilizationRate),
      PercentRate(c.maxUtilizationRate) - PercentRate(c.optimalUtilizationRate),
      PercentRate(c.maxBorrowRate) - PercentRate(c.optimalBorrowRate), PercentRate(c.optimalBorrowRate));
  }

  lemma LastSegment(c: Config, u: Rate)
    requires Valid(c) && PercentRate(c.optimalUtilizationRate) < u && PercentRate(c.maxUtilizationRate) < u <= WAD
    ensures RateAt(c, u) == Ok(Interpolated(c, u))
  {
    hide Share, Rise, WideRise;
    RiseIs(u - PercentRate(c.maxUtilizationRate), PercentRate(100 - c.maxUtilizationRate),
      c.superMaxBorrowRate * PERCENT_SCALER - PercentRate(c.maxBorrowRate), PercentRate(c.maxBorrowRate));
  }

  /** The three branches of the code are one formula over the segment. */
  lemma RateIsInterpolated(c: Config, u: Rate)
    requires Valid(c) && u <= WAD
    ensures SegmentFrom(c, u) <= u <= SegmentTo(c, u) <= WAD && SegmentLow(c, u) <= SegmentHigh(c, u)
    ensures SegmentTo(c, u) == 0 || SegmentFrom(c, u) < SegmentTo(c, u)
    ensures RateAt(c, u) == Ok(Interpolated(c, u))
  {
    SegmentsInOrder(c, u);
    hide RateAt, Interpolated, SegmentFrom, SegmentTo, SegmentLow, SegmentHigh;
    if u <= PercentRate(c.optimalUtilizationRate) {
      FirstSegment(c, u);
    } else if u <= PercentRate(c.maxUtilizationRate) {
      MiddleSegment(c, u);
    } else {
      LastSegment(c, u);
    }
  }

  /** A validated configuration gives a rate at every utilization up to one, and
      the rate stays between the rates at the two ends of its segment. */
  lemma RateInSegment(c: Config, u: Rate)
    requires Valid(c) && u <= WAD
    ensures RateAt(c, u).Ok?
    ensures SegmentLow(c, u) <= RateAt(c, u).value <= SegmentHigh(c, u)
    ensures PercentRate(c.minBorrowRate) <= RateAt(c, u).value <= c.superMaxBorrowRate * PERCENT_SCALER
  {
    hide Floor, RateAt, Share;
    RateIsInterpolated(c, u);
    var from, to := SegmentFrom(c, u), SegmentTo(c, u);
    if to > 0 {
      ShareFits(u - from, to - from, SegmentHigh(c, u) - SegmentLow(c, u));
    }
  }

  /** The curve never falls as utilization rises, also across both kinks. */
  lemma RateMonotone(c: Config, u: Rate, v: Rate)
    requires Valid(c) && u <= v <= WAD
    ensures RateAt(c, u).Ok? && RateAt(c, v).Ok? && RateAt(c, u).value <= RateAt(c, v).value
  {
    hide Floor, RateAt, Share;
    RateInSegment(c, u);
    RateInSegment(c, v);
    if SegmentTo(c, u) == SegmentTo(c, v) && SegmentFrom(c, u) == SegmentFrom(c, v) && SegmentTo(c, u) > 0 {
      RateIsInterpolated(c, u);
      RateIsInterpolated(c, v);
      ShareMonotone(u - SegmentFrom(c, u), v - SegmentFrom(c, u), SegmentTo(c, u) - SegmentFrom(c, u),
        SegmentHigh(c, u) - SegmentLow(c, u));
    }
  }

  /** The curve passes exactly through the configured rates at the end of each
      segment that is not empty. */
  lemma RateAtSegmentEnd(c: Config, u: Rate)
    requires Valid(c) && 0 < u <= WAD && u == SegmentTo(c, u)
    ensures RateAt(c, u) == Ok(SegmentHigh(c, u))
  {
    hide Floor, RateAt;
    RateIsInterpolated(c, u);
    FullShare(SegmentTo(c, u) - SegmentFrom(c, u), SegmentHigh(c, u) - SegmentLow(c, u));
  }
}
