/** Prices, market values and how much an obligation may borrow. */
module Borrowing {
  import opened FixedPoint
  import opened ReserveConfig
  import ReserveFees
  import Reserve
  import RatePow
  import Arith

  datatype Market = Market(
    mintDecimals: U8,
    marketPrice: Decimal,
    smoothedMarketPrice: Decimal,
    extraMarketPrice: Option<Decimal>)

  predicate IsKnownPrice(m: Market, p: Decimal) {
    p == m.marketPrice || p == m.smoothedMarketPrice || m.extraMarketPrice == Some(p)
  }

  function PriceUpperBound(m: Market): (p: Decimal)
    ensures p >= m.marketPrice && p >= m.smoothedMarketPrice && (m.extraMarketPrice.Some? ==> p >= m.extraMarketPrice.value)
    ensures IsKnownPrice(m, p)
  {
    var price := Max(m.marketPrice, m.smoothedMarketPrice);
    if m.extraMarketPrice.Some? then Max(price, m.extraMarketPrice.value) else price
  }

  function PriceLowerBound(m: Market): (p: Decimal)
    ensures p <= m.marketPrice && p <= m.smoothedMarketPrice && (m.extraMarketPrice.Some? ==> p <= m.extraMarketPrice.value)
    ensures IsKnownPrice(m, p)
  {
    var price := Min(m.marketPrice, m.smoothedMarketPrice);
    if m.extraMarketPrice.Some? then Min(price, m.extraMarketPrice.value) else price
  }

  /** `10^decimals`, checked against a word size. */
  function TokenUnit(m: Market, limit: nat): Result<nat> {
    var unit := RatePow.Pow(10, m.mintDecimals);
    if unit < limit then Ok(unit) else Err(MathOverflow)
  }

  lemma TokenUnitPositive(m: Market)
    ensures RatePow.Pow(10, m.mintDecimals) > 0
  {
    PowPositive(m.mintDecimals);
  }

  lemma {:induction false} PowPositive(n: nat)
    ensures RatePow.Pow(10, n) > 0
  {
    if n > 0 {
      PowPositive(n - 1);
    }
  }

  /** Value of an amount of the smallest token units at a price. */
  function ValueAt(price: Decimal, m: Market, amount: Decimal): Result<Decimal> {
    var product :- TryMul(price, amount);
    var unit :- TokenUnit(m, U128_LIMIT);
    TryDiv(product, unit * WAD)
  }

  function MarketValueUpperBound(m: Market, amount: Decimal): Result<Decimal> {
    ValueAt(PriceUpperBound(m), m, amount)
  }

  function MarketValueLowerBound(m: Market, amount: Decimal): Result<Decimal> {
    ValueAt(PriceLowerBound(m), m, amount)
  }

  /** One plus the added weight; neither sum nor quotient can fail. */
  function BorrowWeight(c: Config): (w: Decimal)
    ensures w >= WAD
  {
    WAD + Floor(FromU64(c.addedBorrowWeightBps), 10_000)
  }

  datatype BorrowResult = BorrowResult(borrowAmount: Decimal, receiveAmount: U64, borrowFee: U64, hostFee: U64)

  /** The most that `maxValue` can borrow, before fees and rounding. */
  function MaxBorrowAmount(c: Config, m: Market, unit: U64, maxValue: Decimal): Result<Decimal> {
    var scaled :- TryMulInt(maxValue, unit);
    var amount :- TryDiv(scaled, PriceUpperBound(m));
    TryDiv(amount, BorrowWeight(c))
  }

  function CalculateBorrow(c: Config, m: Market, available: U64, amount: U64, maxValue: Decimal, remaining: Decimal)
    : Result<BorrowResult>
  {
    var unit :- TokenUnit(m, U64_LIMIT);
    if amount == U64_MAX then
      var byValue :- MaxBorrowAmount(c, m, unit, maxValue);
      var borrowAmount: Decimal := Min(Min(byValue, remaining), FromU64(available));
      var fees :- ReserveFees.CalculateBorrowFees(c.fees, borrowAmount, ReserveFees.Inclusive);
      var whole :- TryFloorU64(borrowAmount);
      if fees.total > whole then Err(MathOverflow)
      else Ok(BorrowResult(borrowAmount, whole - fees.total, fees.total, fees.host))
    else
      var fees :- ReserveFees.CalculateBorrowFees(c.fees, FromU64(amount), ReserveFees.Exclusive);
      var borrowAmount :- TryAdd(FromU64(amount), FromU64(fees.total));
      var value :- MarketValueUpperBound(m, borrowAmount);
      var weighted :- TryMul(value, BorrowWeight(c));
      if weighted > maxValue then Err(BorrowTooLarge)
      else Ok(BorrowResult(borrowAmount, amount, fees.total, fees.host))
  }

  // ---- borrowing never exceeds the value it was allowed ----

  /** The risk-weighted upper-bound value of an amount, as the code computes it. */
  function WeightedValue(c: Config, m: Market, amount: Decimal): Result<Decimal> {
    var value :- MarketValueUpperBound(m, amount);
    TryMul(value, BorrowWeight(c))
  }

  lemma BackAndForthIdentities(v: int, w: int, d: int, k: int, b: int, p: int, x: int, a: int)
    ensures (v * k) * (d * k) == v * (d * k * k)
    ensures (w * b) * (d * k) == (w * d) * (b * k)
    ensures (a * k) * b == (a * b) * k
    ensures (p * x) * b == (x * b) * p
    ensures (a * k) * p == (a * p) * k
  {
  }

  /** Three floors on the way from value to amount and three on the way back all
      round down, so the way back ends at or below the start. Here `d` is the
      token unit, `p` the price, `b` the borrow weight, `k` the scale. */
  lemma BackAndForth(max: nat, a: nat, y: nat, x: nat, u: nat, w: nat, v: nat, d: nat, p: nat, b: nat, k: nat)
    requires d > 0 && k > 0
    requires a * p <= max * d * k && y * b <= a * k && x <= y
    requires u * k <= p * x && w * (d * k) <= u * k && v * k <= w * b
    ensures x * b * p <= max * d * k * k
    ensures v <= max
  {
    Arith.MulMono(x, y, b);
    Arith.MulMono(x * b, a * k, p);
    Arith.MulMono(a * p, max * d * k, k);
    BackAndForthIdentities(v, w, d, k, b, p, x, a);
    ValueChain(v, w, u, x, max, d, p, b, k);
  }

  lemma ValueChain(v: nat, w: nat, u: nat, x: nat, max: nat, d: nat, p: nat, b: nat, k: nat)
    requires d > 0 && k > 0 && x * b * p <= max * d * k * k
    requires u * k <= p * x && w * (d * k) <= u * k && v * k <= w * b
    ensures v <= max
  {
    Arith.MulMono(v * k, w * b, d * k);
    Arith.MulMono(w * (d * k), p * x, b);
    ChainIdentities(v, w, d, k, b, p, x, max);
    Arith.CancelLe(v, max, d * k * k);
  }

  lemma ChainIdentities(v: int, w: int, d: int, k: int, b: int, p: int, x: int, max: int)
    ensures (v * k) * (d * k) == v * (d * k * k)
    ensures (w * b) * (d * k) == (w * (d * k)) * b
    ensures (p * x) * b == x * b * p
    ensures max * d * k * k == max * (d * k * k)
    ensures d > 0 && k > 0 ==> d * k * k > 0
  {
  }

  /** "Borrow as much as possible" has no check of the borrow value; the
      direction of its floors keeps the weighted value within the maximum, both
      exactly and as the code would compute it. */
  lemma MaxBorrowWithinValue(c: Config, m: Market, available: U64, maxValue: Decimal, remaining: Decimal)
    requires CalculateBorrow(c, m, available, U64_MAX, maxValue, remaining).Ok?
    ensures var amount: int := CalculateBorrow(c, m, available, U64_MAX, maxValue, remaining).value.borrowAmount;
      && amount * BorrowWeight(c) * PriceUpperBound(m) <= maxValue * RatePow.Pow(10, m.mintDecimals) * WAD * WAD
      && (WeightedValue(c, m, amount).Ok? ==> WeightedValue(c, m, amount).value <= maxValue)
  {
    hide Floor, RatePow.Pow, BorrowWeight, PriceUpperBound, ReserveFees.CalculateBorrowFees;
    var amount := CalculateBorrow(c, m, available, U64_MAX, maxValue, remaining).value.borrowAmount;
    var unit := RatePow.Pow(10, m.mintDecimals);
    TokenUnitPositive(m);
    var price, weight := PriceUpperBound(m), BorrowWeight(c);
    var byPrice := TryDiv(maxValue * unit, price).value;
    var byWeight := TryDiv(byPrice, weight).value;
    if WeightedValue(c, m, amount).Ok? {
      var product := TryMul(price, amount).value;
      var value := MarketValueUpperBound(m, amount).value;
      var weighted := TryMul(value, weight).value;
      BackAndForth(maxValue, byPrice, byWeight, amount, product, value, weighted, unit, price, weight, WAD);
    } else {
      BackAndForth(maxValue, byPrice, byWeight, amount, 0, 0, 0, unit, price, weight, WAD);
    }
  }

  /** What "borrow as much as possible" returns fits together: receipt and fee
      are the whole tokens of the amount, the amount is within the available
      liquidity and the remaining capacity, and the reserve can pay it out. */
  lemma MaxBorrowFits(c: Config, m: Market, l: Reserve.Liquidity, maxValue: Decimal, remaining: Decimal)
    requires CalculateBorrow(c, m, l.available, U64_MAX, maxValue, remaining).Ok?
    ensures var r := CalculateBorrow(c, m, l.available, U64_MAX, maxValue, remaining).value;
      && IsFloor(r.receiveAmount + r.borrowFee, r.borrowAmount, WAD)
      && r.borrowAmount <= FromU64(l.available) && r.borrowAmount <= remaining
      && Reserve.Borrow(l, r.borrowAmount).result != Err(InsufficientLiquidity)
  {
    hide MaxBorrowAmount, ReserveFees.CalculateBorrowFees;
  }

  /** With a fee rate that validation accepts, the last subtraction never fails: "borrow
      as much as possible" succeeds exactly when the amount and its fees exist. */
  lemma MaxBorrowSucceedsIff(c: Config, m: Market, available: U64, maxValue: Decimal, remaining: Decimal)
    requires c.fees.borrowFeeWad < WAD
    ensures CalculateBorrow(c, m, available, U64_MAX, maxValue, remaining).Ok?
       <==> && TokenUnit(m, U64_LIMIT).Ok? && MaxBorrowAmount(c, m, TokenUnit(m, U64_LIMIT).value, maxValue).Ok?
            && ReserveFees.CalculateBorrowFees(c.fees, MostOf(c, m, available, maxValue, remaining), ReserveFees.Inclusive).Ok?
  {
    hide MaxBorrowAmount, ReserveFees.CalculateFees;
    if TokenUnit(m, U64_LIMIT).Ok? && MaxBorrowAmount(c, m, TokenUnit(m, U64_LIMIT).value, maxValue).Ok? {
      var most := MostOf(c, m, available, maxValue, remaining);
      FloorU64Iff(most, 0);
      if ReserveFees.CalculateBorrowFees(c.fees, most, ReserveFees.Inclusive).Ok? {
        ReserveFees.InclusiveWithinWhole(c.fees, most, c.fees.borrowFeeWad);
      }
    }
  }

  /** What value, capacity and liquidity allow; nothing where the value has no amount. */
  function MostOf(c: Config, m: Market, available: U64, maxValue: Decimal, remaining: Decimal): Decimal {
    match TokenUnit(m, U64_LIMIT)
    case Err(_) => 0
    case Ok(unit) =>
      match MaxBorrowAmount(c, m, unit, maxValue)
      case Err(_) => 0
      case Ok(byValue) => Min(Min(byValue, remaining), FromU64(available))
  }

  /** A borrow of a given amount returns that amount, charges the fee on top in
      whole tokens, and stays within the maximum value as computed. */
  lemma ExactBorrowFits(c: Config, m: Market, available: U64, amount: U64, maxValue: Decimal, remaining: Decimal)
    requires amount != U64_MAX && CalculateBorrow(c, m, available, amount, maxValue, remaining).Ok?
    ensures var r := CalculateBorrow(c, m, available, amount, maxValue, remaining).value;
      && r.receiveAmount == amount && r.borrowAmount == (amount + r.borrowFee) * WAD
      && WeightedValue(c, m, r.borrowAmount).Ok? && WeightedValue(c, m, r.borrowAmount).value <= maxValue
      && (c.fees.hostFeePercentage <= 100 ==> r.hostFee <= r.borrowFee <= amount)
  {
    hide MaxBorrowAmount, ReserveFees.CalculateFees;
    if c.fees.hostFeePercentage <= 100 {
      ReserveFees.HostWithinTotal(c.fees, FromU64(amount), c.fees.borrowFeeWad, ReserveFees.Exclusive);
      ReserveFees.FeeWithinAmount(c.fees, amount, c.fees.borrowFeeWad, ReserveFees.Exclusive);
    }
  }
}
