/** Liquidation of an unhealthy obligation: how much may be repaid, what bonus is
    due, and how much collateral is given for it. */
module Liquidation {
  import opened FixedPoint
  import opened ReserveConfig
  import opened Obligation
  import Reserve
  import Borrowing
  import RatePow
  import Arith

  const LIQUIDATION_CLOSE_FACTOR: U8 := 20
  const MAX_LIQUIDATABLE_VALUE_AT_ONCE: U64 := 500_000

  /** Value of a debt that one liquidation may cover at most. */
  function MaxLiquidationValue(o: ObligationState, d: Debt): Result<Decimal> {
    var share :- TryMul(o.borrowedValue, PercentRate(LIQUIDATION_CLOSE_FACTOR));
    Ok(Min(Min(share, d.marketValue), FromU64(MAX_LIQUIDATABLE_VALUE_AT_ONCE)))
  }

  function MaxLiquidationAmount(o: ObligationState, d: Debt): Result<Decimal> {
    var value :- MaxLiquidationValue(o, d);
    var share :- TryDiv(value, d.marketValue);
    TryMul(d.borrowed, share)
  }

  // ---- the bonus ----

  datatype Bonus = Bonus(total: Decimal, protocolFee: Decimal)

  function DecaBps(n: U8): Decimal {
    Floor(FromU64(n), 1000)
  }

  /** How far the obligation is from unhealthy to super unhealthy, at most one; a
      quotient that overflows counts as one. */
  function BonusWeight(borrowed: Decimal, unhealthy: Decimal, superUnhealthy: Decimal): Result<Decimal> {
    var above :- TrySub(borrowed, unhealthy);
    var span :- TrySub(superUnhealthy, unhealthy);
    match TryDiv(above, span)
    case Err(_) => Ok(WAD)
    case Ok(weight) => Ok(Min(weight, WAD))
  }

  function CalculateBonus(c: Config, o: ObligationState): Result<Bonus> {
    if o.borrowedValue < o.unhealthyBorrowValue then
      if o.closeable then Ok(Bonus(0, 0)) else Err(ObligationHealthy)
    else
      var least := PercentRate(c.liquidationBonus);
      var protocolFee := DecaBps(c.protocolLiquidationFee);
      var cap := PercentRate(MAX_BONUS_PCT);
      if o.unhealthyBorrowValue == o.superUnhealthyBorrowValue then
        var total :- TryAdd(least, protocolFee);
        Ok(Bonus(Min(total, cap), protocolFee))
      else
        var weight :- BonusWeight(o.borrowedValue, o.unhealthyBorrowValue, o.superUnhealthyBorrowValue);
        var range :- TrySub(PercentRate(c.maxLiquidationBonus), least);
        var part :- TryMul(weight, range);
        var bonus :- TryAdd(least, part);
        var total :- TryAdd(bonus, protocolFee);
        Ok(Bonus(Min(total, cap), protocolFee))
  }

  lemma WeightPart(weight: nat, range: nat)
    requires weight <= WAD && range <= 100 * PERCENT_SCALER
    ensures TryMul(weight, range).Ok? && TryMul(weight, range).value <= range
    ensures weight == WAD ==> TryMul(weight, range).value == range
  {
    hide Floor;
    Arith.MulMono(weight, WAD, range);
    var part := TryMul(weight, range).value;
    Arith.CancelLe(part, range, WAD);
    if weight == WAD {
      Arith.ExactFloor(part, range, WAD);
    }
  }

  lemma DecaBpsIsExact(n: U8)
    ensures DecaBps(n) == n * (WAD / 1000)
  {
    FloorOfMultiple(n * (WAD / 1000), 1000);
  }

  lemma BonusFits(c: Config)
    requires Valid(c)
    ensures PercentRate(c.liquidationBonus) <= PercentRate(c.maxLiquidationBonus) <= 100 * PERCENT_SCALER
    ensures PercentRate(c.maxLiquidationBonus) + DecaBps(c.protocolLiquidationFee) <= PercentRate(MAX_BONUS_PCT)
    ensures PercentRate(MAX_BONUS_PCT) < WAD
  {
    hide DecaBps;
    DecaBpsIsExact(c.protocolLiquidationFee);
    assert PercentRate(c.maxLiquidationBonus) + c.protocolLiquidationFee * (WAD / 1000)
        == (c.maxLiquidationBonus * 100 + c.protocolLiquidationFee * 10) * (PERCENT_SCALER / 100);
  }

  /** With a validated configuration and thresholds in order, an obligation at or
      over its unhealthy value always gets a bonus; it lies between the least and
      the largest configured bonus plus the protocol fee, so the overall cap of
      25 percent never bites. */
  lemma BonusInRange(c: Config, o: ObligationState)
    requires Valid(c) && o.unhealthyBorrowValue <= o.superUnhealthyBorrowValue
    requires o.unhealthyBorrowValue <= o.borrowedValue
    ensures CalculateBonus(c, o).Ok?
    ensures var b := CalculateBonus(c, o).value;
      && b.protocolFee == DecaBps(c.protocolLiquidationFee)
      && PercentRate(c.liquidationBonus) + b.protocolFee <= b.total
      && b.total <= PercentRate(c.maxLiquidationBonus) + b.protocolFee <= PercentRate(MAX_BONUS_PCT)
  {
    BonusFits(c);
    hide Floor, TryDiv, TryMul, DecaBps, PercentRate;
    if o.unhealthyBorrowValue < o.superUnhealthyBorrowValue {
      var weight := BonusWeight(o.borrowedValue, o.unhealthyBorrowValue, o.superUnhealthyBorrowValue).value;
      WeightPart(weight, PercentRate(c.maxLiquidationBonus) - PercentRate(c.liquidationBonus));
    }
  }

  lemma WeightMonotone(b: Decimal, b': Decimal, u: Decimal, s: Decimal)
    requires u <= b <= b' && u < s
    ensures BonusWeight(b, u, s).Ok? && BonusWeight(b', u, s).Ok?
    ensures BonusWeight(b, u, s).value <= BonusWeight(b', u, s).value <= WAD
    ensures b >= s ==> BonusWeight(b, u, s).value == WAD
  {
    hide Floor;
    if TryDiv(b' - u, s - u).Ok? {
      Arith.FloorsOrdered(TryDiv(b - u, s - u).value, (b - u) * WAD, TryDiv(b' - u, s - u).value, (b' - u) * WAD, s - u);
    }
    if b >= s && TryDiv(b - u, s - u).Ok? {
      Arith.FloorsOrdered(WAD, WAD * (s - u), TryDiv(b - u, s - u).value, (b - u) * WAD, s - u);
    }
  }

  /** A deeper debt never earns a smaller bonus. */
  lemma BonusMonotone(c: Config, o: ObligationState, deeper: ObligationState)
    requires Valid(c) && o.unhealthyBorrowValue <= o.superUnhealthyBorrowValue
    requires o.unhealthyBorrowValue <= o.borrowedValue <= deeper.borrowedValue
    requires deeper.unhealthyBorrowValue == o.unhealthyBorrowValue
    requires deeper.superUnhealthyBorrowValue == o.superUnhealthyBorrowValue
    ensures CalculateBonus(c, o).Ok? && CalculateBonus(c, deeper).Ok?
    ensures CalculateBonus(c, o).value.total <= CalculateBonus(c, deeper).value.total
  {
    BonusInRange(c, o);
    BonusInRange(c, deeper);
    hide Floor, DecaBps;
    var u, s := o.unhealthyBorrowValue, o.superUnhealthyBorrowValue;
    if u < s {
      WeightMonotone(o.borrowedValue, deeper.borrowedValue, u, s);
      hide BonusWeight;
      var range := PercentRate(c.maxLiquidationBonus) - PercentRate(c.liquidationBonus);
      var w, w' := BonusWeight(o.borrowedValue, u, s).value, BonusWeight(deeper.borrowedValue, u, s).value;
      Arith.MulMono(w, w', range);
      Arith.FloorsOrdered(TryMul(w, range).value, w * range, TryMul(w', range).value, w' * range, WAD);
    }
  }

  /** From the super unhealthy value on the largest bonus is due, as documented,
      unless the two thresholds coincide: then the code grants the least one. */
  lemma FullBonusExactly(c: Config, o: ObligationState)
    requires Valid(c) && o.unhealthyBorrowValue <= o.superUnhealthyBorrowValue <= o.borrowedValue
    ensures CalculateBonus(c, o).Ok?
    ensures CalculateBonus(c, o).value.total == PercentRate(c.maxLiquidationBonus) + DecaBps(c.protocolLiquidationFee)
       <==> o.unhealthyBorrowValue < o.superUnhealthyBorrowValue || c.liquidationBonus == c.maxLiquidationBonus
  {
    BonusInRange(c, o);
    hide Floor, DecaBps, TryMul;
    if o.unhealthyBorrowValue < o.superUnhealthyBorrowValue {
      WeightMonotone(o.borrowedValue, o.borrowedValue, o.unhealthyBorrowValue, o.superUnhealthyBorrowValue);
      WeightPart(WAD, PercentRate(c.maxLiquidationBonus) - PercentRate(c.liquidationBonus));
    }
  }

  // ---- the settlement ----

  datatype Settlement = Settlement(settled: Decimal, repaid: U64, withdrawn: U64)

  /** Settle up to `target` against collateral: `value` is what the liquidator is
      due for it. Closing a dust debt always withdraws at least one unit. */
  function SettleAgainst(target: Decimal, value: Decimal, collateral: Collateral, dust: bool): Result<Settlement> {
    if value > collateral.marketValue then
      var share :- TryDiv(collateral.marketValue, value);
      var settled :- TryMul(target, share);
      var repaid :- TryCeilU64(settled);
      Ok(Settlement(settled, repaid, collateral.depositedAmount))
    else if value == collateral.marketValue then
      var repaid :- TryCeilU64(target);
      Ok(Settlement(target, repaid, collateral.depositedAmount))
    else
      var share :- TryDiv(value, collateral.marketValue);
      var repaid :- TryCeilU64(target);
      if dust && repaid == 0 then Err(LiquidationTooSmall) else
      var part :- TryMul(FromU64(collateral.depositedAmount), share);
      var whole :- TryFloorU64(part);
      Ok(Settlement(target, repaid, if dust then Max(whole, 1) else whole))
  }

  /** The part of the debt this call may cover. */
  function LiquidationAmount(o: ObligationState, d: Debt, amount: U64): Result<Decimal> {
    var requested: Decimal := if amount == U64_MAX then d.borrowed else Min(FromU64(amount), d.borrowed);
    var most :- MaxLiquidationAmount(o, d);
    Ok(Min(most, requested))
  }

  /** What the liquidator is due for covering `target` of the debt. */
  function LiquidationValue(d: Debt, target: Decimal, bonusRate: Decimal): Result<Decimal> {
    var share :- TryDiv(target, d.borrowed);
    var covered :- TryMul(d.marketValue, share);
    TryMul(covered, bonusRate)
  }

  function CalculateLiquidation(amount: U64, o: ObligationState, d: Debt, collateral: Collateral, bonus: Bonus)
    : Result<Settlement>
  {
    if bonus.total > PercentRate(MAX_BONUS_PCT) then Err(InvalidAmount) else
    var bonusRate :- TryAdd(bonus.total, WAD);
    if d.marketValue <= WAD then
      var value :- TryMul(d.marketValue, bonusRate);
      SettleAgainst(d.borrowed, value, collateral, true)
    else
      var target :- LiquidationAmount(o, d, amount);
      var value :- LiquidationValue(d, target, bonusRate);
      SettleAgainst(target, value, collateral, false)
  }

  /** What settling does, whichever way value and collateral compare: it settles
      at most the target, collects it rounded up, and withdraws at most the
      deposit (or one unit of a dust debt). When collateral runs short it takes
      all of it and the settled part is worth no more than that; otherwise it
      settles the target in full and withdraws no more than its value. */
  lemma SettleBounds(target: Decimal, value: Decimal, collateral: Collateral, dust: bool)
    requires SettleAgainst(target, value, collateral, dust).Ok?
    ensures var s := SettleAgainst(target, value, collateral, dust).value;
      && s.settled <= target
      && s.settled <= s.repaid * WAD < s.settled + WAD
      && s.withdrawn <= (if dust then Max(collateral.depositedAmount, 1) else collateral.depositedAmount)
      && (value > collateral.marketValue ==>
          s.withdrawn == collateral.depositedAmount && s.settled * value <= target * collateral.marketValue)
      && (value <= collateral.marketValue ==>
          && s.settled == target
          && (s.withdrawn * collateral.marketValue <= collateral.depositedAmount * value || (dust && s.withdrawn == 1)))
  {
    hide Floor, TryCeilU64;
    var s := SettleAgainst(target, value, collateral, dust).value;
    if value > collateral.marketValue {
      var share := TryDiv(collateral.marketValue, value).value;
      ShareOf(s.settled, target, share, collateral.marketValue, value, WAD);
    } else if value < collateral.marketValue {
      var share := TryDiv(value, collateral.marketValue).value;
      var part := TryMul(FromU64(collateral.depositedAmount), share).value;
      var whole := TryFloorU64(part).value;
      ShareOf(part, FromU64(collateral.depositedAmount), share, value, collateral.marketValue, WAD);
      WholePart(whole, part, collateral.depositedAmount, value, collateral.marketValue, WAD);
    }
  }

  /** `part` is `whole * num / den` with both roundings down. */
  lemma ShareOf(part: nat, whole: nat, share: nat, num: nat, den: nat, k: nat)
    requires k > 0 && num < den && part * k <= whole * share && share * den <= num * k
    ensures part * den <= whole * num && part <= whole
  {
    ShareIdentities(part, whole, share, num, den, k);
    Arith.MulMono(part * k, whole * share, den);
    Arith.MulMono(share * den, num * k, whole);
    Arith.CancelLe(part * den, whole * num, k);
    Arith.MulMono(num, den, whole);
    Arith.CancelLe(part, whole, den);
  }

  lemma ShareIdentities(part: int, whole: int, share: int, num: int, den: int, k: int)
    ensures (part * k) * den == (part * den) * k
    ensures (whole * share) * den == (share * den) * whole
    ensures (num * k) * whole == (whole * num) * k
  {
  }

  lemma WholePart(w: nat, part: nat, deposited: nat, value: nat, marketValue: nat, k: nat)
    requires k > 0 && w * k <= part && part <= deposited * k && part * marketValue <= deposited * k * value
    ensures w <= deposited && w * marketValue <= deposited * value
  {
    Arith.CancelLe(w, deposited, k);
    Arith.MulMono(w * k, part, marketValue);
    assert (w * k) * marketValue == (w * marketValue) * k;
    assert deposited * k * value == (deposited * value) * k;
    Arith.CancelLe(w * marketValue, deposited * value, k);
  }

  // ---- what a liquidation is limited to ----

  /** The amount one call covers is within the request, within the debt, and its
      share of the debt is worth at most a fifth of the obligation's borrows, the
      debt itself and the cap. */
  lemma LiquidationAmountBounds(o: ObligationState, d: Debt, amount: U64)
    requires LiquidationAmount(o, d, amount).Ok? && MaxLiquidationValue(o, d).Ok?
    ensures var target, value: int := LiquidationAmount(o, d, amount).value, MaxLiquidationValue(o, d).value;
      && target <= d.borrowed && (amount != U64_MAX ==> target <= FromU64(amount))
      && target * d.marketValue <= d.borrowed * value
      && value <= d.marketValue && value <= FromU64(MAX_LIQUIDATABLE_VALUE_AT_ONCE)
      && value * WAD <= o.borrowedValue * PercentRate(LIQUIDATION_CLOSE_FACTOR)
  {
    hide Floor;
    var value := MaxLiquidationValue(o, d).value;
    var share := TryDiv(value, d.marketValue).value;
    var most := MaxLiquidationAmount(o, d).value;
    var target := LiquidationAmount(o, d, amount).value;
    hide MaxLiquidationAmount, LiquidationAmount;
    ShareIdentities(most, d.borrowed, share, value, d.marketValue, WAD);
    Arith.MulMono(most * WAD, d.borrowed * share, d.marketValue);
    Arith.MulMono(share * d.marketValue, value * WAD, d.borrowed);
    Arith.CancelLe(most * d.marketValue, d.borrowed * value, WAD);
    Arith.MulMono(target, most, d.marketValue);
  }

  /** The value due for part of a debt is at most that part of the debt's value
      plus the bonus on it. */
  lemma LiquidationValueBound(d: Debt, target: Decimal, bonusRate: Decimal)
    requires LiquidationValue(d, target, bonusRate).Ok?
    ensures LiquidationValue(d, target, bonusRate).value * d.borrowed * WAD <= d.marketValue * target * bonusRate
  {
    hide Floor;
    var share := TryDiv(target, d.borrowed).value;
    var covered := TryMul(d.marketValue, share).value;
    ValueBoundArith(LiquidationValue(d, target, bonusRate).value, covered, share, d.marketValue, target, bonusRate,
      d.borrowed, WAD);
  }

  lemma ValueBoundIdentities(v: int, covered: int, share: int, mv: int, target: int, rate: int, b: int, k: int)
    ensures (v * k) * (b * k) == (v * b * k) * k
    ensures (covered * rate) * (b * k) == (covered * k) * (b * rate)
    ensures (mv * share) * (b * rate) == (share * b) * (mv * rate)
    ensures (target * k) * (mv * rate) == (mv * target * rate) * k
  {
  }

  lemma ValueBoundArith(v: nat, covered: nat, share: nat, mv: nat, target: nat, rate: nat, b: nat, k: nat)
    requires k > 0 && v * k <= covered * rate && covered * k <= mv * share && share * b <= target * k
    ensures v * b * k <= mv * target * rate
  {
    ValueBoundIdentities(v, covered, share, mv, target, rate, b, k);
    Arith.MulMono(v * k, covered * rate, b * k);
    Arith.MulMono(covered * k, mv * share, b * rate);
    Arith.MulMono(share * b, target * k, mv * rate);
    Arith.CancelLe(v * b * k, mv * target * rate, k);
  }

  lemma FairArith(withdrawn: nat, cv: nat, deposited: nat, v: nat, bk: nat, rest: nat)
    requires withdrawn * cv <= deposited * v && v * bk <= rest
    ensures (withdrawn * cv) * bk <= deposited * rest
  {
    Arith.MulMono(withdrawn * cv, deposited * v, bk);
    Arith.MulMono(v * bk, rest, deposited);
    assert (deposited * v) * bk == (v * bk) * deposited;
  }

  /** What the liquidator is due for the amount a partial liquidation covers. */
  function DueValue(amount: U64, o: ObligationState, d: Debt, bonus: Bonus): Result<Decimal> {
    var bonusRate :- TryAdd(bonus.total, WAD);
    var target :- LiquidationAmount(o, d, amount);
    LiquidationValue(d, target, bonusRate)
  }

  lemma PartialParts(amount: U64, o: ObligationState, d: Debt, collateral: Collateral, bonus: Bonus)
    requires d.marketValue > WAD && CalculateLiquidation(amount, o, d, collateral, bonus).Ok?
    ensures MaxLiquidationValue(o, d).Ok? && LiquidationAmount(o, d, amount).Ok? && DueValue(amount, o, d, bonus).Ok?
    ensures CalculateLiquidation(amount, o, d, collateral, bonus)
         == SettleAgainst(LiquidationAmount(o, d, amount).value, DueValue(amount, o, d, bonus).value, collateral, false)
  {
    hide TryDiv, TryMul, SettleAgainst, LiquidationValue;
  }

  /** A liquidation of a debt worth more than one settles at most the request, at
      most the debt, and a share of the debt worth at most a fifth of the
      obligation's borrows, the debt's own value and the cap; it collects that
      rounded up to a whole unit, and withdraws at most the deposit. */
  lemma PartialLimits(amount: U64, o: ObligationState, d: Debt, collateral: Collateral, bonus: Bonus)
    requires d.marketValue > WAD && CalculateLiquidation(amount, o, d, collateral, bonus).Ok?
    ensures MaxLiquidationValue(o, d).Ok?
    ensures var s, limit: int := CalculateLiquidation(amount, o, d, collateral, bonus).value, MaxLiquidationValue(o, d).value;
      && s.settled <= d.borrowed && (amount != U64_MAX ==> s.settled <= FromU64(amount))
      && s.settled * d.marketValue <= d.borrowed * limit
      && limit <= d.marketValue && limit <= FromU64(MAX_LIQUIDATABLE_VALUE_AT_ONCE)
      && limit * WAD <= o.borrowedValue * PercentRate(LIQUIDATION_CLOSE_FACTOR)
      && s.settled <= s.repaid * WAD < s.settled + WAD
      && s.withdrawn <= collateral.depositedAmount
  {
    PartialParts(amount, o, d, collateral, bonus);
    LiquidationAmountBounds(o, d, amount);
    var target, value := LiquidationAmount(o, d, amount).value, DueValue(amount, o, d, bonus).value;
    SettleBounds(target, value, collateral, false);
    hide *;
    Arith.MulMono(SettleAgainst(target, value, collateral, false).value.settled, target, d.marketValue);
  }

  lemma CoveredIsFair(d: Debt, target: Decimal, bonusRate: Decimal, value: Decimal, collateral: Collateral)
    requires LiquidationValue(d, target, bonusRate) == Ok(value) && value <= collateral.marketValue
    requires SettleAgainst(target, value, collateral, false).Ok?
    ensures var s := SettleAgainst(target, value, collateral, false).value;
      && s.settled == target
      && (s.withdrawn * collateral.marketValue) * (d.borrowed * WAD)
         <= collateral.depositedAmount * (d.marketValue * target * bonusRate)
  {
    hide *;
    LiquidationValueBound(d, target, bonusRate);
    SettleBounds(target, value, collateral, false);
    var s := SettleAgainst(target, value, collateral, false).value;
    assert value * d.borrowed * WAD == value * (d.borrowed * WAD);
    FairArith(s.withdrawn, collateral.marketValue, collateral.depositedAmount, value, d.borrowed * WAD,
      d.marketValue * target * bonusRate);
  }

  /** Unless the collateral runs out, the collateral given is worth at most the
      settled share of the debt plus the bonus on it: all five floors favour the
      borrower. When it runs out, all of it is given and at most the part of the
      amount it covers is settled. */
  lemma PartialFair(amount: U64, o: ObligationState, d: Debt, collateral: Collateral, bonus: Bonus)
    requires d.marketValue > WAD && CalculateLiquidation(amount, o, d, collateral, bonus).Ok?
    ensures LiquidationAmount(o, d, amount).Ok? && DueValue(amount, o, d, bonus).Ok?
    ensures var s := CalculateLiquidation(amount, o, d, collateral, bonus).value;
      var target, value := LiquidationAmount(o, d, amount).value, DueValue(amount, o, d, bonus).value;
      if value <= collateral.marketValue then
        && s.settled == target
        && (s.withdrawn * collateral.marketValue) * (d.borrowed * WAD)
           <= collateral.depositedAmount * (d.marketValue * target * (bonus.total + WAD))
      else
        s.withdrawn == collateral.depositedAmount && s.settled * value <= target * collateral.marketValue
  {
    PartialParts(amount, o, d, collateral, bonus);
    var target, value := LiquidationAmount(o, d, amount).value, DueValue(amount, o, d, bonus).value;
    var rate := TryAdd(bonus.total, WAD).value;
    hide CalculateLiquidation, LiquidationAmount, LiquidationValue, SettleAgainst, TryMul, TryDiv, Floor;
    SettleBounds(target, value, collateral, false);
    if value <= collateral.marketValue {
      CoveredIsFair(d, target, rate, value, collateral);
    }
  }

  // ---- dust ----

  /** Closing a dust debt: with enough collateral all of it is settled, so it
      leaves the obligation's list, for collateral worth at most the debt plus
      bonus, or for one unit. */
  lemma DustIsClosed(amount: U64, o: ObligationState, i: nat, collateral: Collateral, bonus: Bonus)
    requires ValidLists(o.lists) && i < |o.lists.borrows| && o.lists.borrows[i].marketValue <= WAD
    requires CalculateLiquidation(amount, o, o.lists.borrows[i], collateral, bonus).Ok?
    requires o.lists.borrows[i].marketValue * (WAD + bonus.total) <= collateral.marketValue * WAD
    ensures var d, s := o.lists.borrows[i], CalculateLiquidation(amount, o, o.lists.borrows[i], collateral, bonus).value;
      && s.settled == d.borrowed
      && (s.withdrawn == 1
          || (s.withdrawn * collateral.marketValue) * WAD
             <= collateral.depositedAmount * (d.marketValue * (WAD + bonus.total)))
      && BorrowIndex(Repay(o.lists, s.settled, i).next, d.borrowReserve).None?
  {
    hide Floor, TryDiv, TryFloorU64, TryCeilU64;
    var d, s := o.lists.borrows[i], CalculateLiquidation(amount, o, o.lists.borrows[i], collateral, bonus).value;
    var value := TryMul(d.marketValue, bonus.total + WAD).value;
    assert value * WAD <= d.marketValue * (WAD + bonus.total);
    Arith.CancelLe(value, collateral.marketValue, WAD);
    SettleBounds(d.borrowed, value, collateral, true);
    PositionAt(o.lists.borrows, BorrowKey, i);
    RepayIsSubtraction(o.lists, s.settled, i, d.borrowReserve);
    hide *;
    if s.withdrawn != 1 {
      FairArith(s.withdrawn, collateral.marketValue, collateral.depositedAmount, value, WAD,
        d.marketValue * (WAD + bonus.total));
    }
  }

  // ---- the protocol's cut ----

  function CalculateProtocolLiquidationFee(liquidated: U64, bonus: Bonus): Result<U64> {
    if bonus.total > PercentRate(MAX_BONUS_PCT) then Err(InvalidAmount) else
    var bonusRate :- TryAdd(WAD, bonus.total);
    var nonbonus :- TryDiv(FromU64(liquidated), bonusRate);
    var fee :- TryMul(nonbonus, bonus.protocolFee);
    var whole :- TryCeilU64(fee);
    Ok(Max(whole, 1))
  }

  /** The protocol takes at least one unit; with a cut no larger than the bonus,
      what it takes beyond that one unit comes out of the bonus: the part without
      the bonus is left whole. */
  lemma ProtocolFeeWithinBonus(liquidated: U64, bonus: Bonus)
    requires CalculateProtocolLiquidationFee(liquidated, bonus).Ok? && bonus.protocolFee <= bonus.total
    ensures var fee := CalculateProtocolLiquidationFee(liquidated, bonus).value;
      var nonbonus := TryDiv(FromU64(liquidated), WAD + bonus.total).value;
      fee >= 1 && (fee - 1) * WAD + nonbonus <= FromU64(liquidated)
  {
    hide Floor, TryCeilU64;
    var bonusRate := TryAdd(WAD, bonus.total).value;
    var nonbonus := TryDiv(FromU64(liquidated), bonusRate).value;
    var cut := TryMul(nonbonus, bonus.protocolFee).value;
    var fee := CalculateProtocolLiquidationFee(liquidated, bonus).value;
    assert (fee - 1) * WAD <= cut;
    hide *;
    Arith.MulMono(bonus.protocolFee, bonus.total, nonbonus);
    assert nonbonus * (WAD + bonus.total) == nonbonus * WAD + nonbonus * bonus.total;
    Arith.CancelLe(cut + nonbonus, FromU64(liquidated), WAD);
  }

  // ---- withdrawing collateral ----

  /** The most collateral that can be withdrawn while the rest still backs the
      borrows; `pool` is the reserve of the collateral and `c` its configuration. */
  function MaxWithdrawAmount(o: ObligationState, collateral: Collateral, c: Config, m: Borrowing.Market, pool: Reserve.Pool)
    : Result<U64>
  {
    if o.lists.borrows == [] then Ok(collateral.depositedAmount)
    else if o.allowedBorrowValue <= o.borrowedValueUpperBound then Ok(0)
    else if c.loanToValueRatio == 0 then Ok(collateral.depositedAmount)
    else
      // The checked difference cannot fail here.
      var slack: Decimal := o.allowedBorrowValue - o.borrowedValueUpperBound;
      var value :- TryDiv(slack, PercentRate(c.loanToValueRatio));
      var unit :- Borrowing.TokenUnit(m, U64_LIMIT);
      var scaled :- TryMulInt(value, unit);
      var liquidity :- TryDiv(scaled, Borrowing.PriceLowerBound(m));
      var rate :- Reserve.PoolRate(pool);
      var amount :- TryMul(liquidity, rate);
      var whole :- TryFloorU64(amount);
      Ok(Min(whole, collateral.depositedAmount))
  }

  /** The liquidity the withdrawn collateral stands for. */
  function WithdrawnLiquidity(pool: Reserve.Pool, amount: U64): Result<Decimal> {
    var rate :- Reserve.PoolRate(pool);
    TryDiv(FromU64(amount), rate)
  }

  lemma LiquidityWithin(w: nat, y: nat, amount: nat, liquidity: nat, rate: nat, k: nat)
    requires k > 0 && rate > 0
    requires w * k <= amount && amount * k <= liquidity * rate && y * rate <= w * k * k
    ensures y <= liquidity
  {
    Arith.MulMono(w * k, amount, k);
    Arith.CancelLe(y, liquidity, rate);
  }

  lemma WithdrawIdentities(y: int, liq: int, p: int, ltv: int, value: int, d: int, k: int, slack: int)
    ensures y * ltv * p == (y * p) * ltv
    ensures (value * d * k) * ltv == (value * ltv) * (d * k)
    ensures (slack * k) * (d * k) == slack * d * k * k
  {
  }

  /** The five floors from allowance to withdrawal all round down. */
  lemma WithdrawArith(w: nat, whole: nat, amount: nat, liquidity: nat, rate: nat, y: nat, value: nat, unit: nat,
                      price: nat, ltv: nat, slack: nat, k: nat)
    requires k > 0 && rate > 0 && w <= whole && whole * k <= amount && amount * k <= liquidity * rate
    requires y * rate <= w * k * k && liquidity * price <= value * unit * k && value * ltv <= slack * k
    ensures y * ltv * price <= slack * unit * k * k
  {
    Arith.MulMono(w, whole, k);
    LiquidityWithin(w, y, amount, liquidity, rate, k);
    Arith.MulMono(y, liquidity, price);
    Arith.MulMono(y * price, value * unit * k, ltv);
    Arith.MulMono(value * ltv, slack * k, unit * k);
    WithdrawIdentities(y, liquidity, price, ltv, value, unit, k, slack);
  }

  /** Withdrawing the maximum is safe: at the lower-bound price, the liquidity
      behind the withdrawn collateral, weighted by the loan-to-value ratio, is
      worth at most the unused borrow allowance, exactly and as computed. */
  lemma MaxWithdrawIsSafe(o: ObligationState, collateral: Collateral, c: Config, m: Borrowing.Market, pool: Reserve.Pool)
    requires o.lists.borrows != [] && c.loanToValueRatio > 0 && o.borrowedValueUpperBound < o.allowedBorrowValue
    requires MaxWithdrawAmount(o, collateral, c, m, pool).Ok?
    requires WithdrawnLiquidity(pool, MaxWithdrawAmount(o, collateral, c, m, pool).value).Ok?
    ensures MaxWithdrawAmount(o, collateral, c, m, pool).value <= collateral.depositedAmount
    ensures var y: int := WithdrawnLiquidity(pool, MaxWithdrawAmount(o, collateral, c, m, pool).value).value;
      var slack: int, ltv: int := o.allowedBorrowValue - o.borrowedValueUpperBound, PercentRate(c.loanToValueRatio);
      && y * ltv * Borrowing.PriceLowerBound(m) <= slack * RatePow.Pow(10, m.mintDecimals) * WAD * WAD
      && (Borrowing.MarketValueLowerBound(m, y).Ok? && TryMul(Borrowing.MarketValueLowerBound(m, y).value, ltv).Ok? ==>
          TryMul(Borrowing.MarketValueLowerBound(m, y).value, ltv).value <= slack)
  {
    hide Floor, RatePow.Pow, Borrowing.PriceLowerBound, Reserve.PoolRate, PercentRate;
    var w := MaxWithdrawAmount(o, collateral, c, m, pool).value;
    var y := WithdrawnLiquidity(pool, w).value;
    var slack, ltv := o.allowedBorrowValue - o.borrowedValueUpperBound, PercentRate(c.loanToValueRatio);
    var value := TryDiv(slack, ltv).value;
    var unit, price := RatePow.Pow(10, m.mintDecimals), Borrowing.PriceLowerBound(m);
    var liquidity := TryDiv(value * unit, price).value;
    var rate := Reserve.PoolRate(pool).value;
    var amount := TryMul(liquidity, rate).value;
    var whole := TryFloorU64(amount).value;
    WithdrawArith(w, whole, amount, liquidity, rate, y, value, unit, price, ltv, slack, WAD);
    if Borrowing.MarketValueLowerBound(m, y).Ok? && TryMul(Borrowing.MarketValueLowerBound(m, y).value, ltv).Ok? {
      var product := TryMul(price, y).value;
      var back := Borrowing.MarketValueLowerBound(m, y).value;
      Borrowing.TokenUnitPositive(m);
      Borrowing.ValueChain(TryMul(back, ltv).value, back, product, y, slack, unit, price, ltv, WAD);
    }
  }
}
