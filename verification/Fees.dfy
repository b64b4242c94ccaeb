/** Borrow and flash loan fees. */
module ReserveFees {
  import opened FixedPoint
  import opened ReserveConfig
  import Arith

  datatype FeeCalculation = Exclusive | Inclusive

  datatype Charge = Charge(total: U64, host: U64)

  /** The fee before minimum and rounding: on top of the amount, or contained
      in it. */
  function RawFee(amount: Decimal, feeWad: U64, mode: FeeCalculation): Result<Decimal> {
    match mode
    case Exclusive => TryMul(amount, feeWad)
    case Inclusive =>
      var whole :- RateAdd(feeWad, WAD);
      var rate :- RateDiv(feeWad, whole);
      TryMul(amount, rate)
  }

  /** Round the total fee and split off the host's part, at least one token. */
  function SplitFee(fee: Decimal, hostRate: Rate): Result<Charge> {
    var total :- TryRoundU64(fee);
    if hostRate == 0 then Ok(Charge(total, 0)) else
    var part :- TryMul(fee, hostRate);
    var host :- TryRoundU64(part);
    Ok(Charge(total, Max(host, 1)))
  }

  function CalculateFees(f: Fees, amount: Decimal, feeWad: U64, mode: FeeCalculation): Result<Charge> {
    if feeWad == 0 || amount == 0 then Ok(Charge(0, 0)) else
    var hostRate := PercentRate(f.hostFeePercentage);
    var minimum := FromU64(if hostRate > 0 then 2 else 1);
    var raw :- RawFee(amount, feeWad, mode);
    var fee: Decimal := Max(raw, minimum);
    if fee >= amount then Err(BorrowTooSmall) else SplitFee(fee, hostRate)
  }

  function CalculateBorrowFees(f: Fees, amount: Decimal, mode: FeeCalculation): Result<Charge> {
    CalculateFees(f, amount, f.borrowFeeWad, mode)
  }

  datatype FlashCharge = FlashCharge(origination: U64, host: U64)

  function CalculateFlashLoanFees(f: Fees, amount: Decimal): Result<FlashCharge> {
    var charge :- CalculateFees(f, amount, f.flashLoanFeeWad, Exclusive);
    if charge.host > charge.total then Err(MathOverflow)
    else Ok(FlashCharge(charge.total - charge.host, charge.host))
  }

  // ---- what the fees are ----

  lemma RoundMonotone(a: Decimal, b: Decimal)
    requires a <= b && TryRoundU64(b).Ok?
    ensures TryRoundU64(a).Ok? && TryRoundU64(a).value <= TryRoundU64(b).value
  {
    FloorOrdered(HALF_WAD + a, HALF_WAD + b, WAD);
  }

  /** Part of a fee at a host rate up to one: no more than the fee, all of it at
      one, and never an overflow. */
  lemma HostPart(fee: Decimal, hostRate: Rate)
    requires hostRate <= WAD
    ensures TryMul(fee, hostRate).Ok? ==> TryMul(fee, hostRate).value <= fee
    ensures hostRate == WAD && TryMul(fee, hostRate).Ok? ==> TryMul(fee, hostRate).value == fee
  {
    hide Floor;
    if TryMul(fee, hostRate).Ok? {
      var part := TryMul(fee, hostRate).value;
      Arith.MulMono(hostRate, WAD, fee);
      Arith.CancelLe(part, fee, WAD);
      if hostRate == WAD {
        Arith.ExactFloor(part, fee, WAD);
      }
    }
  }

  /** With a host percentage up to 100, host fee and total fee stay in order
      through floor, minimum and half-up rounding, on any amount; at 100 percent
      the host takes everything; and there is a total fee, and a host fee,
      exactly when a rate asks for one. */
  lemma HostWithinTotal(f: Fees, amount: Decimal, feeWad: U64, mode: FeeCalculation)
    requires f.hostFeePercentage <= 100 && CalculateFees(f, amount, feeWad, mode).Ok?
    ensures var charge := CalculateFees(f, amount, feeWad, mode).value;
      && charge.host <= charge.total
      && (f.hostFeePercentage == 100 ==> charge.host == charge.total)
      && (charge.total > 0 <==> feeWad > 0 && amount > 0)
      && (charge.host > 0 <==> feeWad > 0 && amount > 0 && f.hostFeePercentage > 0)
  {
    hide Floor, TryRoundU64, RawFee;
    if feeWad > 0 && amount > 0 {
      var hostRate := PercentRate(f.hostFeePercentage);
      var raw := RawFee(amount, feeWad, mode).value;
      var fee: Decimal := Max(raw, FromU64(if hostRate > 0 then 2 else 1));
      if hostRate > 0 {
        HostPart(fee, hostRate);
        RoundMonotone(TryMul(fee, hostRate).value, fee);
      }
    }
  }

  /** On a whole number of tokens the total fee is at most the amount. */
  lemma FeeWithinAmount(f: Fees, tokens: U64, feeWad: U64, mode: FeeCalculation)
    requires CalculateFees(f, FromU64(tokens), feeWad, mode).Ok?
    ensures CalculateFees(f, FromU64(tokens), feeWad, mode).value.total <= tokens
  {
    hide Floor, TryRoundU64, RawFee;
  }

  // ---- when rounding lifts a fee above the amount ----

  /** The raw fee is the floor of the amount times a rate; below the amount, that
      rate is below one. */
  lemma RawBelowAmount(amount: Decimal, feeWad: U64, mode: FeeCalculation)
    requires RawFee(amount, feeWad, mode).Ok? && RawFee(amount, feeWad, mode).value < amount
    ensures RawFee(amount, feeWad, mode).value * WAD <= amount * (WAD - 1)
  {
    hide Floor;
    var rate: int := if mode.Exclusive? then feeWad else RateDiv(feeWad, feeWad + WAD).value;
    var raw: int := RawFee(amount, feeWad, mode).value;
    assert IsFloor(raw, amount * rate, WAD);
    if rate >= WAD {
      Arith.MulMono(WAD, rate, amount);
      Arith.FloorsOrdered(amount, amount * WAD, raw, amount * rate, WAD);
    } else {
      Arith.MulMono(rate, WAD - 1, amount);
    }
  }

  predicate CostsMore(f: Fees, amount: Decimal, feeWad: U64, mode: FeeCalculation) {
    var charge := CalculateFees(f, amount, feeWad, mode);
    charge.Ok? && FromU64(charge.value.total) > amount
  }

  /** There is a fraction of more than a half, by one raw unit for each whole
      token, and a whole number above the amount to round to. */
  predicate CanExceed(amount: Decimal) {
    amount >= WAD && amount / WAD < U64_MAX && amount % WAD > HALF_WAD + amount / WAD
  }

  lemma LargestRaw(amount: nat, raw: nat, whole: nat, part: nat)
    requires amount == whole * WAD + part && part < WAD && raw * WAD <= amount * (WAD - 1)
    ensures raw <= amount - whole && (part > 0 ==> raw <= amount - whole - 1)
  {
  }

  lemma ExceedingArith(amount: nat, fee: nat, total: nat, whole: nat, part: nat)
    requires amount == whole * WAD + part && part < WAD && fee < amount
    requires fee * WAD <= amount * (WAD - 1) && total * WAD <= fee + HALF_WAD && total * WAD > amount
    ensures total == whole + 1 && part > HALF_WAD + whole
  {
    LargestRaw(amount, fee, whole, part);
  }

  lemma SplitTotal(fee: Decimal, hostRate: Rate)
    requires SplitFee(fee, hostRate).Ok?
    ensures var total: int := SplitFee(fee, hostRate).value.total;
      fee - HALF_WAD < total * WAD <= fee + HALF_WAD
  {
    hide Floor;
  }

  lemma ExceedingNeedsFraction(f: Fees, amount: Decimal, feeWad: U64, mode: FeeCalculation)
    requires CalculateFees(f, amount, feeWad, mode).Ok?
    requires FromU64(CalculateFees(f, amount, feeWad, mode).value.total) > amount
    ensures CanExceed(amount)
  {
    hide Floor, RawFee, SplitFee, CanExceed;
    var hostRate := PercentRate(f.hostFeePercentage);
    var tokens: nat := if hostRate > 0 then 2 else 1;
    var raw := RawFee(amount, feeWad, mode).value;
    var fee: Decimal := Max(raw, tokens * WAD);
    var total: int := SplitFee(fee, hostRate).value.total;
    assert fee < amount && total == CalculateFees(f, amount, feeWad, mode).value.total;
    SplitTotal(fee, hostRate);
    MinimumIsWhole(fee, tokens, total, amount);
    RawBelowAmount(amount, feeWad, mode);
    Exceeds(amount, fee, total);
  }

  lemma MinimumIsWhole(fee: nat, tokens: nat, total: nat, amount: nat)
    requires fee - HALF_WAD < total * WAD <= fee + HALF_WAD && fee < amount < total * WAD
    ensures fee != tokens * WAD
  {
  }

  lemma Exceeds(amount: Decimal, fee: Decimal, total: U64)
    requires WAD <= fee < amount && fee * WAD <= amount * (WAD - 1)
    requires total * WAD <= fee + HALF_WAD && total * WAD > amount
    ensures CanExceed(amount)
  {
    assert amount == amount / WAD * WAD + amount % WAD;
    ExceedingArith(amount, fee, total, amount / WAD, amount % WAD);
  }

  /** A rate of one less the smallest step takes all but one raw unit for each whole
      token and one for the rest. */
  lemma AllButOne(amount: nat, raw: nat, whole: nat, part: nat)
    requires amount == whole * WAD + part && 0 < part < WAD && IsFloor(raw, amount * (WAD - 1), WAD)
    ensures raw == amount - whole - 1
  {
  }

  lemma RoundsPast(amount: Decimal, fee: Decimal)
    requires CanExceed(amount) && fee == amount - amount / WAD - 1
    ensures TryRoundU64(fee) == Ok(amount / WAD + 1) && fee >= WAD && FromU64(amount / WAD + 1) > amount
  {
    RoundU64Iff(fee, amount / WAD + 1);
  }

  /** The rate just below one, the largest a validated configuration may have,
      takes a fee that rounds up past such an amount. */
  lemma FractionExceeds(amount: Decimal)
    requires CanExceed(amount)
    ensures var f := Fees(WAD - 1, 0, 0);
      && CalculateFees(f, amount, WAD - 1, Exclusive).Ok?
      && FromU64(CalculateFees(f, amount, WAD - 1, Exclusive).value.total) > amount
  {
    hide Floor, TryRoundU64;
    var raw := RawFee(amount, WAD - 1, Exclusive).value;
    assert IsFloor(raw, amount * (WAD - 1), WAD);
    AllButOne(amount, raw, amount / WAD, amount % WAD);
    hide TryMul;
    RoundsPast(amount, raw);
    hide CanExceed;
  }

  /** Half-up rounding can lift a fee above the amount it is taken on, for some
      rate, host share and mode, exactly on such amounts. */
  lemma FeeCanExceedIff(amount: Decimal)
    ensures CanExceed(amount)
       <==> (exists f: Fees, feeWad: U64, mode: FeeCalculation :: CostsMore(f, amount, feeWad, mode))
  {
    hide CalculateFees;
    if CanExceed(amount) {
      FractionExceeds(amount);
      assert CostsMore(Fees(WAD - 1, 0, 0), amount, WAD - 1, Exclusive);
    }
    if f: Fees, feeWad: U64, mode: FeeCalculation :| CostsMore(f, amount, feeWad, mode) {
      ExceedingNeedsFraction(f, amount, feeWad, mode);
    }
  }

  /** The inclusive rate `r / (1 + r)` is at most `r`, and can be computed. */
  lemma InclusiveRate(feeWad: U64)
    ensures RateAdd(feeWad, WAD).Ok? && RateDiv(feeWad, feeWad + WAD).Ok?
    ensures RateDiv(feeWad, feeWad + WAD).value <= feeWad
  {
    hide Floor;
    var rate := RateDiv(feeWad, feeWad + WAD).value;
    Arith.MulMono(WAD, feeWad + WAD, rate);
    Arith.CancelLe(rate, feeWad, WAD);
  }

  lemma TryMulMonotone(a: Decimal, b: Decimal, c: Decimal)
    requires b <= c && TryMul(a, c).Ok?
    ensures TryMul(a, b).Ok? && TryMul(a, b).value <= TryMul(a, c).value
  {
    Arith.MulMono(b, c, a);
    FloorOrdered(a * b, a * c, WAD);
  }

  /** On any amount, whole or not: wherever the exclusive fee can be computed the
      inclusive one can, and it charges neither more in total nor more for the
      host. */
  lemma InclusiveNeverMore(f: Fees, amount: Decimal, feeWad: U64)
    requires CalculateFees(f, amount, feeWad, Exclusive).Ok?
    ensures CalculateFees(f, amount, feeWad, Inclusive).Ok?
    ensures var e, i := CalculateFees(f, amount, feeWad, Exclusive).value, CalculateFees(f, amount, feeWad, Inclusive).value;
      i.total <= e.total && i.host <= e.host
  {
    hide Floor, TryRoundU64, TryMul;
    if feeWad > 0 && amount > 0 {
      InclusiveRate(feeWad);
      TryMulMonotone(amount, RateDiv(feeWad, feeWad + WAD).value, feeWad);
      var hostRate := PercentRate(f.hostFeePercentage);
      var minimum := FromU64(if hostRate > 0 then 2 else 1);
      var e: Decimal := Max(RawFee(amount, feeWad, Exclusive).value, minimum);
      var i: Decimal := Max(RawFee(amount, feeWad, Inclusive).value, minimum);
      SplitMonotone(i, e, hostRate);
    }
  }

  lemma SplitMonotone(i: Decimal, e: Decimal, hostRate: Rate)
    requires i <= e && SplitFee(e, hostRate).Ok?
    ensures SplitFee(i, hostRate).Ok?
    ensures SplitFee(i, hostRate).value.total <= SplitFee(e, hostRate).value.total
    ensures SplitFee(i, hostRate).value.host <= SplitFee(e, hostRate).value.host
  {
    hide Floor, TryRoundU64, TryMul;
    RoundMonotone(i, e);
    if hostRate > 0 {
      Commute(i, hostRate);
      Commute(e, hostRate);
      TryMulMonotone(hostRate, i, e);
      RoundMonotone(TryMul(i, hostRate).value, TryMul(e, hostRate).value);
    }
  }

  lemma Commute(a: Decimal, b: Decimal)
    ensures TryMul(a, b) == TryMul(b, a)
  {
    assert a * b == b * a;
  }

  /** Flash loan fees can be computed wherever the total fee can, on any amount, and
      split it exactly; on whole tokens they are at most the amount. */
  lemma FlashLoanSplit(f: Fees, amount: Decimal)
    requires f.hostFeePercentage <= 100 && CalculateFees(f, amount, f.flashLoanFeeWad, Exclusive).Ok?
    ensures CalculateFlashLoanFees(f, amount).Ok?
    ensures var total := CalculateFees(f, amount, f.flashLoanFeeWad, Exclusive).value.total;
      var charge := CalculateFlashLoanFees(f, amount).value;
      && charge.origination + charge.host == total
      && (amount % WAD == 0 ==> FromU64(total) <= amount)
  {
    hide CalculateFees;
    HostWithinTotal(f, amount, f.flashLoanFeeWad, Exclusive);
    if FromU64(CalculateFees(f, amount, f.flashLoanFeeWad, Exclusive).value.total) > amount {
      ExceedingNeedsFraction(f, amount, f.flashLoanFeeWad, Exclusive);
    }
  }

  // ---- the inclusive mode ----

  /** Below a rate of one, the inclusive rate is below a half. */
  lemma InclusiveHalf(feeWad: U64)
    requires feeWad < WAD
    ensures RateAdd(feeWad, WAD).Ok? && RateDiv(feeWad, feeWad + WAD).Ok?
    ensures RateDiv(feeWad, feeWad + WAD).value < HALF_WAD
  {
    hide Floor;
    var rate := RateDiv(feeWad, feeWad + WAD).value;
    Arith.CancelLt(rate, HALF_WAD, feeWad + WAD);
  }

  lemma HalfRoundsWithin(amount: nat, fee: nat, total: nat, whole: nat)
    requires whole * WAD <= amount < whole * WAD + WAD
    requires amount >= WAD && 2 * fee <= amount && total * WAD <= fee + HALF_WAD
    ensures total <= whole
  {
  }

  lemma MinimumWithin(amount: nat, tokens: nat, total: nat, whole: nat)
    requires whole * WAD <= amount < whole * WAD + WAD
    requires tokens * WAD < amount && total * WAD <= tokens * WAD + HALF_WAD
    ensures total <= whole
  {
  }

  /** With a rate below one, as validation demands of the borrow fee, the inclusive fee
      is within the whole tokens of any amount: only the exclusive mode exceeds one. */
  lemma InclusiveWithinWhole(f: Fees, amount: Decimal, feeWad: U64)
    requires feeWad < WAD && CalculateFees(f, amount, feeWad, Inclusive).Ok?
    ensures CalculateFees(f, amount, feeWad, Inclusive).value.total <= Floor(amount, WAD)
  {
    hide Floor, RawFee, SplitFee, TryMul;
    if feeWad > 0 && amount > 0 {
      var hostRate := PercentRate(f.hostFeePercentage);
      var tokens: nat := if hostRate > 0 then 2 else 1;
      var raw := RawFee(amount, feeWad, Inclusive).value;
      var fee: Decimal := Max(raw, tokens * WAD);
      var total: int := SplitFee(fee, hostRate).value.total;
      SplitTotal(fee, hostRate);
      if fee == tokens * WAD {
        MinimumWithin(amount, tokens, total, Floor(amount, WAD));
      } else {
        InclusiveRaw(amount, feeWad);
        HalfRoundsWithin(amount, fee, total, Floor(amount, WAD));
      }
    }
  }

  lemma InclusiveRaw(amount: Decimal, feeWad: U64)
    requires feeWad < WAD && RawFee(amount, feeWad, Inclusive).Ok?
    ensures 2 * RawFee(amount, feeWad, Inclusive).value <= amount
  {
    hide Floor;
    InclusiveHalf(feeWad);
    var rate := RateDiv(feeWad, feeWad + WAD).value;
    var raw := RawFee(amount, feeWad, Inclusive).value;
    assert raw * WAD <= amount * rate;
    Arith.MulMono(rate, HALF_WAD, amount);
  }
}
