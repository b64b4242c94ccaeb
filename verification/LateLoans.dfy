/** Loans that are brought up to date late: how many accruals a loan may miss
    before it can owe more than the reserve has on record, and by how much. */
module LateLoans {
  import opened FixedPoint
  import opened ReserveConfig
  import opened Reserve
  import opened Obligation
  import Ledger
  import BorrowRate
  import Borrowing
  import RatePow
  import Arith

  // ---- one loan, brought up to date after some accruals ----

  /** The reserve after one accrual for each growth factor. */
  function GrowAll(l: Liquidity, factors: seq<Rate>, takeRate: Rate): Result<Liquidity>
    decreases |factors|
  {
    if factors == [] then Ok(l) else
    match Grow(l, factors[0], takeRate)
    case Step(_, Err(e)) => Err(e)
    case Step(next, Ok(_)) => GrowAll(next, factors[1..], takeRate)
  }

  /** A loan that was up to date and covered before the accruals, and can be
      brought up to date after them. */
  predicate Late(l: Liquidity, d: Debt, factors: seq<Rate>, takeRate: Rate) {
    && (forall i :: 0 <= i < |factors| ==> factors[i] >= WAD)
    && d.index == l.index > 0 && d.borrowed <= l.borrowed
    && GrowAll(l, factors, takeRate).Ok?
    && AccrueDebt(d, GrowAll(l, factors, takeRate).value.index).Ok?
  }

  /** Brought up to date, the loan owes more than the reserve has on record. */
  predicate Exceeds(d: Debt, l: Liquidity) {
    var refreshed := AccrueDebt(d, l.index);
    refreshed.Ok? && refreshed.value.borrowed > l.borrowed
  }

  predicate StillCovered(l: Liquidity, d: Debt, factors: seq<Rate>, takeRate: Rate)
    requires Late(l, d, factors, takeRate)
  {
    !Exceeds(d, GrowAll(l, factors, takeRate).value)
  }

  lemma OneAccrualFloors(l: Liquidity, factor: Rate, takeRate: Rate)
    requires GrowAll(l, [factor], takeRate).Ok?
    ensures IsFloor(GrowAll(l, [factor], takeRate).value.index, l.index * factor, WAD)
    ensures IsFloor(GrowAll(l, [factor], takeRate).value.borrowed, l.borrowed * factor, WAD)
  {
    hide Floor;
    assert GrowAll(Grow(l, factor, takeRate).next, [factor][1..], takeRate) == Ok(Grow(l, factor, takeRate).next);
  }

  /** The record is truncated once for both, the debt by at least as much. */
  lemma TruncatedInOrder(debt: nat, before: nat, record: nat, recordBefore: nat, factor: nat)
    requires debt * WAD <= before * factor && before <= recordBefore && IsFloor(record, recordBefore * factor, WAD)
    ensures debt <= record
  {
    Arith.MulMono(before, recordBefore, factor);
    Arith.FloorsOrdered(debt, before * factor, record, recordBefore * factor, WAD);
  }

  /** Accruals at a factor of one. */
  function Ones(n: nat): (factors: seq<Rate>)
    ensures |factors| == n && forall i :: 0 <= i < n ==> factors[i] == WAD
  {
    if n == 0 then [] else [WAD] + Ones(n - 1)
  }

  lemma {:induction false} OnesChangeNothing(l: Liquidity, n: nat)
    requires l.index < U64_LIMIT * WAD && l.borrowed < U64_LIMIT * WAD
    ensures GrowAll(l, Ones(n), 0) == Ok(l)
  {
    if n > 0 {
      assert Ones(n)[1..] == Ones(n - 1);
      assert Grow(l, WAD, 0) == Step(l, Ok(()));
      OnesChangeNothing(l, n - 1);
    }
  }

  /** One unit of debt: at a factor of one and a half it stays one unit on record
      twice, while the index grows to two and a quarter. */
  const UNIT := Liquidity(0, 1, WAD, 0)
  const UNIT_ONCE := Liquidity(0, 1, HALF_MORE, 0)
  const UNIT_TWICE := Liquidity(0, 1, 9 * WAD / 4, 0)
  const HALF_MORE: Rate := 3 * HALF_WAD

  function UnitDebt(): Debt {
    Debt(seq(32, _ => 0), WAD, 1, 0)
  }

  lemma TwoHalves(takeRate: Rate)
    ensures Grow(UNIT, HALF_MORE, takeRate) == Step(UNIT_ONCE, Ok(()))
    ensures Grow(UNIT_ONCE, HALF_MORE, takeRate) == Step(UNIT_TWICE, Ok(()))
    ensures Exceeds(UnitDebt(), UNIT_TWICE)
  {
  }

  lemma TwoAccrualsExceed(n: nat)
    ensures var factors := [HALF_MORE, HALF_MORE] + Ones(n);
      Late(UNIT, UnitDebt(), factors, 0) && !StillCovered(UNIT, UnitDebt(), factors, 0)
  {
    var factors := [HALF_MORE, HALF_MORE] + Ones(n);
    TwoHalves(0);
    hide Grow, AccrueDebt;
    assert factors[1..] == [HALF_MORE] + Ones(n) && factors[1..][1..] == Ones(n);
    OnesChangeNothing(UNIT_TWICE, n);
    assert GrowAll(UNIT_ONCE, factors[1..], 0) == Ok(UNIT_TWICE);
    assert GrowAll(UNIT, factors, 0) == Ok(UNIT_TWICE);
  }

  /** Every loan brought up to date after `k` accruals is still covered by what the
      reserve has on record, whatever the amounts and factors, exactly for at most
      one accrual. */
  lemma CoveredUpToOneAccrual(k: nat)
    ensures k <= 1
       <==> forall l: Liquidity, d: Debt, factors: seq<Rate>, takeRate: Rate ::
              |factors| == k && Late(l, d, factors, takeRate) ==> StillCovered(l, d, factors, takeRate)
  {
    if k <= 1 {
      forall l: Liquidity, d: Debt, factors: seq<Rate>, takeRate: Rate | |factors| == k && Late(l, d, factors, takeRate)
        ensures StillCovered(l, d, factors, takeRate)
      {
        if k == 1 {
          var factor := factors[0];
          assert factors == [factor];
          hide GrowAll, AccrueDebt, IsFloor;
          OneAccrualFloors(l, factor, takeRate);
          var next := GrowAll(l, [factor], takeRate).value;
          Ledger.DebtGrowth(d, next.index, factor);
          TruncatedInOrder(AccrueDebt(d, next.index).value.borrowed, d.borrowed, next.borrowed, l.borrowed, factor);
        }
      }
    } else {
      TwoAccrualsExceed(k - 2);
    }
  }

  // ---- such a loan from the code's own operations ----

  /** A borrow rate of half the utilization, without fees and added weight. */
  predicate HalfCurve(c: Config) {
    && Valid(c) && c.optimalUtilizationRate == 100 && c.minBorrowRate == 0 && c.optimalBorrowRate == 50
    && c.protocolTakeRate == 0 && c.fees.borrowFeeWad == 0 && c.addedBorrowWeightBps == 0
  }

  /** Any valid configuration becomes one by setting its curve, fees and weight. */
  lemma HalfCurveExists(c: Config)
    requires Valid(c)
    ensures HalfCurve(c.(optimalUtilizationRate := 100, maxUtilizationRate := 100, minBorrowRate := 0, optimalBorrowRate := 50,
      maxBorrowRate := 50, superMaxBorrowRate := 50, protocolTakeRate := 0, fees := c.fees.(borrowFeeWad := 0),
      addedBorrowWeightBps := 0))
  {
  }

  lemma HalfOf(c: Config, u: Rate)
    requires HalfCurve(c) && u <= WAD
    ensures BorrowRate.RateAt(c, u) == Ok(u / 2)
  {
    assert RateDiv(u, WAD) == Ok(u);
    assert RateMul(u, HALF_WAD) == Ok(u / 2);
  }

  lemma OneSlot(rate: Rate)
    requires rate <= WAD
    ensures GrowthFactor(rate, 1) == Ok(WAD + rate / SLOTS_PER_YEAR)
  {
    var base: Rate := WAD + rate / SLOTS_PER_YEAR;
    Arith.MulMono(base, 2 * WAD, base);
    assert RateMul(base, base).Ok?;
    hide Floor;
    assert RatePow.PowLoop(RateMul(base, base).value, base, 0) == Ok(base);
  }

  // Two tokens deposited, 1.1 of them lent, and two accruals a slot apart.
  const LENT := Liquidity(1, 1_100_000_000_000_000_000, WAD, 0)
  const LENT_ONCE := Liquidity(1, 1_100_000_004_567_720_034, 1_000_000_004_152_472_759, 0)
  const LENT_TWICE := Liquidity(1, 1_100_000_009_135_440_096, 1_000_000_008_304_945_543, 0)

  function LentDebt(): Debt {
    Debt(seq(32, _ => 0), WAD, 1_100_000_000_000_000_000, 0)
  }

  function PlainMarket(): Borrowing.Market {
    Borrowing.Market(0, WAD, WAD, None)
  }

  lemma LentUtilizations()
    ensures UtilizationRate(LENT) == Ok(523_809_523_809_523_809)
    ensures UtilizationRate(LENT_ONCE) == Ok(523_809_524_845_287_987)
  {
  }

  lemma LentGrows()
    ensures Grow(LENT, 1_000_000_004_152_472_759, 0) == Step(LENT_ONCE, Ok(()))
    ensures Grow(LENT_ONCE, 1_000_000_004_152_472_767, 0) == Step(LENT_TWICE, Ok(()))
  {
  }

  lemma LentExceeds()
    ensures Exceeds(LentDebt(), LENT_TWICE)
  {
  }

  lemma AccrueIs(c: Config, l: Liquidity, u: Rate, slot: U64)
    requires HalfCurve(c) && slot + 1 < U64_LIMIT && UtilizationRate(l) == Ok(u) && u <= WAD
    ensures AccrueInterest(c, l, slot, slot + 1) == Grow(l, WAD + u / 2 / SLOTS_PER_YEAR, 0)
  {
    HalfOf(c, u);
    OneSlot(u / 2);
    hide Grow, GrowthFactor, UtilizationRate, BorrowRate.RateAt;
    assert PercentRate(c.protocolTakeRate) == 0;
  }

  lemma MaxBorrowOf(c: Config, amount: Decimal)
    requires HalfCurve(c) && amount == 1_100_000_000_000_000_000
    ensures Borrowing.CalculateBorrow(c, PlainMarket(), 2, U64_MAX, amount, FromU64(2))
         == Ok(Borrowing.BorrowResult(amount, 1, 0, 0))
  {
    assert RatePow.Pow(10, 0) == 1;
    assert Borrowing.BorrowWeight(c) == WAD;
    assert TryDiv(amount, WAD) == Ok(amount);
    assert Borrowing.MaxBorrowAmount(c, PlainMarket(), 1, amount) == Ok(amount);
  }

  /** A deposit into a new reserve, the most that a borrow value allows lent out of it,
      two accruals a slot apart: then the loan owes more than the record. */
  predicate ExceedsAfterTwo(c: Config, slot: U64, deposit: U64, m: Borrowing.Market, maxValue: Decimal, d: Debt,
                            l0: Liquidity, l1: Liquidity, l2: Liquidity)
    requires slot + 2 < U64_LIMIT
  {
    var funded := Deposit(NEW_LIQUIDITY, deposit);
    var lent := Borrowing.CalculateBorrow(c, m, deposit, U64_MAX, maxValue, FromU64(deposit));
    && funded.result.Ok? && lent.Ok? && lent.value.borrowAmount == d.borrowed
    && Borrow(funded.next, d.borrowed) == Step(l0, Ok(())) && d.index == l0.index
    && AccrueInterest(c, l0, slot, slot + 1) == Step(l1, Ok(()))
    && AccrueInterest(c, l1, slot + 1, slot + 2) == Step(l2, Ok(()))
    && Exceeds(d, l2)
  }

  lemma TwoTokensLent()
    ensures Deposit(NEW_LIQUIDITY, 2) == Step(Liquidity(2, 0, WAD, 0), Ok(()))
    ensures Borrow(Liquidity(2, 0, WAD, 0), LentDebt().borrowed) == Step(LENT, Ok(()))
  {
  }

  lemma LentAccrues(c: Config, slot: U64)
    requires HalfCurve(c) && slot + 2 < U64_LIMIT
    ensures AccrueInterest(c, LENT, slot, slot + 1) == Step(LENT_ONCE, Ok(()))
    ensures AccrueInterest(c, LENT_ONCE, slot + 1, slot + 2) == Step(LENT_TWICE, Ok(()))
  {
    hide HalfCurve, Grow, AccrueInterest, UtilizationRate;
    LentUtilizations();
    AccrueIs(c, LENT, 523_809_523_809_523_809, slot);
    AccrueIs(c, LENT_ONCE, 523_809_524_845_287_987, slot + 1);
    LentGrows();
  }

  /** The code gets there, at any slot and with any such configuration: with a loan of
      1.1 tokens. */
  lemma LateLoanCanExceed(c: Config, slot: U64)
    requires HalfCurve(c) && slot + 2 < U64_LIMIT
    ensures exists deposit: U64, m: Borrowing.Market, maxValue: Decimal, d: Debt, l0: Liquidity, l1: Liquidity, l2: Liquidity ::
      ExceedsAfterTwo(c, slot, deposit, m, maxValue, d, l0, l1, l2)
  {
    hide HalfCurve, Grow, AccrueInterest, Exceeds, Borrow, Deposit, Borrowing.CalculateBorrow;
    TwoTokensLent();
    MaxBorrowOf(c, LentDebt().borrowed);
    LentAccrues(c, slot);
    LentExceeds();
    assert ExceedsAfterTwo(c, slot, 2, PlainMarket(), LentDebt().borrowed, LentDebt(), LENT, LENT_ONCE, LENT_TWICE);
  }
}
