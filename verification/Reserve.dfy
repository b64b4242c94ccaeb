/** A reserve: its liquidity, its collateral tokens and its interest. Each
    operation that updates fields is a function from the state before to the
    state after, which it may also change when it fails half way, and a method
    of a class that does it in place. */
module Reserve {
  import opened FixedPoint
  import opened ReserveConfig
  import RatePow
  import BorrowRate

  const SLOTS_PER_YEAR: U64 := 63_072_000
  const INITIAL_COLLATERAL_RATE: Rate := WAD

  // ---- liquidity ----

  datatype Liquidity = Liquidity(available: U64, borrowed: Decimal, index: Decimal, protocolFees: Decimal)

  const NEW_LIQUIDITY := Liquidity(0, 0, WAD, 0)

  function TotalSupply(l: Liquidity): Result<Decimal> {
    var held :- TryAdd(FromU64(l.available), l.borrowed);
    TrySub(held, l.protocolFees)
  }

  function Deposit(l: Liquidity, amount: U64): Step<Liquidity, ()> {
    if l.available + amount >= U64_LIMIT then Step(l, Err(MathOverflow))
    else Step(l.(available := l.available + amount), Ok(()))
  }

  function Withdraw(l: Liquidity, amount: U64): Step<Liquidity, ()> {
    if amount > l.available then Step(l, Err(InsufficientLiquidity))
    else Step(l.(available := l.available - amount), Ok(()))
  }

  function Borrow(l: Liquidity, amount: Decimal): Step<Liquidity, ()> {
    match TryFloorU64(amount)
    case Err(e) => Step(l, Err(e))
    case Ok(paid) =>
      if paid > l.available then Step(l, Err(InsufficientLiquidity)) else
      var lent := l.(available := l.available - paid);
      match TryAdd(l.borrowed, amount)
      case Err(e) => Step(lent, Err(e))
      case Ok(borrowed) => Step(lent.(borrowed := borrowed), Ok(()))
  }

  /** Settling more than the reserve has lent out only clears what it has. */
  function Repay(l: Liquidity, repaid: U64, settled: Decimal): Step<Liquidity, ()> {
    if l.available + repaid >= U64_LIMIT then Step(l, Err(MathOverflow))
    else Step(l.(available := l.available + repaid, borrowed := l.borrowed - Min(settled, l.borrowed)), Ok(()))
  }

  function ForgiveDebt(l: Liquidity, amount: Decimal): Step<Liquidity, ()> {
    match TrySub(l.borrowed, amount)
    case Err(e) => Step(l, Err(e))
    case Ok(borrowed) => Step(l.(borrowed := borrowed), Ok(()))
  }

  function Donate(l: Liquidity, amount: U64): Step<Liquidity, ()> {
    Deposit(l, amount)
  }

  function RedeemFees(l: Liquidity, amount: U64): Step<Liquidity, ()> {
    if amount > l.available then Step(l, Err(MathOverflow)) else
    var paid := l.(available := l.available - amount);
    match TrySub(l.protocolFees, FromU64(amount))
    case Err(e) => Step(paid, Err(e))
    case Ok(rest) => Step(paid.(protocolFees := rest), Ok(()))
  }

  function UtilizationRate(l: Liquidity): Result<Rate> {
    var supply :- TotalSupply(l);
    if supply == 0 || l.borrowed == 0 then Ok(0) else
    var held :- TryAdd(l.borrowed, FromU64(l.available));
    var rate :- TryDiv(l.borrowed, held);
    ToRate(rate)
  }

  /** The growth factor of `slots` slots at a yearly rate. */
  function GrowthFactor(borrowRate: Rate, slots: U64): Result<Rate> {
    var slotRate :- RateDivInt(borrowRate, SLOTS_PER_YEAR);
    var base :- RateAdd(WAD, slotRate);
    RatePow.Power(base, slots)
  }

  /** Grow index and debt by `factor`, and take the protocol's share. */
  function Grow(l: Liquidity, factor: Rate, takeRate: Rate): Step<Liquidity, ()> {
    match TryMul(l.index, factor)
    case Err(e) => Step(l, Err(e))
    case Ok(index) =>
      var indexed := l.(index := index);
      match NewDebt(l.borrowed, factor)
      case Err(e) => Step(indexed, Err(e))
      case Ok(newDebt) =>
        match AddFees(newDebt, takeRate, l.protocolFees)
        case Err(e) => Step(indexed, Err(e))
        case Ok(fees) =>
          var charged := indexed.(protocolFees := fees);
          match TryAdd(l.borrowed, newDebt)
          case Err(e) => Step(charged, Err(e))
          case Ok(borrowed) => Step(charged.(borrowed := borrowed), Ok(()))
  }

  function NewDebt(borrowed: Decimal, factor: Rate): Result<Decimal> {
    var grown :- TryMul(borrowed, factor);
    TrySub(grown, borrowed)
  }

  function AddFees(newDebt: Decimal, takeRate: Rate, fees: Decimal): Result<Decimal> {
    var taken :- TryMul(newDebt, takeRate);
    TryAdd(taken, fees)
  }

  function CompoundInterest(l: Liquidity, borrowRate: Rate, slots: U64, takeRate: Rate): Step<Liquidity, ()> {
    match GrowthFactor(borrowRate, slots)
    case Err(e) => Step(l, Err(e))
    case Ok(factor) => Grow(l, factor, takeRate)
  }

  class ReserveLiquidity {
    var available: U64
    var borrowed: Decimal
    var index: Decimal
    var protocolFees: Decimal

    function State(): Liquidity
      reads this
    {
      Liquidity(available, borrowed, index, protocolFees)
    }

    constructor ()
      ensures State() == NEW_LIQUIDITY
    {
      available := 0;
      borrowed := 0;
      index := WAD;
      protocolFees := 0;
    }

    method DepositLiquidity(amount: U64) returns (r: Result<()>)
      modifies this
      ensures Step(State(), r) == Deposit(old(State()), amount)
    {
      if available + amount >= U64_LIMIT {
        return Err(MathOverflow);
      }
      available := available + amount;
      r := Ok(());
    }

    method WithdrawLiquidity(amount: U64) returns (r: Result<()>)
      modifies this
      ensures Step(State(), r) == Withdraw(old(State()), amount)
    {
      if amount > available {
        return Err(InsufficientLiquidity);
      }
      available := available - amount;
      r := Ok(());
    }

    method BorrowLiquidity(amount: Decimal) returns (r: Result<()>)
      modifies this
      ensures Step(State(), r) == Borrow(old(State()), amount)
    {
      var paid :- TryFloorU64(amount);
      if paid > available {
        return Err(InsufficientLiquidity);
      }
      available := available - paid;
      borrowed :- TryAdd(borrowed, amount);
      r := Ok(());
    }

    method RepayLiquidity(repaid: U64, settled: Decimal) returns (r: Result<()>)
      modifies this
      ensures Step(State(), r) == Repay(old(State()), repaid, settled)
    {
      if available + repaid >= U64_LIMIT {
        return Err(MathOverflow);
      }
      available := available + repaid;
      var safeSettled := Min(settled, borrowed);
      borrowed := borrowed - safeSettled;
      r := Ok(());
    }

    method Forgive(amount: Decimal) returns (r: Result<()>)
      modifies this
      ensures Step(State(), r) == ForgiveDebt(old(State()), amount)
    {
      borrowed :- TrySub(borrowed, amount);
      r := Ok(());
    }

    method DonateLiquidity(amount: U64) returns (r: Result<()>)
      modifies this
      ensures Step(State(), r) == Donate(old(State()), amount)
    {
      r := DepositLiquidity(amount);
    }

    method RedeemProtocolFees(amount: U64) returns (r: Result<()>)
      modifies this
      ensures Step(State(), r) == RedeemFees(old(State()), amount)
    {
      if amount > available {
        return Err(MathOverflow);
      }
      available := available - amount;
      protocolFees :- TrySub(protocolFees, FromU64(amount));
      r := Ok(());
    }

    method Compound(borrowRate: Rate, slots: U64, takeRate: Rate) returns (r: Result<()>)
      modifies this
      ensures Step(State(), r) == CompoundInterest(old(State()), borrowRate, slots, takeRate)
    {
      // The checked division and the two checked sums cannot fail on what they are given.
      var slotRate := Floor(borrowRate, SLOTS_PER_YEAR);
      var power := RatePow.TryPow(WAD + slotRate, slots);
      var factor :- power;
      index :- TryMul(index, factor);
      var newDebt :- NewDebt(borrowed, factor);
      protocolFees :- AddFees(newDebt, takeRate, protocolFees);
      borrowed := borrowed + newDebt;
      r := Ok(());
    }
  }

  // ---- collateral ----

  function Mint(supply: U64, amount: U64): Step<U64, ()> {
    if supply + amount >= U64_LIMIT then Step(supply, Err(MathOverflow)) else Step(supply + amount, Ok(()))
  }

  function Burn(supply: U64, amount: U64): Step<U64, ()> {
    if amount > supply then Step(supply, Err(MathOverflow)) else Step(supply - amount, Ok(()))
  }

  class ReserveCollateral {
    var mintTotalSupply: U64

    constructor ()
      ensures mintTotalSupply == 0
    {
      mintTotalSupply := 0;
    }

    method MintTokens(amount: U64) returns (r: Result<()>)
      modifies this
      ensures Step(mintTotalSupply, r) == Mint(old(mintTotalSupply), amount)
    {
      if mintTotalSupply + amount >= U64_LIMIT {
        return Err(MathOverflow);
      }
      mintTotalSupply := mintTotalSupply + amount;
      r := Ok(());
    }

    method BurnTokens(amount: U64) returns (r: Result<()>)
      modifies this
      ensures Step(mintTotalSupply, r) == Burn(old(mintTotalSupply), amount)
    {
      if amount > mintTotalSupply {
        return Err(MathOverflow);
      }
      mintTotalSupply := mintTotalSupply - amount;
      r := Ok(());
    }
  }

  /** Collateral tokens per unit of liquidity. */
  function ExchangeRate(mintSupply: U64, totalLiquidity: Decimal): Result<Rate> {
    if mintSupply == 0 || totalLiquidity == 0 then Ok(INITIAL_COLLATERAL_RATE) else
    var rate :- TryDiv(FromU64(mintSupply), totalLiquidity);
    ToRate(rate)
  }

  function CollateralToLiquidity(rate: Rate, amount: U64): Result<U64> {
    var liquidity :- TryDiv(FromU64(amount), rate);
    TryFloorU64(liquidity)
  }

  function LiquidityToCollateral(rate: Rate, amount: U64): Result<U64> {
    var collateral :- TryMul(FromU64(amount), rate);
    TryFloorU64(collateral)
  }

  // ---- the reserve ----

  datatype Pool = Pool(liquidity: Liquidity, mintSupply: U64)

  const NEW_POOL := Pool(NEW_LIQUIDITY, 0)

  function PoolRate(p: Pool): Result<Rate> {
    var supply :- TotalSupply(p.liquidity);
    ExchangeRate(p.mintSupply, supply)
  }

  function CollateralFor(p: Pool, amount: U64): Result<U64> {
    var rate :- PoolRate(p);
    LiquidityToCollateral(rate, amount)
  }

  function LiquidityFor(p: Pool, collateral: U64): Result<U64> {
    var rate :- PoolRate(p);
    CollateralToLiquidity(rate, collateral)
  }

  function DepositToPool(p: Pool, amount: U64): Step<Pool, U64> {
    match CollateralFor(p, amount)
    case Err(e) => Step(p, Err(e))
    case Ok(collateral) =>
      var Step(liquidity, deposited) := Deposit(p.liquidity, amount);
      if deposited.Err? then Step(p.(liquidity := liquidity), Err(deposited.error)) else
      var Step(supply, minted) := Mint(p.mintSupply, collateral);
      Step(Pool(liquidity, supply), if minted.Err? then Err(minted.error) else Ok(collateral))
  }

  function RedeemFromPool(p: Pool, collateral: U64): Step<Pool, U64> {
    match LiquidityFor(p, collateral)
    case Err(e) => Step(p, Err(e))
    case Ok(amount) =>
      var Step(supply, burned) := Burn(p.mintSupply, collateral);
      if burned.Err? then Step(p.(mintSupply := supply), Err(burned.error)) else
      var Step(liquidity, withdrawn) := Withdraw(p.liquidity, amount);
      Step(Pool(liquidity, supply), if withdrawn.Err? then Err(withdrawn.error) else Ok(amount))
  }

  function CurrentBorrowRate(c: Config, l: Liquidity): Result<Rate> {
    var utilization :- UtilizationRate(l);
    BorrowRate.RateAt(c, utilization)
  }

  /** Interest since `lastSlot`; a slot before it is an error. */
  function AccrueInterest(c: Config, l: Liquidity, lastSlot: U64, slot: U64): Step<Liquidity, ()> {
    if slot < lastSlot then Step(l, Err(MathOverflow))
    else if slot == lastSlot then Step(l, Ok(()))
    else
      match CurrentBorrowRate(c, l)
      case Err(e) => Step(l, Err(e))
      case Ok(rate) => CompoundInterest(l, rate, slot - lastSlot, PercentRate(c.protocolTakeRate))
  }

  /** Fees that can be paid out now. */
  function RedeemableFees(l: Liquidity): Result<U64> {
    var whole :- TryFloorU64(l.protocolFees);
    Ok(Min(l.available, whole))
  }

  datatype Repayment = Repayment(settled: Decimal, repaid: U64)

  /** `calculate_repay`: the largest amount means all of the debt. */
  function CalculateRepay(amount: U64, borrowed: Decimal): Result<Repayment> {
    var settled: Decimal := if amount == U64_MAX then borrowed else Min(FromU64(amount), borrowed);
    var repaid :- TryCeilU64(settled);
    Ok(Repayment(settled, repaid))
  }

  class Reserve {
    const config: Config
    const liquidity: ReserveLiquidity
    const collateral: ReserveCollateral
    var lastUpdateSlot: U64

    function State(): Pool
      reads liquidity, collateral
    {
      Pool(liquidity.State(), collateral.mintTotalSupply)
    }

    constructor (config: Config, slot: U64)
      ensures State() == NEW_POOL && lastUpdateSlot == slot && this.config == config
      ensures fresh(liquidity) && fresh(collateral)
    {
      this.config := config;
      liquidity := new ReserveLiquidity();
      collateral := new ReserveCollateral();
      lastUpdateSlot := slot;
    }

    method DepositLiquidity(amount: U64) returns (r: Result<U64>)
      modifies liquidity, collateral
      ensures Step(State(), r) == DepositToPool(old(State()), amount)
    {
      var minted :- CollateralFor(State(), amount);
      var deposited := liquidity.DepositLiquidity(amount);
      var _ :- deposited;
      var issued := collateral.MintTokens(minted);
      var _ :- issued;
      r := Ok(minted);
    }

    method RedeemCollateral(amount: U64) returns (r: Result<U64>)
      modifies liquidity, collateral
      ensures Step(State(), r) == RedeemFromPool(old(State()), amount)
    {
      var paid :- LiquidityFor(State(), amount);
      var burned := collateral.BurnTokens(amount);
      var _ :- burned;
      var withdrawn := liquidity.WithdrawLiquidity(paid);
      var _ :- withdrawn;
      r := Ok(paid);
    }

    method Accrue(slot: U64) returns (r: Result<()>)
      modifies liquidity
      ensures Step(liquidity.State(), r)
           == AccrueInterest(config, old(liquidity.State()), lastUpdateSlot, slot)
    {
      if slot < lastUpdateSlot {
        return Err(MathOverflow);
      }
      if slot > lastUpdateSlot {
        var rate :- CurrentBorrowRate(config, liquidity.State());
        r := liquidity.Compound(rate, slot - lastUpdateSlot, PercentRate(config.protocolTakeRate));
      } else {
        r := Ok(());
      }
    }
  }
}
