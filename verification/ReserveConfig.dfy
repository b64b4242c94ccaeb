/** A reserve's configuration and its validation. */
module ReserveConfig {
  import opened FixedPoint
  import opened Bytes

  type I64 = x: int | -0x8000_0000_0000_0000 <= x < 0x8000_0000_0000_0000

  datatype ReserveType = Regular | Isolated

  datatype Fees = Fees(borrowFeeWad: U64, flashLoanFeeWad: U64, hostFeePercentage: U8)

  datatype Config = Config(
    optimalUtilizationRate: U8,
    maxUtilizationRate: U8,
    loanToValueRatio: U8,
    liquidationBonus: U8,
    maxLiquidationBonus: U8,
    liquidationThreshold: U8,
    maxLiquidationThreshold: U8,
    minBorrowRate: U8,
    optimalBorrowRate: U8,
    maxBorrowRate: U8,
    superMaxBorrowRate: U64,
    fees: Fees,
    depositLimit: U64,
    borrowLimit: U64,
    feeReceiver: Pubkey,
    protocolLiquidationFee: U8,
    protocolTakeRate: U8,
    addedBorrowWeightBps: U64,
    reserveType: ReserveType,
    scaledPriceOffsetBps: I64,
    extraOracle: Option<Pubkey>,
    attributedBorrowLimitOpen: U64,
    attributedBorrowLimitClose: U64)

  const MAX_BONUS_PCT: nat := 25
  const MAX_PROTOCOL_LIQUIDATION_FEE_DECA_BPS: nat := 50
  const MAX_SCALED_PRICE_OFFSET_BPS: int := 5000
  const MIN_SCALED_PRICE_OFFSET_BPS: int := -2000

  /** `validate_reserve_config`; every rejection is `InvalidConfig`. */
  predicate Valid(c: Config) {
    && c.optimalUtilizationRate <= c.maxUtilizationRate <= 100
    && c.loanToValueRatio < 100
    && c.liquidationBonus <= c.maxLiquidationBonus <= 100
    && c.loanToValueRatio <= c.liquidationThreshold <= c.maxLiquidationThreshold <= 100
    && c.minBorrowRate <= c.optimalBorrowRate <= c.maxBorrowRate <= c.superMaxBorrowRate
    && c.fees.borrowFeeWad < WAD
    && c.fees.hostFeePercentage <= 100
    && c.protocolLiquidationFee <= MAX_PROTOCOL_LIQUIDATION_FEE_DECA_BPS
    && c.maxLiquidationBonus * 100 + c.protocolLiquidationFee * 10 <= MAX_BONUS_PCT * 100
    && c.protocolTakeRate <= 100
    && (c.reserveType.Isolated? ==> c.loanToValueRatio == 0 && c.liquidationThreshold == 0)
    && MIN_SCALED_PRICE_OFFSET_BPS <= c.scaledPriceOffsetBps <= MAX_SCALED_PRICE_OFFSET_BPS
    && c.attributedBorrowLimitOpen <= c.attributedBorrowLimitClose
  }
}
