# gyrfalcon: a verified model of its lending arithmetic and decisions

gyrfalcon is a liquidation engine. It links a patched copy of a lending SDK,
where rounding direction decides who gains, and it decides itself what to fire.
This project models both and proves what they keep.

| file | part of the system |
|---|---|
| Arith, FixedPoint, RatePow | 192-bit decimals and 128-bit rates in units of 10^-18, with checked operations; compounding by square-and-multiply |
| RateLimiter, RateLimiterRuns, RateLimiterGuarantee | the outflow rate limiter and its sliding-window guarantee over whole runs |
| ReserveConfig, BorrowRate | configuration and its validation; the three-segment borrow rate |
| Reserve, ReserveLaws, ShareValue, Ledger, LateLoans, LazyLedger | a reserve's fields updated in place; what its operations conserve and undo; the value of its tokens; all loans of one reserve over whole runs, brought up to date at every accrual or late |
| Fees (module ReserveFees), Borrowing, Liquidation | fees, borrow amounts, liquidation and withdrawal amounts |
| Obligation, ObligationRecords, ObligationCodec, AccountArea | deposits and borrows of an obligation; its account bytes |
| Bytes, Wire, InstructionCodec | little-endian words, wire fields, the instruction encoding |
| Sequences, Treasury, Ranking, Arbitration | the slot budget and the arbitration of one window |
| Sizing | stepping a repay size down until a transaction fits |
| AccountSync | the simulated account set |
| Breakers | the circuit breakers |

`dafny verify dfyconfig.toml` checks the whole project.

## How it is modelled

- Words are numbers with their bounds: `U64`, `Rate` (128 bits), `Decimal` (192
  bits). Operations that Rust checks return `Err(MathOverflow)`; `unwrap`,
  `expect` and slices out of range are `Err(Panic)`. Plain `+` on 64 and 32 bits
  wraps around, because the release profile has no overflow checks; it matters in
  the rate limiter and in the revert counters.
- An object whose methods update its fields is a class. Each method is proved
  equal to a function from the state before to the state after and the result. A
  failing call also has a state after: what Rust had changed before `?` stays
  changed. Theorems about runs are lemmas about those functions.
- A run is any list of calls. In the ledger a failing operation is rolled back,
  as the runtime does with a failing transaction.
- `unpack` of an instruction reads the fields that a table lists for its tag and
  then builds the instruction; `pack` appends field by field.
- Money in arbitration is `real`. The tip model and the route (compute units and
  transaction lengths at each size) are function parameters. Keys that are only
  compared are numbers there.

## Where code and documentation differ

The model follows the code.

- Rate limiter (rate_limiter.rs:13-15): the outflow in the closed interval is
  documented as less than twice the limit. It can be exactly twice, and no bound
  holds once the end of a window wraps around 64 bits (`WrappedRun`). `DocumentedBound` says
  exactly when the guarantee holds as documented, `SlidingWindowBound` when "at
  most" does, `RecentOutflowBound` when it does over the half-open interval.
- Bonus (reserve.rs:373-432): an obligation past its super unhealthy value is
  meant to earn the largest bonus. When the two thresholds coincide it earns the
  least one (`FullBonusExactly`).
- Exchange rate (reserve.rs:875-930): truncation favours the redeemer.
  `RedeemKeepsShareIff` and `RoundTripGainsIff` say exactly when that costs the
  others nothing, with `RedeemCanLowerShare` and `LargeDepositCanGain` as
  instances where it does; `RedeemLoss` and `DepositThenRedeem` bound the cost.
- Debts (obligation.rs:392-412): a loan brought up to date late can owe more than
  the reserve has on record: it is sure to be covered after at most one accrual
  and no more (`CoveredUpToOneAccrual`, `LateLoanCanExceed`). Brought up to date at
  every accrual all loans together are covered (`DebtAlwaysCovered`); otherwise the
  shortfall is bounded (`LateDebtIsBounded`).
- Fees (reserve.rs:1166-1214): on a fraction of a token the rounded fee can exceed
  the amount, exactly on the amounts that `FeeCanExceedIff` describes. At a rate
  below one it takes the exclusive mode (`InclusiveWithinWhole`), which a
  borrow uses on whole tokens only.
- Instructions (instruction.rs:775): `UpdateMarketMetadata` unpacks but packs to
  nothing; all others round trip (`RoundTripsIff`).
- Obligation accounts (obligation.rs:415-417): the data area fits one deposit and
  nine borrows; ten borrows without a deposit abort the program (`TenEntriesFit`).
- Sizing (sizing.rs:398-411): the log says that a route is infeasible at any size;
  that is so exactly when the smallest size tried is one (`ZeroMeansNothingFits`).
- Treasury check (treasury_check.rs:47-53): the balance is documented as the last
  check and is the first. The reported reason differs exactly when the balance and
  a cap both refuse (`DocumentedOrderExactly`).
- Account sync (account_sync.rs:35-40): arrival order is documented as not being
  trusted; two updates of a key at its highest slot with different data still
  depend on it (`ConvergesIff`).

## Model

| member | source | states |
|---|---|---|
| RateLimiterGuarantee.SlidingWindowBound | patches/solend-sdk/src/state/rate_limiter.rs:13-15 | Over every run up to a horizon, the outflow accepted in any closed interval [s - window_duration, s] is at most 2 x max_outflow, if and only if max_outflow is 0 or the horizon's window ends inside 64 bits. |
| RateLimiterGuarantee.DocumentedBound | patches/solend-sdk/src/state/rate_limiter.rs:13-15 | The guarantee as documented, strict and over the closed interval, holds over every run up to a horizon if and only if max_outflow is positive, the horizon's window ends inside 64 bits, the horizon is short of the last slot of the second window, and the weight of the first window lasts. |
| RateLimiterGuarantee.TwiceIsReached | patches/solend-sdk/src/state/rate_limiter.rs:13-15 | Wherever the last slot of the second window is inside 64 bits, two accepted requests put exactly 2 x max_outflow into one closed interval. |
| RateLimiterGuarantee.RecentOutflowBound | patches/solend-sdk/src/state/rate_limiter.rs:90-103 | Over the last window_duration slots alone the outflow stays strictly below 2 x max_outflow, if and only if max_outflow is positive and the truncated weight of the previous window does not vanish early. |
| RateLimiterGuarantee.PracticalWindows | patches/solend-sdk/src/state/rate_limiter.rs:96-100 | The truncated weight never vanishes early for windows of at most 10^18 slots. |
| RateLimiterGuarantee.WrappedRun | patches/solend-sdk/src/state/rate_limiter.rs:57-87 | Where window start plus duration wraps around 64 bits, any number n of full requests in one slot are all accepted, n x max_outflow together: no bound holds there. |
| RateLimiterGuarantee.AcceptedIffRemaining | patches/solend-sdk/src/state/rate_limiter.rs:106-142 | In every reachable state the remaining outflow can be computed at every slot that is not before the window, and a positive request succeeds exactly when it is at most that. |
| RateLimiterGuarantee.RemainingGrows | patches/solend-sdk/src/state/rate_limiter.rs:106-122 | With no request in between, the remaining outflow never shrinks inside a window. |
| RateLimiterRuns.RunHolds | patches/solend-sdk/src/state/rate_limiter.rs:42-142 | Every run from a new limiter keeps the window start aligned and the two fields equal to the totals accepted in the current and the previous window, each at most max_outflow. |
| RateLimiterRuns.OutflowIs | patches/solend-sdk/src/state/rate_limiter.rs:90-103 | In a reachable state current_outflow neither overflows nor underflows; it is the floor of the weighted previous total plus the current total. |
| RateLimiterRuns.RequestAccepted | patches/solend-sdk/src/state/rate_limiter.rs:125-142 | A request changes only the current total, by its quantity exactly when it fits; a query moves the window the same way. |
| RateLimiter.RateLimiter.constructor | patches/solend-sdk/src/state/rate_limiter.rs:42-55 | A new limiter starts empty in the aligned window of its slot. |
| RateLimiter.RateLimiter.RollTo | patches/solend-sdk/src/state/rate_limiter.rs:57-87 | In place, the state and the result of moving to the slot's window, also when it fails. |
| RateLimiter.RateLimiter.RemainingOutflow | patches/solend-sdk/src/state/rate_limiter.rs:106-122 | In place, the saturated difference of limit and outflow, zero when the outflow is above the limit. |
| RateLimiter.RateLimiter.Record | patches/solend-sdk/src/state/rate_limiter.rs:125-142 | In place, charge the request or fail, leaving the window moved either way. |
| FixedPoint.TryMul | patches/solend-sdk/src/math/decimal.rs:218-226 | A product of decimals is rounded down, and fails exactly when the raw product leaves 192 bits. |
| FixedPoint.TryDiv | patches/solend-sdk/src/math/decimal.rs:190-200 | A quotient of decimals is rounded down, and fails exactly on a zero divisor or a scaled numerator over 192 bits. |
| FixedPoint.FloorU64Iff | patches/solend-sdk/src/math/decimal.rs:102-108 | A value floors to q exactly when it is in [q, q + 1), and floors at all exactly below 2^64 tokens. |
| FixedPoint.CeilU64Iff | patches/solend-sdk/src/math/decimal.rs:90-99 | A value rounds up to q exactly when it is in (q - 1, q], and rounds up at all exactly up to 2^64 - 1 tokens. |
| FixedPoint.RoundU64Iff | patches/solend-sdk/src/math/decimal.rs:80-87 | A value rounds to q exactly when it is in [q - 1/2, q + 1/2), and rounds at all exactly while the value plus a half is below 2^64 tokens. |
| FixedPoint.RateMul | patches/solend-sdk/src/math/rate.rs:169-178 | A product of rates is rounded down, and fails exactly when it leaves 128 bits. |
| FixedPoint.RateDiv | patches/solend-sdk/src/math/rate.rs:147-157 | A quotient of rates is rounded down, with its failures characterized. |
| RatePow.TryPow | patches/solend-sdk/src/math/rate.rs:76-94 | The square-and-multiply loop computes the recursive power, including when an overflow aborts it. |
| RatePow.AtLeastSimpleInterest | patches/solend-sdk/src/math/rate.rs:76-94 | If (1 + x)^n can be computed it is at least 1 + n x, however products are truncated. |
| RatePow.AtMostExactPower | patches/solend-sdk/src/math/rate.rs:76-94 | The computed power never exceeds the exact one, for any base and exponent. |
| RatePow.PowerMonotone | patches/solend-sdk/src/math/rate.rs:76-94 | A smaller base succeeds wherever a larger one does, and yields no more. |
| Reserve.ReserveLiquidity.DepositLiquidity | patches/solend-sdk/src/state/reserve.rs:696-702 | In place, add to the available liquidity or fail unchanged. |
| Reserve.ReserveLiquidity.WithdrawLiquidity | patches/solend-sdk/src/state/reserve.rs:705-715 | In place, take from the available liquidity, or fail. |
| Reserve.ReserveLiquidity.BorrowLiquidity | patches/solend-sdk/src/state/reserve.rs:718-732 | In place, pay out the whole tokens and record the full amount as borrowed. |
| Reserve.ReserveLiquidity.RepayLiquidity | patches/solend-sdk/src/state/reserve.rs:735-745 | In place, take the repayment in and lower the recorded debt, clamped to it. |
| Reserve.ReserveLiquidity.Forgive | patches/solend-sdk/src/state/reserve.rs:748-752 | In place, write off part of the recorded debt. |
| Reserve.ReserveLiquidity.DonateLiquidity | patches/solend-sdk/src/state/reserve.rs:755-761 | In place, add a donation. |
| Reserve.ReserveLiquidity.RedeemProtocolFees | patches/solend-sdk/src/state/reserve.rs:764-774 | In place, pay out fees and lower what is owed to the protocol. |
| Reserve.ReserveLiquidity.Compound | patches/solend-sdk/src/state/reserve.rs:789-814 | In place, compound the index, the debt and the protocol fees; what was changed before a failure stays changed. |
| Reserve.ReserveCollateral.MintTokens | patches/solend-sdk/src/state/reserve.rs:857-863 | In place, grow the token supply or fail. |
| Reserve.ReserveCollateral.BurnTokens | patches/solend-sdk/src/state/reserve.rs:866-872 | In place, shrink the token supply or fail. |
| Reserve.Reserve.DepositLiquidity | patches/solend-sdk/src/state/reserve.rs:198-207 | In place over both parts of a reserve, deposit and mint at the rate before the deposit. |
| Reserve.Reserve.RedeemCollateral | patches/solend-sdk/src/state/reserve.rs:210-219 | In place, burn and pay out at the rate before the burn. |
| Reserve.Reserve.Accrue | patches/solend-sdk/src/state/reserve.rs:282-291 | In place, accrue for the slots since the last update. |
| ReserveLaws.RedeemablePaysOut | patches/solend-sdk/src/state/reserve.rs:569-576 | What calculate_redeem_fees allows can always be paid out, and then less than one token of fees is due or nothing is available. |
| ReserveLaws.BorrowRepaid | patches/solend-sdk/src/state/reserve.rs:718-745 | Repaying a whole borrow restores the debt exactly and leaves one token more available when the borrow had a fraction. |
| ReserveLaws.UtilizationAtMostOne | patches/solend-sdk/src/state/reserve.rs:777-786 | Utilization is never above one. |
| ReserveLaws.BorrowRateExists | patches/solend-sdk/src/state/reserve.rs:222-273 | With a validated configuration every reserve whose utilization can be computed has a borrow rate, between the least and the super-max rate. |
| ReserveLaws.BorrowRaisesRate | patches/solend-sdk/src/state/reserve.rs:222-273 | A successful borrow never lowers utilization or borrow rate. |
| ShareValue.DepositKeepsShare | patches/solend-sdk/src/state/reserve.rs:198-207 | With tokens outstanding, a deposit never lowers the liquidity behind one token. |
| ShareValue.MintedIsFair | patches/solend-sdk/src/state/reserve.rs:918-930 | The tokens minted for a deposit are worth no more than it, at the supply before the deposit. |
| ShareValue.BorrowSupply | patches/solend-sdk/src/state/reserve.rs:718-732 | A borrow raises the total supply by less than one whole token and never lowers it. |
| ShareValue.RedeemFeesSupply | patches/solend-sdk/src/state/reserve.rs:764-774 | Paying out fees leaves the total supply exactly unchanged. |
| ShareValue.RepaySupply | patches/solend-sdk/src/state/reserve.rs:353-370 | Repaying a settled amount rounded up never lowers the total supply, even when the reserve clamps it. |
| ShareValue.GrowthAtLeastOne | patches/solend-sdk/src/state/reserve.rs:789-803 | A growth factor that can be computed is at least one. |
| ShareValue.AccrueSupply | patches/solend-sdk/src/state/reserve.rs:282-291 | With a take rate of at most 100 percent, accrual never lowers the total supply. |
| ShareValue.RateBounds | patches/solend-sdk/src/state/reserve.rs:875-887 | The exchange rate is the truncated quotient of token supply and total supply. |
| ShareValue.RedeemLoss | patches/solend-sdk/src/state/reserve.rs:210-219 | A redemption lowers the value of the tokens left by less than one part in the raw exchange rate. |
| ShareValue.RedeemKeepsShareIff | patches/solend-sdk/src/state/reserve.rs:210-219 | A redemption keeps the value of the tokens left if and only if truncating the exchange rate does not lift the payout by a whole unit over the exact share of the supply. |
| ShareValue.ExactRateKeepsShare | patches/solend-sdk/src/state/reserve.rs:210-219 | In particular no redemption costs the others anything on a reserve whose exchange rate is exact. |
| ShareValue.DepositThenRedeem | patches/solend-sdk/src/state/reserve.rs:198-219 | Depositing L and at once redeeming the tokens minted returns L' with L' r < (r + 1) L, r the raw rate after the deposit; so nothing is gained while L <= r. |
| ShareValue.RoundTripGainsIff | patches/solend-sdk/src/state/reserve.rs:198-219 | On any reserve, depositing and at once redeeming gains if and only if (L + 1) r <= minted * WAD, with the tokens minted and the raw rate after the deposit, both known beforehand. |
| Ledger.DebtAlwaysCovered | patches/solend-sdk/src/state/reserve.rs:718-814 | Over every run from a new reserve, with every loan brought up to date at each accrual, the reserve's recorded debt is at least the sum of all loans. |
| Ledger.RepayIsExact | patches/solend-sdk/src/state/reserve.rs:735-745 | In such runs the clamp of a repayment never bites: exactly the settled amount leaves both the reserve's debt and the loan. |
| Ledger.GrowCovers | patches/solend-sdk/src/state/reserve.rs:789-814 | One accrual step: the reserve truncates once, every loan once, and the reserve still covers them. |
| Ledger.DebtGrowth | patches/solend-sdk/src/state/obligation.rs:392-412 | A debt brought up to an index grows by at most the factor that index was truncated from. |
| LateLoans.CoveredUpToOneAccrual | patches/solend-sdk/src/state/obligation.rs:392-412 | Every loan brought up to date after k accruals is still covered by the reserve's record, whatever the amounts, factors and take rate, if and only if k <= 1. |
| LateLoans.LateLoanCanExceed | patches/solend-sdk/src/state/reserve.rs:282-325 | The code gets there: from a new reserve, a deposit, a maximum borrow of 1.1 tokens at a borrow rate of half the utilization, and two accruals a slot apart, at any slot, leave a late loan owing more than the reserve has on record. |
| LazyLedger.LateDebtIsBounded | patches/solend-sdk/src/state/reserve.rs:718-814 | Over every run in which loans are brought up to date only when used, or never, what they owe together exceeds the reserve's record by at most one raw unit for each accrual, grown by the interest since the start. |
| LazyLedger.RepayBounded | patches/solend-sdk/src/state/reserve.rs:735-745 | That bound survives a repayment that the reserve has to clamp. |
| LazyLedger.RefreshWithin | patches/solend-sdk/src/state/obligation.rs:392-412 | Bringing a loan up to date, at any time, never takes it above its untruncated value. |
| Ledger.ShareNeverFalls | patches/solend-sdk/src/state/reserve.rs:198-207 | Over every run of deposits, borrows, repayments, donations, fee payouts and accruals, failed ones rolled back, the liquidity behind one token never falls. |
| BorrowRate.RateIsInterpolated | patches/solend-sdk/src/state/reserve.rs:222-273 | In all three segments the rate is the lower end plus the truncated share of the rise, and no intermediate step fails. |
| BorrowRate.RateInSegment | patches/solend-sdk/src/state/reserve.rs:222-273 | With a validated configuration every utilization up to one has a rate, between the two ends of its segment and between the least and the super-max rate. |
| BorrowRate.RateMonotone | patches/solend-sdk/src/state/reserve.rs:222-273 | The curve never falls as utilization rises, also across both kinks. |
| BorrowRate.RateAtSegmentEnd | patches/solend-sdk/src/state/reserve.rs:222-273 | The curve passes exactly through the configured rate at the end of every segment that is not empty. |
| ReserveFees.HostWithinTotal | patches/solend-sdk/src/state/reserve.rs:1166-1214 | With a host percentage up to 100: host fee <= total fee through every rounding, equal at 100, and each is positive exactly when its rates and the amount are. |
| ReserveFees.FeeWithinAmount | patches/solend-sdk/src/state/reserve.rs:1166-1214 | On whole tokens the total fee is at most the amount. |
| ReserveFees.FeeCanExceedIff | patches/solend-sdk/src/state/reserve.rs:1166-1214 | Some rate, host share and mode charge more than the amount if and only if the amount is at least one token, has less than 2^64 - 1 whole ones, and its fraction is more than a half plus one raw unit for each whole token. |
| ReserveFees.InclusiveNeverMore | patches/solend-sdk/src/state/reserve.rs:1166-1180 | Wherever the exclusive fee can be computed the inclusive one can, and neither part of it is larger. |
| ReserveFees.FlashLoanSplit | patches/solend-sdk/src/state/reserve.rs:1150-1163 | On any amount flash loan fees can be computed wherever the total can, and origination and host part add up to it; on whole tokens it is at most the amount. |
| ReserveFees.InclusiveWithinWhole | patches/solend-sdk/src/state/reserve.rs:1166-1214 | At a rate below one the inclusive fee is within the whole tokens of any amount, so only the exclusive mode can exceed the amount. |
| Borrowing.PriceUpperBound | patches/solend-sdk/src/state/reserve.rs:112-123 | The upper-bound price is one of the prices the reserve knows and at least every other. |
| Borrowing.PriceLowerBound | patches/solend-sdk/src/state/reserve.rs:126-137 | The lower-bound price is one of the prices the reserve knows and at most every other. |
| Borrowing.MaxBorrowWithinValue | patches/solend-sdk/src/state/reserve.rs:294-325 | "Borrow as much as possible", which has no check, still keeps the weighted upper-bound value within the maximum, exactly and as the code would compute it. |
| Borrowing.MaxBorrowSucceedsIff | patches/solend-sdk/src/state/reserve.rs:294-325 | At a fee rate that validation accepts, "borrow as much as possible" succeeds if and only if the token unit, the amount and its fees can be computed: its last subtraction never fails. |
| Borrowing.MaxBorrowFits | patches/solend-sdk/src/state/reserve.rs:294-325 | Its receipt and fee are together the whole tokens of the amount; the amount is within the available liquidity and the remaining capacity; the reserve can pay it out. |
| Borrowing.ExactBorrowFits | patches/solend-sdk/src/state/reserve.rs:326-350 | A borrow of a given amount returns it, charges the fee on top, and stays within the maximum value as computed. |
| Liquidation.BonusInRange | patches/solend-sdk/src/state/reserve.rs:373-432 | With a validated configuration an unhealthy obligation always gets a bonus, between the least and the largest configured one plus the protocol fee; the cap of 25 percent never bites. |
| Liquidation.BonusMonotone | patches/solend-sdk/src/state/reserve.rs:373-432 | A deeper debt never earns a smaller bonus. |
| Liquidation.FullBonusExactly | patches/solend-sdk/src/state/reserve.rs:373-432 | From the super unhealthy value on the largest bonus is due, if and only if the thresholds differ or the two bonuses agree. |
| Liquidation.LiquidationAmountBounds | patches/solend-sdk/src/state/obligation.rs:178-190 | The amount covered is within request and debt, and its share of the debt is worth at most a fifth of the borrows, the debt and the cap. |
| Liquidation.LiquidationValueBound | patches/solend-sdk/src/state/reserve.rs:503-510 | The value due for part of a debt is at most that part of the debt plus the bonus on it. |
| Liquidation.SettleBounds | patches/solend-sdk/src/state/reserve.rs:460-533 | Whichever way value and collateral compare: settles at most the target, collects it rounded up, withdraws at most the larger of the deposit and, for dust, one unit, and takes all collateral only when it runs short. |
| Liquidation.PartialLimits | patches/solend-sdk/src/state/reserve.rs:435-540 | A liquidation of a debt worth more than one keeps all those limits at once. |
| Liquidation.PartialFair | patches/solend-sdk/src/state/reserve.rs:435-540 | Unless collateral runs short, withdrawn * collateral value * borrowed * WAD <= deposited * debt value * settled * (WAD + bonus): every floor favours the borrower. |
| Liquidation.DustIsClosed | patches/solend-sdk/src/state/reserve.rs:459-499 | With enough collateral a dust debt is settled in full and leaves the obligation's list, for its value plus bonus or for one unit. |
| Liquidation.ProtocolFeeWithinBonus | patches/solend-sdk/src/state/reserve.rs:546-566 | The protocol takes at least one unit; beyond that one, its fee comes out of the bonus only. |
| Liquidation.MaxWithdrawIsSafe | patches/solend-sdk/src/state/obligation.rs:114-169 | The liquidity behind the maximum withdrawal, at the lower-bound price and weighted by loan-to-value, is worth at most the unused borrow allowance. |
| Obligation.RunKeepsValid | patches/solend-sdk/src/state/obligation.rs:92-111 | Over every run of finding or adding, repaying and withdrawing, each list names a reserve at most once and both together stay within ten entries. |
| Obligation.FindOrAddFinds | patches/solend-sdk/src/state/obligation.rs:264-289 | Finding or adding a borrow succeeds exactly when the reserve is there or a place is free, yields the entry found afterwards, and changes no amount owed. |
| Obligation.FindOrAddDepositFinds | patches/solend-sdk/src/state/obligation.rs:193-232 | The same of a deposit and what is held. |
| Obligation.RepayIsSubtraction | patches/solend-sdk/src/state/obligation.rs:92-101 | A repayment succeeds up to the whole debt, lowers that debt by exactly the settled amount and no other, and removes the entry exactly when nothing is left. |
| Obligation.WithdrawIsSubtraction | patches/solend-sdk/src/state/obligation.rs:103-111 | The same of a withdrawal and what is held. |
| Obligation.ObligationBook.FindOrAddDeposit | patches/solend-sdk/src/state/obligation.rs:208-225 | In place, keeping the lists valid. |
| Obligation.ObligationBook.FindOrAddBorrow | patches/solend-sdk/src/state/obligation.rs:264-282 | In place, keeping the lists valid. |
| Obligation.ObligationBook.RepayAt | patches/solend-sdk/src/state/obligation.rs:92-101 | In place, keeping the lists valid. |
| Obligation.ObligationBook.WithdrawAt | patches/solend-sdk/src/state/obligation.rs:103-111 | In place, keeping the lists valid. |
| ObligationCodec.UnpackIff | patches/solend-sdk/src/state/obligation.rs:531-645 | A buffer unpacks to an obligation exactly when the version is supported, the obligation can be packed, and packing it there would change no byte. |
| ObligationCodec.UnpackPacked | patches/solend-sdk/src/state/obligation.rs:422-645 | Whatever the buffer held, packing and unpacking restores every obligation that can be packed, and packing again changes nothing. |
| ObligationCodec.TenEntriesFit | patches/solend-sdk/src/state/obligation.rs:415-417 | Within ten entries the lists fit the data area except for ten borrows and no deposit. |
| ObligationCodec.ReachablePacks | patches/solend-sdk/src/state/obligation.rs:415-417 | Every obligation that operations can produce, with decimals of 128 bits, packs and is restored exactly when it is not that case. |
| ObligationCodec.PackIntoSlice | patches/solend-sdk/src/state/obligation.rs:422-528 | The in-place writer, with its loops over records at a moving offset, leaves exactly the specified bytes and aborts exactly when something does not fit. |
| ObligationCodec.PackDeposits | patches/solend-sdk/src/state/obligation.rs:488-506 | The deposit loop writes every record at its stride and ends where the borrows begin. |
| ObligationCodec.PackBorrows | patches/solend-sdk/src/state/obligation.rs:508-527 | The borrow loop writes every record from where the deposits end. |
| ObligationCodec.UnpackFromSlice | patches/solend-sdk/src/state/obligation.rs:531-645 | The reader computes the specified result on every buffer, errors and aborts included. |
| ObligationCodec.UnpackDeposits | patches/solend-sdk/src/state/obligation.rs:586-604 | The deposit loop reads every record or aborts at the first that leaves the buffer. |
| ObligationCodec.UnpackBorrows | patches/solend-sdk/src/state/obligation.rs:605-622 | The borrow loop does the same from where the deposits end. |
| ObligationRecords.CollateralIff | patches/solend-sdk/src/state/obligation.rs:488-506 | A deposit record reads as a deposit exactly when it is that deposit written. |
| ObligationRecords.DebtIff | patches/solend-sdk/src/state/obligation.rs:508-527 | A borrow record reads as a borrow exactly when it is that borrow written. |
| ObligationRecords.HeaderIff | patches/solend-sdk/src/state/obligation.rs:466-483 | A header reads as an obligation's exactly when it is that header written. |
| Bytes.NumberRoundTrip | patches/solend-sdk/src/state/mod.rs:37-46 | Little-endian words restore the number. |
| Bytes.BytesRoundTrip | patches/solend-sdk/src/state/mod.rs:37-46 | Reading and writing a word restores its bytes. |
| Wire.ReadIff | patches/solend-sdk/src/instruction.rs:796-860 | A field is read exactly when the input starts with that field's bytes, and what follows is left over. |
| Wire.ReadAllIff | patches/solend-sdk/src/instruction.rs:796-860 | The same of any list of fields. |
| InstructionCodec.UnpackIff | patches/solend-sdk/src/instruction.rs:535-793 | For every instruction but UpdateMarketMetadata, an input unpacks to it exactly when it starts with its encoding; what follows is ignored. |
| InstructionCodec.PrefixFree | patches/solend-sdk/src/instruction.rs:863-1090 | No encoding of such an instruction is a prefix of another's. |
| InstructionCodec.RoundTripsIff | patches/solend-sdk/src/instruction.rs:535-1090 | Packing and unpacking restores an instruction if and only if it is not UpdateMarketMetadata. |
| InstructionCodec.MetadataIsLost | patches/solend-sdk/src/instruction.rs:775-775 | UpdateMarketMetadata unpacks from its tag but packs to nothing, which does not unpack. |
| InstructionCodec.BuildConfigIff | patches/solend-sdk/src/instruction.rs:572-637 | The fields of a reserve configuration rebuild exactly that configuration, and an invalid reserve type fails. |
| InstructionCodec.Pack | patches/solend-sdk/src/instruction.rs:863-1090 | Appending field by field to the byte vector yields the encoding. |
| InstructionCodec.PackConfig | patches/solend-sdk/src/instruction.rs:895-966 | The fields of a configuration are appended in the order they are read. |
| InstructionCodec.Buffer.Append | patches/solend-sdk/src/instruction.rs:863-1090 | Appending keeps tag and earlier fields and adds one field. |
| Ranking.RankedIff | crates/strategy/src/arbitration.rs:48-54 | The ranking is the only order that is highest value first and keeps the order of equal values. |
| Ranking.RankedContents | crates/strategy/src/arbitration.rs:48-54 | Ranking loses and adds no candidate. |
| Ranking.ArrivalOrderIsLostIff | crates/strategy/src/arbitration.rs:48-54 | The order candidates arrive in does not matter if and only if their values tell them apart. |
| Arbitration.Arbitrate | crates/strategy/src/arbitration.rs:41-101 | The loop over the ranked candidates, with its list of locked reserves and its budget, gives each the outcome its predecessors leave it. |
| Arbitration.JudgedUnique | crates/strategy/src/arbitration.rs:41-101 | The rules leave nothing open: the results are determined. |
| Arbitration.FiredReservesDistinct | crates/strategy/src/arbitration.rs:75-81 | No two candidates fire on one reserve. |
| Arbitration.SlotCapHolds | crates/strategy/src/arbitration.rs:83-95 | Once anything fires, the tips fired so far are within the slot cap, after every candidate. |
| Arbitration.FiredIsAdmissible | crates/strategy/src/arbitration.rs:60-93 | A fired candidate is above the profit floor, within the per-transaction cap, with enough balance, and carries its own tip. |
| Arbitration.ConflictLosesToHigher | crates/strategy/src/arbitration.rs:71-81 | Every reserve-conflict deferral has an earlier fired candidate on that reserve with at least its value. |
| Arbitration.UnfiredIsBarred | crates/strategy/src/arbitration.rs:60-101 | With tips that are not negative, every candidate that does not fire is still barred when the whole window is committed; in particular each slot-budget deferral still would not fit. |
| Arbitration.DiscardedAreLast | crates/strategy/src/arbitration.rs:61-67 | Discarded candidates are the last ones. |
| Treasury.DocumentedOrderExactly | crates/strategy/src/treasury_check.rs:46-73 | Approvals agree with the documented order of checks, and a refusal is reported as documented if and only if the balance and a cap do not both refuse. |
| Treasury.SlotBudget.Commit | crates/strategy/src/treasury_check.rs:76-78 | In place, add a tip to what the slot has committed. |
| Sizing.SizePositionWithFeasibility | crates/strategy/src/sizing.rs:329-418 | The loop ends and returns the first feasible size down the grid, or zero past its end, with the exact number of step-downs, the table use, and the constraint of the size just above. |
| Sizing.DecisionUnique | crates/strategy/src/sizing.rs:329-418 | That specification determines the decision. |
| Sizing.AtMostNineteen | crates/strategy/src/sizing.rs:354-418 | No size of 64 bits is stepped down more than nineteen times. |
| Sizing.NineteenIsReached | crates/strategy/src/sizing.rs:354-418 | Nineteen are needed at size nineteen. |
| Sizing.LargestOnGrid | crates/strategy/src/sizing.rs:324-418 | No feasible size on the grid exceeds the decision. |
| Sizing.LosesLessThanAStep | crates/strategy/src/sizing.rs:324-418 | If smaller sizes are never harder, every feasible size is below the decision plus one step. |
| Sizing.ZeroMeansNothingFits | crates/strategy/src/sizing.rs:398-411 | A result of zero means that no size at all fits, for every route that smaller sizes never make harder, if and only if the smallest size tried is one. |
| AccountSync.ConvergesIff | crates/sim/src/account_sync.rs:34-50 | Every order of arrival of a list of updates leads to the same state if and only if updates of a key at its highest slot carry the same data. |
| AccountSync.DistinctSlotsConverge | crates/sim/src/account_sync.rs:34-50 | In particular when no key repeats a slot. |
| AccountSync.RunHoldsTops | crates/sim/src/account_sync.rs:41-50 | After any updates exactly the keys mentioned are held, each with data of its highest slot, and the current slot is the highest of all. |
| AccountSync.LastTopWins | crates/sim/src/account_sync.rs:41-50 | Among updates of a key at its highest slot, the last to arrive is held. |
| AccountSync.LagIsDistance | crates/sim/src/account_sync.rs:69-73 | The lag of a key is the distance of the two highest slots; it never saturates. |
| AccountSync.AccountSyncPipeline.ApplyUpdate | crates/sim/src/account_sync.rs:41-50 | In place, and the answer tells whether the update was taken. |
| AccountSync.AccountSyncPipeline.AccountLag | crates/sim/src/account_sync.rs:69-73 | The lag of a key held, none otherwise. |
| Breakers.OutIffStreak | crates/strategy/src/breakers.rs:69-93 | After any trace with one limit, a route is out exactly when its reverts since its last success or re-arm reach the limit (or one, for a limit of zero), even if the counter has wrapped. |
| Breakers.RouteIsIndependent | crates/strategy/src/breakers.rs:69-93 | Whether a route is out depends on its own events only. |
| Breakers.FlagsStand | crates/strategy/src/breakers.rs:95-110 | A drawdown halt stands from its trip to an explicit re-arm; the treasury and sync-lag halts stand from a bad report to the next good one. |
| Breakers.CheckReportsFirst | crates/strategy/src/breakers.rs:112-141 | A submission is allowed exactly when the trace leaves no breaker tripped for it; otherwise the first tripped one in priority order is reported. |
| Breakers.BreakerState.RecordRevert | crates/strategy/src/breakers.rs:69-75 | In place, the wrapped count and the route taken out at the limit. |
| Breakers.BreakerState.RecordSuccess | crates/strategy/src/breakers.rs:77-80 | In place, count cleared and route back. |
| Breakers.BreakerState.Rearm | crates/strategy/src/breakers.rs:84-87 | In place, count cleared and route back. |
| Breakers.BreakerState.RearmAll | crates/strategy/src/breakers.rs:90-93 | In place, all counts cleared and all routes back. |
| Breakers.BreakerState.SetTreasuryBelowFloor | crates/strategy/src/breakers.rs:95-97 | In place, the last report. |
| Breakers.BreakerState.SetDrawdownTripped | crates/strategy/src/breakers.rs:99-101 | In place, the halt. |
| Breakers.BreakerState.ResetDrawdown | crates/strategy/src/breakers.rs:104-106 | In place, the explicit re-arm. |
| Breakers.BreakerState.SetProtocolSyncLagHalted | crates/strategy/src/breakers.rs:108-110 | In place, the last report of a protocol. |
| Breakers.BreakerState.Allows | crates/strategy/src/breakers.rs:116-141 | The answer is the specified check of the current state. |

## Left out

- I/O, networking and async code: feeds, transactions sent, dashboards, persistence, logging.
- The Kamino adapter: it decodes a foreign account layout through floating point.
- Transaction compilation, lookup tables and token account derivation: the lengths and compute units they lead to are parameters of a route.
- IEEE rounding and NaN of `f64` money: `real` takes their place, and the sort compares every pair of values.
- The dynamic tip model, profit estimates, routing, the position book and the ledger of profits: one-pass filters and sums.
- The gate that feeds outcomes back into the breakers in the main binary, and a revert limit that changes during a run.
- Packing of reserves, lending markets and rate limiters: the same record technique as obligations, with more fields.
- Reserve accounts' owners, oracles and token programs, and the account checks of the on-chain program that calls the SDK.
- A rate limiter whose configuration changes between calls, and runs of a limiter with a window duration of zero: such a limiter is switched off.
- Forgiven debts and liquidations inside ledger runs: how the program combines those calls is not part of the SDK.
- Redemptions in `Ledger.ShareNeverFalls`: they can lower the share value; `ShareValue.RedeemLoss` bounds by how much.
- Aliasing of two reserves or two obligations: a reserve owns its two parts, and an obligation its lists.
- Ranking.RankByNet: the library's stable sort is specified by an insertion sort; how the library sorts is not modelled.
