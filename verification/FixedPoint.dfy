/** Fixed-point arithmetic of the lending library: `Decimal` is a 192-bit and
    `Rate` a 128-bit count of 10^-18 units, and every operation that can leave
    its word is checked. */
module FixedPoint {
  import Arith

  const WAD: nat := 1_000_000_000_000_000_000
  const HALF_WAD: nat := 500_000_000_000_000_000
  const PERCENT_SCALER: nat := 10_000_000_000_000_000
  const U8_LIMIT: nat := 0x100
  const U32_LIMIT: nat := 0x1_0000_0000
  const U64_LIMIT: nat := 0x1_0000_0000_0000_0000
  const U64_MAX: nat := 0xffff_ffff_ffff_ffff
  const U128_LIMIT: nat := 0x1_0000_0000_0000_0000_0000_0000_0000_0000
  const U192_LIMIT: nat := 0x1_0000_0000_0000_0000_0000_0000_0000_0000_0000_0000_0000_0000

  type U8 = x: nat | x < U8_LIMIT
  type U32 = x: nat | x < U32_LIMIT
  type U64 = x: nat | x < U64_LIMIT
  /** Raw scaled value held in a `U128`. */
  type Rate = x: nat | x < U128_LIMIT
  /** Raw scaled value held in a `U192`. */
  type Decimal = x: nat | x < U192_LIMIT

  datatype Error =
    | MathOverflow
    | InvalidAccountInput
    | OutflowRateLimitExceeded
    | InsufficientLiquidity
    | BorrowTooLarge
    | BorrowTooSmall
    | ObligationHealthy
    | InvalidAmount
    | LiquidationTooSmall
    | NegativeInterestRate
    | ObligationReserveLimit
    | ObligationDepositsEmpty
    | ObligationBorrowsEmpty
    | InvalidObligationCollateral
    | InvalidObligationLiquidity
    | InvalidConfig
    | InstructionUnpackError
    | InvalidAccountData
    | Panic // an `unwrap`, `expect` or slice index that aborts the process

  datatype Option<+T> = None | Some(value: T)

  datatype Result<+T> = Ok(value: T) | Err(error: Error) {
    predicate IsFailure() {
      Err?
    }

    function PropagateFailure<U>(): Result<U>
      requires Err?
    {
      Err(error)
    }

    function Extract(): T
      requires Ok?
    {
      value
    }
  }

  /** What a mutating operation leaves behind: the state after the call, also
      when it failed half way, and what it returned. */
  datatype Step<+S, +T> = Step(next: S, result: Result<T>)

  /** `q` is `n / d` rounded down. */
  predicate IsFloor(q: int, n: int, d: int) {
    q * d <= n < q * d + d
  }

  function Floor(n: nat, d: nat): (q: nat)
    requires d > 0
    ensures IsFloor(q, n, d) && q <= n
  {
    Arith.DivMod(n, d);
    Arith.FactorGrows(n / d, d);
    n / d
  }

  lemma FloorOrdered(m: nat, n: nat, d: nat)
    requires m <= n && d > 0
    ensures Floor(m, d) <= Floor(n, d)
  {
    hide Floor;
    Arith.FloorsOrdered(Floor(m, d), m, Floor(n, d), n, d);
  }

  lemma FloorOfMultiple(q: nat, d: nat)
    requires d > 0
    ensures Floor(q * d, d) == q
  {
    hide Floor;
    Arith.ExactFloor(Floor(q * d, d), q, d);
  }

  function Min(a: nat, b: nat): (m: nat)
    ensures m <= a && m <= b && (m == a || m == b)
  {
    if a <= b then a else b
  }

  function Max(a: nat, b: nat): (m: nat)
    ensures m >= a && m >= b && (m == a || m == b)
  {
    if a >= b then a else b
  }

  // ---- Decimal ----

  function FromU64(n: U64): (r: Decimal)
    ensures r == n * WAD
  {
    n * WAD
  }

  function TryAdd(a: Decimal, b: Decimal): Result<Decimal> {
    if a + b < U192_LIMIT then Ok(a + b) else Err(MathOverflow)
  }

  function TrySub(a: Decimal, b: Decimal): Result<Decimal> {
    if b <= a then Ok(a - b) else Err(MathOverflow)
  }

  /** Product of two decimals: rounded down, and an error exactly when the raw
      product leaves 192 bits. */
  function TryMul(a: Decimal, b: Decimal): (r: Result<Decimal>)
    ensures r.Ok? <==> a * b < U192_LIMIT
    ensures r.Ok? ==> IsFloor(r.value, a * b, WAD)
  {
    if a * b < U192_LIMIT then Ok(Floor(a * b, WAD)) else Err(MathOverflow)
  }

  /** Quotient of two decimals: rounded down, and an error exactly on a zero
      divisor or when the scaled numerator leaves 192 bits. */
  function TryDiv(a: Decimal, b: Decimal): (r: Result<Decimal>)
    ensures r.Ok? <==> b != 0 && a * WAD < U192_LIMIT
    ensures r.Ok? ==> IsFloor(r.value, a * WAD, b)
  {
    if a * WAD >= U192_LIMIT || b == 0 then Err(MathOverflow) else Ok(Floor(a * WAD, b))
  }

  function TryMulInt(a: Decimal, n: U64): Result<Decimal> {
    if a * n < U192_LIMIT then Ok(a * n) else Err(MathOverflow)
  }

  function TryDivInt(a: Decimal, n: U64): (r: Result<Decimal>)
    ensures r.Ok? <==> n != 0
    ensures r.Ok? ==> IsFloor(r.value, a, n)
  {
    if n == 0 then Err(MathOverflow) else Ok(Floor(a, n))
  }

  function TryFloorU64(a: Decimal): (r: Result<U64>)
    ensures r.Ok? ==> IsFloor(r.value, a, WAD)
  {
    var q := Floor(a, WAD);
    if q < U64_LIMIT then Ok(q) else Err(MathOverflow)
  }

  function TryCeilU64(a: Decimal): (r: Result<U64>)
    ensures r.Ok? ==> a <= r.value * WAD < a + WAD
  {
    if WAD - 1 + a >= U192_LIMIT then Err(MathOverflow) else
    var q := Floor(WAD - 1 + a, WAD);
    if q < U64_LIMIT then Ok(q) else Err(MathOverflow)
  }

  /** Rounds half up. */
  function TryRoundU64(a: Decimal): (r: Result<U64>)
    ensures r.Ok? ==> a - HALF_WAD < r.value * WAD <= a + HALF_WAD
  {
    if HALF_WAD + a >= U192_LIMIT then Err(MathOverflow) else
    var q := Floor(HALF_WAD + a, WAD);
    if q < U64_LIMIT then Ok(q) else Err(MathOverflow)
  }

  /** A decimal has the floor `q` exactly when it is in `[q, q + 1)` tokens, and has
      one exactly when that fits 64 bits. */
  lemma FloorU64Iff(a: Decimal, q: U64)
    ensures TryFloorU64(a) == Ok(q) <==> IsFloor(q, a, WAD)
    ensures TryFloorU64(a).Ok? <==> a < U64_LIMIT * WAD
  {
  }

  lemma CeilU64Iff(a: Decimal, q: U64)
    ensures TryCeilU64(a) == Ok(q) <==> a <= q * WAD < a + WAD
    ensures TryCeilU64(a).Ok? <==> a <= U64_MAX * WAD
  {
  }

  lemma RoundU64Iff(a: Decimal, q: U64)
    ensures TryRoundU64(a) == Ok(q) <==> q * WAD <= a + HALF_WAD < q * WAD + WAD
    ensures TryRoundU64(a).Ok? <==> a + HALF_WAD < U64_LIMIT * WAD
  {
  }

  // ---- Rate ----

  function PercentRate(percent: U8): (r: Rate)
    ensures r == percent * PERCENT_SCALER
  {
    percent * PERCENT_SCALER
  }

  function ToRate(a: Decimal): Result<Rate> {
    if a < U128_LIMIT then Ok(a) else Err(MathOverflow)
  }

  function RateAdd(a: Rate, b: Rate): Result<Rate> {
    if a + b < U128_LIMIT then Ok(a + b) else Err(MathOverflow)
  }

  function RateSub(a: Rate, b: Rate): Result<Rate> {
    if b <= a then Ok(a - b) else Err(MathOverflow)
  }

  function RateMul(a: Rate, b: Rate): (r: Result<Rate>)
    ensures r.Ok? <==> a * b < U128_LIMIT
    ensures r.Ok? ==> IsFloor(r.value, a * b, WAD)
  {
    if a * b < U128_LIMIT then Ok(Floor(a * b, WAD)) else Err(MathOverflow)
  }

  function RateDiv(a: Rate, b: Rate): (r: Result<Rate>)
    ensures r.Ok? <==> b != 0 && a * WAD < U128_LIMIT
    ensures r.Ok? ==> IsFloor(r.value, a * WAD, b)
  {
    if a * WAD >= U128_LIMIT || b == 0 then Err(MathOverflow) else Ok(Floor(a * WAD, b))
  }

  function RateDivInt(a: Rate, n: U64): (r: Result<Rate>)
    ensures r.Ok? <==> n != 0
    ensures r.Ok? ==> IsFloor(r.value, a, n)
  {
    if n == 0 then Err(MathOverflow) else Ok(Floor(a, n))
  }
}
