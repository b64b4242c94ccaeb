/** What each reserve operation does to the liquidity behind one collateral
    token, compared by cross-multiplication. */
module ShareValue {
  import opened FixedPoint
  import opened Reserve
  import opened ReserveConfig
  import Arith
  import RatePow
  import ReserveLaws

  /** Total supply as an exact number, also where the code reports an error. */
  function Supply(p: Pool): int {
    ReserveLaws.Backing(p.liquidity)
  }

  lemma SupplyIs(p: Pool)
    requires TotalSupply(p.liquidity).Ok?
    ensures TotalSupply(p.liquidity).value == Supply(p)
  {
  }

  /** A collateral token is backed by at least as much in `q` as in `p`. */
  ghost predicate ShareNotLower(p: Pool, q: Pool) {
    Supply(q) * p.mintSupply >= Supply(p) * q.mintSupply
  }

  lemma ShareTransitive(p: Pool, q: Pool, r: Pool)
    requires ShareNotLower(p, q) && ShareNotLower(q, r) && q.mintSupply > 0
    ensures ShareNotLower(p, r)
  {
    hide Supply;
    var (a, b, c, m, n, o) := (Supply(p), Supply(q), Supply(r), p.mintSupply, q.mintSupply, r.mintSupply);
    Arith.MulMono(b * o, c * n, m);
    Arith.MulMono(a * n, b * m, o);
    Reorder(a, b, c, m, n, o);
    Arith.CancelLe(a * o, c * m, n);
  }

  lemma Reorder(a: int, b: int, c: int, m: int, n: int, o: int)
    ensures (b * o) * m == (b * m) * o
    ensures (c * n) * m == (c * m) * n
    ensures (a * n) * o == (a * o) * n
  {
  }

  // ---- deposit ----

  /** The collateral minted is worth no more than its share of the supply. */
  lemma MintedIsFair(p: Pool, amount: U64)
    requires CollateralFor(p, amount).Ok? && p.mintSupply > 0
    ensures Supply(p) >= 0
    ensures CollateralFor(p, amount).value * Supply(p) <= amount * WAD * p.mintSupply
  {
    hide Floor;
    SupplyIs(p);
    var rate := PoolRate(p).value;
    var minted := CollateralFor(p, amount).value;
    var raw := TryMul(FromU64(amount), rate).value;
    hide *;
    MintedArith(minted, raw, amount, rate, p.mintSupply, Supply(p), WAD);
  }

  lemma MintedArith(c: nat, x: nat, l: nat, r: nat, m: nat, t: nat, w: nat)
    requires w > 0 && c * w <= x && x * w <= l * w * r
    requires t == 0 || r * t <= m * w * w
    ensures c * t <= l * w * m
  {
    if t > 0 {
      Arith.CancelLe(x, l * r, w) by { assert l * w * r == l * r * w; }
      Arith.MulMono(c * w, l * r, t);
      Arith.MulMono(r * t, m * w * w, l);
      assert c * w * t == c * t * w;
      assert l * r * t == r * t * l;
      assert m * w * w * l == l * w * m * w;
      Arith.CancelLe(c * t, l * w * m, w);
    } else {
      assert c * t == 0;
    }
  }

  lemma DepositKeepsShare(p: Pool, amount: U64)
    requires DepositToPool(p, amount).result.Ok? && p.mintSupply > 0
    ensures ShareNotLower(p, DepositToPool(p, amount).next)
  {
    MintedIsFair(p, amount);
    var q, minted := DepositToPool(p, amount).next, DepositToPool(p, amount).result.value;
    assert Supply(q) == Supply(p) + amount * WAD && q.mintSupply == p.mintSupply + minted;
    hide *;
    Distribute(Supply(p), amount * WAD, p.mintSupply);
    Distribute(p.mintSupply, minted, Supply(p));
  }

  lemma Distribute(a: int, b: int, c: int)
    ensures (a + b) * c == a * c + b * c
  {
  }

  // ---- the other operations leave the collateral supply alone ----

  /** More liquidity for the same tokens. */
  lemma SupplyGrowsShare(p: Pool, q: Pool)
    requires q.mintSupply == p.mintSupply && Supply(q) >= Supply(p)
    ensures ShareNotLower(p, q)
  {
    hide Supply;
    Arith.MulMono(Supply(p), Supply(q), p.mintSupply);
  }

  /** Lending pays out whole tokens and records the fraction as well: the supply
      rises by less than one token. */
  lemma BorrowSupply(p: Pool, amount: Decimal)
    requires Borrow(p.liquidity, amount).result.Ok?
    ensures var q := p.(liquidity := Borrow(p.liquidity, amount).next);
      Supply(p) <= Supply(q) < Supply(p) + WAD
  {
  }

  /** Paying fees out leaves the supply exactly as it was. */
  lemma RedeemFeesSupply(p: Pool, amount: U64)
    requires RedeemFees(p.liquidity, amount).result.Ok?
    ensures Supply(p.(liquidity := RedeemFees(p.liquidity, amount).next)) == Supply(p)
  {
  }

  /** Taking in the settled amount rounded up never lowers the supply, even when
      the reserve has less lent out than is settled. */
  lemma RepaySupply(p: Pool, amount: U64, borrowed: Decimal)
    requires CalculateRepay(amount, borrowed).Ok?
    requires var r := CalculateRepay(amount, borrowed).value; Repay(p.liquidity, r.repaid, r.settled).result.Ok?
    ensures var r := CalculateRepay(amount, borrowed).value;
      Supply(p.(liquidity := Repay(p.liquidity, r.repaid, r.settled).next)) >= Supply(p)
  {
  }

  /** A growth factor is never below one. */
  lemma GrowthAtLeastOne(borrowRate: Rate, slots: U64)
    requires GrowthFactor(borrowRate, slots).Ok?
    ensures GrowthFactor(borrowRate, slots).value >= WAD
  {
    hide RatePow.Power, Floor;
    var slotRate := RateDivInt(borrowRate, SLOTS_PER_YEAR).value;
    RatePow.AtLeastSimpleInterest(slotRate, slots);
    Arith.MulMono(0, slots, slotRate);
  }

  /** With a take rate up to one, the protocol takes no more than the interest. */
  lemma GrowSupply(p: Pool, factor: Rate, takeRate: Rate)
    requires Grow(p.liquidity, factor, takeRate).result.Ok? && takeRate <= WAD
    ensures Supply(p.(liquidity := Grow(p.liquidity, factor, takeRate).next)) >= Supply(p)
  {
    hide Floor;
    var newDebt := NewDebt(p.liquidity.borrowed, factor).value;
    var taken := TryMul(newDebt, takeRate).value;
    Arith.MulMono(takeRate, WAD, newDebt);
    Arith.CancelLe(taken, newDebt, WAD);
  }

  lemma AccrueSupply(c: Config, p: Pool, lastSlot: U64, slot: U64)
    requires AccrueInterest(c, p.liquidity, lastSlot, slot).result.Ok? && c.protocolTakeRate <= 100
    ensures Supply(p.(liquidity := AccrueInterest(c, p.liquidity, lastSlot, slot).next)) >= Supply(p)
  {
    hide RatePow.Power, Grow, Supply;
    if slot > lastSlot {
      var factor := GrowthFactor(CurrentBorrowRate(c, p.liquidity).value, slot - lastSlot).value;
      GrowSupply(p, factor, PercentRate(c.protocolTakeRate));
    }
  }

  // ---- redeeming ----

  /** Two floors in a row are one: a redemption pays the quotient by the raw rate,
      rounded down. */
  lemma PaidIsFloor(rate: Rate, collateral: U64)
    requires CollateralToLiquidity(rate, collateral).Ok?
    ensures rate > 0 && CollateralToLiquidity(rate, collateral).value == Floor(collateral * WAD, rate)
  {
    hide Floor;
    var raw := TryDiv(FromU64(collateral), rate).value;
    var paid := CollateralToLiquidity(rate, collateral).value;
    FloorOfFloor(raw, paid, collateral * WAD, rate, WAD);
    FloorUnique(paid, collateral * WAD, rate);
  }

  lemma FloorOfFloor(raw: nat, paid: nat, n: nat, rate: nat, w: nat)
    requires w > 0 && rate > 0 && IsFloor(raw, n * w, rate) && IsFloor(paid, raw, w)
    ensures IsFloor(paid, n, rate)
  {
    Arith.MulMono(paid * w, raw, rate);
    Arith.MulMono(raw + 1, (paid + 1) * w, rate);
    ScaleIdentities(raw, paid, rate, w);
    Arith.CancelLe(paid * rate, n, w);
    Arith.CancelLt(n, (paid + 1) * rate, w);
  }

  lemma ScaleIdentities(raw: int, paid: int, rate: int, w: int)
    ensures (paid * w) * rate == (paid * rate) * w
    ensures (raw + 1) * rate == raw * rate + rate
    ensures ((paid + 1) * w) * rate == ((paid + 1) * rate) * w
    ensures (paid + 1) * rate == paid * rate + rate
  {
  }

  lemma FloorUnique(q: nat, n: nat, d: nat)
    requires d > 0 && IsFloor(q, n, d)
    ensures q == Floor(n, d)
  {
    hide Floor;
    Arith.FloorsOrdered(q, n, Floor(n, d), n, d);
    Arith.FloorsOrdered(Floor(n, d), n, q, n, d);
  }

  /** A whole number is within a floor exactly when it is within the quotient. */
  lemma WithinFloor(k: nat, n: nat, d: nat)
    requires d > 0
    ensures k <= Floor(n, d) <==> k * d <= n
  {
    hide Floor;
    if k <= Floor(n, d) {
      Arith.MulMono(k, Floor(n, d), d);
    }
    if k * d <= n {
      Arith.FloorsOrdered(k, k * d, Floor(n, d), n, d);
    }
  }

  /** The rate is the truncated quotient of token supply and total supply. */
  lemma RateBounds(p: Pool)
    requires PoolRate(p).Ok? && p.mintSupply > 0 && Supply(p) > 0
    ensures IsFloor(PoolRate(p).value, p.mintSupply * WAD * WAD, Supply(p))
  {
    hide Floor;
    SupplyIs(p);
  }

  /** Truncating the exchange rate favours the redeemer, so a redemption can
      lower the share value of the others, but by less than one part in the raw
      rate. */
  lemma RedeemLoss(p: Pool, collateral: U64)
    requires RedeemFromPool(p, collateral).result.Ok? && p.mintSupply > 0 && Supply(p) > 0
    ensures var q, rate: int := RedeemFromPool(p, collateral).next, PoolRate(p).value;
      && q.mintSupply == p.mintSupply - collateral
      && Supply(q) * p.mintSupply * rate >= Supply(p) * q.mintSupply * rate - collateral * Supply(p)
  {
    var q, rate := RedeemFromPool(p, collateral).next, PoolRate(p).value;
    var paid := RedeemFromPool(p, collateral).result.value;
    PaidIsFloor(rate, collateral);
    assert IsFloor(paid, collateral * WAD, rate);
    RateBounds(p);
    assert Supply(q) == Supply(p) - paid * WAD;
    hide *;
    LossArith(Supply(p), p.mintSupply, rate, collateral, paid, WAD);
  }

  lemma LossIdentities(t: int, m: int, r: int, c: int, l: int, w: int)
    ensures (l * r) * (w * m) == (l * w * m) * r
    ensures (c * w) * (w * m) == (m * w * w) * c
  {
  }

  lemma LossDifferences(t: int, m: int, r: int, c: int, l: int, w: int)
    ensures (r * t + t) * c == t * c * r + c * t
    ensures (t - l * w) * m * r == t * m * r - (l * w * m) * r
    ensures t * (m - c) * r == t * m * r - t * c * r
  {
  }

  lemma LossArith(t: nat, m: nat, r: nat, c: nat, l: nat, w: nat)
    requires l * r <= c * w && m * w * w < r * t + t && c <= m
    ensures (t - l * w) * m * r >= t * (m - c) * r - c * t
  {
    LossIdentities(t, m, r, c, l, w);
    LossDifferences(t, m, r, c, l, w);
    Arith.MulMono(l * r, c * w, w * m);
    Arith.MulMono(m * w * w, r * t + t, c);
  }

  /** What a redemption pays at the truncated exchange rate. */
  function RatePayout(p: Pool, collateral: U64): nat {
    match PoolRate(p)
    case Err(_) => 0
    case Ok(rate) => if rate == 0 then 0 else Floor(collateral * WAD, rate)
  }

  /** The whole tokens in the exact share of the supply. */
  function SharePayout(p: Pool, collateral: U64): nat {
    if p.mintSupply == 0 || Supply(p) < 0 then 0 else Floor(collateral * Supply(p), p.mintSupply * WAD)
  }

  lemma RedeemMoves(p: Pool, collateral: U64)
    requires RedeemFromPool(p, collateral).result.Ok?
    ensures var q := RedeemFromPool(p, collateral).next;
      && Supply(p) >= 0 && collateral <= p.mintSupply
      && RedeemFromPool(p, collateral).result.value == RatePayout(p, collateral)
      && Supply(q) == Supply(p) - RatePayout(p, collateral) * WAD && q.mintSupply == p.mintSupply - collateral
  {
    hide Floor, CollateralToLiquidity;
    SupplyIs(p);
    PaidIsFloor(PoolRate(p).value, collateral);
  }

  lemma WithinShare(p: Pool, collateral: U64, k: nat)
    requires p.mintSupply > 0 && Supply(p) >= 0
    ensures k <= SharePayout(p, collateral) <==> k * (p.mintSupply * WAD) <= collateral * Supply(p)
  {
    hide Floor, Supply;
    WithinFloor(k, collateral * Supply(p), p.mintSupply * WAD);
  }

  /** A redemption keeps the share value of the others exactly when truncating the
      exchange rate does not lift the payout by a whole unit over the exact share
      of the supply. */
  lemma RedeemKeepsShareIff(p: Pool, collateral: U64)
    requires RedeemFromPool(p, collateral).result.Ok? && p.mintSupply > 0
    ensures ShareNotLower(p, RedeemFromPool(p, collateral).next)
       <==> RatePayout(p, collateral) <= SharePayout(p, collateral)
  {
    hide Supply, RatePayout, SharePayout, RedeemFromPool;
    RedeemMoves(p, collateral);
    WithinShare(p, collateral, RatePayout(p, collateral));
    KeepIdentities(Supply(p), p.mintSupply, collateral, RatePayout(p, collateral), WAD);
  }

  /** The exchange rate loses nothing by truncation. */
  predicate RateIsExact(p: Pool) {
    PoolRate(p).Ok? && PoolRate(p).value * Supply(p) == p.mintSupply * WAD * WAD
  }

  /** In particular no redemption costs the others anything while the exchange rate
      happens to be exact. */
  lemma ExactRateKeepsShare(p: Pool, collateral: U64)
    requires RedeemFromPool(p, collateral).result.Ok? && p.mintSupply > 0 && RateIsExact(p)
    ensures ShareNotLower(p, RedeemFromPool(p, collateral).next)
  {
    hide ShareNotLower, RedeemFromPool;
    RedeemKeepsShareIff(p, collateral);
    RedeemMoves(p, collateral);
    ExactPayouts(p, collateral);
  }

  lemma ExactPayouts(p: Pool, collateral: U64)
    requires RateIsExact(p) && p.mintSupply > 0 && Supply(p) >= 0
    ensures RatePayout(p, collateral) <= SharePayout(p, collateral)
  {
    hide Floor, PoolRate, Supply;
    var rate := PoolRate(p).value;
    if rate > 0 {
      ExactFloors(rate, collateral, Supply(p), p.mintSupply);
    }
  }

  lemma ExactFloors(rate: nat, c: nat, s: nat, m: nat)
    requires rate > 0 && m > 0 && rate * s == m * WAD * WAD
    ensures Floor(c * WAD, rate) <= Floor(c * s, m * WAD)
  {
    hide Floor;
    var k := Floor(c * WAD, rate);
    ExactShare(k, rate, c, s, m, WAD);
    WithinFloor(k, c * s, m * WAD);
  }

  lemma ExactShare(k: nat, rate: nat, c: nat, s: nat, m: nat, w: nat)
    requires w > 0 && k * rate <= c * w && rate * s == m * w * w
    ensures k * (m * w) <= c * s
  {
    Arith.MulMono(k * rate, c * w, s);
    assert (k * rate) * s == k * (rate * s) && k * (m * w * w) == (k * (m * w)) * w;
    assert (c * w) * s == (c * s) * w;
    Arith.CancelLe(k * (m * w), c * s, w);
  }

  lemma KeepIdentities(t: int, m: int, c: int, l: int, w: int)
    ensures (t - l * w) * m >= t * (m - c) <==> l * (m * w) <= c * t
  {
    assert (t - l * w) * m == t * m - l * (m * w);
    assert t * (m - c) == t * m - c * t;
  }

  /** Two million million million tokens behind three collateral tokens: one of
      them redeems for half of the liquidity. */
  lemma RedeemCanLowerShare()
    ensures var p := Pool(Liquidity(2 * WAD, 0, WAD, 0), 3);
      RedeemFromPool(p, 1).result == Ok(WAD) && !ShareNotLower(p, RedeemFromPool(p, 1).next)
  {
  }

  // ---- depositing and redeeming at once ----

  lemma RoundTripIdentities(t: int, m: int, r: int, l: int, c: int, w: int)
    ensures c * (t + l * w) == c * t + c * (l * w)
    ensures l * w * m + c * (l * w) == (m + c) * (l * w)
    ensures ((m + c) * (l * w)) * w == ((m + c) * w * w) * l
    ensures (r * (t + l * w) + (t + l * w)) * l == ((r + 1) * l) * (t + l * w)
    ensures (c * (t + l * w)) * w == (c * w) * (t + l * w)
  {
  }

  lemma RoundTripArith(t: nat, m: nat, l: nat, c: nat, r: nat, back: nat, w: nat)
    requires l > 0
    requires c * t <= l * w * m
    requires (m + c) * w * w < r * (t + l * w) + (t + l * w)
    requires back * r <= c * w
    ensures back * r < (r + 1) * l
  {
    RoundTripIdentities(t, m, r, l, c, w);
    Arith.MulMono(c * (t + l * w), (m + c) * (l * w), w);
    Arith.MulMonoStrict((m + c) * w * w, r * (t + l * w) + (t + l * w), l);
    Arith.CancelLt(c * w, (r + 1) * l, t + l * w);
  }

  lemma NoGainUpToRate(back: nat, r: nat, l: nat)
    requires back * r < (r + 1) * l && l <= r
    ensures back <= l
  {
    assert (r + 1) * l == l * r + l;
    if back > l {
      Arith.MulMono(l + 1, back, r);
    }
  }

  /** What comes back when the collateral minted for a deposit is redeemed at once. */
  function Returned(p: Pool, amount: U64): Result<U64> {
    var Step(q, minted) := DepositToPool(p, amount);
    var collateral :- minted;
    RedeemFromPool(q, collateral).result
  }

  /** The collateral minted for a deposit, at the raw rate it meets, covers one unit
      more than the deposit. All of it can be read from the pool before either call. */
  predicate CoversOneMore(p: Pool, amount: U64) {
    match CollateralFor(p, amount)
    case Err(_) => false
    case Ok(minted) =>
      match RateAfter(p, amount, minted)
      case Err(_) => false
      case Ok(rate) => (amount + 1) * rate <= minted * WAD
  }

  /** The exchange rate once a deposit has been made and its collateral minted. */
  function RateAfter(p: Pool, amount: U64, minted: U64): Result<Rate> {
    if p.liquidity.available + amount >= U64_LIMIT || p.mintSupply + minted >= U64_LIMIT then Err(MathOverflow)
    else PoolRate(Pool(p.liquidity.(available := p.liquidity.available + amount), p.mintSupply + minted))
  }

  lemma RedeemedIsFloor(q: Pool, collateral: U64)
    requires RedeemFromPool(q, collateral).result.Ok?
    ensures PoolRate(q).Ok? && PoolRate(q).value > 0
    ensures RedeemFromPool(q, collateral).result.value == Floor(collateral * WAD, PoolRate(q).value)
  {
    hide Floor, PoolRate, CollateralToLiquidity;
    PaidIsFloor(PoolRate(q).value, collateral);
  }

  /** Depositing and at once redeeming the collateral just minted gains exactly when
      that collateral covers one unit more than the deposit. */
  lemma RoundTripGainsIff(p: Pool, amount: U64)
    requires Returned(p, amount).Ok?
    ensures Returned(p, amount).value > amount <==> CoversOneMore(p, amount)
  {
    hide Floor, PoolRate, CollateralFor, RedeemFromPool;
    var q, minted := DepositToPool(p, amount).next, DepositToPool(p, amount).result.value;
    RedeemedIsFloor(q, minted);
    WithinFloor(amount + 1, minted * WAD, PoolRate(q).value);
  }

  /** In any case the gain is less than one part in the raw rate, and there is none
      up to a deposit of that many units. */
  lemma DepositThenRedeem(p: Pool, amount: U64)
    requires p.mintSupply > 0 && Supply(p) > 0 && amount > 0
    requires DepositToPool(p, amount).result.Ok?
    requires var q := DepositToPool(p, amount); RedeemFromPool(q.next, q.result.value).result.Ok?
    ensures var q := DepositToPool(p, amount);
      var rate, back := PoolRate(q.next).value, RedeemFromPool(q.next, q.result.value).result.value;
      && back * rate < (rate + 1) * amount
      && (amount <= rate ==> back <= amount)
  {
    hide Floor;
    var q, minted := DepositToPool(p, amount).next, DepositToPool(p, amount).result.value;
    var rate, back := PoolRate(q).value, RedeemFromPool(q, minted).result.value;
    RoundTrip(p, amount, q, minted, rate, back);
  }

  lemma RoundTrip(p: Pool, amount: U64, q: Pool, minted: U64, rate: Rate, back: U64)
    requires p.mintSupply > 0 && Supply(p) > 0 && amount > 0
    requires CollateralFor(p, amount) == Ok(minted) && PoolRate(q) == Ok(rate)
    requires CollateralToLiquidity(rate, minted) == Ok(back)
    requires Supply(q) == Supply(p) + amount * WAD && q.mintSupply == p.mintSupply + minted
    ensures back * rate < (rate + 1) * amount && (amount <= rate ==> back <= amount)
  {
    hide Floor, PoolRate, CollateralFor, Supply, CollateralToLiquidity;
    MintedIsFair(p, amount);
    RateBounds(q);
    PaidIsFloor(rate, minted);
    RoundTripArith(Supply(p), p.mintSupply, amount, minted, rate, back, WAD);
    if amount <= rate {
      NoGainUpToRate(back, rate, amount);
    }
  }

  /** Above that many units a deposit can be redeemed for more than was put in. */
  lemma LargeDepositCanGain()
    ensures var p := Pool(Liquidity(WAD, 0, WAD, 0), 2);
      var amount: U64 := 1_400_000_000_000_000_000;
      var q := DepositToPool(p, amount);
      && q.result == Ok(2) && PoolRate(q.next) == Ok(1)
      && RedeemFromPool(q.next, 2).result == Ok(2 * WAD) && 2 * WAD > amount
  {
  }
}
