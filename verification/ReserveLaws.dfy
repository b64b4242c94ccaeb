/** How a reserve's operations undo, conserve and price each other. */
module ReserveLaws {
  import opened FixedPoint
  import opened Reserve
  import opened ReserveConfig
  import BorrowRate
  import Arith

  // ---- conservation ----

  /** What the reserve holds for depositors, as an exact number. */
  function Backing(l: Liquidity): int {
    l.available * WAD + l.borrowed - l.protocolFees
  }

  /** Every fee that can be redeemed can be paid out, and afterwards less than one
      whole token is due to the protocol or nothing is left to pay it from. */
  lemma RedeemablePaysOut(l: Liquidity)
    requires RedeemableFees(l).Ok?
    ensures var s := RedeemFees(l, RedeemableFees(l).value);
      && s.result.Ok? && Backing(s.next) == Backing(l)
      && (s.next.protocolFees < WAD || s.next.available == 0)
  {
    var whole := TryFloorU64(l.protocolFees).value;
    Arith.MulMono(RedeemableFees(l).value, whole, WAD);
  }

  // ---- undoing ----

  /** Repaying a whole borrow at once restores the debt exactly and leaves the
      reserve one token richer when the borrow had a fraction. */
  lemma BorrowRepaid(l: Liquidity, amount: Decimal)
    requires Borrow(l, amount).result.Ok?
    requires CalculateRepay(U64_MAX, amount).Ok?
    requires var r := CalculateRepay(U64_MAX, amount).value;
      Repay(Borrow(l, amount).next, r.repaid, r.settled).result.Ok?
    ensures var r := CalculateRepay(U64_MAX, amount).value;
      var back := Repay(Borrow(l, amount).next, r.repaid, r.settled).next;
      back == l.(available := l.available + if amount % WAD == 0 then 0 else 1)
  {
    var paid: int := TryFloorU64(amount).value;
    var repaid: int := CalculateRepay(U64_MAX, amount).value.repaid;
    if amount % WAD == 0 {
      assert amount == amount / WAD * WAD;
    }
  }

  // ---- utilization ----

  /** Utilization is never above one: fees owed to the protocol do not count
      against what the debt is measured by. */
  lemma UtilizationAtMostOne(l: Liquidity)
    requires UtilizationRate(l).Ok?
    ensures UtilizationRate(l).value <= WAD
  {
    if UtilizationRate(l).value > 0 {
      var held: int := l.borrowed + l.available * WAD;
      Arith.MulMono(l.borrowed, held, WAD);
      Arith.FloorsOrdered(UtilizationRate(l).value, l.borrowed * WAD, WAD, WAD * held, held);
    }
  }

  /** So a validated configuration gives every reserve whose utilization can be
      computed a rate, between the least and the super-max one. */
  lemma BorrowRateExists(c: Config, l: Liquidity)
    requires Valid(c) && UtilizationRate(l).Ok?
    ensures CurrentBorrowRate(c, l).Ok?
    ensures PercentRate(c.minBorrowRate) <= CurrentBorrowRate(c, l).value <= c.superMaxBorrowRate * PERCENT_SCALER
  {
    UtilizationAtMostOne(l);
    hide UtilizationRate, BorrowRate.RateAt, Valid;
    BorrowRate.RateInSegment(c, UtilizationRate(l).value);
  }

  lemma ShareRises(b: nat, held: nat, more: nat, out: nat)
    requires b <= held && out <= more && held + more - out >= 0
    ensures b * (held + more - out) <= (b + more) * held
  {
    Arith.MulMono(b, held, more);
    assert b * (held + more - out) == b * held + b * more - b * out;
    assert (b + more) * held == b * held + held * more;
    Arith.MulMono(0, b, out);
  }

  /** Borrowing never lowers the utilization. */
  lemma BorrowRaisesUtilization(l: Liquidity, amount: Decimal)
    requires Borrow(l, amount).result.Ok?
    requires UtilizationRate(l).Ok? && UtilizationRate(Borrow(l, amount).next).Ok?
    ensures UtilizationRate(l).value <= UtilizationRate(Borrow(l, amount).next).value
  {
    var next, paid: int := Borrow(l, amount).next, TryFloorU64(amount).value;
    if UtilizationRate(l).value > 0 {
      var held: int, held': int := l.borrowed + l.available * WAD, next.borrowed + next.available * WAD;
      assert held' == held + amount - paid * WAD;
      ShareRises(l.borrowed, held, amount, paid * WAD);
      RatiosOrdered(UtilizationRate(l).value, l.borrowed, held, UtilizationRate(next).value, next.borrowed, held');
    }
  }

  /** Floors of ratios in order, by cross-multiplication. */
  lemma RatiosOrdered(p: nat, a: nat, m: nat, q: nat, b: nat, n: nat)
    requires m > 0 && n > 0 && IsFloor(p, a * WAD, m) && IsFloor(q, b * WAD, n) && a * n <= b * m
    ensures p <= q
  {
    Arith.MulMono(p * m, a * WAD, n);
    Arith.MulMono(a * n, b * m, WAD);
    assert (p * m) * n == (p * n) * m;
    assert (a * WAD) * n == (a * n) * WAD && (b * m) * WAD == (b * WAD) * m;
    Arith.CancelLe(p * n, b * WAD, m);
    Arith.FloorsOrdered(p, b * WAD, q, b * WAD, n);
  }

  /** So borrowing never makes borrowing cheaper. */
  lemma BorrowRaisesRate(c: Config, l: Liquidity, amount: Decimal)
    requires Valid(c) && Borrow(l, amount).result.Ok?
    requires UtilizationRate(l).Ok? && UtilizationRate(Borrow(l, amount).next).Ok?
    ensures CurrentBorrowRate(c, l).Ok? && CurrentBorrowRate(c, Borrow(l, amount).next).Ok?
    ensures CurrentBorrowRate(c, l).value <= CurrentBorrowRate(c, Borrow(l, amount).next).value
  {
    BorrowRaisesUtilization(l, amount);
    UtilizationAtMostOne(l);
    UtilizationAtMostOne(Borrow(l, amount).next);
    hide UtilizationRate, BorrowRate.RateAt, Valid;
    BorrowRate.RateMonotone(c, UtilizationRate(l).value, UtilizationRate(Borrow(l, amount).next).value);
  }
}
