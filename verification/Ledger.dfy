/** One reserve together with everything borrowed from it, run over any sequence
    of operations. An operation that fails is rolled back. */
module Ledger {
  import opened FixedPoint
  import opened Bytes
  import opened ReserveConfig
  import opened Reserve
  import Obligation
  import ShareValue
  import Arith

  /** An obligation's debt to the reserve. */
  datatype Loan = Loan(owner: nat, debt: Obligation.Debt)

  datatype Ledger = Ledger(pool: Pool, lastSlot: U64, loans: seq<Loan>)

  datatype Op =
    | DepositOp(amount: U64)
    | RedeemOp(collateral: U64)
    | BorrowOp(owner: nat, borrowAmount: Decimal)
    | RepayOp(owner: nat, amount: U64)
    | DonateOp(amount: U64)
    | RedeemFeesOp
    | AccrueOp(slot: U64)
    | UpdateSlotOp(slot: U64)

  function IndexOf(loans: seq<Loan>, owner: nat): (i: Option<nat>)
    ensures i.Some? ==> i.value < |loans| && loans[i.value].owner == owner
  {
    if loans == [] then None
    else if loans[0].owner == owner then Some(0)
    else
      match IndexOf(loans[1..], owner)
      case None => None
      case Some(k) => Some(k + 1)
  }

  function TotalDebt(loans: seq<Loan>): nat {
    if loans == [] then 0 else loans[0].debt.borrowed + TotalDebt(loans[1..])
  }

  /** Bring every loan up to the reserve's index. */
  function AccrueLoans(loans: seq<Loan>, index: Decimal): Result<seq<Loan>> {
    if loans == [] then Ok([]) else
    var debt :- Obligation.AccrueDebt(loans[0].debt, index);
    var rest :- AccrueLoans(loans[1..], index);
    Ok([loans[0].(debt := debt)] + rest)
  }

  function LoanOf(l: Ledger, key: Pubkey, owner: nat): Obligation.Debt {
    match IndexOf(l.loans, owner)
    case None => Obligation.Debt(key, l.pool.liquidity.index, 0, 0)
    case Some(i) => l.loans[i].debt
  }

  /** The loans after `owner`'s became `debt`; a new loan is appended. */
  function SetLoan(loans: seq<Loan>, owner: nat, debt: Obligation.Debt): seq<Loan> {
    match IndexOf(loans, owner)
    case None => loans + [Loan(owner, debt)]
    case Some(i) => loans[i := Loan(owner, debt)]
  }

  function BorrowStep(l: Ledger, key: Pubkey, owner: nat, amount: Decimal): Result<Ledger> {
    var Step(liquidity, lent) := Borrow(l.pool.liquidity, amount);
    var _ :- lent;
    var debt :- Obligation.BorrowMore(LoanOf(l, key, owner), amount);
    Ok(l.(pool := l.pool.(liquidity := liquidity), loans := SetLoan(l.loans, owner, debt)))
  }

  /** Repay up to what the loan owes; a settled loan is removed. */
  function RepayStep(l: Ledger, owner: nat, amount: U64): Result<Ledger> {
    match IndexOf(l.loans, owner)
    case None => Err(InvalidObligationLiquidity)
    case Some(i) =>
      var repayment :- CalculateRepay(amount, l.loans[i].debt.borrowed);
      var Step(liquidity, repaid) := Repay(l.pool.liquidity, repayment.repaid, repayment.settled);
      var _ :- repaid;
      var pool := l.pool.(liquidity := liquidity);
      if repayment.settled == l.loans[i].debt.borrowed then
        Ok(l.(pool := pool, loans := l.loans[..i] + l.loans[i + 1..]))
      else
        var debt :- Obligation.RepayDebt(l.loans[i].debt, repayment.settled);
        Ok(l.(pool := pool, loans := l.loans[i := l.loans[i].(debt := debt)]))
  }

  /** Accrue the reserve, and with it every loan. */
  function AccrueStep(c: Config, l: Ledger, slot: U64): Result<Ledger> {
    var Step(liquidity, accrued) := AccrueInterest(c, l.pool.liquidity, l.lastSlot, slot);
    var _ :- accrued;
    var loans :- AccrueLoans(l.loans, liquidity.index);
    Ok(l.(pool := l.pool.(liquidity := liquidity), loans := loans))
  }

  function PoolStep(l: Ledger, step: Step<Pool, U64>): Result<Ledger> {
    var _ :- step.result;
    Ok(l.(pool := step.next))
  }

  function LiquidityStep(l: Ledger, step: Step<Liquidity, ()>): Result<Ledger> {
    var _ :- step.result;
    Ok(l.(pool := l.pool.(liquidity := step.next)))
  }

  function TryApply(c: Config, key: Pubkey, l: Ledger, op: Op): Result<Ledger> {
    match op
    case DepositOp(amount) => PoolStep(l, DepositToPool(l.pool, amount))
    case RedeemOp(collateral) => PoolStep(l, RedeemFromPool(l.pool, collateral))
    case BorrowOp(owner, amount) => BorrowStep(l, key, owner, amount)
    case RepayOp(owner, amount) => RepayStep(l, owner, amount)
    case DonateOp(amount) => LiquidityStep(l, Donate(l.pool.liquidity, amount))
    case RedeemFeesOp =>
      var fees :- RedeemableFees(l.pool.liquidity);
      LiquidityStep(l, RedeemFees(l.pool.liquidity, fees))
    case AccrueOp(slot) => AccrueStep(c, l, slot)
    case UpdateSlotOp(slot) => Ok(l.(lastSlot := slot))
  }

  function Apply(c: Config, key: Pubkey, l: Ledger, op: Op): Ledger {
    match TryApply(c, key, l, op)
    case Err(_) => l
    case Ok(next) => next
  }

  function Run(c: Config, key: Pubkey, l: Ledger, ops: seq<Op>): Ledger {
    if ops == [] then l else Apply(c, key, Run(c, key, l, ops[..|ops| - 1]), ops[|ops| - 1])
  }

  // ---- sums ----

  lemma {:induction false} TotalConcat(a: seq<Loan>, b: seq<Loan>)
    ensures TotalDebt(a + b) == TotalDebt(a) + TotalDebt(b)
  {
    if a == [] {
      assert a + b == b;
    } else {
      assert (a + b)[1..] == a[1..] + b;
      TotalConcat(a[1..], b);
    }
  }

  lemma TotalSplit(loans: seq<Loan>, i: nat)
    requires i < |loans|
    ensures TotalDebt(loans) == TotalDebt(loans[..i]) + loans[i].debt.borrowed + TotalDebt(loans[i + 1..])
  {
    assert loans == loans[..i] + ([loans[i]] + loans[i + 1..]);
    TotalConcat(loans[..i], [loans[i]] + loans[i + 1..]);
    TotalConcat([loans[i]], loans[i + 1..]);
  }

  lemma TotalUpdate(loans: seq<Loan>, i: nat, loan: Loan)
    requires i < |loans|
    ensures TotalDebt(loans[i := loan]) == TotalDebt(loans) - loans[i].debt.borrowed + loan.debt.borrowed
  {
    TotalSplit(loans, i);
    TotalSplit(loans[i := loan], i);
    assert loans[i := loan][..i] == loans[..i] && loans[i := loan][i + 1..] == loans[i + 1..];
  }

  lemma TotalRemove(loans: seq<Loan>, i: nat)
    requires i < |loans|
    ensures TotalDebt(loans[..i] + loans[i + 1..]) == TotalDebt(loans) - loans[i].debt.borrowed
  {
    TotalSplit(loans, i);
    TotalConcat(loans[..i], loans[i + 1..]);
  }

  // ---- what is borrowed covers every loan ----

  ghost predicate UpToDate(loans: seq<Loan>, index: Decimal) {
    forall loan :: loan in loans ==> loan.debt.index == index
  }

  ghost predicate Covered(l: Ledger) {
    && l.pool.liquidity.index > 0
    && UpToDate(l.loans, l.pool.liquidity.index)
    && TotalDebt(l.loans) <= l.pool.liquidity.borrowed
  }

  /** A debt brought up to an index grew by at most the factor the index grew
      by, whatever was truncated on either side. */
  lemma DebtGrowth(debt: Obligation.Debt, index: Decimal, factor: Rate)
    requires 0 < debt.index && factor >= WAD && IsFloor(index, debt.index * factor, WAD)
    requires Obligation.AccrueDebt(debt, index).Ok?
    ensures Obligation.AccrueDebt(debt, index).value.index == index
    ensures Obligation.AccrueDebt(debt, index).value.borrowed * WAD <= debt.borrowed * factor
  {
    hide Floor;
    if index > debt.index {
      var ratio := TryDiv(index, debt.index).value;
      Arith.CancelLe(ratio, factor, debt.index);
      Arith.MulMono(ratio, factor, debt.borrowed);
    } else {
      Arith.MulMono(WAD, factor, debt.borrowed);
    }
  }

  lemma {:induction false} LoansGrowth(loans: seq<Loan>, index: Decimal, index': Decimal, factor: Rate)
    requires 0 < index && factor >= WAD && IsFloor(index', index * factor, WAD)
    requires UpToDate(loans, index) && AccrueLoans(loans, index').Ok?
    ensures UpToDate(AccrueLoans(loans, index').value, index')
    ensures TotalDebt(AccrueLoans(loans, index').value) * WAD <= TotalDebt(loans) * factor
  {
    if loans != [] {
      assert loans[0] in loans && forall loan :: loan in loans[1..] ==> loan in loans;
      var first := Obligation.AccrueDebt(loans[0].debt, index').value;
      var rest := AccrueLoans(loans[1..], index').value;
      DebtGrowth(loans[0].debt, index', factor);
      LoansGrowth(loans[1..], index, index', factor);
      hide *;
      ShareValue.Distribute(first.borrowed, TotalDebt(rest), WAD);
      ShareValue.Distribute(loans[0].debt.borrowed, TotalDebt(loans[1..]), factor);
    }
  }

  /** One accrual: the reserve's debt grows by one truncation, the loans by one
      each, and still the reserve covers them. */
  lemma GrowCovers(l: Ledger, factor: Rate, takeRate: Rate)
    requires Covered(l) && factor >= WAD
    requires Grow(l.pool.liquidity, factor, takeRate).result.Ok?
    requires AccrueLoans(l.loans, Grow(l.pool.liquidity, factor, takeRate).next.index).Ok?
    ensures var next := Grow(l.pool.liquidity, factor, takeRate).next;
      && next.index >= l.pool.liquidity.index
      && UpToDate(AccrueLoans(l.loans, next.index).value, next.index)
      && TotalDebt(AccrueLoans(l.loans, next.index).value) <= next.borrowed
  {
    hide Floor;
    var old', next := l.pool.liquidity, Grow(l.pool.liquidity, factor, takeRate).next;
    var loans := AccrueLoans(l.loans, next.index).value;
    assert IsFloor(next.index, old'.index * factor, WAD);
    assert IsFloor(next.borrowed, old'.borrowed * factor, WAD);
    LoansGrowth(l.loans, old'.index, next.index, factor);
    hide Grow, AccrueLoans, TotalDebt;
    Arith.FloorsOrdered(old'.index, old'.index * WAD, next.index, old'.index * factor, WAD) by {
      Arith.MulMono(WAD, factor, old'.index);
    }
    Arith.FloorsOrdered(TotalDebt(loans), TotalDebt(l.loans) * factor, next.borrowed, old'.borrowed * factor, WAD) by {
      Arith.MulMono(TotalDebt(l.loans), old'.borrowed, factor);
    }
  }

  lemma {:induction false} NoGrowth(loans: seq<Loan>, index: Decimal)
    requires UpToDate(loans, index)
    ensures AccrueLoans(loans, index) == Ok(loans)
  {
    if loans != [] {
      assert loans[0] in loans && forall loan :: loan in loans[1..] ==> loan in loans;
      NoGrowth(loans[1..], index);
      assert loans == [loans[0]] + loans[1..];
    }
  }

  lemma AccrueCovers(c: Config, l: Ledger, slot: U64)
    requires Covered(l) && AccrueStep(c, l, slot).Ok?
    ensures Covered(AccrueStep(c, l, slot).value)
  {
    hide Grow, CurrentBorrowRate, GrowthFactor;
    if slot > l.lastSlot {
      var rate := CurrentBorrowRate(c, l.pool.liquidity).value;
      var factor := GrowthFactor(rate, slot - l.lastSlot).value;
      ShareValue.GrowthAtLeastOne(rate, slot - l.lastSlot);
      GrowCovers(l, factor, PercentRate(c.protocolTakeRate));
    } else {
      NoGrowth(l.loans, l.pool.liquidity.index);
    }
  }

  lemma BorrowCovers(l: Ledger, key: Pubkey, owner: nat, amount: Decimal)
    requires Covered(l) && BorrowStep(l, key, owner, amount).Ok?
    ensures Covered(BorrowStep(l, key, owner, amount).value)
  {
    var next := BorrowStep(l, key, owner, amount).value;
    match IndexOf(l.loans, owner)
    case None =>
      TotalConcat(l.loans, [next.loans[|l.loans|]]);
    case Some(i) =>
      assert l.loans[i] in l.loans;
      TotalUpdate(l.loans, i, next.loans[i]);
  }

  /** Repaying takes exactly the settled amount off the reserve's debt and off
      the loan: the reserve never has to clamp it. */
  lemma RepayIsExact(l: Ledger, owner: nat, amount: U64)
    requires Covered(l) && RepayStep(l, owner, amount).Ok?
    ensures Covered(RepayStep(l, owner, amount).value)
    ensures var next, i := RepayStep(l, owner, amount).value, IndexOf(l.loans, owner);
      && i.Some?
      && var repayment := CalculateRepay(amount, l.loans[i.value].debt.borrowed).value;
         && next.pool.liquidity.borrowed == l.pool.liquidity.borrowed - repayment.settled
         && TotalDebt(next.loans) == TotalDebt(l.loans) - repayment.settled
  {
    var next, i := RepayStep(l, owner, amount).value, IndexOf(l.loans, owner).value;
    assert l.loans[i] in l.loans;
    TotalSplit(l.loans, i);
    if CalculateRepay(amount, l.loans[i].debt.borrowed).value.settled == l.loans[i].debt.borrowed {
      TotalRemove(l.loans, i);
    } else {
      TotalUpdate(l.loans, i, next.loans[i]);
    }
  }

  lemma ApplyCovers(c: Config, key: Pubkey, l: Ledger, op: Op)
    requires Covered(l)
    ensures Covered(Apply(c, key, l, op))
  {
    hide AccrueStep, BorrowStep, RepayStep;
    match op
    case BorrowOp(owner, amount) =>
      if BorrowStep(l, key, owner, amount).Ok? {
        BorrowCovers(l, key, owner, amount);
      }
    case RepayOp(owner, amount) =>
      if RepayStep(l, owner, amount).Ok? {
        RepayIsExact(l, owner, amount);
      }
    case AccrueOp(slot) =>
      if AccrueStep(c, l, slot).Ok? {
        AccrueCovers(c, l, slot);
      }
    case _ =>
  }

  /** Over every run from a new reserve, with any rates, amounts and rounding,
      the reserve's recorded debt covers the sum of all loans. */
  lemma {:induction false} DebtAlwaysCovered(c: Config, key: Pubkey, slot: U64, ops: seq<Op>)
    ensures Covered(Run(c, key, Ledger(NEW_POOL, slot, []), ops))
  {
    if ops != [] {
      DebtAlwaysCovered(c, key, slot, ops[..|ops| - 1]);
      ApplyCovers(c, key, Run(c, key, Ledger(NEW_POOL, slot, []), ops[..|ops| - 1]), ops[|ops| - 1]);
    }
  }

  // ---- share value over runs ----

  lemma ApplyKeepsShare(c: Config, key: Pubkey, l: Ledger, op: Op)
    requires c.protocolTakeRate <= 100 && l.pool.mintSupply > 0 && !op.RedeemOp?
    ensures Apply(c, key, l, op).pool.mintSupply > 0
    ensures ShareValue.ShareNotLower(l.pool, Apply(c, key, l, op).pool)
  {
    var next := Apply(c, key, l, op);
    if TryApply(c, key, l, op).Ok? {
      match op
      case DepositOp(amount) =>
        hide Floor, PoolRate;
        ShareValue.DepositKeepsShare(l.pool, amount);
      case _ =>
        OtherKeepsSupply(c, key, l, op);
        hide *;
        ShareValue.SupplyGrowsShare(l.pool, next.pool);
    }
  }

  lemma OtherKeepsSupply(c: Config, key: Pubkey, l: Ledger, op: Op)
    requires c.protocolTakeRate <= 100 && !op.RedeemOp? && !op.DepositOp? && TryApply(c, key, l, op).Ok?
    ensures var next := TryApply(c, key, l, op).value;
      next.pool.mintSupply == l.pool.mintSupply && ShareValue.Supply(next.pool) >= ShareValue.Supply(l.pool)
  {
    hide Borrow, Repay, RedeemFees, AccrueInterest, AccrueLoans, CalculateRepay, RedeemableFees;
    match op
    case BorrowOp(owner, amount) => ShareValue.BorrowSupply(l.pool, amount);
    case RepayOp(owner, amount) =>
      ShareValue.RepaySupply(l.pool, amount, l.loans[IndexOf(l.loans, owner).value].debt.borrowed);
    case RedeemFeesOp => ShareValue.RedeemFeesSupply(l.pool, RedeemableFees(l.pool.liquidity).value);
    case AccrueOp(slot) => ShareValue.AccrueSupply(c, l.pool, l.lastSlot, slot);
    case _ =>
  }

  /** Over every run of deposits, borrows, repayments, donations, fee payouts and
      accruals, in any order and with any failures, the liquidity behind a
      collateral token never falls. */
  lemma {:induction false} ShareNeverFalls(c: Config, key: Pubkey, l: Ledger, ops: seq<Op>)
    requires c.protocolTakeRate <= 100 && l.pool.mintSupply > 0
    requires forall op :: op in ops ==> !op.RedeemOp?
    ensures Run(c, key, l, ops).pool.mintSupply > 0
    ensures ShareValue.ShareNotLower(l.pool, Run(c, key, l, ops).pool)
  {
    if ops != [] {
      var before := Run(c, key, l, ops[..|ops| - 1]);
      ShareNeverFalls(c, key, l, ops[..|ops| - 1]);
      ApplyKeepsShare(c, key, before, ops[|ops| - 1]);
      ShareValue.ShareTransitive(l.pool, before.pool, Run(c, key, l, ops).pool);
    }
  }
}
