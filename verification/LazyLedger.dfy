/** All loans of one reserve when each is brought up to date only when it is used:
    the reserve's debt no longer covers them, but the shortfall is bounded by the
    number of accruals and the growth since the start. */
module LazyLedger {
  import opened FixedPoint
  import opened Bytes
  import opened ReserveConfig
  import opened Reserve
  import Obligation
  import ShareValue
  import Arith

  /** A loan, and the exact factor the index would have grown by since the loan was
      brought up to date, had no accrual been truncated. */
  datatype Loan = Loan(debt: Obligation.Debt, growth: real)

  /** The reserve and its loans, with the number of accruals and their exact growth
      since the start. */
  datatype Book = Book(liquidity: Liquidity, lastSlot: U64, loans: seq<Loan>, accruals: nat, growth: real)

  datatype Op =
    | PayIn(amount: U64)
    | PayOut(amount: U64)
    | PayFees(amount: U64)
    | Accrue(slot: U64)
    | UpdateSlot(slot: U64)
    | Refresh(i: nat)
    | Open(borrowAmount: Decimal)
    | BorrowOn(i: nat, borrowAmount: Decimal)
    | RepayOn(i: nat, amount: U64)

  function WithLiquidity(b: Book, step: Step<Liquidity, ()>): Result<Book> {
    var _ :- step.result;
    Ok(b.(liquidity := step.next))
  }

  function AccrualFactor(c: Config, l: Liquidity, slots: U64): Result<Rate> {
    var rate :- CurrentBorrowRate(c, l);
    GrowthFactor(rate, slots)
  }

  /** Accrue the reserve alone. */
  function AccrueStep(c: Config, b: Book, slot: U64): Result<Book> {
    var next :- WithLiquidity(b, AccrueInterest(c, b.liquidity, b.lastSlot, slot));
    if slot <= b.lastSlot then Ok(next) else
    var factor :- AccrualFactor(c, b.liquidity, slot - b.lastSlot);
    var g := factor as real / WAD as real;
    Ok(next.(loans := Grown(b.loans, g), accruals := b.accruals + 1, growth := b.growth * g))
  }

  function Grown(loans: seq<Loan>, g: real): (grown: seq<Loan>)
    ensures |grown| == |loans|
  {
    if loans == [] then [] else [loans[0].(growth := loans[0].growth * g)] + Grown(loans[1..], g)
  }

  function RefreshStep(b: Book, i: nat): Result<Book> {
    if i >= |b.loans| then Err(InvalidObligationLiquidity) else
    var debt :- Obligation.AccrueDebt(b.loans[i].debt, b.liquidity.index);
    Ok(b.(loans := b.loans[i := Loan(debt, 1.0)]))
  }

  function OpenStep(b: Book, key: Pubkey, amount: Decimal): Result<Book> {
    var next :- WithLiquidity(b, Borrow(b.liquidity, amount));
    var debt :- Obligation.BorrowMore(Obligation.Debt(key, b.liquidity.index, 0, 0), amount);
    Ok(next.(loans := b.loans + [Loan(debt, 1.0)]))
  }

  /** Borrow more on a loan that has just been brought up to date. */
  function BorrowStep(b: Book, i: nat, amount: Decimal): Result<Book>
    requires i < |b.loans|
  {
    var next :- WithLiquidity(b, Borrow(b.liquidity, amount));
    var debt :- Obligation.BorrowMore(b.loans[i].debt, amount);
    Ok(next.(loans := b.loans[i := Loan(debt, 1.0)]))
  }

  /** Repay on a loan that has just been brought up to date; a settled loan is
      removed. */
  function RepayStep(b: Book, i: nat, amount: U64): Result<Book>
    requires i < |b.loans|
  {
    var repayment :- CalculateRepay(amount, b.loans[i].debt.borrowed);
    var next :- WithLiquidity(b, Repay(b.liquidity, repayment.repaid, repayment.settled));
    if repayment.settled == b.loans[i].debt.borrowed then
      Ok(next.(loans := b.loans[..i] + b.loans[i + 1..]))
    else
      var debt :- Obligation.RepayDebt(b.loans[i].debt, repayment.settled);
      Ok(next.(loans := b.loans[i := Loan(debt, 1.0)]))
  }

  function TryApply(c: Config, key: Pubkey, b: Book, op: Op): Result<Book> {
    match op
    case PayIn(amount) => WithLiquidity(b, Deposit(b.liquidity, amount))
    case PayOut(amount) => WithLiquidity(b, Withdraw(b.liquidity, amount))
    case PayFees(amount) => WithLiquidity(b, RedeemFees(b.liquidity, amount))
    case Accrue(slot) => AccrueStep(c, b, slot)
    case UpdateSlot(slot) => Ok(b.(lastSlot := slot))
    case Refresh(i) => RefreshStep(b, i)
    case Open(amount) => OpenStep(b, key, amount)
    case BorrowOn(i, amount) =>
      var fresh' :- RefreshStep(b, i);
      BorrowStep(fresh', i, amount)
    case RepayOn(i, amount) =>
      var fresh' :- RefreshStep(b, i);
      RepayStep(fresh', i, amount)
  }

  function Apply(c: Config, key: Pubkey, b: Book, op: Op): Book {
    match TryApply(c, key, b, op)
    case Err(_) => b
    case Ok(next) => next
  }

  function Run(c: Config, key: Pubkey, b: Book, ops: seq<Op>): Book {
    if ops == [] then b else Apply(c, key, Run(c, key, b, ops[..|ops| - 1]), ops[|ops| - 1])
  }

  function NewBook(slot: U64): Book {
    Book(NEW_LIQUIDITY, slot, [], 0, 1.0)
  }

  // ---- sums of exact values ----

  /** What a loan would be worth had no truncation taken place since it was brought
      up to date. */
  function ValueOf(loan: Loan): real {
    loan.debt.borrowed as real * loan.growth
  }

  function Exact(loans: seq<Loan>): real {
    if loans == [] then 0.0 else ValueOf(loans[0]) + Exact(loans[1..])
  }

  lemma {:induction false} ExactConcat(a: seq<Loan>, b: seq<Loan>)
    ensures Exact(a + b) == Exact(a) + Exact(b)
  {
    hide ValueOf;
    if a == [] {
      assert a + b == b;
    } else {
      assert (a + b)[1..] == a[1..] + b;
      ExactConcat(a[1..], b);
    }
  }

  lemma ExactSplit(loans: seq<Loan>, i: nat)
    requires i < |loans|
    ensures Exact(loans) == Exact(loans[..i]) + ValueOf(loans[i]) + Exact(loans[i + 1..])
  {
    hide ValueOf;
    assert loans == loans[..i] + ([loans[i]] + loans[i + 1..]);
    ExactConcat(loans[..i], [loans[i]] + loans[i + 1..]);
    assert ([loans[i]] + loans[i + 1..])[1..] == loans[i + 1..];
  }

  lemma ExactUpdate(loans: seq<Loan>, i: nat, loan: Loan)
    requires i < |loans|
    ensures Exact(loans[i := loan])
         == Exact(loans) - ValueOf(loans[i]) + ValueOf(loan)
  {
    ExactSplit(loans, i);
    ExactSplit(loans[i := loan], i);
    assert loans[i := loan][..i] == loans[..i] && loans[i := loan][i + 1..] == loans[i + 1..];
  }

  lemma ExactRemove(loans: seq<Loan>, i: nat)
    requires i < |loans|
    ensures Exact(loans[..i] + loans[i + 1..]) == Exact(loans) - ValueOf(loans[i])
  {
    ExactSplit(loans, i);
    ExactConcat(loans[..i], loans[i + 1..]);
  }

  lemma Times(a: real, b: real, g: real)
    ensures (a + b) * g == a * g + b * g
  {
  }

  lemma {:induction false} ExactGrown(loans: seq<Loan>, g: real)
    ensures Exact(Grown(loans, g)) == Exact(loans) * g
  {
    if loans != [] {
      ExactGrown(loans[1..], g);
      assert Grown(loans, g)[1..] == Grown(loans[1..], g);
      var value: real := loans[0].debt.borrowed as real;
      Regroup(value, loans[0].growth, g);
      Times(value * loans[0].growth, Exact(loans[1..]), g);
    }
  }

  lemma Regroup(a: real, b: real, g: real)
    ensures a * (b * g) == (a * b) * g
  {
  }

  // ---- real inequalities ----

  lemma RealMono(a: real, b: real, c: real)
    requires a <= b && c >= 0.0
    ensures a * c <= b * c
  {
  }

  lemma RealCancel(a: real, b: real, c: real)
    requires a * c <= b * c && c > 0.0
    ensures a <= b
  {
    if b < a {
      RealMonoStrict(b, a, c);
    }
  }

  lemma RealMonoStrict(a: real, b: real, c: real)
    requires a < b && c > 0.0
    ensures a * c < b * c
  {
  }

  // ---- what every run keeps ----

  /** The index has grown by at most the exact growth of the loan. */
  predicate Tracked(loan: Loan, index: Decimal) {
    && loan.debt.index > 0 && loan.growth >= 1.0
    && index as real <= loan.debt.index as real * loan.growth
  }

  predicate AllTracked(loans: seq<Loan>, index: Decimal) {
    forall i :: 0 <= i < |loans| ==> Tracked(loans[i], index)
  }

  /** One unit for every accrual, and the growth since. */
  function Slack(b: Book): real {
    b.accruals as real * b.growth
  }

  predicate Bounded(b: Book) {
    && b.liquidity.index > 0 && b.growth >= 1.0
    && AllTracked(b.loans, b.liquidity.index)
    && Exact(b.loans) <= b.liquidity.borrowed as real + Slack(b)
  }

  /** Bringing a loan up to date never takes it above its exact value. */
  lemma RefreshWithin(loan: Loan, index: Decimal)
    requires Tracked(loan, index) && Obligation.AccrueDebt(loan.debt, index).Ok?
    ensures Obligation.AccrueDebt(loan.debt, index).value.borrowed as real <= ValueOf(loan)
    ensures Obligation.AccrueDebt(loan.debt, index).value.index == index
  {
    hide Floor;
    var d, debt := loan.debt, Obligation.AccrueDebt(loan.debt, index).value;
    if index == d.index {
      RealMono(1.0, loan.growth, d.borrowed as real);
    } else {
      var ratio := TryDiv(index, d.index).value;
      assert debt.borrowed * WAD <= d.borrowed * ratio && ratio * d.index <= index * WAD;
      hide *;
      RefreshArith(d.borrowed, d.index, index, ratio, debt.borrowed, WAD);
      ExactArith(d.borrowed, d.index, index, debt.borrowed, loan.growth);
    }
  }

  lemma RefreshArith(old': nat, from: nat, index: nat, ratio: nat, new': nat, w: nat)
    requires w > 0 && new' * w <= old' * ratio && ratio * from <= index * w
    ensures new' * from <= old' * index
  {
    Arith.MulMono(new' * w, old' * ratio, from);
    Arith.MulMono(ratio * from, index * w, old');
    assert (new' * w) * from == (new' * from) * w;
    assert (old' * ratio) * from == (ratio * from) * old' && (index * w) * old' == (old' * index) * w;
    Arith.CancelLe(new' * from, old' * index, w);
  }

  lemma ExactArith(old': nat, from: nat, index: nat, new': nat, growth: real)
    requires from > 0 && new' * from <= old' * index && index as real <= from as real * growth
    ensures new' as real <= old' as real * growth
  {
    var (n, f, o, x) := (new' as real, from as real, old' as real, index as real);
    assert (new' * from) as real == n * f && (old' * index) as real == o * x;
    RealMono(x, f * growth, o);
    assert (f * growth) * o == (o * growth) * f;
    RealCancel(n, o * growth, f);
  }

  /** Replacing a loan and the reserve's record so that the sum stays within. */
  lemma ReplaceBounded(b: Book, i: nat, loan: Loan, liquidity: Liquidity)
    requires Bounded(b) && i < |b.loans| && liquidity.index == b.liquidity.index && Tracked(loan, liquidity.index)
    requires Exact(b.loans) - ValueOf(b.loans[i]) + ValueOf(loan)
          <= liquidity.borrowed as real + Slack(b)
    ensures Bounded(b.(liquidity := liquidity, loans := b.loans[i := loan]))
  {
    ExactUpdate(b.loans, i, loan);
    assert Slack(b.(liquidity := liquidity, loans := b.loans[i := loan])) == Slack(b);
    hide Exact, Slack, Tracked;
  }

  predicate IsFresh(b: Book, i: nat) {
    i < |b.loans| && b.loans[i].growth == 1.0 && b.loans[i].debt.index == b.liquidity.index
  }

  lemma RefreshBounded(b: Book, i: nat)
    requires Bounded(b) && RefreshStep(b, i).Ok?
    ensures Bounded(RefreshStep(b, i).value) && IsFresh(RefreshStep(b, i).value, i)
  {
    var index, next := b.liquidity.index, RefreshStep(b, i).value;
    RefreshWithin(b.loans[i], index);
    hide Exact, Slack, Obligation.AccrueDebt;
    ReplaceBounded(b, i, next.loans[i], b.liquidity);
  }

  lemma OpenBounded(b: Book, key: Pubkey, amount: Decimal)
    requires Bounded(b) && OpenStep(b, key, amount).Ok?
    ensures Bounded(OpenStep(b, key, amount).value)
  {
    ExactConcat(b.loans, [OpenStep(b, key, amount).value.loans[|b.loans|]]);
  }

  lemma BorrowBounded(b: Book, i: nat, amount: Decimal)
    requires Bounded(b) && IsFresh(b, i) && BorrowStep(b, i, amount).Ok?
    ensures Bounded(BorrowStep(b, i, amount).value)
  {
    var next := BorrowStep(b, i, amount).value;
    assert Tracked(b.loans[i], b.liquidity.index);
    hide Exact, Slack;
    ReplaceBounded(b, i, next.loans[i], next.liquidity);
  }

  /** Settling more than the reserve has on record clears it; what is left of the
      loans is then within the slack alone. */
  lemma RepayBounded(b: Book, i: nat, amount: U64)
    requires Bounded(b) && IsFresh(b, i) && RepayStep(b, i, amount).Ok?
    ensures Bounded(RepayStep(b, i, amount).value)
  {
    var next := RepayStep(b, i, amount).value;
    var settled := CalculateRepay(amount, b.loans[i].debt.borrowed).value.settled;
    assert Tracked(b.loans[i], b.liquidity.index) && next.liquidity.index == b.liquidity.index;
    assert next.liquidity.borrowed == b.liquidity.borrowed - Min(settled, b.liquidity.borrowed);
    if settled == b.loans[i].debt.borrowed {
      hide Exact, Slack;
      SettledBounded(b, i, next);
    } else {
      hide Exact, Slack, Tracked;
      ReplaceBounded(b, i, next.loans[i], next.liquidity);
    }
  }

  lemma SettledBounded(b: Book, i: nat, next: Book)
    requires Bounded(b) && IsFresh(b, i) && next.liquidity.index == b.liquidity.index
    requires next.liquidity.borrowed == b.liquidity.borrowed - Min(b.loans[i].debt.borrowed, b.liquidity.borrowed)
    requires next.loans == b.loans[..i] + b.loans[i + 1..] && next.accruals == b.accruals && next.growth == b.growth
    ensures Bounded(next)
  {
    ExactRemove(b.loans, i);
    hide Exact, Tracked;
    assert Slack(next) == Slack(b) && Slack(b) >= 0.0;
    hide Slack;
  }

  lemma {:induction false} GrownTracked(loans: seq<Loan>, index: Decimal, index': Decimal, g: real)
    requires AllTracked(loans, index) && g >= 1.0 && index' as real <= index as real * g
    ensures AllTracked(Grown(loans, g), index')
  {
    if loans != [] {
      TailTracked(loans, index);
      GrownTracked(loans[1..], index, index', g);
      var first := loans[0];
      assert Tracked(first, index);
      RealMono(index as real, first.debt.index as real * first.growth, g);
      Regroup(first.debt.index as real, first.growth, g);
      RealMono(1.0, first.growth, g);
    }
  }

  lemma Scaled(n: nat, factor: nat, w: real, g: real)
    requires w > 0.0 && g == factor as real / w
    ensures (n * factor) as real == (n as real * g) * w
  {
    assert factor as real == g * w;
    Regroup(n as real, g, w);
  }

  /** The exact value of a floor by the scale. */
  lemma FloorExact(q: nat, n: nat, factor: nat, g: real)
    requires IsFloor(q, n * factor, WAD) && g == factor as real / WAD as real
    ensures q as real <= n as real * g < q as real + 1.0
  {
    Scaled(n, factor, WAD as real, g);
  }

  lemma SlackGrows(exact: real, borrowed: real, borrowed': real, n: real, growth: real, g: real)
    requires exact <= borrowed + n * growth && borrowed * g < borrowed' + 1.0
    requires g >= 1.0 && growth >= 1.0 && n >= 0.0
    ensures exact * g <= borrowed' + (n + 1.0) * (growth * g)
    ensures growth * g >= 1.0
  {
    var x := growth * g;
    assert x >= 1.0 by {
      RealMono(1.0, growth, g);
    }
    assert exact * g <= borrowed * g + n * x by {
      RealMono(exact, borrowed + n * growth, g);
      Times(borrowed, n * growth, g);
      Regroup(n, growth, g);
    }
    Times(n, 1.0, x);
  }

  lemma GrowFloors(l: Liquidity, factor: Rate, takeRate: Rate)
    requires Grow(l, factor, takeRate).result.Ok?
    ensures IsFloor(Grow(l, factor, takeRate).next.index, l.index * factor, WAD)
    ensures IsFloor(Grow(l, factor, takeRate).next.borrowed, l.borrowed * factor, WAD)
  {
    hide Floor;
  }

  lemma IndexRises(index: nat, index': nat, factor: nat)
    requires factor >= WAD && IsFloor(index', index * factor, WAD)
    ensures index' >= index
  {
    Arith.MulMono(WAD, factor, index);
    Arith.FloorsOrdered(index, index * WAD, index', index * factor, WAD);
  }

  lemma GrowBounded(b: Book, factor: Rate, takeRate: Rate, next: Book)
    requires Bounded(b) && factor >= WAD
    requires Grow(b.liquidity, factor, takeRate).result.Ok? && Grow(b.liquidity, factor, takeRate).next == next.liquidity
    requires var g := factor as real / WAD as real;
      next.loans == Grown(b.loans, g) && next.accruals == b.accruals + 1 && next.growth == b.growth * g
    ensures Bounded(next)
  {
    hide Grow, Grown, AllTracked, Exact;
    var l, l', g := b.liquidity, next.liquidity, factor as real / WAD as real;
    GrowFloors(l, factor, takeRate);
    IndexRises(l.index, l'.index, factor);
    FloorExact(l'.index, l.index, factor, g);
    FloorExact(l'.borrowed, l.borrowed, factor, g);
    hide IsFloor;
    GrownBounded(b, next, g);
  }

  lemma GrownBounded(b: Book, next: Book, g: real)
    requires Bounded(b) && g >= 1.0 && next.liquidity.index >= b.liquidity.index
    requires next.liquidity.index as real <= b.liquidity.index as real * g
    requires b.liquidity.borrowed as real * g < next.liquidity.borrowed as real + 1.0
    requires next.loans == Grown(b.loans, g) && next.accruals == b.accruals + 1 && next.growth == b.growth * g
    ensures Bounded(next)
  {
    GrownTracked(b.loans, b.liquidity.index, next.liquidity.index, g);
    ExactGrown(b.loans, g);
    hide Exact, Grown, AllTracked;
    SlackGrows(Exact(b.loans), b.liquidity.borrowed as real, next.liquidity.borrowed as real, b.accruals as real, b.growth, g);
  }

  lemma AccrueBounded(c: Config, b: Book, slot: U64)
    requires Bounded(b) && AccrueStep(c, b, slot).Ok?
    ensures Bounded(AccrueStep(c, b, slot).value)
  {
    hide Grow, CurrentBorrowRate, GrowthFactor, Bounded;
    if slot > b.lastSlot {
      var rate := CurrentBorrowRate(c, b.liquidity).value;
      var factor := GrowthFactor(rate, slot - b.lastSlot).value;
      ShareValue.GrowthAtLeastOne(rate, slot - b.lastSlot);
      GrowBounded(b, factor, PercentRate(c.protocolTakeRate), AccrueStep(c, b, slot).value);
    } else {
      assert AccrueStep(c, b, slot).value == b;
    }
  }

  lemma ApplyBounded(c: Config, key: Pubkey, b: Book, op: Op)
    requires Bounded(b)
    ensures Bounded(Apply(c, key, b, op))
  {
    if TryApply(c, key, b, op).Ok? {
      match op
      case Accrue(slot) => AccrueBounded(c, b, slot);
      case Refresh(i) => RefreshBounded(b, i);
      case Open(amount) => OpenBounded(b, key, amount);
      case BorrowOn(i, amount) =>
        RefreshBounded(b, i);
        BorrowBounded(RefreshStep(b, i).value, i, amount);
      case RepayOn(i, amount) =>
        RefreshBounded(b, i);
        RepayBounded(RefreshStep(b, i).value, i, amount);
      case _ =>
    }
  }

  lemma {:induction false} RunBounded(c: Config, key: Pubkey, slot: U64, ops: seq<Op>)
    ensures Bounded(Run(c, key, NewBook(slot), ops))
  {
    if ops != [] {
      RunBounded(c, key, slot, ops[..|ops| - 1]);
      ApplyBounded(c, key, Run(c, key, NewBook(slot), ops[..|ops| - 1]), ops[|ops| - 1]);
    }
  }

  /** What a loan owes once brought up to date; one that cannot be counts as it is. */
  function OwedOf(loan: Loan, index: Decimal): nat {
    var refreshed := Obligation.AccrueDebt(loan.debt, index);
    if refreshed.Ok? then refreshed.value.borrowed else loan.debt.borrowed
  }

  function OwedNow(loans: seq<Loan>, index: Decimal): nat {
    if loans == [] then 0 else OwedOf(loans[0], index) + OwedNow(loans[1..], index)
  }

  lemma OwedWithin(loan: Loan, index: Decimal)
    requires Tracked(loan, index)
    ensures OwedOf(loan, index) as real <= ValueOf(loan)
  {
    if Obligation.AccrueDebt(loan.debt, index).Ok? {
      RefreshWithin(loan, index);
    } else {
      RealMono(1.0, loan.growth, loan.debt.borrowed as real);
    }
  }

  lemma {:induction false} OwedWithinExact(loans: seq<Loan>, index: Decimal)
    requires AllTracked(loans, index)
    ensures OwedNow(loans, index) as real <= Exact(loans)
  {
    hide OwedOf, Tracked, ValueOf;
    if loans != [] {
      TailTracked(loans, index);
      OwedWithinExact(loans[1..], index);
      OwedWithin(loans[0], index);
    }
  }

  lemma TailTracked(loans: seq<Loan>, index: Decimal)
    requires AllTracked(loans, index) && loans != []
    ensures AllTracked(loans[1..], index) && Tracked(loans[0], index)
  {
    hide Tracked;
    assert forall i :: 0 <= i < |loans[1..]| ==> loans[1..][i] == loans[i + 1];
  }

  /** Over every run from a new reserve in which loans are brought up to date at any
      time or not at all, what they owe together exceeds the reserve's record by at
      most one raw unit for each accrual, grown by the interest since the start. */
  lemma LateDebtIsBounded(c: Config, key: Pubkey, slot: U64, ops: seq<Op>)
    ensures var b := Run(c, key, NewBook(slot), ops);
      OwedNow(b.loans, b.liquidity.index) as real <= b.liquidity.borrowed as real + b.accruals as real * b.growth
  {
    RunBounded(c, key, slot, ops);
    hide Run, OwedNow, Exact, AllTracked;
    var b := Run(c, key, NewBook(slot), ops);
    OwedWithinExact(b.loans, b.liquidity.index);
  }
}
