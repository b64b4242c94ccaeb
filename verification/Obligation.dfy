/** An obligation's deposits and borrows: two lists, each with at most one entry
    a reserve, sharing ten places. */
module Obligation {
  import opened FixedPoint
  import opened Bytes

  const MAX_OBLIGATION_RESERVES: nat := 10

  datatype Collateral = Collateral(
    depositReserve: Pubkey,
    depositedAmount: U64,
    marketValue: Decimal,
    attributedBorrowValue: Decimal)

  datatype Debt = Debt(
    borrowReserve: Pubkey,
    index: Decimal,
    borrowed: Decimal,
    marketValue: Decimal)

  // ---- one entry ----

  function RepayDebt(d: Debt, settled: Decimal): Result<Debt> {
    var rest :- TrySub(d.borrowed, settled);
    Ok(d.(borrowed := rest))
  }

  function BorrowMore(d: Debt, amount: Decimal): Result<Debt> {
    var sum :- TryAdd(d.borrowed, amount);
    Ok(d.(borrowed := sum))
  }

  /** Grow the debt by what the reserve's index grew since its own index. */
  function AccrueDebt(d: Debt, index: Decimal): Result<Debt> {
    if index < d.index then Err(NegativeInterestRate)
    else if index == d.index then Ok(d)
    else
      var growth :- TryDiv(index, d.index);
      var factor :- ToRate(growth);
      var grown :- TryMul(d.borrowed, factor);
      Ok(d.(borrowed := grown, index := index))
  }

  function DepositMore(c: Collateral, amount: U64): Result<Collateral> {
    if c.depositedAmount + amount >= U64_LIMIT then Err(MathOverflow)
    else Ok(c.(depositedAmount := c.depositedAmount + amount))
  }

  function WithdrawSome(c: Collateral, amount: U64): Result<Collateral> {
    if amount > c.depositedAmount then Err(MathOverflow)
    else Ok(c.(depositedAmount := c.depositedAmount - amount))
  }

  // ---- the lists ----

  function DepositKey(c: Collateral): Pubkey {
    c.depositReserve
  }

  function BorrowKey(d: Debt): Pubkey {
    d.borrowReserve
  }

  datatype Lists = Lists(deposits: seq<Collateral>, borrows: seq<Debt>)

  /** The whole obligation: its header and its lists. */
  datatype ObligationState = ObligationState(
    version: U8,
    slot: U64,
    stale: bool,
    lendingMarket: Pubkey,
    owner: Pubkey,
    lists: Lists,
    depositedValue: Decimal,
    borrowedValue: Decimal,
    unweightedBorrowedValue: Decimal,
    borrowedValueUpperBound: Decimal,
    allowedBorrowValue: Decimal,
    unhealthyBorrowValue: Decimal,
    superUnhealthyBorrowValue: Decimal,
    borrowingIsolatedAsset: bool,
    closeable: bool)

  function PositionOf<T>(entries: seq<T>, reserveOf: T -> Pubkey, reserve: Pubkey): (i: Option<nat>)
    ensures i.Some? ==> i.value < |entries| && reserveOf(entries[i.value]) == reserve
    ensures i.Some? ==> forall j :: 0 <= j < i.value ==> reserveOf(entries[j]) != reserve
    ensures i.None? ==> forall e :: e in entries ==> reserveOf(e) != reserve
  {
    if entries == [] then None
    else if reserveOf(entries[0]) == reserve then Some(0)
    else
      match PositionOf(entries[1..], reserveOf, reserve)
      case None => None
      case Some(k) => Some(k + 1)
  }

  function DepositIndex(l: Lists, reserve: Pubkey): Option<nat> {
    PositionOf(l.deposits, DepositKey, reserve)
  }

  function BorrowIndex(l: Lists, reserve: Pubkey): Option<nat> {
    PositionOf(l.borrows, BorrowKey, reserve)
  }

  function FindCollateral(l: Lists, reserve: Pubkey): Result<nat> {
    if l.deposits == [] then Err(ObligationDepositsEmpty) else
    match DepositIndex(l, reserve)
    case None => Err(InvalidObligationCollateral)
    case Some(i) => Ok(i)
  }

  function FindLiquidity(l: Lists, reserve: Pubkey): Result<nat> {
    if l.borrows == [] then Err(ObligationBorrowsEmpty) else
    match BorrowIndex(l, reserve)
    case None => Err(InvalidObligationLiquidity)
    case Some(i) => Ok(i)
  }

  function FindOrAddCollateral(l: Lists, reserve: Pubkey): Step<Lists, nat> {
    match DepositIndex(l, reserve)
    case Some(i) => Step(l, Ok(i))
    case None =>
      if |l.deposits| + |l.borrows| >= MAX_OBLIGATION_RESERVES then Step(l, Err(ObligationReserveLimit))
      else Step(l.(deposits := l.deposits + [Collateral(reserve, 0, 0, 0)]), Ok(|l.deposits|))
  }

  function FindOrAddLiquidity(l: Lists, reserve: Pubkey, index: Decimal): Step<Lists, nat> {
    match BorrowIndex(l, reserve)
    case Some(i) => Step(l, Ok(i))
    case None =>
      if |l.deposits| + |l.borrows| >= MAX_OBLIGATION_RESERVES then Step(l, Err(ObligationReserveLimit))
      else Step(l.(borrows := l.borrows + [Debt(reserve, index, 0, 0)]), Ok(|l.borrows|))
  }

  /** Settle part of a debt; a debt settled in full leaves the list. */
  function Repay(l: Lists, settled: Decimal, i: nat): Step<Lists, ()>
    requires i < |l.borrows|
  {
    if settled == l.borrows[i].borrowed then
      Step(l.(borrows := l.borrows[..i] + l.borrows[i + 1..]), Ok(()))
    else
      match RepayDebt(l.borrows[i], settled)
      case Err(e) => Step(l, Err(e))
      case Ok(d) => Step(l.(borrows := l.borrows[i := d]), Ok(()))
  }

  /** Withdraw part of a deposit; an emptied deposit leaves the list. */
  function Withdraw(l: Lists, amount: U64, i: nat): Step<Lists, ()>
    requires i < |l.deposits|
  {
    if amount == l.deposits[i].depositedAmount then
      Step(l.(deposits := l.deposits[..i] + l.deposits[i + 1..]), Ok(()))
    else
      match WithdrawSome(l.deposits[i], amount)
      case Err(e) => Step(l, Err(e))
      case Ok(c) => Step(l.(deposits := l.deposits[i := c]), Ok(()))
  }

  // ---- the invariant ----

  predicate Unique<T>(entries: seq<T>, reserveOf: T -> Pubkey) {
    forall i, j :: 0 <= i < j < |entries| ==> reserveOf(entries[i]) != reserveOf(entries[j])
  }

  predicate ValidLists(l: Lists) {
    && Unique(l.deposits, DepositKey)
    && Unique(l.borrows, BorrowKey)
    && |l.deposits| + |l.borrows| <= MAX_OBLIGATION_RESERVES
  }

  /** The amount held under a reserve's entry. */
  function AmountOf<T>(entries: seq<T>, reserveOf: T -> Pubkey, amountOf: T -> nat, reserve: Pubkey): nat {
    match PositionOf(entries, reserveOf, reserve)
    case None => 0
    case Some(i) => amountOf(entries[i])
  }

  function BorrowAmount(d: Debt): nat {
    d.borrowed
  }

  function DepositAmount(c: Collateral): nat {
    c.depositedAmount
  }

  /** What the obligation owes a reserve. */
  function Owed(l: Lists, reserve: Pubkey): nat {
    AmountOf(l.borrows, BorrowKey, BorrowAmount, reserve)
  }

  /** What the obligation has deposited of a reserve. */
  function Held(l: Lists, reserve: Pubkey): nat {
    AmountOf(l.deposits, DepositKey, DepositAmount, reserve)
  }

  /** With one entry a reserve, the entry at any index is the one that is found. */
  lemma PositionAt<T>(entries: seq<T>, reserveOf: T -> Pubkey, i: nat)
    requires Unique(entries, reserveOf) && i < |entries|
    ensures PositionOf(entries, reserveOf, reserveOf(entries[i])) == Some(i)
  {
    assert entries[i] in entries;
  }

  lemma SameAmount<T>(entries: seq<T>, entries': seq<T>, reserveOf: T -> Pubkey, amountOf: T -> nat, reserve: Pubkey)
    requires Unique(entries', reserveOf)
    requires forall e :: e in entries && reserveOf(e) == reserve ==> e in entries'
    requires forall e :: e in entries' && reserveOf(e) == reserve ==> e in entries
    ensures AmountOf(entries', reserveOf, amountOf, reserve) == AmountOf(entries, reserveOf, amountOf, reserve)
  {
    var p := PositionOf(entries, reserveOf, reserve);
    if p.Some? {
      var e := entries[p.value];
      assert e in entries;
      var j :| 0 <= j < |entries'| && entries'[j] == e;
      PositionAt(entries', reserveOf, j);
    }
  }

  /** The shape shared by repaying and withdrawing: the entry at `i` is lowered
      to `rest`, or removed when nothing is left of it. */
  ghost predicate Lowers<T>(entries: seq<T>, entries': seq<T>, reserveOf: T -> Pubkey, amountOf: T -> nat, i: nat,
                            amount: nat, rest: T)
  {
    && i < |entries| && amount <= amountOf(entries[i])
    && if amount == amountOf(entries[i]) then entries' == entries[..i] + entries[i + 1..]
       else && entries' == entries[i := rest]
            && reserveOf(rest) == reserveOf(entries[i])
            && amountOf(rest) == amountOf(entries[i]) - amount
  }

  lemma LowersKeepsUnique<T>(entries: seq<T>, entries': seq<T>, reserveOf: T -> Pubkey, amountOf: T -> nat, i: nat,
                             amount: nat, rest: T)
    requires Unique(entries, reserveOf) && Lowers(entries, entries', reserveOf, amountOf, i, amount, rest)
    ensures Unique(entries', reserveOf) && |entries'| <= |entries|
  {
  }

  lemma LowersKeepsOthers<T>(entries: seq<T>, entries': seq<T>, reserveOf: T -> Pubkey, amountOf: T -> nat, i: nat,
                             amount: nat, rest: T)
    requires Lowers(entries, entries', reserveOf, amountOf, i, amount, rest)
    ensures forall e :: reserveOf(e) != reserveOf(entries[i]) ==> (e in entries <==> e in entries')
  {
    forall e | e in entries && reserveOf(e) != reserveOf(entries[i])
      ensures e in entries'
    {
      var k :| 0 <= k < |entries| && entries[k] == e;
      assert k != i;
      assert |entries'| == |entries| ==> entries'[k] == e;
      assert |entries'| < |entries| ==> entries'[if k < i then k else k - 1] == e;
    }
  }

  /** Lowering an entry subtracts the amount from its reserve and from no other,
      and removes the reserve exactly when nothing is left. */
  lemma LowersIsSubtraction<T>(entries: seq<T>, entries': seq<T>, reserveOf: T -> Pubkey, amountOf: T -> nat, i: nat,
                               amount: nat, rest: T, other: Pubkey)
    requires Unique(entries, reserveOf) && Lowers(entries, entries', reserveOf, amountOf, i, amount, rest)
    ensures var reserve := reserveOf(entries[i]);
      && AmountOf(entries, reserveOf, amountOf, reserve) == amountOf(entries[i])
      && AmountOf(entries', reserveOf, amountOf, reserve) == amountOf(entries[i]) - amount
      && (PositionOf(entries', reserveOf, reserve).None? <==> amount == amountOf(entries[i]))
      && (other != reserve ==>
          AmountOf(entries', reserveOf, amountOf, other) == AmountOf(entries, reserveOf, amountOf, other))
  {
    PositionAt(entries, reserveOf, i);
    LowersKeepsUnique(entries, entries', reserveOf, amountOf, i, amount, rest);
    if amount == amountOf(entries[i]) {
      assert forall k :: 0 <= k < |entries'| ==> reserveOf(entries'[k]) != reserveOf(entries[i]);
    } else {
      PositionAt(entries', reserveOf, i);
    }
    if other != reserveOf(entries[i]) {
      LowersKeepsOthers(entries, entries', reserveOf, amountOf, i, amount, rest);
      SameAmount(entries, entries', reserveOf, amountOf, other);
    }
  }

  class ObligationBook {
    var deposits: seq<Collateral>
    var borrows: seq<Debt>

    function State(): Lists
      reads this
    {
      Lists(deposits, borrows)
    }

    constructor ()
      ensures State() == Lists([], []) && ValidLists(State())
    {
      deposits := [];
      borrows := [];
    }

    method FindOrAddDeposit(reserve: Pubkey) returns (r: Result<nat>)
      requires ValidLists(State())
      modifies this
      ensures ValidLists(State())
      ensures Step(State(), r) == FindOrAddCollateral(old(State()), reserve)
    {
      var found := DepositIndex(State(), reserve);
      if found.Some? {
        return Ok(found.value);
      }
      if |deposits| + |borrows| >= MAX_OBLIGATION_RESERVES {
        return Err(ObligationReserveLimit);
      }
      ghost var before := State();
      deposits := deposits + [Collateral(reserve, 0, 0, 0)];
      AddKeepsValid(before, reserve, 0);
      r := Ok(|deposits| - 1);
    }

    method FindOrAddBorrow(reserve: Pubkey, index: Decimal) returns (r: Result<nat>)
      requires ValidLists(State())
      modifies this
      ensures ValidLists(State())
      ensures Step(State(), r) == FindOrAddLiquidity(old(State()), reserve, index)
    {
      var found := BorrowIndex(State(), reserve);
      if found.Some? {
        return Ok(found.value);
      }
      if |deposits| + |borrows| >= MAX_OBLIGATION_RESERVES {
        return Err(ObligationReserveLimit);
      }
      ghost var before := State();
      borrows := borrows + [Debt(reserve, index, 0, 0)];
      AddKeepsValid(before, reserve, index);
      r := Ok(|borrows| - 1);
    }

    method RepayAt(settled: Decimal, i: nat) returns (r: Result<()>)
      requires ValidLists(State()) && i < |borrows|
      modifies this
      ensures ValidLists(State())
      ensures Step(State(), r) == Repay(old(State()), settled, i)
    {
      RepayKeepsValid(State(), settled, i);
      if settled == borrows[i].borrowed {
        borrows := borrows[..i] + borrows[i + 1..];
      } else {
        var rest :- RepayDebt(borrows[i], settled);
        borrows := borrows[i := rest];
      }
      r := Ok(());
    }

    method WithdrawAt(amount: U64, i: nat) returns (r: Result<()>)
      requires ValidLists(State()) && i < |deposits|
      modifies this
      ensures ValidLists(State())
      ensures Step(State(), r) == Withdraw(old(State()), amount, i)
    {
      WithdrawKeepsValid(State(), amount, i);
      if amount == deposits[i].depositedAmount {
        deposits := deposits[..i] + deposits[i + 1..];
      } else {
        var rest :- WithdrawSome(deposits[i], amount);
        deposits := deposits[i := rest];
      }
      r := Ok(());
    }
  }

  lemma AddKeepsValid(l: Lists, reserve: Pubkey, index: Decimal)
    requires ValidLists(l)
    ensures ValidLists(FindOrAddCollateral(l, reserve).next)
    ensures ValidLists(FindOrAddLiquidity(l, reserve, index).next)
  {
    UniqueAppend(l.deposits, DepositKey, Collateral(reserve, 0, 0, 0));
    UniqueAppend(l.borrows, BorrowKey, Debt(reserve, index, 0, 0));
  }

  lemma UniqueAppend<T>(entries: seq<T>, reserveOf: T -> Pubkey, e: T)
    requires Unique(entries, reserveOf)
    ensures PositionOf(entries, reserveOf, reserveOf(e)).None? ==> Unique(entries + [e], reserveOf)
  {
  }

  lemma RepayLowers(l: Lists, settled: Decimal, i: nat) returns (rest: Debt)
    requires i < |l.borrows| && Repay(l, settled, i).result.Ok?
    ensures Lowers(l.borrows, Repay(l, settled, i).next.borrows, BorrowKey, BorrowAmount, i, settled, rest)
  {
    rest := RepayDebt(l.borrows[i], settled).value;
  }

  lemma WithdrawLowers(l: Lists, amount: U64, i: nat) returns (rest: Collateral)
    requires i < |l.deposits| && Withdraw(l, amount, i).result.Ok?
    ensures Lowers(l.deposits, Withdraw(l, amount, i).next.deposits, DepositKey, DepositAmount, i, amount, rest)
  {
    rest := WithdrawSome(l.deposits[i], amount).value;
  }

  lemma RepayKeepsValid(l: Lists, settled: Decimal, i: nat)
    requires ValidLists(l) && i < |l.borrows|
    ensures ValidLists(Repay(l, settled, i).next)
  {
    if Repay(l, settled, i).result.Ok? {
      var rest := RepayLowers(l, settled, i);
      LowersKeepsUnique(l.borrows, Repay(l, settled, i).next.borrows, BorrowKey, BorrowAmount, i, settled, rest);
    }
  }

  lemma WithdrawKeepsValid(l: Lists, amount: U64, i: nat)
    requires ValidLists(l) && i < |l.deposits|
    ensures ValidLists(Withdraw(l, amount, i).next)
  {
    if Withdraw(l, amount, i).result.Ok? {
      var rest := WithdrawLowers(l, amount, i);
      LowersKeepsUnique(l.deposits, Withdraw(l, amount, i).next.deposits, DepositKey, DepositAmount, i, amount, rest);
    }
  }

  /** Finding or adding succeeds exactly when the reserve is there or a place is
      free; it yields the entry that is found afterwards, keeps every other
      entry where it was, and adds no debt. */
  lemma FindOrAddFinds(l: Lists, reserve: Pubkey, index: Decimal, other: Pubkey)
    requires ValidLists(l)
    ensures var step := FindOrAddLiquidity(l, reserve, index);
      && (step.result.Ok? <==> BorrowIndex(l, reserve).Some? || |l.deposits| + |l.borrows| < MAX_OBLIGATION_RESERVES)
      && (step.result.Ok? ==> FindLiquidity(step.next, reserve) == step.result)
      && l.borrows <= step.next.borrows && step.next.deposits == l.deposits
      && Owed(step.next, other) == Owed(l, other)
  {
    var step := FindOrAddLiquidity(l, reserve, index);
    AddKeepsValid(l, reserve, index);
    if step.result.Ok? {
      PositionAt(step.next.borrows, BorrowKey, step.result.value);
    }
    if step.next != l && other != reserve {
      SameAmount(l.borrows, step.next.borrows, BorrowKey, BorrowAmount, other);
    }
  }

  /** The same of a deposit and what is held. */
  lemma FindOrAddDepositFinds(l: Lists, reserve: Pubkey, other: Pubkey)
    requires ValidLists(l)
    ensures var step := FindOrAddCollateral(l, reserve);
      && (step.result.Ok? <==> DepositIndex(l, reserve).Some? || |l.deposits| + |l.borrows| < MAX_OBLIGATION_RESERVES)
      && (step.result.Ok? ==> FindCollateral(step.next, reserve) == step.result)
      && l.deposits <= step.next.deposits && step.next.borrows == l.borrows
      && Held(step.next, other) == Held(l, other)
  {
    var step := FindOrAddCollateral(l, reserve);
    AddKeepsValid(l, reserve, 0);
    if step.result.Ok? {
      PositionAt(step.next.deposits, DepositKey, step.result.value);
    }
    if step.next != l && other != reserve {
      SameAmount(l.deposits, step.next.deposits, DepositKey, DepositAmount, other);
    }
  }

  /** A repayment is accepted up to the whole debt; it lowers what is owed to
      that reserve by exactly the settled amount and nothing else, and the entry
      is gone exactly when the debt is settled in full. */
  lemma RepayIsSubtraction(l: Lists, settled: Decimal, i: nat, other: Pubkey)
    requires ValidLists(l) && i < |l.borrows|
    ensures var step, reserve := Repay(l, settled, i), l.borrows[i].borrowReserve;
      && (step.result.Ok? <==> settled <= Owed(l, reserve))
      && (step.result.Ok? ==>
          && Owed(step.next, reserve) == Owed(l, reserve) - settled
          && (other != reserve ==> Owed(step.next, other) == Owed(l, other))
          && (BorrowIndex(step.next, reserve).None? <==> settled == Owed(l, reserve)))
  {
    PositionAt(l.borrows, BorrowKey, i);
    if Repay(l, settled, i).result.Ok? {
      var rest := RepayLowers(l, settled, i);
      LowersIsSubtraction(l.borrows, Repay(l, settled, i).next.borrows, BorrowKey, BorrowAmount, i, settled, rest, other);
    }
  }

  /** The same of a withdrawal and what is held. */
  lemma WithdrawIsSubtraction(l: Lists, amount: U64, i: nat, other: Pubkey)
    requires ValidLists(l) && i < |l.deposits|
    ensures var step, reserve := Withdraw(l, amount, i), l.deposits[i].depositReserve;
      && (step.result.Ok? <==> amount <= Held(l, reserve))
      && (step.result.Ok? ==>
          && Held(step.next, reserve) == Held(l, reserve) - amount
          && (other != reserve ==> Held(step.next, other) == Held(l, other))
          && (DepositIndex(step.next, reserve).None? <==> amount == Held(l, reserve)))
  {
    PositionAt(l.deposits, DepositKey, i);
    if Withdraw(l, amount, i).result.Ok? {
      var rest := WithdrawLowers(l, amount, i);
      LowersIsSubtraction(l.deposits, Withdraw(l, amount, i).next.deposits, DepositKey, DepositAmount, i, amount, rest, other);
    }
  }

  // ---- runs ----

  datatype Op =
    | AddDeposit(reserve: Pubkey)
    | AddBorrow(reserve: Pubkey, index: Decimal)
    | DepositAt(i: nat, amount: U64)
    | WithdrawAt(i: nat, amount: U64)
    | BorrowAt(i: nat, borrowAmount: Decimal)
    | RepayAt(i: nat, settled: Decimal)
    | AccrueAt(i: nat, newIndex: Decimal)

  /** One operation; an index outside its list aborts and changes nothing. */
  function Apply(l: Lists, op: Op): Lists {
    match op
    case AddDeposit(reserve) => FindOrAddCollateral(l, reserve).next
    case AddBorrow(reserve, index) => FindOrAddLiquidity(l, reserve, index).next
    case DepositAt(i, amount) =>
      if i >= |l.deposits| then l else
      var r := DepositMore(l.deposits[i], amount);
      if r.Err? then l else l.(deposits := l.deposits[i := r.value])
    case WithdrawAt(i, amount) => if i >= |l.deposits| then l else Withdraw(l, amount, i).next
    case BorrowAt(i, amount) =>
      if i >= |l.borrows| then l else
      var r := BorrowMore(l.borrows[i], amount);
      if r.Err? then l else l.(borrows := l.borrows[i := r.value])
    case RepayAt(i, settled) => if i >= |l.borrows| then l else Repay(l, settled, i).next
    case AccrueAt(i, newIndex) =>
      if i >= |l.borrows| then l else
      var r := AccrueDebt(l.borrows[i], newIndex);
      if r.Err? then l else l.(borrows := l.borrows[i := r.value])
  }

  function Run(ops: seq<Op>): Lists {
    if ops == [] then Lists([], []) else Apply(Run(ops[..|ops| - 1]), ops[|ops| - 1])
  }

  lemma ApplyKeepsValid(l: Lists, op: Op)
    requires ValidLists(l)
    ensures ValidLists(Apply(l, op))
  {
    match op
    case AddDeposit(reserve) => AddKeepsValid(l, reserve, 0);
    case AddBorrow(reserve, index) => AddKeepsValid(l, reserve, index);
    case WithdrawAt(i, amount) =>
      if i < |l.deposits| {
        WithdrawKeepsValid(l, amount, i);
      }
    case RepayAt(i, settled) =>
      if i < |l.borrows| {
        RepayKeepsValid(l, settled, i);
      }
    case _ =>
  }

  /** Over every run each list names a reserve at most once and the two lists
      together stay within ten entries. */
  lemma {:induction false} RunKeepsValid(ops: seq<Op>)
    ensures ValidLists(Run(ops))
  {
    if ops != [] {
      RunKeepsValid(ops[..|ops| - 1]);
      ApplyKeepsValid(Run(ops[..|ops| - 1]), ops[|ops| - 1]);
    }
  }
}
