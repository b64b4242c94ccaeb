/** Stepping a repay size down until the transaction fits. */
module Sizing {
  import opened FixedPoint
  import Arith

  const MAX_TX_CU: nat := 1_400_000
  const MAX_TX_BYTES: nat := 1232

  datatype Constraint = CloseFactor | FlashDepth | ByteLimit | ComputeBudget

  /** What a route costs at each size: compute units, the transaction's length, and
      its length with lookup tables when there are any. A transaction that does
      not compile has a length over every limit. */
  datatype Route = Route(cu: U64 -> nat, plainLen: U64 -> nat, altLen: U64 -> Option<nat>)

  datatype Feasibility = Fit(usedAlt: bool) | Overflow(constraint: Constraint)

  function CheckFeasibility(size: U64, route: Route): Feasibility {
    if route.cu(size) > MAX_TX_CU then Overflow(ComputeBudget)
    else if route.plainLen(size) <= MAX_TX_BYTES then Fit(false)
    else if route.altLen(size).Some? && route.altLen(size).value <= MAX_TX_BYTES then Fit(true)
    else Overflow(ByteLimit)
  }

  predicate Feasible(size: U64, route: Route) {
    CheckFeasibility(size, route).Fit?
  }

  datatype Decision = Decision(
    initialSize: U64, finalSize: U64, usedAlt: bool, stepDowns: nat, bindingConstraint: Option<Constraint>)

  /** A tenth of the initial size, and at least one. */
  function Decrement(initial: U64): (step: U64)
    ensures step >= 1
  {
    if initial / 10 > 1 then initial / 10 else 1
  }

  /** The size after `i` step-downs. */
  function Grid(initial: U64, i: nat): int {
    initial - i * Decrement(initial)
  }

  predicate OnGrid(initial: U64, i: nat) {
    Grid(initial, i) > 0
  }

  lemma GridStep(initial: U64, i: nat)
    ensures Grid(initial, i + 1) == Grid(initial, i) - Decrement(initial)
    ensures Grid(initial, i) <= initial
  {
    Arith.MulMono(0, i, Decrement(initial));
  }

  lemma {:induction false} GridFalls(initial: U64, i: nat, j: nat)
    requires i <= j
    ensures Grid(initial, j) <= Grid(initial, i) - (j - i)
    decreases j
  {
    if i < j {
      GridFalls(initial, i, j - 1);
      GridStep(initial, j - 1);
    }
  }

  /** Every one of the first `n` sizes is infeasible. */
  predicate NoneFits(initial: U64, route: Route, n: nat)
    requires n == 0 || OnGrid(initial, n - 1)
  {
    forall i :: 0 <= i < n ==> OnGrid(initial, i) && !Feasible(GridSize(initial, i), route)
  }

  function GridSize(initial: U64, i: nat): (size: U64)
    requires OnGrid(initial, i)
    ensures size == Grid(initial, i) > 0
  {
    GridStep(initial, i);
    Grid(initial, i)
  }

  function Initial(closeFactorMax: U64, flashAvailable: U64): U64 {
    if closeFactorMax < flashAvailable then closeFactorMax else flashAvailable
  }

  function StartConstraint(closeFactorMax: U64, initial: U64): Constraint {
    if initial == closeFactorMax then CloseFactor else FlashDepth
  }

  /** The decision is the first size down the grid that fits; or zero, past the
      whole grid, when none does. */
  predicate Decides(d: Decision, closeFactorMax: U64, flashAvailable: U64, route: Route) {
    var initial := Initial(closeFactorMax, flashAvailable);
    && d.initialSize == initial
    && (initial == 0 ==> d == Decision(0, 0, false, 0, Some(if closeFactorMax == 0 then CloseFactor else FlashDepth)))
    && (initial > 0 ==>
          && (d.stepDowns == 0 || OnGrid(initial, d.stepDowns - 1))
          && NoneFits(initial, route, d.stepDowns)
          && (d.stepDowns > 0 ==>
                d.bindingConstraint == Some(CheckFeasibility(GridSize(initial, d.stepDowns - 1), route).constraint))
          && (d.stepDowns == 0 ==> d.bindingConstraint == Some(StartConstraint(closeFactorMax, initial)))
          && (OnGrid(initial, d.stepDowns) ==>
                && d.finalSize == GridSize(initial, d.stepDowns)
                && CheckFeasibility(d.finalSize, route) == Fit(d.usedAlt))
          && (!OnGrid(initial, d.stepDowns) ==> d.finalSize == 0 && !d.usedAlt))
  }

  /** After `n` step-downs the loop is at the `n`th size, none before it fits, and the
      constraint of the one just before it is remembered. */
  ghost predicate Reached(initial: U64, route: Route, n: nat, current: U64, last: Option<Constraint>) {
    && OnGrid(initial, n) && current == GridSize(initial, n)
    && (n > 0 ==> OnGrid(initial, n - 1) && current < initial)
    && NoneFits(initial, route, n)
    && (n > 0 ==> last == Some(CheckFeasibility(GridSize(initial, n - 1), route).constraint))
  }

  lemma NextOnGrid(initial: U64, n: nat)
    ensures Grid(initial, n + 1) == Grid(initial, n) - Decrement(initial)
    ensures OnGrid(initial, n + 1) <==> Grid(initial, n) > Decrement(initial)
  {
    GridStep(initial, n);
    hide Decrement, Grid;
  }

  lemma StartReached(initial: U64, route: Route)
    requires initial > 0
    ensures Reached(initial, route, 0, initial, None)
  {
    assert Grid(initial, 0) == initial;
    hide Decrement, CheckFeasibility;
  }

  lemma FitDecides(closeFactorMax: U64, flashAvailable: U64, route: Route, n: nat, current: U64, last: Option<Constraint>,
                   usedAlt: bool)
    requires Reached(Initial(closeFactorMax, flashAvailable), route, n, current, last)
    requires CheckFeasibility(current, route) == Fit(usedAlt)
    ensures var initial := Initial(closeFactorMax, flashAvailable);
      var binding := if current < initial then last else Some(StartConstraint(closeFactorMax, initial));
      Decides(Decision(initial, current, usedAlt, n, binding), closeFactorMax, flashAvailable, route)
  {
    var initial := Initial(closeFactorMax, flashAvailable);
    if n == 0 {
      assert Grid(initial, 0) == initial;
    }
    hide Decrement, Grid, CheckFeasibility, NoneFits;
  }

  lemma StepDownDecides(closeFactorMax: U64, flashAvailable: U64, route: Route, n: nat, current: U64,
                        last: Option<Constraint>, constraint: Constraint)
    requires Reached(Initial(closeFactorMax, flashAvailable), route, n, current, last)
    requires CheckFeasibility(current, route) == Overflow(constraint)
    ensures var initial := Initial(closeFactorMax, flashAvailable);
      && (current <= Decrement(initial) ==>
            Decides(Decision(initial, 0, false, n + 1, Some(constraint)), closeFactorMax, flashAvailable, route))
      && (current > Decrement(initial) ==>
            Reached(initial, route, n + 1, current - Decrement(initial), Some(constraint)))
  {
    var initial := Initial(closeFactorMax, flashAvailable);
    NextOnGrid(initial, n);
    GridStep(initial, n);
    hide Decrement, Grid, CheckFeasibility;
    assert NoneFits(initial, route, n + 1);
    hide NoneFits;
  }

  method SizePositionWithFeasibility(closeFactorMax: U64, flashAvailable: U64, route: Route) returns (d: Decision)
    ensures Decides(d, closeFactorMax, flashAvailable, route)
  {
    var initial: U64 := Initial(closeFactorMax, flashAvailable);
    if initial == 0 {
      return Decision(0, 0, false, 0, Some(if closeFactorMax == 0 then CloseFactor else FlashDepth));
    }
    var current: U64 := initial;
    var step: U64 := Decrement(initial);
    var stepDowns: nat := 0;
    var lastOverflow: Option<Constraint> := None;
    StartReached(initial, route);
    hide *;
    while true
      invariant Reached(initial, route, stepDowns, current, lastOverflow)
      decreases current
    {
      match CheckFeasibility(current, route) {
        case Fit(usedAlt) =>
          FitDecides(closeFactorMax, flashAvailable, route, stepDowns, current, lastOverflow, usedAlt);
          var binding := if current < initial then lastOverflow else Some(StartConstraint(closeFactorMax, initial));
          return Decision(initial, current, usedAlt, stepDowns, binding);
        case Overflow(constraint) =>
          StepDownDecides(closeFactorMax, flashAvailable, route, stepDowns, current, lastOverflow, constraint);
          lastOverflow := Some(constraint);
          stepDowns := stepDowns + 1;
          if current <= step {
            return Decision(initial, 0, false, stepDowns, Some(constraint));
          }
          current := current - step;
      }
    }
  }

  // ---- what the decision means ----

  lemma FirstFit(a: Decision, b: Decision, closeFactorMax: U64, flashAvailable: U64, route: Route)
    requires Decides(a, closeFactorMax, flashAvailable, route) && Decides(b, closeFactorMax, flashAvailable, route)
    requires a.initialSize > 0
    ensures a.stepDowns >= b.stepDowns
  {
    assert NoneFits(b.initialSize, route, b.stepDowns);
    assert OnGrid(a.initialSize, a.stepDowns) ==> Feasible(GridSize(a.initialSize, a.stepDowns), route);
  }

  /** The rules determine the decision. */
  lemma DecisionUnique(a: Decision, b: Decision, closeFactorMax: U64, flashAvailable: U64, route: Route)
    requires Decides(a, closeFactorMax, flashAvailable, route) && Decides(b, closeFactorMax, flashAvailable, route)
    ensures a == b
  {
    if a.initialSize > 0 {
      FirstFit(a, b, closeFactorMax, flashAvailable, route);
      FirstFit(b, a, closeFactorMax, flashAvailable, route);
    }
  }

  lemma GridHasAtMostNineteen(initial: U64, i: nat)
    requires OnGrid(initial, i)
    ensures i <= 18
  {
    Arith.CancelLt(i, 19, Decrement(initial));
  }

  /** No size, however large, is stepped down more than nineteen times. */
  lemma AtMostNineteen(d: Decision, closeFactorMax: U64, flashAvailable: U64, route: Route)
    requires Decides(d, closeFactorMax, flashAvailable, route)
    ensures d.stepDowns <= 19
  {
    if d.stepDowns > 0 {
      GridHasAtMostNineteen(d.initialSize, d.stepDowns - 1);
    }
  }

  /** Nineteen are needed when nothing fits and the size is nineteen. */
  lemma NineteenIsReached(d: Decision, route: Route)
    requires forall size: U64 :: !Feasible(size, route)
    requires Decides(d, 19, 19, route)
    ensures d.stepDowns == 19 && d.finalSize == 0
  {
    assert Decrement(19) == 1;
    assert OnGrid(19, d.stepDowns) ==> Feasible(d.finalSize, route);
    assert !Feasible(d.finalSize, route);
    assert Grid(19, d.stepDowns) == 19 - d.stepDowns;
    assert d.stepDowns == 0 || Grid(19, d.stepDowns - 1) == 20 - d.stepDowns;
  }

  /** No feasible size on the grid exceeds the decision. */
  lemma LargestOnGrid(d: Decision, closeFactorMax: U64, flashAvailable: U64, route: Route, i: nat)
    requires Decides(d, closeFactorMax, flashAvailable, route)
    requires OnGrid(d.initialSize, i) && Feasible(GridSize(d.initialSize, i), route)
    ensures GridSize(d.initialSize, i) <= d.finalSize
    ensures Feasible(d.finalSize, route)
  {
    if d.stepDowns <= i {
      GridFalls(d.initialSize, d.stepDowns, i);
    }
  }

  ghost predicate DownwardClosed(route: Route) {
    forall small: U64, large: U64 :: 0 < small <= large && Feasible(large, route) ==> Feasible(small, route)
  }

  /** When smaller sizes are never harder, less than one step is lost. */
  lemma LosesLessThanAStep(d: Decision, closeFactorMax: U64, flashAvailable: U64, route: Route, size: U64)
    requires Decides(d, closeFactorMax, flashAvailable, route) && DownwardClosed(route)
    requires 0 < size <= d.initialSize && Feasible(size, route)
    ensures size < d.finalSize + Decrement(d.initialSize)
  {
    var initial := d.initialSize;
    if d.stepDowns > 0 {
      var last := GridSize(initial, d.stepDowns - 1);
      GridStep(initial, d.stepDowns - 1);
      assert !Feasible(last, route);
      assert size < last;
    }
  }

  // ---- when zero means that nothing fits ----

  /** The smallest size tried. */
  function Smallest(initial: U64): (size: U64)
    requires initial > 0
    ensures 1 <= size <= Decrement(initial)
  {
    (initial - 1) % Decrement(initial) + 1
  }

  lemma AboveSmallest(initial: U64, i: nat)
    requires OnGrid(initial, i)
    ensures GridSize(initial, i) >= Smallest(initial)
    ensures !OnGrid(initial, i + 1) ==> GridSize(initial, i) == Smallest(initial)
  {
    var step: int, q: int := Decrement(initial), (initial - 1) / Decrement(initial);
    GridStep(initial, i);
    Arith.DivMod(initial - 1, step);
    assert (initial - 1) % step == initial - 1 - q * step;
    Arith.FloorsOrdered(i, i * step, q, initial - 1, step);
    Arith.MulMono(i, q, step);
    if !OnGrid(initial, i + 1) {
      Arith.FloorsOrdered(q, q * step, i, initial - 1, step);
    }
  }

  lemma ZeroRulesOutAll(d: Decision, closeFactorMax: U64, flashAvailable: U64, route: Route, size: U64)
    requires Decides(d, closeFactorMax, flashAvailable, route) && DownwardClosed(route)
    requires d.initialSize > 0 && Smallest(d.initialSize) == 1 && d.finalSize == 0
    requires size > 0
    ensures !Feasible(size, route)
  {
    assert d.stepDowns > 0 by {
      assert Grid(d.initialSize, 0) == d.initialSize;
    }
    AboveSmallest(d.initialSize, d.stepDowns - 1);
    assert !Feasible(GridSize(d.initialSize, d.stepDowns - 1), route);
  }

  /** A route whose transaction fits below a size only, by its length. */
  function FitsBelow(limit: U64): Route {
    Route(_ => 0, size => if size < limit then 0 else MAX_TX_BYTES + 1, _ => None)
  }

  /** Where it leads when nothing on the grid fits. */
  lemma NothingOnGrid(closeFactorMax: U64, flashAvailable: U64, initial: U64) returns (d: Decision)
    requires initial == Initial(closeFactorMax, flashAvailable) > 0
    ensures Decides(d, closeFactorMax, flashAvailable, FitsBelow(Smallest(initial))) && d.finalSize == 0
  {
    var step: int, route := Decrement(initial), FitsBelow(Smallest(initial));
    var n: nat := (initial - 1) / step;
    Arith.DivMod(initial - 1, step);
    d := Decision(initial, 0, false, n + 1, Some(ByteLimit));
    assert OnGrid(initial, n) && !OnGrid(initial, n + 1) by {
      GridStep(initial, n);
    }
    forall i: nat | i <= n
      ensures OnGrid(initial, i) && CheckFeasibility(GridSize(initial, i), route) == Overflow(ByteLimit)
    {
      GridFalls(initial, i, n);
      AboveSmallest(initial, i);
    }
  }

  /** A result of zero means that no size fits at all, as the log says, for every
      route that smaller sizes never make harder, exactly when the smallest size
      tried is one. */
  lemma ZeroMeansNothingFits(closeFactorMax: U64, flashAvailable: U64, initial: U64)
    requires initial == Initial(closeFactorMax, flashAvailable) > 0
    ensures Smallest(initial) == 1
       <==> forall route: Route, d: Decision, size: U64 ::
              DownwardClosed(route) && Decides(d, closeFactorMax, flashAvailable, route) && d.finalSize == 0 && size > 0
              ==> !Feasible(size, route)
  {
    hide Decides, CheckFeasibility;
    if Smallest(initial) == 1 {
      forall route: Route, d: Decision, size: U64 | DownwardClosed(route)
        && Decides(d, closeFactorMax, flashAvailable, route) && d.finalSize == 0 && size > 0
        ensures !Feasible(size, route)
      {
        DecidesInitial(d, closeFactorMax, flashAvailable, route);
        ZeroRulesOutAll(d, closeFactorMax, flashAvailable, route, size);
      }
    } else {
      var d := NothingOnGrid(closeFactorMax, flashAvailable, initial);
      FitsBelowIsClosed(Smallest(initial));
      assert Feasible(1, FitsBelow(Smallest(initial)));
    }
  }

  lemma DecidesInitial(d: Decision, closeFactorMax: U64, flashAvailable: U64, route: Route)
    requires Decides(d, closeFactorMax, flashAvailable, route)
    ensures d.initialSize == Initial(closeFactorMax, flashAvailable)
  {
  }

  lemma FitsBelowIsClosed(limit: U64)
    ensures DownwardClosed(FitsBelow(limit))
    ensures forall size: U64 :: Feasible(size, FitsBelow(limit)) <==> size < limit
  {
  }
}
