/** The outflow rate limiter: two adjacent windows aligned to multiples of the
    window duration, the older one weighted by how much of it is still inside
    the sliding window. */
module RateLimiter {
  import opened FixedPoint
  import Arith

  datatype Config = Config(windowDuration: U64, maxOutflow: U64)

  /** The value of a limiter's fields. */
  datatype Limiter = Limiter(config: Config, prevQty: Decimal, windowStart: U64, curQty: Decimal)

  /** Start of the aligned window of length `d` that holds `slot`. */
  function WindowStart(d: nat, slot: nat): (start: nat)
    requires d > 0
    ensures start <= slot < start + d
  {
    Arith.DivMod(slot, d);
    Arith.FactorGrows(slot / d, d);
    slot / d * d
  }

  function New(config: Config, slot: U64): Limiter {
    Limiter(config, 0, if config.windowDuration != 0 then WindowStart(config.windowDuration, slot) else slot, 0)
  }

  /** `_update`: move to the window of `slot`. The sum of window start and
      duration wraps around 64 bits. */
  function Roll(l: Limiter, slot: U64): Step<Limiter, ()>
    requires l.config.windowDuration > 0
  {
    if slot < l.windowStart then Step(l, Err(InvalidAccountInput)) else
    var start := WindowStart(l.config.windowDuration, slot);
    var next := (l.windowStart + l.config.windowDuration) % U64_LIMIT;
    if start < next then Step(l, Ok(()))
    else if start == next then Step(l.(prevQty := l.curQty, windowStart := start, curQty := 0), Ok(()))
    else Step(l.(prevQty := 0, windowStart := start, curQty := 0), Ok(()))
  }

  /** `current_outflow`, for a slot not before the window. */
  function CurrentOutflow(l: Limiter, slot: U64): Result<Decimal>
    requires l.windowStart <= slot
  {
    if l.config.windowDuration == 0 then Err(InvalidAccountInput) else
    var age := (slot - l.windowStart + 1) % U64_LIMIT;
    var rest :- TrySub(FromU64(l.config.windowDuration), FromU64(age));
    var weight :- TryDivInt(rest, l.config.windowDuration);
    var weighted :- TryMul(weight, l.prevQty);
    TryAdd(weighted, l.curQty)
  }

  lemma RollReachesSlot(l: Limiter, slot: U64)
    requires l.config.windowDuration > 0
    ensures Roll(l, slot).next.config == l.config
    ensures Roll(l, slot).result.Ok? ==> Roll(l, slot).next.windowStart <= slot
  {
  }

  function Remaining(l: Limiter, slot: U64): Step<Limiter, Decimal> {
    if l.config.windowDuration == 0 then Step(l, Ok(FromU64(U64_MAX))) else
    RollReachesSlot(l, slot);
    var Step(rolled, moved) := Roll(l, slot);
    if moved.Err? then Step(rolled, Err(moved.error)) else
    match CurrentOutflow(rolled, slot)
    case Err(e) => Step(rolled, Err(e))
    case Ok(outflow) =>
      if outflow > FromU64(rolled.config.maxOutflow) then Step(rolled, Ok(0))
      else Step(rolled, TrySub(FromU64(rolled.config.maxOutflow), outflow))
  }

  function Update(l: Limiter, slot: U64, qty: Decimal): Step<Limiter, ()> {
    if l.config.windowDuration == 0 then Step(l, Ok(())) else
    RollReachesSlot(l, slot);
    var Step(rolled, moved) := Roll(l, slot);
    if moved.Err? then Step(rolled, Err(moved.error)) else
    match CurrentOutflow(rolled, slot)
    case Err(e) => Step(rolled, Err(e))
    case Ok(outflow) =>
      match TryAdd(outflow, qty)
      case Err(e) => Step(rolled, Err(e))
      case Ok(total) =>
        if total > FromU64(rolled.config.maxOutflow) then Step(rolled, Err(OutflowRateLimitExceeded))
        else
          match TryAdd(rolled.curQty, qty)
          case Err(e) => Step(rolled, Err(e))
          case Ok(sum) => Step(rolled.(curQty := sum), Ok(()))
  }

  class RateLimiter {
    const config: Config
    var prevQty: Decimal
    var windowStart: U64
    var curQty: Decimal

    function State(): Limiter
      reads this
    {
      Limiter(config, prevQty, windowStart, curQty)
    }

    constructor (config: Config, slot: U64)
      ensures State() == New(config, slot)
    {
      this.config := config;
      prevQty := 0;
      if config.windowDuration != 0 {
        windowStart := WindowStart(config.windowDuration, slot);
      } else {
        windowStart := slot;
      }
      curQty := 0;
    }

    method RollTo(slot: U64) returns (r: Result<()>)
      requires config.windowDuration > 0
      modifies this
      ensures Step(State(), r) == Roll(old(State()), slot)
    {
      if slot < windowStart {
        return Err(InvalidAccountInput);
      }
      var start := WindowStart(config.windowDuration, slot);
      var next := (windowStart + config.windowDuration) % U64_LIMIT;
      if start == next {
        prevQty := curQty;
        windowStart := start;
        curQty := 0;
      } else if start > next {
        prevQty := 0;
        windowStart := start;
        curQty := 0;
      }
      r := Ok(());
    }

    method RemainingOutflow(slot: U64) returns (r: Result<Decimal>)
      modifies this
      ensures Step(State(), r) == Remaining(old(State()), slot)
    {
      if config.windowDuration == 0 {
        return Ok(FromU64(U64_MAX));
      }
      RollReachesSlot(State(), slot);
      var _ :- RollTo(slot);
      var outflow :- CurrentOutflow(State(), slot);
      if outflow > FromU64(config.maxOutflow) {
        return Ok(0);
      }
      r := TrySub(FromU64(config.maxOutflow), outflow);
    }

    method Record(slot: U64, qty: Decimal) returns (r: Result<()>)
      modifies this
      ensures Step(State(), r) == Update(old(State()), slot, qty)
    {
      if config.windowDuration == 0 {
        return Ok(());
      }
      RollReachesSlot(State(), slot);
      var _ :- RollTo(slot);
      var outflow :- CurrentOutflow(State(), slot);
      var total :- TryAdd(outflow, qty);
      if total > FromU64(config.maxOutflow) {
        r := Err(OutflowRateLimitExceeded);
      } else {
        match TryAdd(curQty, qty)
        case Err(e) => r := Err(e);
        case Ok(sum) =>
          curQty := sum;
          r := Ok(());
      }
    }
  }
}
