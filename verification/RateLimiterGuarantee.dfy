/** The rate limiter's documented guarantee, with the exact conditions under
    which the code meets it. A run is a construction slot and any sequence of
    queries and requests, in any slot order, none later than a horizon. */
module RateLimiterGuarantee {
  import opened FixedPoint
  import opened RateLimiter
  import opened RateLimiterRuns
  import Arith

  /** Outflow accepted in the closed interval `[s - window_duration, s]`. */
  function Outflow(config: Config, start: U64, calls: seq<Call>, s: nat): nat {
    Total(Run(config, start, calls).log, s - config.windowDuration, s)
  }

  /** Outflow accepted in the last `window_duration` slots up to `s`. */
  function RecentOutflow(config: Config, start: U64, calls: seq<Call>, s: nat): nat {
    Total(Run(config, start, calls).log, s - config.windowDuration + 1, s)
  }

  ghost predicate NeverOverTwice(config: Config, horizon: U64) {
    forall start: U64, calls: seq<Call>, s: nat ::
      start <= horizon && UpTo(calls, horizon) ==> Outflow(config, start, calls, s) <= 2 * (config.maxOutflow * WAD)
  }

  /** The guarantee as it is documented. */
  ghost predicate AsDocumented(config: Config, horizon: U64) {
    forall start: U64, calls: seq<Call>, s: nat ::
      start <= horizon && UpTo(calls, horizon) ==> Outflow(config, start, calls, s) < 2 * (config.maxOutflow * WAD)
  }

  ghost predicate AlwaysUnderTwice(config: Config, horizon: U64) {
    forall start: U64, calls: seq<Call>, s: nat ::
      start <= horizon && UpTo(calls, horizon) ==> RecentOutflow(config, start, calls, s) < 2 * (config.maxOutflow * WAD)
  }

  // ---- the sliding window bound ----

  lemma BoundedByTwo(h: History, s: nat)
    requires Inv(h)
    ensures var c := h.limiter.config; Total(h.log, s - c.windowDuration, s) <= 2 * (c.maxOutflow * WAD)
  {
    hide WindowStart;
    var log, config, d: int := h.log, h.limiter.config, h.limiter.config.windowDuration;
    var at: int := WindowStart(d, s);
    TotalSplit(log, s - d, at - 1, s);
    TotalWithin(log, s - d, at - 1, at - d, at - 1);
    PreviousTotalBounded(log, config, s);
    WindowTotalBounded(log, config, s);
  }

  lemma {:induction false} NothingAccepted(config: Config, start: U64, calls: seq<Call>)
    requires config.windowDuration > 0 && config.maxOutflow == 0
    ensures Run(config, start, calls).limiter.config == config
    ensures forall e :: e in Run(config, start, calls).log ==> e.qty == 0
  {
    if calls != [] {
      NothingAccepted(config, start, calls[..|calls| - 1]);
    }
  }

  lemma {:induction false} TotalOfNothing(log: seq<Entry>, lo: int, hi: int)
    requires forall e :: e in log ==> e.qty == 0
    ensures Total(log, lo, hi) == 0
  {
    if log != [] {
      TotalOfNothing(log[..|log| - 1], lo, hi);
    }
  }

  /** A request for the whole limit is accepted in an empty window when the
      previous window is empty or has lost all weight. */
  lemma FullRequestAccepted(l: Limiter, slot: U64, rolled: Limiter)
    requires l.config.windowDuration > 0 && Roll(l, slot) == Step(rolled, Ok(()))
    requires rolled.windowStart == WindowStart(rolled.config.windowDuration, slot)
    requires rolled.curQty == 0 && rolled.prevQty <= U64_MAX * WAD
    requires rolled.prevQty == 0 || Weight(rolled.config.windowDuration, slot) == 0
    ensures var step := Update(l, slot, FromU64(rolled.config.maxOutflow));
      step.result.Ok? && step.next == rolled.(curQty := FromU64(rolled.config.maxOutflow))
  {
    hide WindowStart, Weight, Floor, Roll, Update, Remaining;
    RequestAccepted(l, slot, FromU64(rolled.config.maxOutflow), rolled);
    FloorOfMultiple(0, WAD);
    assert Weight(rolled.config.windowDuration, slot) * rolled.prevQty == 0 * WAD;
  }

  /** Once the end of the window wraps around, every call starts a fresh window. */
  lemma WrappedAcceptsAgain(l: Limiter, slot: U64)
    requires l.config.windowDuration > 0 && !NoWrap(l.config.windowDuration, slot)
    requires l.windowStart == WindowStart(l.config.windowDuration, slot)
    ensures var step := Update(l, slot, FromU64(l.config.maxOutflow));
      step.result.Ok? && step.next == Limiter(l.config, 0, l.windowStart, FromU64(l.config.maxOutflow))
  {
    hide WindowStart, Weight, Floor, Update;
    assert (l.windowStart + l.config.windowDuration) % U64_LIMIT == l.windowStart + l.config.windowDuration - U64_LIMIT;
    FullRequestAccepted(l, slot, Limiter(l.config, 0, l.windowStart, 0));
  }

  lemma RunStep(config: Config, start: U64, calls: seq<Call>, call: Call)
    ensures Run(config, start, calls + [call]) == Apply(Run(config, start, calls), call)
  {
    assert (calls + [call])[..|calls|] == calls;
  }

  ghost predicate StuckAt(h: History, config: Config, slot: U64)
    requires config.windowDuration > 0
  {
    h.limiter.config == config && h.limiter.windowStart == WindowStart(config.windowDuration, slot)
  }

  lemma WrappedStep(config: Config, slot: U64, calls: seq<Call>)
    requires config.windowDuration > 0 && !NoWrap(config.windowDuration, slot)
    requires StuckAt(Run(config, slot, calls), config, slot)
    ensures var q := FromU64(config.maxOutflow);
      var calls' := calls + [Request(slot, q)];
      && StuckAt(Run(config, slot, calls'), config, slot)
      && Outflow(config, slot, calls', slot) == Outflow(config, slot, calls, slot) + q
  {
    hide WindowStart, Update, Run, Total;
    var h, q := Run(config, slot, calls), FromU64(config.maxOutflow);
    WrappedAcceptsAgain(h.limiter, slot);
    AcceptedStep(config, slot, calls, slot, q);
    TotalAppend(h.log, Entry(slot, q), slot - config.windowDuration, slot);
  }

  lemma NoCalls(config: Config, slot: U64)
    requires config.windowDuration > 0
    ensures UpTo([], slot) && StuckAt(Run(config, slot, []), config, slot) && Outflow(config, slot, [], slot) == 0
  {
    hide WindowStart;
  }

  /** Any number of requests for the whole limit in one slot, all accepted. */
  lemma {:induction false} WrappedRun(config: Config, slot: U64, n: nat) returns (calls: seq<Call>)
    requires config.windowDuration > 0 && !NoWrap(config.windowDuration, slot)
    ensures UpTo(calls, slot) && StuckAt(Run(config, slot, calls), config, slot)
    ensures Outflow(config, slot, calls, slot) == n * FromU64(config.maxOutflow)
  {
    if n == 0 {
      calls := [];
      NoCalls(config, slot);
    } else {
      var before := WrappedRun(config, slot, n - 1);
      calls := WrappedOnce(config, slot, before);
      hide *;
      NextMultiple(n, FromU64(config.maxOutflow));
    }
  }

  lemma NextMultiple(n: nat, q: nat)
    requires n > 0
    ensures n * q == (n - 1) * q + q
  {
  }

  lemma WrappedOnce(config: Config, slot: U64, before: seq<Call>) returns (calls: seq<Call>)
    requires config.windowDuration > 0 && !NoWrap(config.windowDuration, slot)
    requires UpTo(before, slot) && StuckAt(Run(config, slot, before), config, slot)
    ensures UpTo(calls, slot) && StuckAt(Run(config, slot, calls), config, slot)
    ensures Outflow(config, slot, calls, slot) == Outflow(config, slot, before, slot) + FromU64(config.maxOutflow)
  {
    hide StuckAt, Outflow, NoWrap, Run;
    WrappedStep(config, slot, before);
    calls := before + [Request(slot, FromU64(config.maxOutflow))];
  }

  /** The guarantee, as "at most": over every run up to a horizon, no interval
      `[s - window_duration, s]` lets out more than twice `max_outflow`, if and
      only if the window of the horizon ends inside 64 bits (or the limit is
      zero). */
  lemma SlidingWindowBound(config: Config, horizon: U64)
    requires config.windowDuration > 0
    ensures NeverOverTwice(config, horizon) <==> config.maxOutflow == 0 || NoWrap(config.windowDuration, horizon)
  {
    hide Run, Total, WindowStart;
    if config.maxOutflow == 0 || NoWrap(config.windowDuration, horizon) {
      forall start: U64, calls: seq<Call>, s: nat | start <= horizon && UpTo(calls, horizon)
        ensures Outflow(config, start, calls, s) <= 2 * (config.maxOutflow * WAD)
      {
        if config.maxOutflow == 0 {
          NothingAccepted(config, start, calls);
          TotalOfNothing(Run(config, start, calls).log, s - config.windowDuration, s);
        } else {
          RunHolds(config, start, calls, horizon);
          BoundedByTwo(Run(config, start, calls), s);
        }
      }
    } else {
      var calls := WrappedRun(config, horizon, 3);
      assert Outflow(config, horizon, calls, horizon) > 2 * (config.maxOutflow * WAD);
    }
  }

  // ---- the bound is reached ----

  lemma AcceptedStep(config: Config, start: U64, calls: seq<Call>, slot: U64, qty: Decimal)
    requires Update(Run(config, start, calls).limiter, slot, qty).result.Ok?
    ensures var h := Run(config, start, calls);
      Run(config, start, calls + [Request(slot, qty)])
      == History(Update(h.limiter, slot, qty).next, h.log + [Entry(slot, qty)])
  {
    hide Run, Update;
    RunStep(config, start, calls, Request(slot, qty));
  }

  lemma FirstWindowFull(config: Config)
    requires config.windowDuration > 0
    ensures var first: nat, q := config.windowDuration - 1, FromU64(config.maxOutflow);
      Run(config, first, [] + [Request(first, q)]) == History(Limiter(config, 0, 0, q), [] + [Entry(first, q)])
  {
    var first: U64, q := config.windowDuration - 1, FromU64(config.maxOutflow);
    SameWindow(config.windowDuration, 0, first);
    hide WindowStart, Weight, Floor, Update, Run;
    NewRun(config, first);
    FullRequestAccepted(Limiter(config, 0, 0, 0), first, Limiter(config, 0, 0, 0));
    AcceptedStep(config, first, [], first, q);
  }

  /** The slot's window starts at `window_duration`, the one after the first. */
  lemma SecondWindowFull(config: Config, s: U64)
    requires config.windowDuration > 0 && config.windowDuration <= s < 2 * config.windowDuration
    requires Weight(config.windowDuration, s) == 0
    ensures Update(Limiter(config, 0, 0, FromU64(config.maxOutflow)), s, FromU64(config.maxOutflow)).result.Ok?
  {
    var d: U64, q := config.windowDuration, FromU64(config.maxOutflow);
    SameWindow(d, 1, s);
    hide WindowStart, Weight, Floor, Update;
    SmallMod(0 + d);
    FullRequestAccepted(Limiter(config, 0, 0, q), s, Limiter(config, q, d, 0));
  }

  /** A full request at the end of one window, and another at a slot of the next
      window where the first has lost all weight. */
  lemma TwoFullWindows(config: Config, first: U64, s: U64, q: Decimal)
    requires first == config.windowDuration - 1 && q == FromU64(config.maxOutflow)
    requires config.windowDuration > 0 && config.windowDuration <= s < 2 * config.windowDuration
    requires Weight(config.windowDuration, s) == 0
    ensures Run(config, first, [] + [Request(first, q)] + [Request(s, q)]).log
         == [] + [Entry(first, q)] + [Entry(s, q)]
  {
    hide *;
    FirstWindowFull(config);
    SecondWindowFull(config, s);
    AcceptedStep(config, first, [] + [Request(first, q)], s, q);
  }

  lemma NewRun(config: Config, start: U64)
    ensures Run(config, start, []) == History(New(config, start), [])
  {
  }

  lemma TwoEntries(a: Entry, b: Entry, lo: int, hi: int)
    requires lo <= a.slot <= hi && lo <= b.slot <= hi
    ensures Total([] + [a] + [b], lo, hi) == a.qty + b.qty
  {
    TotalAppend([], a, lo, hi);
    TotalAppend([] + [a], b, lo, hi);
  }

  lemma LastSlotIsDead(d: nat)
    requires d > 0
    ensures Weight(d, 2 * d - 1) == 0
  {
    SameWindow(d, 1, 2 * d - 1);
    hide WindowStart, Floor;
    FloorOfMultiple(0, d);
  }

  /** The documented "less than" is one too strong as soon as the last slot of the
      second window is reached: the closed interval has `window_duration + 1` slots
      and lets out exactly twice `max_outflow`. */
  lemma TwiceIsReached(config: Config)
    requires config.windowDuration > 0 && 2 * config.windowDuration - 1 < U64_LIMIT
    ensures var d: nat, q := config.windowDuration, FromU64(config.maxOutflow);
      Outflow(config, d - 1, [] + [Request(d - 1, q)] + [Request(2 * d - 1, q)], 2 * d - 1) == 2 * (config.maxOutflow * WAD)
  {
    var d: nat, q := config.windowDuration, FromU64(config.maxOutflow);
    hide WindowStart, Weight, Run, Total;
    LastSlotIsDead(d);
    TwoFullWindows(config, d - 1, 2 * d - 1, q);
    TwoEntries(Entry(d - 1, q), Entry(2 * d - 1, q), d - 1, 2 * d - 1);
  }

  // ---- half-open intervals ----

  /** At every slot up to the horizon that is not the last of its window, the
      previous window still has weight. The weight is truncated to 18 decimals,
      so it dies early in windows longer than 10^18 slots. */
  predicate WeightLasts(d: nat, horizon: nat)
    requires d > 0
  {
    horizon < d ||
    var age: int := if horizon - d <= d - 2 then horizon - d else d - 2;
    (d - 1 - age) * WAD >= d
  }

  lemma WeightAlive(d: nat, s: nat, horizon: nat)
    requires d > 0 && WeightLasts(d, horizon)
    requires d <= WindowStart(d, s) && s <= horizon && s < WindowStart(d, s) + d - 1
    ensures Weight(d, s) >= 1
  {
    hide WindowStart, Floor;
    var age: nat := s - WindowStart(d, s);
    var oldest: int := if horizon - d <= d - 2 then horizon - d else d - 2;
    Arith.MulMono(d - 1 - oldest, d - 1 - age, WAD);
    FloorOrdered(1 * d, (d - (age + 1)) * WAD, d);
    FloorOfMultiple(1, d);
  }

  /** A live weight charges at least one raw unit for a full previous window. */
  lemma FullWindowIsCharged(w: nat, prev: nat, max: nat)
    requires w >= 1 && max >= 1 && prev == max * WAD
    ensures Floor(w * prev, WAD) >= 1
  {
    hide Floor;
    Arith.MulMono(1, w * max, WAD);
    assert w * prev == (w * max) * WAD;
    FloorOfMultiple(w * max, WAD);
  }

  /** The bound holds even over the closed interval, at a slot that is not the last
      of its window. */
  lemma ClosedUnderTwice(h: History, horizon: U64, s: nat)
    requires Inv(h) && h.limiter.config.maxOutflow >= 1
    requires WeightLasts(h.limiter.config.windowDuration, horizon) && forall e :: e in h.log ==> e.slot <= horizon
    requires var d := h.limiter.config.windowDuration; WindowStart(d, s) == 0 || s < WindowStart(d, s) + d - 1
    ensures var c := h.limiter.config; Total(h.log, s - c.windowDuration, s) < 2 * (c.maxOutflow * WAD)
  {
    var log, config, d: int := h.log, h.limiter.config, h.limiter.config.windowDuration;
    hide WindowStart, Weight, Floor, WeightLasts;
    var at: int := WindowStart(d, s);
    var upTo, prev := Total(log, at, s), Total(log, at - d, at - 1);
    TotalSplit(log, s - d, at - 1, s);
    TotalWithin(log, s - d, at - 1, at - d, at - 1);
    PreviousTotalBounded(log, config, s);
    WindowTotalBounded(log, config, s);
    if at == 0 {
      TotalOutside(log, at - d, at - 1);
    } else if upTo > 0 && prev == config.maxOutflow * WAD {
      AfterFullWindow(log, config, horizon, s);
    }
  }

  lemma UnderTwice(h: History, horizon: U64, s: nat)
    requires Inv(h) && h.limiter.config.maxOutflow >= 1
    requires WeightLasts(h.limiter.config.windowDuration, horizon) && forall e :: e in h.log ==> e.slot <= horizon
    ensures var c := h.limiter.config; Total(h.log, s - c.windowDuration + 1, s) < 2 * (c.maxOutflow * WAD)
  {
    var log, config, d: int := h.log, h.limiter.config, h.limiter.config.windowDuration;
    hide WindowStart, Weight, Floor, WeightLasts, Total;
    if s < WindowStart(d, s) + d - 1 {
      ClosedUnderTwice(h, horizon, s);
      TotalWithin(log, s - d + 1, s, s - d, s);
    } else {
      WindowTotalBounded(log, config, s);
    }
  }

  /** After a window used in full, the next one has less than a full window left
      at every slot but its last. */
  lemma AfterFullWindow(log: seq<Entry>, config: Config, horizon: U64, s: nat)
    requires config.windowDuration > 0 && config.maxOutflow >= 1 && AllAdmissible(log, config)
    requires WeightLasts(config.windowDuration, horizon) && forall e :: e in log ==> e.slot <= horizon
    requires var d: int := config.windowDuration; var at: int := WindowStart(d, s);
      && 0 < at && s < at + d - 1 && Total(log, at, s) > 0
      && Total(log, at - d, at - 1) == config.maxOutflow * WAD
    ensures Total(log, WindowStart(config.windowDuration, s), s) < config.maxOutflow * WAD
  {
    hide WindowStart, Weight, Floor, WeightLasts, AllAdmissible;
    var d: int := config.windowDuration;
    var at: int := WindowStart(d, s);
    LateSlots(log, at, s, horizon);
    var s' := if s <= horizon then s else horizon;
    SameWindowInside(d, s, s');
    WindowStartFixed(d, s);
    WeightAlive(d, s', horizon);
    FullWindowIsCharged(Weight(d, s'), Total(log, at - d, at - 1), config.maxOutflow);
    ChargedAtLeast(log, config, s');
  }

  lemma ChargedAtLeast(log: seq<Entry>, config: Config, s: nat)
    requires config.windowDuration > 0 && AllAdmissible(log, config)
    requires Total(log, WindowStart(config.windowDuration, s), s) > 0
    ensures var d := config.windowDuration; var at: int := WindowStart(d, s);
      Total(log, at, s) + Floor(Weight(d, s) * Total(log, at - d, at - 1), WAD) <= config.maxOutflow * WAD
  {
    hide WindowStart, Weight, Floor;
    assert Charged(log, config, s) <= config.maxOutflow * WAD;
  }

  /** No entry is later than the horizon, so later slots add nothing. */
  lemma LateSlots(log: seq<Entry>, lo: int, s: nat, horizon: nat)
    requires (forall e :: e in log ==> e.slot <= horizon) && lo <= s && Total(log, lo, s) > 0
    ensures lo <= horizon && Total(log, lo, if s <= horizon then s else horizon) == Total(log, lo, s)
  {
    if horizon < lo {
      TotalOutside(log, lo, s);
    } else if horizon < s {
      TotalSplit(log, lo, horizon, s);
      TotalOutside(log, horizon + 1, s);
    }
  }

  lemma SameWindowInside(d: nat, s: nat, s': nat)
    requires d > 0 && WindowStart(d, s) <= s' <= s
    ensures WindowStart(d, s') == WindowStart(d, s)
  {
    WindowsApart(d, s', s);
  }

  lemma DeadWeight(d: nat, horizon: nat) returns (s: nat)
    requires d > 0 && !WeightLasts(d, horizon)
    ensures d <= s <= horizon && s <= 2 * d - 2 && Weight(d, s) == 0
  {
    var age: int := if horizon - d <= d - 2 then horizon - d else d - 2;
    s := d + age;
    SameWindow(d, 1, s);
    hide WindowStart, Floor;
    FloorOfMultiple(0, d);
    assert IsFloor(Weight(d, s), (d - 1 - age) * WAD, d);
    if Weight(d, s) > 0 {
      Arith.MulMono(1, Weight(d, s), d);
    }
  }

  /** Over the last `window_duration` slots alone the outflow stays strictly
      under twice `max_outflow`, if and only if something may flow at all and
      the truncated weight of the previous window lasts. */
  lemma RecentOutflowBound(config: Config, horizon: U64)
    requires config.windowDuration > 0 && NoWrap(config.windowDuration, horizon)
    ensures AlwaysUnderTwice(config, horizon)
       <==> config.maxOutflow >= 1 && WeightLasts(config.windowDuration, horizon)
  {
    hide Run, Total, WindowStart, Weight;
    var d, q := config.windowDuration, FromU64(config.maxOutflow);
    if config.maxOutflow == 0 {
      assert UpTo([], horizon);
      assert !(RecentOutflow(config, 0, [], 0) < 2 * (config.maxOutflow * WAD));
    } else if WeightLasts(d, horizon) {
      forall start: U64, calls: seq<Call>, s: nat | start <= horizon && UpTo(calls, horizon)
        ensures RecentOutflow(config, start, calls, s) < 2 * (config.maxOutflow * WAD)
      {
        RunHolds(config, start, calls, horizon);
        UnderTwice(Run(config, start, calls), horizon, s);
      }
    } else {
      var s := DeadWeight(d, horizon);
      TwoFullWindows(config, d - 1, s, q);
      TwoEntries(Entry(d - 1, q), Entry(s, q), s - d + 1, s);
      var calls := [] + [Request(d - 1, q)] + [Request(s, q)];
      assert UpTo(calls, horizon);
      assert RecentOutflow(config, d - 1, calls, s) == 2 * (config.maxOutflow * WAD);
    }
  }

  // ---- the guarantee as documented ----

  /** A horizon inside the first two windows, short of the last slot. */
  lemma ShortHorizon(h: History, horizon: U64, s: nat)
    requires Inv(h) && h.limiter.config.maxOutflow >= 1 && horizon < 2 * h.limiter.config.windowDuration - 1
    requires WeightLasts(h.limiter.config.windowDuration, horizon) && forall e :: e in h.log ==> e.slot <= horizon
    ensures var c := h.limiter.config; Total(h.log, s - c.windowDuration, s) < 2 * (c.maxOutflow * WAD)
  {
    var d: int, log := h.limiter.config.windowDuration, h.log;
    var s' := if s <= horizon then s else horizon;
    SameWindow(d, if s' < d then 0 else 1, s');
    hide WindowStart, Weight, Floor, WeightLasts, Total;
    ClosedUnderTwice(h, horizon, s');
    if s > horizon {
      if s - d <= horizon + 1 {
        TotalSplit(log, s - d, horizon, s);
        TotalOutside(log, horizon + 1, s);
        TotalWithin(log, s - d, horizon, horizon - d, horizon);
      } else {
        TotalOutside(log, s - d, s);
      }
    }
  }

  /** The guarantee as documented, strict and over the closed interval, holds over
      every run up to a horizon if and only if something may flow at all, the
      horizon's window ends inside 64 bits, the horizon is short of the last slot
      of the second window, and the weight of the first window lasts. */
  lemma DocumentedBound(config: Config, horizon: U64)
    requires config.windowDuration > 0
    ensures AsDocumented(config, horizon)
       <==> && config.maxOutflow >= 1 && NoWrap(config.windowDuration, horizon)
            && horizon < 2 * config.windowDuration - 1 && WeightLasts(config.windowDuration, horizon)
  {
    hide Run, Total, WindowStart, Weight, WeightLasts, NoWrap;
    var d: nat, q := config.windowDuration, FromU64(config.maxOutflow);
    if config.maxOutflow == 0 {
      assert UpTo([], horizon) && !(Outflow(config, 0, [], 0) < 2 * (config.maxOutflow * WAD));
    } else if !NoWrap(d, horizon) {
      var calls := WrappedRun(config, horizon, 3);
      assert !(Outflow(config, horizon, calls, horizon) < 2 * (config.maxOutflow * WAD));
    } else if horizon >= 2 * d - 1 {
      TwiceIsReached(config);
      var calls := [] + [Request(d - 1, q)] + [Request(2 * d - 1, q)];
      assert UpTo(calls, horizon) && !(Outflow(config, d - 1, calls, 2 * d - 1) < 2 * (config.maxOutflow * WAD));
    } else if !WeightLasts(d, horizon) {
      var s := DeadWeight(d, horizon);
      TwoFullWindows(config, d - 1, s, q);
      TwoEntries(Entry(d - 1, q), Entry(s, q), s - d, s);
      var calls := [] + [Request(d - 1, q)] + [Request(s, q)];
      assert UpTo(calls, horizon) && !(Outflow(config, d - 1, calls, s) < 2 * (config.maxOutflow * WAD));
    } else {
      forall start: U64, calls: seq<Call>, s: nat | start <= horizon && UpTo(calls, horizon)
        ensures Outflow(config, start, calls, s) < 2 * (config.maxOutflow * WAD)
      {
        RunHolds(config, start, calls, horizon);
        ShortHorizon(Run(config, start, calls), horizon, s);
      }
    }
  }

  /** A window of at most 10^18 slots never loses its weight early, whatever
      the horizon. */
  lemma PracticalWindows(d: nat, horizon: nat)
    requires 0 < d <= WAD
    ensures WeightLasts(d, horizon)
  {
    var age: int := if horizon - d <= d - 2 then horizon - d else d - 2;
    Arith.MulMono(1, d - 1 - age, WAD);
  }

  // ---- requests against the remaining quantity ----

  /** In every reachable state, the remaining outflow can be computed at every
      slot that is not in the past, and a positive request succeeds exactly when
      it is no larger. */
  lemma AcceptedIffRemaining(config: Config, start: U64, calls: seq<Call>, slot: U64, qty: Decimal, horizon: U64)
    requires config.windowDuration > 0 && NoWrap(config.windowDuration, horizon)
    requires start <= horizon && UpTo(calls, horizon) && slot <= horizon && qty > 0
    ensures var l := Run(config, start, calls).limiter;
      && (Remaining(l, slot).result.Ok? <==> l.windowStart <= slot)
      && (Update(l, slot, qty).result.Ok?
          <==> Remaining(l, slot).result.Ok? && qty <= Remaining(l, slot).result.value)
  {
    RunHolds(config, start, calls, horizon);
    var h := Run(config, start, calls);
    NoWrapBefore(config.windowDuration, slot, horizon);
    hide Run, WindowStart, Weight, Floor, CurrentOutflow;
    RollHolds(h, slot);
    if h.limiter.windowStart <= slot {
      var rolled := h.(limiter := Roll(h.limiter, slot).next);
      BoundedFields(rolled);
      hide Inv;
      RequestAccepted(h.limiter, slot, qty, rolled.limiter);
    }
  }

  /** With no request in between, the remaining outflow never shrinks inside a
      window. */
  lemma RemainingGrows(config: Config, start: U64, calls: seq<Call>, slot: U64, later: U64, horizon: U64)
    requires config.windowDuration > 0 && NoWrap(config.windowDuration, horizon)
    requires start <= horizon && UpTo(calls, horizon) && slot <= later <= horizon
    requires WindowStart(config.windowDuration, slot) == WindowStart(config.windowDuration, later)
    requires Run(config, start, calls).limiter.windowStart <= slot
    ensures var now := Remaining(Run(config, start, calls).limiter, slot);
      var then' := Remaining(now.next, later);
      now.result.Ok? && then'.result.Ok? && now.result.value <= then'.result.value
  {
    RunHolds(config, start, calls, horizon);
    NoWrapBefore(config.windowDuration, slot, horizon);
    NoWrapBefore(config.windowDuration, later, horizon);
    hide Run, WindowStart, Remaining, Inv;
    RemainingGrowsFrom(Run(config, start, calls), slot, later);
  }

  lemma OutflowShrinks(l: Limiter, slot: U64, later: U64)
    requires l.config.windowDuration > 0 && slot <= later
    requires WindowStart(l.config.windowDuration, slot) == l.windowStart == WindowStart(l.config.windowDuration, later)
    requires l.prevQty <= U64_MAX * WAD && l.curQty <= U64_MAX * WAD
    ensures CurrentOutflow(l, slot).Ok? && CurrentOutflow(l, later).Ok?
    ensures CurrentOutflow(l, later).value <= CurrentOutflow(l, slot).value
  {
    hide WindowStart, Weight, Floor, CurrentOutflow;
    OutflowIs(l, slot);
    OutflowIs(l, later);
    WeightBounds(l.config.windowDuration, slot, later);
    FloorMonotone(Weight(l.config.windowDuration, later), Weight(l.config.windowDuration, slot), l.prevQty);
  }

  lemma RemainingGrowsFrom(h: History, slot: U64, later: U64)
    requires Inv(h) && h.limiter.windowStart <= slot <= later
    requires NoWrap(h.limiter.config.windowDuration, slot) && NoWrap(h.limiter.config.windowDuration, later)
    requires WindowStart(h.limiter.config.windowDuration, slot) == WindowStart(h.limiter.config.windowDuration, later)
    ensures var now := Remaining(h.limiter, slot);
      var then' := Remaining(now.next, later);
      now.result.Ok? && then'.result.Ok? && now.result.value <= then'.result.value
  {
    hide Inv, WindowStart, CurrentOutflow, Roll, NoWrap;
    RollHolds(h, slot);
    var rolled := h.(limiter := Roll(h.limiter, slot).next);
    InvOf(h);
    InvOf(rolled);
    BoundedFields(rolled);
    RollReachesSlot(h.limiter, slot);
    OutflowShrinks(rolled.limiter, slot, later);
    RollStays(rolled.limiter, later);
  }

  lemma InvOf(h: History)
    requires Inv(h)
    ensures h.limiter.config.windowDuration > 0
  {
  }

  lemma RollStays(l: Limiter, slot: U64)
    requires l.config.windowDuration > 0 && NoWrap(l.config.windowDuration, slot)
    requires l.windowStart == WindowStart(l.config.windowDuration, slot)
    ensures Roll(l, slot) == Step(l, Ok(()))
  {
    WindowStartFixed(l.config.windowDuration, slot);
    hide WindowStart;
    RollValue(l, slot);
  }
}
