/** What the rate limiter guarantees over whole runs: how much outflow it can
    accept inside any sliding interval of slots. */
module RateLimiterRuns {
  import opened FixedPoint
  import opened RateLimiter
  import Arith

  datatype Call = Query(slot: U64) | Request(slot: U64, qty: Decimal)

  /** An accepted outflow. */
  datatype Entry = Entry(slot: U64, qty: Decimal)

  datatype History = History(limiter: Limiter, log: seq<Entry>)

  function Apply(h: History, call: Call): History {
    match call
    case Query(slot) => h.(limiter := Remaining(h.limiter, slot).next)
    case Request(slot, qty) =>
      var step := Update(h.limiter, slot, qty);
      History(step.next, if step.result.Ok? then h.log + [Entry(slot, qty)] else h.log)
  }

  /** The limiter after `calls`, with every outflow it accepted. */
  function Run(config: Config, slot: U64, calls: seq<Call>): History {
    if calls == [] then History(New(config, slot), [])
    else Apply(Run(config, slot, calls[..|calls| - 1]), calls[|calls| - 1])
  }

  /** Accepted quantity in slots `lo..hi`, both included. */
  function Total(log: seq<Entry>, lo: int, hi: int): nat {
    if log == [] then 0 else
    var e := log[|log| - 1];
    Total(log[..|log| - 1], lo, hi) + if lo <= e.slot <= hi then e.qty else 0
  }

  lemma {:induction false} TotalSplit(log: seq<Entry>, lo: int, mid: int, hi: int)
    requires lo <= mid + 1 <= hi + 1
    ensures Total(log, lo, hi) == Total(log, lo, mid) + Total(log, mid + 1, hi)
  {
    if log != [] {
      TotalSplit(log[..|log| - 1], lo, mid, hi);
    }
  }

  lemma {:induction false} TotalOutside(log: seq<Entry>, lo: int, hi: int)
    requires forall e :: e in log ==> !(lo <= e.slot <= hi)
    ensures Total(log, lo, hi) == 0
  {
    if log != [] {
      TotalOutside(log[..|log| - 1], lo, hi);
    }
  }

  lemma {:induction false} TotalWithin(log: seq<Entry>, lo: int, hi: int, lo': int, hi': int)
    requires lo' <= lo && hi <= hi'
    ensures Total(log, lo, hi) <= Total(log, lo', hi')
  {
    if log != [] {
      TotalWithin(log[..|log| - 1], lo, hi, lo', hi');
    }
  }

  lemma TotalAppend(log: seq<Entry>, e: Entry, lo: int, hi: int)
    ensures Total(log + [e], lo, hi) == Total(log, lo, hi) + if lo <= e.slot <= hi then e.qty else 0
  {
    assert (log + [e])[..|log|] == log;
  }

  // ---- aligned windows ----

  lemma SameWindow(d: nat, k: nat, slot: nat)
    requires d > 0 && k * d <= slot < k * d + d
    ensures WindowStart(d, slot) == k * d
  {
    Arith.DivMod(slot, d);
    if slot / d < k {
      Arith.MulMono(slot / d + 1, k, d);
    } else if slot / d > k {
      Arith.MulMono(k + 1, slot / d, d);
    }
  }

  /** Windows do not overlap: an earlier slot is in the same window or in one
      that ends before this one starts. */
  lemma WindowsApart(d: nat, s: nat, t: nat)
    requires d > 0 && s <= t
    ensures WindowStart(d, s) == WindowStart(d, t) || WindowStart(d, s) + d <= WindowStart(d, t)
  {
    Arith.DivMod(s, d);
    Arith.DivMod(t, d);
    MultiplesApart(d, s / d, t / d, s, t);
  }

  lemma MultiplesApart(d: nat, j: int, k: int, s: nat, t: nat)
    requires j * d <= s < j * d + d && k * d <= t < k * d + d && s <= t
    ensures j == k || j * d + d <= k * d
  {
    if k < j {
      Arith.MulMono(k + 1, j, d);
    } else if j < k {
      Arith.MulMono(j + 1, k, d);
    }
  }

  lemma WindowStartFixed(d: nat, slot: nat)
    requires d > 0
    ensures WindowStart(d, WindowStart(d, slot)) == WindowStart(d, slot)
    ensures WindowStart(d, slot) > 0 ==> WindowStart(d, slot) >= d
    ensures WindowStart(d, slot) > 0 ==> WindowStart(d, WindowStart(d, slot) - 1) == WindowStart(d, slot) - d
  {
    Arith.DivMod(slot, d);
    var k := slot / d;
    SameWindow(d, k, k * d);
    if k > 0 {
      Arith.MulMono(1, k, d);
      SameWindow(d, k - 1, k * d - 1);
    }
  }

  /** Weight of the previous window at `slot`, as `current_outflow` truncates it. */
  function Weight(d: nat, slot: nat): (w: nat)
    requires d > 0
  {
    Floor((d - (slot - WindowStart(d, slot) + 1)) * WAD, d)
  }

  lemma ShareBounds(d: nat, a: int, b: int)
    requires 0 <= b <= a <= d && d > 0
    ensures Floor(b * WAD, d) <= Floor(a * WAD, d) <= WAD
  {
    hide Floor;
    Arith.MulMono(b, a, WAD);
    Arith.MulMono(a, d, WAD);
    FloorOrdered(b * WAD, a * WAD, d);
    FloorOrdered(a * WAD, WAD * d, d);
    FloorOfMultiple(WAD, d);
  }

  lemma WeightBounds(d: nat, s: nat, t: nat)
    requires d > 0 && s <= t && WindowStart(d, s) == WindowStart(d, t)
    ensures Weight(d, t) <= Weight(d, s) <= WAD
  {
    hide WindowStart, Floor;
    var start := WindowStart(d, s);
    ShareBounds(d, d - (s - start + 1), d - (t - start + 1));
  }

  // ---- the invariant ----

  /** Slots whose window end still fits in 64 bits. */
  predicate NoWrap(d: nat, slot: nat)
    requires d > 0
  {
    WindowStart(d, slot) + d < U64_LIMIT
  }

  /** What the limiter's own admission test reads at `s`, when it counts the
      outflow accepted in `s`'s window only up to `s`. */
  ghost function Charged(log: seq<Entry>, config: Config, s: nat): nat
    requires config.windowDuration > 0
  {
    var d, start := config.windowDuration, WindowStart(config.windowDuration, s);
    var upTo := Total(log, start, s);
    if upTo == 0 then 0 else upTo + Floor(Weight(d, s) * Total(log, start - d, start - 1), WAD)
  }

  ghost predicate AllAdmissible(log: seq<Entry>, config: Config)
    requires config.windowDuration > 0
  {
    forall s: nat :: Charged(log, config, s) <= config.maxOutflow * WAD
  }

  ghost predicate Aligned(h: History) {
    var l, d := h.limiter, h.limiter.config.windowDuration;
    d > 0 && WindowStart(d, l.windowStart) == l.windowStart
  }

  ghost predicate Inv(h: History) {
    var l, d := h.limiter, h.limiter.config.windowDuration;
    && Aligned(h)
    && (forall e :: e in h.log ==> e.slot < l.windowStart + d)
    && l.prevQty == Total(h.log, l.windowStart - d, l.windowStart - 1)
    && l.curQty == Total(h.log, l.windowStart, l.windowStart + d - 1)
    && AllAdmissible(h.log, l.config)
  }

  lemma WindowTotalBounded(log: seq<Entry>, config: Config, s: nat)
    requires config.windowDuration > 0 && AllAdmissible(log, config)
    ensures Total(log, WindowStart(config.windowDuration, s), s) <= config.maxOutflow * WAD
    ensures Total(log, WindowStart(config.windowDuration, s), WindowStart(config.windowDuration, s) + config.windowDuration - 1)
         <= config.maxOutflow * WAD
  {
    var d, start := config.windowDuration, WindowStart(config.windowDuration, s);
    assert Charged(log, config, s) <= config.maxOutflow * WAD;
    var last := start + d - 1;
    Arith.DivMod(s, d);
    SameWindow(d, s / d, last);
    assert Charged(log, config, last) <= config.maxOutflow * WAD;
  }

  lemma PreviousTotalBounded(log: seq<Entry>, config: Config, s: nat)
    requires config.windowDuration > 0 && AllAdmissible(log, config)
    ensures var start := WindowStart(config.windowDuration, s);
      Total(log, start - config.windowDuration, start - 1) <= config.maxOutflow * WAD
  {
    var d := config.windowDuration;
    var start: int := WindowStart(d, s);
    WindowStartFixed(d, s);
    if start > 0 {
      WindowTotalBounded(log, config, start - 1);
    } else {
      TotalOutside(log, start - d, start - 1);
    }
  }

  lemma NewHolds(config: Config, slot: U64)
    requires config.windowDuration > 0
    ensures Inv(History(New(config, slot), []))
  {
    WindowStartFixed(config.windowDuration, slot);
  }

  /** Moving on to a later window `start`. */
  lemma AdvanceHolds(h: History, start: nat, h': History)
    requires Inv(h) && start >= h.limiter.windowStart + h.limiter.config.windowDuration
    requires WindowStart(h.limiter.config.windowDuration, start) == start
    requires h'.log == h.log && h'.limiter.config == h.limiter.config
    requires h'.limiter.windowStart == start && h'.limiter.curQty == 0
    requires h'.limiter.prevQty
          == if start == h.limiter.windowStart + h.limiter.config.windowDuration then h.limiter.curQty else 0
    ensures Inv(h')
  {
    hide WindowStart;
    var at: int, d: int := h.limiter.windowStart, h.limiter.config.windowDuration;
    TotalOutside(h.log, start, start + d - 1);
    if start > at + d {
      WindowsApart(d, at, start - 1);
      WindowStartFixed(d, start);
      TotalOutside(h.log, start - d, start - 1);
    }
  }

  lemma RollValue(l: Limiter, slot: U64)
    requires l.config.windowDuration > 0 && NoWrap(l.config.windowDuration, slot)
    requires WindowStart(l.config.windowDuration, l.windowStart) == l.windowStart <= slot
    ensures var d: int, start := l.config.windowDuration, WindowStart(l.config.windowDuration, slot);
      && Roll(l, slot).result == Ok(())
      && (start == l.windowStart || start >= l.windowStart + d)
      && Roll(l, slot).next
         == if start == l.windowStart then l
            else Limiter(l.config, if start == l.windowStart + d then l.curQty else 0, start, 0)
  {
    hide WindowStart;
    WindowsApart(l.config.windowDuration, l.windowStart, slot);
    SmallMod(l.windowStart + l.config.windowDuration);
  }

  lemma RollHolds(h: History, slot: U64)
    requires Inv(h) && NoWrap(h.limiter.config.windowDuration, slot)
    ensures Inv(h.(limiter := Roll(h.limiter, slot).next))
    ensures Roll(h.limiter, slot).result.Ok? <==> h.limiter.windowStart <= slot
    ensures var step := Roll(h.limiter, slot);
      step.result.Ok? ==> step.next.windowStart == WindowStart(step.next.config.windowDuration, slot)
  {
    assert Aligned(h);
    hide Inv, WindowStart;
    var l := h.limiter;
    if l.windowStart <= slot {
      RollValue(l, slot);
      hide Roll;
      WindowStartFixed(l.config.windowDuration, slot);
      if WindowStart(l.config.windowDuration, slot) == l.windowStart {
        assert h.(limiter := Roll(l, slot).next) == h;
      } else {
        AdvanceHolds(h, WindowStart(l.config.windowDuration, slot), h.(limiter := Roll(l, slot).next));
      }
    } else {
      assert h.(limiter := Roll(l, slot).next) == h;
    }
  }

  lemma WeightedFits(w: nat, qty: nat)
    requires w <= WAD && qty <= U64_MAX * WAD
    ensures w * qty < U192_LIMIT && Floor(w * qty, WAD) <= qty
  {
    Arith.MulMono(w, WAD, qty);
    Arith.CancelLe(Floor(w * qty, WAD), qty, WAD);
  }

  /** `current_outflow` in the slot's own window never fails, whatever the
      window holds up to `max_outflow` a window. */
  lemma OutflowIs(l: Limiter, slot: U64)
    requires l.config.windowDuration > 0 && l.windowStart == WindowStart(l.config.windowDuration, slot)
    requires l.prevQty <= U64_MAX * WAD && l.curQty <= U64_MAX * WAD
    ensures CurrentOutflow(l, slot)
         == Ok(Floor(Weight(l.config.windowDuration, slot) * l.prevQty, WAD) + l.curQty)
  {
    hide WindowStart, Floor;
    var d, age: nat := l.config.windowDuration, slot - l.windowStart + 1;
    WeightBounds(d, slot, slot);
    WeightedFits(Weight(d, slot), l.prevQty);
    SmallMod(age);
    assert FromU64(d) - FromU64(age) == (d - age) * WAD;
  }

  lemma SmallMod(n: nat)
    requires n < U64_LIMIT
    ensures n % U64_LIMIT == n
  {
  }

  /** The limiter admits `qty` at `slot`. */
  ghost predicate Fits(l: Limiter, slot: nat, qty: nat)
    requires l.config.windowDuration > 0
  {
    Floor(Weight(l.config.windowDuration, slot) * l.prevQty, WAD) + l.curQty + qty <= l.config.maxOutflow * WAD
  }

  lemma AcceptAdmissible(h: History, slot: U64, qty: Decimal, s: nat)
    requires Inv(h) && h.limiter.windowStart == WindowStart(h.limiter.config.windowDuration, slot)
    requires Fits(h.limiter, slot, qty)
    ensures Charged(h.log + [Entry(slot, qty)], h.limiter.config, s) <= h.limiter.config.maxOutflow * WAD
  {
    hide WindowStart, Weight;
    var l, d, e := h.limiter, h.limiter.config.windowDuration, Entry(slot, qty);
    var at: int := WindowStart(d, s);
    TotalAppend(h.log, e, at, s);
    TotalAppend(h.log, e, at - d, at - 1);
    assert Charged(h.log, l.config, s) <= l.config.maxOutflow * WAD;
    if at <= slot <= s {
      WindowsApart(d, slot, s);
      TotalWithin(h.log, at, s, at, at + d - 1);
      WeightBounds(d, slot, s);
      FloorMonotone(Weight(d, s), Weight(d, slot), l.prevQty);
    } else if at - d <= slot <= at - 1 {
      WindowsApart(d, slot, s);
      TotalOutside(h.log, at, s);
    }
  }

  lemma AcceptAllAdmissible(h: History, slot: U64, qty: Decimal)
    requires Inv(h) && h.limiter.windowStart == WindowStart(h.limiter.config.windowDuration, slot)
    requires Fits(h.limiter, slot, qty)
    ensures AllAdmissible(h.log + [Entry(slot, qty)], h.limiter.config)
  {
    forall s: nat
      ensures Charged(h.log + [Entry(slot, qty)], h.limiter.config, s) <= h.limiter.config.maxOutflow * WAD
    {
      AcceptAdmissible(h, slot, qty, s);
    }
  }

  lemma AcceptHolds(h: History, slot: U64, qty: Decimal, h': History)
    requires Inv(h) && h.limiter.windowStart == WindowStart(h.limiter.config.windowDuration, slot)
    requires h'.limiter == h.limiter.(curQty := h'.limiter.curQty) && h'.limiter.curQty == h.limiter.curQty + qty
    requires h'.log == h.log + [Entry(slot, qty)] && AllAdmissible(h'.log, h'.limiter.config)
    ensures Inv(h')
  {
    hide WindowStart;
    var start: int, d: int, e := h.limiter.windowStart, h.limiter.config.windowDuration, Entry(slot, qty);
    TotalAppend(h.log, e, start - d, start - 1);
    TotalAppend(h.log, e, start, start + d - 1);
  }

  lemma FloorMonotone(a: nat, b: nat, c: nat)
    requires a <= b
    ensures Floor(a * c, WAD) <= Floor(b * c, WAD)
  {
    Arith.MulMono(a, b, c);
    FloorOrdered(a * c, b * c, WAD);
  }

  /** A request is accepted exactly when it passes the admission test in the
      window it lands in. */
  lemma RequestAccepted(l: Limiter, slot: U64, qty: Decimal, rolled: Limiter)
    requires l.config.windowDuration > 0 && Roll(l, slot) == Step(rolled, Ok(()))
    requires rolled.windowStart == WindowStart(rolled.config.windowDuration, slot)
    requires rolled.prevQty <= U64_MAX * WAD && rolled.curQty <= U64_MAX * WAD
    ensures Update(l, slot, qty).result.Ok? <==> Fits(rolled, slot, qty)
    ensures var step := Update(l, slot, qty);
      && step.next == rolled.(curQty := step.next.curQty)
      && step.next.curQty == rolled.curQty + if step.result.Ok? then qty else 0
    ensures Remaining(l, slot).next == rolled && Remaining(l, slot).result.Ok?
    ensures qty > 0 ==> (Fits(rolled, slot, qty) <==> qty <= Remaining(l, slot).result.value)
  {
    hide WindowStart, Weight, Floor;
    OutflowIs(rolled, slot);
  }

  // ---- whole runs ----

  predicate UpTo(calls: seq<Call>, horizon: nat) {
    forall c :: c in calls ==> c.slot <= horizon
  }

  lemma NoWrapBefore(d: nat, slot: nat, horizon: nat)
    requires d > 0 && slot <= horizon && NoWrap(d, horizon)
    ensures NoWrap(d, slot)
  {
    WindowsApart(d, slot, horizon);
  }

  /** The window the slot falls in holds at most `max_outflow`, and so does the
      one before it. */
  lemma BoundedFields(h: History)
    requires Inv(h)
    ensures h.limiter.prevQty <= h.limiter.config.maxOutflow * WAD
    ensures h.limiter.curQty <= h.limiter.config.maxOutflow * WAD
  {
    WindowTotalBounded(h.log, h.limiter.config, h.limiter.windowStart);
    PreviousTotalBounded(h.log, h.limiter.config, h.limiter.windowStart);
  }

  lemma ApplyHolds(h: History, call: Call)
    requires Inv(h) && NoWrap(h.limiter.config.windowDuration, call.slot)
    ensures Inv(Apply(h, call)) && Apply(h, call).limiter.config == h.limiter.config
  {
    var rolled := h.(limiter := Roll(h.limiter, call.slot).next);
    RollHolds(h, call.slot);
    if h.limiter.windowStart <= call.slot {
      BoundedFields(rolled);
      var qty := if call.Request? then call.qty else 0;
      RequestAccepted(h.limiter, call.slot, qty, rolled.limiter);
      if call.Request? && Fits(rolled.limiter, call.slot, qty) {
        AcceptAllAdmissible(rolled, call.slot, qty);
        AcceptHolds(rolled, call.slot, qty, Apply(h, call));
      }
    }
  }

  lemma {:induction false} RunHolds(config: Config, slot: U64, calls: seq<Call>, horizon: nat)
    requires config.windowDuration > 0 && NoWrap(config.windowDuration, horizon)
    requires slot <= horizon && UpTo(calls, horizon)
    ensures Inv(Run(config, slot, calls)) && Run(config, slot, calls).limiter.config == config
    ensures forall e :: e in Run(config, slot, calls).log ==> e.slot <= horizon
  {
    if calls == [] {
      NewHolds(config, slot);
    } else {
      RunHolds(config, slot, calls[..|calls| - 1], horizon);
      NoWrapBefore(config.windowDuration, calls[|calls| - 1].slot, horizon);
      ApplyHolds(Run(config, slot, calls[..|calls| - 1]), calls[|calls| - 1]);
    }
  }
}
