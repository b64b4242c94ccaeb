/** Circuit breakers: two for the whole engine, one per protocol, one per route. */
module Breakers {
  import opened FixedPoint
  import opened Bytes

  // Protocols are only compared.
  type Protocol = nat

  datatype RouteKey = RouteKey(protocol: Protocol, positionId: Key, flashReserve: Key)

  datatype BreakerReason = ConsecutiveRevert | TreasuryFloor | Drawdown | SyncLag

  datatype BreakerCheck = Allowed | Halted(reason: BreakerReason)

  datatype State = State(
    drawdownTripped: bool,
    treasuryBelowFloor: bool,
    protocolsHalted: map<Protocol, bool>,
    consecutiveReverts: map<RouteKey, U32>,
    routesOut: map<RouteKey, bool>)

  datatype Event =
    | Revert(route: RouteKey)
    | Success(route: RouteKey)
    | RearmRoute(route: RouteKey)
    | RearmAllRoutes
    | ReportTreasury(below: bool)
    | TripDrawdown
    | RearmDrawdown
    | ReportSyncLag(protocol: Protocol, halted: bool)

  function Counted(reverts: map<RouteKey, U32>, route: RouteKey): U32 {
    if route in reverts then reverts[route] else 0
  }

  function Flag<K>(flags: map<K, bool>, k: K): bool {
    k in flags && flags[k]
  }

  // An increment without overflow checks.
  function Increment(n: U32): U32 {
    (n + 1) % 0x1_0000_0000
  }

  function After(s: State, e: Event, limit: U32): State {
    match e
    case Revert(route) =>
      var count := Increment(Counted(s.consecutiveReverts, route));
      s.(consecutiveReverts := s.consecutiveReverts[route := count],
         routesOut := if count >= limit then s.routesOut[route := true] else s.routesOut)
    case Success(route) => Cleared(s, route)
    case RearmRoute(route) => Cleared(s, route)
    case RearmAllRoutes => s.(consecutiveReverts := map[], routesOut := map[])
    case ReportTreasury(below) => s.(treasuryBelowFloor := below)
    case TripDrawdown => s.(drawdownTripped := true)
    case RearmDrawdown => s.(drawdownTripped := false)
    case ReportSyncLag(protocol, halted) => s.(protocolsHalted := s.protocolsHalted[protocol := halted])
  }

  function Cleared(s: State, route: RouteKey): State {
    s.(consecutiveReverts := s.consecutiveReverts[route := 0], routesOut := s.routesOut - {route})
  }

  function Check(s: State, protocol: Protocol, route: RouteKey): BreakerCheck {
    if s.drawdownTripped then Halted(Drawdown)
    else if s.treasuryBelowFloor then Halted(TreasuryFloor)
    else if Flag(s.protocolsHalted, protocol) then Halted(SyncLag)
    else if Flag(s.routesOut, route) then Halted(ConsecutiveRevert)
    else Allowed
  }

  class BreakerState {
    var drawdownTripped: bool
    var treasuryBelowFloor: bool
    var protocolsHalted: map<Protocol, bool>
    var consecutiveReverts: map<RouteKey, U32>
    var routesOut: map<RouteKey, bool>

    function Contents(): State
      reads this
    {
      State(drawdownTripped, treasuryBelowFloor, protocolsHalted, consecutiveReverts, routesOut)
    }

    constructor ()
      ensures forall limit: U32 :: Contents() == Run([], limit)
    {
      drawdownTripped, treasuryBelowFloor := false, false;
      protocolsHalted, consecutiveReverts, routesOut := map[], map[], map[];
    }

    method RecordRevert(route: RouteKey, limit: U32)
      modifies this
      ensures Contents() == After(old(Contents()), Revert(route), limit)
    {
      if route !in consecutiveReverts {
        consecutiveReverts := consecutiveReverts[route := 0];
      }
      consecutiveReverts := consecutiveReverts[route := Increment(consecutiveReverts[route])];
      if consecutiveReverts[route] >= limit {
        routesOut := routesOut[route := true];
      }
    }

    method RecordSuccess(route: RouteKey)
      modifies this
      ensures forall limit: U32 :: Contents() == After(old(Contents()), Success(route), limit)
    {
      consecutiveReverts := consecutiveReverts[route := 0];
      routesOut := routesOut - {route};
    }

    method Rearm(route: RouteKey)
      modifies this
      ensures forall limit: U32 :: Contents() == After(old(Contents()), RearmRoute(route), limit)
    {
      consecutiveReverts := consecutiveReverts[route := 0];
      routesOut := routesOut - {route};
    }

    method RearmAll()
      modifies this
      ensures forall limit: U32 :: Contents() == After(old(Contents()), RearmAllRoutes, limit)
    {
      consecutiveReverts, routesOut := map[], map[];
    }

    method SetTreasuryBelowFloor(below: bool)
      modifies this
      ensures forall limit: U32 :: Contents() == After(old(Contents()), ReportTreasury(below), limit)
    {
      treasuryBelowFloor := below;
    }

    method SetDrawdownTripped()
      modifies this
      ensures forall limit: U32 :: Contents() == After(old(Contents()), TripDrawdown, limit)
    {
      drawdownTripped := true;
    }

    method ResetDrawdown()
      modifies this
      ensures forall limit: U32 :: Contents() == After(old(Contents()), RearmDrawdown, limit)
    {
      drawdownTripped := false;
    }

    method SetProtocolSyncLagHalted(protocol: Protocol, halted: bool)
      modifies this
      ensures forall limit: U32 :: Contents() == After(old(Contents()), ReportSyncLag(protocol, halted), limit)
    {
      protocolsHalted := protocolsHalted[protocol := halted];
    }

    method Allows(protocol: Protocol, route: RouteKey) returns (r: BreakerCheck)
      ensures r == Check(Contents(), protocol, route)
    {
      if drawdownTripped {
        return Halted(Drawdown);
      }
      if treasuryBelowFloor {
        return Halted(TreasuryFloor);
      }
      if protocol in protocolsHalted && protocolsHalted[protocol] {
        return Halted(SyncLag);
      }
      if route in routesOut && routesOut[route] {
        return Halted(ConsecutiveRevert);
      }
      r := Allowed;
    }
  }

  /** The state after a trace, with one revert limit throughout. */
  function Run(es: seq<Event>, limit: U32): State {
    if es == [] then State(false, false, map[], map[], map[])
    else After(Run(es[..|es| - 1], limit), es[|es| - 1], limit)
  }

  // ---- the history of a trace ----

  predicate Clears(e: Event, route: RouteKey) {
    e == Success(route) || e == RearmRoute(route) || e == RearmAllRoutes
  }

  /** A revert of the route with no success or re-arm after it. */
  predicate Counts(es: seq<Event>, i: nat, route: RouteKey)
    requires i < |es|
  {
    es[i] == Revert(route) && forall j :: i < j < |es| ==> !Clears(es[j], route)
  }

  /** The reverts since the last success or re-arm. */
  function Streak(es: seq<Event>, route: RouteKey): nat {
    |set i | 0 <= i < |es| && Counts(es, i, route)|
  }

  lemma CountsPush(es: seq<Event>, e: Event, i: nat, route: RouteKey)
    requires i <= |es|
    ensures Counts(es + [e], i, route) <==> if i == |es| then e == Revert(route) else Counts(es, i, route) && !Clears(e, route)
  {
    var all := es + [e];
    assert all[|es|] == e;
    assert forall j :: 0 <= j < |es| ==> all[j] == es[j];
  }

  lemma StreakPush(es: seq<Event>, e: Event, route: RouteKey)
    ensures Streak(es + [e], route)
         == if Clears(e, route) then 0 else Streak(es, route) + if e == Revert(route) then 1 else 0
  {
    var all, n := es + [e], |es|;
    var before := set i | 0 <= i < n && Counts(es, i, route);
    var after := set i | 0 <= i < n + 1 && Counts(all, i, route);
    forall i | 0 <= i < n + 1
      ensures Counts(all, i, route) <==> if i == n then e == Revert(route) else Counts(es, i, route) && !Clears(e, route)
    {
      CountsPush(es, e, i, route);
    }
    hide Counts;
    if Clears(e, route) {
      assert after == {};
    } else {
      assert after == before + if e == Revert(route) then {n} else {};
    }
  }

  /** `on` has happened, and `off` has not happened since. */
  predicate Standing(es: seq<Event>, on: Event, off: Event) {
    exists i :: 0 <= i < |es| && StandsFrom(es, i, on, off)
  }

  predicate StandsFrom(es: seq<Event>, i: nat, on: Event, off: Event)
    requires i < |es|
  {
    es[i] == on && forall j :: i < j < |es| ==> es[j] != off
  }

  lemma StandsFromPush(es: seq<Event>, e: Event, i: nat, on: Event, off: Event)
    requires i <= |es|
    ensures StandsFrom(es + [e], i, on, off) <==> if i == |es| then e == on else StandsFrom(es, i, on, off) && e != off
  {
    var all := es + [e];
    assert all[|es|] == e;
    assert forall j :: 0 <= j < |es| ==> all[j] == es[j];
  }

  lemma StandingPush(es: seq<Event>, e: Event, on: Event, off: Event)
    requires on != off
    ensures Standing(es + [e], on, off) <==> e == on || (e != off && Standing(es, on, off))
  {
    hide StandsFrom;
    var all, n := es + [e], |es|;
    forall i | 0 <= i <= n
      ensures StandsFrom(all, i, on, off) <==> if i == n then e == on else StandsFrom(es, i, on, off) && e != off
    {
      StandsFromPush(es, e, i, on, off);
    }
    if e != off && Standing(es, on, off) {
      var i :| 0 <= i < n && StandsFrom(es, i, on, off);
      assert StandsFrom(all, i, on, off);
    }
    if e == on {
      assert StandsFrom(all, n, on, off);
    }
  }

  // ---- what every trace keeps ----

  function AtLeastOne(limit: U32): nat {
    if limit == 0 then 1 else limit
  }

  /** One more revert: whether the wrapped count reaches the limit only matters
      the first time. */
  lemma WrappedCount(streak: nat, limit: U32)
    ensures Increment(streak % 0x1_0000_0000) == (streak + 1) % 0x1_0000_0000
    ensures streak + 1 >= AtLeastOne(limit)
       <==> streak >= AtLeastOne(limit) || Increment(streak % 0x1_0000_0000) >= limit
  {
    if streak < AtLeastOne(limit) {
      assert streak % 0x1_0000_0000 == streak;
    }
  }

  /** After any trace, a route is out of rotation exactly when its reverts since
      its last success or re-arm have reached the limit. A wrapped counter does
      not bring it back. */
  lemma {:induction false} OutIffStreak(es: seq<Event>, limit: U32, route: RouteKey)
    ensures Flag(Run(es, limit).routesOut, route) <==> Streak(es, route) >= AtLeastOne(limit)
    ensures Counted(Run(es, limit).consecutiveReverts, route) == Streak(es, route) % 0x1_0000_0000
  {
    if es != [] {
      var n := |es| - 1;
      assert es == es[..n] + [es[n]];
      OutIffStreak(es[..n], limit, route);
      StreakPush(es[..n], es[n], route);
      WrappedCount(Streak(es[..n], route), limit);
      hide Streak, Increment, AtLeastOne;
    }
  }

  /** The other breakers stand from their report or trip until its opposite; only
      an explicit re-arm ends a drawdown halt. */
  lemma {:induction false} FlagsStand(es: seq<Event>, limit: U32, protocol: Protocol)
    ensures Run(es, limit).drawdownTripped <==> Standing(es, TripDrawdown, RearmDrawdown)
    ensures Run(es, limit).treasuryBelowFloor <==> Standing(es, ReportTreasury(true), ReportTreasury(false))
    ensures Flag(Run(es, limit).protocolsHalted, protocol)
       <==> Standing(es, ReportSyncLag(protocol, true), ReportSyncLag(protocol, false))
  {
    if es != [] {
      var n := |es| - 1;
      assert es == es[..n] + [es[n]];
      FlagsStand(es[..n], limit, protocol);
      StandingPush(es[..n], es[n], TripDrawdown, RearmDrawdown);
      StandingPush(es[..n], es[n], ReportTreasury(true), ReportTreasury(false));
      StandingPush(es[..n], es[n], ReportSyncLag(protocol, true), ReportSyncLag(protocol, false));
      hide Standing;
    }
  }

  predicate Tripped(es: seq<Event>, limit: U32, protocol: Protocol, route: RouteKey, reason: BreakerReason) {
    match reason
    case Drawdown => Standing(es, TripDrawdown, RearmDrawdown)
    case TreasuryFloor => Standing(es, ReportTreasury(true), ReportTreasury(false))
    case SyncLag => Standing(es, ReportSyncLag(protocol, true), ReportSyncLag(protocol, false))
    case ConsecutiveRevert => Streak(es, route) >= AtLeastOne(limit)
  }

  /** The wider a breaker's scope, the earlier it is reported. */
  function Rank(reason: BreakerReason): nat {
    match reason
    case Drawdown => 0
    case TreasuryFloor => 1
    case SyncLag => 2
    case ConsecutiveRevert => 3
  }

  /** A submission is allowed exactly when the trace leaves no breaker tripped for
      it; otherwise the first tripped breaker is reported. */
  lemma CheckReportsFirst(es: seq<Event>, limit: U32, protocol: Protocol, route: RouteKey)
    ensures var check := Check(Run(es, limit), protocol, route);
      && (check == Allowed <==> forall reason :: !Tripped(es, limit, protocol, route, reason))
      && (check.Halted? ==>
            && Tripped(es, limit, protocol, route, check.reason)
            && forall reason :: Tripped(es, limit, protocol, route, reason) ==> Rank(check.reason) <= Rank(reason))
  {
    OutIffStreak(es, limit, route);
    FlagsStand(es, limit, protocol);
    hide Run, Streak, Standing;
    var check := Check(Run(es, limit), protocol, route);
    assert check.Halted? ==> Tripped(es, limit, protocol, route, check.reason);
    assert Tripped(es, limit, protocol, route, Drawdown) <==> Standing(es, TripDrawdown, RearmDrawdown);
    assert Tripped(es, limit, protocol, route, TreasuryFloor)
      <==> Standing(es, ReportTreasury(true), ReportTreasury(false));
    assert Tripped(es, limit, protocol, route, SyncLag)
      <==> Standing(es, ReportSyncLag(protocol, true), ReportSyncLag(protocol, false));
    assert Tripped(es, limit, protocol, route, ConsecutiveRevert) <==> Streak(es, route) >= AtLeastOne(limit);
  }

  // ---- routes do not affect each other ----

  predicate Concerns(e: Event, route: RouteKey) {
    e == Revert(route) || Clears(e, route)
  }

  /** What a route's own history leaves of a trace. */
  function Concerning(es: seq<Event>, route: RouteKey): seq<Event> {
    if es == [] then []
    else
      var front := Concerning(es[..|es| - 1], route);
      if Concerns(es[|es| - 1], route) then front + [es[|es| - 1]] else front
  }

  lemma {:induction false} StreakOfConcerning(es: seq<Event>, route: RouteKey)
    ensures Streak(es, route) == Streak(Concerning(es, route), route)
  {
    if es != [] {
      var n := |es| - 1;
      assert es == es[..n] + [es[n]];
      StreakOfConcerning(es[..n], route);
      StreakPush(es[..n], es[n], route);
      StreakPush(Concerning(es[..n], route), es[n], route);
      hide Streak;
    }
  }

  /** Whether a route is out depends on its own events only. */
  lemma RouteIsIndependent(es: seq<Event>, limit: U32, route: RouteKey)
    ensures Flag(Run(es, limit).routesOut, route) <==> Flag(Run(Concerning(es, route), limit).routesOut, route)
  {
    OutIffStreak(es, limit, route);
    OutIffStreak(Concerning(es, route), limit, route);
    StreakOfConcerning(es, route);
  }
}
