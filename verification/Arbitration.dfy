/** Arbitration of one evaluation window: rank by value, one winner per reserve,
    and a tip budget for the slot. */
module Arbitration {
  import opened Bytes
  import opened Treasury
  import opened Ranking

  datatype Outcome =
    | Fire(tipUsd: real)
    | DeferredReserveConflict
    | DeferredBudget(decision: TreasuryDecision)
    | Discarded

  datatype Arbitrated = Arbitrated(routed: Routed, outcome: Outcome)

  /** What a window is judged against; the tip model is a parameter. */
  datatype Window = Window(risk: RiskConfig, treasury: TreasuryConfig, balanceSol: real, tipFor: Routed -> real)

  function Candidates(results: seq<Arbitrated>): (s: seq<Routed>)
    ensures |s| == |results|
  {
    seq(|results|, i requires 0 <= i < |results| => results[i].routed)
  }

  /** The tips committed by the candidates that fire. */
  function Committed(results: seq<Arbitrated>): real {
    if results == [] then 0.0
    else
      var last := results[|results| - 1].outcome;
      Committed(results[..|results| - 1]) + if last.Fire? then last.tipUsd else 0.0
  }

  predicate FiredOn(a: Arbitrated, reserve: Key) {
    a.outcome.Fire? && a.routed.reserve == reserve
  }

  predicate Locked(results: seq<Arbitrated>, reserve: Key) {
    exists i :: 0 <= i < |results| && FiredOn(results[i], reserve)
  }

  /** How a candidate is judged after those ranked before it. */
  function Judge(before: seq<Arbitrated>, c: Routed, w: Window): Outcome {
    if c.netUsd <= w.risk.minProfitUsd then Discarded
    else if Locked(before, c.reserve) then DeferredReserveConflict
    else
      var tip := w.tipFor(c);
      var decision := Check(Committed(before), tip, w.balanceSol, w.risk, w.treasury);
      if decision != Approved then DeferredBudget(decision) else Fire(tip)
  }

  predicate JudgedAt(results: seq<Arbitrated>, i: nat, w: Window)
    requires i < |results|
  {
    results[i].outcome == Judge(results[..i], results[i].routed, w)
  }

  /** Every candidate has the outcome its predecessors leave it. */
  predicate Judged(results: seq<Arbitrated>, w: Window) {
    forall i :: 0 <= i < |results| ==> JudgedAt(results, i, w)
  }

  lemma JudgedPush(results: seq<Arbitrated>, a: Arbitrated, w: Window)
    requires Judged(results, w) && a.outcome == Judge(results, a.routed, w)
    ensures Judged(results + [a], w)
    ensures Candidates(results + [a]) == Candidates(results) + [a.routed]
    ensures Committed(results + [a]) == Committed(results) + if a.outcome.Fire? then a.outcome.tipUsd else 0.0
    ensures forall r: Key :: Locked(results + [a], r) <==> Locked(results, r) || FiredOn(a, r)
  {
    var all := results + [a];
    assert all[..|results|] == results;
    forall i | 0 <= i < |all|
      ensures JudgedAt(all, i, w)
    {
      if i < |results| {
        assert JudgedAt(results, i, w);
        assert all[..i] == results[..i];
      }
    }
    forall r: Key
      ensures Locked(all, r) <==> Locked(results, r) || FiredOn(a, r)
    {
      if i :| 0 <= i < |results| && FiredOn(results[i], r) {
        assert FiredOn(all[i], r);
      }
      if FiredOn(a, r) {
        assert FiredOn(all[|results|], r);
      }
    }
  }

  lemma JudgedPrefix(results: seq<Arbitrated>, n: nat, w: Window)
    requires n <= |results| && Judged(results, w)
    ensures Judged(results[..n], w)
  {
    forall i | 0 <= i < n
      ensures JudgedAt(results[..n], i, w)
    {
      assert JudgedAt(results, i, w);
      assert results[..n][..i] == results[..i];
    }
  }

  /** The first `k` candidates are judged; `locked` and `committed` are what their
      results amount to. */
  ghost predicate Progress(results: seq<Arbitrated>, ranked: seq<Routed>, k: nat, locked: seq<Key>, committed: real, w: Window) {
    && k <= |ranked| && Candidates(results) == ranked[..k] && Judged(results, w)
    && committed == Committed(results)
    && forall r: Key :: r in locked <==> Locked(results, r)
  }

  lemma PassedOver(results: seq<Arbitrated>, ranked: seq<Routed>, k: nat, locked: seq<Key>, committed: real, w: Window,
                   outcome: Outcome)
    requires Progress(results, ranked, k, locked, committed, w) && k < |ranked|
    requires outcome == Judge(results, ranked[k], w) && !outcome.Fire?
    ensures Progress(results + [Arbitrated(ranked[k], outcome)], ranked, k + 1, locked, committed, w)
  {
    JudgedPush(results, Arbitrated(ranked[k], outcome), w);
    assert ranked[..k + 1] == ranked[..k] + [ranked[k]];
    hide Judged, Candidates, Committed, Locked, Judge;
  }

  lemma Fired(results: seq<Arbitrated>, ranked: seq<Routed>, k: nat, locked: seq<Key>, committed: real, w: Window, tip: real)
    requires Progress(results, ranked, k, locked, committed, w) && k < |ranked|
    requires Judge(results, ranked[k], w) == Fire(tip)
    ensures Progress(results + [Arbitrated(ranked[k], Fire(tip))], ranked, k + 1, locked + [ranked[k].reserve],
      committed + tip, w)
  {
    JudgedPush(results, Arbitrated(ranked[k], Fire(tip)), w);
    assert ranked[..k + 1] == ranked[..k] + [ranked[k]];
    hide Judged, Candidates, Committed, Locked, Judge;
  }

  /** The rules in terms of the locked reserves and the budget. */
  lemma JudgeIs(results: seq<Arbitrated>, ranked: seq<Routed>, k: nat, locked: seq<Key>, committed: real, w: Window)
    requires Progress(results, ranked, k, locked, committed, w) && k < |ranked|
    ensures var c := ranked[k];
      var decision := Check(committed, w.tipFor(c), w.balanceSol, w.risk, w.treasury);
      Judge(results, c, w)
      == if c.netUsd <= w.risk.minProfitUsd then Discarded
         else if c.reserve in locked then DeferredReserveConflict
         else if decision != Approved then DeferredBudget(decision)
         else Fire(w.tipFor(c))
  {
    hide Judged, Candidates, Committed, Locked;
  }

  lemma ProgressDone(results: seq<Arbitrated>, ranked: seq<Routed>, locked: seq<Key>, committed: real, w: Window)
    requires Progress(results, ranked, |ranked|, locked, committed, w)
    ensures Candidates(results) == ranked && Judged(results, w)
  {
    assert ranked[..|ranked|] == ranked;
  }

  /** Rank, then judge one by one with a list of locked reserves and a budget. */
  method Arbitrate(candidates: seq<Routed>, w: Window) returns (results: seq<Arbitrated>)
    ensures Candidates(results) == RankByNet(candidates)
    ensures Descending(Candidates(results)) && multiset(Candidates(results)) == multiset(candidates)
    ensures Judged(results, w)
  {
    RankedContents(candidates);
    RankedDescending(candidates);
    var ranked := RankByNet(candidates);
    var locked: seq<Key> := [];
    var budget := new SlotBudget();
    results := [];
    assert Progress([], ranked, 0, [], 0.0, w);
    hide Progress, Judged, Candidates, Committed, Locked, Judge, RankByNet, Descending, Check;
    for k := 0 to |ranked|
      invariant Progress(results, ranked, k, locked, budget.committedUsd, w)
    {
      var c := ranked[k];
      JudgeIs(results, ranked, k, locked, budget.committedUsd, w);
      if c.netUsd <= w.risk.minProfitUsd {
        PassedOver(results, ranked, k, locked, budget.committedUsd, w, Discarded);
        results := results + [Arbitrated(c, Discarded)];
        continue;
      }
      if c.reserve in locked {
        PassedOver(results, ranked, k, locked, budget.committedUsd, w, DeferredReserveConflict);
        results := results + [Arbitrated(c, DeferredReserveConflict)];
        continue;
      }
      var tip := w.tipFor(c);
      var decision := Check(budget.committedUsd, tip, w.balanceSol, w.risk, w.treasury);
      if decision != Approved {
        PassedOver(results, ranked, k, locked, budget.committedUsd, w, DeferredBudget(decision));
        results := results + [Arbitrated(c, DeferredBudget(decision))];
        continue;
      }
      Fired(results, ranked, k, locked, budget.committedUsd, w, tip);
      budget.Commit(tip);
      locked := locked + [c.reserve];
      results := results + [Arbitrated(c, Fire(tip))];
    }
    ProgressDone(results, ranked, locked, budget.committedUsd, w);
  }

  // ---- what arbitration guarantees ----

  /** The ranking and the rules leave nothing open: the results are determined. */
  lemma {:induction false} JudgedUnique(a: seq<Arbitrated>, b: seq<Arbitrated>, w: Window)
    requires Candidates(a) == Candidates(b) && Judged(a, w) && Judged(b, w)
    ensures a == b
  {
    assert |a| == |Candidates(a)| == |b|;
    if a != [] {
      var n := |a| - 1;
      JudgedPrefix(a, n, w);
      JudgedPrefix(b, n, w);
      assert Candidates(a[..n]) == Candidates(a)[..n] == Candidates(b)[..n] == Candidates(b[..n]);
      JudgedUnique(a[..n], b[..n], w);
      assert JudgedAt(a, n, w) && JudgedAt(b, n, w);
      assert a[n].routed == Candidates(a)[n] == Candidates(b)[n] == b[n].routed;
      assert a == a[..n] + [a[n]] && b == b[..n] + [b[n]];
    }
  }

  /** No two candidates fire on one reserve. */
  lemma FiredReservesDistinct(results: seq<Arbitrated>, w: Window, i: nat, j: nat)
    requires Judged(results, w) && i < j < |results|
    requires results[i].outcome.Fire? && results[j].outcome.Fire?
    ensures results[i].routed.reserve != results[j].routed.reserve
  {
    assert JudgedAt(results, j, w);
    assert FiredOn(results[..j][i], results[i].routed.reserve);
  }

  /** Once anything fires, the tips fired so far are within the slot's cap: after
      every candidate, whatever the sign of the tips. */
  lemma {:induction false} SlotCapHolds(results: seq<Arbitrated>, w: Window, n: nat)
    requires Judged(results, w) && n <= |results|
    requires exists i :: 0 <= i < n && results[i].outcome.Fire?
    ensures Committed(results[..n]) <= w.risk.maxTipPerSlotUsd
  {
    assert JudgedAt(results, n - 1, w);
    assert results[..n][..n - 1] == results[..n - 1];
    if !results[n - 1].outcome.Fire? {
      SlotCapHolds(results, w, n - 1);
    }
  }

  lemma FiredIsAdmissible(results: seq<Arbitrated>, w: Window, i: nat)
    requires Judged(results, w) && i < |results| && results[i].outcome.Fire?
    ensures results[i].routed.netUsd > w.risk.minProfitUsd
    ensures w.balanceSol >= w.treasury.minBalanceSol
    ensures results[i].outcome.tipUsd == w.tipFor(results[i].routed) <= w.risk.maxTipPerTxUsd
  {
    assert JudgedAt(results, i, w);
  }

  predicate NoRebates(w: Window, results: seq<Arbitrated>) {
    forall i :: 0 <= i < |results| ==> w.tipFor(results[i].routed) >= 0.0
  }

  lemma {:induction false} CommittedGrows(results: seq<Arbitrated>, w: Window, m: nat, n: nat)
    requires Judged(results, w) && NoRebates(w, results) && m <= n <= |results|
    ensures 0.0 <= Committed(results[..m]) <= Committed(results[..n])
    decreases n
  {
    if n > 0 {
      assert JudgedAt(results, n - 1, w);
      assert results[..n][..n - 1] == results[..n - 1];
      CommittedGrows(results, w, if m < n then m else n - 1, n - 1);
    }
  }

  /** A candidate lost to a reserve conflict lost to one of at least its value. */
  lemma ConflictLosesToHigher(results: seq<Arbitrated>, w: Window, j: nat) returns (i: nat)
    requires Judged(results, w) && Descending(Candidates(results)) && j < |results|
    requires results[j].outcome.DeferredReserveConflict?
    ensures i < j && FiredOn(results[i], results[j].routed.reserve)
    ensures results[i].routed.netUsd >= results[j].routed.netUsd
  {
    assert JudgedAt(results, j, w);
    i :| 0 <= i < |results[..j]| && FiredOn(results[..j][i], results[j].routed.reserve);
    assert Candidates(results)[i].netUsd >= Candidates(results)[j].netUsd;
  }

  /** What bars a candidate when the whole window has been judged. */
  predicate Barred(results: seq<Arbitrated>, w: Window, c: Routed) {
    || c.netUsd <= w.risk.minProfitUsd
    || w.balanceSol < w.treasury.minBalanceSol
    || w.tipFor(c) > w.risk.maxTipPerTxUsd
    || Committed(results) + w.tipFor(c) > w.risk.maxTipPerSlotUsd
    || exists i :: 0 <= i < |results| && FiredOn(results[i], c.reserve) && results[i].routed.netUsd >= c.netUsd
  }

  /** With tips that are not negative, no candidate is left behind: each that
      does not fire is still barred when every tip has been committed. */
  lemma UnfiredIsBarred(results: seq<Arbitrated>, w: Window, j: nat)
    requires Judged(results, w) && Descending(Candidates(results)) && NoRebates(w, results)
    requires j < |results| && !results[j].outcome.Fire?
    ensures Barred(results, w, results[j].routed)
  {
    assert JudgedAt(results, j, w);
    if results[j].outcome.DeferredReserveConflict? {
      var i := ConflictLosesToHigher(results, w, j);
      assert FiredOn(results[i], results[j].routed.reserve);
    } else if results[j].outcome.DeferredBudget? {
      CommittedGrows(results, w, j, |results|);
      assert results[..|results|] == results;
    }
  }

  /** Discarded candidates are the last ones, whatever happened before them. */
  lemma DiscardedAreLast(results: seq<Arbitrated>, w: Window, i: nat, j: nat)
    requires Judged(results, w) && Descending(Candidates(results)) && i < j < |results|
    requires results[i].outcome.Discarded?
    ensures results[j].outcome.Discarded?
  {
    assert JudgedAt(results, i, w) && JudgedAt(results, j, w);
    assert Candidates(results)[i].netUsd >= Candidates(results)[j].netUsd;
  }
}
