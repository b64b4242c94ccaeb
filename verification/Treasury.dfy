/** Treasury exposure: what one slot has committed in tips, and whether another
    tip may be added. Money is a real number. */
module Treasury {
  datatype RiskConfig = RiskConfig(minProfitUsd: real, maxTipPerTxUsd: real, maxTipPerSlotUsd: real)

  datatype TreasuryConfig = TreasuryConfig(minBalanceSol: real)

  datatype TreasuryDecision = Approved | ExceedsPerTxCap | ExceedsPerSlotBudget | BelowMinimumBalance

  /** The first failing check, or approval. */
  function Check(committedUsd: real, tipUsd: real, balanceSol: real, risk: RiskConfig, treasury: TreasuryConfig)
    : TreasuryDecision
  {
    if balanceSol < treasury.minBalanceSol then BelowMinimumBalance
    else if tipUsd > risk.maxTipPerTxUsd then ExceedsPerTxCap
    else if committedUsd + tipUsd > risk.maxTipPerSlotUsd then ExceedsPerSlotBudget
    else Approved
  }

  /** The order the documentation lists: the balance last. */
  function DocumentedCheck(committedUsd: real, tipUsd: real, balanceSol: real, risk: RiskConfig, treasury: TreasuryConfig)
    : TreasuryDecision
  {
    if tipUsd > risk.maxTipPerTxUsd then ExceedsPerTxCap
    else if committedUsd + tipUsd > risk.maxTipPerSlotUsd then ExceedsPerSlotBudget
    else if balanceSol < treasury.minBalanceSol then BelowMinimumBalance
    else Approved
  }

  /** The code checks the balance first. Approvals are the same; a refusal is
      reported as documented unless the balance and a cap both refuse. */
  lemma DocumentedOrderExactly(committedUsd: real, tipUsd: real, balanceSol: real, risk: RiskConfig, treasury: TreasuryConfig)
    ensures var done := Check(committedUsd, tipUsd, balanceSol, risk, treasury);
      var documented := DocumentedCheck(committedUsd, tipUsd, balanceSol, risk, treasury);
      && (done == Approved <==> documented == Approved)
      && (done == documented
          <==> || balanceSol >= treasury.minBalanceSol
               || (tipUsd <= risk.maxTipPerTxUsd && committedUsd + tipUsd <= risk.maxTipPerSlotUsd))
  {
  }

  /** Tips committed within one slot; a new one for every slot. */
  class SlotBudget {
    var committedUsd: real

    constructor ()
      ensures committedUsd == 0.0
    {
      committedUsd := 0.0;
    }

    method Commit(tipUsd: real)
      modifies this
      ensures committedUsd == old(committedUsd) + tipUsd
    {
      committedUsd := committedUsd + tipUsd;
    }
  }
}
