/**
 * The trade detail screen (`TradeDetail`): the risk:reward, risk amount
 * and reward amount shown for a stored trade.
 */
module TradeDetail {
  import opened Wrappers
  import opened Numbers
  import opened Journal
  import opened Pricing
  import opened Statistics
  import TradeForm

  /**
   * `calculateRR`: shown exactly for the trades whose ratio enters the
   * average risk:reward, and then that ratio to two places.
   */
  function CalculateRR(t: Trade): (r: Option<real>)
    ensures r.Some? <==> Qualifies(t)
    ensures r.Some? ==> r.value == ToFixed2(TradeRR(t))
  {
    DisplayedRatio(t.data.entryPrice, t.data.stopLoss, t.data.targetPrice)
  }

  /** `calculateRiskAmount`: the distance from entry to stop to two places; NaN when a price does not parse. */
  function RiskAmount(t: Trade): (r: Option<real>)
    ensures r.Some? <==> t.data.entryPrice.Some? && t.data.stopLoss.Some?
    ensures r.Some? ==> r.value >= 0.0
    ensures r.Some? ==> -0.005 <= r.value - Risk(t.data.entryPrice.value, t.data.stopLoss.value) <= 0.005
  {
    var entry, stop := t.data.entryPrice, t.data.stopLoss;
    if entry.Some? && stop.Some? then Some(ToFixed2(Abs(entry.value - stop.value))) else None
  }

  /** `calculateRewardAmount`: the distance from entry to target to two places; NaN when a price does not parse. */
  function RewardAmount(t: Trade): (r: Option<real>)
    ensures r.Some? <==> t.data.entryPrice.Some? && t.data.targetPrice.Some?
    ensures r.Some? ==> r.value >= 0.0
    ensures r.Some? ==> -0.005 <= r.value - Reward(t.data.entryPrice.value, t.data.targetPrice.value) <= 0.005
  {
    var entry, target := t.data.entryPrice, t.data.targetPrice;
    if entry.Some? && target.Some? then Some(ToFixed2(Abs(target.value - entry.value))) else None
  }

  /**
   * When the ratio is shown, both amounts are shown too, the risk is
   * positive, and the ratio is the reward over the risk (before rounding).
   */
  lemma RatioIsRewardOverRisk(t: Trade)
    requires CalculateRR(t).Some?
    ensures RiskAmount(t).Some? && RewardAmount(t).Some?
    ensures Risk(t.data.entryPrice.value, t.data.stopLoss.value) > 0.0
    ensures CalculateRR(t).value
         == ToFixed2(Reward(t.data.entryPrice.value, t.data.targetPrice.value) / Risk(t.data.entryPrice.value, t.data.stopLoss.value))
  {
    RiskPositive(t.data.entryPrice, t.data.stopLoss, t.data.targetPrice);
  }

  /** The detail screen shows the ratio the form showed for the same prices. */
  lemma AgreesWithForm(t: Trade, form: TradeForm.Form, parse: string -> Num)
    requires TradeForm.Reading(form, "entryPrice", parse) == t.data.entryPrice
    requires TradeForm.Reading(form, "stopLoss", parse) == t.data.stopLoss
    requires TradeForm.Reading(form, "targetPrice", parse) == t.data.targetPrice
    ensures TradeForm.CalculateRR(form, parse) == CalculateRR(t)
  {
  }
}
