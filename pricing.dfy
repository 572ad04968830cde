/**
 * The per-trade price arithmetic the form, the detail screen and both
 * statistics calculators share: risk and reward distances and their ratio.
 */
module Pricing {
  import opened Wrappers
  import opened Numbers

  /** The guard `entry && stop && target && entry !== stop` over parsed prices. */
  predicate RatioDefined(entry: Num, stop: Num, target: Num) {
    Truthy(entry) && Truthy(stop) && Truthy(target) && entry.value != stop.value
  }

  /** The risk: how far the stop lies from the entry. */
  function Risk(entry: real, stop: real): real {
    Abs(entry - stop)
  }

  /** The reward: how far the target lies from the entry. */
  function Reward(entry: real, target: real): real {
    Abs(target - entry)
  }

  /** Risk:reward, the reward measured in units of risk. */
  function Ratio(entry: real, stop: real, target: real): (rr: real)
    requires entry != stop
    ensures rr >= 0.0
    ensures rr * Risk(entry, stop) == Reward(entry, target)
  {
    Reward(entry, target) / Risk(entry, stop)
  }

  /**
   * `calculateRR` on the form and on the detail screen: the ratio to two
   * places, or `None` for the `'-'` they show when a price is zero or NaN
   * or the entry equals the stop.
   */
  function DisplayedRatio(entry: Num, stop: Num, target: Num): (r: Option<real>)
    ensures r.Some? <==> RatioDefined(entry, stop, target)
    ensures r.Some? ==> r.value >= 0.0
    ensures r.Some? ==> -0.005 <= r.value - Reward(entry.value, target.value) / Risk(entry.value, stop.value) <= 0.005
  {
    if Truthy(entry) && Truthy(stop) && Truthy(target) && entry.value != stop.value then
      var risk := Abs(entry.value - stop.value);
      var reward := Abs(target.value - entry.value);
      Some(ToFixed2(reward / risk))
    else None
  }

  /** Entry 100, stop 95, target 115: a risk of 5 for a reward of 15, shown as 3. */
  lemma DisplayedRatioExample()
    ensures DisplayedRatio(Some(100.0), Some(95.0), Some(115.0)) == Some(3.0)
  {
    assert 15.0 / 5.0 == 3.0;
    RoundInteger(300);
  }

  /** Whenever the ratio is defined the risk is positive, so the source's `risk > 0` test always passes. */
  lemma RiskPositive(entry: Num, stop: Num, target: Num)
    requires RatioDefined(entry, stop, target)
    ensures Risk(entry.value, stop.value) > 0.0
  {
  }
}
