/**
 * The trade entry form (`TradeForm`): the field-edit handler, which keeps
 * the risk percentage in step with the entry and stop, and the live
 * risk:reward shown under the prices.
 */
module TradeForm {
  import opened Wrappers
  import opened Numbers
  import opened Pricing

  /** A form value: the text of an input, or a number the handler stored. */
  datatype FieldValue = Text(text: string) | Number(x: real)

  /** The form state, by field name. */
  type Form = map<string, FieldValue>

  /**
   * `parseFloat(form[name])`: a stored number reads as itself, a text as
   * `parse` reads it (`parseFloat` on strings is not modelled), and a
   * missing field as NaN.
   */
  function Reading(form: Form, name: string, parse: string -> Num): Num {
    if name !in form then None
    else match form[name]
      case Text(s) => parse(s)
      case Number(x) => Some(x)
  }

  /** The risk as a percentage of the entry, to two places. */
  function RiskPercent(entry: real, stop: real): (p: real)
    requires entry > 0.0
    ensures p >= 0.0
    ensures -0.005 <= p - Risk(entry, stop) / entry * 100.0 <= 0.005
  {
    ToFixed2(Abs(entry - stop) / entry * 100.0)
  }

  /** The guard `entry && stop && entry > 0` for recomputing the risk percentage. */
  predicate RecomputesRisk(entry: Num, stop: Num) {
    Truthy(entry) && Truthy(stop) && entry.value > 0.0
  }

  /**
   * `handleChange`: the named field takes the text typed. An edit of the
   * entry or the stop also recomputes `riskPercent` from the entry and stop
   * the form then holds, when they pass the guard; otherwise
   * `riskPercent` is left as it was.
   */
  function HandleChange(prev: Form, name: string, value: string, parse: string -> Num): (next: Form)
    ensures name in next && next[name] == Text(value)
    ensures forall k :: k in prev && k != name && k != "riskPercent" ==> k in next && next[k] == prev[k]
    ensures next.Keys <= prev.Keys + {name, "riskPercent"}
    ensures name != "entryPrice" && name != "stopLoss" ==> next == prev[name := Text(value)]
    ensures Reading(next, "entryPrice", parse) == Reading(prev[name := Text(value)], "entryPrice", parse)
    ensures Reading(next, "stopLoss", parse) == Reading(prev[name := Text(value)], "stopLoss", parse)
    ensures (name == "entryPrice" || name == "stopLoss") &&
            RecomputesRisk(Reading(next, "entryPrice", parse), Reading(next, "stopLoss", parse)) ==>
              "riskPercent" in next &&
              next["riskPercent"] == Number(RiskPercent(Reading(next, "entryPrice", parse).value,
                                                        Reading(next, "stopLoss", parse).value))
    ensures !RecomputesRisk(Reading(next, "entryPrice", parse), Reading(next, "stopLoss", parse)) ==>
              next == prev[name := Text(value)]
  {
    var newData := prev[name := Text(value)];
    if name == "entryPrice" || name == "stopLoss" then
      var entry := if name == "entryPrice" then parse(value) else Reading(prev, "entryPrice", parse);
      var stop := if name == "stopLoss" then parse(value) else Reading(prev, "stopLoss", parse);
      if Truthy(entry) && Truthy(stop) && entry.value > 0.0 then
        newData["riskPercent" := Number(RiskPercent(entry.value, stop.value))]
      else newData
    else newData
  }

  /** `calculateRR` over the prices the form holds. */
  function CalculateRR(form: Form, parse: string -> Num): (r: Option<real>)
    ensures r.Some? <==> RatioDefined(Reading(form, "entryPrice", parse), Reading(form, "stopLoss", parse),
                                      Reading(form, "targetPrice", parse))
    ensures r.Some? ==> r.value >= 0.0
  {
    DisplayedRatio(Reading(form, "entryPrice", parse), Reading(form, "stopLoss", parse),
                   Reading(form, "targetPrice", parse))
  }

  /** The risk percentage never goes negative, whatever is typed. */
  lemma RiskPercentNonNegative(prev: Form, name: string, value: string, parse: string -> Num)
    requires "riskPercent" in prev ==> prev["riskPercent"].Number? && prev["riskPercent"].x >= 0.0
    requires name != "riskPercent"
    ensures "riskPercent" in HandleChange(prev, name, value, parse) ==>
              HandleChange(prev, name, value, parse)["riskPercent"].Number? &&
              HandleChange(prev, name, value, parse)["riskPercent"].x >= 0.0
  {
  }

  /** Entry 100, then stop 95: a risk of 5 on 100, shown as 5%; with target 115 the ratio shows as 3. */
  lemma Example(prev: Form, parse: string -> Num)
    requires "entryPrice" in prev && prev["entryPrice"] == Text("100")
    requires "targetPrice" in prev && prev["targetPrice"] == Text("115")
    requires parse("100") == Some(100.0) && parse("95") == Some(95.0) && parse("115") == Some(115.0)
    ensures HandleChange(prev, "stopLoss", "95", parse)["riskPercent"] == Number(5.0)
    ensures CalculateRR(HandleChange(prev, "stopLoss", "95", parse), parse) == Some(3.0)
  {
    var next := HandleChange(prev, "stopLoss", "95", parse);
    assert Reading(next, "entryPrice", parse) == Some(100.0);
    assert Reading(next, "stopLoss", parse) == Some(95.0);
    assert Reading(next, "targetPrice", parse) == Some(115.0);
    assert Abs(100.0 - 95.0) / 100.0 * 100.0 == 5.0;
    RoundInteger(500);
    DisplayedRatioExample();
  }
}
