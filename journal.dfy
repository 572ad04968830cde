/**
 * The journal's records: trades, trading rules and users as rows of the
 * three tables `trades`, `trading_rules` and `users`, and the body a
 * client submits to create or edit a trade or to add a rule.
 */
module Journal {
  import opened Wrappers
  import opened Numbers

  /** A calendar date as a day number, so that dates compare chronologically. */
  type Date = int

  /** A table row: its primary key `id` and the remaining columns. */
  datatype Row<T> = Row(id: string, data: T)

  datatype TradeData = TradeData(
    stockName: string,
    date: Date,
    patternType: string,
    setupQuality: string,
    marketStage: string,
    entryPrice: Num,
    stopLoss: Num,
    targetPrice: Num,
    riskPercent: real,
    status: string,
    result: string,
    notes: string,
    chartImage: string,
    createdAt: string,
    updatedAt: Option<string>)

  type Trade = Row<TradeData>

  datatype RuleData = RuleData(ruleText: string, image: Option<string>, createdAt: string)

  type Rule = Row<RuleData>

  /** A user; `password` holds the bcrypt hash, never the plain text. */
  datatype UserData = UserData(username: string, password: string, createdAt: string)

  type User = Row<UserData>

  /** A trade as submitted: the optional fields may be missing (`None`) or empty. */
  datatype TradeInput = TradeInput(
    stockName: string,
    date: Date,
    patternType: string,
    setupQuality: string,
    marketStage: Option<string>,
    entryPrice: Num,
    stopLoss: Num,
    targetPrice: Num,
    riskPercent: real,
    status: string,
    result: Option<string>,
    notes: Option<string>,
    chartImage: Option<string>)

  /** A rule as submitted: the text may come as `ruleText` or as the older `rule`. */
  datatype RuleInput = RuleInput(ruleText: Option<string>, rule: Option<string>, image: Option<string>)

  /** A missing or empty string: what JavaScript's `||` replaces by its right operand. */
  predicate Blank(o: Option<string>) {
    o.None? || o.value == ""
  }

  /** `o || d` for an optional string `o`. */
  function OrElse(o: Option<string>, d: string): string {
    if Blank(o) then d else o.value
  }

  /** A submission in which no optional field is missing or empty. */
  predicate Complete(t: TradeInput) {
    !Blank(t.marketStage) && !Blank(t.result) && !Blank(t.notes) && !Blank(t.chartImage)
  }

  /** The submission with the defaults the server stores for missing fields. */
  function Filled(t: TradeInput): (f: TradeInput)
    ensures Complete(t) ==> f == t
    ensures !Blank(f.marketStage) || f.marketStage == Some("")
    ensures !Blank(f.notes) || f.notes == Some("")
    ensures !Blank(f.chartImage) || f.chartImage == Some("")
    ensures !Blank(f.result)
    ensures Blank(t.marketStage) ==> f.marketStage == Some("")
    ensures Blank(t.result) ==> f.result == Some("-")
    ensures Blank(t.notes) ==> f.notes == Some("")
    ensures Blank(t.chartImage) ==> f.chartImage == Some("")
    ensures !Blank(t.marketStage) ==> f.marketStage == t.marketStage
    ensures !Blank(t.result) ==> f.result == t.result
    ensures !Blank(t.notes) ==> f.notes == t.notes
    ensures !Blank(t.chartImage) ==> f.chartImage == t.chartImage
    ensures f.(marketStage := t.marketStage, result := t.result, notes := t.notes, chartImage := t.chartImage) == t
  {
    t.(marketStage := Some(OrElse(t.marketStage, "")),
       result := Some(OrElse(t.result, "-")),
       notes := Some(OrElse(t.notes, "")),
       chartImage := Some(OrElse(t.chartImage, "")))
  }

  /** The submitted fields of a stored trade, read back as a submission. */
  function Submitted(d: TradeData): TradeInput {
    TradeInput(d.stockName, d.date, d.patternType, d.setupQuality, Some(d.marketStage),
               d.entryPrice, d.stopLoss, d.targetPrice, d.riskPercent, d.status,
               Some(d.result), Some(d.notes), Some(d.chartImage))
  }

  function Columns(t: TradeInput, createdAt: string, updatedAt: Option<string>): TradeData {
    TradeData(t.stockName, t.date, t.patternType, t.setupQuality, OrElse(t.marketStage, ""),
              t.entryPrice, t.stopLoss, t.targetPrice, t.riskPercent, t.status,
              OrElse(t.result, "-"), OrElse(t.notes, ""), OrElse(t.chartImage, ""),
              createdAt, updatedAt)
  }

  /**
   * The row `createTrade` inserts: the submitted fields with their defaults,
   * the given id and creation time, and no update time.
   */
  function NewTrade(id: string, t: TradeInput, createdAt: string): (r: Trade)
    ensures r.id == id && r.data.createdAt == createdAt && r.data.updatedAt == None
    ensures Submitted(r.data) == Filled(t)
    ensures Complete(t) ==> Submitted(r.data) == t
  {
    Row(id, Columns(t, createdAt, None))
  }

  /**
   * The row `updateTrade` leaves: every submitted field overwritten with the
   * same defaults as on insert, the id and creation time kept, the update
   * time set.
   */
  function Overwrite(row: Trade, t: TradeInput, updatedAt: string): (r: Trade)
    ensures r.id == row.id && r.data.createdAt == row.data.createdAt
    ensures r.data.updatedAt == Some(updatedAt)
    ensures Submitted(r.data) == Filled(t)
  {
    Row(row.id, Columns(t, row.data.createdAt, Some(updatedAt)))
  }

  /** Filling the defaults twice is filling them once. */
  lemma FilledIdempotent(t: TradeInput)
    ensures Filled(Filled(t)) == Filled(t)
  {
  }

  /**
   * The row `addRule` inserts: the text is `ruleText`, else `rule`, else
   * empty; a blank image is stored as NULL.
   */
  function NewRule(id: string, input: RuleInput, createdAt: string): (r: Rule)
    ensures r.id == id && r.data.createdAt == createdAt
    ensures !Blank(input.ruleText) ==> r.data.ruleText == input.ruleText.value
    ensures Blank(input.ruleText) && !Blank(input.rule) ==> r.data.ruleText == input.rule.value
    ensures Blank(input.ruleText) && Blank(input.rule) ==> r.data.ruleText == ""
    ensures r.data.image.None? <==> Blank(input.image)
    ensures r.data.image.Some? ==> r.data.image == input.image
  {
    var text := if !Blank(input.ruleText) then input.ruleText.value else OrElse(input.rule, "");
    Row(id, RuleData(text, if Blank(input.image) then None else input.image, createdAt))
  }
}
