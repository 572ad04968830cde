# Trade journal: a verified model of its rules

The trade journal keeps a list of planned and closed stock trades. Each trade has an entry price, a stop loss, a target, a status and a result. The server is Express over SQLite or PostgreSQL, and the client is React. This project models the deterministic rules of that system in Dafny and proves what they promise:

- **Statistics** (`getStats`), which the server and the client each compute in their own copy of the loop: counts, win rate over Closed trades, and the average risk:reward over the trades whose prices define one. Both loops are proved equal to one specification, `Statistics.StatsOf`, which does not depend on the order of the trades.
- **Per-trade arithmetic** on the entry form and the detail screen: risk percentage, risk:reward, and the risk and reward amounts, each with its "not defined" (`'-'`) case.
- **The database** as three tables of rows keyed by `id`, plus a schema:
  - placeholder rewriting for PostgreSQL (`?` becomes `$1`, `$2`, …);
  - the defaults filled in on insert and update;
  - the "a row existed" results of update and delete;
  - the unique user name;
  - the additive column migration.
- **The client cache** of trades and its updates after each API call.
- **The trade list's** filters, sort and sort-column toggle, with the sort done in place on an array.
- **The server's request gate** (`authenticateToken`) and the check on a registration body.

Prices are exact reals. `parseFloat` is read as `Option<real>`, with `None` for NaN, and JavaScript truthiness of a price means "`Some` and non-zero". `toFixed(d)` is modelled exactly, as rounding half away from zero at `d` places. Dates are day numbers, so they compare chronologically.

Files:

- `wrappers.dfy`: `Option`, `Result`, `Outcome`.
- `numbers.dfy`: parsed numbers, truthiness, `toFixed`.
- `text.dfy`: string `<`, `split`/`join`, and decimal digits.
- `journal.dfy`: trade, rule and user rows, and the submitted bodies.
- `tables.dfy`: generic table operations.
- `pricing.dfy`: risk, reward and ratio.
- `statistics.dfy`: `getStats` as a specification.
- `database.dfy`: `server/database.js`.
- `trades_context.dfy`: `src/context/TradesContext.jsx`.
- `trades_list.dfy`: `src/components/TradesList.jsx`.
- `trade_form.dfy`: `src/components/TradeForm.jsx`.
- `trade_detail.dfy`: `src/components/TradeDetail.jsx`.
- `server.dfy`: `server/index.js`.

Where the code and the documented behaviour differ, the model follows the code:

- **Empty `Authorization` header.** It yields the empty string as the token, which is not `null`, so it is handed to the verifier and answered with 403 rather than 401.
- **Colliding `id` on registration** (ids come from `Date.now()`). SQLite reports this as a primary-key error that is passed on unchanged. PostgreSQL reports it under the same code as a taken name, so it surfaces as "Username already exists".
- **Average risk:reward on PostgreSQL.** The trades table's camelCase column names are unquoted, so PostgreSQL stores them in lower case, and the driver's rows are passed on as they are. `getStats` then reads every price as `undefined`, so no trade enters the average and `avgRR` is 0 whatever the trades are. Counts and the win rate do not change, because `status` and `result` are lower case already.

## Model

| member | source | states |
|---|---|---|
| Numbers.ToFixed1 | server/database.js:293 | `toFixed(1)` read back lies within 0.05 of the value; a non-negative value stays non-negative |
| Numbers.ToFixed2 | server/database.js:313 | `toFixed(2)` read back lies within 0.005 of the value; a non-negative value stays non-negative |
| Numbers.ToFixed1Percentage | server/database.js:293 | rounding a percentage in [0, 100] to one place stays in [0, 100] |
| Numbers.ToFixed2Idempotent | src/components/TradeForm.jsx:67-68 | parsing a two-place string and rounding it to two places again changes nothing |
| Text.LexLessIrreflexive | src/components/TradesList.jsx:64-65 | no string is `<` itself |
| Text.LexLessTransitive | src/components/TradesList.jsx:64-65 | string `<` is transitive |
| Text.LexLessConnected | src/components/TradesList.jsx:64-65 | of two different strings one is `<` the other |
| Text.LexLessAsymmetric | src/components/TradesList.jsx:64-65 | two strings are never each `<` the other |
| Text.Split | server/index.js:32 | `split(' ')` gives at least one part and no part holds the separator; joining the parts gives the input back; there is more than one part exactly when the separator occurs |
| Text.SplitAfterPiece | server/index.js:32 | a separator-free prefix followed by the separator splits off as the first part |
| Text.SplitJoin | server/index.js:32 | splitting undoes joining separator-free parts |
| Text.DecimalRoundTrip | server/database.js:24 | the digits written for a counter denote that counter |
| Journal.Filled | server/database.js:223-231 | a blank market stage, notes or chart image becomes `''` and a blank result becomes `'-'`; every non-blank field is kept, and no field other than those four changes, so a complete submission is unchanged |
| Journal.FilledIdempotent | server/database.js:223-231 | filling the defaults of an already filled submission changes nothing, so a trade saved again unchanged keeps its fields |
| Journal.NewTrade | server/database.js:205-236 | the inserted row has the given id and creation time, no update time, and the submitted fields with their defaults |
| Journal.Overwrite | server/database.js:238-276 | an update keeps the id and creation time, sets the update time, and overwrites every submitted field with the insert defaults |
| Journal.NewRule | server/database.js:327-339 | rule text is `ruleText`, else `rule`, else empty; the image is NULL exactly when the submitted image is blank |
| Tables.Filter | src/components/TradesList.jsx:38-49 | `filter` keeps each element that passes as often as it occurs and drops the rest; it never lengthens the list, keeps it whole when all pass and shortens it when one fails |
| Tables.FilterConcat | src/context/TradesContext.jsx:64 | filtering a concatenation filters each half, so the survivors keep their order |
| Tables.FilterDisjoint | server/database.js:291-292 | two exclusive filters keep at most the whole list between them |
| Tables.FirstIndex | src/context/TradesContext.jsx:72 | the index found holds the id, and no earlier row does |
| Tables.Find | src/context/TradesContext.jsx:71-73 | `find` gives undefined exactly when no row has the id, and otherwise the first row that does |
| Tables.Matching | server/database.js:257 | the rows a `WHERE id = ?` touches are non-empty exactly when a row has the id |
| Tables.RemoveById | server/database.js:281-285 | after deleting by id no row has it, every other row keeps its multiplicity, and nothing changes when no row had it |
| Tables.UpdateWhere | src/context/TradesContext.jsx:52-54 | the length is kept; the rows with the id are replaced and the others are untouched |
| Tables.UniqueAppend | server/database.js:83 | a row with a fresh key keeps the primary key unique |
| Tables.UniqueRemove | server/database.js:281-285 | deleting keeps the primary key unique |
| Tables.UniqueFilter | server/database.js:281-285 | keeping any subset of the rows keeps the primary key unique |
| Tables.FindUnique | server/database.js:200-203 | under a unique key, the lookup of a row's key finds that row |
| Tables.FindAppended | server/database.js:205-236 | a row inserted under a fresh key is found by it |
| Tables.FindUpdated | server/database.js:238-279 | after updating the row with a key, looking the key up finds the updated row |
| Pricing.Ratio | server/database.js:304-307 | risk:reward is non-negative and, multiplied by the risk, gives the reward |
| Pricing.DisplayedRatio | src/components/TradeForm.jsx:111-122 | risk:reward is shown exactly when all three prices are truthy and the entry differs from the stop; it is then non-negative and within 0.005 of reward / risk |
| Pricing.DisplayedRatioExample | src/components/TradeForm.jsx:116-119 | entry 100, stop 95, target 115 shows 3 |
| Pricing.RiskPositive | server/database.js:303-306 | when the guard passes the risk is positive, so the inner `risk > 0` test never fails |
| Statistics.Contribution | server/database.js:303-309 | a trade adds a non-negative amount to `totalRR`, and nothing unless its ratio is defined |
| Statistics.RRCountFilter | server/database.js:296-308 | `rrCount` is the number of trades whose ratio is defined |
| Statistics.RRSum | server/database.js:295-311 | `totalRR` is never negative |
| Statistics.WinRate | server/database.js:293 | the win rate lies in [0, 100], is 0 without Closed trades, and is otherwise within 0.05 of wins / Closed × 100 |
| Statistics.AvgRR | server/database.js:313 | the average risk:reward is non-negative, 0 without qualifying trades, and otherwise within 0.005 of the mean |
| Statistics.StatsOf | server/database.js:287-316 | total counts every trade; wins and losses are the numbers of Closed trades whose result is Win and Loss; the win rate lies in [0, 100], within 0.05 of wins / Closed × 100, and is 0 without Closed trades; the average risk:reward is ≥ 0, within 0.005 of the sum of the qualifying trades' ratios over their number, and 0 without qualifying trades |
| Statistics.RRSumConcat | server/database.js:298-311 | `totalRR` over two lists is the sum of their totals |
| Statistics.RRStep | server/database.js:298-311 | one more trade adds its contribution to `totalRR` and, if it qualifies, one to `rrCount` |
| Statistics.ContributionOf | server/database.js:304-307 | a qualifying trade contributes `|target − entry| / |entry − stop|` |
| Statistics.RRSumPermutation | server/database.js:196 | `totalRR` does not depend on the order of the rows |
| Statistics.FilterPermutation | server/database.js:290-292 | filters of two permutations hold the same elements and have the same length |
| Statistics.StatsPermutation | server/database.js:196 | the statistics depend only on which trades there are, not on the `ORDER BY` |
| Statistics.NonQualifyingIgnored | server/database.js:303 | a trade whose ratio is undefined, inserted anywhere, leaves `rrCount`, `totalRR` and the average as they were |
| Statistics.FlatTradeIgnored | server/database.js:303 | a trade with entry equal to stop leaves the average risk:reward as it was |
| Statistics.StatsPrepend | src/context/TradesContext.jsx:41 | one more trade raises the total by one, and `rrCount` and the Closed count by at most one |
| Database.NumberedConcat | server/database.js:22-25 | placeholders are numbered by position: those of the second half of a query come after those of the first |
| Database.LeadingMark | server/database.js:24 | a leading `?` numbered `n` becomes `$n`, and the rest is numbered from `n + 1` |
| Database.KthPlaceholder | server/database.js:22-25 | the `?` that follows `k − 1` others becomes `$k`, with the text before it converted and the text after it numbered from `k + 1` |
| Database.ConvertedAppend | server/database.js:24 | one more character is written after the text so far, numbered after its placeholders |
| Database.ConvertedPlain | server/database.js:24 | text without `?` is left unchanged |
| Database.ConvertedHasNoMarks | server/database.js:24 | no `?` survives the conversion |
| Database.ConvertSql | server/database.js:22-25 | the counter loop produces the positional numbering, and the result has no `?` |
| Database.CreateIfMissing | server/database.js:63-100 | `CREATE TABLE IF NOT EXISTS` adds the table with its columns only when it is absent; other tables are untouched |
| Database.AddColumnIfMissing | server/database.js:122-134 | the migration leaves the table with its old columns plus the new one, and every other table as it was |
| Database.SetUp | server/database.js:102-135 | after setup the three tables exist alongside any others |
| Database.SetUpCreates | server/database.js:63-100 | a missing table is created with all its columns, and `marketStage` and `image` are always present afterwards |
| Database.SetUpKeeps | server/database.js:122-134 | an existing table keeps every column it had; only `marketStage` on trades and `image` on rules are added; others are untouched |
| Database.SetUpIdempotent | server/database.js:122-134 | running the setup twice gives the same schema as running it once |
| Database.UpdatedTrades | server/database.js:238-279 | the rows with the id are overwritten and every other row is untouched; length and ids are kept |
| Database.CreatedTradeReadsBack | server/database.js:200-236 | `getTrade(createTrade(t))` gives t's fields with the defaults filled |
| Database.UpdatedTradeReadsBack | server/database.js:200-279 | after `updateTrade`, `getTrade` gives the new fields with the defaults and the original creation time |
| Database.Store.constructor | server/database.js:48 | an opened database has the given (possibly legacy) schema and the rows it already holds, whose keys and user names are unique |
| Database.Store.SetupDatabase | server/database.js:102-135 | `setupDatabase` applies the setup to the schema and touches no rows |
| Database.Store.RegisterUser | server/database.js:173-192 | a taken name fails with an error whose message is "Username already exists" and inserts nothing; a colliding id fails as its driver reports it; otherwise the user is appended; names and keys stay unique |
| Database.Store.CreateTrade | server/database.js:205-236 | the trade is appended under its id, or a colliding id fails and inserts nothing |
| Database.Store.GetTrade | server/database.js:200-203 | the lookup finds the row with the id exactly when one exists |
| Database.Store.UpdateTrade | server/database.js:238-279 | the result is true exactly when a row had the id; the table becomes the overwritten rows; other tables are untouched |
| Database.Store.DeleteTrade | server/database.js:281-285 | the result is true exactly when a row had the id; the table is left without it |
| Database.Store.AddRule | server/database.js:327-339 | the rule is appended under its id with its text and image defaults |
| Database.Store.DeleteRule | server/database.js:342-346 | the result is true exactly when a rule had the id; the table is left without it |
| Database.Store.GetStats | server/database.js:287-316 | the server's loop computes `StatsOf` of the rows as read back; on SQLite that is `StatsOf` of the table, on PostgreSQL the same with an average risk:reward of 0 |
| Database.FoldedRow | server/database.js:84-99 | a trade row read back through the PostgreSQL driver keeps its id, status and result but reads as having no entry, stop or target price, so it never enters the average |
| Database.ReadRows | server/database.js:36-37 | the rows `getAllTrades` returns are the stored rows on SQLite and the folded rows on PostgreSQL, one for one |
| Database.PostgresStats | server/database.js:297-315 | on PostgreSQL the statistics equal those of the stored rows except that the average risk:reward is 0 |
| Database.RegisterTwice | server/database.js:66 | registering one name twice inserts one row and fails the second time with "Username already exists" |
| TradesContext.ReplaceById | src/context/TradesContext.jsx:52-54 | the length is kept; every element with the id becomes the server's copy and the others are unchanged |
| TradesContext.RemoveKeepsOrder | src/context/TradesContext.jsx:64 | deletion keeps the survivors in their relative order |
| TradesContext.TradesCache.constructor | src/context/TradesContext.jsx:15-17 | the cache starts empty, loading, without error |
| TradesContext.TradesCache.LoadTrades | src/context/TradesContext.jsx:24-36 | on success the list is replaced; on failure it is kept and the error is "Failed to load trades"; loading ends either way |
| TradesContext.TradesCache.AddTrade | src/context/TradesContext.jsx:38-47 | the new trade goes in front of the old list and its id is returned; a failed call leaves the list and is rethrown |
| TradesContext.TradesCache.UpdateTrade | src/context/TradesContext.jsx:49-59 | the elements with the id become the server's copy; a failed call leaves the list and is rethrown |
| TradesContext.TradesCache.DeleteTrade | src/context/TradesContext.jsx:61-69 | the elements with the id are removed; a failed call leaves the list and is rethrown |
| TradesContext.TradesCache.GetTrade | src/context/TradesContext.jsx:71-73 | the first element with the id, undefined exactly when there is none |
| TradesContext.TradesCache.GetStats | src/context/TradesContext.jsx:75-110 | the client's loop computes `StatsOf` of the cached list, the same function the server's loop computes |
| TradesContext.CreateMirrored | src/context/TradesContext.jsx:41 | a cache holding the table's trades in any order gives the table's statistics after the same trade is created on both sides |
| TradesContext.DeleteMirrored | src/context/TradesContext.jsx:64 | the same after the same id is deleted on both sides |
| TradesContext.AddedTradeFound | src/context/TradesContext.jsx:41 | the trade just added is what `getTrade` of its id finds |
| TradesContext.UpdatedTradeFound | src/context/TradesContext.jsx:52-54 | after an update `getTrade` finds the server's copy |
| TradesContext.FirstIndexCharacterised | src/context/TradesContext.jsx:72 | `find` stops at the first match |
| TradesList.ClearFilters | src/components/TradesList.jsx:82-89 | clearing sets all four filters to empty |
| TradesList.VisibleExactly | src/components/TradesList.jsx:38-49 | a trade is shown exactly when it is in the list and passes every filter that is set |
| TradesList.ClearedShowsAll | src/components/TradesList.jsx:82-89 | with the filters cleared every trade is shown, in order |
| TradesList.DashResultIgnored | src/components/TradesList.jsx:41 | a result filter of `-` is the same as none |
| TradesList.DateRangeInclusive | src/components/TradesList.jsx:44-49 | a trade dated on the start date passes the start filter step, and one dated on the end date passes the end filter step, with every copy kept |
| TradesList.EmptyDateRange | src/components/TradesList.jsx:44-49 | a start after the end shows nothing |
| TradesList.HandleFilterChange | src/components/TradesList.jsx:22-25 | only the named filter changes |
| TradesList.FilterChangesCommute | src/components/TradesList.jsx:22-25 | changes to different filters commute |
| TradesList.LastFilterChangeWins | src/components/TradesList.jsx:24 | of two changes to one filter the later wins |
| TradesList.SettingFilterNarrows | src/components/TradesList.jsx:38-49 | setting an empty filter can only hide trades |
| TradesList.HandleSort | src/components/TradesList.jsx:27-32 | the key becomes the clicked column; the direction becomes descending exactly when that column was already ascending |
| TradesList.SecondClickFlips | src/components/TradesList.jsx:30 | a second click on the same column flips the direction |
| TradesList.ClicksAlternate | src/components/TradesList.jsx:27-32 | repeated clicks on one column alternate between two states |
| TradesList.FirstDateClickAscends | src/components/TradesList.jsx:17-20 | from the initial newest-first state, a click on date sorts oldest first |
| TradesList.Compare | src/components/TradesList.jsx:64-66 | the comparator is −1, 0 or 1; it is 0 exactly when neither value is `<` the other; otherwise its sign follows the direction |
| TradesList.DescendingReversesAscending | src/components/TradesList.jsx:64-65 | descending is ascending negated |
| TradesList.CompareAntisymmetric | src/components/TradesList.jsx:64-66 | swapping the arguments negates the comparator |
| TradesList.KeyLessAsymmetric | src/components/TradesList.jsx:53-65 | `<` on a column is asymmetric |
| TradesList.BeforeMeans | src/components/TradesList.jsx:64-66 | ascending, a may stand before b unless b < a; descending, unless a < b |
| TradesList.BeforeTotal | src/components/TradesList.jsx:64-66 | any two placeable trades are ordered one way or the other |
| TradesList.NotLessTransitive | src/components/TradesList.jsx:53-65 | "not less" on a column is transitive when the values parse |
| TradesList.BeforeTransitive | src/components/TradesList.jsx:52-67 | the comparator's order is transitive on placeable trades |
| TradesList.SortedByDate | src/components/TradesList.jsx:56-58 | sorted by date means oldest first ascending and newest first descending |
| TradesList.SortedByPrice | src/components/TradesList.jsx:59-62 | sorted by a price column means cheapest first ascending and dearest first descending |
| TradesList.InsertStep | src/components/TradesList.jsx:52-67 | swapping an out-of-order neighbour advances the insertion and keeps the contents |
| TradesList.InsertDone | src/components/TradesList.jsx:52-67 | once the left neighbour may precede it, the element is in place and the prefix is sorted |
| TradesList.SortInPlace | src/components/TradesList.jsx:52-67 | the in-place sort leaves the array ordered by the comparator and a permutation of what it held |
| TradesList.Insert | src/components/TradesList.jsx:52-67 | one insertion pass extends the sorted prefix by one and keeps the contents |
| TradesList.FilteredAndSorted | src/components/TradesList.jsx:34-70 | the list shown is a permutation of the trades that pass the filters, ordered by the sort |
| TradesList.Narrow | src/components/TradesList.jsx:35-49 | the narrowed copy holds each trade that passes all filters as often as the list does, and no other |
| TradesList.ByPattern | src/components/TradesList.jsx:38-40 | the pattern filter keeps exactly the matching trades, or all when unset |
| TradesList.ByResult | src/components/TradesList.jsx:41-43 | the result filter keeps exactly the matching trades, or all when unset or `-` |
| TradesList.ByStart | src/components/TradesList.jsx:44-46 | the start filter keeps exactly the trades on or after the date, or all when unset |
| TradesList.ByEnd | src/components/TradesList.jsx:47-49 | the end filter keeps exactly the trades on or before the date, or all when unset |
| TradesList.VisibleMultiset | src/components/TradesList.jsx:38-49 | the step-by-step narrowing holds the same trades as the one-step filter |
| TradesList.ShownAreKeyed | src/components/TradesList.jsx:59-62 | the shown trades can be placed by the column when every passing trade can |
| TradeForm.RiskPercent | src/components/TradeForm.jsx:66-68 | the risk percentage is non-negative and within 0.005 of `|entry − stop| / entry × 100` |
| TradeForm.HandleChange | src/components/TradeForm.jsx:56-74 | the named field takes the value and every other field is kept except possibly `riskPercent`; that is recomputed only on an entry or stop edit whose prices pass the guard, and otherwise kept |
| TradeForm.CalculateRR | src/components/TradeForm.jsx:111-122 | the form's ratio is shown exactly when its prices define one, and is non-negative |
| TradeForm.RiskPercentNonNegative | src/components/TradeForm.jsx:63-68 | edits never make the risk percentage negative |
| TradeForm.Example | src/components/TradeForm.jsx:63-68 | entry 100 and stop 95 give a risk of 5 %; with target 115 the ratio is 3 |
| TradeDetail.CalculateRR | src/components/TradeDetail.jsx:34-45 | the ratio is shown exactly for the trades that enter the average, and is that ratio to two places |
| TradeDetail.RiskAmount | src/components/TradeDetail.jsx:47-51 | defined exactly when entry and stop parse; non-negative and within 0.005 of `|entry − stop|` |
| TradeDetail.RewardAmount | src/components/TradeDetail.jsx:53-57 | defined exactly when entry and target parse; non-negative and within 0.005 of `|target − entry|` |
| TradeDetail.RatioIsRewardOverRisk | src/components/TradeDetail.jsx:39-57 | when the ratio is shown both amounts are too, the risk is positive, and the ratio is reward / risk rounded |
| TradeDetail.AgreesWithForm | src/components/TradeDetail.jsx:34-45 | the detail screen shows the ratio the form showed for the same prices |
| Server.Token | server/index.js:31-32 | no header gives no token; an empty header gives the empty token; otherwise a token exists exactly when the header has a space, and it has no space in it |
| Server.TokenIsSecondPart | server/index.js:32 | the token is the text after the first space up to the next |
| Server.BearerToken | server/index.js:32 | `Bearer <token>` hands over exactly the token |
| Server.AuthenticateToken | server/index.js:25-41 | public paths pass without a token; no token gives 401 Unauthorized; a rejected token gives 403 Forbidden; a request passes a protected path only with the verifier's claims |
| Server.ValidBearerPasses | server/index.js:36-39 | a valid bearer token passes with its claims |
| Server.PassingNeedsVerifiedToken | server/index.js:36-39 | passing a protected path needs claims the verifier produced |
| Server.MissingTokenUnauthorized | server/index.js:31-34 | a missing header, or one without a space, gives 401 whatever the verifier says |
| Server.EmptyHeaderForbidden | server/index.js:32-37 | an empty header reaches the verifier and, rejected, gives 403 |
| Server.ValidateRegister | server/index.js:49-51 | registration is refused with 400 "Username and password required" exactly when either field is missing or empty |

## Left out

- Password hashing (bcrypt) and token signing and verification (jsonwebtoken) are foreign libraries. Verification is a parameter, `verify`, that yields the claims or nothing.
- `Date.now()` ids and `new Date().toISOString()` timestamps are the clock. They are parameters of the operations that use them.
- The SQLite and PostgreSQL drivers are left out: the connection pool, SSL, `PRAGMA`/`ALTER` execution and the SQL text. Tables are sequences of rows and the schema is a map from table names to column sets. The storage order is arbitrary, so `ORDER BY date DESC` in `getAllTrades` is not modelled; `Statistics.StatsPermutation` shows the statistics do not depend on it.
- The route handlers in `server/index.js` beyond the gate and the registration check are left out. They call the asynchronous database functions without `await` (lines 56, 67, 98, 109, 124-125, 136, 151, 166, 175, 184), so their 404 and duplicate branches never take effect as written. `GET /api/trades` (lines 98-99), `GET /api/trades/:id` (lines 109-113) and `GET /api/rules` (lines 166-167) answer `data: <Promise>`, which JSON serialises as `{}`. In particular `POST /api/trades` (lines 124-126) and `PUT /api/trades/:id` (lines 136-141) answer `data: getTrade(<Promise>)`, which JSON serialises as `{}`; nothing awaits the lookup `getTrade` starts with a Promise as its id, so an error it raises is an unhandled rejection. As written the client therefore caches `{}` as the new or updated trade, and the premises of `TradesContext.CreateMirrored` and `TradesContext.UpdatedTradeFound` (the server answers with the stored row) do not hold; those lemmas state what the code does once the handlers await the database functions.
- TradesContext.TradesCache.LoadTrades: its success case, the server sending the list of trades, is what `GET /api/trades` would send once it awaits `getAllTrades`; as written it sends `{}` (server/index.js:98-99), which the client caches, and its `getStats` then fails at `{}.filter`. Before that, `apiCall` sends no `Authorization` header (src/services/api.js:4-12) although `AuthContext` keeps the token, so as written the gate answers every protected request with 401 and loading takes its failure case.
- Database.Store.GetTrade: the row is returned with the column names of the SQLite backend. On PostgreSQL the driver's rows carry the folded lower-case names, so a client reading `stockName`, `entryPrice` and the other camelCase fields of a row from `getTrade` or `getAllTrades` finds them undefined; only the effect of this on `getStats` is modelled (`Database.Store.GetStats`, `Database.PostgresStats`).
- TradesContext.CreateMirrored: its premise that the server answers with the stored row is what the create handler would send once it awaits `createTrade` and `getTrade`; as written it sends `{}` (server/index.js:124-126).
- TradesContext.UpdatedTradeFound: likewise its premise is the update handler's answer once awaited; as written it sends `{}` (server/index.js:136-141).
- `src/services/api.js` and `src/context/AuthContext.jsx` are network and browser storage I/O. An API call enters the cache methods as its outcome.
- Rendering, routing and the other screens are UI only.
- `parseFloat` on arbitrary strings is not modelled. Stored prices are already `Option<real>`. The form reads its text fields through a `parse` parameter.
- `new Date(...)` parsing of strings and invalid dates are not modelled. Dates are day numbers.
- IEEE-754 doubles are replaced by exact reals. `toFixed` is exact rounding half away from zero, so binary representation errors near a half are not modelled.
- Database.Store.CreateTrade: the columns declared `NOT NULL` (server/database.js:84-93: stockName, date, patternType, setupQuality, entryPrice, stopLoss, targetPrice, riskPercent, status) are mandatory fields of `TradeInput`, so the driver's error for a body that leaves one out, and the 500 answer it leads to, are not modelled. A stored price that is `None` denotes a value the form could not parse, not a SQL `NULL`.
- Database.Store.UpdateTrade: the same `NOT NULL` constraint is carried by the mandatory fields of `TradeInput`, so the error path of an update that clears one of those columns is not modelled.
- Statistics.StatsOf: `winRate` and `avgRR` are strings produced by `toFixed`, or the number 0, in the source. The model returns the numbers those strings denote.
- TradesList.SortInPlace: requires every element to be placeable by the column, because with a NaN price JavaScript's comparator is inconsistent and the resulting order is not defined. Stability of `sort`, which JavaScript guarantees, is not stated.
- TradesList.FilteredAndSorted: requires, for a price column, that every trade passing the filters has a parseable price, for the same reason.
- TradesList.KeyLess: string `<` compares characters, not UTF-16 code units.
- Pricing.DisplayedRatio: the string `toFixed(2)` returns is modelled as the rounded number, and `'-'` as `None`. The same holds for `TradeDetail.RiskAmount` and `TradeDetail.RewardAmount`, whose NaN output is `None`.
