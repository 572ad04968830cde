/**
 * The persistence adapter (`server/database.js`): placeholder rewriting for
 * the networked backend, schema creation with additive migration, and the
 * trade, rule and user tables with their insert, read, update and delete
 * operations, plus the server's copy of the statistics calculation.
 */
module Database {
  import opened Wrappers
  import opened Numbers
  import opened Text
  import opened Journal
  import opened Tables
  import opened Pricing
  import opened Statistics

  // ---------------------------------------------------------------------
  // `convertSql`: the k-th `?` becomes `$k`

  /** The number of `?` placeholders in `s`. */
  function Marks(s: string): nat
    decreases |s|
  {
    if s == [] then 0 else (if s[0] == '?' then 1 else 0) + Marks(s[1..])
  }

  /** What one character of the query becomes when `n` is the counter's value. */
  function Piece(c: char, n: nat): string {
    if c == '?' then "$" + Decimal(n) else [c]
  }

  /**
   * The query with each character written as `piece` of it and the
   * counter, which starts at `k` and moves on after every `?`.
   */
  function Numbered(sql: string, k: nat, piece: (char, nat) -> string): string
    decreases |sql|
  {
    if sql == [] then []
    else piece(sql[0], k) + Numbered(sql[1..], k + (if sql[0] == '?' then 1 else 0), piece)
  }

  /** The query with its placeholders numbered from `k`. */
  function Converted(sql: string, k: nat): string {
    Numbered(sql, k, Piece)
  }

  lemma {:induction false} MarksConcat(a: string, b: string)
    ensures Marks(a + b) == Marks(a) + Marks(b)
    decreases |a|
  {
    if a == [] {
      assert a + b == b;
    } else {
      assert (a + b)[0] == a[0] && (a + b)[1..] == a[1..] + b;
      MarksConcat(a[1..], b);
    }
  }

  /**
   * Numbering is positional: the placeholders of the second half are
   * numbered after those of the first, whatever each character is written as.
   */
  lemma {:induction false} NumberedConcat(a: string, b: string, k: nat, piece: (char, nat) -> string)
    ensures Numbered(a + b, k, piece) == Numbered(a, k, piece) + Numbered(b, k + Marks(a), piece)
    decreases |a|
  {
    if a == [] {
      assert a + b == b;
    } else {
      var c, a' := a[0], a[1..];
      var k' := k + (if c == '?' then 1 else 0);
      assert a == [c] + a';
      assert a + b == [c] + (a' + b);
      NumberedCons(c, a' + b, k, piece);
      NumberedCons(c, a', k, piece);
      NumberedConcat(a', b, k', piece);
      Assoc(piece(c, k), Numbered(a', k', piece), Numbered(b, k' + Marks(a'), piece));
    }
  }

  /** Unfolding `Numbered` at its first character, together with `Marks`. */
  lemma NumberedCons(c: char, s: string, k: nat, piece: (char, nat) -> string)
    ensures Numbered([c] + s, k, piece) == piece(c, k) + Numbered(s, k + (if c == '?' then 1 else 0), piece)
    ensures Marks([c] + s) == (if c == '?' then 1 else 0) + Marks(s)
  {
    var t := [c] + s;
    assert t[0] == c && t[1..] == s;
  }

  /** A query that starts with a placeholder numbered `n`. */
  lemma LeadingMark(b: string, n: nat)
    ensures Converted("?" + b, n) == "$" + Decimal(n) + Converted(b, n + 1)
  {
    var s := "?" + b;
    assert s[0] == '?' && s[1..] == b;
  }

  /** The placeholder after `a` is written `$` followed by the digits of its position. */
  lemma KthPlaceholder(a: string, b: string)
    ensures Converted(a + "?" + b, 1)
         == Converted(a, 1) + ("$" + Decimal(1 + Marks(a)) + Converted(b, 2 + Marks(a)))
  {
    LeadingMark(b, 1 + Marks(a));
    NumberedConcat(a, "?" + b, 1, Piece);
    assert a + "?" + b == a + ("?" + b);
  }

  /** One more character: its piece is numbered after the placeholders before it. */
  lemma ConvertedAppend(s: string, c: char, k: nat)
    ensures Converted(s + [c], k) == Converted(s, k) + Piece(c, k + Marks(s))
    ensures Marks(s + [c]) == Marks(s) + (if c == '?' then 1 else 0)
  {
    NumberedConcat(s, [c], k, Piece);
    MarksConcat(s, [c]);
    assert [c][1..] == [];
  }

  /** Text without placeholders passes through unchanged. */
  lemma {:induction false} ConvertedPlain(sql: string, k: nat)
    requires '?' !in sql
    ensures Converted(sql, k) == sql
    ensures Marks(sql) == 0
    decreases |sql|
  {
    if sql != [] {
      ConvertedPlain(sql[1..], k);
      assert sql == [sql[0]] + sql[1..];
    }
  }

  /** No `?` is left after conversion. */
  lemma {:induction false} ConvertedHasNoMarks(sql: string, k: nat)
    ensures '?' !in Converted(sql, k)
    decreases |sql|
  {
    if sql != [] {
      ConvertedHasNoMarks(sql[1..], k + (if sql[0] == '?' then 1 else 0));
      var digits := Decimal(k);
      assert forall i :: 0 <= i < |digits| ==> digits[i] != '?';
    }
  }

  /** `convertSql`: a counter starting at 1, bumped at every `?`. */
  method ConvertSql(sql: string) returns (text: string)
    ensures text == Converted(sql, 1)
    ensures '?' !in text
  {
    var i := 1;
    var pos := 0;
    text := "";
    while pos < |sql|
      invariant 0 <= pos <= |sql|
      invariant i == 1 + Marks(sql[..pos])
      invariant text == Converted(sql[..pos], 1)
    {
      assert sql[..pos + 1] == sql[..pos] + [sql[pos]];
      ConvertedAppend(sql[..pos], sql[pos], 1);
      if sql[pos] == '?' {
        text := text + "$" + Decimal(i);
        i := i + 1;
      } else {
        text := text + [sql[pos]];
      }
      pos := pos + 1;
    }
    assert sql[..|sql|] == sql;
    ConvertedHasNoMarks(sql, 1);
  }

  // ---------------------------------------------------------------------
  // Schema: `CREATE TABLE IF NOT EXISTS` and the column migrations

  /** The column names of each table, by table name. */
  type Schema = map<string, set<string>>

  const UsersColumns: set<string> := {"id", "username", "password", "createdAt"}

  const RulesColumns: set<string> := {"id", "ruleText", "image", "createdAt"}

  const TradesColumns: set<string> :=
    {"id", "stockName", "date", "patternType", "setupQuality", "marketStage",
     "entryPrice", "stopLoss", "targetPrice", "riskPercent", "status", "result",
     "notes", "chartImage", "createdAt", "updatedAt"}

  /** `CREATE TABLE IF NOT EXISTS`. */
  function CreateIfMissing(s: Schema, table: string, columns: set<string>): (r: Schema)
    ensures r.Keys == s.Keys + {table}
    ensures forall t :: t in s ==> r[t] == s[t]
    ensures table !in s ==> r[table] == columns
  {
    if table in s then s else s[table := columns]
  }

  /** The migration check: add the column only when the table lacks it. */
  function AddColumnIfMissing(s: Schema, table: string, column: string): (r: Schema)
    requires table in s
    ensures r.Keys == s.Keys
    ensures r[table] == s[table] + {column}
    ensures forall t :: t in s && t != table ==> r[t] == s[t]
  {
    if column in s[table] then s else s[table := s[table] + {column}]
  }

  /** The schema after `setupDatabase`: it has the three tables besides any it had. */
  function SetUp(s: Schema): (r: Schema)
    ensures r.Keys == s.Keys + {"users", "trading_rules", "trades"}
  {
    var withUsers := CreateIfMissing(s, "users", UsersColumns);
    var withRules := CreateIfMissing(withUsers, "trading_rules", RulesColumns);
    var created := CreateIfMissing(withRules, "trades", TradesColumns);
    var migrated := AddColumnIfMissing(created, "trades", "marketStage");
    AddColumnIfMissing(migrated, "trading_rules", "image")
  }

  lemma TableNamesDistinct()
    ensures "users" != "trading_rules" && "users" != "trades" && "trades" != "trading_rules"
  {
  }

  /** On a fresh database each table is created with its full list of columns. */
  lemma SetUpCreates(s: Schema)
    ensures "users" !in s ==> SetUp(s)["users"] == UsersColumns
    ensures "trading_rules" !in s ==> SetUp(s)["trading_rules"] == RulesColumns
    ensures "trades" !in s ==> SetUp(s)["trades"] == TradesColumns
    ensures "marketStage" in SetUp(s)["trades"] && "image" in SetUp(s)["trading_rules"]
  {
    TableNamesDistinct();
    assert "marketStage" in TradesColumns && "image" in RulesColumns;
  }

  /**
   * A table that existed keeps every column it had, and the only columns
   * added to an existing table are `marketStage` on trades and `image` on
   * rules.
   */
  lemma SetUpKeeps(s: Schema)
    ensures forall t :: t in s ==> s[t] <= SetUp(s)[t]
    ensures "trades" in s ==> SetUp(s)["trades"] == s["trades"] + {"marketStage"}
    ensures "trading_rules" in s ==> SetUp(s)["trading_rules"] == s["trading_rules"] + {"image"}
    ensures forall t :: t in s && t != "trades" && t != "trading_rules" ==> SetUp(s)[t] == s[t]
  {
    TableNamesDistinct();
  }

  /** Running the setup a second time changes nothing. */
  lemma SetUpIdempotent(s: Schema)
    ensures SetUp(SetUp(s)) == SetUp(s)
  {
    var r := SetUp(s);
    SetUpCreates(s);
    SetUpKeeps(r);
    assert forall t :: t in r ==> SetUp(r)[t] == r[t];
  }

  // ---------------------------------------------------------------------
  // Tables

  /** The errors the table operations raise. */
  datatype DbError =
    | UsernameExists        // rethrown as 'Username already exists'
    | ConstraintViolation   // a primary-key collision, passed on as the driver's error

  function Message(e: DbError): Option<string> {
    match e
    case UsernameExists => Some("Username already exists")
    case ConstraintViolation => None
  }

  predicate UsernameTaken(users: seq<User>, username: string) {
    exists i :: 0 <= i < |users| && users[i].data.username == username
  }

  /** The `UNIQUE` constraint on `users.username`. */
  ghost predicate UniqueUsernames(users: seq<User>) {
    forall i, j :: 0 <= i < j < |users| ==> users[i].data.username != users[j].data.username
  }

  /** The rows `updateTrade` leaves: the row with that id overwritten, the others untouched. */
  function UpdatedTrades(rows: seq<Trade>, id: string, t: TradeInput, updatedAt: string): (r: seq<Trade>)
    ensures |r| == |rows|
    ensures forall i :: 0 <= i < |rows| ==> r[i].id == rows[i].id
    ensures forall i :: 0 <= i < |rows| && rows[i].id == id ==> r[i] == Overwrite(rows[i], t, updatedAt)
    ensures forall i :: 0 <= i < |rows| && rows[i].id != id ==> r[i] == rows[i]
  {
    UpdateWhere(rows, id, (row: Trade) => Overwrite(row, t, updatedAt))
  }

  /** A created trade reads back with the submitted fields and the server's defaults. */
  lemma CreatedTradeReadsBack(rows: seq<Trade>, id: string, t: TradeInput, createdAt: string)
    requires !HasId(rows, id)
    ensures Find(rows + [NewTrade(id, t, createdAt)], id).Some?
    ensures Submitted(Find(rows + [NewTrade(id, t, createdAt)], id).value.data) == Filled(t)
  {
    FindAppended(rows, NewTrade(id, t, createdAt));
  }

  /** An updated trade reads back with the new fields and its original id and creation time. */
  lemma UpdatedTradeReadsBack(rows: seq<Trade>, id: string, t: TradeInput, updatedAt: string)
    requires UniqueIds(rows) && HasId(rows, id)
    ensures Find(UpdatedTrades(rows, id, t, updatedAt), id).Some?
    ensures Submitted(Find(UpdatedTrades(rows, id, t, updatedAt), id).value.data) == Filled(t)
    ensures Find(UpdatedTrades(rows, id, t, updatedAt), id).value.data.createdAt
         == Find(rows, id).value.data.createdAt
  {
    var k := FirstIndex(rows, id);
    var r := UpdatedTrades(rows, id, t, updatedAt);
    assert r[k] == Overwrite(rows[k], t, updatedAt);
    assert UniqueIds(r);
    FindUnique(r, k);
    FindUnique(rows, k);
  }

  /**
   * A trade row as the PostgreSQL driver returns it. The trades table is
   * created with unquoted camelCase column names, which PostgreSQL folds to
   * lower case, and the driver's rows are passed on as they are; so reading
   * `entryPrice`, `stopLoss` or `targetPrice` of the row gives `undefined`,
   * whose `parseFloat` is NaN: falsy, like a missing price. `status` and
   * `result` are lower case already and read back unchanged.
   */
  function FoldedRow(t: Trade): (r: Trade)
    ensures r.id == t.id && r.data.status == t.data.status && r.data.result == t.data.result
    ensures !Qualifies(r)
  {
    t.(data := t.data.(entryPrice := None, stopLoss := None, targetPrice := None))
  }

  /** The rows `getAllTrades` hands to `getStats` on the given backend. */
  function ReadRows(postgres: bool, rows: seq<Trade>): (r: seq<Trade>)
    ensures |r| == |rows|
    ensures forall i :: 0 <= i < |rows| ==> r[i] == if postgres then FoldedRow(rows[i]) else rows[i]
    decreases |rows|
  {
    if !postgres || rows == [] then rows
    else ReadRows(true, rows[..|rows| - 1]) + [FoldedRow(rows[|rows| - 1])]
  }

  /** One more row read back on PostgreSQL. */
  lemma FoldedSnoc(rows: seq<Trade>, t: Trade)
    ensures ReadRows(true, rows + [t]) == ReadRows(true, rows) + [FoldedRow(t)]
  {
    assert (rows + [t])[..|rows|] == rows;
  }

  /** A filter that folding does not affect commutes with reading the rows back on PostgreSQL. */
  lemma {:induction false} FoldedFilter(rows: seq<Trade>, p: Trade -> bool)
    requires forall t :: p(FoldedRow(t)) == p(t)
    ensures Filter(ReadRows(true, rows), p) == ReadRows(true, Filter(rows, p))
    decreases |rows|
  {
    if rows != [] {
      var init, last := rows[..|rows| - 1], rows[|rows| - 1];
      assert rows == init + [last];
      FoldedSnoc(init, last);
      FilterSnoc(ReadRows(true, init), FoldedRow(last), p);
      FilterSnoc(init, last, p);
      FoldedFilter(init, p);
      if p(last) {
        FoldedSnoc(Filter(init, p), last);
      }
    }
  }

  /** No row read back on PostgreSQL has a risk:reward. */
  lemma {:induction false} FoldedRRCount(rows: seq<Trade>)
    ensures RRCount(ReadRows(true, rows)) == 0
    decreases |rows|
  {
    if rows != [] {
      var init, last := rows[..|rows| - 1], rows[|rows| - 1];
      assert rows == init + [last];
      FoldedSnoc(init, last);
      var r := ReadRows(true, rows);
      assert r[..|r| - 1] == ReadRows(true, init);
      FoldedRRCount(init);
    }
  }

  /**
   * On PostgreSQL `getStats` counts the trades, wins and losses as on SQLite,
   * and the win rate is the same, but no trade enters the average risk:reward,
   * which is therefore always 0.
   */
  lemma PostgresStats(rows: seq<Trade>)
    ensures StatsOf(ReadRows(true, rows)) == StatsOf(rows).(avgRR := 0.0)
  {
    FoldedFilter(rows, IsClosed);
    FoldedFilter(Closed(rows), IsWin);
    FoldedFilter(Closed(rows), IsLoss);
    FoldedRRCount(rows);
  }

  /** The statistics of the rows as read back, on either backend. */
  lemma StatsRead(postgres: bool, rows: seq<Trade>)
    ensures !postgres ==> StatsOf(ReadRows(postgres, rows)) == StatsOf(rows)
    ensures postgres ==> StatsOf(ReadRows(postgres, rows)) == StatsOf(rows).(avgRR := 0.0)
  {
    if postgres {
      PostgresStats(rows);
    }
  }

  /**
   * The database: the rows of the three tables, the column sets of the
   * schema, and which backend runs it. The backend decides how a colliding
   * user id is reported and under which names the trades' columns are read
   * back.
   */
  class Store {
    const postgres: bool
    var schema: Schema
    var users: seq<User>
    var rules: seq<Rule>
    var trades: seq<Trade>

    /** Primary keys are unique in every table, and user names are unique. */
    ghost predicate Valid()
      reads this
    {
      UniqueIds(users) && UniqueIds(rules) && UniqueIds(trades) && UniqueUsernames(users)
    }

    /** An existing database file or server, with its (possibly legacy) schema and the rows it holds. */
    constructor (postgres: bool, schema: Schema, users: seq<User>, rules: seq<Rule>, trades: seq<Trade>)
      requires UniqueIds(users) && UniqueIds(rules) && UniqueIds(trades) && UniqueUsernames(users)
      ensures Valid()
      ensures this.postgres == postgres && this.schema == schema
      ensures this.users == users && this.rules == rules && this.trades == trades
    {
      this.postgres := postgres;
      this.schema := schema;
      this.users, this.rules, this.trades := users, rules, trades;
    }

    /** `setupDatabase`: create the missing tables, then add the missing columns. */
    method SetupDatabase()
      requires Valid()
      modifies this
      ensures Valid()
      ensures schema == SetUp(old(schema))
      ensures users == old(users) && rules == old(rules) && trades == old(trades)
    {
      schema := CreateIfMissing(schema, "users", UsersColumns);
      schema := CreateIfMissing(schema, "trading_rules", RulesColumns);
      schema := CreateIfMissing(schema, "trades", TradesColumns);
      schema := AddColumnIfMissing(schema, "trades", "marketStage");
      schema := AddColumnIfMissing(schema, "trading_rules", "image");
    }

    /**
     * `registerUser`: insert a user unless the name is taken. A taken name
     * fails with 'Username already exists' on both backends; a colliding id
     * is a primary-key violation, which the SQLite driver reports under its
     * own code (passed on) and PostgreSQL under the same code as a taken name.
     */
    method RegisterUser(username: string, hashedPassword: string, id: string, createdAt: string)
      returns (r: Result<string, DbError>)
      requires Valid()
      modifies this
      ensures Valid()
      ensures UsernameTaken(old(users), username) ==> r == Failure(UsernameExists) && users == old(users)
      ensures UsernameTaken(old(users), username) ==> r.Failure? && Message(r.error) == Some("Username already exists")
      ensures !UsernameTaken(old(users), username) && HasId(old(users), id) ==>
                r == Failure(if postgres then UsernameExists else ConstraintViolation) && users == old(users)
      ensures !UsernameTaken(old(users), username) && !HasId(old(users), id) ==>
                r == Success(id) && users == old(users) + [Row(id, UserData(username, hashedPassword, createdAt))]
      ensures rules == old(rules) && trades == old(trades) && schema == old(schema)
    {
      if UsernameTaken(users, username) {
        r := Failure(UsernameExists);
      } else if HasId(users, id) {
        r := Failure(if postgres then UsernameExists else ConstraintViolation);
      } else {
        var row := Row(id, UserData(username, hashedPassword, createdAt));
        UniqueAppend(users, row);
        users := users + [row];
        r := Success(id);
      }
    }

    /** `createTrade`: insert the submitted trade under a fresh id. */
    method CreateTrade(t: TradeInput, id: string, createdAt: string) returns (r: Result<string, DbError>)
      requires Valid()
      modifies this
      ensures Valid()
      ensures HasId(old(trades), id) ==> r == Failure(ConstraintViolation) && trades == old(trades)
      ensures !HasId(old(trades), id) ==>
                r == Success(id) && trades == old(trades) + [NewTrade(id, t, createdAt)]
      ensures users == old(users) && rules == old(rules) && schema == old(schema)
    {
      if HasId(trades, id) {
        r := Failure(ConstraintViolation);
      } else {
        UniqueAppend(trades, NewTrade(id, t, createdAt));
        trades := trades + [NewTrade(id, t, createdAt)];
        r := Success(id);
      }
    }

    /** `getTrade`: the row with that id, `None` for undefined. */
    function GetTrade(id: string): (r: Option<Trade>)
      reads this
      requires Valid()
      ensures r.Some? <==> HasId(trades, id)
      ensures r.Some? ==> r.value in trades && r.value.id == id
      ensures forall k :: 0 <= k < |trades| && trades[k].id == id ==> r == Some(trades[k])
    {
      var r := Find(trades, id);
      assert forall k :: 0 <= k < |trades| ==> Find(trades, trades[k].id) == Some(trades[k]) by {
        forall k | 0 <= k < |trades| ensures Find(trades, trades[k].id) == Some(trades[k]) {
          FindUnique(trades, k);
        }
      }
      r
    }

    /** `updateTrade`: overwrite the row with that id; true iff a row changed. */
    method UpdateTrade(id: string, t: TradeInput, updatedAt: string) returns (changed: bool)
      requires Valid()
      modifies this
      ensures Valid()
      ensures changed == HasId(old(trades), id)
      ensures trades == UpdatedTrades(old(trades), id, t, updatedAt)
      ensures users == old(users) && rules == old(rules) && schema == old(schema)
    {
      var changes := |Matching(trades, id)|;
      trades := UpdatedTrades(trades, id, t, updatedAt);
      changed := changes > 0;
    }

    /** `deleteTrade`: delete the row with that id; true iff a row was deleted. */
    method DeleteTrade(id: string) returns (deleted: bool)
      requires Valid()
      modifies this
      ensures Valid()
      ensures deleted == HasId(old(trades), id)
      ensures trades == RemoveById(old(trades), id)
      ensures users == old(users) && rules == old(rules) && schema == old(schema)
    {
      var before := trades;
      UniqueRemove(before, id);
      trades := RemoveById(trades, id);
      var changes := |before| - |trades|;
      deleted := changes > 0;
    }

    /** `addRule`: insert the submitted rule under a fresh id. */
    method AddRule(input: RuleInput, id: string, createdAt: string) returns (r: Result<string, DbError>)
      requires Valid()
      modifies this
      ensures Valid()
      ensures HasId(old(rules), id) ==> r == Failure(ConstraintViolation) && rules == old(rules)
      ensures !HasId(old(rules), id) ==>
                r == Success(id) && rules == old(rules) + [NewRule(id, input, createdAt)]
      ensures users == old(users) && trades == old(trades) && schema == old(schema)
    {
      if HasId(rules, id) {
        r := Failure(ConstraintViolation);
      } else {
        UniqueAppend(rules, NewRule(id, input, createdAt));
        rules := rules + [NewRule(id, input, createdAt)];
        r := Success(id);
      }
    }

    /** `deleteRule`: delete the rule with that id; true iff a row was deleted. */
    method DeleteRule(id: string) returns (deleted: bool)
      requires Valid()
      modifies this
      ensures Valid()
      ensures deleted == HasId(old(rules), id)
      ensures rules == RemoveById(old(rules), id)
      ensures users == old(users) && trades == old(trades) && schema == old(schema)
    {
      var before := rules;
      UniqueRemove(before, id);
      rules := RemoveById(rules, id);
      var changes := |before| - |rules|;
      deleted := changes > 0;
    }

    /** The server's `getStats`, over the rows of the trades table. */
    method GetStats() returns (s: Stats)
      ensures s == StatsOf(ReadRows(postgres, trades))
      ensures !postgres ==> s == StatsOf(trades)
      ensures postgres ==> s == StatsOf(trades).(avgRR := 0.0)
    {
      var all := ReadRows(postgres, trades);
      var totalRR := 0.0;
      var rrCount := 0;
      var i := 0;
      while i < |all|
        invariant 0 <= i <= |all|
        invariant totalRR == RRSum(all[..i])
        invariant rrCount == RRCount(all[..i])
      {
        var trade := all[i];
        var entry, stop, target := trade.data.entryPrice, trade.data.stopLoss, trade.data.targetPrice;
        RRStep(all, i);
        if Truthy(entry) && Truthy(stop) && Truthy(target) && entry.value != stop.value {
          var risk := Abs(entry.value - stop.value);
          var reward := Abs(target.value - entry.value);
          RiskPositive(entry, stop, target);
          ContributionOf(trade);
          if risk > 0.0 {
            totalRR := totalRR + reward / risk;
            rrCount := rrCount + 1;
          }
          assert totalRR == RRSum(all[..i + 1]);
        }
        i := i + 1;
      }
      assert all[..|all|] == all;

      var total := |all|;
      var executed := Filter(all, IsClosed);
      var wins := |Filter(executed, IsWin)|;
      var losses := |Filter(executed, IsLoss)|;
      FilterDisjoint(executed, IsWin, IsLoss);
      var winRate := WinRate(wins, |executed|);
      var avgRR := AvgRR(totalRR, rrCount);
      s := Stats(total, wins, losses, winRate, avgRR);
      StatsRead(postgres, trades);
    }
  }

  /** Registering one name twice: the first call inserts a row, the second fails and inserts none. */
  method RegisterTwice(store: Store, username: string, password1: string, password2: string,
                       id1: string, id2: string, createdAt: string)
    returns (first: Result<string, DbError>, second: Result<string, DbError>)
    requires store.Valid()
    requires !UsernameTaken(store.users, username) && !HasId(store.users, id1)
    modifies store
    ensures store.Valid()
    ensures first == Success(id1)
    ensures second == Failure(UsernameExists)
    ensures |store.users| == |old(store.users)| + 1
  {
    first := store.RegisterUser(username, password1, id1, createdAt);
    assert store.users[|store.users| - 1].data.username == username;
    second := store.RegisterUser(username, password2, id2, createdAt);
  }
}
