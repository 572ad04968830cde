/**
 * The trade list screen (`TradesList`): four optional, conjunctive filters,
 * a sort by one column in either direction, and the header click that
 * picks or flips the sort column.
 */
module TradesList {
  import opened Wrappers
  import opened Numbers
  import opened Text
  import opened Journal
  import opened Tables

  // ---------------------------------------------------------------------
  // Filters

  /**
   * The filter inputs. An empty text field, or a missing date, filters
   * nothing.
   */
  datatype Filters = Filters(patternType: string, result: string, startDate: Option<Date>, endDate: Option<Date>)

  /** The cleared filters, which are also the initial ones. */
  function ClearFilters(): (f: Filters)
    ensures f.patternType == "" && f.result == ""
    ensures f.startDate.None? && f.endDate.None?
  {
    Filters("", "", None, None)
  }

  predicate PatternMatches(f: Filters, t: Trade) {
    f.patternType == "" || t.data.patternType == f.patternType
  }

  /** The result filter; `-` (the placeholder option) filters nothing, like the empty string. */
  predicate ResultMatches(f: Filters, t: Trade) {
    f.result == "" || f.result == "-" || t.data.result == f.result
  }

  predicate StartMatches(f: Filters, t: Trade) {
    f.startDate.None? || t.data.date >= f.startDate.value
  }

  predicate EndMatches(f: Filters, t: Trade) {
    f.endDate.None? || t.data.date <= f.endDate.value
  }

  /** A trade passes when it passes every filter that is set. */
  predicate Matches(f: Filters, t: Trade) {
    PatternMatches(f, t) && ResultMatches(f, t) && StartMatches(f, t) && EndMatches(f, t)
  }

  /** The trades the list shows, before sorting. */
  function Visible(ts: seq<Trade>, f: Filters): seq<Trade> {
    Filter(ts, (t: Trade) => Matches(f, t))
  }

  /** An element is shown exactly when it is in the list and passes the filters. */
  lemma VisibleExactly(ts: seq<Trade>, f: Filters, t: Trade)
    ensures t in Visible(ts, f) <==> t in ts && Matches(f, t)
  {
    assert t in Visible(ts, f) <==> multiset(Visible(ts, f))[t] > 0;
    assert t in ts <==> multiset(ts)[t] > 0;
  }

  /** With the filters cleared every trade is shown, in the original order. */
  lemma ClearedShowsAll(ts: seq<Trade>)
    ensures Visible(ts, ClearFilters()) == ts
  {
    assert forall i :: 0 <= i < |ts| ==> Matches(ClearFilters(), ts[i]);
  }

  /** Choosing `-` as the result filter is the same as clearing it. */
  lemma DashResultIgnored(f: Filters, t: Trade)
    ensures Matches(f.(result := "-"), t) == Matches(f.(result := ""), t)
  {
  }

  /** Both ends of the date range are inclusive: a trade dated on a bound survives that bound's filter step. */
  lemma DateRangeInclusive(ts: seq<Trade>, f: Filters, t: Trade)
    ensures f.startDate == Some(t.data.date) ==> StartMatches(f, t) && multiset(ByStart(ts, f))[t] == multiset(ts)[t]
    ensures f.endDate == Some(t.data.date) ==> EndMatches(f, t) && multiset(ByEnd(ts, f))[t] == multiset(ts)[t]
  {
  }

  /** A date range whose start is after its end shows nothing. */
  lemma EmptyDateRange(ts: seq<Trade>, f: Filters)
    requires f.startDate.Some? && f.endDate.Some? && f.startDate.value > f.endDate.value
    ensures Visible(ts, f) == []
  {
    var v := Visible(ts, f);
    assert forall t :: multiset(v)[t] == 0;
    assert multiset(v) == multiset{};
    assert |multiset(v)| == |v|;
  }

  /** What one change of a filter input carries. */
  datatype FilterChange =
    | SetPattern(pattern: string)
    | SetResult(result: string)
    | SetStart(start: Option<Date>)
    | SetEnd(end: Option<Date>)

  /** `handleFilterChange`: the named filter takes the new value; the others stay. */
  function HandleFilterChange(prev: Filters, change: FilterChange): (f: Filters)
    ensures change.SetPattern? ==> f.patternType == change.pattern
    ensures change.SetResult? ==> f.result == change.result
    ensures change.SetStart? ==> f.startDate == change.start
    ensures change.SetEnd? ==> f.endDate == change.end
    ensures !change.SetPattern? ==> f.patternType == prev.patternType
    ensures !change.SetResult? ==> f.result == prev.result
    ensures !change.SetStart? ==> f.startDate == prev.startDate
    ensures !change.SetEnd? ==> f.endDate == prev.endDate
  {
    match change
    case SetPattern(p) => prev.(patternType := p)
    case SetResult(r) => prev.(result := r)
    case SetStart(d) => prev.(startDate := d)
    case SetEnd(d) => prev.(endDate := d)
  }

  /** Which filter a change is aimed at. */
  function Target(change: FilterChange): nat {
    match change
    case SetPattern(_) => 0
    case SetResult(_) => 1
    case SetStart(_) => 2
    case SetEnd(_) => 3
  }

  /** Changes to different filters can be made in either order. */
  lemma FilterChangesCommute(f: Filters, c: FilterChange, d: FilterChange)
    requires Target(c) != Target(d)
    ensures HandleFilterChange(HandleFilterChange(f, c), d) == HandleFilterChange(HandleFilterChange(f, d), c)
  {
  }

  /** A second change to the same filter overrides the first. */
  lemma LastFilterChangeWins(f: Filters, c: FilterChange, d: FilterChange)
    requires Target(c) == Target(d)
    ensures HandleFilterChange(HandleFilterChange(f, c), d) == HandleFilterChange(f, d)
  {
  }

  /** Setting a filter that was empty can only hide trades. */
  lemma SettingFilterNarrows(ts: seq<Trade>, f: Filters, change: FilterChange)
    requires change.SetPattern? ==> f.patternType == ""
    requires change.SetResult? ==> f.result == "" || f.result == "-"
    requires change.SetStart? ==> f.startDate.None?
    requires change.SetEnd? ==> f.endDate.None?
    ensures multiset(Visible(ts, HandleFilterChange(f, change))) <= multiset(Visible(ts, f))
    ensures |Visible(ts, HandleFilterChange(f, change))| <= |Visible(ts, f)|
  {
    var g := HandleFilterChange(f, change);
    assert forall t :: Matches(g, t) ==> Matches(f, t);
    assert forall t :: multiset(Visible(ts, g))[t] <= multiset(Visible(ts, f))[t];
    MultisetSubsetSize(multiset(Visible(ts, g)), multiset(Visible(ts, f)));
  }

  lemma MultisetSubsetSize<T>(a: multiset<T>, b: multiset<T>)
    requires a <= b
    ensures |a| <= |b|
  {
    assert b == a + (b - a);
  }

  // ---------------------------------------------------------------------
  // Sorting

  datatype SortKey = ByStock | ByPattern | ByEntry | ByStop | ByTarget | ByResult | ByDate

  datatype Direction = Asc | Desc

  datatype SortConfig = SortConfig(key: SortKey, direction: Direction)

  /** The initial sort: newest first. */
  const InitialSort: SortConfig := SortConfig(ByDate, Desc)

  /** `handleSort`: a click on the current ascending column flips it to descending; any other click sorts ascending by that column. */
  function HandleSort(prev: SortConfig, key: SortKey): (c: SortConfig)
    ensures c.key == key
    ensures c.direction == Desc <==> prev.key == key && prev.direction == Asc
  {
    SortConfig(key, if prev.key == key && prev.direction == Asc then Desc else Asc)
  }

  /** Clicking the same column again flips the direction. */
  lemma SecondClickFlips(prev: SortConfig, key: SortKey)
    ensures HandleSort(HandleSort(prev, key), key).direction != HandleSort(prev, key).direction
  {
  }

  /** Clicking one column repeatedly alternates between two states. */
  lemma ClicksAlternate(prev: SortConfig, key: SortKey)
    ensures HandleSort(HandleSort(HandleSort(prev, key), key), key) == HandleSort(prev, key)
  {
  }

  /** From the initial state, a first click on the date column sorts oldest first. */
  lemma FirstDateClickAscends()
    ensures HandleSort(InitialSort, ByDate) == SortConfig(ByDate, Asc)
  {
  }

  predicate IsPriceKey(k: SortKey) {
    k == ByEntry || k == ByStop || k == ByTarget
  }

  function PriceOf(k: SortKey, t: Trade): Num
    requires IsPriceKey(k)
  {
    match k
    case ByEntry => t.data.entryPrice
    case ByStop => t.data.stopLoss
    case ByTarget => t.data.targetPrice
  }

  function TextOf(k: SortKey, t: Trade): string
    requires !IsPriceKey(k) && k != ByDate
  {
    match k
    case ByStock => t.data.stockName
    case ByPattern => t.data.patternType
    case ByResult => t.data.result
  }

  /** `<` on two parsed prices: false whenever either is NaN. */
  predicate NumLess(x: Num, y: Num) {
    x.Some? && y.Some? && x.value < y.value
  }

  /** `aVal < bVal` for the column `k`: dates chronologically, prices numerically, text as strings. */
  predicate KeyLess(k: SortKey, a: Trade, b: Trade) {
    if k == ByDate then a.data.date < b.data.date
    else if IsPriceKey(k) then NumLess(PriceOf(k, a), PriceOf(k, b))
    else LexLess(TextOf(k, a), TextOf(k, b))
  }

  /** The comparator passed to `sort`: negative when `a` goes first. */
  function Compare(c: SortConfig, a: Trade, b: Trade): (r: int)
    ensures -1 <= r <= 1
    ensures r == 0 <==> !KeyLess(c.key, a, b) && !KeyLess(c.key, b, a)
    ensures KeyLess(c.key, a, b) ==> (r < 0 <==> c.direction == Asc)
  {
    if KeyLess(c.key, a, b) then (if c.direction == Asc then -1 else 1)
    else if KeyLess(c.key, b, a) then (if c.direction == Asc then 1 else -1)
    else 0
  }

  /** Descending order is ascending order reversed. */
  lemma DescendingReversesAscending(k: SortKey, a: Trade, b: Trade)
    ensures Compare(SortConfig(k, Desc), a, b) == -Compare(SortConfig(k, Asc), a, b)
  {
  }

  /** The comparator is antisymmetric. */
  lemma CompareAntisymmetric(c: SortConfig, a: Trade, b: Trade)
    ensures Compare(c, a, b) == -Compare(c, b, a)
  {
    if !IsPriceKey(c.key) && c.key != ByDate {
      LexLessAsymmetric(TextOf(c.key, a), TextOf(c.key, b));
    }
  }

  /** A trade that can be placed by `k`: for a price column, its price parses. */
  predicate Keyed(k: SortKey, t: Trade) {
    IsPriceKey(k) ==> PriceOf(k, t).Some?
  }

  /** `a` may stand before `b`. */
  predicate Before(c: SortConfig, a: Trade, b: Trade) {
    Compare(c, a, b) <= 0
  }

  /** `<` on one column is asymmetric. */
  lemma KeyLessAsymmetric(k: SortKey, a: Trade, b: Trade)
    ensures !(KeyLess(k, a, b) && KeyLess(k, b, a))
  {
    if !IsPriceKey(k) && k != ByDate {
      LexLessAsymmetric(TextOf(k, a), TextOf(k, b));
    }
  }

  /** Ascending, `a` may stand before `b` unless `b < a`; descending, unless `a < b`. */
  lemma BeforeMeans(c: SortConfig, a: Trade, b: Trade)
    ensures Before(c, a, b) <==> if c.direction == Asc then !KeyLess(c.key, b, a) else !KeyLess(c.key, a, b)
  {
    KeyLessAsymmetric(c.key, a, b);
  }

  lemma BeforeTotal(c: SortConfig, a: Trade, b: Trade)
    requires Keyed(c.key, a) && Keyed(c.key, b)
    ensures Before(c, a, b) || Before(c, b, a)
  {
    CompareAntisymmetric(c, a, b);
  }

  /** `!(b < a)`, for one column, is transitive. */
  lemma {:induction false} NotLessTransitive(k: SortKey, a: Trade, b: Trade, c: Trade)
    requires Keyed(k, a) && Keyed(k, b) && Keyed(k, c)
    requires !KeyLess(k, b, a) && !KeyLess(k, c, b)
    ensures !KeyLess(k, c, a)
  {
    if !IsPriceKey(k) && k != ByDate {
      var x, y, z := TextOf(k, a), TextOf(k, b), TextOf(k, c);
      if LexLess(z, x) {
        if y == z {
        } else if y == x {
        } else {
          LexLessConnected(y, z);
          if LexLess(y, z) {
            LexLessTransitive(y, z, x);
          } else {
            LexLessConnected(x, y);
            if LexLess(x, y) {
              LexLessTransitive(z, x, y);
            } else {
              LexLessTransitive(z, x, y);
            }
          }
        }
      }
    }
  }

  lemma BeforeTransitive(c: SortConfig, a: Trade, b: Trade, d: Trade)
    requires Keyed(c.key, a) && Keyed(c.key, b) && Keyed(c.key, d)
    requires Before(c, a, b) && Before(c, b, d)
    ensures Before(c, a, d)
  {
    BeforeMeans(c, a, b);
    BeforeMeans(c, b, d);
    BeforeMeans(c, a, d);
    if c.direction == Asc {
      NotLessTransitive(c.key, a, b, d);
    } else {
      NotLessTransitive(c.key, d, b, a);
    }
  }

  /** Ordered by the comparator: no later element should come before an earlier one. */
  ghost predicate Sorted(s: seq<Trade>, c: SortConfig) {
    forall i, j :: 0 <= i < j < |s| ==> Before(c, s[i], s[j])
  }

  /** By date, ascending means oldest first and descending newest first. */
  lemma SortedByDate(s: seq<Trade>, d: Direction, i: nat, j: nat)
    requires Sorted(s, SortConfig(ByDate, d)) && i < j < |s|
    ensures d == Asc ==> s[i].data.date <= s[j].data.date
    ensures d == Desc ==> s[i].data.date >= s[j].data.date
  {
    assert Before(SortConfig(ByDate, d), s[i], s[j]);
  }

  /** By a price column, ascending means cheapest first and descending dearest first. */
  lemma SortedByPrice(s: seq<Trade>, c: SortConfig, i: nat, j: nat)
    requires IsPriceKey(c.key) && Sorted(s, c) && i < j < |s|
    requires Keyed(c.key, s[i]) && Keyed(c.key, s[j])
    ensures c.direction == Asc ==> PriceOf(c.key, s[i]).value <= PriceOf(c.key, s[j]).value
    ensures c.direction == Desc ==> PriceOf(c.key, s[i]).value >= PriceOf(c.key, s[j]).value
  {
    assert Before(c, s[i], s[j]);
  }

  ghost predicate AllKeyed(s: seq<Trade>, k: SortKey) {
    forall i :: 0 <= i < |s| ==> Keyed(k, s[i])
  }

  /** The first `n` elements are in order. */
  ghost predicate SortedPrefix(s: seq<Trade>, c: SortConfig, n: nat) {
    n <= |s| && forall p, q :: 0 <= p < q < n ==> Before(c, s[p], s[q])
  }

  /**
   * Midway through inserting `s[j]` into the ordered prefix `s[..i + 1]`:
   * leaving `s[j]` out the prefix is in order, and `s[j]` may stand before
   * everything after it.
   */
  ghost predicate Inserting(s: seq<Trade>, c: SortConfig, i: nat, j: nat) {
    j <= i < |s| &&
    (forall p, q :: 0 <= p < q <= i && p != j && q != j ==> Before(c, s[p], s[q])) &&
    (forall q :: j < q <= i ==> Before(c, s[j], s[q]))
  }

  /** Swapping `s[j]` with its left neighbour when that neighbour should follow it. */
  lemma InsertStep(s: seq<Trade>, c: SortConfig, i: nat, j: nat)
    requires AllKeyed(s, c.key) && Inserting(s, c, i, j)
    requires 0 < j && Compare(c, s[j - 1], s[j]) > 0
    ensures AllKeyed(s[j - 1 := s[j]][j := s[j - 1]], c.key)
    ensures Inserting(s[j - 1 := s[j]][j := s[j - 1]], c, i, j - 1)
    ensures multiset(s[j - 1 := s[j]][j := s[j - 1]]) == multiset(s)
  {
    BeforeTotal(c, s[j - 1], s[j]);
  }

  /** Once the neighbour on the left may stand before it, `s[j]` is in place. */
  lemma InsertDone(s: seq<Trade>, c: SortConfig, i: nat, j: nat)
    requires AllKeyed(s, c.key) && Inserting(s, c, i, j)
    requires j == 0 || Compare(c, s[j - 1], s[j]) <= 0
    ensures SortedPrefix(s, c, i + 1)
  {
    forall p | 0 <= p < j - 1
      ensures Before(c, s[p], s[j])
    {
      BeforeTransitive(c, s[p], s[j - 1], s[j]);
    }
  }

  /**
   * The in-place `sort` with the comparator, as an insertion sort. Every
   * element must be placeable by the column: NaN prices make the
   * comparator inconsistent, and the order `sort` then produces is not
   * defined.
   */
  method SortInPlace(a: array<Trade>, c: SortConfig)
    requires forall k :: 0 <= k < a.Length ==> Keyed(c.key, a[k])
    modifies a
    ensures Sorted(a[..], c)
    ensures multiset(a[..]) == multiset(old(a[..]))
  {
    var i := 0;
    while i < a.Length
      invariant 0 <= i <= a.Length
      invariant multiset(a[..]) == multiset(old(a[..]))
      invariant AllKeyed(a[..], c.key) && SortedPrefix(a[..], c, i)
    {
      Insert(a, i, c);
      i := i + 1;
    }
  }

  /** One pass of the insertion sort: `a[i]` moves left past the elements that should follow it. */
  method Insert(a: array<Trade>, i: nat, c: SortConfig)
    requires i < a.Length
    requires AllKeyed(a[..], c.key) && SortedPrefix(a[..], c, i)
    modifies a
    ensures AllKeyed(a[..], c.key) && SortedPrefix(a[..], c, i + 1)
    ensures multiset(a[..]) == multiset(old(a[..]))
  {
    var j := i;
    while j > 0 && Compare(c, a[j - 1], a[j]) > 0
      invariant 0 <= j <= i
      invariant multiset(a[..]) == multiset(old(a[..]))
      invariant AllKeyed(a[..], c.key) && Inserting(a[..], c, i, j)
    {
      InsertStep(a[..], c, i, j);
      a[j - 1], a[j] := a[j], a[j - 1];
      j := j - 1;
    }
    InsertDone(a[..], c, i, j);
  }

  /**
   * `filteredAndSortedTrades`: a copy of the list narrowed by each filter
   * that is set, then sorted. The input list is a value and stays as it was.
   */
  method FilteredAndSorted(trades: seq<Trade>, f: Filters, c: SortConfig) returns (shown: seq<Trade>)
    requires forall k :: 0 <= k < |trades| && Matches(f, trades[k]) ==> Keyed(c.key, trades[k])
    ensures multiset(shown) == multiset(Visible(trades, f))
    ensures Sorted(shown, c)
  {
    var filtered := Narrow(trades, f);
    VisibleMultiset(trades, f, filtered);
    ShownAreKeyed(trades, f, filtered, c.key);

    var a := new Trade[|filtered|];
    var k := 0;
    while k < |filtered|
      invariant 0 <= k <= |filtered| == a.Length
      invariant a[..k] == filtered[..k]
    {
      a[k] := filtered[k];
      k := k + 1;
    }
    assert a[..] == filtered[..|filtered|] == filtered;
    SortInPlace(a, c);
    shown := a[..];
  }

  /** The filtering steps: each filter that is set narrows the copy in turn. */
  method Narrow(trades: seq<Trade>, f: Filters) returns (filtered: seq<Trade>)
    ensures forall t :: multiset(filtered)[t] == if Matches(f, t) then multiset(trades)[t] else 0
  {
    filtered := trades;
    filtered := ByPattern(filtered, f);
    filtered := ByResult(filtered, f);
    filtered := ByStart(filtered, f);
    filtered := ByEnd(filtered, f);
  }

  /** `if (filters.patternType) filtered = filtered.filter(...)`. */
  function ByPattern(ts: seq<Trade>, f: Filters): (r: seq<Trade>)
    ensures forall t :: multiset(r)[t] == if PatternMatches(f, t) then multiset(ts)[t] else 0
  {
    if f.patternType != "" then Filter(ts, (t: Trade) => t.data.patternType == f.patternType) else ts
  }

  /** `if (filters.result && filters.result !== '-') filtered = filtered.filter(...)`. */
  function ByResult(ts: seq<Trade>, f: Filters): (r: seq<Trade>)
    ensures forall t :: multiset(r)[t] == if ResultMatches(f, t) then multiset(ts)[t] else 0
  {
    if f.result != "" && f.result != "-" then Filter(ts, (t: Trade) => t.data.result == f.result) else ts
  }

  /** `if (filters.startDate) filtered = filtered.filter(...)`. */
  function ByStart(ts: seq<Trade>, f: Filters): (r: seq<Trade>)
    ensures forall t :: multiset(r)[t] == if StartMatches(f, t) then multiset(ts)[t] else 0
  {
    if f.startDate.Some? then Filter(ts, (t: Trade) => t.data.date >= f.startDate.value) else ts
  }

  /** `if (filters.endDate) filtered = filtered.filter(...)`. */
  function ByEnd(ts: seq<Trade>, f: Filters): (r: seq<Trade>)
    ensures forall t :: multiset(r)[t] == if EndMatches(f, t) then multiset(ts)[t] else 0
  {
    if f.endDate.Some? then Filter(ts, (t: Trade) => t.data.date <= f.endDate.value) else ts
  }

  /** A list holding each trade as often as the list does when it passes the filters, and otherwise not at all, has the shown trades. */
  lemma VisibleMultiset(trades: seq<Trade>, f: Filters, filtered: seq<Trade>)
    requires forall t :: multiset(filtered)[t] == if Matches(f, t) then multiset(trades)[t] else 0
    ensures multiset(filtered) == multiset(Visible(trades, f))
  {
    assert forall t :: multiset(Visible(trades, f))[t] == if Matches(f, t) then multiset(trades)[t] else 0;
  }

  /** The shown trades can all be placed by a column when every trade that passes the filters can. */
  lemma ShownAreKeyed(trades: seq<Trade>, f: Filters, filtered: seq<Trade>, key: SortKey)
    requires forall k :: 0 <= k < |trades| && Matches(f, trades[k]) ==> Keyed(key, trades[k])
    requires forall t :: multiset(filtered)[t] == if Matches(f, t) then multiset(trades)[t] else 0
    ensures AllKeyed(filtered, key)
  {
    forall k | 0 <= k < |filtered|
      ensures Keyed(key, filtered[k])
    {
      assert multiset(filtered)[filtered[k]] > 0;
      assert filtered[k] in trades;
    }
  }
}
