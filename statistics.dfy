/**
 * The statistics calculator (`getStats`): counts, win rate and average
 * risk:reward over a list of trades. The server and the client each run
 * their own copy of the calculation; both are proved equal to `StatsOf`.
 */
module Statistics {
  import opened Wrappers
  import opened Numbers
  import opened Journal
  import opened Tables
  import opened Pricing

  datatype Stats = Stats(total: nat, wins: nat, losses: nat, winRate: real, avgRR: real)

  predicate IsClosed(t: Trade) {
    t.data.status == "Closed"
  }

  predicate IsWin(t: Trade) {
    t.data.result == "Win"
  }

  predicate IsLoss(t: Trade) {
    t.data.result == "Loss"
  }

  /** The trades the win rate is taken over (`executed` in the source). */
  function Closed(ts: seq<Trade>): seq<Trade> {
    Filter(ts, IsClosed)
  }

  /** A trade whose risk:reward enters the average. */
  predicate Qualifies(t: Trade) {
    RatioDefined(t.data.entryPrice, t.data.stopLoss, t.data.targetPrice)
  }

  function TradeRR(t: Trade): real
    requires Qualifies(t)
  {
    Ratio(t.data.entryPrice.value, t.data.stopLoss.value, t.data.targetPrice.value)
  }

  /** What one trade adds to `totalRR`. */
  function Contribution(t: Trade): (c: real)
    ensures c >= 0.0
    ensures !Qualifies(t) ==> c == 0.0
  {
    if Qualifies(t) then TradeRR(t) else 0.0
  }

  /** `rrCount`: the number of qualifying trades. */
  function RRCount(ts: seq<Trade>): nat
    decreases |ts|
  {
    if ts == [] then 0 else RRCount(ts[..|ts| - 1]) + (if Qualifies(ts[|ts| - 1]) then 1 else 0)
  }

  /** `rrCount` is the length of the list of qualifying trades. */
  lemma {:induction false} RRCountFilter(ts: seq<Trade>)
    ensures RRCount(ts) == |Filter(ts, Qualifies)|
    decreases |ts|
  {
    if ts != [] {
      RRCountFilter(ts[..|ts| - 1]);
    }
  }

  /** `totalRR`: the sum of the qualifying trades' risk:reward. */
  function RRSum(ts: seq<Trade>): (sum: real)
    ensures sum >= 0.0
    decreases |ts|
  {
    if ts == [] then 0.0 else RRSum(ts[..|ts| - 1]) + Contribution(ts[|ts| - 1])
  }

  /** Wins over Closed trades, in percent to one place; 0 without Closed trades. */
  function WinRate(wins: nat, closed: nat): (rate: real)
    requires wins <= closed
    ensures 0.0 <= rate <= 100.0
    ensures closed == 0 ==> rate == 0.0
    ensures closed > 0 ==> -0.05 <= rate - (wins as real) / (closed as real) * 100.0 <= 0.05
  {
    if closed > 0 then
      var ratio := (wins as real) / (closed as real);
      assert ratio * (closed as real) == wins as real;
      assert ratio * (closed as real) <= 1.0 * (closed as real);
      assert ratio <= 1.0;
      ToFixed1Percentage(ratio * 100.0);
      ToFixed1(ratio * 100.0)
    else 0.0
  }

  /** The mean of `count` ratios summing to `sum`, to two places; 0 when there are none. */
  function AvgRR(sum: real, count: nat): (avg: real)
    requires sum >= 0.0
    ensures avg >= 0.0
    ensures count == 0 ==> avg == 0.0
    ensures count > 0 ==> -0.005 <= avg - sum / (count as real) <= 0.005
  {
    if count > 0 then ToFixed2(sum / (count as real)) else 0.0
  }

  /** The statistics of a list of trades. */
  function StatsOf(ts: seq<Trade>): (s: Stats)
    ensures s.total == |ts|
    ensures s.wins == |Filter(Closed(ts), IsWin)| && s.losses == |Filter(Closed(ts), IsLoss)|
    ensures s.wins + s.losses <= |Closed(ts)| <= s.total
    ensures 0.0 <= s.winRate <= 100.0
    ensures |Closed(ts)| == 0 ==> s.winRate == 0.0
    ensures |Closed(ts)| > 0 ==> -0.05 <= s.winRate - (s.wins as real) / (|Closed(ts)| as real) * 100.0 <= 0.05
    ensures s.avgRR >= 0.0
    ensures RRCount(ts) == 0 ==> s.avgRR == 0.0
    ensures RRCount(ts) > 0 ==> -0.005 <= s.avgRR - RRSum(ts) / (RRCount(ts) as real) <= 0.005
  {
    var executed := Closed(ts);
    var wins := |Filter(executed, IsWin)|;
    var losses := |Filter(executed, IsLoss)|;
    FilterDisjoint(executed, IsWin, IsLoss);
    Stats(|ts|, wins, losses, WinRate(wins, |executed|), AvgRR(RRSum(ts), RRCount(ts)))
  }

  lemma {:induction false} RRSumConcat(a: seq<Trade>, b: seq<Trade>)
    ensures RRSum(a + b) == RRSum(a) + RRSum(b)
    decreases |b|
  {
    if b == [] {
      assert a + b == a;
    } else {
      var b' := b[..|b| - 1];
      assert (a + b)[..|a + b| - 1] == a + b';
      assert (a + b)[|a + b| - 1] == b[|b| - 1];
      RRSumConcat(a, b');
    }
  }

  /** One more trade of a running pass adds its contribution to `totalRR` and, if it qualifies, one to `rrCount`. */
  lemma RRStep(ts: seq<Trade>, i: nat)
    requires i < |ts|
    ensures RRSum(ts[..i + 1]) == RRSum(ts[..i]) + Contribution(ts[i])
    ensures RRCount(ts[..i + 1]) == RRCount(ts[..i]) + (if Qualifies(ts[i]) then 1 else 0)
  {
    assert ts[..i + 1][..i] == ts[..i];
  }

  /** What a trade with a defined ratio contributes, in the terms the source computes it. */
  lemma ContributionOf(t: Trade)
    requires Qualifies(t)
    ensures Contribution(t)
         == Abs(t.data.targetPrice.value - t.data.entryPrice.value) / Abs(t.data.entryPrice.value - t.data.stopLoss.value)
  {
  }



  /** The sum of ratios does not depend on the order of the trades. */
  lemma {:induction false} RRSumPermutation(a: seq<Trade>, b: seq<Trade>)
    requires multiset(a) == multiset(b)
    ensures RRSum(a) == RRSum(b)
    decreases |a|
  {
    if a == [] {
      assert |multiset(b)| == 0;
    } else {
      var n := |a| - 1;
      var x := a[n];
      assert a == a[..n] + [x];
      assert x in multiset(b);
      var j :| 0 <= j < |b| && b[j] == x;
      var rest := b[..j] + b[j + 1..];
      assert b == b[..j] + [x] + b[j + 1..];
      assert multiset(a) == multiset(a[..n]) + multiset{x};
      assert multiset(b) == multiset(b[..j]) + multiset{x} + multiset(b[j + 1..]);
      assert multiset(rest) == multiset(b[..j]) + multiset(b[j + 1..]);
      assert multiset(a[..n]) == multiset(a) - multiset{x};
      assert multiset(rest) == multiset(b) - multiset{x};
      RRSumPermutation(a[..n], rest);
      RRSumConcat(a[..n], [x]);
      RRSumConcat(b[..j], [x]);
      RRSumConcat(b[..j] + [x], b[j + 1..]);
      RRSumConcat(b[..j], b[j + 1..]);
      assert RRSum([x]) == Contribution(x);
    }
  }

  /** A filter keeps the same multiset of elements from two permutations of one list. */
  lemma FilterPermutation<T(!new)>(a: seq<T>, b: seq<T>, p: T -> bool)
    requires multiset(a) == multiset(b)
    ensures multiset(Filter(a, p)) == multiset(Filter(b, p))
    ensures |Filter(a, p)| == |Filter(b, p)|
  {
    assert |multiset(Filter(a, p))| == |Filter(a, p)|;
    assert |multiset(Filter(b, p))| == |Filter(b, p)|;
  }

  /**
   * The statistics depend only on which trades there are, not on their
   * order: the server's date-ordered listing and the client's cache give
   * the same figures whenever they hold the same trades.
   */
  lemma StatsPermutation(a: seq<Trade>, b: seq<Trade>)
    requires multiset(a) == multiset(b)
    ensures StatsOf(a) == StatsOf(b)
  {
    assert |multiset(a)| == |a| && |multiset(b)| == |b|;
    FilterPermutation(a, b, IsClosed);
    FilterPermutation(Closed(a), Closed(b), IsWin);
    FilterPermutation(Closed(a), Closed(b), IsLoss);
    FilterPermutation(a, b, Qualifies);
    RRCountFilter(a);
    RRCountFilter(b);
    RRSumPermutation(a, b);
  }

  /** A trade that does not qualify, wherever it stands, leaves the average risk:reward as it was. */
  lemma NonQualifyingIgnored(a: seq<Trade>, t: Trade, b: seq<Trade>)
    requires !Qualifies(t)
    ensures RRCount(a + [t] + b) == RRCount(a + b)
    ensures RRSum(a + [t] + b) == RRSum(a + b)
    ensures StatsOf(a + [t] + b).avgRR == StatsOf(a + b).avgRR
  {
    FilterConcat(a + [t], b, Qualifies);
    FilterConcat(a, [t], Qualifies);
    FilterConcat(a, b, Qualifies);
    assert Filter([t], Qualifies) == [];
    RRCountFilter(a + [t] + b);
    RRCountFilter(a + b);
    RRSumConcat(a + [t], b);
    RRSumConcat(a, [t]);
    RRSumConcat(a, b);
    assert RRSum([t]) == 0.0;
  }

  /** In particular, a trade whose entry equals its stop leaves the average risk:reward as it was. */
  lemma FlatTradeIgnored(a: seq<Trade>, t: Trade, b: seq<Trade>)
    requires t.data.entryPrice == t.data.stopLoss
    ensures StatsOf(a + [t] + b).avgRR == StatsOf(a + b).avgRR
  {
    NonQualifyingIgnored(a, t, b);
  }

  /** Adding a trade raises the total by one and moves no count by more than one. */
  lemma StatsPrepend(t: Trade, ts: seq<Trade>)
    ensures StatsOf([t] + ts).total == StatsOf(ts).total + 1
    ensures RRCount([t] + ts) == RRCount(ts) + (if Qualifies(t) then 1 else 0)
    ensures |Closed([t] + ts)| == |Closed(ts)| + (if IsClosed(t) then 1 else 0)
  {
    FilterConcat([t], ts, Qualifies);
    FilterConcat([t], ts, IsClosed);
    assert Filter([t], Qualifies) == if Qualifies(t) then [t] else [];
    RRCountFilter([t] + ts);
    RRCountFilter(ts);
    assert Filter([t], IsClosed) == if IsClosed(t) then [t] else [];
  }
}
