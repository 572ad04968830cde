/**
 * The client's trade cache (`TradesContext`): the list of trades the views
 * read, kept in step with the server by applying each successful API
 * call's result locally, plus its lookup and its own statistics pass.
 * API calls are not modelled; each method takes the call's outcome.
 */
module TradesContext {
  import opened Wrappers
  import opened Numbers
  import opened Journal
  import opened Tables
  import opened Pricing
  import opened Statistics

  const LoadFailed: string := "Failed to load trades"

  /** Every element with that id replaced by `updated` (`map(t => t.id === id ? updated : t)`). */
  function ReplaceById(ts: seq<Trade>, id: string, updated: Trade): (r: seq<Trade>)
    ensures |r| == |ts|
    ensures forall i :: 0 <= i < |ts| && ts[i].id == id ==> r[i] == updated
    ensures forall i :: 0 <= i < |ts| && ts[i].id != id ==> r[i] == ts[i]
  {
    UpdateWhere(ts, id, (_: Trade) => updated)
  }

  /** Removal keeps the survivors in their relative order. */
  lemma RemoveKeepsOrder(a: seq<Trade>, b: seq<Trade>, id: string)
    ensures RemoveById(a + b, id) == RemoveById(a, id) + RemoveById(b, id)
  {
    FilterConcat(a, b, (x: Trade) => x.id != id);
  }

  /**
   * The cache's state: the trades, whether a load is in progress, and the
   * last load error.
   */
  class TradesCache {
    var trades: seq<Trade>
    var loading: bool
    var error: Option<string>

    /** The initial state: no trades, loading, no error. */
    constructor ()
      ensures trades == [] && loading && error == None
    {
      trades, loading, error := [], true, None;
    }

    /**
     * `loadTrades`: on success the list becomes what the server sent; on
     * failure the list stays and the error is set. Loading ends either way.
     */
    method LoadTrades(fetched: Result<seq<Trade>, string>)
      modifies this
      ensures fetched.Success? ==> trades == fetched.value && error == None
      ensures fetched.Failure? ==> trades == old(trades) && error == Some(LoadFailed)
      ensures !loading
    {
      loading := true;
      error := None;
      if fetched.Success? {
        trades := fetched.value;
      } else {
        error := Some(LoadFailed);
      }
      loading := false;
    }

    /** `addTrade`: the created trade goes in front; a failed call changes nothing and is rethrown. */
    method AddTrade(created: Result<Trade, string>) returns (r: Result<string, string>)
      modifies this
      ensures created.Success? ==> r == Success(created.value.id) && trades == [created.value] + old(trades)
      ensures created.Failure? ==> r == Failure(created.error) && trades == old(trades)
      ensures loading == old(loading) && error == old(error)
    {
      if created.Success? {
        var newTrade := created.value;
        trades := [newTrade] + trades;
        r := Success(newTrade.id);
      } else {
        r := Failure(created.error);
      }
    }

    /** `updateTrade`: every element with that id becomes the server's copy; a failed call changes nothing. */
    method UpdateTrade(id: string, updated: Result<Trade, string>) returns (r: Outcome<string>)
      modifies this
      ensures updated.Success? ==> r == Pass && trades == ReplaceById(old(trades), id, updated.value)
      ensures updated.Failure? ==> r == Fail(updated.error) && trades == old(trades)
      ensures loading == old(loading) && error == old(error)
    {
      if updated.Success? {
        trades := ReplaceById(trades, id, updated.value);
        r := Pass;
      } else {
        r := Fail(updated.error);
      }
    }

    /** `deleteTrade`: the elements with that id go; a failed call changes nothing. */
    method DeleteTrade(id: string, deleted: Outcome<string>) returns (r: Outcome<string>)
      modifies this
      ensures deleted.Pass? ==> r == Pass && trades == RemoveById(old(trades), id)
      ensures deleted.Fail? ==> r == deleted && trades == old(trades)
      ensures loading == old(loading) && error == old(error)
    {
      if deleted.Pass? {
        trades := RemoveById(trades, id);
        r := Pass;
      } else {
        r := deleted;
      }
    }

    /** `getTrade`: the first trade with that id, `None` for undefined. */
    function GetTrade(id: string): (r: Option<Trade>)
      reads this
      ensures r.None? <==> !HasId(trades, id)
      ensures r.Some? ==> r.value.id == id
      ensures r.Some? ==> exists k :: 0 <= k < |trades| && trades[k] == r.value &&
                                     forall j :: 0 <= j < k ==> trades[j].id != id
    {
      Find(trades, id)
    }

    /** The client's `getStats`, over the cached list. */
    method GetStats() returns (s: Stats)
      ensures s == StatsOf(trades)
    {
      var list := trades;
      var totalRR := 0.0;
      var rrCount := 0;
      var i := 0;
      while i < |list|
        invariant 0 <= i <= |list|
        invariant totalRR == RRSum(list[..i])
        invariant rrCount == RRCount(list[..i])
      {
        var trade := list[i];
        var entry, stop, target := trade.data.entryPrice, trade.data.stopLoss, trade.data.targetPrice;
        RRStep(list, i);
        if Truthy(entry) && Truthy(stop) && Truthy(target) && entry.value != stop.value {
          var risk := Abs(entry.value - stop.value);
          var reward := Abs(target.value - entry.value);
          RiskPositive(entry, stop, target);
          ContributionOf(trade);
          if risk > 0.0 {
            totalRR := totalRR + reward / risk;
            rrCount := rrCount + 1;
          }
          assert totalRR == RRSum(list[..i + 1]);
        }
        i := i + 1;
      }
      assert list[..|list|] == list;

      var total := |list|;
      var executed := Filter(list, IsClosed);
      var wins := |Filter(executed, IsWin)|;
      var losses := |Filter(executed, IsLoss)|;
      FilterDisjoint(executed, IsWin, IsLoss);
      var winRate := WinRate(wins, |executed|);
      var avgRR := AvgRR(totalRR, rrCount);
      s := Stats(total, wins, losses, winRate, avgRR);
    }
  }

  /**
   * A cache that holds the same trades as the table (in any order) still
   * does after the same trade is created on both sides, so the two
   * statistics passes still agree.
   */
  lemma CreateMirrored(cache: seq<Trade>, table: seq<Trade>, row: Trade)
    requires multiset(cache) == multiset(table)
    ensures multiset([row] + cache) == multiset(table + [row])
    ensures StatsOf([row] + cache) == StatsOf(table + [row])
  {
    StatsPermutation([row] + cache, table + [row]);
  }

  /** The same after one id is deleted on both sides. */
  lemma DeleteMirrored(cache: seq<Trade>, table: seq<Trade>, id: string)
    requires multiset(cache) == multiset(table)
    ensures multiset(RemoveById(cache, id)) == multiset(RemoveById(table, id))
    ensures StatsOf(RemoveById(cache, id)) == StatsOf(RemoveById(table, id))
  {
    StatsPermutation(RemoveById(cache, id), RemoveById(table, id));
  }

  /** A trade just added is what looking up its id finds. */
  lemma AddedTradeFound(ts: seq<Trade>, t: Trade)
    ensures Find([t] + ts, t.id) == Some(t)
  {
    assert ([t] + ts)[0] == t;
  }

  /** After an update, looking up the id finds the server's copy, provided it keeps the id. */
  lemma UpdatedTradeFound(ts: seq<Trade>, id: string, updated: Trade)
    requires HasId(ts, id) && updated.id == id
    ensures Find(ReplaceById(ts, id, updated), id) == Some(updated)
  {
    var k := FirstIndex(ts, id);
    var r := ReplaceById(ts, id, updated);
    assert r[k] == updated;
    assert forall j :: 0 <= j < k ==> r[j] == ts[j];
    assert FirstIndex(r, id) == k by {
      FirstIndexCharacterised(r, id, k);
    }
  }

  /** The first index is the one the first match sits at. */
  lemma {:induction false} FirstIndexCharacterised(rows: seq<Trade>, id: string, k: nat)
    requires k < |rows| && rows[k].id == id
    requires forall j :: 0 <= j < k ==> rows[j].id != id
    ensures FirstIndex(rows, id) == k
    decreases k
  {
    if k > 0 {
      FirstIndexCharacterised(rows[1..], id, k - 1);
    }
  }
}
