/**
 * Operations on a table held as a sequence of rows keyed by `id`: the
 * server's three tables and the client's cached trade list both use them.
 */
module Tables {
  import opened Wrappers
  import opened Journal

  /** The elements of `s` that satisfy `p`, in their order (JavaScript's `filter`). */
  function Filter<T(!new)>(s: seq<T>, p: T -> bool): (r: seq<T>)
    ensures forall x :: multiset(r)[x] == if p(x) then multiset(s)[x] else 0
    ensures |r| <= |s|
    ensures (forall i :: 0 <= i < |s| ==> p(s[i])) ==> r == s
    ensures (exists i :: 0 <= i < |s| && !p(s[i])) ==> |r| < |s|
    decreases |s|
  {
    if s == [] then []
    else
      var init, last := s[..|s| - 1], s[|s| - 1];
      var kept := Filter(init, p);
      assert s == init + [last];
      FilterLast(init, last, kept, p);
      if p(last) then kept + [last] else kept
  }

  /** The step of `Filter`: what its contract says of `kept`, filtered from `init`, carries over to one more element. */
  lemma FilterLast<T(!new)>(init: seq<T>, last: T, kept: seq<T>, p: T -> bool)
    requires forall x :: multiset(kept)[x] == if p(x) then multiset(init)[x] else 0
    requires |kept| <= |init|
    requires (forall i :: 0 <= i < |init| ==> p(init[i])) ==> kept == init
    requires (exists i :: 0 <= i < |init| && !p(init[i])) ==> |kept| < |init|
    ensures var s, r := init + [last], if p(last) then kept + [last] else kept;
      && (forall x :: multiset(r)[x] == if p(x) then multiset(s)[x] else 0)
      && |r| <= |s|
      && ((forall i :: 0 <= i < |s| ==> p(s[i])) ==> r == s)
      && ((exists i :: 0 <= i < |s| && !p(s[i])) ==> |r| < |s|)
  {
    var s := init + [last];
    assert multiset(s) == multiset(init) + multiset{last};
    assert forall i :: 0 <= i < |init| ==> init[i] == s[i];
    if p(last) {
      assert multiset(kept + [last]) == multiset(kept) + multiset{last};
      if exists i :: 0 <= i < |s| && !p(s[i]) {
        var i :| 0 <= i < |s| && !p(s[i]);
        assert i < |init| && !p(init[i]);
      }
    }
    assert s[|init|] == last;
  }

  /** Filtering distributes over concatenation: the kept elements keep their relative order. */
  lemma {:induction false} FilterConcat<T(!new)>(a: seq<T>, b: seq<T>, p: T -> bool)
    ensures Filter(a + b, p) == Filter(a, p) + Filter(b, p)
    decreases |b|
  {
    if b == [] {
      assert a + b == a;
    } else {
      var b', x := b[..|b| - 1], b[|b| - 1];
      SnocAssoc(a, b);
      FilterSnoc(a + b', x, p);
      FilterSnoc(b', x, p);
      FilterConcat(a, b', p);
      Assoc(Filter(a, p), Filter(b', p), if p(x) then [x] else []);
    }
  }

  /** Taking the last element off the second half of a concatenation. */
  lemma SnocAssoc<T>(a: seq<T>, b: seq<T>)
    requires b != []
    ensures a + b == (a + b[..|b| - 1]) + [b[|b| - 1]]
    ensures b == b[..|b| - 1] + [b[|b| - 1]]
  {
  }

  /** Concatenation is associative (a step the solver misses inside larger proofs). */
  lemma Assoc<T>(x: seq<T>, y: seq<T>, z: seq<T>)
    ensures (x + y) + z == x + (y + z)
  {
  }

  /** Filtering a list with one more element at the end. */
  lemma FilterSnoc<T(!new)>(s: seq<T>, x: T, p: T -> bool)
    ensures Filter(s + [x], p) == Filter(s, p) + (if p(x) then [x] else [])
  {
    var t := s + [x];
    assert t[..|t| - 1] == s && t[|t| - 1] == x;
  }

  /** Two predicates that no element satisfies together keep at most all of `s` between them. */
  lemma {:induction false} FilterDisjoint<T(!new)>(s: seq<T>, p: T -> bool, q: T -> bool)
    requires forall x :: !(p(x) && q(x))
    ensures |Filter(s, p)| + |Filter(s, q)| <= |s|
    decreases |s|
  {
    if s != [] {
      FilterDisjoint(s[..|s| - 1], p, q);
    }
  }

  predicate HasId<T>(rows: seq<Row<T>>, id: string) {
    exists i :: 0 <= i < |rows| && rows[i].id == id
  }

  /** Primary-key uniqueness. */
  ghost predicate UniqueIds<T>(rows: seq<Row<T>>) {
    forall i, j :: 0 <= i < j < |rows| ==> rows[i].id != rows[j].id
  }

  /** The index of the first row with that id, or `|rows|` if there is none. */
  function FirstIndex<T>(rows: seq<Row<T>>, id: string): (k: nat)
    ensures k <= |rows|
    ensures forall j :: 0 <= j < k ==> rows[j].id != id
    ensures k < |rows| ==> rows[k].id == id
  {
    if rows == [] then 0
    else if rows[0].id == id then 0
    else 1 + FirstIndex(rows[1..], id)
  }

  /** The first row with that id (`find`, or `SELECT ... WHERE id = ?`), `None` for undefined. */
  function Find<T>(rows: seq<Row<T>>, id: string): (r: Option<Row<T>>)
    ensures r.None? <==> !HasId(rows, id)
    ensures r.Some? ==> r.value.id == id
    ensures r.Some? ==> exists k :: 0 <= k < |rows| && rows[k] == r.value &&
                                   forall j :: 0 <= j < k ==> rows[j].id != id
  {
    var k := FirstIndex(rows, id);
    if k < |rows| then Some(rows[k]) else None
  }

  /** The rows with that id. */
  function Matching<T(!new)>(rows: seq<Row<T>>, id: string): (r: seq<Row<T>>)
    ensures |r| > 0 <==> HasId(rows, id)
  {
    var r := Filter(rows, (x: Row<T>) => x.id == id);
    assert HasId(rows, id) ==> exists i :: 0 <= i < |rows| && rows[i].id == id && multiset(r)[rows[i]] > 0;
    r
  }

  /** The rows without that id (`filter(t => t.id !== id)`, or `DELETE ... WHERE id = ?`). */
  function RemoveById<T(!new)>(rows: seq<Row<T>>, id: string): (r: seq<Row<T>>)
    ensures forall x :: multiset(r)[x] == if x.id != id then multiset(rows)[x] else 0
    ensures !HasId(r, id)
    ensures !HasId(rows, id) ==> r == rows
    ensures HasId(rows, id) ==> |r| < |rows|
  {
    var r := Filter(rows, (x: Row<T>) => x.id != id);
    assert forall i :: 0 <= i < |r| ==> multiset(r)[r[i]] > 0;
    r
  }

  /** Every row with that id replaced by `f` of it, the others as they were. */
  function UpdateWhere<T>(rows: seq<Row<T>>, id: string, f: Row<T> -> Row<T>): (r: seq<Row<T>>)
    ensures |r| == |rows|
    ensures forall i :: 0 <= i < |rows| ==> r[i] == if rows[i].id == id then f(rows[i]) else rows[i]
  {
    if rows == [] then []
    else [if rows[0].id == id then f(rows[0]) else rows[0]] + UpdateWhere(rows[1..], id, f)
  }

  /** Appending a row with a fresh key keeps the keys unique. */
  lemma UniqueAppend<T>(rows: seq<Row<T>>, row: Row<T>)
    requires UniqueIds(rows) && !HasId(rows, row.id)
    ensures UniqueIds(rows + [row])
  {
  }

  /** Removing rows keeps the keys unique. */
  lemma {:induction false} UniqueRemove<T(!new)>(rows: seq<Row<T>>, id: string)
    requires UniqueIds(rows)
    ensures UniqueIds(RemoveById(rows, id))
  {
    UniqueFilter(rows, (x: Row<T>) => x.id != id);
  }

  lemma {:induction false} UniqueFilter<T(!new)>(rows: seq<Row<T>>, p: Row<T> -> bool)
    requires UniqueIds(rows)
    ensures UniqueIds(Filter(rows, p))
    decreases |rows|
  {
    if rows != [] {
      var init, last := rows[..|rows| - 1], rows[|rows| - 1];
      UniqueFilter(init, p);
      var kept := Filter(init, p);
      forall i | 0 <= i < |kept|
        ensures kept[i].id != last.id
      {
        assert multiset(kept)[kept[i]] > 0;
        assert kept[i] in init;
      }
    }
  }

  /** Under unique keys, a row of the table is what looking up its key finds. */
  lemma FindUnique<T>(rows: seq<Row<T>>, k: nat)
    requires UniqueIds(rows) && k < |rows|
    ensures Find(rows, rows[k].id) == Some(rows[k])
  {
  }

  /** A row appended under a fresh key is found by that key. */
  lemma FindAppended<T>(rows: seq<Row<T>>, row: Row<T>)
    requires !HasId(rows, row.id)
    ensures Find(rows + [row], row.id) == Some(row)
  {
    assert (rows + [row])[|rows|] == row;
  }

  /** After updating the unique row with a key, looking the key up finds the updated row. */
  lemma FindUpdated<T>(rows: seq<Row<T>>, id: string, f: Row<T> -> Row<T>)
    requires UniqueIds(rows) && HasId(rows, id)
    requires forall x :: f(x).id == x.id
    ensures Find(UpdateWhere(rows, id, f), id) == Some(f(Find(rows, id).value))
  {
    var k := FirstIndex(rows, id);
    var r := UpdateWhere(rows, id, f);
    assert r[k] == f(rows[k]);
    assert UniqueIds(r);
    FindUnique(r, k);
  }
}
