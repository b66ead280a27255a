/**
 * GET /sensor-data/history and GET /event-logs: a prefix scan of the store,
 * sorted by timestamp descending, cut to the requested limit.
 *
 * The scan visits keys in an order the store does not promise, so it is
 * modelled as a nondeterministic choice; on a well-formed store the stamps
 * in one series are distinct, which makes the answer the same whatever the
 * visiting order.
 */
module StoreQueries {
  import opened Wrappers
  import opened SensorStore

  /** The JSON reply `{count, data}`. */
  datatype Listing = Listing(count: nat, data: seq<Value>)

  /** Strictly decreasing timestamps: newest first, no two entries with one stamp. */
  predicate NewestFirst(s: seq<Value>) {
    forall i, j :: 0 <= i < j < |s| ==> s[i].Timestamp() > s[j].Timestamp()
  }

  /** `v` is the entry the store holds for its own stamp in `series`. */
  predicate IsStored(store: Store, series: Series, v: Value) {
    series.Key(v.Timestamp()) in store && store[series.Key(v.Timestamp())] == v
  }

  /** Length of `a.slice(0, end)` for an array of `n` elements. */
  function SliceLength(n: nat, end: int): nat {
    if end < 0 then (if n + end < 0 then 0 else n + end)
    else if end < n then end
    else n
  }

  /** `parseInt(query || default)`, with the number already parsed: absent or empty means the default. */
  function EffectiveLimit(limit: Option<int>, default: nat): (n: int)
    ensures limit.None? ==> n == default
    ensures limit.Some? ==> n == limit.value
  {
    limit.GetOr(default)
  }

  /** Insert `v` into a newest-first sequence whose stamps all differ from its own. */
  function InsertNewestFirst(s: seq<Value>, v: Value): (r: seq<Value>)
    requires NewestFirst(s)
    requires forall x :: x in s ==> x.Timestamp() != v.Timestamp()
    ensures NewestFirst(r)
    ensures |r| == |s| + 1
    ensures forall x :: x in r <==> x in s || x == v
    decreases |s|
  {
    if |s| == 0 then [v]
    else if v.Timestamp() > s[0].Timestamp() then [v] + s
    else
      var rest := InsertNewestFirst(s[1..], v);
      assert forall x :: x in s[1..] ==> x.Timestamp() < s[0].Timestamp() by {
        forall x | x in s[1..] ensures x.Timestamp() < s[0].Timestamp() {
          var j :| 0 <= j < |s[1..]| && s[1..][j] == x;
          assert s[j + 1] == x;
        }
      }
      [s[0]] + rest
  }

  /** No two values share a timestamp. */
  ghost predicate DistinctStamps(vals: set<Value>) {
    forall a, b :: a in vals && b in vals && a.Timestamp() == b.Timestamp() ==> a == b
  }

  /** What `getByPrefix` hands back: the values stored under the series prefix. */
  function Entries(store: Store, series: Series): set<Value> {
    set k | k in Members(store, series) :: store[k]
  }

  /** Each prefix-scan value is stored under its own key and has the series' shape. */
  lemma EntriesAreStored(store: Store, series: Series)
    requires SeriesWellFormed(store, series)
    ensures forall v :: v in Entries(store, series) ==> IsStored(store, series, v) && series.Holds(v)
    ensures forall k :: k in Members(store, series) ==> store[k] in Entries(store, series)
    ensures DistinctStamps(Entries(store, series))
  {
  }

  /** Keys determine their values' stamps, so the scan yields one value per key. */
  lemma {:induction false} EntriesCount(store: Store, series: Series, ks: set<string>)
    requires SeriesWellFormed(store, series)
    requires ks <= Members(store, series)
    ensures |set k | k in ks :: store[k]| == |ks|
    decreases |ks|
  {
    if ks != {} {
      var k :| k in ks;
      var rest := ks - {k};
      EntriesCount(store, series, rest);
      var image := set j | j in rest :: store[j];
      assert (set j | j in ks :: store[j]) == image + {store[k]};
    }
  }

  /**
   * Sort a set of values with distinct stamps newest first, inserting them
   * one at a time in whatever order they are drawn.
   */
  method SortNewestFirst(vals: set<Value>) returns (all: seq<Value>)
    requires DistinctStamps(vals)
    ensures NewestFirst(all)
    ensures |all| == |vals|
    ensures forall v :: v in all <==> v in vals
  {
    var rest := vals;
    all := [];
    while rest != {}
      invariant rest <= vals
      invariant NewestFirst(all)
      invariant |all| + |rest| == |vals|
      invariant forall v :: v in all <==> v in vals && v !in rest
      decreases |rest|
    {
      var v :| v in rest;
      all := InsertNewestFirst(all, v);
      rest := rest - {v};
    }
  }

  /**
   * Scan `series`, sort newest first and keep `SliceLength` entries. The
   * reply holds stored entries only, in strictly descending stamp order,
   * and every stored entry left out is older than everything returned.
   */
  method Scan(store: Store, series: Series, limit: int) returns (resp: Listing)
    requires SeriesWellFormed(store, series)
    ensures resp.count == |resp.data|
    ensures |resp.data| == SliceLength(|Members(store, series)|, limit)
    ensures NewestFirst(resp.data)
    ensures forall v :: v in resp.data ==> IsStored(store, series, v) && series.Holds(v)
    ensures forall k, i :: k in Members(store, series) && store[k] !in resp.data && 0 <= i < |resp.data| ==>
      store[k].Timestamp() < resp.data[i].Timestamp()
    ensures |resp.data| == |Members(store, series)| ==>
      forall k :: k in Members(store, series) ==> store[k] in resp.data
  {
    EntriesAreStored(store, series);
    EntriesCount(store, series, Members(store, series));
    var all := SortNewestFirst(Entries(store, series));
    var n := SliceLength(|all|, limit);
    var data := all[..n];
    forall k, i | k in Members(store, series) && store[k] !in data && 0 <= i < |data|
      ensures store[k].Timestamp() < data[i].Timestamp()
    {
      var j :| 0 <= j < |all| && all[j] == store[k];
    }
    if n == |all| {
      assert data == all;
    }
    resp := Listing(|data|, data);
  }

  /** GET /sensor-data/history?limit=N (default 50). */
  method History(store: Store, limit: Option<int>) returns (resp: Listing)
    requires WellFormed(store)
    ensures resp.count == |resp.data|
    ensures |resp.data| == SliceLength(|Members(store, Readings)|, EffectiveLimit(limit, 50))
    ensures limit.None? ==> |resp.data| == if |Members(store, Readings)| < 50 then |Members(store, Readings)| else 50
    ensures NewestFirst(resp.data)
    ensures forall v :: v in resp.data ==> v.ReadingValue? && IsStored(store, Readings, v)
    ensures forall k, i :: k in Members(store, Readings) && store[k] !in resp.data && 0 <= i < |resp.data| ==>
      store[k].Timestamp() < resp.data[i].Timestamp()
  {
    resp := Scan(store, Readings, EffectiveLimit(limit, 50));
  }

  /** GET /event-logs?limit=N (default 100). */
  method EventLogs(store: Store, limit: Option<int>) returns (resp: Listing)
    requires WellFormed(store)
    ensures resp.count == |resp.data|
    ensures |resp.data| == SliceLength(|Members(store, Events)|, EffectiveLimit(limit, 100))
    ensures limit.None? ==> |resp.data| == if |Members(store, Events)| < 100 then |Members(store, Events)| else 100
    ensures NewestFirst(resp.data)
    ensures forall v :: v in resp.data ==> v.EventValue? && IsStored(store, Events, v)
    ensures forall k, i :: k in Members(store, Events) && store[k] !in resp.data && 0 <= i < |resp.data| ==>
      store[k].Timestamp() < resp.data[i].Timestamp()
  {
    resp := Scan(store, Events, EffectiveLimit(limit, 100));
  }

  /** In a newest-first list the tail is everything but the head. */
  lemma TailIsRest(s: seq<Value>)
    requires NewestFirst(s) && |s| > 0
    ensures forall x :: x in s[1..] <==> x in s && x != s[0]
  {
    forall x | x in s[1..]
      ensures x != s[0]
    {
      var j :| 0 <= j < |s[1..]| && s[1..][j] == x;
      assert s[j + 1] == x;
    }
    forall x | x in s && x != s[0]
      ensures x in s[1..]
    {
      var j :| 0 <= j < |s| && s[j] == x;
      assert s[1..][j - 1] == x;
    }
  }

  /**
   * Two newest-first sequences over the same values are identical, so the
   * sorted scan does not depend on the order the store visits its keys.
   */
  lemma {:induction false} NewestFirstUnique(a: seq<Value>, b: seq<Value>)
    requires NewestFirst(a) && NewestFirst(b)
    requires forall x :: x in a <==> x in b
    ensures a == b
    decreases |a|
  {
    // Both lists hold the same values, so one is empty exactly when the other is.
    assert |a| == 0 <==> |b| == 0 by {
      assert |a| > 0 ==> a[0] in a;
      assert |b| > 0 ==> b[0] in b;
    }
    if |a| > 0 {
      assert a[0] in b && b[0] in a;
      TailIsRest(a);
      TailIsRest(b);
      // Each head is in the other's tail otherwise, and both would be newer.
      assert a[0] == b[0];
      NewestFirstUnique(a[1..], b[1..]);
      assert a == [a[0]] + a[1..];
      assert b == [b[0]] + b[1..];
    }
  }

  /** The latest slot is not under the history prefix, so no scan returns it twice. */
  lemma LatestOutsideHistory(store: Store)
    ensures LatestKey !in Members(store, Readings)
    ensures LatestKey !in Members(store, Events)
  {
    KeySpacesDisjoint(0);
  }

  /** `slice(0, end)` with a non-negative end keeps `min(n, end)` elements. */
  lemma SliceLengthIsMin(n: nat, end: int)
    ensures SliceLength(n, end) <= n
    ensures end >= 0 ==> SliceLength(n, end) == (if end < n then end else n)
    ensures end < 0 ==> SliceLength(n, end) + (if -end < n then -end else n) == n
  {
  }
}
