/** worker/src/performance.js: the TTL cache, the pagination arithmetic,
    the performance monitor's counters and bounded response-time window,
    and the decision of the connection-pool middleware. */
module Performance {
  import opened Base
  import opened Http
  import opened Store
  import Security

  // ---------------------------------------------------------------------
  // TTL cache

  /** `PerformanceUtils.Cache`: the value map and the expiry map
      (milliseconds). Every operation keeps the two key sets equal. */
  datatype Cache<V> = Cache(values: map<string, V>, expiry: map<string, int>)

  predicate Coherent<V>(c: Cache<V>) {
    c.values.Keys == c.expiry.Keys
  }

  const DefaultTtl := 60000

  function EmptyCache<V>(): (c: Cache<V>)
    ensures Coherent(c) && c.values == map[]
  {
    Cache(map[], map[])
  }

  /** `set(key, value, ttl)` at clock reading `now`. */
  function Set<V>(c: Cache<V>, key: string, value: V, now: int, ttl: int := DefaultTtl): (c': Cache<V>)
    ensures Coherent(c) ==> Coherent(c')
    ensures key in c'.values && key in c'.expiry && c'.values[key] == value && c'.expiry[key] == now + ttl
    ensures forall k :: k != key ==> (k in c'.values <==> k in c.values) && (k in c.values ==> c'.values[k] == c.values[k])
  {
    Cache(c.values[key := value], c.expiry[key := now + ttl])
  }

  datatype Lookup<V> = Lookup(value: Option<V>, cache: Cache<V>)

  /** `get(key)` at clock reading `now`: a missing or zero expiry, or one
      already passed, drops the key from both maps and yields `null`. */
  function Get<V>(c: Cache<V>, key: string, now: int): (r: Lookup<V>)
    requires Coherent(c)
    ensures Coherent(r.cache)
    ensures r.value.Some? <==> key in c.expiry && c.expiry[key] != 0 && now <= c.expiry[key]
    ensures r.value.Some? ==> r.value.value == c.values[key] && r.cache == c
    ensures r.value.None? ==> r.cache == Delete(c, key)
  {
    if key !in c.expiry || c.expiry[key] == 0 || now > c.expiry[key] then Lookup(None, Delete(c, key))
    else Lookup(Some(c.values[key]), c)
  }

  /** `delete(key)`: removes `key` from both maps and nothing else. */
  function Delete<V>(c: Cache<V>, key: string): (c': Cache<V>)
    ensures Coherent(c) ==> Coherent(c')
    ensures key !in c'.values && key !in c'.expiry
    ensures forall k :: k != key ==> (k in c'.values <==> k in c.values) && (k in c.values ==> c'.values[k] == c.values[k])
  {
    Cache(c.values - {key}, c.expiry - {key})
  }

  /** `clear()`. */
  function Clear<V>(c: Cache<V>): (c': Cache<V>)
    ensures Coherent(c') && c'.values == map[] && c'.expiry == map[]
  {
    EmptyCache()
  }

  /** Round trip: after `set(k, v, ttl)` at `t`, `get(k)` at any `now` up to
      and including `t + ttl` yields `v`, and after that yields `null`
      (unless the expiry happens to be zero, which reads as absent). */
  lemma SetThenGet<V>(c: Cache<V>, key: string, value: V, t: int, ttl: int, now: int)
    requires Coherent(c)
    requires t + ttl != 0
    ensures Get(Set(c, key, value, t, ttl), key, now).value == if now <= t + ttl then Some(value) else None
  {
  }

  /** Another key's entry is untouched by `set`, `get` and `delete`. */
  lemma OtherKeysUntouched<V>(c: Cache<V>, key: string, other: string, value: V, now: int)
    requires Coherent(c) && other != key
    ensures Get(Set(c, key, value, now), other, now).value == Get(c, other, now).value
    ensures Get(Delete(c, key), other, now).value == Get(c, other, now).value
  {
  }

  // ---------------------------------------------------------------------
  // pagination

  datatype Page = Page(offset: int, limit: int)

  /** `QueryOptimizer.paginate(baseQuery, page = 1, pageSize = 20)`: the
      numbers it splices into `LIMIT ... OFFSET ...`. */
  function Paginate(page: int := 1, pageSize: int := 20): (r: Page)
    ensures r.limit == pageSize
    ensures r.offset + pageSize == page * pageSize
  {
    Page((page - 1) * pageSize, pageSize)
  }

  /** The rows `LIMIT limit OFFSET offset` selects: a negative offset counts
      as zero and a limit of at least one is taken as written. */
  function Window<T>(rows: seq<T>, p: Page): (r: seq<T>)
    requires p.limit >= 1
    ensures |r| <= p.limit
    ensures var start := if p.offset < 0 then 0 else p.offset;
      forall k :: 0 <= k < |r| ==> start + k < |rows| && r[k] == rows[start + k]
    ensures var start := if p.offset < 0 then 0 else p.offset;
      |r| == if start >= |rows| then 0 else if |rows| - start < p.limit then |rows| - start else p.limit
  {
    var start := if p.offset < 0 then 0 else p.offset;
    if start >= |rows| then []
    else if |rows| - start < p.limit then rows[start..]
    else rows[start..start + p.limit]
  }

  /** The `pagination` object `paginatedQuery` returns. */
  datatype Pagination = Pagination(page: int, pageSize: int, total: nat, totalPages: int, hasNext: bool, hasPrev: bool)

  function PaginationOf(page: int, pageSize: int, total: nat): (r: Pagination)
    requires pageSize >= 1
    ensures r.page == page && r.pageSize == pageSize && r.total == total
    ensures (r.totalPages - 1) * pageSize < total <= r.totalPages * pageSize
    ensures r.hasNext <==> page * pageSize < total
    ensures r.hasPrev <==> page > 1
  {
    Pagination(page, pageSize, total, Security.CeilDiv(total, pageSize), page * pageSize < total, page > 1)
  }

  /** Walking the pages in order visits every row exactly once: the window
      of page `n` starts where the window of page `n - 1` ended, and there
      is a next page exactly when rows remain after this one. */
  lemma PagesTile<T>(rows: seq<T>, page: int, pageSize: int)
    requires page >= 1 && pageSize >= 1
    ensures Paginate(page + 1, pageSize).offset == Paginate(page, pageSize).offset + pageSize
    ensures PaginationOf(page, pageSize, |rows|).hasNext
        <==> |Window(rows, Paginate(page + 1, pageSize))| > 0
  {
    assert (page + 1 - 1) * pageSize == (page - 1) * pageSize + pageSize;
    assert page * pageSize == (page - 1) * pageSize + pageSize;
  }

  // ---------------------------------------------------------------------
  // monitor

  const WindowSize := 100

  /** `PerformanceMonitor.metrics`. */
  datatype Metrics = Metrics(requests: nat, responseTimes: seq<int>, errors: nat, cacheHits: nat, cacheMisses: nat)

  function NewMetrics(): (m: Metrics)
    ensures m.requests == 0 && m.errors == 0 && m.cacheHits == 0 && m.cacheMisses == 0 && m.responseTimes == []
  {
    Metrics(0, [], 0, 0, 0)
  }

  function RecordRequest(m: Metrics): (m': Metrics)
    ensures m' == m.(requests := m.requests + 1)
  {
    m.(requests := m.requests + 1)
  }

  function RecordError(m: Metrics): (m': Metrics)
    ensures m' == m.(errors := m.errors + 1)
  {
    m.(errors := m.errors + 1)
  }

  function RecordCacheHit(m: Metrics): (m': Metrics)
    ensures m' == m.(cacheHits := m.cacheHits + 1)
  {
    m.(cacheHits := m.cacheHits + 1)
  }

  function RecordCacheMiss(m: Metrics): (m': Metrics)
    ensures m' == m.(cacheMisses := m.cacheMisses + 1)
  {
    m.(cacheMisses := m.cacheMisses + 1)
  }

  /** `recordResponseTime(t)`: append, then drop the oldest entry once the
      list is longer than 100. */
  function RecordResponseTime(m: Metrics, t: int): (m': Metrics)
    ensures |m.responseTimes| <= WindowSize ==> |m'.responseTimes| <= WindowSize
    ensures |m'.responseTimes| > 0 && m'.responseTimes[|m'.responseTimes| - 1] == t
    ensures m'.responseTimes == if |m.responseTimes| + 1 > WindowSize then (m.responseTimes + [t])[1..] else m.responseTimes + [t]
    ensures m' == m.(responseTimes := m'.responseTimes)
  {
    var times := m.responseTimes + [t];
    m.(responseTimes := if |times| > WindowSize then times[1..] else times)
  }

  /** The last `n` elements of `s`. */
  function Last<T>(s: seq<T>, n: nat): seq<T>
    requires n <= |s|
  {
    s[|s| - n..]
  }

  /** Taking the last `n` of `x + y` does not depend on how much of `x`
      beyond its last `n - |y|` elements is kept. */
  lemma LastOfSuffix<T>(x: seq<T>, y: seq<T>, d: nat, n: nat)
    requires d <= |x| && n <= |x| - d + |y|
    ensures Last(x[d..] + y, n) == Last(x + y, n)
  {
    assert x[d..] + y == (x + y)[d..];
  }

  /** The window keeps the most recent times, in arrival order: starting
      from a window of at most 100 entries, after any run of recordings it
      holds exactly the last `min(100, everything recorded)` times. */
  lemma {:induction false} WindowIsSuffix(m: Metrics, ts: seq<int>)
    requires |m.responseTimes| <= WindowSize
    ensures var all := m.responseTimes + ts;
      RecordAll(m, ts).responseTimes == Last(all, Min(|all|, WindowSize))
    decreases |ts|
  {
    var all := m.responseTimes + ts;
    if |ts| == 0 {
      assert all == m.responseTimes;
    } else {
      var m1 := RecordResponseTime(m, ts[0]);
      WindowIsSuffix(m1, ts[1..]);
      var x := m.responseTimes + [ts[0]];
      assert x + ts[1..] == all;
      var d := if |x| > WindowSize then 1 else 0;
      assert m1.responseTimes == x[d..];
      LastOfSuffix(x, ts[1..], d, Min(|all| - d, WindowSize));
    }
  }

  /** Recording a sequence of response times one by one. */
  function RecordAll(m: Metrics, ts: seq<int>): Metrics
    decreases |ts|
  {
    if |ts| == 0 then m else RecordAll(RecordResponseTime(m, ts[0]), ts[1..])
  }

  /** `reset()`. */
  function Reset(m: Metrics): (m': Metrics)
    ensures m' == NewMetrics()
  {
    NewMetrics()
  }

  // ---------------------------------------------------------------------
  // connection pool

  const DatabaseUnavailable := Response(503, Text("Database connection failed"), map[])

  /** The decision `PerformanceMiddleware.connectionPool()` takes before
      `next`: the probe query `SELECT 1` throws exactly when the database
      is down, and then the answer is 503 and `next` is not called. */
  function ConnectionPoolGate(db: Db): (g: Security.Gate)
    ensures g == Security.Pass <==> db.up
    ensures !db.up ==> g == Security.Stop(DatabaseUnavailable)
  {
    if db.up then Security.Pass else Security.Stop(DatabaseUnavailable)
  }
}
