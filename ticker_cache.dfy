/** The A-share ticker cache `AShareTickerCache` of
    src/data_store/AShareTickerCache.py: an in-memory ticker table, the time
    it was last fetched, and an optional Redis store holding the table as a
    payload under one key with a time-to-live.

    Time is an integer `now` passed to each operation; the outcome of the
    data-fetch function and of each Redis command are parameters too. */
module TickerCache {
  import opened Wrappers

  /** One row of the ticker table (one record of the stored JSON list). */
  datatype TickerRecord = TickerRecord(ticker: string, name: string)

  type Table = seq<TickerRecord>

  /** What `GET key` returns: a JSON list of records, an empty string, or
      text that does not decode. */
  datatype Payload = Json(records: Table) | Blank | Malformed

  /** A Redis entry and the time at which its TTL runs out. */
  datatype Entry = Entry(payload: Payload, expiresAt: int)

  type Store = map<string, Entry>

  /** The outcome of `_data_fetch_func()`: a frame (possibly empty),
      `None`, or an exception. */
  datatype Fetch = Data(rows: Table) | NoData | Raised

  /** Settings read from the configuration at construction. */
  datatype Settings = Settings(key: string, ttl: int, updateInterval: int)

  const DefaultKey: string := "ashare_tickers_df"
  const DefaultTtl: int := 24 * 3600
  const DefaultUpdateInterval: int := 3600

  /** The settings `__new__` reads, each falling back to its default when
      the configuration does not have it. */
  function SettingsFrom(key: Option<string>, ttl: Option<int>, updateInterval: Option<int>): (r: Settings)
    ensures r.key == (if key.Some? then key.value else "ashare_tickers_df")
    ensures r.ttl == (if ttl.Some? then ttl.value else 86400)
    ensures r.updateInterval == (if updateInterval.Some? then updateInterval.value else 3600)
  {
    Settings(key.GetOr(DefaultKey), ttl.GetOr(DefaultTtl), updateInterval.GetOr(DefaultUpdateInterval))
  }

  /** The cache's state: `_tickers_df`, `_last_fetched_local_time`, and
      the Redis store (`None` when there is no client). */
  datatype CacheState = CacheState(tickers: Table, lastFetched: Option<int>, redis: Option<Store>)

  function TickerSet(t: Table): set<string> {
    set r | r in t :: r.ticker
  }

  /** `EXISTS key` at time `now`. */
  predicate KeyLive(redis: Option<Store>, key: string, now: int) {
    redis.Some? && key in redis.value && now < redis.value[key].expiresAt
  }

  /** `GET key` at time `now`. */
  function Read(redis: Option<Store>, key: string, now: int): Option<Payload> {
    if KeyLive(redis, key, now) then Some(redis.value[key].payload) else None
  }

  /** `_load_from_redis`. `redisError` is a `RedisError` raised by `GET`. */
  function Load(s: CacheState, cfg: Settings, now: int, redisError: bool): CacheState {
    if s.redis.None? then s
    else if redisError then s.(tickers := [], lastFetched := None)
    else match Read(s.redis, cfg.key, now)
      case Some(Json(records)) => s.(tickers := records, lastFetched := Some(now))
      case _ => s.(tickers := [], lastFetched := None)
  }

  /** `_save_to_redis(df)`. `redisError` is a `RedisError` raised by
      `SETEX`, which Redis also raises for a TTL that is not positive. */
  function Save(s: CacheState, cfg: Settings, df: Table, now: int, redisError: bool): CacheState {
    if s.redis.None? || df == [] then s
    else if redisError || cfg.ttl <= 0 then s
    else s.(tickers := df, lastFetched := Some(now),
            redis := Some(s.redis.value[cfg.key := Entry(Json(df), now + cfg.ttl)]))
  }

  /** `update_tickers_from_source(force_update)`. */
  function Update(s: CacheState, cfg: Settings, force: bool, now: int, fetch: Fetch, redisError: bool): CacheState {
    if !force && s.lastFetched.Some? && now - s.lastFetched.value < cfg.ttl then s
    else match fetch
      case Data(rows) =>
        if rows == [] then s
        else if s.tickers != [] && TickerSet(rows) == TickerSet(s.tickers) then s
        else Save(s, cfg, rows, now, redisError)
      case _ => s
  }

  /** `_init_cache`. */
  function Init(s: CacheState, cfg: Settings, now: int, fetch: Fetch, loadError: bool, saveError: bool): CacheState {
    var loaded := if s.redis.Some? then Load(s, cfg, now, loadError) else s;
    var stale := loaded.tickers == [] || loaded.lastFetched.None?
                 || now - loaded.lastFetched.value > cfg.ttl;
    var stale' := if loaded.redis.Some? && !KeyLive(loaded.redis, cfg.key, now) then false else stale;
    if loaded.tickers == [] || stale' then Update(loaded, cfg, true, now, fetch, saveError) else loaded
  }

  /** The decision of `_check_for_updates_background`: a refresh is forced
      when the local copy is missing or older than the update interval, or
      the Redis key is gone (always, without a client). */
  predicate BackgroundForces(s: CacheState, cfg: Settings, now: int) {
    || s.lastFetched.None?
    || now - s.lastFetched.value > cfg.updateInterval
    || !KeyLive(s.redis, cfg.key, now)
  }

  function Background(s: CacheState, cfg: Settings, now: int, fetch: Fetch, redisError: bool): CacheState {
    if BackgroundForces(s, cfg, now) then Update(s, cfg, true, now, fetch, redisError) else s
  }

  /** The cache object. Its methods change the fields exactly as the
      functions above say; `nextCheckAt` is when the re-armed timer fires. */
  class AShareTickerCache {
    var tickers: Table
    var lastFetched: Option<int>
    var redis: Option<Store>
    var nextCheckAt: int
    const cfg: Settings

    function State(): CacheState
      reads this
    {
      CacheState(tickers, lastFetched, redis)
    }

    /** `__new__`: an empty table and no fetch time, then `_init_cache` and
        `_start_auto_updater`. `key`, `ttl` and `updateInterval` are what the
        configuration holds under `ticker_data.*`, `None` when absent;
        `redis` is `None` when the connection failed. */
    constructor (key: Option<string>, ttl: Option<int>, updateInterval: Option<int>,
                 redis: Option<Store>, now: int, fetch: Fetch, loadError: bool, saveError: bool)
      ensures cfg == SettingsFrom(key, ttl, updateInterval)
      ensures State() == Init(CacheState([], None, redis), cfg, now, fetch, loadError, saveError)
      ensures nextCheckAt == now + cfg.updateInterval
    {
      this.cfg := SettingsFrom(key, ttl, updateInterval);
      tickers, lastFetched, this.redis := [], None, redis;
      nextCheckAt := now;
      new;
      InitCache(now, fetch, loadError, saveError);
      StartAutoUpdater(now);
    }

    method InitCache(now: int, fetch: Fetch, loadError: bool, saveError: bool)
      modifies this
      ensures State() == Init(old(State()), cfg, now, fetch, loadError, saveError)
      ensures nextCheckAt == old(nextCheckAt)
    {
      if redis.Some? {
        LoadFromRedis(now, loadError);
      }
      var isStale := tickers == [] || lastFetched.None? || now - lastFetched.value > cfg.ttl;
      if redis.Some? {
        var keyExists := KeyLive(redis, cfg.key, now);
        if !keyExists {
          isStale := false;
        }
      }
      if tickers == [] || isStale {
        UpdateTickersFromSource(true, now, fetch, saveError);
      }
    }

    method LoadFromRedis(now: int, redisError: bool)
      modifies this
      ensures State() == Load(old(State()), cfg, now, redisError)
      ensures nextCheckAt == old(nextCheckAt)
    {
      if redis.None? {
        return;
      }
      if redisError {
        tickers, lastFetched := [], None;
        return;
      }
      var payload := Read(redis, cfg.key, now);
      if payload.Some? && payload.value.Json? {
        tickers := payload.value.records;
        lastFetched := Some(now);
      } else {
        tickers, lastFetched := [], None;
      }
    }

    method UpdateTickersFromSource(force: bool, now: int, fetch: Fetch, redisError: bool)
      modifies this
      ensures State() == Update(old(State()), cfg, force, now, fetch, redisError)
      ensures nextCheckAt == old(nextCheckAt)
    {
      if !force && lastFetched.Some? && now - lastFetched.value < cfg.ttl {
        return;
      }
      if fetch.Data? && fetch.rows != [] {
        if tickers != [] && TickerSet(fetch.rows) == TickerSet(tickers) {
          return;
        }
        SaveToRedis(fetch.rows, now, redisError);
      }
    }

    method SaveToRedis(df: Table, now: int, redisError: bool)
      modifies this
      ensures State() == Save(old(State()), cfg, df, now, redisError)
      ensures nextCheckAt == old(nextCheckAt)
    {
      if redis.None? || df == [] {
        return;
      }
      if redisError || cfg.ttl <= 0 {
        return;
      }
      redis := Some(redis.value[cfg.key := Entry(Json(df), now + cfg.ttl)]);
      tickers := df;
      lastFetched := Some(now);
    }

    /** `_start_auto_updater`: arm the timer for one update interval. */
    method StartAutoUpdater(now: int)
      modifies this`nextCheckAt
      ensures nextCheckAt == now + cfg.updateInterval
    {
      nextCheckAt := now + cfg.updateInterval;
    }

    /** `_check_for_updates_background`, run when the timer fires. */
    method CheckForUpdatesBackground(now: int, fetch: Fetch, redisError: bool)
      modifies this
      ensures State() == Background(old(State()), cfg, now, fetch, redisError)
      ensures nextCheckAt == now + cfg.updateInterval
    {
      var isLocalStale := lastFetched.None? || now - lastFetched.value > cfg.updateInterval;
      var keyExists := false;
      if redis.Some? {
        keyExists := KeyLive(redis, cfg.key, now);
      }
      if isLocalStale || !keyExists {
        UpdateTickersFromSource(true, now, fetch, redisError);
      }
      StartAutoUpdater(now);
    }

    /** `get_tickers_df`: a copy of the table; nothing changes. */
    method GetTickersDf() returns (r: Table)
      ensures r == tickers
    {
      r := tickers;
    }
  }

  // ---------------------------------------------------------------------
  // Decision rules

  /** A non-forced update is a no-op while the local copy is younger than
      the TTL. */
  lemma FreshSkipsUpdate(s: CacheState, cfg: Settings, now: int, fetch: Fetch, redisError: bool)
    requires s.lastFetched.Some? && now - s.lastFetched.value < cfg.ttl
    ensures Update(s, cfg, false, now, fetch, redisError) == s
  {
  }

  /** A fetch that raises or returns nothing or an empty frame changes
      nothing. */
  lemma FailedFetchChangesNothing(s: CacheState, cfg: Settings, force: bool, now: int, fetch: Fetch, redisError: bool)
    requires fetch.Raised? || fetch.NoData? || fetch == Data([])
    ensures Update(s, cfg, force, now, fetch, redisError) == s
  {
  }

  /** When the cached table is non-empty and the fetched tickers are the
      same set, nothing is saved and nothing changes. */
  lemma SameTickersChangeNothing(s: CacheState, cfg: Settings, force: bool, now: int, rows: Table, redisError: bool)
    requires s.tickers != [] && TickerSet(rows) == TickerSet(s.tickers)
    ensures Update(s, cfg, force, now, Data(rows), redisError) == s
  {
  }

  /** An update either changes nothing or is a successful save of the
      fetched rows: the table becomes the rows, the fetch time `now`, and
      the key holds the rows until `now + ttl`. */
  lemma UpdateOutcomes(s: CacheState, cfg: Settings, force: bool, now: int, fetch: Fetch, redisError: bool)
    ensures var s' := Update(s, cfg, force, now, fetch, redisError);
            || s' == s
            || (&& fetch.Data? && fetch.rows != [] && s.redis.Some?
                && s' == s.(tickers := fetch.rows, lastFetched := Some(now),
                            redis := Some(s.redis.value[cfg.key := Entry(Json(fetch.rows), now + cfg.ttl)])))
  {
  }

  /** Saving and then loading before the TTL runs out restores the saved
      table. */
  lemma SaveThenLoad(s: CacheState, cfg: Settings, df: Table, now: int, later: int)
    requires s.redis.Some? && df != [] && cfg.ttl > 0
    requires now <= later < now + cfg.ttl
    ensures Load(Save(s, cfg, df, now, false), cfg, later, false).tickers == df
    ensures Load(Save(s, cfg, df, now, false), cfg, later, false).lastFetched == Some(later)
  {
  }

  /** Loading empties the table and forgets the fetch time unless the key
      is live and decodes. */
  lemma LoadMissOrBadPayload(s: CacheState, cfg: Settings, now: int, redisError: bool)
    requires s.redis.Some?
    requires redisError || Read(s.redis, cfg.key, now).None? || !Read(s.redis, cfg.key, now).value.Json?
    ensures Load(s, cfg, now, redisError).tickers == []
    ensures Load(s, cfg, now, redisError).lastFetched.None?
  {
  }

  /** With a Redis client, `_init_cache` refreshes from the source exactly
      when the load left the table empty: a loaded table is never stale,
      and when the key is absent staleness is cleared. */
  lemma InitWithRedis(s: CacheState, cfg: Settings, now: int, fetch: Fetch, loadError: bool, saveError: bool)
    requires s.redis.Some? && cfg.ttl >= 0
    ensures var loaded := Load(s, cfg, now, loadError);
            Init(s, cfg, now, fetch, loadError, saveError)
              == if loaded.tickers == [] then Update(loaded, cfg, true, now, fetch, saveError) else loaded
  {
  }

  /** Without a Redis client, `_init_cache` refreshes when the table is
      empty or older than the TTL. */
  lemma InitWithoutRedis(s: CacheState, cfg: Settings, now: int, fetch: Fetch, loadError: bool, saveError: bool)
    requires s.redis.None?
    ensures Init(s, cfg, now, fetch, loadError, saveError)
              == if s.tickers == [] || s.lastFetched.None? || now - s.lastFetched.value > cfg.ttl
                 then Update(s, cfg, true, now, fetch, saveError) else s
  {
  }

  /** With a live key and a local copy no older than the update interval,
      the background check leaves the cache alone. */
  lemma BackgroundFreshKeepsState(s: CacheState, cfg: Settings, now: int, fetch: Fetch, redisError: bool)
    requires s.lastFetched.Some? && now - s.lastFetched.value <= cfg.updateInterval
    requires KeyLive(s.redis, cfg.key, now)
    ensures Background(s, cfg, now, fetch, redisError) == s
  {
  }

  /** Without a Redis client the key never exists, so every background
      check forces a refresh. */
  lemma BackgroundWithoutRedis(s: CacheState, cfg: Settings, now: int, fetch: Fetch, redisError: bool)
    requires s.redis.None?
    ensures Background(s, cfg, now, fetch, redisError) == Update(s, cfg, true, now, fetch, redisError)
  {
  }

  // ---------------------------------------------------------------------
  // Whole runs of the cache

  /** One call into the cache. */
  datatype Op =
    | InitOp(now: int, fetch: Fetch, loadError: bool, saveError: bool)
    | LoadOp(now: int, redisError: bool)
    | UpdateOp(force: bool, now: int, fetch: Fetch, redisError: bool)
    | SaveOp(df: Table, now: int, redisError: bool)
    | BackgroundOp(now: int, fetch: Fetch, redisError: bool)
    | ReadOp

  function Step(s: CacheState, cfg: Settings, op: Op): CacheState {
    match op
    case InitOp(now, fetch, le, se) => Init(s, cfg, now, fetch, le, se)
    case LoadOp(now, e) => Load(s, cfg, now, e)
    case UpdateOp(force, now, fetch, e) => Update(s, cfg, force, now, fetch, e)
    case SaveOp(df, now, e) => Save(s, cfg, df, now, e)
    case BackgroundOp(now, fetch, e) => Background(s, cfg, now, fetch, e)
    case ReadOp => s
  }

  function Run(s: CacheState, cfg: Settings, ops: seq<Op>): CacheState
    decreases |ops|
  {
    if ops == [] then s else Run(Step(s, cfg, ops[0]), cfg, ops[1..])
  }

  /** Without a Redis client the in-memory table is only ever written
      together with Redis, so no sequence of calls changes it: the cache
      stays as it started (empty, after construction). */
  lemma {:induction false} NoRedisTableFrozen(s: CacheState, cfg: Settings, ops: seq<Op>)
    requires s.redis.None?
    ensures Run(s, cfg, ops) == s
    decreases |ops|
  {
    if ops != [] {
      assert Step(s, cfg, ops[0]) == s;
      NoRedisTableFrozen(s, cfg, ops[1..]);
    }
  }

  /** A non-empty table always has a fetch time. */
  predicate TimestampedWhenFilled(s: CacheState) {
    s.tickers != [] ==> s.lastFetched.Some?
  }

  /** Every run of the cache keeps a non-empty table timestamped. */
  lemma {:induction false} RunKeepsTimestamp(s: CacheState, cfg: Settings, ops: seq<Op>)
    requires TimestampedWhenFilled(s)
    ensures TimestampedWhenFilled(Run(s, cfg, ops))
    decreases |ops|
  {
    if ops != [] {
      assert TimestampedWhenFilled(Step(s, cfg, ops[0]));
      RunKeepsTimestamp(Step(s, cfg, ops[0]), cfg, ops[1..]);
    }
  }
}
