/**
 * The cooldown store behind `IDatabase`: a durable table of cooldown rows with a
 * per-player read cache in front of it. The two backends (SqlLiteDatabase and
 * MySqlDatabase) share one class here; `backend` selects where they differ.
 */
module CooldownStore {
  import opened RebusTypes
  import opened Cooldowns

  datatype Backend = SQLite | MySQL

  /** The table's primary key is (PlayerId, Context, Chest): the cooldown type is not part of it. */
  datatype RowKey = RowKey(player: PlayerId, context: string, chest: string)
  datatype Row = Row(kind: CooldownType, expiresAt: int)

  /**
   * A cached set of cooldowns. `immutable` marks the `Set.of(...)` singleton that
   * addCooldown caches on a miss: `add` and `removeIf` on it throw, and the store's
   * catch-all handler swallows the exception.
   */
  datatype CachedSet = CachedSet(items: set<Cooldown>, immutable: bool)

  type Table = map<RowKey, Row>
  type Cache = map<PlayerId, CachedSet>

  /** The abstract state of a store: the backend table and the read cache. */
  datatype StoreState = StoreState(table: Table, cache: Cache)

  function AsCooldown(k: RowKey, r: Row): Cooldown
  {
    Cooldown(k.context, r.kind, k.chest, r.expiresAt)
  }

  /** What `SELECT * FROM cooldowns WHERE PlayerId=? AND Context=?` returns. */
  function RowsOf(t: Table, p: PlayerId, ctx: string): set<Cooldown>
  {
    set k | k in t && k.player == p && k.context == ctx :: AsCooldown(k, t[k])
  }

  /** The filter used by removeCooldowns and getCooldown: type, chest and context. */
  predicate Matches(c: Cooldown, kind: CooldownType, chest: string, ctx: string)
  {
    c.kind == kind && c.chest == chest && c.context == ctx
  }

  /** The rows a cache miss loads: every row (SQLite's `while`) or at most one (MySQL's `if`). */
  predicate Loaded(backend: Backend, rows: set<Cooldown>, loaded: set<Cooldown>)
  {
    match backend
    case SQLite => loaded == rows
    case MySQL => loaded <= rows && |loaded| <= 1 && (rows != {} ==> loaded != {})
  }

  /** addCooldown: upsert the row, then insert into the cache (singleton on a miss, append on a hit). */
  function Upsert(st: StoreState, ctx: string, p: PlayerId, kind: CooldownType, chest: string,
                  seconds: int, now: int, ok: bool): StoreState
  {
    if !ok then st
    else
      var c := Cooldown(ctx, kind, chest, now + seconds);
      var table := st.table[RowKey(p, ctx, chest) := Row(kind, now + seconds)];
      if p !in st.cache then StoreState(table, st.cache[p := CachedSet({c}, true)])
      else if st.cache[p].immutable then StoreState(table, st.cache)
      else StoreState(table, st.cache[p := CachedSet(st.cache[p].items + {c}, false)])
  }

  /** removeCooldowns: delete the row if its type matches too, and filter the cached set. */
  function Delete(st: StoreState, ctx: string, p: PlayerId, kind: CooldownType, chest: string, ok: bool): StoreState
  {
    if !ok then st
    else
      var k := RowKey(p, ctx, chest);
      var table := if k in st.table && st.table[k].kind == kind then st.table - {k} else st.table;
      if p !in st.cache || st.cache[p].immutable then StoreState(table, st.cache)
      else
        var kept := set c | c in st.cache[p].items && !Matches(c, kind, chest, ctx);
        StoreState(table, st.cache[p := CachedSet(kept, false)])
  }

  /** removeAllCooldowns: delete every (player, context) row and invalidate the player's cache entry. */
  function DeleteAll(st: StoreState, ctx: string, p: PlayerId, ok: bool): StoreState
  {
    if !ok then st
    else
      var table := map k | k in st.table && !(k.player == p && k.context == ctx) :: st.table[k];
      StoreState(table, st.cache - {p})
  }

  /**
   * getCooldowns: a present, non-empty cached set is returned as it is; otherwise a
   * failed query yields null (None) and a successful one yields the loaded rows.
   */
  predicate LoadResult(backend: Backend, st: StoreState, ctx: string, p: PlayerId, ok: bool, r: Option<CachedSet>)
  {
    if p in st.cache && st.cache[p].items != {} then r == Some(st.cache[p])
    else if !ok then r == None
    else r.Some? && !r.value.immutable && Loaded(backend, RowsOf(st.table, p, ctx), r.value.items)
  }

  /** The state after getCooldowns returned `r`: a loaded set is cached, nothing else changes. */
  function AfterLoad(st: StoreState, p: PlayerId, r: Option<CachedSet>): StoreState
  {
    if r.None? then st else StoreState(st.table, st.cache[p := r.value])
  }

  /**
   * getCooldown: `list` is what getCooldowns returned, `chosen` the first matching entry
   * the loop met (iteration order of a hash set is unspecified, so any matching entry may
   * be first). A live match yields its seconds to expiry; an expired one is deleted and
   * yields 0. SQLite dereferences a null list; MySQL treats it as "no cooldown".
   */
  ghost predicate RemainingOutcome(backend: Backend, st: StoreState, ctx: string, p: PlayerId,
                                   kind: CooldownType, chest: string, now: int, readOk: bool, deleteOk: bool,
                                   list: Option<CachedSet>, chosen: Option<Cooldown>, r: Result<int>, st': StoreState)
  {
    && LoadResult(backend, st, ctx, p, readOk, list)
    && var mid := AfterLoad(st, p, list);
    match list
    case None =>
      chosen.None? && st' == mid && r == (if backend == SQLite then Fault else Ok(0))
    case Some(cs) =>
      && (chosen.None? <==> forall c | c in cs.items :: !Matches(c, kind, chest, ctx))
      && (chosen.None? ==> r == Ok(0) && st' == mid)
      && (chosen.Some? ==>
            && chosen.value in cs.items && Matches(chosen.value, kind, chest, ctx)
            && if chosen.value.expiresAt > now then r == Ok(chosen.value.expiresAt - now) && st' == mid
               else r == Ok(0) && st' == Delete(mid, ctx, p, kind, chest, deleteOk))
  }

  /**
   * The store. The outcome of each backend round trip (connection, statement, query)
   * is the boolean parameter `ok`, `readOk` or `deleteOk`; `now` is the current time.
   */
  class Store {
    const backend: Backend
    const context: string
    var table: Table
    var cache: Cache

    function State(): StoreState
      reads this
    {
      StoreState(table, cache)
    }

    constructor (backend: Backend, context: string)
      ensures this.backend == backend && this.context == context
      ensures table == map[] && cache == map[]
    {
      this.backend := backend;
      this.context := context;
      table := map[];
      cache := map[];
    }

    method AddCooldown(p: PlayerId, kind: CooldownType, chest: string, seconds: int, now: int, ok: bool)
      modifies this
      ensures State() == Upsert(old(State()), context, p, kind, chest, seconds, now, ok)
    {
      if !ok {
        return;  // the backend call threw; logged, nothing changed
      }
      var expiresAt := now + seconds;
      table := table[RowKey(p, context, chest) := Row(kind, expiresAt)];
      var c := Cooldown(context, kind, chest, expiresAt);
      if p !in cache {
        cache := cache[p := CachedSet({c}, true)];
      } else if !cache[p].immutable {
        cache := cache[p := CachedSet(cache[p].items + {c}, false)];
      }
      // else: add on the immutable singleton throws after the row was written; the cache keeps its old set
    }

    method RemoveCooldowns(p: PlayerId, kind: CooldownType, chest: string, ok: bool)
      modifies this
      ensures State() == Delete(old(State()), context, p, kind, chest, ok)
    {
      if !ok {
        return;
      }
      var k := RowKey(p, context, chest);
      if k in table && table[k].kind == kind {
        table := table - {k};
      }
      if p in cache && !cache[p].immutable {
        var kept := set c | c in cache[p].items && !Matches(c, kind, chest, context);
        cache := cache[p := CachedSet(kept, false)];
      }
    }

    method RemoveAllCooldowns(p: PlayerId, ok: bool)
      modifies this
      ensures State() == DeleteAll(old(State()), context, p, ok)
    {
      if !ok {
        return;
      }
      table := map k | k in table && !(k.player == p && k.context == context) :: table[k];
      cache := cache - {p};
    }

    /** Caffeine's size- and time-based eviction, which may drop any entry at any time. */
    method Evict(p: PlayerId)
      modifies this
      ensures table == old(table) && cache == old(cache) - {p}
    {
      cache := cache - {p};
    }

    method GetCooldowns(p: PlayerId, ok: bool) returns (r: Option<CachedSet>)
      modifies this
      ensures LoadResult(backend, old(State()), context, p, ok, r)
      ensures State() == AfterLoad(old(State()), p, r)
    {
      if p in cache && cache[p].items != {} {
        return Some(cache[p]);
      }
      if !ok {
        return None;
      }
      var rows := RowsOf(table, p, context);
      var loaded: set<Cooldown> := {};
      match backend {
        case SQLite =>
          var pending := rows;
          while pending != {}
            invariant pending <= rows && loaded == rows - pending
            decreases pending
          {
            var c :| c in pending;
            loaded := loaded + {c};
            pending := pending - {c};
          }
        case MySQL =>
          if rows != {} {
            var c :| c in rows;
            loaded := {c};
          }
      }
      r := Some(CachedSet(loaded, false));
      cache := cache[p := r.value];
    }

    method GetCooldown(p: PlayerId, kind: CooldownType, chest: string, now: int, readOk: bool, deleteOk: bool)
      returns (r: Result<int>, ghost list: Option<CachedSet>, ghost chosen: Option<Cooldown>)
      modifies this
      ensures RemainingOutcome(backend, old(State()), context, p, kind, chest, now, readOk, deleteOk,
                               list, chosen, r, State())
    {
      var cooldowns := GetCooldowns(p, readOk);
      list := cooldowns;
      chosen := None;
      r := Ok(0);
      if cooldowns.None? {
        if backend == SQLite {
          r := Fault;  // `for (Cooldown cd : null)`
        }
        return;
      }
      ghost var mid := State();
      var pending := cooldowns.value.items;
      while pending != {}
        invariant pending <= cooldowns.value.items
        invariant forall c | c in cooldowns.value.items - pending :: !Matches(c, kind, chest, context)
        invariant State() == mid && chosen.None? && r == Ok(0)
        decreases pending
      {
        var c :| c in pending;
        if Matches(c, kind, chest, context) {
          chosen := Some(c);
          if c.expiresAt > now {
            r := Ok(c.expiresAt - now);
          } else {
            RemoveCooldowns(p, kind, chest, deleteOk);
          }
          break;
        }
        pending := pending - {c};
      }
    }
  }
}
