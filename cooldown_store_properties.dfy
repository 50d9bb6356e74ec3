/** What the cooldown store guarantees, and where its cache and its two backends part ways. */
module CooldownStoreProperties {
  import opened RebusTypes
  import opened Cooldowns
  import opened CooldownStore

  /** Rows are keyed without the type: after an upsert exactly one row describes the chest, the last write. */
  lemma UpsertLeavesOneRowPerChest(st: StoreState, ctx: string, p: PlayerId, kind: CooldownType, chest: string,
                                   seconds: int, now: int)
    ensures var t := Upsert(st, ctx, p, kind, chest, seconds, now, true).table;
      (set c | c in RowsOf(t, p, ctx) && c.chest == chest) == {Cooldown(ctx, kind, chest, now + seconds)}
  {
    var t := Upsert(st, ctx, p, kind, chest, seconds, now, true).table;
    var k := RowKey(p, ctx, chest);
    assert t[k] == Row(kind, now + seconds);
    assert AsCooldown(k, t[k]) in RowsOf(t, p, ctx);
  }

  /** Upserting OPEN and then BUY for the same chest leaves one row, carrying BUY and the second expiry. */
  lemma OpenThenBuyKeepsLastWrite(st: StoreState, ctx: string, p: PlayerId, chest: string,
                                  d1: int, t1: int, d2: int, t2: int)
    ensures var st2 := Upsert(Upsert(st, ctx, p, Open, chest, d1, t1, true), ctx, p, Buy, chest, d2, t2, true);
      && st2.table[RowKey(p, ctx, chest)] == Row(Buy, t2 + d2)
      && (set c | c in RowsOf(st2.table, p, ctx) && c.chest == chest) == {Cooldown(ctx, Buy, chest, t2 + d2)}
  {
    UpsertLeavesOneRowPerChest(Upsert(st, ctx, p, Open, chest, d1, t1, true), ctx, p, Buy, chest, d2, t2);
  }

  /**
   * A cache hit appends without removing the older entry for the same chest: the cache then
   * holds two entries for the chest while the table holds one row.
   */
  lemma CacheHitKeepsStaleEntry(st: StoreState, ctx: string, p: PlayerId, kind: CooldownType, chest: string,
                                old_: Cooldown, seconds: int, now: int)
    requires p in st.cache && !st.cache[p].immutable
    requires old_ in st.cache[p].items && old_.chest == chest && old_.context == ctx
    requires old_.expiresAt != now + seconds
    ensures var st2 := Upsert(st, ctx, p, kind, chest, seconds, now, true);
      && old_ in st2.cache[p].items && Cooldown(ctx, kind, chest, now + seconds) in st2.cache[p].items
      && |set c | c in RowsOf(st2.table, p, ctx) && c.chest == chest| == 1
  {
    UpsertLeavesOneRowPerChest(st, ctx, p, kind, chest, seconds, now);
  }

  /**
   * The stale entry left by a cache hit can be met first by getCooldown: it is expired, so the
   * row is deleted even though the cooldown written last is still running.
   */
  lemma StaleEntryDeletesLiveRow(backend: Backend, ctx: string, p: PlayerId, kind: CooldownType, chest: string,
                                 older: int, newer: int, now: int)
    requires older <= now < newer
    ensures var stale := Cooldown(ctx, kind, chest, older);
      var live := Cooldown(ctx, kind, chest, newer);
      var st := StoreState(map[RowKey(p, ctx, chest) := Row(kind, newer)], map[p := CachedSet({stale, live}, false)]);
      var st' := Delete(st, ctx, p, kind, chest, true);
      && RemainingOutcome(backend, st, ctx, p, kind, chest, now, true, true,
                          Some(CachedSet({stale, live}, false)), Some(stale), Ok(0), st')
      && RowKey(p, ctx, chest) !in st'.table
  {
  }

  /**
   * The `Set.of` singleton cached on a miss cannot grow: a second chest upserted for the same
   * player reaches the table but not the cache, and getCooldown then reports it as not running.
   */
  lemma SingletonCacheHidesLaterWrite(backend: Backend, st: StoreState, ctx: string, p: PlayerId, kind: CooldownType,
                                      k1: string, k2: string, d1: int, d2: int, t: int, now: int,
                                      readOk: bool, deleteOk: bool,
                                      list: Option<CachedSet>, chosen: Option<Cooldown>, r: Result<int>, st3: StoreState)
    requires p !in st.cache && k1 != k2
    requires var st2 := Upsert(Upsert(st, ctx, p, kind, k1, d1, t, true), ctx, p, kind, k2, d2, t, true);
      RemainingOutcome(backend, st2, ctx, p, kind, k2, now, readOk, deleteOk, list, chosen, r, st3)
    requires now < t + d2
    ensures RowKey(p, ctx, k2) in st3.table && st3.table[RowKey(p, ctx, k2)].expiresAt == t + d2
    ensures st3.cache[p] == CachedSet({Cooldown(ctx, kind, k1, t + d1)}, true)
    ensures r == Ok(0)
  {
    var c1 := Cooldown(ctx, kind, k1, t + d1);
    var st2 := Upsert(Upsert(st, ctx, p, kind, k1, d1, t, true), ctx, p, kind, k2, d2, t, true);
    assert st2.cache[p] == CachedSet({c1}, true);
    assert list == Some(CachedSet({c1}, true));
    assert !Matches(c1, kind, k2, ctx);
  }

  /**
   * Right after an upsert on a cache miss, the remaining time is the part of the duration not
   * yet elapsed: in (0, d] while running, 0 afterwards, and the expired row is then deleted.
   */
  lemma RemainingAfterFreshUpsert(backend: Backend, st: StoreState, ctx: string, p: PlayerId, kind: CooldownType,
                                  chest: string, d: int, t: int, now: int, readOk: bool, deleteOk: bool,
                                  list: Option<CachedSet>, chosen: Option<Cooldown>, r: Result<int>, st2: StoreState)
    requires p !in st.cache && d > 0 && t <= now
    requires RemainingOutcome(backend, Upsert(st, ctx, p, kind, chest, d, t, true), ctx, p, kind, chest, now,
                              readOk, deleteOk, list, chosen, r, st2)
    ensures r == Ok(if now < t + d then t + d - now else 0)
    ensures 0 <= r.value <= d && (now < t + d ==> r.value > 0)
    ensures now >= t + d && deleteOk ==> RowKey(p, ctx, chest) !in st2.table
  {
    var c := Cooldown(ctx, kind, chest, t + d);
    var st1 := Upsert(st, ctx, p, kind, chest, d, t, true);
    assert st1.cache[p] == CachedSet({c}, true);
    assert list == Some(CachedSet({c}, true));
    assert chosen == Some(c);
  }

  /** A chest with no cached entry and no row reads as 0 and the table is left as it was. */
  lemma UnknownChestReadsZero(backend: Backend, st: StoreState, ctx: string, p: PlayerId, kind: CooldownType,
                              chest: string, now: int, deleteOk: bool,
                              list: Option<CachedSet>, chosen: Option<Cooldown>, r: Result<int>, st2: StoreState)
    requires p in st.cache ==> forall c | c in st.cache[p].items :: !Matches(c, kind, chest, ctx)
    requires RowKey(p, ctx, chest) !in st.table
    requires RemainingOutcome(backend, st, ctx, p, kind, chest, now, true, deleteOk, list, chosen, r, st2)
    ensures r == Ok(0) && st2.table == st.table
  {
    if !(p in st.cache && st.cache[p].items != {}) {
      forall c | c in list.value.items
        ensures !Matches(c, kind, chest, ctx)
      {
        if backend == SQLite {
          var k :| k in st.table && k.player == p && k.context == ctx && c == AsCooldown(k, st.table[k]);
        } else {
          assert c in RowsOf(st.table, p, ctx);
          var k :| k in st.table && k.player == p && k.context == ctx && c == AsCooldown(k, st.table[k]);
        }
      }
    }
  }

  /** The remaining time getCooldown reports is never negative. */
  lemma RemainingIsNonNegative(backend: Backend, st: StoreState, ctx: string, p: PlayerId, kind: CooldownType,
                               chest: string, now: int, readOk: bool, deleteOk: bool,
                               list: Option<CachedSet>, chosen: Option<Cooldown>, r: Result<int>, st2: StoreState)
    requires RemainingOutcome(backend, st, ctx, p, kind, chest, now, readOk, deleteOk, list, chosen, r, st2)
    ensures r.Ok? ==> r.value >= 0
  {
  }

  /**
   * On a miss whose query fails, getCooldowns returns null: the SQLite backend then faults in
   * getCooldown while the MySQL backend reports "no cooldown".
   */
  lemma FailedReadDiffersByBackend(st: StoreState, ctx: string, p: PlayerId, kind: CooldownType, chest: string,
                                   now: int, deleteOk: bool,
                                   l1: Option<CachedSet>, ch1: Option<Cooldown>, r1: Result<int>, s1: StoreState,
                                   l2: Option<CachedSet>, ch2: Option<Cooldown>, r2: Result<int>, s2: StoreState)
    requires p !in st.cache
    requires RemainingOutcome(SQLite, st, ctx, p, kind, chest, now, false, deleteOk, l1, ch1, r1, s1)
    requires RemainingOutcome(MySQL, st, ctx, p, kind, chest, now, false, deleteOk, l2, ch2, r2, s2)
    ensures r1 == Fault && r2 == Ok(0) && s1 == st && s2 == st
  {
  }

  /**
   * With two live rows and an empty cache, SQLite loads both and reports the second chest's
   * remaining time, while MySQL may load only the first row and report the second chest as free.
   */
  lemma MySqlMissCanHideLiveRow(ctx: string, p: PlayerId, kind: CooldownType, k1: string, k2: string,
                                e1: int, e2: int, now: int, deleteOk: bool,
                                list: Option<CachedSet>, chosen: Option<Cooldown>, r: Result<int>, st2: StoreState)
    requires k1 != k2 && now < e2
    requires var st := StoreState(map[RowKey(p, ctx, k1) := Row(kind, e1), RowKey(p, ctx, k2) := Row(kind, e2)], map[]);
      RemainingOutcome(SQLite, st, ctx, p, kind, k2, now, true, deleteOk, list, chosen, r, st2)
    ensures r == Ok(e2 - now)
    ensures var st := StoreState(map[RowKey(p, ctx, k1) := Row(kind, e1), RowKey(p, ctx, k2) := Row(kind, e2)], map[]);
      var only1 := CachedSet({Cooldown(ctx, kind, k1, e1)}, false);
      RemainingOutcome(MySQL, st, ctx, p, kind, k2, now, true, deleteOk, Some(only1), None, Ok(0), AfterLoad(st, p, Some(only1)))
  {
    var t := map[RowKey(p, ctx, k1) := Row(kind, e1), RowKey(p, ctx, k2) := Row(kind, e2)];
    var c1 := Cooldown(ctx, kind, k1, e1);
    var c2 := Cooldown(ctx, kind, k2, e2);
    assert AsCooldown(RowKey(p, ctx, k1), t[RowKey(p, ctx, k1)]) == c1;
    assert AsCooldown(RowKey(p, ctx, k2), t[RowKey(p, ctx, k2)]) == c2;
    assert RowsOf(t, p, ctx) == {c1, c2};
    assert chosen == Some(c2);
  }

  /** removeAllCooldowns leaves no row for the player in the context and drops the whole cache entry. */
  lemma DeleteAllClearsPlayer(st: StoreState, ctx: string, p: PlayerId)
    ensures var st' := DeleteAll(st, ctx, p, true);
      && RowsOf(st'.table, p, ctx) == {} && p !in st'.cache
      && forall k | k in st.table && (k.player != p || k.context != ctx) :: k in st'.table && st'.table[k] == st.table[k]
  {
  }

  /** removeCooldowns matches the type too: a BUY removal leaves an OPEN row for the chest in place. */
  lemma DeleteRequiresMatchingType(st: StoreState, ctx: string, p: PlayerId, chest: string)
    requires RowKey(p, ctx, chest) in st.table && st.table[RowKey(p, ctx, chest)].kind == Open
    ensures Delete(st, ctx, p, Buy, chest, true).table == st.table
  {
  }
}
