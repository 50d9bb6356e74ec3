/**
 * Per-player in-memory state (models/PlayerCache.java) and the registry of those states with
 * its marked-for-removal set (managers/PlayerCacheManager.java).
 */
module PlayerCaches {
  import opened RebusTypes
  import opened Cooldowns
  import opened CooldownStore
  import opened Chests
  import opened Menus

  /** The test every PlayerCache search applies: same context, same chest, not expired. The kind is not compared. */
  predicate LiveMatch(c: Cooldown, ctx: string, chestKey: string, now: int)
  {
    c.context == ctx && !IsExpired(c, now) && c.chest == chestKey
  }

  /** `addBuyCooldown` on values: drop every entry for the context and chest, then add the new one. */
  function WithBuyCooldown(s: set<Cooldown>, ctx: string, chestKey: string, expiresAt: int): set<Cooldown>
  {
    (set c | c in s && !(c.context == ctx && c.chest == chestKey)) + {Cooldown(ctx, Buy, chestKey, expiresAt)}
  }

  /** After `addBuyCooldown` there is exactly one entry for the pair, and entries for other pairs are untouched. */
  lemma BuyCooldownIsUnique(s: set<Cooldown>, ctx: string, chestKey: string, expiresAt: int)
    ensures var r := WithBuyCooldown(s, ctx, chestKey, expiresAt);
      && (set c | c in r && c.context == ctx && c.chest == chestKey) == {Cooldown(ctx, Buy, chestKey, expiresAt)}
      && forall c: Cooldown | !(c.context == ctx && c.chest == chestKey) :: c in r <==> c in s
  {
    var r := WithBuyCooldown(s, ctx, chestKey, expiresAt);
    var n := Cooldown(ctx, Buy, chestKey, expiresAt);
    assert n in r;
  }

  /** A buy cooldown added with a positive duration makes `isUnderBuyCooldown` true until it expires. */
  lemma AddedBuyCooldownIsLive(s: set<Cooldown>, ctx: string, chestKey: string, now: int, seconds: int, t: int)
    requires seconds >= 0 && now <= t <= now + seconds
    ensures exists c | c in WithBuyCooldown(s, ctx, chestKey, now + seconds) :: LiveMatch(c, ctx, chestKey, t)
  {
    assert LiveMatch(Cooldown(ctx, Buy, chestKey, now + seconds), ctx, chestKey, t);
  }

  class PlayerCache {
    const player: PlayerId
    var guiOpened: bool
    var mainMenu: Option<Menu>
    /** The set `getCooldowns` returned at construction; `None` when that read failed. */
    var cooldowns: Option<CachedSet>
    var buyCooldowns: set<Cooldown>
    /** The preview window's state, which PreviewGUI reads and writes through this object. */
    var previewChest: Option<RebusChest>
    var previewPage: int
    const previewMenu: Menu

    /** A fresh cache: GUI closed, no menu, no buy cooldowns, open cooldowns read from the store. */
    constructor (p: PlayerId, store: Store, readOk: bool)
      modifies store
      ensures player == p && !guiOpened && mainMenu.None? && buyCooldowns == {}
      ensures LoadResult(store.backend, old(store.State()), store.context, p, readOk, cooldowns)
      ensures store.State() == AfterLoad(old(store.State()), p, cooldowns)
      ensures previewChest.None? && previewPage == 1 && fresh(previewMenu)
    {
      player := p;
      guiOpened := false;
      mainMenu := None;
      buyCooldowns := {};
      previewChest := None;
      previewPage := 1;
      previewMenu := new Menu();
      new;
      cooldowns := store.GetCooldowns(p, readOk);
    }

    method SetGuiOpened(b: bool)
      modifies this`guiOpened
      ensures guiOpened == b
    {
      guiOpened := b;
    }

    /** `getMainMenu`: the menu is created by the first call only; later calls return the same object. */
    method GetMainMenu(cfg: GuiConfig) returns (m: Menu)
      modifies this`mainMenu
      ensures old(mainMenu).Some? ==> m == old(mainMenu).value && mainMenu == old(mainMenu)
      ensures old(mainMenu).None? ==> fresh(m) && m.buttons == MainLayout(cfg)
      ensures mainMenu == Some(m)
    {
      if mainMenu.None? {
        var created := CreateMainMenu(cfg);
        mainMenu := Some(created);
      }
      m := mainMenu.value;
    }

    /** `isUnderBuyCooldown`: some buy entry for the context and chest has not expired. */
    method IsUnderBuyCooldown(ctx: string, chestKey: string, now: int) returns (b: bool)
      ensures b <==> exists c | c in buyCooldowns :: LiveMatch(c, ctx, chestKey, now)
    {
      var pending := buyCooldowns;
      while pending != {}
        invariant pending <= buyCooldowns
        invariant forall c | c in buyCooldowns - pending :: !LiveMatch(c, ctx, chestKey, now)
        decreases pending
      {
        var c :| c in pending;
        if LiveMatch(c, ctx, chestKey, now) {
          return true;
        }
        pending := pending - {c};
      }
      return false;
    }

    /**
     * `getBuyCooldown`: 0 when no buy entry is live; otherwise the seconds left on the first live
     * entry met, which is some live entry, the set's iteration order being unspecified.
     */
    method GetBuyCooldown(ctx: string, chestKey: string, now: int) returns (r: int)
      ensures (forall c | c in buyCooldowns :: !LiveMatch(c, ctx, chestKey, now)) ==> r == 0
      ensures (exists c | c in buyCooldowns :: LiveMatch(c, ctx, chestKey, now)) ==>
                exists c | c in buyCooldowns :: LiveMatch(c, ctx, chestKey, now) && r == c.expiresAt - now
      ensures r >= 0
    {
      r := FirstLiveRemaining(buyCooldowns, ctx, chestKey, now);
    }

    /** `getCooldown`: the same search over the open cooldowns; iterating a failed read's null set throws. */
    method GetCooldown(ctx: string, chestKey: string, now: int) returns (r: Result<int>)
      ensures cooldowns.None? <==> r.Fault?
      ensures cooldowns.Some? && (forall c | c in cooldowns.value.items :: !LiveMatch(c, ctx, chestKey, now)) ==> r == Ok(0)
      ensures cooldowns.Some? && (exists c | c in cooldowns.value.items :: LiveMatch(c, ctx, chestKey, now)) ==>
                exists c | c in cooldowns.value.items :: LiveMatch(c, ctx, chestKey, now) && r == Ok(c.expiresAt - now)
    {
      if cooldowns.None? {
        return Fault;
      }
      var left := FirstLiveRemaining(cooldowns.value.items, ctx, chestKey, now);
      return Ok(left);
    }

    /** `addBuyCooldown`: the new entry expires the chest's cooldown from now. */
    method AddBuyCooldown(ctx: string, chest: RebusChest, now: int)
      modifies this`buyCooldowns
      ensures buyCooldowns == WithBuyCooldown(old(buyCooldowns), ctx, chest.key, now + chest.cooldown)
    {
      buyCooldowns := set c | c in buyCooldowns && !(c.context == ctx && c.chest == chest.key);
      buyCooldowns := buyCooldowns + {Cooldown(ctx, Buy, chest.key, now + chest.cooldown)};
    }
  }

  /** The loop shared by `getBuyCooldown` and `getCooldown`. */
  method FirstLiveRemaining(s: set<Cooldown>, ctx: string, chestKey: string, now: int) returns (r: int)
    ensures (forall c | c in s :: !LiveMatch(c, ctx, chestKey, now)) ==> r == 0
    ensures (exists c | c in s :: LiveMatch(c, ctx, chestKey, now)) ==>
              exists c | c in s :: LiveMatch(c, ctx, chestKey, now) && r == c.expiresAt - now
    ensures r >= 0
  {
    var pending := s;
    while pending != {}
      invariant pending <= s
      invariant forall c | c in s - pending :: !LiveMatch(c, ctx, chestKey, now)
      decreases pending
    {
      var c :| c in pending;
      if LiveMatch(c, ctx, chestKey, now) {
        return c.expiresAt - now;
      }
      pending := pending - {c};
    }
    return 0;
  }

  /** The registry: cached player states by id, and the ids marked for removal. */
  class PlayerCacheManager {
    var data: map<PlayerId, PlayerCache>
    var marked: set<PlayerId>

    constructor ()
      ensures data == map[] && marked == {}
    {
      data := map[];
      marked := {};
    }

    method Add(p: PlayerId, c: PlayerCache)
      modifies this`data
      ensures data == old(data)[p := c]
    {
      data := data[p := c];
    }

    method Remove(p: PlayerId)
      modifies this`data
      ensures data == old(data) - {p}
    {
      data := data - {p};
    }

    /** `clear` empties the registry and leaves the marked set alone. */
    method Clear()
      modifies this`data
      ensures data == map[]
    {
      data := map[];
    }

    method Get(p: PlayerId) returns (r: Option<PlayerCache>)
      ensures r.Some? <==> p in data
      ensures r.Some? ==> r.value == data[p]
    {
      if p in data {
        return Some(data[p]);
      }
      return None;
    }

    method MarkForRemoval(p: PlayerId)
      modifies this`marked
      ensures marked == old(marked) + {p}
    {
      marked := marked + {p};
    }

    method UnmarkForRemoval(p: PlayerId)
      modifies this`marked
      ensures marked == old(marked) - {p}
    {
      marked := marked - {p};
    }

    method IsMarkedForRemoval(p: PlayerId) returns (b: bool)
      ensures b <==> p in marked
    {
      return p in marked;
    }

    method IsMarkedForRemovalEmpty() returns (b: bool)
      ensures b <==> marked == {}
    {
      return marked == {};
    }

    /** A copy of the marked set; being a value, changing it cannot change the registry. */
    method GetMarkedForRemovalSet() returns (s: set<PlayerId>)
      ensures s == marked
    {
      return marked;
    }
  }

  /** `add` then `get` returns what was added; a second `add` for the same id replaces it. */
  lemma AddThenGet(data: map<PlayerId, PlayerCache>, p: PlayerId, c1: PlayerCache, c2: PlayerCache, q: PlayerId)
    ensures data[p := c1][p] == c1
    ensures data[p := c1][p := c2] == data[p := c2]
    ensures q != p ==> (q in data[p := c1] <==> q in data) && (q in data ==> data[p := c1][q] == data[q])
  {
  }
}
