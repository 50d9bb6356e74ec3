# Rebus loot chests, modelled in Dafny

Rebus is a Minecraft server plugin that sells loot chests. The model covers its game logic.

- A player buys a chest item in a menu (`MainGUI`). The purchase checks permission, a free inventory slot, the balance and two cooldowns, then charges the player.
- The player places the item (`BlockEventListener.onBlockPlace`). A chain of guards admits the placement, and `ChestManager.handlePlaceChest` starts a four-phase unlock timer.
- When the timer completes, `RebusChest.reward` rolls a weighted bundle of items. It delivers the bundle into the inventory or drops it at the player, and records an OPEN cooldown.
- Cooldowns live in a table keyed by (player, context, chest). A per-player read cache sits in front of the table (`SqlLiteDatabase`, `MySqlDatabase`).
- Per-player state lives in `PlayerCache`, `PlayerCacheManager` and `CacheCleanTask`.
- A preview window pages through a chest's possible items (`PreviewGUI`).
- The `/rebus` and `/rebusadmin` commands dispatch subcommands and show paginated help (`CommandRebus`, `CommandRebusAdmin`).

The model is organised as follows.

- One module per component. Common values (items, locations, messages, options) are in `types.dfy`.
- Objects whose fields the plugin updates are classes with `modifies` clauses. These include players, the cooldown store, caches, menus, chests, reward bundles, the unlock timer and game events.
- Decisions and formulas are functions, with lemmas stating their properties.
- Each method's `ensures` ties its new state to a specification function: `Upsert`, `Delete`, `DeleteAll`, `LoadResult`, `Distribute`, `Fill`, `PageMessages`, `AdminRoute` and so on. The lemmas prove what the plugin promises about those functions.
- Outside effects become parameters:
  - the clock is `now`, in whole seconds;
  - `Math.random()` is `draw` in [0, 1);
  - the success of each database round trip is a boolean;
  - the server's player lookup is a `Player` plus an `online` flag.

Some points where the model follows the code rather than its description:

- Give resolves chests by exact key, but placing a chest matches keys ignoring case.
- The preview's next-page button counts reward bundles, while the window lists the possible items.
- Help pages can overlap, and the last page can be empty.
- The MySQL backend loads only one row on a cache miss.
- The cached `Set.of` singleton cannot grow.
- The SQLite backend faults on a failed read, where MySQL reports no cooldown.

Each of these is stated as a lemma below.

## Model

| member | source | states |
|---|---|---|
| Cooldowns.SecondsLeft | src/main/java/io/github/tavstaldev/rebus/database/SqlLiteDatabase.java:226-227 | `Duration.between(now, expiresAt).abs()` in seconds: the distance to the expiry, forward while running, backward once expired |
| Cooldowns.NotExpiredAtExpiry | src/main/java/io/github/tavstaldev/rebus/models/Cooldown.java:63-65 | at `now == expiresAt` a cooldown is not expired (`isAfter` is strict) |
| Cooldowns.ExpiryIsMonotone | src/main/java/io/github/tavstaldev/rebus/models/Cooldown.java:63-65 | once expired at t, a cooldown is expired at every later t' |
| CooldownStore.Store.AddCooldown | src/main/java/io/github/tavstaldev/rebus/database/SqlLiteDatabase.java:91-120 | the new state is `Upsert`: row (player, context, chest) set to (type, now+seconds); then a cache miss caches an immutable singleton, a hit on a mutable set appends, a hit on the singleton leaves the cache (the `add` throws and is caught); a failed backend call changes nothing |
| CooldownStore.Store.RemoveCooldowns | src/main/java/io/github/tavstaldev/rebus/database/SqlLiteDatabase.java:130-150 | the new state is `Delete`: the row goes only if its type matches too; the cached set loses exactly the entries matching type, chest and context |
| CooldownStore.Store.RemoveAllCooldowns | src/main/java/io/github/tavstaldev/rebus/database/SqlLiteDatabase.java:158-173 | the new state is `DeleteAll`: every (player, context) row goes and the player's cache entry is invalidated |
| CooldownStore.Store.Evict | src/main/java/io/github/tavstaldev/rebus/database/SqlLiteDatabase.java:25-28 | the cache library may drop a player's entry at any time; the table is untouched |
| CooldownStore.Store.GetCooldowns | src/main/java/io/github/tavstaldev/rebus/database/SqlLiteDatabase.java:182-208 | `LoadResult`: a present non-empty cached set is returned unchanged; otherwise a failed query returns null without caching, a successful one loads every row (SQLite) or at most one row (MySQL), caches and returns it |
| CooldownStore.Store.GetCooldown | src/main/java/io/github/tavstaldev/rebus/database/SqlLiteDatabase.java:220-236 | `RemainingOutcome`: 0 without a matching entry; for the first matching entry its seconds to expiry if live, else the entry is deleted and 0; a null list faults on SQLite and reads 0 on MySQL |
| CooldownStoreProperties.UpsertLeavesOneRowPerChest | src/main/java/io/github/tavstaldev/rebus/database/SqlLiteDatabase.java:93-107 | the type is not part of the key: after an upsert exactly one row describes the chest, the one just written |
| CooldownStoreProperties.OpenThenBuyKeepsLastWrite | src/main/java/io/github/tavstaldev/rebus/database/MySqlDatabase.java:111-123 | upserting OPEN then BUY for one chest leaves one row with type BUY and the second expiry |
| CooldownStoreProperties.CacheHitKeepsStaleEntry | src/main/java/io/github/tavstaldev/rebus/database/SqlLiteDatabase.java:110-116 | on a cache hit the older entry for the chest stays: the cache holds two entries where the table holds one row |
| CooldownStoreProperties.StaleEntryDeletesLiveRow | src/main/java/io/github/tavstaldev/rebus/database/SqlLiteDatabase.java:224-233 | `getCooldown` may meet the stale expired entry first, report 0 and delete the row of the cooldown that is still running |
| CooldownStoreProperties.SingletonCacheHidesLaterWrite | src/main/java/io/github/tavstaldev/rebus/database/MySqlDatabase.java:126-135 | after a miss cached the singleton, a second chest's cooldown reaches the table but not the cache, and `getCooldown` reads it as 0 |
| CooldownStoreProperties.RemainingAfterFreshUpsert | src/main/java/io/github/tavstaldev/rebus/database/SqlLiteDatabase.java:220-235 | right after an upsert the remaining time is in (0, d] while running and 0 afterwards, when the expired row is deleted |
| CooldownStoreProperties.UnknownChestReadsZero | src/main/java/io/github/tavstaldev/rebus/database/MySqlDatabase.java:236-253 | a chest with no cached entry and no row reads 0 and leaves the table as it was |
| CooldownStoreProperties.RemainingIsNonNegative | src/main/java/io/github/tavstaldev/rebus/database/MySqlDatabase.java:242-253 | the remaining time is never negative |
| CooldownStoreProperties.FailedReadDiffersByBackend | src/main/java/io/github/tavstaldev/rebus/database/MySqlDatabase.java:238-240 | on a miss with a failed query, SQLite faults (it iterates over null) while MySQL returns 0; neither changes the state |
| CooldownStoreProperties.MySqlMissCanHideLiveRow | src/main/java/io/github/tavstaldev/rebus/database/MySqlDatabase.java:211-215 | with two live rows and an empty cache, SQLite reports the second chest's time while MySQL may load only the first row and report 0 |
| CooldownStoreProperties.DeleteAllClearsPlayer | src/main/java/io/github/tavstaldev/rebus/database/MySqlDatabase.java:174-189 | after `removeAllCooldowns` no row of the player in the context and no cache entry remain; every other row is unchanged |
| CooldownStoreProperties.DeleteRequiresMatchingType | src/main/java/io/github/tavstaldev/rebus/database/MySqlDatabase.java:148-162 | a BUY removal leaves an OPEN row for the same chest in place |
| TimeFormat.JavaDivTruncates | src/main/java/io/github/tavstaldev/rebus/util/TimeUtil.java:25-28 | Java's `/` on `long` truncates toward zero: the quotient has the dividend's sign and `b*q` is the nearest multiple of `b` between 0 and `a` |
| TimeFormat.JavaRem | src/main/java/io/github/tavstaldev/rebus/util/TimeUtil.java:25-28 | Java's `%`: `a == b*(a/b) + r`, with the sign of `a` |
| TimeFormat.DecomposeRecombines | src/main/java/io/github/tavstaldev/rebus/util/TimeUtil.java:25-28 | for s >= 0: days*86400 + hours*3600 + minutes*60 + secs == s, with hours < 24, minutes < 60, secs < 60 |
| TimeFormat.NonPositiveShowsNothing | src/main/java/io/github/tavstaldev/rebus/util/TimeUtil.java:30-49 | a duration of zero or less formats to nothing |
| TimeFormat.PositiveShowsItsValue | src/main/java/io/github/tavstaldev/rebus/util/TimeUtil.java:24-49 | a positive duration shows at least one part, and the shown parts add up to it |
| TimeFormat.PartsOrderedAndLeading | src/main/java/io/github/tavstaldev/rebus/util/TimeUtil.java:30-46 | parts appear in the order days, hours, minutes, seconds; the first shown part is positive |
| TimeFormat.VisibilityRules | src/main/java/io/github/tavstaldev/rebus/util/TimeUtil.java:31-46 | days shown iff days > 0; hours iff hours or days > 0; minutes iff minutes, hours or days > 0; seconds iff secs > 0 |
| TimeFormat.AppendedIsJoinedPlusSpace | src/main/java/io/github/tavstaldev/rebus/util/TimeUtil.java:30-46 | the buffer is the parts joined by single spaces plus one trailing space |
| TimeFormat.TrimmedIsJoined | src/main/java/io/github/tavstaldev/rebus/util/TimeUtil.java:48-49 | trimming the buffer gives the parts separated by single spaces |
| Rewards.ResolveNoLarger | src/main/java/io/github/tavstaldev/rebus/models/Reward.java:28-37 | a bundle resolves to at most as many stacks as it has ids |
| Rewards.ResolveMembers | src/main/java/io/github/tavstaldev/rebus/models/Reward.java:28-37 | a stack is in the resolution iff some id of the bundle maps to it in the item table; unknown ids are skipped |
| Rewards.Reward.constructor | src/main/java/io/github/tavstaldev/rebus/models/Reward.java:15-22 | the weight and ids are the constructor's, and nothing is cached yet |
| Rewards.Reward.GetItemStacks | src/main/java/io/github/tavstaldev/rebus/models/Reward.java:24-40 | a cached non-empty resolution is returned without reading the table; otherwise the ids are resolved afresh and the result, even an empty one, is cached |
| Players.FirstEmpty | src/main/java/io/github/tavstaldev/rebus/gui/MainGUI.java:144 | `firstEmpty` is -1 iff every slot holds a stack, else the lowest empty slot |
| Players.FullIffNoEmptySlot | src/main/java/io/github/tavstaldev/rebus/gui/MainGUI.java:144 | `firstEmpty() == -1` iff the inventory has no empty slot |
| Players.AddUsesOneEmptySlot | src/main/java/io/github/tavstaldev/rebus/models/RebusChest.java:105-106 | adding into a non-full inventory stores exactly that stack, uses one empty slot and moves no stored stack (whole-stack `addItem`, see Left out) |
| Players.RemoveTakesEveryEqualStack | src/main/java/io/github/tavstaldev/rebus/managers/ChestManager.java:158-159 | `remove(item)` takes out every stack equal to the item and no other |
| Players.RemoveCanTakeMoreThanOneItem | src/main/java/io/github/tavstaldev/rebus/managers/ChestManager.java:158-159 | two single-item stacks of the same chest both vanish when one is placed |
| Chests.ParseRewardsChar | src/main/java/io/github/tavstaldev/rebus/models/RebusChest.java:167-177 | the reward list is accepted iff every map entry has a numeric or absent chance and an item list; non-map entries are skipped; one reward per map entry with its chance (25 when absent) and ids |
| Chests.ParsedPermission | src/main/java/io/github/tavstaldev/rebus/models/RebusChest.java:133 | an absent key leaves no permission (Java null); a present one is never empty, and it is "rebus.use" iff the key holds "" or "rebus.use" |
| Chests.RejectedWithoutRewardData | src/main/java/io/github/tavstaldev/rebus/models/RebusChest.java:146-165 | a missing or unreadable reward file, or one without a `data` map, rejects the chest |
| Chests.MissingItemsRejectChest | src/main/java/io/github/tavstaldev/rebus/models/RebusChest.java:172-173 | one entry without an item list rejects the whole chest |
| Chests.MissingChanceIs25 | src/main/java/io/github/tavstaldev/rebus/models/RebusChest.java:171 | an entry without a chance weighs 25 |
| Chests.RebusChest.constructor | src/main/java/io/github/tavstaldev/rebus/models/RebusChest.java:41-57 | every field is the given value |
| Chests.RebusChest.Item | src/main/java/io/github/tavstaldev/rebus/models/RebusChest.java:59-69 | the chest item has the chest's material, the amount, and the chest key as its tag |
| Chests.RebusChest.Give | src/main/java/io/github/tavstaldev/rebus/models/RebusChest.java:59-71 | the tagged item is added to the player's inventory |
| Chests.FromMap | src/main/java/io/github/tavstaldev/rebus/models/RebusChest.java:127-184 | returns null iff `ParseChest` rejects; otherwise a new chest whose fields are `ParseChest`'s (an absent permission key stays absent), with one fresh uncached bundle per accepted entry |
| Menus.MainLayoutSlots | src/main/java/io/github/tavstaldev/rebus/gui/MainGUI.java:47-59 | the close button holds its slot; with filling on, every other slot of rows*9 is a placeholder; nothing else is set |
| Menus.DefaultMainLayout | src/main/java/io/github/tavstaldev/rebus/RebusConfig.java:55-61 | with the default configuration the menu is slots 0..8: eight placeholders and the close button in slot 8 |
| Menus.CreateMainMenu | src/main/java/io/github/tavstaldev/rebus/gui/MainGUI.java:40-61 | the slot loop and close button produce exactly `MainLayout` |
| PlayerCaches.BuyCooldownIsUnique | src/main/java/io/github/tavstaldev/rebus/models/PlayerCache.java:62-67 | after `addBuyCooldown` exactly one entry exists for (context, chest), with the new expiry; entries for other pairs are untouched |
| PlayerCaches.AddedBuyCooldownIsLive | src/main/java/io/github/tavstaldev/rebus/models/PlayerCache.java:62-67 | the added entry is live from now until now + cooldown |
| PlayerCaches.PlayerCache.constructor | src/main/java/io/github/tavstaldev/rebus/models/PlayerCache.java:21-27 | GUI closed, no menu, no buy cooldowns, open cooldowns as `getCooldowns` loads them |
| PlayerCaches.PlayerCache.SetGuiOpened | src/main/java/io/github/tavstaldev/rebus/models/PlayerCache.java:33-35 | the flag takes the value |
| PlayerCaches.PlayerCache.GetMainMenu | src/main/java/io/github/tavstaldev/rebus/models/PlayerCache.java:37-42 | the first call creates the menu with `MainLayout`; later calls return the same menu |
| PlayerCaches.PlayerCache.IsUnderBuyCooldown | src/main/java/io/github/tavstaldev/rebus/models/PlayerCache.java:52-60 | true iff a buy entry for the context and chest key is not expired |
| PlayerCaches.PlayerCache.GetBuyCooldown | src/main/java/io/github/tavstaldev/rebus/models/PlayerCache.java:69-77 | 0 without a live match, else the seconds to the expiry of a live match |
| PlayerCaches.PlayerCache.GetCooldown | src/main/java/io/github/tavstaldev/rebus/models/PlayerCache.java:79-87 | the same over the open cooldowns; a null set faults |
| PlayerCaches.PlayerCache.AddBuyCooldown | src/main/java/io/github/tavstaldev/rebus/models/PlayerCache.java:62-67 | the set becomes `WithBuyCooldown`, expiring at now + the chest's cooldown |
| PlayerCaches.FirstLiveRemaining | src/main/java/io/github/tavstaldev/rebus/models/PlayerCache.java:71-76 | the search loop: 0 without a live match, else the seconds to expiry of a live match |
| PlayerCaches.PlayerCacheManager.constructor | src/main/java/io/github/tavstaldev/rebus/managers/PlayerCacheManager.java:13-14 | both collections start empty |
| PlayerCaches.PlayerCacheManager.Add | src/main/java/io/github/tavstaldev/rebus/managers/PlayerCacheManager.java:22-24 | the id maps to the new cache, replacing any previous one |
| PlayerCaches.PlayerCacheManager.Remove | src/main/java/io/github/tavstaldev/rebus/managers/PlayerCacheManager.java:31-33 | only that id's entry is removed |
| PlayerCaches.PlayerCacheManager.Clear | src/main/java/io/github/tavstaldev/rebus/managers/PlayerCacheManager.java:38-40 | the data map is emptied; the marked set is left alone |
| PlayerCaches.PlayerCacheManager.Get | src/main/java/io/github/tavstaldev/rebus/managers/PlayerCacheManager.java:48-50 | the entry, or null iff the id has none |
| PlayerCaches.PlayerCacheManager.MarkForRemoval | src/main/java/io/github/tavstaldev/rebus/managers/PlayerCacheManager.java:57-59 | set insertion |
| PlayerCaches.PlayerCacheManager.UnmarkForRemoval | src/main/java/io/github/tavstaldev/rebus/managers/PlayerCacheManager.java:66-68 | set deletion |
| PlayerCaches.PlayerCacheManager.IsMarkedForRemoval | src/main/java/io/github/tavstaldev/rebus/managers/PlayerCacheManager.java:76-78 | membership |
| PlayerCaches.PlayerCacheManager.IsMarkedForRemovalEmpty | src/main/java/io/github/tavstaldev/rebus/managers/PlayerCacheManager.java:85-87 | true iff nothing is marked |
| PlayerCaches.PlayerCacheManager.GetMarkedForRemovalSet | src/main/java/io/github/tavstaldev/rebus/managers/PlayerCacheManager.java:94-96 | a value equal to the marked set; the manager is unchanged |
| PlayerCaches.AddThenGet | src/main/java/io/github/tavstaldev/rebus/managers/PlayerCacheManager.java:22-24 | `get` after `add(id, d)` gives d; a second `add` replaces the first; other ids are untouched |
| CacheCleaning.Run | src/main/java/io/github/tavstaldev/rebus/tasks/CacheCleanTask.java:19-39 | afterwards nothing is marked and the data map is the old one without the marked ids |
| CacheCleaning.SweepKeepsUnmarked | src/main/java/io/github/tavstaldev/rebus/tasks/CacheCleanTask.java:25-38 | no marked id keeps an entry; every unmarked id keeps exactly its entry |
| ChestRewards.RandomValueInRange | src/main/java/io/github/tavstaldev/rebus/models/RebusChest.java:79-80 | for a positive total, `(int)(random * total)` lies in [0, total) |
| ChestRewards.Select | src/main/java/io/github/tavstaldev/rebus/models/RebusChest.java:81-85 | the cumulative loop returns the first bundle whose running sum exceeds the draw, or none if no running sum does |
| ChestRewards.SelectedBandIff | src/main/java/io/github/tavstaldev/rebus/models/RebusChest.java:83-85 | with non-negative weights, bundle i is chosen iff the draw lies in [prefix(i), prefix(i+1)) |
| ChestRewards.PositiveTotalAlwaysSelects | src/main/java/io/github/tavstaldev/rebus/models/RebusChest.java:79-85 | with non-negative weights and a positive total every draw selects a bundle, and that bundle has a positive weight |
| ChestRewards.ZeroWeightsSelectNothing | src/main/java/io/github/tavstaldev/rebus/models/RebusChest.java:79-85 | when every weight is zero the total and the draw are zero and no bundle is selected (`RewardPlayer` then sends NoRewards, by its `NoCrossing` ensures) |
| ChestRewards.NegativeWeightSelectsZeroWeightBundle | src/main/java/io/github/tavstaldev/rebus/models/RebusChest.java:79-85 | a negative weight makes the draw negative, and a zero-weight bundle before it is then selected |
| ChestRewards.DistributeFillsThenDrops | src/main/java/io/github/tavstaldev/rebus/models/RebusChest.java:94-110 | the inventory takes the first units, as many as it has empty slots, and exactly the rest are dropped, in order |
| ChestRewards.DistributeConserves | src/main/java/io/github/tavstaldev/rebus/models/RebusChest.java:88-116 | under whole-stack `addItem` (see Left out), stored plus dropped is the old contents plus the delivered units |
| ChestRewards.DistributeKeepsOccupied | src/main/java/io/github/tavstaldev/rebus/models/RebusChest.java:102-106 | stacks already in the inventory stay in their slots |
| ChestRewards.DeliverUnit | src/main/java/io/github/tavstaldev/rebus/models/RebusChest.java:94-102 | one unit goes into the first empty slot or is dropped, and the notice is sent on the first drop only |
| ChestRewards.DeliverCopies | src/main/java/io/github/tavstaldev/rebus/models/RebusChest.java:90-103 | an unstackable stack of n items is delivered as n single copies, each checked on its own |
| ChestRewards.Deliver | src/main/java/io/github/tavstaldev/rebus/models/RebusChest.java:86-116 | the delivery loop ends in `Distribute` of the units; InventoryFull is sent exactly when something was dropped, and once |
| ChestRewards.IterationOrder | src/main/java/io/github/tavstaldev/rebus/models/RebusChest.java:88 | iterating a hash set visits every element once, in an unspecified order |
| ChestRewards.RecordOpen | src/main/java/io/github/tavstaldev/rebus/models/RebusChest.java:117-121 | with a mutable cached set: one OPEN cooldown (now + cooldown) added to it, one store upsert, one RewardReceived, and no other cache field or entry touched; otherwise it throws before changing anything |
| ChestRewards.RewardPlayer | src/main/java/io/github/tavstaldev/rebus/models/RebusChest.java:73-125 | no bundle crossed: NoRewards and no change; else the first crossing bundle is delivered as `Distribute` says and, unless the bookkeeping throws, exactly one cooldown is recorded in cache and store; only that bundle's stack cache and the player's own cache entry change |
| ChestManagers.PutAllKeys | src/main/java/io/github/tavstaldev/rebus/managers/ChestManager.java:105-109 | the item table holds the old ids and every entry's id (-1 without one); ids not written keep their stacks |
| ChestManagers.PutAllLastWins | src/main/java/io/github/tavstaldev/rebus/managers/ChestManager.java:105-109 | the last entry with an id decides its stack |
| ChestManagers.TimerRunsFourPhases | src/main/java/io/github/tavstaldev/rebus/managers/ChestManager.java:169-223 | the timer plays phases 0, 1, 2, 3 once each in order; the fourth run cancels it and schedules the completion exactly once |
| ChestManagers.FireworkOnlyForHighTier | src/main/java/io/github/tavstaldev/rebus/managers/ChestManager.java:190-194 | the cue sequence of the four phases; the firework burst appears iff the chest is high tier |
| ChestManagers.CompletionTick | src/main/java/io/github/tavstaldev/rebus/managers/ChestManager.java:210-223 | delay 10, period 15 and completion delay 10 put the completion at tick 65 |
| ChestManagers.UnlockTimer.constructor | src/main/java/io/github/tavstaldev/rebus/managers/ChestManager.java:169-170 | phase 0, live, nothing scheduled |
| ChestManagers.UnlockTimer.Run | src/main/java/io/github/tavstaldev/rebus/managers/ChestManager.java:172-222 | one run is `Step`: play the phase's cues, advance the phase, cancel and schedule completion at phase 4 |
| ChestManagers.DirectionRegions | src/main/java/io/github/tavstaldev/rebus/managers/ChestManager.java:295-311 | EAST iff abs(x) > abs(z) and x > 0; WEST iff abs(x) > abs(z) and x <= 0; SOUTH iff abs(x) <= abs(z) and z > 0; NORTH otherwise |
| ChestManagers.DirectionIgnoresScale | src/main/java/io/github/tavstaldev/rebus/managers/ChestManager.java:295-311 | scaling the vector by a positive factor keeps the face |
| ChestManagers.DirectionReverses | src/main/java/io/github/tavstaldev/rebus/managers/ChestManager.java:295-311 | reversing a non-zero vector gives the opposite face |
| ChestManagers.ChestManager.constructor | src/main/java/io/github/tavstaldev/rebus/managers/ChestManager.java:34-44 | no chests, no items, empty guard sets |
| ChestManagers.ChestManager.Load | src/main/java/io/github/tavstaldev/rebus/managers/ChestManager.java:46-143 | unreadable items: nothing changes; a read that throws at entry k keeps entries 0..k-1 put and skips the chests; else items are put in order; a missing chests section clears the chests; otherwise exactly one new chest per accepted key is added to the old set, and every accepted key's spec describes one of them |
| ChestManagers.FailedReadKeepsEarlierEntries | src/main/java/io/github/tavstaldev/rebus/managers/ChestManager.java:105-115 | after a read that throws at entry k, every id of entries 0..k-1 is in the table, and an id in neither the old table nor those entries is not |
| ChestManagers.ChestManager.PutItems | src/main/java/io/github/tavstaldev/rebus/managers/ChestManager.java:105-109 | the table becomes `PutAll` of the entries |
| ChestManagers.BuildChests | src/main/java/io/github/tavstaldev/rebus/managers/ChestManager.java:126-142 | builds exactly one new chest per accepted key: as many chests as accepted keys, each described by an accepted key's section, and every accepted key's section describing one of them |
| ChestManagers.ChestManager.AddChests | src/main/java/io/github/tavstaldev/rebus/managers/ChestManager.java:126-142 | empty keys and non-sections are skipped; old chests stay, and the new chests are fresh, as many as the accepted keys, and each accepted key's spec describes one of them |
| ChestManagers.ChestManager.GetByKey | src/main/java/io/github/tavstaldev/rebus/managers/ChestManager.java:145-152 | a chest whose key equals the argument ignoring case, or null iff none does |
| ChestManagers.ChestManager.HandlePlaceChest | src/main/java/io/github/tavstaldev/rebus/managers/ChestManager.java:154-169 | location and player join the guard sets; a held stack of amount <= 1 is removed, a larger one loses one item in the held slot; a fresh timer starts at phase 0 |
| ChestManagers.ChestManager.Complete | src/main/java/io/github/tavstaldev/rebus/managers/ChestManager.java:210-220 | both guard entries are removed, then `reward` runs once: the chosen bundle, the delivery, the messages, the cache entry and the store end as `RewardPlayer` states |
| ChestManagers.GiveTagResolves | src/main/java/io/github/tavstaldev/rebus/models/RebusChest.java:68 | with keys unique up to case, `getByKey` on the tag of a given chest item finds that chest alone |
| Listeners.GuardRefusalOrder | src/main/java/io/github/tavstaldev/rebus/events/BlockEventListener.java:66-82 | the first failing guard wins: occupied location, then player already opening, then missing permission |
| Listeners.OnBlockPlace | src/main/java/io/github/tavstaldev/rebus/events/BlockEventListener.java:40-94 | untagged or unknown items are left alone; a resolved chest always cancels placement; the guards refuse with one message; a chest without a permission makes the permission check throw and nothing more happens; the OPEN cooldown blocks iff remaining > 0 without bypass; only when all pass does `handlePlaceChest` run |
| Listeners.OnBlockBreak | src/main/java/io/github/tavstaldev/rebus/events/BlockEventListener.java:102-112 | a cancelled event stays cancelled; otherwise it is cancelled iff the block is under unlocking |
| Listeners.OnInteract | src/main/java/io/github/tavstaldev/rebus/events/PlayerEventListener.java:54-63 | no clicked block: nothing; else cancelled when the block is under unlocking, untouched otherwise |
| Listeners.OnPlayerJoin | src/main/java/io/github/tavstaldev/rebus/events/PlayerEventListener.java:31-35 | a fresh cache is stored under the player's id |
| Listeners.OnPlayerQuit | src/main/java/io/github/tavstaldev/rebus/events/PlayerEventListener.java:43-46 | the player's cache entry is removed |
| Previews.ContentSlotGrid | src/main/java/io/github/tavstaldev/rebus/gui/PreviewGUI.java:136-138 | content slot i is in row i/7+1 and column i%7+1, within 10..43 |
| Previews.ContentSlotInjective | src/main/java/io/github/tavstaldev/rebus/gui/PreviewGUI.java:136-138 | distinct positions get distinct slots |
| Previews.ContentSlotAvoidsChrome | src/main/java/io/github/tavstaldev/rebus/gui/PreviewGUI.java:24-84 | no content slot is a border placeholder or one of slots 45, 48, 49, 50 |
| Previews.EachIndexHasOnePlace | src/main/java/io/github/tavstaldev/rebus/gui/PreviewGUI.java:136-137 | list index k is shown at page k/28+1, position k%28, and nowhere else |
| Previews.NavigationStaysInRange | src/main/java/io/github/tavstaldev/rebus/gui/PreviewGUI.java:58-83 | from a page in [1, maxPage] both buttons stay in range; each moves by one exactly when it can |
| Previews.ReachableIndices | src/main/java/io/github/tavstaldev/rebus/gui/PreviewGUI.java:76-83 | an item index is reachable iff it is below 28 * (1 + bundles/28) |
| Previews.TwentyNinthItemUnreachableWithOneBundle | src/main/java/io/github/tavstaldev/rebus/gui/PreviewGUI.java:134-142 | with one bundle and 29 listed items, the 29th is never shown |
| Previews.FillShowsPage | src/main/java/io/github/tavstaldev/rebus/gui/PreviewGUI.java:136-150 | each content slot shows the protected copy of its page's item, or is cleared past the list end; other slots are untouched |
| Previews.LayoutLeavesContentFree | src/main/java/io/github/tavstaldev/rebus/gui/PreviewGUI.java:39-85 | the fixed buttons leave every content slot empty |
| Previews.CreatePreviewMenu | src/main/java/io/github/tavstaldev/rebus/gui/PreviewGUI.java:39-85 | the menu is exactly `PreviewLayout` |
| Previews.Refresh | src/main/java/io/github/tavstaldev/rebus/gui/PreviewGUI.java:121-157 | the menu becomes `Refreshed`: page indicator, then the slot loop over the possible items |
| Previews.PreviousPageClick | src/main/java/io/github/tavstaldev/rebus/gui/PreviewGUI.java:58-64 | nothing when page-1 <= 0, else page-1 and a refresh |
| Previews.NextPageClick | src/main/java/io/github/tavstaldev/rebus/gui/PreviewGUI.java:76-83 | nothing when page+1 > 1 + bundles/28 (or with no chest), else page+1 and a refresh |
| Previews.OpenPreview | src/main/java/io/github/tavstaldev/rebus/gui/PreviewGUI.java:94-103 | chest remembered, GUI open, page 1, menu refreshed |
| MainMenus.PlaceChestButtons | src/main/java/io/github/tavstaldev/rebus/gui/MainGUI.java:106-180 | the loop faults iff some chest has no permission; without a fault every chest's slot shows a chest button configured for it; with one, only chests placed before it do; no other slot changes |
| MainMenus.RefreshMain | src/main/java/io/github/tavstaldev/rebus/gui/MainGUI.java:99-188 | without a cache entry nothing happens; else the cached (or newly created) menu gets the chest buttons as `PlaceChestButtons` states, a fault ending the loop, and no other field of the entry changes |
| MainMenus.OpenMain | src/main/java/io/github/tavstaldev/rebus/gui/MainGUI.java:75-81 | the GUI is marked open and the cached menu refreshed as `RefreshMain` states; non-chest buttons are kept and the other fields of the entry are unchanged |
| MainMenus.CloseGui | src/main/java/io/github/tavstaldev/rebus/gui/MainGUI.java:88-92 | the GUI is marked closed iff the player has a cache entry; no other field and no other entry changes |
| MainMenus.PurchaseRefusalOrder | src/main/java/io/github/tavstaldev/rebus/gui/MainGUI.java:137-154 | permission, then a free slot, then balance >= cost: each refusal names the first failing check, and none iff all pass |
| MainMenus.PurchasedItemIsStored | src/main/java/io/github/tavstaldev/rebus/gui/MainGUI.java:143-175 | a purchase that passes the checks stores the item and uses one empty slot |
| MainMenus.IntCast | src/main/java/io/github/tavstaldev/rebus/gui/MainGUI.java:172 | `(int)` of a double is within the int range |
| MainMenus.ChargeDropsTheFraction | src/main/java/io/github/tavstaldev/rebus/gui/MainGUI.java:171-172 | for 0 < cost < 2^31-1 the charge drops less than one unit of the fraction and never goes below zero |
| MainMenus.ChargeSaturates | src/main/java/io/github/tavstaldev/rebus/gui/MainGUI.java:172 | a price at or above 2^31-1 is charged as 2147483647 |
| MainMenus.ReadCooldown | src/main/java/io/github/tavstaldev/rebus/gui/MainGUI.java:157 | one store lookup, as `RemainingOutcome` allows |
| MainMenus.Pay | src/main/java/io/github/tavstaldev/rebus/gui/MainGUI.java:170-176 | balance charged as `Charged`; a BUY cooldown upserted only when positive; one chest item given; one PurchaseSuccessful |
| MainMenus.CheckCooldownsAndPay | src/main/java/io/github/tavstaldev/rebus/gui/MainGUI.java:156-176 | OPEN then BUY cooldown lookups, each blocking only when positive without its bypass node, then payment |
| MainMenus.Purchase | src/main/java/io/github/tavstaldev/rebus/gui/MainGUI.java:137-176 | a chest without a permission makes the first check throw and nothing changes; else the first failing check sends its message and nothing else changes; otherwise the cooldown chain and payment follow |
| MainMenus.PreviewClick | src/main/java/io/github/tavstaldev/rebus/gui/MainGUI.java:132-135 | a right click opens the preview and never purchases; only the clicking player's entry and preview menu change |
| Numbers.ParseIntRoundTrip | src/main/java/io/github/tavstaldev/rebus/commands/CommandRebusAdmin.java:89-97 | every int written by `String.valueOf` is parsed back unchanged |
| Numbers.ParseIntRefuses | src/main/java/io/github/tavstaldev/rebus/commands/CommandRebusAdmin.java:89-97 | only values in the int range parse; "", "-", "+" and "2x" are refused |
| HelpPages.ClampPage | src/main/java/io/github/tavstaldev/rebus/commands/CommandRebusAdmin.java:228-234 | the clamped page lies in [1, 1 + n/15] |
| HelpPages.ClampPageKeepsValidPages | src/main/java/io/github/tavstaldev/rebus/commands/CommandRebusAdmin.java:228-234 | a page in range is kept; above it becomes the last page, below 1 becomes 1 |
| HelpPages.Scan | src/main/java/io/github/tavstaldev/rebus/commands/CommandRebusAdmin.java:248-263 | the scan yields only usable entries at or after its start |
| HelpPages.ScanIsComplete | src/main/java/io/github/tavstaldev/rebus/commands/CommandRebusAdmin.java:248-263 | the scan is strictly increasing and misses no usable entry |
| HelpPages.ScanAllUsable | src/main/java/io/github/tavstaldev/rebus/commands/CommandRebusAdmin.java:248-263 | when every entry is usable the scan is start, start+1, … |
| HelpPages.ListEntries | src/main/java/io/github/tavstaldev/rebus/commands/CommandRebusAdmin.java:246-263 | the `i--`/`itemIndex` loop sends exactly the lines of `ShownIndices` and reports whether it ran off the list end; it terminates |
| HelpPages.ShowPage | src/main/java/io/github/tavstaldev/rebus/commands/CommandRebusAdmin.java:237-284 | title, info line, listed entries, footer, as `PageMessages` |
| HelpPages.Help | src/main/java/io/github/tavstaldev/rebus/commands/CommandRebus.java:138-196 | the requested page is clamped, then shown |
| HelpPages.ShownIndicesArePermittedInOrder | src/main/java/io/github/tavstaldev/rebus/commands/CommandRebus.java:157-174 | a page lists at most 15 entries, all usable, in increasing order, from raw index (page-1)*15 on, skipping none |
| HelpPages.FooterLinksStayInRange | src/main/java/io/github/tavstaldev/rebus/commands/CommandRebusAdmin.java:272-281 | previous is a link iff page > 1, next iff the loop did not reach the end and page+1 <= maxPage; each links to a page in range, and the link's number parses back |
| HelpPages.PagesCanOverlap | src/main/java/io/github/tavstaldev/rebus/commands/CommandRebus.java:157-174 | with one hidden and 15 open entries, index 15 is listed on both page 1 and page 2 |
| HelpPages.LastPageCanBeEmpty | src/main/java/io/github/tavstaldev/rebus/commands/CommandRebus.java:184-192 | with 15 usable entries page 1 links to page 2, which lists nothing |
| CommandHandlers.ShippedListsHaveOnePage | src/main/java/io/github/tavstaldev/rebus/commands/CommandRebusAdmin.java:30-58 | both shipped subcommand lists fit on one page, so every request shows page 1 |
| CommandHandlers.AdminRouteGuards | src/main/java/io/github/tavstaldev/rebus/commands/CommandRebusAdmin.java:70-219 | console only logs; a sender that is neither console nor player fails the cast; everything else needs rebus.admin; reload, npc, removenpcs, give and reset each need their node; give acts only on 3 arguments, reset on 2; no arguments shows help page 1; an unknown subcommand gives InvalidArguments |
| CommandHandlers.HelpPageArgument | src/main/java/io/github/tavstaldev/rebus/commands/CommandRebusAdmin.java:87-101 | InvalidPage iff the page argument does not parse; a parsed page goes to help unchanged |
| CommandHandlers.AdminRouteIgnoresCase | src/main/java/io/github/tavstaldev/rebus/commands/CommandRebusAdmin.java:86 | the subcommand is matched after lower-casing |
| CommandHandlers.UserRouteGuards | src/main/java/io/github/tavstaldev/rebus/commands/CommandRebus.java:62-130 | console only logs; a sender that is neither console nor player fails the cast; NoPermission iff the player lacks rebus.use; the menu opens iff the subcommand is "menu"; no arguments shows help page 1 |
| CommandHandlers.FindExact | src/main/java/io/github/tavstaldev/rebus/commands/CommandRebusAdmin.java:163-169 | a chest whose key equals the argument exactly, or none iff no key does |
| CommandHandlers.GiveLookupIsStricter | src/main/java/io/github/tavstaldev/rebus/commands/CommandRebusAdmin.java:163-169 | every exact match is a case-insensitive match, but "Gold" and "gold" match only ignoring case |
| CommandHandlers.Give | src/main/java/io/github/tavstaldev/rebus/commands/CommandRebusAdmin.java:157-185 | target offline: PlayerNotFound; no exact key: ChestNotFound; else one chest item to the target, Given to the sender and Received to the target |
| CommandHandlers.Reset | src/main/java/io/github/tavstaldev/rebus/commands/CommandRebusAdmin.java:198-207 | target offline: PlayerNotFound; else all the target's cooldowns removed, then ResetCooldowns to the sender and YourCooldownsReset to the target |
| CommandHandlers.OnAdminCommand | src/main/java/io/github/tavstaldev/rebus/commands/CommandRebusAdmin.java:70-219 | the route is `AdminRoute`; each route sends its reply, and `give` and `reset` have exactly the effects `Give` and `Reset` state (messages to both players, slots, store); a console or a failed cast sends nothing; nothing else changes |
| CommandHandlers.OnUserCommand | src/main/java/io/github/tavstaldev/rebus/commands/CommandRebus.java:62-130 | the route is `UserRoute`: help, version, InvalidPage, InvalidArguments, NoPermission, or the main menu opened as `OpenMain` states, sending nothing; a console or a failed cast sends nothing; no other route touches the cache |

## Left out

- Database plumbing: connections, SQL text, the connection pool and schema creation. The table is a map keyed by (player, context, chest). The intended one-row delete is modelled, whatever a driver makes of `LIMIT 1`.
- Cache eviction is one nondeterministic `Evict` operation. The size and time limits of the cache library are not modelled.
- Scheduling: ticks are sequential calls (`UnlockTimer.Run`, `ChestManager.Complete`). The server runs game logic on one thread.
- Particles, sounds, packets, block visuals and the chest's turn towards the player. Only the phase cues and `getDirectionFromVector` are kept.
- YAML and file reading: `load` and `fromMap` work on already parsed values (`ItemEntry`, `ChestEntry`, `ChestSection`, `RewardFile`). Copying the default resource files is not modelled. Neither are the particle and sound fields of a chest.
- Localisation and chat components: messages are tagged values (`Message`), and menus are maps from slots to buttons. Lore text, titles and item names are not modelled.
- The economy, permission and NPC plugins. The balance is a `real` field and permissions are a set of nodes. The `npc` and `removenpcs` actions, `reload` internals and the asynchronous update check after `version` are left out: only their replies are modelled.
- `Bukkit.getPlayer` becomes a `Player` parameter plus an `online` flag.
- Chests.RebusChest.Give: `addItem` never merges the chest item into an existing stack; it always takes the first empty slot.
- Players.AddUsesOneEmptySlot: Bukkit's `addItem` is library code and is modelled whole-stack. It does not merge into similar partial stacks, split at the maximum stack size, or return a leftover for a full inventory.
- Players.WithAdded: same whole-stack `addItem` as `Players.AddUsesOneEmptySlot`.
- MainMenus.PurchasedItemIsStored: the chest item lands whole in the first empty slot, with the same whole-stack `addItem`.
- ChestRewards.Distribute: each delivered unit takes the first empty slot whole or is dropped whole. The real `addItem` first tops up similar partial stacks and splits a stack above its maximum size, and its leftover is discarded.
- ChestRewards.DistributeFillsThenDrops: holds for the whole-stack `Distribute`; with merging, fewer slots could hold more units.
- ChestRewards.DistributeConserves: holds for the whole-stack `Distribute`. The source ignores the leftover map `addItem` returns, so with the real `addItem` a leftover is lost rather than dropped. That can happen when a stack above its maximum size is split and the empty slots run out.
- ChestRewards.DistributeKeepsOccupied: holds for the whole-stack `Distribute`; the real `addItem` may grow the amount of a stored similar stack.
- ChestRewards.Deliver: delivers by the whole-stack `Distribute`, not by Bukkit's merging `addItem`.
- ChestRewards.RewardPlayer: delivery follows the whole-stack `Distribute`, not Bukkit's merging `addItem`.
- PlayerCaches.PlayerCache.constructor: the source keeps the very `Set` object the store's cache returned, so adding to the player cache also grows the store's cached set. The model copies the set's value, so the two never share.
- ChestRewards.RecordOpen: the added cooldown goes into the player cache's copy only. In the source the store's cached set grows too, and because `Cooldown` has no `equals`, the store's own `addCooldown` can then add a second, equal-looking entry. Neither the sharing nor identity equality is modelled.
- ChestRewards.RewardPlayer: the Java `int` overflow of a huge sum of chances is not modelled, because the sum is unbounded.
- ChestRewards.RewardPlayer: the bundles are iterated in sequence order. The hash-set order of the source is unspecified.
- The untyped `addCooldown` call in `RebusChest.reward` is modelled as the typed OPEN call. `chest.getBuyCooldown` and `getPossibleItems` are modelled as fields of the chest, as is the player cache's preview state. None of these is defined in the chest and cache classes of this version.
- HelpPages.CanUse: `SubCommandData.hasPermission` is not part of this model. It is taken to let anyone use an empty node and to require any other node.
- Numbers.ParseIntRefuses: `Integer.parseInt` is modelled for ASCII digits only, and `toLowerCase` for ASCII letters only.
- CooldownStoreProperties.RemainingAfterFreshUpsert: the clock counts whole seconds. `Duration.getSeconds()` drops any fraction, so in the source a cooldown in its last sub-second reads 0 and no longer blocks. Sub-second remainders are not modelled, and the "(0, d]" holds at whole-second instants only.
- Chests.FromMap: a chance is read as an unbounded integer (`ChanceField.Number`). Java's `Number.intValue()` truncates a fractional value toward zero and wraps a `long` outside the `int` range. Neither conversion is modelled.
- Reloading does not clear the chests already loaded (`load` copies the old set). The model keeps this, as `ChestManager.Load` states.
