/**
 * The event handlers (events/BlockEventListener.java, events/PlayerEventListener.java): the
 * admission chain for placing a chest item, protection of blocks under unlocking, and the
 * per-player cache maintenance on join and quit.
 */
module Listeners {
  import opened RebusTypes
  import opened Cooldowns
  import opened CooldownStore
  import opened Players
  import opened Chests
  import opened PlayerCaches
  import opened ChestManagers

  /** A cancellable server event; only its cancelled flag is modelled. */
  class GameEvent {
    var cancelled: bool

    constructor (cancelled: bool)
      ensures this.cancelled == cancelled
    {
      this.cancelled := cancelled;
    }
  }

  /** The chest key an item in hand carries: none for air, for an item without meta, or without the tag. */
  function ChestTag(item: ItemStack): Option<string>
  {
    if IsAir(item.material) || item.meta.None? then None else item.meta.value.chestTag
  }

  /**
   * The first three admission checks, in the order the handler runs them: the location is not
   * already unlocking, the player is not already opening a chest, the player holds the chest's
   * permission.
   */
  function GuardRefusal(locationBusy: bool, playerBusy: bool, permitted: bool): Option<Message>
  {
    if locationBusy then Some(LocationOccupied)
    else if playerBusy then Some(AlreadyOpening)
    else if !permitted then Some(NoPermission)
    else None
  }

  /** Each refusal names the first failing check, and nothing passes with a failing check. */
  lemma GuardRefusalOrder(locationBusy: bool, playerBusy: bool, permitted: bool)
    ensures GuardRefusal(locationBusy, playerBusy, permitted) == Some(LocationOccupied) <==> locationBusy
    ensures GuardRefusal(locationBusy, playerBusy, permitted) == Some(AlreadyOpening) <==> !locationBusy && playerBusy
    ensures GuardRefusal(locationBusy, playerBusy, permitted) == Some(NoPermission)
            <==> !locationBusy && !playerBusy && !permitted
    ensures GuardRefusal(locationBusy, playerBusy, permitted).None? <==> !locationBusy && !playerBusy && permitted
  {
  }

  /** What became of a block-place event. */
  datatype PlaceOutcome =
    | NotAChest                   // left to vanilla placement
    | Refused(reason: Message)    // cancelled, one message sent
    | PermissionCheckFailed       // cancelled, then `hasPermission` threw on the chest's null permission
    | CooldownReadFailed          // cancelled, then the cooldown lookup threw
    | Unlocking(timer: UnlockTimer)

  /**
   * `onBlockPlace`. The cooldown lookup is the store's `getCooldown` (its backend outcomes are
   * `readOk` and `deleteOk`); `list`, `chosen` and `remaining` expose what it did.
   */
  method OnBlockPlace(manager: ChestManager, player: Player, item: ItemStack, location: Location, event: GameEvent,
                      store: Store, now: int, readOk: bool, deleteOk: bool)
    returns (outcome: PlaceOutcome, ghost chest: Option<RebusChest>, ghost list: Option<CachedSet>,
             ghost chosen: Option<Cooldown>, remaining: Result<int>)
    requires player.Valid()
    modifies event, player`outbox, player`slots, manager`chestsUnderUnlocking, manager`playersUnlocking, store
    ensures ChestTag(item).None? ==> outcome == NotAChest && chest.None?
    ensures ChestTag(item).Some? ==>
      && (chest.None? <==> forall c | c in manager.chests :: !EqualsIgnoreCase(c.key, ChestTag(item).value))
      && (chest.Some? ==> chest.value in manager.chests && EqualsIgnoreCase(chest.value.key, ChestTag(item).value))
    ensures chest.None? ==>
      && outcome == NotAChest && event.cancelled == old(event.cancelled)
      && player.outbox == old(player.outbox) && store.State() == old(store.State())
    ensures chest.Some? ==> event.cancelled
    ensures chest.Some? ==>
      var locationBusy := location in old(manager.chestsUnderUnlocking);
      var playerBusy := player.id in old(manager.playersUnlocking);
      var permission := chest.value.permission;
      !locationBusy && !playerBusy && permission.None? ==>
        outcome == PermissionCheckFailed && store.State() == old(store.State()) && player.outbox == old(player.outbox)
    ensures chest.Some? ==>
      var locationBusy := location in old(manager.chestsUnderUnlocking);
      var playerBusy := player.id in old(manager.playersUnlocking);
      var permission := chest.value.permission;
      locationBusy || playerBusy || permission.Some? ==>
      var refusal := GuardRefusal(locationBusy, playerBusy, permission.Some? && player.HasPermission(permission.value));
      && (refusal.Some? ==> outcome == Refused(refusal.value) && store.State() == old(store.State())
                            && player.outbox == old(player.outbox) + [refusal.value])
      && (refusal.None? ==>
            && RemainingOutcome(store.backend, old(store.State()), store.context, player.id, Open, chest.value.key,
                                now, readOk, deleteOk, list, chosen, remaining, store.State())
            && (remaining.Fault? ==> outcome == CooldownReadFailed && player.outbox == old(player.outbox))
            && (remaining.Ok? && CooldownBlocks(remaining.value, player.HasPermission(BypassCooldown)) ==>
                  outcome == Refused(OnCooldown(remaining.value)) && player.outbox == old(player.outbox) + [outcome.reason])
            && (remaining.Ok? && !CooldownBlocks(remaining.value, player.HasPermission(BypassCooldown)) ==>
                  outcome.Unlocking? && player.outbox == old(player.outbox)))
    ensures !outcome.Unlocking? ==>
      && manager.chestsUnderUnlocking == old(manager.chestsUnderUnlocking)
      && manager.playersUnlocking == old(manager.playersUnlocking)
      && player.slots == old(player.slots)
    ensures outcome.Unlocking? ==>
      && location !in old(manager.chestsUnderUnlocking) && player.id !in old(manager.playersUnlocking)
      && manager.chestsUnderUnlocking == old(manager.chestsUnderUnlocking) + {location}
      && manager.playersUnlocking == old(manager.playersUnlocking) + {player.id}
      && (item.amount <= 1 ==> player.slots == WithoutAll(old(player.slots), item))
      && (item.amount > 1 ==>
            player.slots == old(player.slots)[player.heldSlot := Some(item.(amount := item.amount - 1))])
      && fresh(outcome.timer) && outcome.timer.State() == InitialTimer
      && outcome.timer.highTier == chest.value.isHighTier
  {
    chest, list, chosen, remaining := None, None, None, Ok(0);
    var tag := ChestTag(item);
    if tag.None? {
      return NotAChest, chest, list, chosen, remaining;
    }
    var found := manager.GetByKey(tag.value);
    chest := found;
    if found.None? {
      return NotAChest, chest, list, chosen, remaining;
    }
    var c := found.value;
    event.cancelled := true;
    if location in manager.chestsUnderUnlocking {
      player.Send(LocationOccupied);
      return Refused(LocationOccupied), chest, list, chosen, remaining;
    }
    if player.id in manager.playersUnlocking {
      player.Send(AlreadyOpening);
      return Refused(AlreadyOpening), chest, list, chosen, remaining;
    }
    if c.permission.None? {
      return PermissionCheckFailed, chest, list, chosen, remaining;
    }
    if !player.HasPermission(c.permission.value) {
      player.Send(NoPermission);
      return Refused(NoPermission), chest, list, chosen, remaining;
    }
    remaining, list, chosen := store.GetCooldown(player.id, Open, c.key, now, readOk, deleteOk);
    if remaining.Fault? {
      return CooldownReadFailed, chest, list, chosen, remaining;
    }
    if remaining.value > 0 && !player.HasPermission(BypassCooldown) {
      player.Send(OnCooldown(remaining.value));
      return Refused(OnCooldown(remaining.value)), chest, list, chosen, remaining;
    }
    var timer := manager.HandlePlaceChest(player, c, item, location);
    return Unlocking(timer), chest, list, chosen, remaining;
  }

  /** `onBlockBreak`: an uncancelled break of a block under unlocking is cancelled; nothing else changes. */
  method OnBlockBreak(manager: ChestManager, location: Location, event: GameEvent)
    modifies event
    ensures old(event.cancelled) ==> event.cancelled
    ensures !old(event.cancelled) ==> (event.cancelled <==> location in manager.chestsUnderUnlocking)
  {
    if event.cancelled {
      return;
    }
    if location in manager.chestsUnderUnlocking {
      event.cancelled := true;
    }
  }

  /**
   * `onInteract`: with no clicked block nothing happens; otherwise the event is cancelled when
   * the block is under unlocking and left as it was when not.
   */
  method OnInteract(manager: ChestManager, clicked: Option<Location>, event: GameEvent)
    modifies event
    ensures clicked.None? ==> event.cancelled == old(event.cancelled)
    ensures clicked.Some? && clicked.value in manager.chestsUnderUnlocking ==> event.cancelled
    ensures clicked.Some? && clicked.value !in manager.chestsUnderUnlocking ==> event.cancelled == old(event.cancelled)
  {
    if clicked.None? {
      return;
    }
    if clicked.value in manager.chestsUnderUnlocking {
      event.cancelled := true;
    }
  }

  /** `onPlayerJoin`: a fresh cache, its open cooldowns read from the store, is stored under the player's id. */
  method OnPlayerJoin(caches: PlayerCacheManager, store: Store, p: PlayerId, readOk: bool) returns (pc: PlayerCache)
    modifies caches`data, store
    ensures fresh(pc) && pc.player == p && caches.data == old(caches.data)[p := pc]
    ensures !pc.guiOpened && pc.mainMenu.None? && pc.buyCooldowns == {}
    ensures LoadResult(store.backend, old(store.State()), store.context, p, readOk, pc.cooldowns)
    ensures store.State() == AfterLoad(old(store.State()), p, pc.cooldowns)
  {
    pc := new PlayerCache(p, store, readOk);
    caches.Add(p, pc);
  }

  /** `onPlayerQuit`: the player's cache entry is removed. */
  method OnPlayerQuit(caches: PlayerCacheManager, p: PlayerId)
    modifies caches`data
    ensures caches.data == old(caches.data) - {p}
  {
    caches.Remove(p);
  }
}
