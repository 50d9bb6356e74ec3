/**
 * The main chest shop window (gui/MainGUI.java): one button per chest, where a right click
 * opens the reward preview and a left click buys the chest item after a fixed chain of checks.
 */
module MainMenus {
  import opened RebusTypes
  import opened Cooldowns
  import opened CooldownStore
  import opened Players
  import opened Chests
  import opened Menus
  import opened PlayerCaches
  import opened Previews

  /** The slots the chests' buttons occupy. */
  function ChestSlots(chests: set<RebusChest>): set<int>
  {
    set c | c in chests :: c.slot
  }

  /** Some chest configured for slot s has its button there. */
  predicate ShowsChestAt(buttons: map<int, Button>, chests: set<RebusChest>, s: int)
  {
    s in buttons && exists c | c in chests && c.slot == s :: buttons[s] == ChestButton(c.key)
  }

  /**
   * What the button loop of `refresh` leaves in a menu that held `before`: the buttons of the
   * chests in `placed` are put at their slots (when two share a slot either may end up there) and
   * every other slot keeps its button. `hasPermission` is called on each chest before its button
   * is set, and throws on a null permission: the loop then stops (`faulted`), with the buttons
   * of the chests met before it in place. Otherwise every chest is placed.
   */
  predicate ButtonsPlaced(before: map<int, Button>, after: map<int, Button>, chests: set<RebusChest>,
                          placed: set<RebusChest>, faulted: bool)
  {
    && (faulted <==> exists c | c in chests :: c.permission.None?)
    && placed <= chests
    && (!faulted ==> placed == chests)
    && (forall c | c in placed :: c.permission.Some?)
    && PlacedOver(before, after, placed)
  }

  /** `after` is `before` with a chest button at the slot of each chest in `placed`, and no other change. */
  predicate PlacedOver(before: map<int, Button>, after: map<int, Button>, placed: set<RebusChest>)
  {
    && after.Keys == before.Keys + ChestSlots(placed)
    && (forall s | s in ChestSlots(placed) :: ShowsChestAt(after, placed, s))
    && (forall s | s in before && s !in ChestSlots(placed) :: after[s] == before[s])
  }

  /** One pass of the button loop: the chest's button goes into its slot. */
  method PlaceButton(menu: Menu, c: RebusChest, ghost before: map<int, Button>, ghost placed: set<RebusChest>)
    requires PlacedOver(before, menu.buttons, placed)
    modifies menu
    ensures PlacedOver(before, menu.buttons, placed + {c})
  {
    menu.SetButton(c.slot, ChestButton(c.key));
    assert ChestSlots(placed + {c}) == ChestSlots(placed) + {c.slot};
    forall s | s in ChestSlots(placed + {c})
      ensures ShowsChestAt(menu.buttons, placed + {c}, s)
    {
      if s != c.slot {
        var d :| d in placed && d.slot == s && menu.buttons[s] == ChestButton(d.key);
        assert d in placed + {c};
      }
    }
  }

  /** The button loop of `refresh`, over the chests in hash-set order. */
  method PlaceChestButtons(menu: Menu, chests: set<RebusChest>) returns (faulted: bool, ghost placed: set<RebusChest>)
    modifies menu
    ensures ButtonsPlaced(old(menu.buttons), menu.buttons, chests, placed, faulted)
  {
    var pending := chests;
    placed := {};
    while pending != {}
      invariant pending <= chests && placed == chests - pending
      invariant forall c | c in placed :: c.permission.Some?
      invariant PlacedOver(old(menu.buttons), menu.buttons, placed)
      decreases pending
    {
      var c :| c in pending;
      if c.permission.None? {
        return true, placed;
      }
      PlaceButton(menu, c, old(menu.buttons), placed);
      pending := pending - {c};
      placed := placed + {c};
    }
    return false, placed;
  }

  /**
   * `refresh`: the player's main menu (created on first use) gets the chest buttons. Without a
   * cache entry the lookup throws and `refresh` catches it, and nothing can change: the frame is
   * then empty. A null chest permission stops the button loop (`faulted`), which `refresh`
   * catches too.
   */
  method RefreshMain(caches: PlayerCacheManager, p: PlayerId, cfg: GuiConfig, chests: set<RebusChest>)
    returns (menu: Option<Menu>, faulted: bool, ghost placed: set<RebusChest>)
    modifies if p in caches.data then {caches.data[p]} else {}
    modifies if p in caches.data && caches.data[p].mainMenu.Some? then {caches.data[p].mainMenu.value} else {}
    ensures p !in caches.data <==> menu.None?
    ensures menu.None? ==> !faulted
    ensures menu.Some? ==>
      var cache := caches.data[p];
      && cache.mainMenu == menu
      && (old(cache.mainMenu).Some? ==> menu.value == old(cache.mainMenu).value)
      && (old(cache.mainMenu).None? ==> fresh(menu.value))
      && cache.guiOpened == old(cache.guiOpened) && cache.cooldowns == old(cache.cooldowns)
      && cache.buyCooldowns == old(cache.buyCooldowns) && cache.previewChest == old(cache.previewChest)
      && cache.previewPage == old(cache.previewPage)
      && var before := if old(cache.mainMenu).Some? then old(cache.mainMenu.value.buttons) else MainLayout(cfg);
      && ButtonsPlaced(before, menu.value.buttons, chests, placed, faulted)
  {
    placed := {};
    var cache := caches.Get(p);
    if cache.None? {
      return None, false, placed;
    }
    var m := cache.value.GetMainMenu(cfg);
    faulted, placed := PlaceChestButtons(m, chests);
    return Some(m), faulted, placed;
  }

  /** `open`: the GUI is marked open, then refreshed; without a cache entry the lookup throws first. */
  method OpenMain(caches: PlayerCacheManager, p: PlayerId, cfg: GuiConfig, chests: set<RebusChest>)
    returns (menu: Option<Menu>, faulted: bool, ghost placed: set<RebusChest>)
    modifies if p in caches.data then {caches.data[p]} else {}
    modifies if p in caches.data && caches.data[p].mainMenu.Some? then {caches.data[p].mainMenu.value} else {}
    ensures p !in caches.data <==> menu.None?
    ensures menu.None? ==> !faulted
    ensures menu.Some? ==>
      var cache := caches.data[p];
      && cache.guiOpened && cache.mainMenu == menu
      && (old(cache.mainMenu).Some? ==> menu.value == old(cache.mainMenu).value)
      && (old(cache.mainMenu).None? ==> fresh(menu.value))
      && cache.cooldowns == old(cache.cooldowns) && cache.buyCooldowns == old(cache.buyCooldowns)
      && cache.previewChest == old(cache.previewChest) && cache.previewPage == old(cache.previewPage)
      && var before := if old(cache.mainMenu).Some? then old(cache.mainMenu.value.buttons) else MainLayout(cfg);
      && ButtonsPlaced(before, menu.value.buttons, chests, placed, faulted)
  {
    placed := {};
    var cache := caches.Get(p);
    if cache.None? {
      return None, false, placed;
    }
    cache.value.SetGuiOpened(true);
    menu, faulted, placed := RefreshMain(caches, p, cfg, chests);
  }

  /** `close` of either window: the GUI is marked closed; without a cache entry the lookup throws first and nothing changes. */
  method CloseGui(caches: PlayerCacheManager, p: PlayerId) returns (closed: bool)
    modifies if p in caches.data then {caches.data[p]} else {}
    ensures closed <==> p in caches.data
    ensures closed ==>
      var cache := caches.data[p];
      && !cache.guiOpened && cache.mainMenu == old(cache.mainMenu) && cache.cooldowns == old(cache.cooldowns)
      && cache.buyCooldowns == old(cache.buyCooldowns) && cache.previewChest == old(cache.previewChest)
      && cache.previewPage == old(cache.previewPage)
  {
    var cache := caches.Get(p);
    if cache.None? {
      return false;
    }
    cache.value.SetGuiOpened(false);
    return true;
  }

  /** The first three purchase checks, in order: permission, a free inventory slot, enough money. */
  function PurchaseRefusal(permitted: bool, slots: Slots, balance: real, cost: real): Option<Message>
  {
    if !permitted then Some(NoPermission)
    else if FirstEmpty(slots) == -1 then Some(CannotBuy)
    else if balance < cost then Some(NotEnoughMoney(balance))
    else None
  }

  /** Each refusal names the first failing check; a purchase passing them has room for the item and the money for it. */
  lemma PurchaseRefusalOrder(permitted: bool, slots: Slots, balance: real, cost: real)
    ensures PurchaseRefusal(permitted, slots, balance, cost) == Some(NoPermission) <==> !permitted
    ensures PurchaseRefusal(permitted, slots, balance, cost) == Some(CannotBuy) <==> permitted && EmptyCount(slots) == 0
    ensures PurchaseRefusal(permitted, slots, balance, cost) == Some(NotEnoughMoney(balance))
            <==> permitted && EmptyCount(slots) > 0 && balance < cost
    ensures PurchaseRefusal(permitted, slots, balance, cost).None? <==> permitted && EmptyCount(slots) > 0 && balance >= cost
  {
    FullIffNoEmptySlot(slots);
  }

  /** A purchase that passes the checks stores the chest item in an empty slot. */
  lemma PurchasedItemIsStored(slots: Slots, balance: real, cost: real, item: ItemStack)
    requires PurchaseRefusal(true, slots, balance, cost).None?
    ensures Stored(WithAdded(slots, item)) == Stored(slots) + multiset{item}
    ensures EmptyCount(WithAdded(slots, item)) + 1 == EmptyCount(slots)
  {
    AddUsesOneEmptySlot(slots, item);
  }

  /** Java's `(int)` cast of a double: toward zero, saturating at the bounds of `int`. */
  function IntCast(x: real): (r: int)
    ensures IntMin <= r <= IntMax
  {
    if x >= IntMax as real then IntMax
    else if x <= IntMin as real then IntMin
    else if x >= 0.0 then x.Floor
    else -((-x).Floor)
  }

  /** The balance after paying: only a positive cost is charged, and only its `(int)` part. */
  function Charged(balance: real, cost: real): real
  {
    if cost > 0.0 then balance - IntCast(cost) as real else balance
  }

  /**
   * A purchase that passes the money check never leaves a negative balance, and the fraction of
   * the price is not charged: the buyer pays less than one unit below the price.
   */
  lemma ChargeDropsTheFraction(balance: real, cost: real)
    requires 0.0 < cost < IntMax as real && balance >= cost
    ensures balance - cost <= Charged(balance, cost) < balance - cost + 1.0
    ensures 0.0 <= Charged(balance, cost) <= balance
  {
    assert IntCast(cost) == cost.Floor;
  }

  /** A price beyond the `int` range is charged as `Integer.MAX_VALUE`. */
  lemma ChargeSaturates(balance: real, cost: real)
    requires cost >= IntMax as real
    ensures Charged(balance, cost) == balance - 2147483647.0
  {
  }

  /** The backend outcomes of the purchase's store round trips. */
  datatype PurchaseIo = PurchaseIo(openRead: bool, openDelete: bool, buyRead: bool, buyDelete: bool, buyWrite: bool)

  /** What a left click on a chest button did. */
  datatype PurchaseOutcome =
    | Refused(reason: Message)  // one message sent, nothing else changed but the store's cache
    | PermissionCheckFailed     // `hasPermission` threw on the chest's null permission
    | StoreFailed               // a cooldown lookup threw out of the handler
    | Purchased

  /** The store's `getCooldown` may read `r` and move the state from `st` to `st'`. */
  ghost predicate CooldownRead(backend: Backend, st: StoreState, ctx: string, p: PlayerId, kind: CooldownType,
                               chest: string, now: int, readOk: bool, deleteOk: bool, r: Result<int>, st': StoreState)
  {
    exists list, chosen :: RemainingOutcome(backend, st, ctx, p, kind, chest, now, readOk, deleteOk, list, chosen, r, st')
  }

  /** One cooldown lookup of the purchase chain. */
  method ReadCooldown(store: Store, p: PlayerId, kind: CooldownType, chest: string, now: int, readOk: bool, deleteOk: bool)
    returns (r: Result<int>)
    modifies store
    ensures CooldownRead(store.backend, old(store.State()), store.context, p, kind, chest, now, readOk, deleteOk, r, store.State())
  {
    ghost var list, chosen;
    r, list, chosen := store.GetCooldown(p, kind, chest, now, readOk, deleteOk);
  }

  /**
   * What the purchase does once the first three checks passed, from the store state `st` and the
   * player's outbox, slots and balance before it to those after it: the OPEN and then the BUY
   * cooldown lookup (`openLeft`, `buyLeft`, leaving the store at `afterOpen`, `afterBuy`), each
   * refusing unless bypassed; then payment, the BUY cooldown when the chest has one, the chest
   * item and the success message.
   */
  ghost predicate CooldownChain(backend: Backend, ctx: string, p: PlayerId, bypassOpen: bool, bypassBuy: bool,
                                chest: RebusChest, now: int, io: PurchaseIo, st: StoreState,
                                outbox: seq<Message>, slots: Slots, balance: real,
                                outcome: PurchaseOutcome, openLeft: Result<int>, afterOpen: StoreState,
                                buyLeft: Result<int>, afterBuy: StoreState,
                                outbox': seq<Message>, slots': Slots, balance': real, st': StoreState)
  {
    && (outcome != Purchased ==> slots' == slots && balance' == balance)
    && CooldownRead(backend, st, ctx, p, Open, chest.key, now, io.openRead, io.openDelete, openLeft, afterOpen)
    && (openLeft.Fault? ==> outcome == StoreFailed && outbox' == outbox && st' == afterOpen)
    && (openLeft.Ok? && CooldownBlocks(openLeft.value, bypassOpen) ==>
          outcome == Refused(OnCooldown(openLeft.value)) && outbox' == outbox + [OnCooldown(openLeft.value)]
          && st' == afterOpen)
    && (openLeft.Ok? && !CooldownBlocks(openLeft.value, bypassOpen) ==>
          && CooldownRead(backend, afterOpen, ctx, p, Buy, chest.key, now, io.buyRead, io.buyDelete, buyLeft, afterBuy)
          && (buyLeft.Fault? ==> outcome == StoreFailed && outbox' == outbox && st' == afterBuy)
          && (buyLeft.Ok? && CooldownBlocks(buyLeft.value, bypassBuy) ==>
                outcome == Refused(OnBuyCooldown(buyLeft.value)) && outbox' == outbox + [OnBuyCooldown(buyLeft.value)]
                && st' == afterBuy)
          && (buyLeft.Ok? && !CooldownBlocks(buyLeft.value, bypassBuy) ==>
                && outcome == Purchased
                && balance' == Charged(balance, chest.cost)
                && slots' == WithAdded(slots, chest.Item(1))
                && outbox' == outbox + [PurchaseSuccessful]
                && st' == (if chest.buyCooldown > 0
                           then Upsert(afterBuy, ctx, p, Buy, chest.key, chest.buyCooldown, now, io.buyWrite)
                           else afterBuy)))
  }

  /** The last step of a purchase: pay, set the BUY cooldown if the chest has one, give the item, confirm. */
  method Pay(player: Player, chest: RebusChest, store: Store, now: int, buyWrite: bool)
    modifies player`outbox, player`slots, player`balance, store
    ensures player.balance == Charged(old(player.balance), chest.cost)
    ensures player.slots == WithAdded(old(player.slots), chest.Item(1))
    ensures player.outbox == old(player.outbox) + [PurchaseSuccessful]
    ensures store.State() == (if chest.buyCooldown > 0
                              then Upsert(old(store.State()), store.context, player.id, Buy, chest.key, chest.buyCooldown, now, buyWrite)
                              else old(store.State()))
  {
    if chest.cost > 0.0 {
      player.Withdraw(IntCast(chest.cost));
    }
    if chest.buyCooldown > 0 {
      store.AddCooldown(player.id, Buy, chest.key, chest.buyCooldown, now, buyWrite);
    }
    chest.Give(player, 1);
    player.Send(PurchaseSuccessful);
  }

  /** The two cooldown lookups of a purchase, then payment, as `CooldownChain` states. */
  method CheckCooldownsAndPay(player: Player, chest: RebusChest, store: Store, now: int, io: PurchaseIo)
    returns (outcome: PurchaseOutcome, openLeft: Result<int>, ghost afterOpen: StoreState,
             buyLeft: Result<int>, ghost afterBuy: StoreState)
    modifies player`outbox, player`slots, player`balance, store
    ensures CooldownChain(store.backend, store.context, player.id, player.HasPermission(BypassCooldown),
                          player.HasPermission(BypassBuyCooldown), chest, now, io, old(store.State()),
                          old(player.outbox), old(player.slots), old(player.balance),
                          outcome, openLeft, afterOpen, buyLeft, afterBuy,
                          player.outbox, player.slots, player.balance, store.State())
  {
    buyLeft := Ok(0);
    openLeft := ReadCooldown(store, player.id, Open, chest.key, now, io.openRead, io.openDelete);
    afterOpen := store.State();
    afterBuy := afterOpen;
    if openLeft.Fault? {
      return StoreFailed, openLeft, afterOpen, buyLeft, afterBuy;
    }
    if openLeft.value > 0 && !player.HasPermission(BypassCooldown) {
      player.Send(OnCooldown(openLeft.value));
      return Refused(OnCooldown(openLeft.value)), openLeft, afterOpen, buyLeft, afterBuy;
    }
    buyLeft := ReadCooldown(store, player.id, Buy, chest.key, now, io.buyRead, io.buyDelete);
    afterBuy := store.State();
    if buyLeft.Fault? {
      return StoreFailed, openLeft, afterOpen, buyLeft, afterBuy;
    }
    if buyLeft.value > 0 && !player.HasPermission(BypassBuyCooldown) {
      player.Send(OnBuyCooldown(buyLeft.value));
      return Refused(OnBuyCooldown(buyLeft.value)), openLeft, afterOpen, buyLeft, afterBuy;
    }
    Pay(player, chest, store, now, io.buyWrite);
    outcome := Purchased;
  }

  /**
   * The left-click purchase: a refusal by the first three checks of `PurchaseRefusal` sends its
   * message and changes nothing else; otherwise the cooldown lookups and payment follow as
   * `CooldownChain` states.
   */
  method Purchase(player: Player, chest: RebusChest, store: Store, now: int, io: PurchaseIo)
    returns (outcome: PurchaseOutcome, openLeft: Result<int>, ghost afterOpen: StoreState,
             buyLeft: Result<int>, ghost afterBuy: StoreState)
    modifies player`outbox, player`slots, player`balance, store
    ensures chest.permission.None? ==>
      && outcome == PermissionCheckFailed && player.outbox == old(player.outbox)
      && player.slots == old(player.slots) && player.balance == old(player.balance)
      && store.State() == old(store.State())
    ensures chest.permission.Some? ==>
      var refusal := PurchaseRefusal(player.HasPermission(chest.permission.value), old(player.slots), old(player.balance), chest.cost);
      && (refusal.Some? ==>
            && outcome == Refused(refusal.value) && player.outbox == old(player.outbox) + [refusal.value]
            && player.slots == old(player.slots) && player.balance == old(player.balance)
            && store.State() == old(store.State()))
      && (refusal.None? ==>
            CooldownChain(store.backend, store.context, player.id, player.HasPermission(BypassCooldown),
                          player.HasPermission(BypassBuyCooldown), chest, now, io, old(store.State()),
                          old(player.outbox), old(player.slots), old(player.balance),
                          outcome, openLeft, afterOpen, buyLeft, afterBuy,
                          player.outbox, player.slots, player.balance, store.State()))
  {
    afterOpen, afterBuy := store.State(), store.State();
    openLeft, buyLeft := Ok(0), Ok(0);
    if chest.permission.None? {
      return PermissionCheckFailed, openLeft, afterOpen, buyLeft, afterBuy;
    }
    if !player.HasPermission(chest.permission.value) {
      player.Send(NoPermission);
      return Refused(NoPermission), openLeft, afterOpen, buyLeft, afterBuy;
    }
    if FirstEmpty(player.slots) == -1 {
      player.Send(CannotBuy);
      return Refused(CannotBuy), openLeft, afterOpen, buyLeft, afterBuy;
    }
    var balance := player.balance;
    if balance < chest.cost {
      player.Send(NotEnoughMoney(balance));
      return Refused(NotEnoughMoney(balance)), openLeft, afterOpen, buyLeft, afterBuy;
    }
    outcome, openLeft, afterOpen, buyLeft, afterBuy := CheckCooldownsAndPay(player, chest, store, now, io);
  }

  /**
   * A right click on a chest button: `PreviewGUI.open` for that chest. Without a cache entry the
   * lookup throws and the click does nothing (`shown` is false).
   */
  method PreviewClick(caches: PlayerCacheManager, p: PlayerId, chest: RebusChest) returns (shown: bool)
    modifies if p in caches.data then {caches.data[p], caches.data[p].previewMenu} else {}
    ensures shown <==> p in caches.data
    ensures shown ==>
      var cache := caches.data[p];
      && cache.previewChest == Some(chest) && cache.guiOpened && cache.previewPage == 1
      && cache.previewMenu.buttons == Refreshed(old(cache.previewMenu.buttons), Some(chest), 1)
      && cache.mainMenu == old(cache.mainMenu) && cache.cooldowns == old(cache.cooldowns)
      && cache.buyCooldowns == old(cache.buyCooldowns)
  {
    var cache := caches.Get(p);
    if cache.None? {
      return false;
    }
    OpenPreview(cache.value, chest);
    return true;
  }
}
