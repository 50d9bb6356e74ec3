/**
 * `RebusChest.reward`: the weighted roll over the chest's reward bundles, the delivery of the
 * rolled bundle into the inventory or onto the ground, and the cooldown it records.
 */
module ChestRewards {
  import opened RebusTypes
  import opened Cooldowns
  import opened CooldownStore
  import opened Rewards
  import opened Chests
  import opened Players
  import opened PlayerCaches

  // ---------------------------------------------------------------- the roll

  /** The sum of the first `i` weights. */
  function Prefix(cs: seq<int>, i: nat): int
    requires i <= |cs|
  {
    if i == 0 then 0 else cs[0] + Prefix(cs[1..], i - 1)
  }

  function Total(cs: seq<int>): int
  {
    Prefix(cs, |cs|)
  }

  lemma {:induction false} PrefixStep(cs: seq<int>, i: nat)
    requires i < |cs|
    ensures Prefix(cs, i + 1) == Prefix(cs, i) + cs[i]
  {
    if i > 0 {
      PrefixStep(cs[1..], i - 1);
    }
  }

  /** The running sum once bundle `j` is counted, as `cumulativeChance` holds it. */
  function Running(cs: seq<int>, j: nat): int
    requires j < |cs|
  {
    Prefix(cs, j + 1)
  }

  /** Bundle `i` is the first whose running sum exceeds `r`. */
  predicate FirstCrossing(cs: seq<int>, r: int, i: nat)
  {
    i < |cs| && r < Prefix(cs, i + 1) && forall j | 0 <= j < i :: Running(cs, j) <= r
  }

  /** No running sum exceeds `r`. */
  predicate NoCrossing(cs: seq<int>, r: int)
  {
    forall j | 0 <= j < |cs| :: Running(cs, j) <= r
  }

  /** `(int) (Math.random() * totalChance)`: the cast truncates toward zero. */
  function RandomValue(draw: real, total: int): int
  {
    var x := draw * total as real;
    if x >= 0.0 then x.Floor else -((-x).Floor)
  }

  lemma RealMulPositive(a: real, b: real)
    requires a > 0.0 && b > 0.0
    ensures a * b > 0.0
  {
  }

  lemma RealMulDistributes(d: real, t: real)
    ensures (1.0 - d) * t == t - d * t
  {
  }

  lemma RealMulNonNegative(a: real, b: real)
    requires a >= 0.0 && b >= 0.0
    ensures a * b >= 0.0
  {
  }

  /** For a positive total the draw lands in [0, total). */
  lemma RandomValueInRange(draw: real, total: int)
    requires 0.0 <= draw < 1.0 && total > 0
    ensures 0 <= RandomValue(draw, total) < total
  {
    ScaledDrawInRange(draw, total as real);
    FloorInRange(draw * total as real, total);
  }

  lemma ScaledDrawInRange(draw: real, t: real)
    requires 0.0 <= draw < 1.0 && t > 0.0
    ensures 0.0 <= draw * t < t
  {
    RealMulPositive(1.0 - draw, t);
    RealMulDistributes(draw, t);
    RealMulNonNegative(draw, t);
  }

  lemma FloorInRange(x: real, n: int)
    requires 0.0 <= x < n as real
    ensures 0 <= x.Floor < n
  {
  }

  /** The cumulative loop of `reward`: stops at the first crossing, or runs off the end. */
  method Select(cs: seq<int>, r: int) returns (idx: Option<nat>)
    ensures idx.Some? ==> FirstCrossing(cs, r, idx.value)
    ensures idx.None? ==> NoCrossing(cs, r)
  {
    var cumulative := 0;
    var k := 0;
    while k < |cs|
      invariant 0 <= k <= |cs|
      invariant cumulative == Prefix(cs, k)
      invariant forall j | 0 <= j < k :: Running(cs, j) <= r
    {
      PrefixStep(cs, k);
      cumulative := cumulative + cs[k];
      if r < cumulative {
        return Some(k);
      }
      k := k + 1;
    }
    return None;
  }

  lemma {:induction false} PrefixMonotone(cs: seq<int>, i: nat, j: nat)
    requires i <= j <= |cs| && forall k | 0 <= k < |cs| :: cs[k] >= 0
    ensures Prefix(cs, i) <= Prefix(cs, j)
    decreases j - i
  {
    if i < j {
      PrefixStep(cs, j - 1);
      PrefixMonotone(cs, i, j - 1);
    }
  }

  /** With non-negative weights, bundle `i` is chosen exactly for the draws in [Prefix(i), Prefix(i+1)). */
  lemma SelectedBandIff(cs: seq<int>, r: int, i: nat)
    requires forall k | 0 <= k < |cs| :: cs[k] >= 0
    requires r >= 0 && i < |cs|
    ensures FirstCrossing(cs, r, i) <==> Prefix(cs, i) <= r < Prefix(cs, i + 1)
  {
    if FirstCrossing(cs, r, i) && i > 0 {
      assert Running(cs, i - 1) <= r;
    }
    if Prefix(cs, i) <= r < Prefix(cs, i + 1) {
      forall j | 0 <= j < i
        ensures Running(cs, j) <= r
      {
        PrefixMonotone(cs, j + 1, i);
      }
    }
  }

  lemma {:induction false} SearchFrom(cs: seq<int>, r: int, k: nat)
    requires k <= |cs| && forall j | 0 <= j < k :: Running(cs, j) <= r
    ensures NoCrossing(cs, r) || exists i :: FirstCrossing(cs, r, i)
    decreases |cs| - k
  {
    if k < |cs| {
      if r < Prefix(cs, k + 1) {
        assert FirstCrossing(cs, r, k);
      } else {
        SearchFrom(cs, r, k + 1);
      }
    }
  }

  /**
   * With non-negative weights and a positive total, every draw selects a bundle, and the
   * selected bundle has a positive weight.
   */
  lemma PositiveTotalAlwaysSelects(cs: seq<int>, draw: real)
    requires forall k | 0 <= k < |cs| :: cs[k] >= 0
    requires 0.0 <= draw < 1.0 && Total(cs) > 0
    ensures exists i :: FirstCrossing(cs, RandomValue(draw, Total(cs)), i)
    ensures forall i: nat | FirstCrossing(cs, RandomValue(draw, Total(cs)), i) :: cs[i] > 0
  {
    var r := RandomValue(draw, Total(cs));
    RandomValueInRange(draw, Total(cs));
    assert Running(cs, |cs| - 1) > r;
    SearchFrom(cs, r, 0);
    forall i: nat | FirstCrossing(cs, r, i)
      ensures cs[i] > 0
    {
      SelectedBandIff(cs, r, i);
      PrefixStep(cs, i);
    }
  }

  lemma {:induction false} PrefixZero(cs: seq<int>, i: nat)
    requires i <= |cs| && forall k | 0 <= k < |cs| :: cs[k] == 0
    ensures Prefix(cs, i) == 0
  {
    if i > 0 {
      PrefixZero(cs[1..], i - 1);
    }
  }

  /**
   * When every weight is zero the total is zero, the draw is zero and no running sum exceeds it:
   * nothing is selected. Negative weights are another matter, as the next lemma shows.
   */
  lemma ZeroWeightsSelectNothing(cs: seq<int>, draw: real)
    requires forall k | 0 <= k < |cs| :: cs[k] == 0
    requires 0.0 <= draw < 1.0
    ensures Total(cs) == 0
    ensures NoCrossing(cs, RandomValue(draw, Total(cs)))
  {
    PrefixZero(cs, |cs|);
    forall j | 0 <= j < |cs|
      ensures Running(cs, j) <= RandomValue(draw, Total(cs))
    {
      PrefixZero(cs, j + 1);
    }
  }

  /**
   * A negative weight drags the total below zero; the truncated draw is then negative, and a
   * bundle of weight 0 in front of it is selected.
   */
  lemma NegativeWeightSelectsZeroWeightBundle()
    ensures RandomValue(0.5, Total([0, -5])) == -2
    ensures FirstCrossing([0, -5], -2, 0)
  {
    assert Total([0, -5]) == -5 by {
      assert [0, -5][1..] == [-5];
      assert [-5][1..] == [];
    }
    assert (2.5).Floor == 2;
    assert Prefix([0, -5], 1) == 0 by {
      assert [0, -5][1..] == [-5];
    }
  }

  // ---------------------------------------------------------------- delivery

  function Copies(x: ItemStack, n: nat): (r: seq<ItemStack>)
    ensures |r| == n && forall i | 0 <= i < n :: r[i] == x
  {
    if n == 0 then [] else [x] + Copies(x, n - 1)
  }

  /** A stack of an unstackable item (max stack size 1) with amount n > 0 is handed out as n single copies. */
  function Expand(item: ItemStack): seq<ItemStack>
  {
    if item.maxStackSize == 1 && item.amount > 0 then Copies(item.(amount := 1), item.amount) else [item]
  }

  /** The units one by one, in delivery order. */
  function Units(stacks: seq<ItemStack>): seq<ItemStack>
  {
    if stacks == [] then [] else Expand(stacks[0]) + Units(stacks[1..])
  }

  datatype Delivery = Delivery(slots: Slots, drops: seq<ItemStack>)

  /** Each unit goes into the first empty slot if there is one, and is dropped at the player otherwise. */
  function Distribute(slots: Slots, units: seq<ItemStack>): (d: Delivery)
    ensures |d.slots| == |slots|
    decreases |units|
  {
    if units == [] then Delivery(slots, [])
    else if FirstEmpty(slots) == -1 then
      var rest := Distribute(slots, units[1..]);
      Delivery(rest.slots, [units[0]] + rest.drops)
    else Distribute(slots[FirstEmpty(slots) := Some(units[0])], units[1..])
  }

  lemma DistributeCons(slots: Slots, u: ItemStack, rest: seq<ItemStack>)
    ensures Distribute(slots, [u] + rest) ==
      if FirstEmpty(slots) == -1 then Delivery(Distribute(slots, rest).slots, [u] + Distribute(slots, rest).drops)
      else Distribute(slots[FirstEmpty(slots) := Some(u)], rest)
  {
    assert ([u] + rest)[1..] == rest;
  }

  function Min(a: int, b: int): int
  {
    if a <= b then a else b
  }

  /**
   * The inventory takes the first units, as many as it has empty slots, and exactly the
   * remaining units are dropped, in order.
   */
  lemma {:induction false} DistributeFillsThenDrops(slots: Slots, units: seq<ItemStack>)
    ensures var n := Min(EmptyCount(slots), |units|);
      && Distribute(slots, units).drops == units[n..]
      && EmptyCount(Distribute(slots, units).slots) == EmptyCount(slots) - n
    decreases |units|
  {
    if units != [] {
      FullIffNoEmptySlot(slots);
      if FirstEmpty(slots) == -1 {
        DistributeFillsThenDrops(slots, units[1..]);
        assert units[0..] == [units[0]] + units[1..];
      } else {
        var s' := slots[FirstEmpty(slots) := Some(units[0])];
        AddUsesOneEmptySlot(slots, units[0]);
        DistributeFillsThenDrops(s', units[1..]);
        var n := Min(EmptyCount(slots), |units|);
        assert units[1..][n - 1..] == units[n..];
      }
    }
  }

  /** Nothing is lost or invented: what is stored plus what is dropped is the old contents plus the units. */
  lemma {:induction false} DistributeConserves(slots: Slots, units: seq<ItemStack>)
    ensures Stored(Distribute(slots, units).slots) + multiset(Distribute(slots, units).drops)
            == Stored(slots) + multiset(units)
    decreases |units|
  {
    if units != [] {
      var u, tail := units[0], units[1..];
      assert multiset(units) == multiset{u} + multiset(tail) by {
        assert units == [u] + tail;
      }
      var d := Distribute(slots, units);
      if FirstEmpty(slots) == -1 {
        DistributeConserves(slots, tail);
        var rest := Distribute(slots, tail);
        assert d.slots == rest.slots && d.drops == [u] + rest.drops;
        assert multiset(d.drops) == multiset{u} + multiset(rest.drops);
        calc {
          Stored(d.slots) + multiset(d.drops);
          (Stored(rest.slots) + multiset(rest.drops)) + multiset{u};
          (Stored(slots) + multiset(tail)) + multiset{u};
        }
      } else {
        var filled := WithAdded(slots, u);
        assert d == Distribute(filled, tail);
        AddUsesOneEmptySlot(slots, u);
        DistributeConserves(filled, tail);
        assert Stored(d.slots) + multiset(d.drops) == (Stored(slots) + multiset{u}) + multiset(tail);
      }
    }
  }

  /** Stacks already in the inventory stay where they are. */
  lemma {:induction false} DistributeKeepsOccupied(slots: Slots, units: seq<ItemStack>, j: nat)
    requires j < |slots| && slots[j].Some?
    ensures Distribute(slots, units).slots[j] == slots[j]
    decreases |units|
  {
    if units != [] {
      if FirstEmpty(slots) == -1 {
        DistributeKeepsOccupied(slots, units[1..], j);
      } else {
        DistributeKeepsOccupied(slots[FirstEmpty(slots) := Some(units[0])], units[1..], j);
      }
    }
  }

  lemma UnitsCons(stacks: seq<ItemStack>, k: nat)
    requires k < |stacks|
    ensures Units(stacks[k..]) == Expand(stacks[k]) + Units(stacks[k + 1..])
  {
    assert stacks[k..][1..] == stacks[k + 1..];
  }

  /**
   * One unit of the delivery loop: into the inventory when it has an empty slot, otherwise
   * dropped at the player, with the "inventory full" notice if none was sent yet.
   */
  method DeliverUnit(player: Player, u: ItemStack, ghost rest: seq<ItemStack>, sent: bool) returns (sentAfter: bool)
    modifies player`slots, player`dropped, player`outbox
    ensures Distribute(player.slots, rest).slots == Distribute(old(player.slots), [u] + rest).slots
    ensures player.dropped + Distribute(player.slots, rest).drops
            == old(player.dropped) + Distribute(old(player.slots), [u] + rest).drops
    ensures var full := FirstEmpty(old(player.slots)) == -1;
      && sentAfter == (sent || full)
      && |player.dropped| == |old(player.dropped)| + (if full then 1 else 0)
      && player.outbox == old(player.outbox) + (if full && !sent then [InventoryFull] else [])
  {
    DistributeCons(player.slots, u, rest);
    sentAfter := sent;
    if FirstEmpty(player.slots) != -1 {
      player.AddItem(u);
    } else {
      player.DropNaturally(u);
      if !sentAfter {
        player.Send(InventoryFull);
        sentAfter := true;
      }
    }
  }

  /** The `amount` single copies of an unstackable item, handed out one by one. */
  method DeliverCopies(player: Player, copy: ItemStack, amount: nat, ghost rest: seq<ItemStack>, sent: bool)
    returns (sentAfter: bool)
    modifies player`slots, player`dropped, player`outbox
    ensures var d := Distribute(old(player.slots), Copies(copy, amount) + rest);
      && Distribute(player.slots, rest).slots == d.slots
      && player.dropped + Distribute(player.slots, rest).drops == old(player.dropped) + d.drops
    ensures |player.dropped| >= |old(player.dropped)|
    ensures sentAfter <==> sent || |player.dropped| > |old(player.dropped)|
    ensures player.outbox == old(player.outbox) + (if sentAfter && !sent then [InventoryFull] else [])
  {
    ghost var goal := Distribute(player.slots, Copies(copy, amount) + rest);
    sentAfter := sent;
    var i := 0;
    while i < amount
      invariant 0 <= i <= amount
      invariant Distribute(player.slots, Copies(copy, amount - i) + rest).slots == goal.slots
      invariant player.dropped + Distribute(player.slots, Copies(copy, amount - i) + rest).drops
                == old(player.dropped) + goal.drops
      invariant |player.dropped| >= |old(player.dropped)|
      invariant sentAfter <==> sent || |player.dropped| > |old(player.dropped)|
      invariant player.outbox == old(player.outbox) + (if sentAfter && !sent then [InventoryFull] else [])
    {
      ghost var tail := Copies(copy, amount - i - 1) + rest;
      assert Copies(copy, amount - i) + rest == [copy] + tail;
      sentAfter := DeliverUnit(player, copy, tail, sentAfter);
      i := i + 1;
    }
    assert Copies(copy, 0) + rest == rest;
  }

  /**
   * The delivery loop of `reward`. The "inventory full" notice is sent when the first unit is
   * dropped and never again in this call.
   */
  method Deliver(player: Player, stacks: seq<ItemStack>) returns (noticeSent: bool)
    modifies player`slots, player`dropped, player`outbox
    ensures var d := Distribute(old(player.slots), Units(stacks));
      && player.slots == d.slots
      && player.dropped == old(player.dropped) + d.drops
      && (noticeSent <==> d.drops != [])
      && player.outbox == old(player.outbox) + (if noticeSent then [InventoryFull] else [])
  {
    ghost var goal := Distribute(player.slots, Units(stacks));
    ghost var pending := Units(stacks);
    noticeSent := false;
    var k := 0;
    assert stacks[k..] == stacks;
    while k < |stacks|
      invariant 0 <= k <= |stacks|
      invariant pending == Units(stacks[k..])
      invariant Distribute(player.slots, pending).slots == goal.slots
      invariant player.dropped + Distribute(player.slots, pending).drops == old(player.dropped) + goal.drops
      invariant noticeSent <==> |player.dropped| > |old(player.dropped)|
      invariant |player.dropped| >= |old(player.dropped)|
      invariant player.outbox == old(player.outbox) + (if noticeSent then [InventoryFull] else [])
    {
      var item := stacks[k];
      ghost var later := Units(stacks[k + 1..]);
      assert pending == Expand(item) + later by {
        UnitsCons(stacks, k);
      }
      if item.maxStackSize == 1 && item.amount > 0 {
        assert pending == Copies(item.(amount := 1), item.amount) + later;
        noticeSent := DeliverCopies(player, item.(amount := 1), item.amount, later, noticeSent);
      } else {
        assert pending == [item] + later;
        noticeSent := DeliverUnit(player, item, later, noticeSent);
      }
      pending := later;
      k := k + 1;
    }
    assert pending == [] by {
      assert stacks[k..] == [];
    }
  }

  /** A HashSet's iteration: every element once, in an order the model leaves open. */
  method IterationOrder(s: set<ItemStack>) returns (q: seq<ItemStack>)
    ensures multiset(q) == multiset(s)
  {
    q := [];
    var pending := s;
    while pending != {}
      invariant pending <= s
      invariant multiset(q) == multiset(s - pending)
      decreases pending
    {
      var x :| x in pending;
      q := q + [x];
      pending := pending - {x};
      assert s - pending == (s - (pending + {x})) + {x};
    }
  }

  // ---------------------------------------------------------------- reward

  /** The bundles' weights in list order, as `getChance` returns them. */
  function Chances(rs: seq<Reward>): (cs: seq<int>)
    ensures |cs| == |rs|
  {
    seq(|rs|, i requires 0 <= i < |rs| => rs[i].chance)
  }

  /** The delivery half of `reward`: the chosen bundle's stacks, in iteration order, go to the player. */
  method Bestow(rw: Reward, player: Player, itemTable: map<ItemId, ItemStack>) returns (delivered: seq<ItemStack>)
    modifies player`slots, player`dropped, player`outbox, rw`stackCache
    ensures old(rw.stackCache).Some? && old(rw.stackCache).value != {} ==> rw.stackCache == old(rw.stackCache)
    ensures !(old(rw.stackCache).Some? && old(rw.stackCache).value != {}) ==> rw.stackCache == Some(Resolve(rw.items, itemTable))
    ensures rw.stackCache.Some? && multiset(delivered) == multiset(rw.stackCache.value)
    ensures var d := Distribute(old(player.slots), Units(delivered));
      && player.slots == d.slots
      && player.dropped == old(player.dropped) + d.drops
      && player.outbox == old(player.outbox) + (if d.drops != [] then [InventoryFull] else [])
  {
    var stacks := rw.GetItemStacks(itemTable);
    delivered := IterationOrder(stacks);
    var _ := Deliver(player, delivered);
  }

  /** The cooldown `reward` records for a chest opened at `now`. */
  function OpenCooldown(ctx: string, chest: RebusChest, now: int): Cooldown
  {
    Cooldown(ctx, Open, chest.key, now + chest.cooldown)
  }

  /**
   * The bookkeeping after a delivery: the open cooldown goes into the player's cached set and
   * into the store, and the player is told. `false` stands for the exception thrown when the
   * player has no cache entry, the entry has no cooldown set, or that set is immutable.
   */
  method RecordOpen(chest: RebusChest, player: Player, now: int, caches: PlayerCacheManager, store: Store, writeOk: bool)
    returns (ok: bool)
    modifies player`outbox, store
    modifies if player.id in caches.data then {caches.data[player.id]} else {}
    ensures ok <==> player.id in caches.data && old(caches.data[player.id].cooldowns).Some?
                    && !old(caches.data[player.id].cooldowns).value.immutable
    ensures ok ==>
      && var pc := caches.data[player.id];
      && pc.cooldowns == Some(CachedSet(old(pc.cooldowns).value.items + {OpenCooldown(store.context, chest, now)}, false))
      && pc.guiOpened == old(pc.guiOpened) && pc.mainMenu == old(pc.mainMenu)
      && pc.buyCooldowns == old(pc.buyCooldowns) && pc.previewChest == old(pc.previewChest)
      && pc.previewPage == old(pc.previewPage)
      && store.State() == Upsert(old(store.State()), store.context, player.id, Open, chest.key, chest.cooldown, now, writeOk)
      && player.outbox == old(player.outbox) + [RewardReceived(chest.name)]
    ensures !ok ==>
      && store.State() == old(store.State())
      && (player.id in caches.data ==> unchanged(caches.data[player.id]))
      && player.outbox == old(player.outbox)
  {
    var cache := caches.Get(player.id);
    if cache.None? || cache.value.cooldowns.None? || cache.value.cooldowns.value.immutable {
      return false;
    }
    var pc := cache.value;
    pc.cooldowns := Some(CachedSet(pc.cooldowns.value.items + {OpenCooldown(store.context, chest, now)}, false));
    store.AddCooldown(player.id, Open, chest.key, chest.cooldown, now, writeOk);
    player.Send(RewardReceived(chest.name));
    return true;
  }

  /**
   * What `reward` did: nothing was rolled, bundle `bundle` was delivered and recorded, or bundle
   * `bundle` was delivered and then the cooldown bookkeeping threw.
   */
  datatype RewardOutcome = NothingRolled | Rewarded(bundle: nat) | FailedAfterDelivery(bundle: nat)

  /**
   * `RebusChest.reward`. The draw stands for `Math.random()` and `now` for the clock. A
   * `FailedAfterDelivery` stands for the exception thrown when the player has no cache entry,
   * the entry has no cooldown set, or that set is the store's immutable singleton.
   */
  method RewardPlayer(chest: RebusChest, player: Player, draw: real, now: int, itemTable: map<ItemId, ItemStack>,
                      caches: PlayerCacheManager, store: Store, writeOk: bool)
    returns (r: RewardOutcome, ghost delivered: seq<ItemStack>)
    requires 0.0 <= draw < 1.0
    modifies player`slots, player`dropped, player`outbox, chest.rewards, store
    modifies if player.id in caches.data then {caches.data[player.id]} else {}
    ensures var rv := RandomValue(draw, Total(Chances(chest.rewards)));
      && (r.NothingRolled? <==> NoCrossing(Chances(chest.rewards), rv))
      && (!r.NothingRolled? ==> FirstCrossing(Chances(chest.rewards), rv, r.bundle))
    ensures r.NothingRolled? ==>
      && player.outbox == old(player.outbox) + [NoRewards]
      && player.slots == old(player.slots) && player.dropped == old(player.dropped)
      && delivered == []
    ensures !r.NothingRolled? ==>
      && var rw := chest.rewards[r.bundle];
      && (old(rw.stackCache).Some? && old(rw.stackCache).value != {} ==> rw.stackCache == old(rw.stackCache))
      && (!(old(rw.stackCache).Some? && old(rw.stackCache).value != {}) ==> rw.stackCache == Some(Resolve(rw.items, itemTable)))
      && rw.stackCache.Some? && multiset(delivered) == multiset(rw.stackCache.value)
      && var d := Distribute(old(player.slots), Units(delivered));
      && player.slots == d.slots
      && player.dropped == old(player.dropped) + d.drops
      && player.outbox == old(player.outbox) + (if d.drops != [] then [InventoryFull] else [])
                          + (if r.Rewarded? then [RewardReceived(chest.name)] else [])
    ensures r.Rewarded? ==>
      && player.id in caches.data
      && var pc := caches.data[player.id];
      && old(pc.cooldowns).Some? && !old(pc.cooldowns).value.immutable
      && pc.cooldowns == Some(CachedSet(old(pc.cooldowns).value.items + {OpenCooldown(store.context, chest, now)}, false))
      && pc.guiOpened == old(pc.guiOpened) && pc.mainMenu == old(pc.mainMenu)
      && pc.buyCooldowns == old(pc.buyCooldowns) && pc.previewChest == old(pc.previewChest)
      && pc.previewPage == old(pc.previewPage)
      && store.State() == Upsert(old(store.State()), store.context, player.id, Open, chest.key, chest.cooldown, now, writeOk)
    ensures !r.Rewarded? ==>
      && store.State() == old(store.State())
      && (player.id in caches.data ==> unchanged(caches.data[player.id]))
    ensures r.FailedAfterDelivery? <==>
      && !r.NothingRolled?
      && (player.id !in caches.data || old(caches.data[player.id].cooldowns).None?
          || old(caches.data[player.id].cooldowns).value.immutable)
    ensures forall i | 0 <= i < |chest.rewards| && (r.NothingRolled? || chest.rewards[i] != chest.rewards[r.bundle]) ::
      chest.rewards[i].stackCache == old(chest.rewards[i].stackCache)
  {
    delivered := [];
    if |chest.rewards| == 0 {
      player.Send(NoRewards);
      return NothingRolled, delivered;
    }
    var cs := Chances(chest.rewards);
    var rv := RandomValue(draw, Total(cs));
    var idx := Select(cs, rv);
    if idx.None? {
      player.Send(NoRewards);
      return NothingRolled, delivered;
    }
    var b := idx.value;
    assert Running(cs, b) > rv;
    delivered := Bestow(chest.rewards[b], player, itemTable);
    var ok := RecordOpen(chest, player, now, caches, store, writeOk);
    return if ok then Rewarded(b) else FailedAfterDelivery(b), delivered;
  }
}
