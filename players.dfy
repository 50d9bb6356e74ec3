/**
 * The parts of a Bukkit player the plugin reads and changes: permissions, the inventory's
 * storage slots and held slot, the chat messages sent, and items dropped at the player's feet.
 */
module Players {
  import opened RebusTypes

  /** Inventory storage contents, one entry per slot; `None` is an empty slot. */
  type Slots = seq<Option<ItemStack>>

  /** `Inventory.firstEmpty`: the lowest empty slot, or -1 when every slot holds a stack. */
  function FirstEmpty(slots: Slots): (i: int)
    ensures -1 <= i < |slots|
    ensures i == -1 <==> forall j | 0 <= j < |slots| :: slots[j].Some?
    ensures i >= 0 ==> slots[i].None? && forall j | 0 <= j < i :: slots[j].Some?
  {
    if slots == [] then -1
    else if slots[0].None? then 0
    else var k := FirstEmpty(slots[1..]); if k == -1 then -1 else k + 1
  }

  function EmptyCount(slots: Slots): nat
  {
    if slots == [] then 0 else (if slots[0].None? then 1 else 0) + EmptyCount(slots[1..])
  }

  /** The stacks held in the slots, as a multiset. */
  function Stored(slots: Slots): multiset<ItemStack>
  {
    if slots == [] then multiset{} else (if slots[0].Some? then multiset{slots[0].value} else multiset{}) + Stored(slots[1..])
  }

  /**
   * `Inventory.addItem` for a stack that does not merge with another one: it goes into the
   * first empty slot; with no empty slot the inventory is unchanged.
   */
  function WithAdded(slots: Slots, item: ItemStack): Slots
  {
    var i := FirstEmpty(slots);
    if i == -1 then slots else slots[i := Some(item)]
  }

  /** `Inventory.remove(ItemStack)`: every stack equal to the argument, amount included, is removed. */
  function WithoutAll(slots: Slots, item: ItemStack): (r: Slots)
    ensures |r| == |slots|
  {
    seq(|slots|, j requires 0 <= j < |slots| => if slots[j] == Some(item) then None else slots[j])
  }

  lemma {:induction false} FullIffNoEmptySlot(slots: Slots)
    ensures FirstEmpty(slots) == -1 <==> EmptyCount(slots) == 0
  {
    if slots != [] {
      FullIffNoEmptySlot(slots[1..]);
    }
  }

  /** Filling one empty slot uses up exactly one empty slot and stores exactly that stack. */
  lemma {:induction false} FillOneSlot(slots: Slots, i: nat, item: ItemStack)
    requires i < |slots| && slots[i].None?
    ensures EmptyCount(slots[i := Some(item)]) + 1 == EmptyCount(slots)
    ensures Stored(slots[i := Some(item)]) == Stored(slots) + multiset{item}
  {
    if i == 0 {
      assert slots[i := Some(item)][1..] == slots[1..];
    } else {
      assert slots[i := Some(item)][1..] == slots[1..][i - 1 := Some(item)];
      FillOneSlot(slots[1..], i - 1, item);
    }
  }

  /** Adding into a non-full inventory stores the stack and uses one empty slot; occupied slots keep their stacks. */
  lemma AddUsesOneEmptySlot(slots: Slots, item: ItemStack)
    requires FirstEmpty(slots) != -1
    ensures EmptyCount(WithAdded(slots, item)) + 1 == EmptyCount(slots)
    ensures Stored(WithAdded(slots, item)) == Stored(slots) + multiset{item}
    ensures forall j | 0 <= j < |slots| && slots[j].Some? :: WithAdded(slots, item)[j] == slots[j]
  {
    FillOneSlot(slots, FirstEmpty(slots), item);
  }

  /** `remove` takes every stack equal to the argument out, and no other stack. */
  lemma {:induction false} RemoveTakesEveryEqualStack(slots: Slots, item: ItemStack)
    ensures Stored(WithoutAll(slots, item))[item] == 0
    ensures forall other | other != item :: Stored(WithoutAll(slots, item))[other] == Stored(slots)[other]
  {
    if slots != [] {
      var w := WithoutAll(slots, item);
      RemoveTakesEveryEqualStack(slots[1..], item);
      assert w[1..] == WithoutAll(slots[1..], item);
      assert Stored(w) == (if w[0].Some? then multiset{w[0].value} else multiset{}) + Stored(w[1..]);
      assert w[0] == if slots[0] == Some(item) then None else slots[0];
    }
  }

  /**
   * Two separate single-item stacks of the same tagged chest both disappear when one of them
   * is consumed through `remove`.
   */
  lemma RemoveCanTakeMoreThanOneItem(item: ItemStack)
    requires item.amount == 1
    ensures WithoutAll([Some(item), Some(item)], item) == [None, None]
  {
  }

  /** Lets a player open a chest whose OPEN cooldown is still running. */
  const BypassCooldown := "rebus.bypass.cooldown"
  /** Lets a player buy a chest whose BUY cooldown is still running. */
  const BypassBuyCooldown := "rebus.bypass.buycooldown"

  class Player {
    const id: PlayerId
    const permissions: set<string>
    var slots: Slots
    var heldSlot: nat
    var location: Location
    /** Messages sent to the player, oldest first. */
    var outbox: seq<Message>
    /** Stacks dropped naturally at the player's location. */
    var dropped: seq<ItemStack>
    /** The economy balance kept by the external economy plugin. */
    var balance: real

    constructor (id: PlayerId, permissions: set<string>, slots: Slots, heldSlot: nat, location: Location, balance: real)
      requires heldSlot < |slots|
      ensures this.id == id && this.permissions == permissions && this.slots == slots && this.heldSlot == heldSlot
      ensures this.location == location && this.balance == balance && outbox == [] && dropped == []
      ensures Valid()
    {
      this.id := id;
      this.permissions := permissions;
      this.slots := slots;
      this.heldSlot := heldSlot;
      this.location := location;
      this.balance := balance;
      outbox := [];
      dropped := [];
    }

    predicate Valid()
      reads this
    {
      heldSlot < |slots|
    }

    predicate HasPermission(node: string)
    {
      node in permissions
    }

    method Send(m: Message)
      modifies this`outbox
      ensures outbox == old(outbox) + [m]
    {
      outbox := outbox + [m];
    }

    method AddItem(item: ItemStack)
      modifies this`slots
      ensures slots == WithAdded(old(slots), item)
    {
      var i := FirstEmpty(slots);
      if i != -1 {
        slots := slots[i := Some(item)];
      }
    }

    method RemoveItem(item: ItemStack)
      modifies this`slots
      ensures slots == WithoutAll(old(slots), item)
    {
      slots := WithoutAll(slots, item);
    }

    method SetItem(i: nat, item: Option<ItemStack>)
      requires i < |slots|
      modifies this`slots
      ensures slots == old(slots)[i := item]
    {
      slots := slots[i := item];
    }

    /** The economy's `decreaseBalance`, which takes a whole amount. */
    method Withdraw(amount: int)
      modifies this`balance
      ensures balance == old(balance) - amount as real
    {
      balance := balance - amount as real;
    }

    method DropNaturally(item: ItemStack)
      modifies this`dropped
      ensures dropped == old(dropped) + [item]
    {
      dropped := dropped + [item];
    }
  }
}
