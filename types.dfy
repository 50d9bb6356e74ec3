/** Value types shared by the whole model of the Rebus loot-chest plugin. */
module RebusTypes {

  datatype Option<+T> = None | Some(value: T)

  /** A call that either returns a value or raises an exception that nobody catches. */
  datatype Result<+T> = Ok(value: T) | Fault

  /** A player's UUID. */
  type PlayerId = nat

  /** The numeric id an item has in items.yml. */
  datatype ItemId = ItemId(number: int)

  /** A block position in a world. */
  datatype Location = Location(world: string, x: int, y: int, z: int)

  datatype Material = Air | CaveAir | VoidAir | Named(name: string)

  predicate IsAir(m: Material)
  {
    m.Air? || m.CaveAir? || m.VoidAir?
  }

  /**
   * The part of an item's meta data the plugin reads or writes: the persistent
   * "rebus_chest" tag and the duplication-protection flag of preview items.
   */
  datatype ItemMeta = ItemMeta(chestTag: Option<string>, dupeProtected: bool)

  /** An item stack. Equality is value equality, as for Bukkit's ItemStack.equals. */
  datatype ItemStack = ItemStack(material: Material, amount: int, maxStackSize: int, meta: Option<ItemMeta>)

  /** The bounds of Java's `int`. */
  const IntMax := 2147483647
  const IntMin := -2147483648

  /** Localised messages sent to a player, one constructor per message key. */
  datatype Message =
    | LocationOccupied          // Chest.LocationOccupied
    | AlreadyOpening            // Chests.AlreadyOpening
    | NoPermission              // General.NoPermission
    | OnCooldown(seconds: int)  // Chests.Cooldown, time formatted by TimeUtil
    | NoRewards                 // Chests.NoRewards
    | InventoryFull             // Chests.InventoryFull
    | RewardReceived(chestName: string)
    | CannotBuy                 // Chests.CannotBuy
    | NotEnoughMoney(balance: real)
    | OnBuyCooldown(seconds: int)  // Chests.BuyCooldown
    | PurchaseSuccessful
    | InvalidPage               // Commands.Common.InvalidPage
    | InvalidArguments          // Commands.InvalidArguments
    | VersionCurrent
    | ReloadDone
    | PlayerNotFound
    | ChestNotFound(chest: string)
    | GiveGiven(chestName: string)
    | GiveReceived(chestName: string)
    | ResetCooldowns
    | YourCooldownsReset
    | HelpTitle(page: int, maxPage: int)         // Commands.Help.Title
    | HelpInfo                                   // Commands.Help.Info
    | HelpEntry(command: string, name: string)   // one subcommand's help line
    /** The help footer; `previous`/`next` are the pages the buttons run `help` with, `None` when not clickable. */
    | HelpBottom(page: int, maxPage: int, previous: Option<int>, next: Option<int>)

  /** ASCII lower-casing, the part of Java's case mapping that chest keys and sub-commands use. */
  function ToLowerChar(c: char): char
  {
    if 'A' <= c <= 'Z' then (c as int + 32) as char else c
  }

  function ToLower(s: string): (r: string)
    ensures |r| == |s|
    ensures forall i :: 0 <= i < |s| ==> r[i] == ToLowerChar(s[i])
  {
    if s == [] then [] else [ToLowerChar(s[0])] + ToLower(s[1..])
  }

  /** String.equalsIgnoreCase, restricted to ASCII letters. */
  predicate EqualsIgnoreCase(a: string, b: string)
  {
    ToLower(a) == ToLower(b)
  }

  /** Lower-casing twice is lower-casing once. */
  lemma ToLowerIsIdempotent(s: string)
    ensures ToLower(ToLower(s)) == ToLower(s)
  {
  }
}
