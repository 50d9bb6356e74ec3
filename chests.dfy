/**
 * Chest definitions (models/RebusChest.java): the immutable chest object, the default and
 * rejection rules of `fromMap` over an already-parsed configuration, and `give`.
 */
module Chests {
  import opened RebusTypes
  import opened Rewards
  import opened Players

  /** The `chance` value of a reward entry. */
  datatype ChanceField = Absent | Number(value: int) | NotANumber

  /** One value of the reward file's `data` map: not a map at all, or a map with `chance` and `items`. */
  datatype DataEntry = NotAMap | Entry(chance: ChanceField, items: Option<seq<ItemId>>)

  /**
   * The reward file `chests/<key>.yml`: absent; unreadable or without a top-level `data` key
   * (YAML error, not a map); or read, with `data` as a map of entries or as something else.
   */
  datatype RewardFile = Missing | Unreadable | Read(data: Option<seq<DataEntry>>)

  /**
   * A chest's configuration section. `None` stands for a key that is not set. The buy cooldown
   * and the preview item list are read elsewhere in the plugin and are taken as given.
   */
  datatype ChestSection = ChestSection(
    name: string, description: seq<string>, material: Material,
    cost: Option<real>, cooldown: Option<int>, permission: Option<string>, slot: Option<int>,
    isHighTier: Option<bool>, buyCooldown: int, possibleItems: seq<ItemStack>)

  datatype RewardSpec = RewardSpec(chance: int, items: set<ItemId>)

  /** Everything a chest object carries, as a value. */
  datatype ChestSpec = ChestSpec(
    key: string, name: string, description: seq<string>, material: Material, cost: real, cooldown: int,
    permission: Option<string>, slot: int, isHighTier: bool, rewards: seq<RewardSpec>,
    buyCooldown: int, possibleItems: seq<ItemStack>)

  const DefaultPermission := "rebus.use"
  const DefaultChance := 25

  function OrElse<T>(o: Option<T>, d: T): T
  {
    if o.Some? then o.value else d
  }

  /** `new HashSet<>(itemsRaw)`. */
  function IdSet(ids: seq<ItemId>): set<ItemId>
  {
    set x | x in ids
  }

  /**
   * The permission rule. The key is read twice: first with "rebus.use" as default, only to test
   * for emptiness, then without a default for the value. An empty node becomes "rebus.use". An
   * absent key passes the emptiness test through the default, so the second read returns null
   * (`None`).
   */
  function PermissionOf(p: Option<string>): Option<string>
  {
    if p.None? then None
    else if p.value == "" then Some(DefaultPermission)
    else p
  }

  /**
   * The reward entries, in order: non-map entries are skipped, a missing chance is 25, and a
   * non-numeric chance or a missing item list rejects the whole file.
   */
  function ParseRewards(entries: seq<DataEntry>): Option<seq<RewardSpec>>
  {
    if entries == [] then Some([])
    else
      var rest := ParseRewards(entries[1..]);
      match entries[0]
      case NotAMap => rest
      case Entry(chance, items) =>
        if chance.NotANumber? || items.None? || rest.None? then None
        else Some([RewardSpec(if chance.Number? then chance.value else DefaultChance, IdSet(items.value))] + rest.value)
  }

  /** `fromMap`: the chest a section and its reward file describe, or `None` where the source returns null. */
  function ParseChest(key: string, sec: ChestSection, file: RewardFile): Option<ChestSpec>
  {
    if !file.Read? || file.data.None? then None
    else
      var rewards := ParseRewards(file.data.value);
      if rewards.None? then None
      else Some(ChestSpec(key, sec.name, sec.description, sec.material, OrElse(sec.cost, 0.0), OrElse(sec.cooldown, 0),
                          PermissionOf(sec.permission), OrElse(sec.slot, 0), OrElse(sec.isHighTier, false),
                          rewards.value, sec.buyCooldown, sec.possibleItems))
  }

  predicate Acceptable(e: DataEntry)
  {
    e.NotAMap? || (!e.chance.NotANumber? && e.items.Some?)
  }

  function CountEntries(entries: seq<DataEntry>): nat
  {
    if entries == [] then 0 else (if entries[0].Entry? then 1 else 0) + CountEntries(entries[1..])
  }

  /**
   * The reward list is accepted exactly when every entry is acceptable; then it has one reward
   * per map entry, each with the entry's chance (25 when absent) and item ids.
   */
  lemma {:induction false} ParseRewardsChar(entries: seq<DataEntry>)
    ensures ParseRewards(entries).Some? <==> forall i | 0 <= i < |entries| :: Acceptable(entries[i])
    ensures ParseRewards(entries).Some? ==> |ParseRewards(entries).value| == CountEntries(entries)
    ensures ParseRewards(entries).Some? ==> forall r | r in ParseRewards(entries).value ::
      exists i | 0 <= i < |entries| :: entries[i].Entry? && entries[i].items.Some?
        && r == RewardSpec(if entries[i].chance.Number? then entries[i].chance.value else DefaultChance,
                           IdSet(entries[i].items.value))
  {
    if entries != [] {
      ParseRewardsChar(entries[1..]);
      var rest := ParseRewards(entries[1..]);
      if ParseRewards(entries).Some? {
        forall r | r in ParseRewards(entries).value
          ensures exists i | 0 <= i < |entries| ::
                    (entries[i].Entry? && entries[i].items.Some?
                     && r == RewardSpec(if entries[i].chance.Number? then entries[i].chance.value else DefaultChance,
                                        IdSet(entries[i].items.value)))
        {
          if r !in rest.value {
            assert entries[0].Entry?;
          } else {
            var i :| 0 <= i < |entries[1..]| && entries[1..][i].Entry? && entries[1..][i].items.Some?
              && r == RewardSpec(if entries[1..][i].chance.Number? then entries[1..][i].chance.value else DefaultChance,
                                 IdSet(entries[1..][i].items.value));
            assert entries[i + 1] == entries[1..][i];
          }
        }
      }
      if !Acceptable(entries[0]) {
        assert !(forall i | 0 <= i < |entries| :: Acceptable(entries[i]));
      }
      if forall i | 0 <= i < |entries[1..]| :: Acceptable(entries[1..][i]) {
      } else {
        var i :| 0 <= i < |entries[1..]| && !Acceptable(entries[1..][i]);
        assert entries[i + 1] == entries[1..][i];
      }
    }
  }

  /**
   * A parsed chest's permission is null exactly when the key is absent; a present one is never
   * empty, and is "rebus.use" exactly when the node is empty or is "rebus.use" itself.
   */
  lemma ParsedPermission(key: string, sec: ChestSection, file: RewardFile)
    requires ParseChest(key, sec, file).Some?
    ensures var c := ParseChest(key, sec, file).value;
      && (c.permission.None? <==> sec.permission.None?)
      && (c.permission.Some? ==> c.permission.value != "")
      && (c.permission == Some(DefaultPermission) <==> sec.permission.Some? && sec.permission.value in {"", DefaultPermission})
  {
  }

  /** Without a readable reward file with a `data` map, no chest is built. */
  lemma RejectedWithoutRewardData(key: string, sec: ChestSection, file: RewardFile)
    requires file.Missing? || file.Unreadable? || file == Read(None)
    ensures ParseChest(key, sec, file).None?
  {
  }

  /** An entry without an item list rejects the chest, wherever it stands among the entries. */
  lemma MissingItemsRejectChest(key: string, sec: ChestSection, entries: seq<DataEntry>, i: nat, chance: ChanceField)
    requires i < |entries| && entries[i] == Entry(chance, None)
    ensures ParseChest(key, sec, Read(Some(entries))).None?
  {
    ParseRewardsChar(entries);
  }

  /** An entry without a chance is weighted 25. */
  lemma MissingChanceIs25(ids: seq<ItemId>)
    ensures ParseRewards([Entry(Absent, Some(ids))]) == Some([RewardSpec(25, IdSet(ids))])
  {
    var e := [Entry(Absent, Some(ids))];
    assert e[1..] == [];
    assert ParseRewards(e[1..]) == Some([]);
    assert [RewardSpec(25, IdSet(ids))] + [] == [RewardSpec(25, IdSet(ids))];
  }

  /** The chest object. Every field is fixed at construction. */
  class RebusChest {
    const key: string
    const name: string
    const description: seq<string>
    const material: Material
    const cost: real
    const cooldown: int
    /** The permission node; `None` stands for the null an absent key leaves here. */
    const permission: Option<string>
    const slot: int
    const isHighTier: bool
    const rewards: seq<Reward>
    /** Used by the purchase click; not defined by the chest class in the source. */
    const buyCooldown: int
    /** Listed by the preview window; not defined by the chest class in the source. */
    const possibleItems: seq<ItemStack>

    constructor (spec: ChestSpec, rewards: seq<Reward>)
      requires |rewards| == |spec.rewards|
      requires forall i | 0 <= i < |rewards| :: rewards[i].chance == spec.rewards[i].chance && rewards[i].items == spec.rewards[i].items
      ensures Spec() == spec && this.rewards == rewards
    {
      key := spec.key;
      name := spec.name;
      description := spec.description;
      material := spec.material;
      cost := spec.cost;
      cooldown := spec.cooldown;
      permission := spec.permission;
      slot := spec.slot;
      isHighTier := spec.isHighTier;
      this.rewards := rewards;
      buyCooldown := spec.buyCooldown;
      possibleItems := spec.possibleItems;
      new;
      assert SpecsOf(rewards) == spec.rewards;
    }

    function Spec(): ChestSpec
    {
      ChestSpec(key, name, description, material, cost, cooldown, permission, slot, isHighTier,
                SpecsOf(rewards), buyCooldown, possibleItems)
    }

    /** The chest item `give` hands out: `amount` items of the chest's material, tagged with its key. */
    function Item(amount: int): (item: ItemStack)
      ensures item.meta.Some? && item.meta.value.chestTag == Some(key) && item.material == material && item.amount == amount
    {
      ItemStack(material, amount, ChestMaxStack, Some(ItemMeta(Some(key), false)))
    }

    /** `give`: one tagged stack goes into the player's inventory. */
    method Give(player: Player, amount: int)
      modifies player`slots
      ensures player.slots == WithAdded(old(player.slots), Item(amount))
    {
      player.AddItem(Item(amount));
    }
  }

  /** Chest blocks stack to 64. */
  const ChestMaxStack := 64

  function SpecsOf(rs: seq<Reward>): (r: seq<RewardSpec>)
    ensures |r| == |rs|
    ensures forall i | 0 <= i < |rs| :: r[i] == RewardSpec(rs[i].chance, rs[i].items)
  {
    if rs == [] then [] else [RewardSpec(rs[0].chance, rs[0].items)] + SpecsOf(rs[1..])
  }

  /**
   * `fromMap`: builds the chest, with one fresh reward bundle per accepted entry, exactly when
   * `ParseChest` accepts the section and file.
   */
  method FromMap(key: string, sec: ChestSection, file: RewardFile) returns (r: Option<RebusChest>)
    ensures r.None? <==> ParseChest(key, sec, file).None?
    ensures r.Some? ==> fresh(r.value) && r.value.Spec() == ParseChest(key, sec, file).value
    ensures r.Some? ==> forall rw | rw in r.value.rewards :: fresh(rw) && rw.stackCache.None?
  {
    if !file.Read? || file.data.None? {
      return None;  // file missing, invalid reward data or invalid data section
    }
    var rewards := BuildRewards(file.data.value);
    if rewards.None? {
      return None;
    }
    var spec := ParseChest(key, sec, file).value;
    var chest := new RebusChest(spec, rewards.value);
    return Some(chest);
  }

  /** The reward loop of `fromMap`: one fresh bundle per map entry, or `None` at the first entry it rejects. */
  method BuildRewards(entries: seq<DataEntry>) returns (r: Option<seq<Reward>>)
    ensures r.None? <==> ParseRewards(entries).None?
    ensures r.Some? ==> SpecsOf(r.value) == ParseRewards(entries).value
    ensures r.Some? ==> forall rw | rw in r.value :: fresh(rw) && rw.stackCache.None?
  {
    var rewards: seq<Reward> := [];
    var k := 0;
    while k < |entries|
      invariant 0 <= k <= |entries|
      invariant ParseRewards(entries).Some? <==> ParseRewards(entries[k..]).Some?
      invariant ParseRewards(entries).Some? ==> ParseRewards(entries).value == SpecsOf(rewards) + ParseRewards(entries[k..]).value
      invariant forall rw | rw in rewards :: fresh(rw) && rw.stackCache.None?
    {
      var e := entries[k];
      ghost var tail := ParseRewards(entries[k + 1..]);
      if e.Entry? {
        if e.chance.NotANumber? || e.items.None? {
          assert ParseRewards(entries[k..]) == None by {
            assert entries[k..][0] == e;
          }
          return None;
        }
        var chance := if e.chance.Number? then e.chance.value else DefaultChance;
        assert ParseRewards(entries[k..])
            == if tail.None? then None else Some([RewardSpec(chance, IdSet(e.items.value))] + tail.value) by {
          assert entries[k..][1..] == entries[k + 1..];
        }
        var rw := new Reward(chance, IdSet(e.items.value));
        assert SpecsOf(rewards + [rw]) == SpecsOf(rewards) + [RewardSpec(chance, rw.items)];
        rewards := rewards + [rw];
      } else {
        assert ParseRewards(entries[k..]) == tail by {
          assert entries[k..][1..] == entries[k + 1..];
        }
      }
      k := k + 1;
    }
    assert entries[k..] == [];
    return Some(rewards);
  }
}
