/** One reward bundle of a chest (models/Reward.java): a weight and the item ids it grants. */
module Rewards {
  import opened RebusTypes

  /** The item stacks an id set resolves to through the item table; unknown ids are skipped. */
  function Resolve(ids: set<ItemId>, table: map<ItemId, ItemStack>): set<ItemStack>
  {
    set id | id in ids && id in table :: table[id]
  }

  /** Resolution never yields more stacks than there are ids. */
  lemma {:induction false} ResolveNoLarger(ids: set<ItemId>, table: map<ItemId, ItemStack>)
    ensures |Resolve(ids, table)| <= |ids|
    decreases |ids|
  {
    if ids != {} {
      var k :| k in ids;
      var rest := ids - {k};
      ResolveNoLarger(rest, table);
      if k in table {
        assert Resolve(ids, table) == Resolve(rest, table) + {table[k]};
      } else {
        assert Resolve(ids, table) == Resolve(rest, table);
      }
    }
  }

  /** An id that is in the table contributes its stack; a stack comes from some id of the set. */
  lemma ResolveMembers(ids: set<ItemId>, table: map<ItemId, ItemStack>, s: ItemStack)
    ensures s in Resolve(ids, table) <==> exists id | id in ids && id in table :: table[id] == s
  {
  }

  class Reward {
    const chance: int
    const items: set<ItemId>
    /** `_stackCache`: `None` until the first resolution. */
    var stackCache: Option<set<ItemStack>>

    constructor (chance: int, items: set<ItemId>)
      ensures this.chance == chance && this.items == items && stackCache == None
    {
      this.chance := chance;
      this.items := items;
      stackCache := None;
    }

    /**
     * `getItemStacks`: a cached non-empty resolution is returned as it is, without reading the
     * table; otherwise the ids are resolved afresh and the result, empty or not, is cached.
     */
    method GetItemStacks(table: map<ItemId, ItemStack>) returns (r: set<ItemStack>)
      modifies this`stackCache
      ensures old(stackCache).Some? && old(stackCache).value != {} ==> r == old(stackCache).value
      ensures !(old(stackCache).Some? && old(stackCache).value != {}) ==> r == Resolve(items, table)
      ensures stackCache == Some(r)
    {
      if stackCache.Some? && stackCache.value != {} {
        return stackCache.value;
      }
      var stacks: set<ItemStack> := {};
      var pending := items;
      while pending != {}
        invariant pending <= items
        invariant stacks == Resolve(items - pending, table)
        decreases pending
      {
        var k :| k in pending;
        if k in table {
          stacks := stacks + {table[k]};
        }
        // an unknown id is only logged
        pending := pending - {k};
        assert Resolve(items - pending, table) == Resolve(items - (pending + {k}), table)
          + (if k in table then {table[k]} else {});
      }
      stackCache := Some(stacks);
      return stacks;
    }
  }
}
