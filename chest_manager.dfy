/**
 * The chest registry and the unlock session (managers/ChestManager.java): loading, lookup by
 * key, the two guard sets, the placement step with its phase timer, and the facing rule.
 */
module ChestManagers {
  import opened RebusTypes
  import opened Rewards
  import opened Players
  import opened Chests
  import opened Cooldowns
  import opened CooldownStore
  import opened PlayerCaches
  import opened ChestRewards

  // ---------------------------------------------------------------- load

  /** One entry of `items.yml`: its `id`, when present, and the stack it deserialises to. */
  datatype ItemEntry = ItemEntry(id: Option<int>, stack: ItemStack)

  /**
   * One key of the `chests` configuration section, its sub-section (`None` when the key does
   * not name a section) and the chest's reward file.
   */
  datatype ChestEntry = ChestEntry(key: string, section: Option<ChestSection>, file: RewardFile)

  /** An item entry without an `id` is stored under -1. */
  function IdOf(e: ItemEntry): ItemId
  {
    ItemId(if e.id.Some? then e.id.value else -1)
  }

  /** The item table after putting the entries in order: a later entry with the same id wins. */
  function PutAll(t: map<ItemId, ItemStack>, es: seq<ItemEntry>): map<ItemId, ItemStack>
    decreases |es|
  {
    if es == [] then t else PutAll(t[IdOf(es[0]) := es[0].stack], es[1..])
  }

  /** The read of entry `failAt` of the item list throws. */
  predicate ItemReadFails(es: seq<ItemEntry>, failAt: Option<nat>)
  {
    failAt.Some? && failAt.value < |es|
  }

  /**
   * A read that throws at entry `k` keeps what the loop put before it: every earlier entry's id
   * is in the table, and no id of a later entry that is not among the earlier ones or the old
   * table gets in.
   */
  lemma FailedReadKeepsEarlierEntries(t: map<ItemId, ItemStack>, es: seq<ItemEntry>, k: nat, id: ItemId)
    requires k < |es|
    ensures (exists i | 0 <= i < k :: IdOf(es[i]) == id) ==> id in PutAll(t, es[..k])
    ensures id !in t && (forall i | 0 <= i < k :: IdOf(es[i]) != id) ==> id !in PutAll(t, es[..k])
  {
    PutAllKeys(t, es[..k], id);
    if exists i | 0 <= i < k :: IdOf(es[i]) == id {
      var i :| 0 <= i < k && IdOf(es[i]) == id;
      assert es[..k][i] == es[i];
    }
    if id !in t && (forall i | 0 <= i < k :: IdOf(es[i]) != id) {
      forall i | 0 <= i < k
        ensures IdOf(es[..k][i]) != id
      {
        assert es[..k][i] == es[i];
      }
    }
  }

  /** The table holds exactly the old ids and the entries' ids; each entry's id maps to its last stack. */
  lemma {:induction false} PutAllKeys(t: map<ItemId, ItemStack>, es: seq<ItemEntry>, id: ItemId)
    ensures id in PutAll(t, es) <==> id in t || exists i | 0 <= i < |es| :: IdOf(es[i]) == id
    ensures (forall i | 0 <= i < |es| :: IdOf(es[i]) != id) ==> id in t ==> PutAll(t, es)[id] == t[id]
    decreases |es|
  {
    if es != [] {
      PutAllKeys(t[IdOf(es[0]) := es[0].stack], es[1..], id);
      if exists i | 0 <= i < |es[1..]| :: IdOf(es[1..][i]) == id {
        var i :| 0 <= i < |es[1..]| && IdOf(es[1..][i]) == id;
        assert IdOf(es[i + 1]) == id;
      }
      if exists i | 0 <= i < |es| :: IdOf(es[i]) == id {
        var i :| 0 <= i < |es| && IdOf(es[i]) == id;
        if i > 0 {
          assert IdOf(es[1..][i - 1]) == id;
        }
      }
    }
  }

  /** The last entry carrying an id decides what the id maps to. */
  lemma {:induction false} PutAllLastWins(t: map<ItemId, ItemStack>, es: seq<ItemEntry>, i: nat)
    requires i < |es| && forall j | i < j < |es| :: IdOf(es[j]) != IdOf(es[i])
    ensures IdOf(es[i]) in PutAll(t, es) && PutAll(t, es)[IdOf(es[i])] == es[i].stack
    decreases |es|
  {
    if i == 0 {
      var id := IdOf(es[0]);
      PutAllKeys(t[id := es[0].stack], es[1..], id);
      forall j | 0 <= j < |es[1..]|
        ensures IdOf(es[1..][j]) != id
      {
        assert es[1..][j] == es[j + 1];
      }
    } else {
      PutAllLastWins(t[IdOf(es[0]) := es[0].stack], es[1..], i - 1);
      assert es[1..][i - 1] == es[i];
    }
  }

  /** A chest key becomes a chest when it is non-empty, names a section, and `fromMap` accepts it. */
  predicate Accepted(e: ChestEntry)
  {
    e.key != "" && e.section.Some? && ParseChest(e.key, e.section.value, e.file).Some?
  }

  /** The chest a key yields, if it is accepted. */
  function SpecOf(e: ChestEntry): seq<ChestSpec>
  {
    if Accepted(e) then [ParseChest(e.key, e.section.value, e.file).value] else []
  }

  /** The chests the accepted keys describe, in key order. */
  function AcceptedSpecs(keys: seq<ChestEntry>): seq<ChestSpec>
  {
    if keys == [] then [] else AcceptedSpecs(keys[..|keys| - 1]) + SpecOf(keys[|keys| - 1])
  }

  lemma AcceptedSpecsStep(keys: seq<ChestEntry>, i: nat)
    requires i < |keys|
    ensures AcceptedSpecs(keys[..i + 1]) == AcceptedSpecs(keys[..i]) + SpecOf(keys[i])
  {
    assert keys[..i + 1][..i] == keys[..i];
  }

  // ---------------------------------------------------------------- the unlock timer

  /** The audible and visible cues of the four phases; particles, sounds and packets themselves are not modelled. */
  datatype Cue = OpeningCue | RisingCue | BurstCue | FireworkCue | ClosingCue

  /** What phase `phase` of the timer plays; the firework burst in phase 2 only for a high-tier chest. */
  function PhaseCues(phase: nat, highTier: bool): seq<Cue>
  {
    if phase == 0 then [OpeningCue]
    else if phase == 1 then [RisingCue]
    else if phase == 2 then [BurstCue] + (if highTier then [FireworkCue] else [])
    else if phase == 3 then [ClosingCue]
    else []
  }

  /** The timer's fields: its phase, whether it cancelled itself, how many completions it scheduled, the cues so far. */
  datatype TimerState = TimerState(phase: nat, cancelled: bool, completions: nat, cues: seq<Cue>)

  const InitialTimer := TimerState(0, false, 0, [])

  /** Ticks before the first run, between runs, and from the last run to the completion step. */
  const TimerDelay := 10
  const TimerPeriod := 15
  const CompletionDelay := 10

  /** One run of the timer: play the phase, advance it, and at phase 4 cancel and schedule the completion. */
  function Step(s: TimerState, highTier: bool): TimerState
  {
    var p := s.phase + 1;
    var cues := s.cues + PhaseCues(s.phase, highTier);
    if p >= 4 then TimerState(p, true, s.completions + 1, cues) else TimerState(p, s.cancelled, s.completions, cues)
  }

  /** The timer after `n` runs from its initial state. */
  function Runs(n: nat, highTier: bool): TimerState
  {
    if n == 0 then InitialTimer else Step(Runs(n - 1, highTier), highTier)
  }

  function CuesUpTo(n: nat, highTier: bool): seq<Cue>
  {
    if n == 0 then [] else CuesUpTo(n - 1, highTier) + PhaseCues(n - 1, highTier)
  }

  /**
   * The timer runs phases 0..3 once each and in order: before the fourth run it is live and has
   * scheduled nothing; the fourth run cancels it and schedules the completion exactly once.
   */
  lemma {:induction false} TimerRunsFourPhases(n: nat, highTier: bool)
    requires n <= 4
    ensures var s := Runs(n, highTier);
      && s.phase == n
      && (s.cancelled <==> n == 4)
      && s.completions == (if n == 4 then 1 else 0)
      && s.cues == CuesUpTo(n, highTier)
  {
    if n > 0 {
      TimerRunsFourPhases(n - 1, highTier);
    }
  }

  /** The cues of the four phases, played in order. */
  lemma CuesOfFourPhases(highTier: bool)
    ensures CuesUpTo(4, highTier)
            == [OpeningCue, RisingCue, BurstCue] + (if highTier then [FireworkCue] else []) + [ClosingCue]
  {
    assert CuesUpTo(2, highTier) == [OpeningCue, RisingCue] by {
      assert CuesUpTo(1, highTier) == [OpeningCue] by {
        assert CuesUpTo(0, highTier) == [];
      }
    }
  }

  /** The complete cue sequence; the firework appears exactly for high-tier chests. */
  lemma FireworkOnlyForHighTier(highTier: bool)
    ensures Runs(4, highTier).cues
            == [OpeningCue, RisingCue, BurstCue] + (if highTier then [FireworkCue] else []) + [ClosingCue]
    ensures FireworkCue in Runs(4, highTier).cues <==> highTier
  {
    TimerRunsFourPhases(4, highTier);
    CuesOfFourPhases(highTier);
    var all := Runs(4, highTier).cues;
    if highTier {
      assert all[3] == FireworkCue;
    } else {
      assert all == [OpeningCue, RisingCue, BurstCue, ClosingCue];
    }
  }

  /** The completion step runs 65 ticks after placement, when the temporary block also turns back to air. */
  lemma CompletionTick()
    ensures TimerDelay + 3 * TimerPeriod + CompletionDelay == 65
  {
  }

  /** The anonymous `BukkitRunnable` of `handlePlaceChest`. */
  class UnlockTimer {
    const highTier: bool
    var phase: nat
    var cancelled: bool
    /** Completion tasks scheduled so far. */
    var completions: nat
    var cues: seq<Cue>

    constructor (highTier: bool)
      ensures this.highTier == highTier && State() == InitialTimer
    {
      this.highTier := highTier;
      phase := 0;
      cancelled := false;
      completions := 0;
      cues := [];
    }

    function State(): TimerState
      reads this
    {
      TimerState(phase, cancelled, completions, cues)
    }

    /** `run`; the scheduler never runs a cancelled task. */
    method Run()
      requires !cancelled
      modifies this
      ensures State() == Step(old(State()), highTier)
    {
      cues := cues + PhaseCues(phase, highTier);
      phase := phase + 1;
      if phase >= 4 {
        cancelled := true;
        completions := completions + 1;
      }
    }
  }

  // ---------------------------------------------------------------- facing

  datatype BlockFace = North | East | South | West

  function Abs(x: real): real
  {
    if x < 0.0 then -x else x
  }

  /** `getDirectionFromVector`: the dominant horizontal axis, ties going to the z axis. */
  function DirectionFromVector(x: real, z: real): BlockFace
  {
    if Abs(x) > Abs(z) then (if x > 0.0 then East else West)
    else (if z > 0.0 then South else North)
  }

  function Opposite(f: BlockFace): BlockFace
  {
    match f
    case North => South
    case South => North
    case East => West
    case West => East
  }

  /** Each face is chosen exactly in its region of the plane. */
  lemma DirectionRegions(x: real, z: real)
    ensures DirectionFromVector(x, z) == East <==> Abs(x) > Abs(z) && x > 0.0
    ensures DirectionFromVector(x, z) == West <==> Abs(x) > Abs(z) && x <= 0.0
    ensures DirectionFromVector(x, z) == South <==> Abs(x) <= Abs(z) && z > 0.0
    ensures DirectionFromVector(x, z) == North <==> Abs(x) <= Abs(z) && z <= 0.0
  {
  }

  /** Only the direction of the vector matters, not its length. */
  lemma DirectionIgnoresScale(x: real, z: real, k: real)
    requires k > 0.0
    ensures DirectionFromVector(k * x, k * z) == DirectionFromVector(x, z)
  {
    ScaleAbsCompare(k, x, z);
    ScaleSign(k, x);
    ScaleSign(k, z);
  }

  lemma ScaleAbsCompare(k: real, x: real, z: real)
    requires k > 0.0
    ensures Abs(k * x) > Abs(k * z) <==> Abs(x) > Abs(z)
  {
    ScaleAbs(k, x);
    ScaleAbs(k, z);
    ScaleCompare(k, Abs(x), Abs(z));
  }

  lemma ScaleCompare(k: real, a: real, b: real)
    requires k > 0.0
    ensures k * a > k * b <==> a > b
  {
    ScaleSign(k, a - b);
    ScaleDistributes(k, a, b);
  }

  lemma ScaleDistributes(k: real, a: real, b: real)
    ensures k * (a - b) == k * a - k * b
  {
  }

  lemma ScaleSign(k: real, d: real)
    requires k > 0.0
    ensures d > 0.0 <==> k * d > 0.0
    ensures d < 0.0 <==> k * d < 0.0
  {
  }

  lemma ScaleAbs(k: real, d: real)
    requires k > 0.0
    ensures Abs(k * d) == k * Abs(d)
  {
    ScaleSign(k, d);
    if d < 0.0 {
      ScaleNegates(k, d);
    }
  }

  lemma ScaleNegates(k: real, d: real)
    ensures k * -d == -(k * d)
  {
  }

  /** Reversing a non-zero vector turns the chest to the opposite face. */
  lemma DirectionReverses(x: real, z: real)
    requires x != 0.0 || z != 0.0
    ensures DirectionFromVector(-x, -z) == Opposite(DirectionFromVector(x, z))
  {
  }

  // ---------------------------------------------------------------- the manager

  /**
   * After the chest loop: the old chests remain, and one chest per accepted key is added,
   * each described by one of the accepted keys (the methods add that each is new).
   */
  predicate AddedChests(before: set<RebusChest>, after: set<RebusChest>, keys: seq<ChestEntry>)
  {
    && before <= after
    && |after - before| == |AcceptedSpecs(keys)|
    && (forall c | c in after - before :: c.Spec() in AcceptedSpecs(keys))
    && Covers(after - before, AcceptedSpecs(keys))
  }

  /** Every spec in `specs` describes some chest of `chests`. */
  predicate Covers(chests: set<RebusChest>, specs: seq<ChestSpec>)
  {
    forall s | s in specs :: exists c | c in chests :: c.Spec() == s
  }

  lemma CoversGrow(chests: set<RebusChest>, specs: seq<ChestSpec>, added: Option<RebusChest>, more: seq<ChestSpec>)
    requires Covers(chests, specs)
    requires added.Some? ==> more == [added.value.Spec()]
    requires added.None? ==> more == []
    ensures Covers(chests + (if added.Some? then {added.value} else {}), specs + more)
  {
    var grown := chests + (if added.Some? then {added.value} else {});
    forall s | s in specs + more
      ensures exists c | c in grown :: c.Spec() == s
    {
      if s in specs {
        var c :| c in chests && c.Spec() == s;
        assert c in grown;
      } else {
        assert added.value in grown;
      }
    }
  }

  /**
   * The body of the chest loop: keys that are empty or name no section are skipped, and every
   * other key yields the chest `fromMap` builds, when it builds one.
   */
  method BuildChests(keys: seq<ChestEntry>) returns (built: set<RebusChest>)
    ensures |built| == |AcceptedSpecs(keys)|
    ensures forall c | c in built :: fresh(c) && c.Spec() in AcceptedSpecs(keys)
    ensures Covers(built, AcceptedSpecs(keys))
  {
    built := {};
    ghost var specs: seq<ChestSpec> := [];
    var i := 0;
    while i < |keys|
      invariant 0 <= i <= |keys|
      invariant specs == AcceptedSpecs(keys[..i])
      invariant Described(built, specs)
      invariant forall c | c in built :: fresh(c)
    {
      assert AcceptedSpecs(keys[..i + 1]) == specs + SpecOf(keys[i]) by {
        AcceptedSpecsStep(keys, i);
      }
      built := BuildStep(keys[i], built, specs);
      specs := specs + SpecOf(keys[i]);
      i := i + 1;
    }
    assert keys[..i] == keys;
  }

  /** One chest per spec: as many chests as specs, each described by one, every spec describing one. */
  predicate Described(built: set<RebusChest>, specs: seq<ChestSpec>)
  {
    && |built| == |specs|
    && (forall c | c in built :: c.Spec() in specs)
    && Covers(built, specs)
  }

  /** One pass of the chest loop, added to the chests built so far. */
  method BuildStep(e: ChestEntry, built: set<RebusChest>, ghost specs: seq<ChestSpec>) returns (built': set<RebusChest>)
    requires Described(built, specs)
    ensures Described(built', specs + SpecOf(e))
    ensures forall c | c in built' :: c in built || fresh(c)
  {
    var chest := BuildOne(e, built);
    CoversGrow(built, specs, chest, SpecOf(e));
    if chest.Some? {
      assert |built + {chest.value}| == |built| + 1;
      built' := built + {chest.value};
    } else {
      built' := built;
    }
  }

  /** One pass of the chest loop: the chest `fromMap` builds for an accepted key, none otherwise. */
  method BuildOne(e: ChestEntry, ghost built: set<RebusChest>) returns (chest: Option<RebusChest>)
    ensures chest.Some? ==> fresh(chest.value) && chest.value !in built && SpecOf(e) == [chest.value.Spec()]
    ensures chest.None? ==> SpecOf(e) == []
  {
    if e.key == "" || e.section.None? {
      return None;
    }
    chest := FromMap(e.key, e.section.value, e.file);
  }

  class ChestManager {
    var chests: set<RebusChest>
    var itemTable: map<ItemId, ItemStack>
    var playersUnlocking: set<PlayerId>
    var chestsUnderUnlocking: set<Location>

    constructor ()
      ensures chests == {} && itemTable == map[] && playersUnlocking == {} && chestsUnderUnlocking == {}
    {
      chests := {};
      itemTable := map[];
      playersUnlocking := {};
      chestsUnderUnlocking := {};
    }

    /**
     * `load` over the parsed files. `items` is `None` when `items.yml` is missing, unreadable or
     * has no usable `items` list, and `section` is `None` when the configuration has no `chests`
     * section. `failAt` names the first entry whose read throws (an id that is not a number, or
     * data the item serializer refuses); the entries before it are already in the table, and the
     * one `catch` around the item loop returns before the chests are read. An index past the
     * end means no entry throws. Chests loaded before stay in the set.
     */
    method Load(items: Option<seq<ItemEntry>>, failAt: Option<nat>, section: Option<seq<ChestEntry>>)
      modifies this`chests, this`itemTable
      ensures items.None? ==> chests == old(chests) && itemTable == old(itemTable)
      ensures items.Some? && ItemReadFails(items.value, failAt) ==>
        itemTable == PutAll(old(itemTable), items.value[..failAt.value]) && chests == old(chests)
      ensures items.Some? && !ItemReadFails(items.value, failAt) ==> itemTable == PutAll(old(itemTable), items.value)
      ensures items.Some? && !ItemReadFails(items.value, failAt) && section.None? ==> chests == {}
      ensures items.Some? && !ItemReadFails(items.value, failAt) && section.Some? ==>
        AddedChests(old(chests), chests, section.value)
      ensures forall c | c in chests - old(chests) :: fresh(c)
    {
      if items.None? {
        return;
      }
      if ItemReadFails(items.value, failAt) {
        PutItems(items.value[..failAt.value]);
        return;
      }
      PutItems(items.value);
      if section.None? {
        chests := {};
        return;
      }
      AddChests(section.value);
    }

    /** The item loop of `load`. */
    method PutItems(es: seq<ItemEntry>)
      modifies this`itemTable
      ensures itemTable == PutAll(old(itemTable), es)
    {
      var k := 0;
      while k < |es|
        invariant 0 <= k <= |es|
        invariant PutAll(itemTable, es[k..]) == PutAll(old(itemTable), es)
      {
        assert es[k..][1..] == es[k + 1..];
        itemTable := itemTable[IdOf(es[k]) := es[k].stack];
        k := k + 1;
      }
      assert es[k..] == [];
    }

    /** The chest loop of `load`: one new chest per accepted key, added to the chests already there. */
    method AddChests(keys: seq<ChestEntry>)
      modifies this`chests
      ensures AddedChests(old(chests), chests, keys)
      ensures forall c | c in chests - old(chests) :: fresh(c)
    {
      var built := BuildChests(keys);
      assert chests + built - chests == built;
      chests := chests + built;
    }

    /** `getByKey`: some chest whose key equals `key` ignoring case, in hash-set order, or none. */
    method GetByKey(key: string) returns (r: Option<RebusChest>)
      ensures r.Some? ==> r.value in chests && EqualsIgnoreCase(r.value.key, key)
      ensures r.None? <==> forall c | c in chests :: !EqualsIgnoreCase(c.key, key)
    {
      var pending := chests;
      while pending != {}
        invariant pending <= chests
        invariant forall c | c in chests - pending :: !EqualsIgnoreCase(c.key, key)
        decreases pending
      {
        var c :| c in pending;
        if EqualsIgnoreCase(c.key, key) {
          return Some(c);
        }
        pending := pending - {c};
      }
      return None;
    }

    /**
     * `handlePlaceChest`: both guards are registered first, then one item of the held stack is
     * consumed, and the phase timer is started for the chest's tier.
     */
    method HandlePlaceChest(player: Player, chest: RebusChest, item: ItemStack, location: Location)
      returns (timer: UnlockTimer)
      requires player.Valid()
      modifies this`chestsUnderUnlocking, this`playersUnlocking, player`slots
      ensures chestsUnderUnlocking == old(chestsUnderUnlocking) + {location}
      ensures playersUnlocking == old(playersUnlocking) + {player.id}
      ensures item.amount <= 1 ==> player.slots == WithoutAll(old(player.slots), item)
      ensures item.amount > 1 ==>
        player.slots == old(player.slots)[player.heldSlot := Some(item.(amount := item.amount - 1))]
      ensures fresh(timer) && timer.highTier == chest.isHighTier && timer.State() == InitialTimer
    {
      chestsUnderUnlocking := chestsUnderUnlocking + {location};
      playersUnlocking := playersUnlocking + {player.id};
      if item.amount <= 1 {
        player.RemoveItem(item);
      } else {
        player.SetItem(player.heldSlot, Some(item.(amount := item.amount - 1)));
      }
      timer := new UnlockTimer(chest.isHighTier);
    }

    /**
     * The completion task, 10 ticks after the timer cancelled itself: both guards are released,
     * then `reward` runs once.
     */
    method Complete(timer: UnlockTimer, player: Player, chest: RebusChest, location: Location, draw: real, now: int,
                    caches: PlayerCacheManager, store: Store, writeOk: bool)
      returns (outcome: RewardOutcome, ghost delivered: seq<ItemStack>)
      requires timer.cancelled && 0.0 <= draw < 1.0
      modifies this`chestsUnderUnlocking, this`playersUnlocking
      modifies player`slots, player`dropped, player`outbox, chest.rewards, store
      modifies if player.id in caches.data then {caches.data[player.id]} else {}
      ensures chestsUnderUnlocking == old(chestsUnderUnlocking) - {location}
      ensures playersUnlocking == old(playersUnlocking) - {player.id}
      ensures var rv := RandomValue(draw, Total(Chances(chest.rewards)));
        && (outcome.NothingRolled? <==> NoCrossing(Chances(chest.rewards), rv))
        && (!outcome.NothingRolled? ==> FirstCrossing(Chances(chest.rewards), rv, outcome.bundle))
      ensures outcome.NothingRolled? ==>
        && player.outbox == old(player.outbox) + [NoRewards]
        && player.slots == old(player.slots) && player.dropped == old(player.dropped)
        && delivered == []
      ensures !outcome.NothingRolled? ==>
        && var rw := chest.rewards[outcome.bundle];
        && (old(rw.stackCache).Some? && old(rw.stackCache).value != {} ==> rw.stackCache == old(rw.stackCache))
        && (!(old(rw.stackCache).Some? && old(rw.stackCache).value != {}) ==> rw.stackCache == Some(Resolve(rw.items, itemTable)))
        && rw.stackCache.Some? && multiset(delivered) == multiset(rw.stackCache.value)
        && var d := Distribute(old(player.slots), Units(delivered));
        && player.slots == d.slots
        && player.dropped == old(player.dropped) + d.drops
        && player.outbox == old(player.outbox) + (if d.drops != [] then [InventoryFull] else [])
                            + (if outcome.Rewarded? then [RewardReceived(chest.name)] else [])
      ensures outcome.Rewarded? ==>
        && player.id in caches.data
        && var pc := caches.data[player.id];
        && old(pc.cooldowns).Some? && !old(pc.cooldowns).value.immutable
        && pc.cooldowns == Some(CachedSet(old(pc.cooldowns).value.items + {OpenCooldown(store.context, chest, now)}, false))
        && pc.guiOpened == old(pc.guiOpened) && pc.mainMenu == old(pc.mainMenu)
        && pc.buyCooldowns == old(pc.buyCooldowns) && pc.previewChest == old(pc.previewChest)
        && pc.previewPage == old(pc.previewPage)
        && store.State() == Upsert(old(store.State()), store.context, player.id, Open, chest.key, chest.cooldown, now, writeOk)
      ensures !outcome.Rewarded? ==>
        && store.State() == old(store.State())
        && (player.id in caches.data ==> unchanged(caches.data[player.id]))
      ensures outcome.FailedAfterDelivery? <==>
        && !outcome.NothingRolled?
        && (player.id !in caches.data || old(caches.data[player.id].cooldowns).None?
            || old(caches.data[player.id].cooldowns).value.immutable)
      ensures forall i | 0 <= i < |chest.rewards| && (outcome.NothingRolled? || chest.rewards[i] != chest.rewards[outcome.bundle]) ::
        chest.rewards[i].stackCache == old(chest.rewards[i].stackCache)
    {
      chestsUnderUnlocking := chestsUnderUnlocking - {location};
      playersUnlocking := playersUnlocking - {player.id};
      outcome, delivered := RewardPlayer(chest, player, draw, now, itemTable, caches, store, writeOk);
    }
  }

  /** `give` then `getByKey` on the item's tag: with keys unique up to case, the tag names the giving chest alone. */
  lemma GiveTagResolves(chests: set<RebusChest>, chest: RebusChest, amount: int)
    requires chest in chests
    requires forall a, b | a in chests && b in chests && EqualsIgnoreCase(a.key, b.key) :: a == b
    ensures var tag := chest.Item(amount).meta.value.chestTag.value;
      forall c | c in chests :: EqualsIgnoreCase(c.key, tag) <==> c == chest
  {
  }
}
