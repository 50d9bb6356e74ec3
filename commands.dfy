/**
 * The `/rebusadmin` and `/rebus` command handlers (commands/CommandRebusAdmin.java,
 * commands/CommandRebus.java): a pure routing decision on the sender, its permissions and the
 * arguments, then the chosen action.
 */
module CommandHandlers {
  import opened RebusTypes
  import opened CooldownStore
  import opened Players
  import opened Chests
  import opened Menus
  import opened PlayerCaches
  import opened MainMenus
  import opened HelpPages
  import opened Numbers

  const AdminCommand := "rebusadmin"
  const UserCommand := "rebus"

  const AdminPermission := "rebus.admin"
  const UsePermission := "rebus.use"
  const ReloadPermission := "rebus.reload"
  const NpcPermission := "rebus.npc"
  const GivePermission := "rebus.give"
  const ResetPermission := "rebus.reset"

  /** The subcommands `/rebusadmin help` lists (reset and removenpcs are not listed). */
  const AdminSubCommands: seq<SubCommand> :=
    [SubCommand("help", AdminPermission), SubCommand("version", "rebus.info"), SubCommand("reload", ReloadPermission),
     SubCommand("npc", NpcPermission), SubCommand("give", GivePermission)]

  /** The subcommands `/rebus help` lists. */
  const UserSubCommands: seq<SubCommand> :=
    [SubCommand("help", ""), SubCommand("version", ""), SubCommand("menu", UsePermission)]

  /** Both shipped lists fit on one page, so every requested help page shows page 1. */
  lemma ShippedListsHaveOnePage(requested: int)
    ensures MaxHelpPage(|AdminSubCommands|) == 1 && MaxHelpPage(|UserSubCommands|) == 1
    ensures ClampPage(requested, |AdminSubCommands|) == 1 && ClampPage(requested, |UserSubCommands|) == 1
  {
  }

  /**
   * Who sent the command. The handlers test only for the server console and then cast the sender
   * to a player, so any other sender (a remote console, a command block) makes the cast throw.
   */
  datatype SenderKind = Console | PlayerSender | OtherSender

  /** What an invocation resolves to before anything is done. */
  datatype Route =
    | ConsoleLog                            // a console sender: one log line, nothing else
    | CastFails                             // neither console nor player: the cast throws, nothing is sent
    | Deny                                  // General.NoPermission
    | BadPage                               // Commands.Common.InvalidPage
    | ShowHelp(requested: int)              // the requested page, before clamping
    | ShowVersion
    | Reload
    | SpawnNpc
    | RemoveNpcs
    | GiveChest(targetName: string, chestKey: string)
    | ResetTarget(targetName: string)
    | OpenMenu
    | BadArguments                          // Commands.InvalidArguments

  /** `help`/`?`: page 1 without a second argument, else the parsed page, or an invalid-page reply. */
  function HelpRoute(args: seq<string>): Route
  {
    if |args| > 1 then
      var page := ParseInt(args[1]);
      if page.None? then BadPage else ShowHelp(page.value)
    else ShowHelp(1)
  }

  /** The decision `CommandRebusAdmin.onCommand` takes; the subcommand name is matched after lower-casing. */
  function AdminRoute(sender: SenderKind, perms: set<string>, args: seq<string>): Route
  {
    if sender == Console then ConsoleLog
    else if sender == OtherSender then CastFails
    else if AdminPermission !in perms then Deny
    else if args == [] then ShowHelp(1)
    else
      var sub := ToLower(args[0]);
      if sub == "help" || sub == "?" then HelpRoute(args)
      else if sub == "version" then ShowVersion
      else if sub == "reload" then (if ReloadPermission in perms then Reload else Deny)
      else if sub == "npc" then (if NpcPermission in perms then SpawnNpc else Deny)
      else if sub == "removenpcs" then (if NpcPermission in perms then RemoveNpcs else Deny)
      else if sub == "give" then
        (if GivePermission !in perms then Deny else if |args| != 3 then BadArguments else GiveChest(args[1], args[2]))
      else if sub == "reset" then
        (if ResetPermission !in perms then Deny else if |args| != 2 then BadArguments else ResetTarget(args[1]))
      else BadArguments
  }

  predicate IsAdminSubCommand(sub: string)
  {
    sub in {"help", "?", "version", "reload", "npc", "removenpcs", "give", "reset"}
  }

  /**
   * A console only gets a log line, and any other sender that is not a player fails the cast;
   * every other route needs `rebus.admin`; each privileged
   * subcommand also needs its own node; give and reset act only on exactly 3 and 2 arguments;
   * no arguments shows help page 1; an unknown subcommand is refused as invalid arguments.
   */
  lemma AdminRouteGuards(sender: SenderKind, perms: set<string>, args: seq<string>)
    ensures var r := AdminRoute(sender, perms, args);
      && (r == ConsoleLog <==> sender == Console)
      && (r == CastFails <==> sender == OtherSender)
      && (sender == PlayerSender && AdminPermission !in perms ==> r == Deny)
      && (r != ConsoleLog && r != CastFails && r != Deny ==> sender == PlayerSender && AdminPermission in perms)
      && (r == Reload ==> ReloadPermission in perms)
      && (r == SpawnNpc || r == RemoveNpcs ==> NpcPermission in perms)
      && (r.GiveChest? ==> GivePermission in perms && |args| == 3 && r == GiveChest(args[1], args[2]))
      && (r.ResetTarget? ==> ResetPermission in perms && |args| == 2 && r == ResetTarget(args[1]))
      && (sender == PlayerSender && AdminPermission in perms && args == [] ==> r == ShowHelp(1))
      && (sender == PlayerSender && AdminPermission in perms && args != [] && !IsAdminSubCommand(ToLower(args[0])) ==> r == BadArguments)
  {
  }

  /**
   * A help page argument is read by `Integer.parseInt`: a malformed one is refused, a valid one
   * is passed on unchanged (to be clamped by `help`).
   */
  lemma HelpPageArgument(args: seq<string>)
    requires |args| > 1
    ensures HelpRoute(args) == BadPage <==> ParseInt(args[1]).None?
    ensures HelpRoute(args).ShowHelp? ==> ParseInt(args[1]) == Some(HelpRoute(args).requested)
    ensures HelpRoute(["help", DecimalString(7)]) == ShowHelp(7)
  {
    ParseIntRoundTrip(7);
  }

  /** The subcommand name is case-insensitive: lower-casing it first changes nothing. */
  lemma AdminRouteIgnoresCase(sender: SenderKind, perms: set<string>, sub: string, rest: seq<string>)
    ensures AdminRoute(sender, perms, [sub] + rest) == AdminRoute(sender, perms, [ToLower(sub)] + rest)
  {
    ToLowerIsIdempotent(sub);
    assert ([sub] + rest)[1..] == rest == ([ToLower(sub)] + rest)[1..];
  }

  /** The decision `CommandRebus.onCommand` takes. */
  function UserRoute(sender: SenderKind, perms: set<string>, args: seq<string>): Route
  {
    if sender == Console then ConsoleLog
    else if sender == OtherSender then CastFails
    else if UsePermission !in perms then Deny
    else if args == [] then ShowHelp(1)
    else
      var sub := ToLower(args[0]);
      if sub == "help" || sub == "?" then HelpRoute(args)
      else if sub == "version" then ShowVersion
      else if sub == "menu" then (if UsePermission in perms then OpenMenu else Deny)
      else BadArguments
  }

  /**
   * The user command refuses exactly the players without `rebus.use` (the menu's own re-check
   * can never fail), and only routes to help, version, the menu or an invalid-arguments reply.
   */
  lemma UserRouteGuards(sender: SenderKind, perms: set<string>, args: seq<string>)
    ensures var r := UserRoute(sender, perms, args);
      && (r == ConsoleLog <==> sender == Console)
      && (r == CastFails <==> sender == OtherSender)
      && (r == Deny <==> sender == PlayerSender && UsePermission !in perms)
      && (r == OpenMenu <==> sender == PlayerSender && UsePermission in perms && args != [] && ToLower(args[0]) == "menu")
      && (r.ShowHelp? || r == BadPage || r == ShowVersion || r == OpenMenu || r == BadArguments || r == ConsoleLog
          || r == CastFails || r == Deny)
      && (sender == PlayerSender && UsePermission in perms && args == [] ==> r == ShowHelp(1))
  {
  }

  /** Give's chest lookup: the first chest met whose key equals the argument exactly. */
  method FindExact(chests: set<RebusChest>, key: string) returns (r: Option<RebusChest>)
    ensures r.Some? ==> r.value in chests && r.value.key == key
    ensures r.None? <==> forall c | c in chests :: c.key != key
  {
    var pending := chests;
    while pending != {}
      invariant pending <= chests
      invariant forall c | c in chests - pending :: c.key != key
      decreases pending
    {
      var c :| c in pending;
      if c.key == key {
        return Some(c);
      }
      pending := pending - {c};
    }
    return None;
  }

  /**
   * Give matches keys exactly while placing a chest item matches them ignoring case: every chest
   * give finds would also be found by placement, but not the other way round.
   */
  lemma GiveLookupIsStricter()
    ensures forall a: string, b: string :: a == b ==> EqualsIgnoreCase(a, b)
    ensures EqualsIgnoreCase("Gold", "gold") && "Gold" != "gold"
  {
    assert ToLower("Gold") == "gold";
    assert ToLower("gold") == "gold";
  }

  /**
   * `give`: with the target online and a chest whose key matches exactly, one chest item goes to
   * the target, the sender is told it was given and the target that it was received. A missing
   * target or chest is reported to the sender and changes nothing else. `online` says whether
   * the server found a player by the name.
   */
  method Give(sender: Player, target: Player, online: bool, chestKey: string, chests: set<RebusChest>)
    returns (chest: Option<RebusChest>)
    modifies sender`outbox, target`outbox, target`slots
    ensures !online ==> chest.None? && sender.outbox == old(sender.outbox) + [PlayerNotFound]
    ensures online ==> (chest.None? <==> forall c | c in chests :: c.key != chestKey)
    ensures online && chest.None? ==> sender.outbox == old(sender.outbox) + [ChestNotFound(chestKey)]
    ensures chest.None? ==> target.slots == old(target.slots) && (sender != target ==> target.outbox == old(target.outbox))
    ensures chest.Some? ==>
      && online && chest.value in chests && chest.value.key == chestKey
      && target.slots == WithAdded(old(target.slots), chest.value.Item(1))
      && (sender != target ==>
            sender.outbox == old(sender.outbox) + [GiveGiven(chest.value.name)]
            && target.outbox == old(target.outbox) + [GiveReceived(chest.value.name)])
      && (sender == target ==>
            sender.outbox == old(sender.outbox) + [GiveGiven(chest.value.name), GiveReceived(chest.value.name)])
  {
    if !online {
      sender.Send(PlayerNotFound);
      return None;
    }
    chest := FindExact(chests, chestKey);
    if chest.None? {
      sender.Send(ChestNotFound(chestKey));
      return;
    }
    chest.value.Give(target, 1);
    sender.Send(GiveGiven(chest.value.name));
    target.Send(GiveReceived(chest.value.name));
  }

  /**
   * `reset`: with the target online, every cooldown of the target is removed from the store, the
   * sender is told so and so is the target; otherwise the sender is told the player was not found.
   */
  method Reset(sender: Player, target: Player, online: bool, store: Store, ok: bool)
    modifies sender`outbox, target`outbox, store
    ensures !online ==> sender.outbox == old(sender.outbox) + [PlayerNotFound] && store.State() == old(store.State())
                        && (sender != target ==> target.outbox == old(target.outbox))
    ensures online ==> store.State() == DeleteAll(old(store.State()), store.context, target.id, ok)
    ensures online && sender != target ==>
      sender.outbox == old(sender.outbox) + [ResetCooldowns] && target.outbox == old(target.outbox) + [YourCooldownsReset]
    ensures online && sender == target ==> sender.outbox == old(sender.outbox) + [ResetCooldowns, YourCooldownsReset]
  {
    if !online {
      sender.Send(PlayerNotFound);
      return;
    }
    store.RemoveAllCooldowns(target.id, ok);
    sender.Send(ResetCooldowns);
    target.Send(YourCooldownsReset);
  }

  /**
   * `CommandRebusAdmin.onCommand`. `player` is the sender, a player when `sender` is
   * `PlayerSender`; a console only logs and any other sender fails the cast, and neither changes
   * anything modelled. `target`/`online` stand for the server's lookup of the player named by
   * `args[1]`; reloading the plugin and the NPC actions are not part of this model and leave the
   * modelled state as it is.
   */
  method OnAdminCommand(sender: SenderKind, player: Player, args: seq<string>, target: Player, online: bool,
                        chests: set<RebusChest>, store: Store, resetOk: bool)
    returns (route: Route, given: Option<RebusChest>)
    modifies player`outbox, target`outbox, target`slots, store
    ensures route == AdminRoute(sender, player.permissions, args)
    ensures route == ConsoleLog || route == CastFails ==> player.outbox == old(player.outbox)
    ensures route == Deny ==> player.outbox == old(player.outbox) + [NoPermission]
    ensures route == BadPage ==> player.outbox == old(player.outbox) + [InvalidPage]
    ensures route == BadArguments ==> player.outbox == old(player.outbox) + [InvalidArguments]
    ensures route == ShowVersion ==> player.outbox == old(player.outbox) + [VersionCurrent]
    ensures route == Reload ==> player.outbox == old(player.outbox) + [ReloadDone]
    ensures route == SpawnNpc || route == RemoveNpcs ==> player.outbox == old(player.outbox)
    ensures route.ShowHelp? ==>
      player.outbox == old(player.outbox) + HelpMessages(AdminCommand, AdminSubCommands, player.permissions, route.requested)
    ensures !route.ResetTarget? ==> store.State() == old(store.State())
    ensures !route.GiveChest? ==> given.None? && target.slots == old(target.slots)
    ensures !route.GiveChest? && !route.ResetTarget? && target != player ==> target.outbox == old(target.outbox)
    ensures route.ResetTarget? && !online ==>
      && store.State() == old(store.State()) && player.outbox == old(player.outbox) + [PlayerNotFound]
      && (player != target ==> target.outbox == old(target.outbox))
    ensures route.ResetTarget? && online ==> store.State() == DeleteAll(old(store.State()), store.context, target.id, resetOk)
    ensures route.ResetTarget? && online && player != target ==>
      player.outbox == old(player.outbox) + [ResetCooldowns] && target.outbox == old(target.outbox) + [YourCooldownsReset]
    ensures route.ResetTarget? && online && player == target ==>
      player.outbox == old(player.outbox) + [ResetCooldowns, YourCooldownsReset]
    ensures route.ResetTarget? ==> given.None? && target.slots == old(target.slots)
    ensures route.GiveChest? && !online ==> given.None? && player.outbox == old(player.outbox) + [PlayerNotFound]
    ensures route.GiveChest? && online ==> (given.None? <==> forall c | c in chests :: c.key != route.chestKey)
    ensures route.GiveChest? && online && given.None? ==> player.outbox == old(player.outbox) + [ChestNotFound(route.chestKey)]
    ensures route.GiveChest? && given.None? ==>
      target.slots == old(target.slots) && (player != target ==> target.outbox == old(target.outbox))
    ensures route.GiveChest? && given.Some? ==>
      && online && given.value in chests && given.value.key == route.chestKey
      && target.slots == WithAdded(old(target.slots), given.value.Item(1))
      && (player != target ==>
            player.outbox == old(player.outbox) + [GiveGiven(given.value.name)]
            && target.outbox == old(target.outbox) + [GiveReceived(given.value.name)])
      && (player == target ==>
            player.outbox == old(player.outbox) + [GiveGiven(given.value.name), GiveReceived(given.value.name)])
  {
    route := AdminRoute(sender, player.permissions, args);
    given := None;
    match route {
      case Deny => player.Send(NoPermission);
      case BadPage => player.Send(InvalidPage);
      case BadArguments => player.Send(InvalidArguments);
      case ShowHelp(requested) => Help(player, AdminCommand, AdminSubCommands, requested);
      case ShowVersion => player.Send(VersionCurrent);
      case Reload => player.Send(ReloadDone);
      case GiveChest(_, chestKey) => given := Give(player, target, online, chestKey, chests);
      case ResetTarget(_) => Reset(player, target, online, store, resetOk);
      case _ =>
    }
  }

  /**
   * `CommandRebus.onCommand`: help, version, or the main menu, which is opened with
   * `MainGUI.open`. As for the admin command, `player` is the sender, a player when `sender` is
   * `PlayerSender`, and a console or a failed cast changes nothing modelled.
   */
  method OnUserCommand(sender: SenderKind, player: Player, args: seq<string>, caches: PlayerCacheManager, cfg: GuiConfig,
                       chests: set<RebusChest>)
    returns (route: Route, menu: Option<Menu>, faulted: bool, ghost placed: set<RebusChest>)
    modifies player`outbox
    modifies if player.id in caches.data then {caches.data[player.id]} else {}
    modifies if player.id in caches.data && caches.data[player.id].mainMenu.Some?
             then {caches.data[player.id].mainMenu.value} else {}
    ensures route == UserRoute(sender, player.permissions, args)
    ensures route == ConsoleLog || route == CastFails ==> player.outbox == old(player.outbox)
    ensures route == Deny ==> player.outbox == old(player.outbox) + [NoPermission]
    ensures route == BadPage ==> player.outbox == old(player.outbox) + [InvalidPage]
    ensures route == BadArguments ==> player.outbox == old(player.outbox) + [InvalidArguments]
    ensures route == ShowVersion ==> player.outbox == old(player.outbox) + [VersionCurrent]
    ensures route.ShowHelp? ==>
      player.outbox == old(player.outbox) + HelpMessages(UserCommand, UserSubCommands, player.permissions, route.requested)
    ensures route != OpenMenu ==> menu.None? && !faulted
    ensures route != OpenMenu && player.id in caches.data ==> unchanged(caches.data[player.id])
    ensures route != OpenMenu && player.id in caches.data && old(caches.data[player.id].mainMenu).Some? ==>
      unchanged(caches.data[player.id].mainMenu.value)
    ensures route == OpenMenu ==>
      && player.outbox == old(player.outbox)
      && (menu.Some? <==> player.id in caches.data)
      && (menu.None? ==> !faulted)
      && (menu.Some? ==>
            var cache := caches.data[player.id];
            && cache.guiOpened && cache.mainMenu == menu
            && cache.cooldowns == old(cache.cooldowns) && cache.buyCooldowns == old(cache.buyCooldowns)
            && var before := if old(cache.mainMenu).Some? then old(cache.mainMenu.value.buttons) else MainLayout(cfg);
            && ButtonsPlaced(before, menu.value.buttons, chests, placed, faulted))
  {
    route := UserRoute(sender, player.permissions, args);
    menu, faulted, placed := None, false, {};
    match route {
      case Deny => player.Send(NoPermission);
      case BadPage => player.Send(InvalidPage);
      case BadArguments => player.Send(InvalidArguments);
      case ShowHelp(requested) => Help(player, UserCommand, UserSubCommands, requested);
      case ShowVersion => player.Send(VersionCurrent);
      case OpenMenu => menu, faulted, placed := OpenMain(caches, player.id, cfg, chests);
      case _ =>
    }
  }
}
