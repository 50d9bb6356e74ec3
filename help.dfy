/**
 * The paged help listing that both `/rebus` and `/rebusadmin` print (the `help` method of
 * commands/CommandRebus.java and commands/CommandRebusAdmin.java, which differ only in the
 * command name and the subcommand list).
 */
module HelpPages {
  import opened RebusTypes
  import opened Players
  import opened Numbers

  /** A listed subcommand and the permission node it is shown to; the syntax and description keys are not modelled. */
  datatype SubCommand = SubCommand(name: string, permission: string)

  /** `SubCommandData.hasPermission`: an empty node is open to everyone, any other must be held. */
  predicate CanUse(sub: SubCommand, perms: set<string>)
  {
    sub.permission == "" || sub.permission in perms
  }

  /** Entries per help page. */
  const HelpPageSize := 15

  function MaxHelpPage(n: nat): int
  {
    1 + n / HelpPageSize
  }

  /** The requested page, lowered to the last page and then raised to 1. */
  function ClampPage(page: int, n: nat): (r: int)
    ensures 1 <= r <= MaxHelpPage(n)
  {
    var p := if page > MaxHelpPage(n) then MaxHelpPage(n) else page;
    if p < 1 then 1 else p
  }

  /** A page in range is kept; one past the end becomes the last page, one below 1 becomes page 1. */
  lemma ClampPageKeepsValidPages(page: int, n: nat)
    ensures 1 <= page <= MaxHelpPage(n) <==> ClampPage(page, n) == page
    ensures page > MaxHelpPage(n) ==> ClampPage(page, n) == MaxHelpPage(n)
    ensures page < 1 ==> ClampPage(page, n) == 1
  {
  }

  /** The indices of the entries the player may use, from `from` on, in increasing order. */
  function Scan(entries: seq<SubCommand>, perms: set<string>, from: nat): (r: seq<nat>)
    ensures forall k | 0 <= k < |r| :: from <= r[k] < |entries| && CanUse(entries[r[k]], perms)
    decreases |entries| - from
  {
    if from >= |entries| then []
    else (if CanUse(entries[from], perms) then [from] else []) + Scan(entries, perms, from + 1)
  }

  /** `Scan` is strictly increasing and misses no usable entry from `from` on. */
  lemma ScanIsComplete(entries: seq<SubCommand>, perms: set<string>, from: nat)
    ensures forall k, l | 0 <= k < l < |Scan(entries, perms, from)| :: Scan(entries, perms, from)[k] < Scan(entries, perms, from)[l]
    ensures forall j | from <= j < |entries| && CanUse(entries[j], perms) :: j in Scan(entries, perms, from)
  {
    ScanIncreasing(entries, perms, from);
    ScanCoversUsable(entries, perms, from);
  }

  lemma {:induction false} ScanIncreasing(entries: seq<SubCommand>, perms: set<string>, from: nat)
    ensures forall k, l | 0 <= k < l < |Scan(entries, perms, from)| :: Scan(entries, perms, from)[k] < Scan(entries, perms, from)[l]
    decreases |entries| - from
  {
    if from < |entries| {
      var s := Scan(entries, perms, from);
      var rest := Scan(entries, perms, from + 1);
      var head: seq<nat> := if CanUse(entries[from], perms) then [from] else [];
      ScanStep(entries, perms, from);
      ScanIncreasing(entries, perms, from + 1);
      forall k, l | 0 <= k < l < |s|
        ensures s[k] < s[l]
      {
        if k < |head| {
          assert s[l] == rest[l - |head|];
        } else {
          assert s[k] == rest[k - |head|] && s[l] == rest[l - |head|];
        }
      }
    }
  }

  lemma {:induction false} ScanCoversUsable(entries: seq<SubCommand>, perms: set<string>, from: nat)
    ensures forall j | from <= j < |entries| && CanUse(entries[j], perms) :: j in Scan(entries, perms, from)
    decreases |entries| - from
  {
    if from < |entries| {
      var s := Scan(entries, perms, from);
      var rest := Scan(entries, perms, from + 1);
      var head: seq<nat> := if CanUse(entries[from], perms) then [from] else [];
      ScanStep(entries, perms, from);
      ScanCoversUsable(entries, perms, from + 1);
      forall j | from <= j < |entries| && CanUse(entries[j], perms)
        ensures j in s
      {
        if j == from {
          assert j in head;
        } else {
          assert j in rest;
        }
      }
    }
  }

  /** When every entry from `from` on is usable, the scan is simply `from`, `from + 1`, … */
  lemma {:induction false} ScanAllUsable(entries: seq<SubCommand>, perms: set<string>, from: nat)
    requires forall j | from <= j < |entries| :: CanUse(entries[j], perms)
    ensures |Scan(entries, perms, from)| == if from < |entries| then |entries| - from else 0
    ensures forall k | 0 <= k < |Scan(entries, perms, from)| :: Scan(entries, perms, from)[k] == from + k
    decreases |entries| - from
  {
    if from < |entries| {
      ScanAllUsable(entries, perms, from + 1);
    }
  }

  /** The entries a help page lists: the first 15 usable entries from raw index (page - 1) * 15 on. */
  function ShownIndices(entries: seq<SubCommand>, perms: set<string>, page: int): seq<nat>
    requires page >= 1
  {
    var all := Scan(entries, perms, (page - 1) * HelpPageSize);
    if |all| < HelpPageSize then all else all[..HelpPageSize]
  }

  /** Whether the listing loop ran off the end of the list (rather than stopping after 15 entries). */
  predicate ReachedEnd(entries: seq<SubCommand>, perms: set<string>, page: int)
    requires page >= 1
  {
    |Scan(entries, perms, (page - 1) * HelpPageSize)| < HelpPageSize
  }

  function EntryLines(command: string, entries: seq<SubCommand>, idx: seq<nat>): (r: seq<Message>)
    requires forall k | 0 <= k < |idx| :: idx[k] < |entries|
    ensures |r| == |idx|
  {
    seq(|idx|, k requires 0 <= k < |idx| => HelpEntry(command, entries[idx[k]].name))
  }

  /** The footer of a help page: a previous link from page 2 on, a next link when the loop did not run off the end and a later page exists. */
  function Footer(entries: seq<SubCommand>, perms: set<string>, page: int): Message
    requires page >= 1
  {
    var maxPage := MaxHelpPage(|entries|);
    HelpBottom(page, maxPage, if page > 1 then Some(page - 1) else None,
               if !ReachedEnd(entries, perms, page) && maxPage >= page + 1 then Some(page + 1) else None)
  }

  /** Everything one help page consists of, in order: title, info line, the listed entries, footer. */
  function PageMessages(command: string, entries: seq<SubCommand>, perms: set<string>, page: int): seq<Message>
    requires page >= 1
  {
    [HelpTitle(page, MaxHelpPage(|entries|)), HelpInfo]
      + EntryLines(command, entries, ShownIndices(entries, perms, page))
      + [Footer(entries, perms, page)]
  }

  /** Everything `help` sends: the page the requested number is clamped to. */
  function HelpMessages(command: string, entries: seq<SubCommand>, perms: set<string>, requested: int): seq<Message>
  {
    PageMessages(command, entries, perms, ClampPage(requested, |entries|))
  }

  /** Appending one listed index appends its help line. */
  lemma EntryLinesAppend(command: string, entries: seq<SubCommand>, idx: seq<nat>, index: nat)
    requires forall k | 0 <= k < |idx| :: idx[k] < |entries|
    requires index < |entries|
    ensures EntryLines(command, entries, idx + [index]) == EntryLines(command, entries, idx) + [HelpEntry(command, entries[index].name)]
  {
  }

  /**
   * The listing loop of `help` for a clamped page: an unusable entry advances `itemIndex` but
   * not `i` (the source's `i--; continue`); the loop stops after 15 listed entries or at the end.
   */
  method ListEntries(player: Player, command: string, entries: seq<SubCommand>, page: int) returns (reachedEnd: bool)
    requires page >= 1
    modifies player`outbox
    ensures player.outbox == old(player.outbox) + EntryLines(command, entries, ShownIndices(entries, player.permissions, page))
    ensures reachedEnd == ReachedEnd(entries, player.permissions, page)
  {
    var start: nat := (page - 1) * HelpPageSize;
    ghost var all := Scan(entries, player.permissions, start);
    ghost var shown: seq<nat> := [];
    ghost var rest := all;
    reachedEnd := false;
    var itemIndex := 0;
    var i := 0;
    while i < HelpPageSize
      invariant 0 <= i <= HelpPageSize && |shown| == i && 0 <= itemIndex <= |entries|
      invariant start + itemIndex <= |entries| || itemIndex == 0
      invariant rest == Scan(entries, player.permissions, start + itemIndex)
      invariant all == shown + rest
      invariant forall k | 0 <= k < |shown| :: shown[k] < |entries|
      invariant player.outbox == old(player.outbox) + EntryLines(command, entries, shown)
      invariant !reachedEnd
      decreases |entries| - itemIndex
    {
      var index := itemIndex + start;
      if index >= |entries| {
        assert rest == [];
        reachedEnd := true;
        break;
      }
      itemIndex := itemIndex + 1;
      var sub := entries[index];
      ghost var next := Scan(entries, player.permissions, index + 1);
      if !CanUse(sub, player.permissions) {
        assert rest == next by {
          ScanStep(entries, player.permissions, index);
        }
        rest := next;
        continue;
      }
      SendEntry(player, command, entries, shown, index, old(player.outbox));
      assert all == (shown + [index]) + next by {
        ScanStep(entries, player.permissions, index);
        MoveFront(shown, index, next);
      }
      shown := shown + [index];
      rest := next;
      i := i + 1;
    }
    LoopOutcome(entries, player.permissions, page, shown, rest, reachedEnd);
  }

  /** Sending one listed entry extends the lines sent so far by that entry's line. */
  method SendEntry(player: Player, command: string, entries: seq<SubCommand>, ghost shown: seq<nat>, index: nat, ghost before: seq<Message>)
    requires forall k | 0 <= k < |shown| :: shown[k] < |entries|
    requires index < |entries|
    requires player.outbox == before + EntryLines(command, entries, shown)
    modifies player`outbox
    ensures player.outbox == before + EntryLines(command, entries, shown + [index])
  {
    player.Send(HelpEntry(command, entries[index].name));
    EntryLinesAppend(command, entries, shown, index);
  }

  /** How the listing loop ends: off the end with fewer than 15 listed, or after exactly 15. */
  lemma LoopOutcome(entries: seq<SubCommand>, perms: set<string>, page: int, shown: seq<nat>, rest: seq<nat>, ended: bool)
    requires page >= 1
    requires Scan(entries, perms, (page - 1) * HelpPageSize) == shown + rest
    requires ended ==> rest == [] && |shown| < HelpPageSize
    requires !ended ==> |shown| == HelpPageSize
    ensures ShownIndices(entries, perms, page) == shown
    ensures ReachedEnd(entries, perms, page) == ended
  {
    if !ended {
      assert (shown + rest)[..HelpPageSize] == shown;
    }
  }

  lemma ScanStep(entries: seq<SubCommand>, perms: set<string>, from: nat)
    requires from < |entries|
    ensures Scan(entries, perms, from) == (if CanUse(entries[from], perms) then [from] else []) + Scan(entries, perms, from + 1)
  {
  }

  lemma MoveFront(s: seq<nat>, x: nat, t: seq<nat>)
    ensures s + ([x] + t) == (s + [x]) + t
  {
  }

  lemma AppendInOneGo(s: seq<Message>, a: Message, b: Message, t: seq<Message>, u: seq<Message>)
    ensures s + [a] + [b] + t + u == s + ([a, b] + t + u)
  {
  }

  /** The body of `help` once the page is clamped: title, info line, the listing loop, footer. */
  method ShowPage(player: Player, command: string, entries: seq<SubCommand>, page: int)
    requires 1 <= page <= MaxHelpPage(|entries|)
    modifies player`outbox
    ensures player.outbox == old(player.outbox) + PageMessages(command, entries, player.permissions, page)
  {
    var maxPage := 1 + |entries| / HelpPageSize;
    ghost var listed := EntryLines(command, entries, ShownIndices(entries, player.permissions, page));
    player.Send(HelpTitle(page, maxPage));
    player.Send(HelpInfo);
    var reachedEnd := ListEntries(player, command, entries, page);
    var previous := if page > 1 then Some(page - 1) else None;
    var next := if !reachedEnd && maxPage >= page + 1 then Some(page + 1) else None;
    player.Send(HelpBottom(page, maxPage, previous, next));
    AppendInOneGo(old(player.outbox), HelpTitle(page, maxPage), HelpInfo, listed, [HelpBottom(page, maxPage, previous, next)]);
  }

  /** `help`: the requested page is clamped into range, then shown. */
  method Help(player: Player, command: string, entries: seq<SubCommand>, requested: int)
    modifies player`outbox
    ensures player.outbox == old(player.outbox) + HelpMessages(command, entries, player.permissions, requested)
  {
    var maxPage := 1 + |entries| / HelpPageSize;
    var page := requested;
    if page > maxPage {
      page := maxPage;
    }
    if page < 1 {
      page := 1;
    }
    ShowPage(player, command, entries, page);
  }

  /**
   * A page lists at most 15 entries, each usable by the player, in increasing list order, none
   * before the page's starting index; no usable entry between the start and the last listed one
   * is skipped, and when fewer than 15 are listed every usable entry from the start on is.
   */
  lemma ShownIndicesArePermittedInOrder(entries: seq<SubCommand>, perms: set<string>, page: int)
    requires page >= 1
    ensures var r := ShownIndices(entries, perms, page);
      && |r| <= HelpPageSize
      && (forall k | 0 <= k < |r| :: (page - 1) * HelpPageSize <= r[k] < |entries| && CanUse(entries[r[k]], perms))
      && (forall k, l | 0 <= k < l < |r| :: r[k] < r[l])
      && (|r| < HelpPageSize ==>
            forall j | (page - 1) * HelpPageSize <= j < |entries| && CanUse(entries[j], perms) :: j in r)
      && (|r| == HelpPageSize ==>
            forall j | (page - 1) * HelpPageSize <= j <= r[|r| - 1] && CanUse(entries[j], perms) :: j in r)
  {
    var start := (page - 1) * HelpPageSize;
    var all := Scan(entries, perms, start);
    ScanIsComplete(entries, perms, start);
    if |all| < HelpPageSize {
      assert ShownIndices(entries, perms, page) == all;
    } else {
      PrefixOfScan(entries, perms, start, HelpPageSize);
    }
  }

  /** A prefix of a scan keeps its order and misses no usable entry up to its last index. */
  lemma PrefixOfScan(entries: seq<SubCommand>, perms: set<string>, from: nat, n: nat)
    requires 0 < n <= |Scan(entries, perms, from)|
    requires forall k, l | 0 <= k < l < |Scan(entries, perms, from)| :: Scan(entries, perms, from)[k] < Scan(entries, perms, from)[l]
    requires forall j | from <= j < |entries| && CanUse(entries[j], perms) :: j in Scan(entries, perms, from)
    ensures var r := Scan(entries, perms, from)[..n];
      && (forall k | 0 <= k < |r| :: from <= r[k] < |entries| && CanUse(entries[r[k]], perms))
      && (forall k, l | 0 <= k < l < |r| :: r[k] < r[l])
      && (forall j | from <= j <= r[|r| - 1] && CanUse(entries[j], perms) :: j in r)
  {
    var all := Scan(entries, perms, from);
    var r := all[..n];
    forall k | 0 <= k < |r|
      ensures from <= r[k] < |entries| && CanUse(entries[r[k]], perms)
    {
      assert r[k] == all[k];
    }
    forall k, l | 0 <= k < l < |r|
      ensures r[k] < r[l]
    {
      assert r[k] == all[k] && r[l] == all[l];
    }
    forall j | from <= j <= r[|r| - 1] && CanUse(entries[j], perms)
      ensures j in r
    {
      var k :| 0 <= k < |all| && all[k] == j;
      assert r[k] == j;
    }
  }

  /**
   * The footer's links stay on existing pages, and the page number each link carries is read back
   * by `Integer.parseInt` as that same page, which `help` then keeps as it is.
   */
  lemma FooterLinksStayInRange(entries: seq<SubCommand>, perms: set<string>, page: int)
    requires |entries| <= IntMax  // the size of a Java list is an `int`
    requires 1 <= page <= MaxHelpPage(|entries|)
    ensures var f := Footer(entries, perms, page);
      && (f.previous.Some? <==> page > 1)
      && (f.previous.Some? ==> ParseInt(DecimalString(f.previous.value)) == Some(page - 1)
                               && ClampPage(page - 1, |entries|) == page - 1)
      && (f.next.Some? ==> page < MaxHelpPage(|entries|)
                           && ParseInt(DecimalString(f.next.value)) == Some(page + 1)
                           && ClampPage(page + 1, |entries|) == page + 1)
  {
    var f := Footer(entries, perms, page);
    if f.previous.Some? {
      ParseIntRoundTrip(page - 1);
    }
    if f.next.Some? {
      ParseIntRoundTrip(page + 1);
    }
  }

  /**
   * Pages overlap when an unusable entry sits on an earlier page: with 16 entries of which only
   * the first is unusable, page 1 lists entries 1 to 15 and still links to page 2, which lists
   * entry 15 again.
   */
  lemma PagesCanOverlap()
    ensures var entries := [SubCommand("hidden", "rebus.admin")] + seq(15, k => SubCommand("open", ""));
      && |ShownIndices(entries, {}, 1)| == HelpPageSize && ShownIndices(entries, {}, 1)[HelpPageSize - 1] == 15
      && Footer(entries, {}, 1).next == Some(2)
      && ShownIndices(entries, {}, 2) == [15]
  {
    var entries := [SubCommand("hidden", "rebus.admin")] + seq(15, k => SubCommand("open", ""));
    ScanAllUsable(entries, {}, 1);
    assert Scan(entries, {}, 0) == Scan(entries, {}, 1);
    ScanAllUsable(entries, {}, 15);
  }

  /**
   * With exactly 15 usable entries, page 1 lists them all but still links to page 2, which
   * lists nothing.
   */
  lemma LastPageCanBeEmpty()
    ensures var entries := seq(15, k => SubCommand("open", ""));
      && |ShownIndices(entries, {}, 1)| == 15
      && Footer(entries, {}, 1).next == Some(2)
      && ShownIndices(entries, {}, 2) == []
  {
    var entries := seq(15, k => SubCommand("open", ""));
    ScanAllUsable(entries, {}, 0);
  }
}
