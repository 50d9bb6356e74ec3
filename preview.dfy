/**
 * The reward preview window (gui/PreviewGUI.java): a six-row menu whose 28 inner slots list a
 * chest's possible items, one page at a time, with previous/next buttons.
 */
module Previews {
  import opened RebusTypes
  import opened Chests
  import opened Menus
  import opened PlayerCaches

  /** The border slots that hold the black glass placeholder, in the order `create` sets them. */
  const SlotPlaceholders: seq<int> :=
    [0, 1, 2, 3, 4, 5, 6, 7, 8, 9, 17, 18, 26, 27, 35, 36, 44, 46, 47, 51, 52, 53]

  const BackSlot := 45
  const PreviousSlot := 48
  const PageSlot := 49
  const NextSlot := 50

  /** Items per page. */
  const PageSize := 28

  /** The i-th inner slot: seven per row, rows 1 to 4, columns 1 to 7. */
  function ContentSlot(i: nat): int
  {
    i + 10 + 2 * (i / 7)
  }

  /** Inner slot i sits in row i/7 + 1 and column i%7 + 1 of the nine-column grid. */
  lemma ContentSlotGrid(i: nat)
    requires i < PageSize
    ensures ContentSlot(i) / 9 == i / 7 + 1 && ContentSlot(i) % 9 == i % 7 + 1
    ensures 10 <= ContentSlot(i) <= 43
  {
    var q, r := i / 7, i % 7;
    assert i == 7 * q + r;
    assert q == 0 || q == 1 || q == 2 || q == 3;
    assert ContentSlot(i) == 9 * (q + 1) + (r + 1);
  }

  /** Distinct inner positions get distinct slots. */
  lemma ContentSlotInjective(i: nat, j: nat)
    requires i < PageSize && j < PageSize && ContentSlot(i) == ContentSlot(j)
    ensures i == j
  {
    ContentSlotGrid(i);
    ContentSlotGrid(j);
    assert i == 7 * (i / 7) + i % 7;
    assert j == 7 * (j / 7) + j % 7;
  }

  /** No inner slot is a border placeholder or one of the four control slots. */
  lemma ContentSlotAvoidsChrome(i: nat)
    requires i < PageSize
    ensures ContentSlot(i) !in SlotPlaceholders
    ensures ContentSlot(i) !in {BackSlot, PreviousSlot, PageSlot, NextSlot}
  {
    ContentSlotGrid(i);
    PlaceholdersOnBorder();
  }

  /** Every placeholder slot is in the top or bottom row or the first or last column. */
  lemma PlaceholdersOnBorder()
    ensures forall k | 0 <= k < |SlotPlaceholders| ::
      SlotPlaceholders[k] < 9 || SlotPlaceholders[k] >= 45 || SlotPlaceholders[k] % 9 == 0 || SlotPlaceholders[k] % 9 == 8
  {
  }

  /** The list index slot i shows on page `page`. */
  function PageIndex(page: int, i: nat): int
  {
    i + (page - 1) * PageSize
  }

  /** Every list index is shown at exactly one place: page k/28 + 1, inner position k%28. */
  lemma EachIndexHasOnePlace(k: nat, page: int, i: nat)
    requires page >= 1 && i < PageSize
    ensures PageIndex(k / PageSize + 1, k % PageSize) == k
    ensures PageIndex(page, i) == k <==> page == k / PageSize + 1 && i == k % PageSize
  {
    var q := k / PageSize;
    assert k == q * PageSize + k % PageSize;
  }

  /** The last page the next button reaches: computed from the number of reward bundles. */
  function MaxPage(bundles: nat): int
  {
    1 + bundles / PageSize
  }

  /** The previous-page click: nothing when the page before would be below 1. */
  function PreviousPageOf(page: int): int
  {
    if page - 1 <= 0 then page else page - 1
  }

  /** The next-page click: nothing when the page after would pass the last page. */
  function NextPageOf(page: int, bundles: nat): int
  {
    if page + 1 > MaxPage(bundles) then page else page + 1
  }

  /** From a page in [1, MaxPage] both clicks stay in range; each moves by one exactly when it can. */
  lemma NavigationStaysInRange(page: int, bundles: nat)
    requires 1 <= page <= MaxPage(bundles)
    ensures 1 <= PreviousPageOf(page) <= MaxPage(bundles)
    ensures 1 <= NextPageOf(page, bundles) <= MaxPage(bundles)
    ensures PreviousPageOf(page) == (if page > 1 then page - 1 else page)
    ensures NextPageOf(page, bundles) == (if page < MaxPage(bundles) then page + 1 else page)
  {
  }

  /** Page `page` shows list index k in one of its inner slots. */
  predicate ShowsIndex(page: int, k: int)
  {
    exists i: nat | i < PageSize :: PageIndex(page, i) == k
  }

  /**
   * The pages navigation can reach show exactly the list indices below 28 * MaxPage(bundles):
   * as the page limit counts bundles, listed items at or past that index are never shown.
   */
  lemma ReachableIndices(bundles: nat, k: nat)
    ensures (exists page | 1 <= page <= MaxPage(bundles) :: ShowsIndex(page, k)) <==> k < PageSize * MaxPage(bundles)
  {
    var page, i := k / PageSize + 1, k % PageSize;
    EachIndexHasOnePlace(k, page, i);
    if k < PageSize * MaxPage(bundles) {
      assert ShowsIndex(page, k);
    } else {
      forall page' | 1 <= page' <= MaxPage(bundles)
        ensures !ShowsIndex(page', k)
      {
        forall i': nat | i' < PageSize
          ensures PageIndex(page', i') != k
        {
          assert (page' - 1) * PageSize <= (MaxPage(bundles) - 1) * PageSize;
        }
      }
    }
  }

  /** One bundle and 29 listed items: the 29th item is never shown. */
  lemma TwentyNinthItemUnreachableWithOneBundle()
    ensures MaxPage(1) == 1
    ensures forall page | 1 <= page <= MaxPage(1) :: !ShowsIndex(page, 28)
  {
    ReachableIndices(1, 28);
  }

  /** A preview copy of an item: same item, marked as duplication-protected. */
  function Protected(item: ItemStack): ItemStack
  {
    item.(meta := Some(ItemMeta(if item.meta.Some? then item.meta.value.chestTag else None, true)))
  }

  /**
   * The slot loop of `refresh` from inner position i on: slots past the list are cleared, the
   * others show a protected copy. A negative index or an air item (no meta) throws, which
   * `refresh` catches: the loop stops where it is.
   */
  function Fill(b: map<int, Button>, items: seq<ItemStack>, page: int, i: nat): map<int, Button>
    decreases PageSize - i
  {
    if i >= PageSize then b
    else
      var index := PageIndex(page, i);
      if index >= |items| then Fill(b - {ContentSlot(i)}, items, page, i + 1)
      else if index < 0 || IsAir(items[index].material) then b
      else Fill(b[ContentSlot(i) := Display(Protected(items[index]))], items, page, i + 1)
  }

  predicate NoAir(items: seq<ItemStack>)
  {
    forall k | 0 <= k < |items| :: !IsAir(items[k].material)
  }

  predicate IsContentSlot(s: int)
  {
    exists i: nat | i < PageSize :: ContentSlot(i) == s
  }

  /**
   * For a page from 1 on and a list without air, the inner slots from position i on end up
   * showing the page's items and being empty past the list; every other slot keeps its button.
   */
  lemma {:induction false} FillShowsPage(b: map<int, Button>, items: seq<ItemStack>, page: int, i: nat)
    requires page >= 1 && NoAir(items) && i <= PageSize
    ensures var r := Fill(b, items, page, i);
      && (forall j: nat | i <= j < PageSize ::
            (ContentSlot(j) in r <==> PageIndex(page, j) < |items|)
            && (PageIndex(page, j) < |items| ==> r[ContentSlot(j)] == Display(Protected(items[PageIndex(page, j)]))))
      && (forall s | !(exists j: nat | i <= j < PageSize :: ContentSlot(j) == s) ::
            (s in r <==> s in b) && (s in b ==> r[s] == b[s]))
    decreases PageSize - i
  {
    if i < PageSize {
      var index := PageIndex(page, i);
      var b' := if index >= |items| then b - {ContentSlot(i)} else b[ContentSlot(i) := Display(Protected(items[index]))];
      FillShowsPage(b', items, page, i + 1);
      var r := Fill(b, items, page, i);
      assert r == Fill(b', items, page, i + 1);
      forall j: nat | i < j < PageSize
        ensures ContentSlot(j) != ContentSlot(i)
      {
        if ContentSlot(j) == ContentSlot(i) {
          ContentSlotInjective(i, j);
        }
      }
      forall j: nat | i <= j < PageSize
        ensures ContentSlot(j) in r <==> PageIndex(page, j) < |items|
        ensures PageIndex(page, j) < |items| ==> r[ContentSlot(j)] == Display(Protected(items[PageIndex(page, j)]))
      {
        if j == i {
          assert !(exists j': nat | i + 1 <= j' < PageSize :: ContentSlot(j') == ContentSlot(i));
        }
      }
      forall s | !(exists j: nat | i <= j < PageSize :: ContentSlot(j) == s)
        ensures (s in r <==> s in b) && (s in b ==> r[s] == b[s])
      {
        assert !(exists j: nat | i + 1 <= j < PageSize :: ContentSlot(j) == s);
        assert s != ContentSlot(i);
      }
    }
  }

  /** The menu after `refresh`: the page indicator, then the slot loop when a chest is being previewed. */
  function Refreshed(b: map<int, Button>, chest: Option<RebusChest>, page: int): map<int, Button>
  {
    var b' := b[PageSlot := PageIndicator(page)];
    if chest.None? then b' else Fill(b', chest.value.possibleItems, page, 0)
  }

  /** `create`: the placeholders, then the back, previous, page and next buttons. */
  function PreviewLayout(): map<int, Button>
  {
    (map s | s in SlotPlaceholders :: Placeholder)[BackSlot := Back][PreviousSlot := PreviousPage]
      [PageSlot := PageIndicator(1)][NextSlot := NextPage]
  }

  /** The preview menu's fixed buttons leave every inner slot free. */
  lemma LayoutLeavesContentFree(i: nat)
    requires i < PageSize
    ensures ContentSlot(i) !in PreviewLayout()
  {
    ContentSlotAvoidsChrome(i);
  }

  /** The placeholder loop of `create`: every listed slot gets the button. */
  method PlaceAll(m: Menu, slots: seq<int>, b: Button)
    requires m.buttons == map[]
    modifies m
    ensures m.buttons == map s | s in slots :: b
  {
    var k := 0;
    while k < |slots|
      invariant 0 <= k <= |slots|
      invariant m.buttons == map s | s in slots[..k] :: b
    {
      m.SetButton(slots[k], b);
      assert slots[..k + 1] == slots[..k] + [slots[k]];
      k := k + 1;
    }
    assert slots[..k] == slots;
  }

  /** `PreviewGUI.create`. */
  method CreatePreviewMenu() returns (m: Menu)
    ensures fresh(m) && m.buttons == PreviewLayout()
  {
    m := new Menu();
    PlaceAll(m, SlotPlaceholders, Placeholder);
    m.SetButton(BackSlot, Back);
    m.SetButton(PreviousSlot, PreviousPage);
    m.SetButton(PageSlot, PageIndicator(1));
    m.SetButton(NextSlot, NextPage);
  }

  /** `refresh`. Without a previewed chest the loop throws before it starts, which `refresh` catches. */
  method Refresh(cache: PlayerCache)
    modifies cache.previewMenu
    ensures cache.previewMenu.buttons == Refreshed(old(cache.previewMenu.buttons), cache.previewChest, cache.previewPage)
  {
    var menu := cache.previewMenu;
    var page := cache.previewPage;
    menu.SetButton(PageSlot, PageIndicator(page));
    if cache.previewChest.None? {
      return;
    }
    var items := cache.previewChest.value.possibleItems;
    ghost var start := menu.buttons;
    var i := 0;
    while i < PageSize
      invariant 0 <= i <= PageSize
      invariant Fill(menu.buttons, items, page, i) == Fill(start, items, page, 0)
    {
      var index := i + (page - 1) * PageSize;
      var slot := i + 10 + 2 * (i / 7);
      if index >= |items| {
        menu.RemoveButton(slot);
        i := i + 1;
        continue;
      }
      if index < 0 || IsAir(items[index].material) {
        return;
      }
      menu.SetButton(slot, Display(Protected(items[index])));
      i := i + 1;
    }
  }

  /** The previous-page button. */
  method PreviousPageClick(cache: PlayerCache)
    modifies cache`previewPage, cache.previewMenu
    ensures cache.previewPage == PreviousPageOf(old(cache.previewPage))
    ensures old(cache.previewPage) - 1 <= 0 ==> cache.previewMenu.buttons == old(cache.previewMenu.buttons)
    ensures old(cache.previewPage) - 1 > 0 ==>
      cache.previewMenu.buttons == Refreshed(old(cache.previewMenu.buttons), cache.previewChest, cache.previewPage)
  {
    if cache.previewPage - 1 <= 0 {
      return;
    }
    cache.previewPage := cache.previewPage - 1;
    Refresh(cache);
  }

  /** The next-page button; without a previewed chest it throws before changing anything. */
  method NextPageClick(cache: PlayerCache)
    modifies cache`previewPage, cache.previewMenu
    ensures cache.previewChest.None? ==>
      cache.previewPage == old(cache.previewPage) && cache.previewMenu.buttons == old(cache.previewMenu.buttons)
    ensures cache.previewChest.Some? ==>
      var bundles := |cache.previewChest.value.rewards|;
      && cache.previewPage == NextPageOf(old(cache.previewPage), bundles)
      && (old(cache.previewPage) + 1 > MaxPage(bundles) ==> cache.previewMenu.buttons == old(cache.previewMenu.buttons))
      && (old(cache.previewPage) + 1 <= MaxPage(bundles) ==>
            cache.previewMenu.buttons == Refreshed(old(cache.previewMenu.buttons), cache.previewChest, cache.previewPage))
  {
    if cache.previewChest.None? {
      return;
    }
    var maxPage := 1 + |cache.previewChest.value.rewards| / PageSize;
    if cache.previewPage + 1 > maxPage {
      return;
    }
    cache.previewPage := cache.previewPage + 1;
    Refresh(cache);
  }

  /** `open`: the chest is remembered, the GUI marked open, the page reset to 1, and the menu refreshed. */
  method OpenPreview(cache: PlayerCache, chest: RebusChest)
    modifies cache`previewChest, cache`guiOpened, cache`previewPage, cache.previewMenu
    ensures cache.previewChest == Some(chest) && cache.guiOpened && cache.previewPage == 1
    ensures cache.previewMenu.buttons == Refreshed(old(cache.previewMenu.buttons), Some(chest), 1)
  {
    cache.previewChest := Some(chest);
    cache.SetGuiOpened(true);
    cache.previewPage := 1;
    Refresh(cache);
  }
}
