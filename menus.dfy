/** Inventory menus as slot-to-button maps, and the main menu's layout (MainGUI.create). */
module Menus {
  import opened RebusTypes

  /** What a slot shows. Listeners are identified by the button kind. */
  datatype Button =
    | Placeholder
    | Close
    | Back
    | ChestButton(chestKey: string)
    | PreviousPage
    | PageIndicator(page: int)
    | NextPage
    | Display(item: ItemStack)

  /** The GUI part of the plugin configuration. */
  datatype GuiConfig = GuiConfig(rows: int, fillEmptySlots: bool, closeButtonSlot: int)

  /** The defaults of the configuration file. */
  const DefaultGuiConfig := GuiConfig(1, true, 8)

  /** The slot numbers 0 .. n-1. */
  function SlotRange(n: int): (r: set<int>)
    ensures forall i :: i in r <==> 0 <= i < n
  {
    if n <= 0 then {} else SlotRange(n - 1) + {n - 1}
  }

  function Filled(n: int): map<int, Button>
  {
    map i | i in SlotRange(n) :: Placeholder
  }

  class Menu {
    var buttons: map<int, Button>

    constructor ()
      ensures buttons == map[]
    {
      buttons := map[];
    }

    method SetButton(slot: int, b: Button)
      modifies this
      ensures buttons == old(buttons)[slot := b]
    {
      buttons := buttons[slot := b];
    }

    method RemoveButton(slot: int)
      modifies this
      ensures buttons == old(buttons) - {slot}
    {
      buttons := buttons - {slot};
    }
  }

  /**
   * The main menu as `create` leaves it: with `fillEmptySlots`, every slot of the `rows` rows
   * holds the placeholder; then the close button is put at its configured slot.
   */
  function MainLayout(cfg: GuiConfig): map<int, Button>
  {
    (if cfg.fillEmptySlots then Filled(cfg.rows * 9) else map[])[cfg.closeButtonSlot := Close]
  }

  /** The close button always wins its slot; with filling on, every other slot of the grid is a placeholder and nothing lies outside. */
  lemma MainLayoutSlots(cfg: GuiConfig)
    ensures MainLayout(cfg)[cfg.closeButtonSlot] == Close
    ensures cfg.fillEmptySlots ==> forall i | 0 <= i < cfg.rows * 9 && i != cfg.closeButtonSlot :: MainLayout(cfg)[i] == Placeholder
    ensures forall i | i in MainLayout(cfg) :: i == cfg.closeButtonSlot || (cfg.fillEmptySlots && 0 <= i < cfg.rows * 9)
    ensures !cfg.fillEmptySlots ==> MainLayout(cfg) == map[cfg.closeButtonSlot := Close]
  {
  }

  /** With the default configuration the menu is one row of eight placeholders and the close button in the last slot. */
  lemma DefaultMainLayout()
    ensures MainLayout(DefaultGuiConfig).Keys == SlotRange(9)
    ensures forall i | 0 <= i < 8 :: MainLayout(DefaultGuiConfig)[i] == Placeholder
  {
    var m := MainLayout(DefaultGuiConfig);
    forall i | 0 <= i < 9 ensures i in m {
    }
  }

  /** `MainGUI.create`: a new menu, filled by the slot loop, then the close button. */
  method CreateMainMenu(cfg: GuiConfig) returns (m: Menu)
    ensures fresh(m) && m.buttons == MainLayout(cfg)
  {
    m := new Menu();
    if cfg.fillEmptySlots {
      var slots := cfg.rows * 9;
      var i := 0;
      while i < slots
        invariant 0 <= i && (i <= slots || i == 0)
        invariant m.buttons == Filled(if i < slots then i else slots)
      {
        m.SetButton(i, Placeholder);
        i := i + 1;
      }
    }
    m.SetButton(cfg.closeButtonSlot, Close);
  }
}
