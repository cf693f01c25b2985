/**
 * The action-to-button table of src/keybinds.c.  A controller sample is
 * its `Buttons` word; an action is down when its bound button bits meet it.
 */
module Keybinds {
  import opened Wrappers

  // Action identifiers
  const ACTION_MOVE_FORWARD: int := 0
  const ACTION_MOVE_BACKWARD: int := 1
  const ACTION_MOVE_LEFT: int := 2
  const ACTION_MOVE_RIGHT: int := 3
  const ACTION_MOVE_UP: int := 4
  const ACTION_MOVE_DOWN: int := 5
  const ACTION_MENU_UP: int := 6
  const ACTION_MENU_DOWN: int := 7
  const ACTION_MENU_SELECT: int := 8
  const ACTION_MENU_BACK: int := 9
  const ACTION_TOGGLE_MENU: int := 10
  const ACTION_COUNT: int := 11

  predicate IsAction(action: int) {
    0 <= action < ACTION_COUNT
  }

  // Button bits of the PSP controller's `Buttons` word (pspctrl.h)
  const PSP_CTRL_SELECT: bv32 := 0x0001
  const PSP_CTRL_START: bv32 := 0x0008
  const PSP_CTRL_UP: bv32 := 0x0010
  const PSP_CTRL_RIGHT: bv32 := 0x0020
  const PSP_CTRL_DOWN: bv32 := 0x0040
  const PSP_CTRL_LEFT: bv32 := 0x0080
  const PSP_CTRL_LTRIGGER: bv32 := 0x0100
  const PSP_CTRL_RTRIGGER: bv32 := 0x0200
  const PSP_CTRL_TRIANGLE: bv32 := 0x1000
  const PSP_CTRL_CIRCLE: bv32 := 0x2000
  const PSP_CTRL_CROSS: bv32 := 0x4000
  const PSP_CTRL_SQUARE: bv32 := 0x8000

  /** Whether any of the `button` bits is held in a controller sample. */
  predicate Down(sample: bv32, button: bv32) {
    sample & button != 0
  }

  /** One table entry: the bound button bits and the action's name (absent = NULL). */
  datatype KeyBinding = KeyBinding(button: bv32, name: Option<string>)

  /** A zero-initialised entry: no button, NULL name. */
  const UNBOUND: KeyBinding := KeyBinding(0, None)

  /** The fixed display names, indexed by action. */
  const ACTION_NAMES: seq<string> := [
    "Move Forward", "Move Backward", "Move Left", "Move Right", "Move Up", "Move Down",
    "Menu Up", "Menu Down", "Menu Select", "Menu Back", "Toggle Menu"
  ]

  /**
   * Keybinds_GetActionName: the action's display name, and the empty
   * string exactly for an out-of-range action (every real name is non-empty).
   */
  function ActionName(action: int): (name: string)
    ensures name == "" <==> !IsAction(action)
    ensures IsAction(action) ==> name == ACTION_NAMES[action]
  {
    if action < 0 || action >= ACTION_COUNT then "" else ACTION_NAMES[action]
  }

  /** Different actions have different names, so a name identifies its action. */
  lemma ActionNamesDistinct(a: int, b: int)
    requires IsAction(a) && IsAction(b) && a != b
    ensures ActionName(a) != ActionName(b)
  {
    assert ACTION_NAMES[a] != ACTION_NAMES[b] by {
      if |ACTION_NAMES[a]| == |ACTION_NAMES[b]| {
        assert ACTION_NAMES[a][1] != ACTION_NAMES[b][1] || ACTION_NAMES[a][5] != ACTION_NAMES[b][5];
      }
    }
  }

  /** The button Keybinds_Init binds to each action. */
  function DefaultButton(action: int): bv32
    requires IsAction(action)
  {
    [PSP_CTRL_UP, PSP_CTRL_DOWN, PSP_CTRL_LEFT, PSP_CTRL_RIGHT, PSP_CTRL_LTRIGGER, PSP_CTRL_RTRIGGER,
     PSP_CTRL_UP, PSP_CTRL_DOWN, PSP_CTRL_CROSS, PSP_CTRL_CIRCLE, PSP_CTRL_START][action]
  }

  /**
   * The default menu controls are pairwise distinct single buttons, so
   * each of them can be pressed without firing another.
   */
  lemma DefaultMenuButtonsDistinct(a: int, b: int, buttons: bv32)
    requires a in {ACTION_MENU_UP, ACTION_MENU_DOWN, ACTION_MENU_SELECT, ACTION_TOGGLE_MENU}
    requires b in {ACTION_MENU_UP, ACTION_MENU_DOWN, ACTION_MENU_SELECT, ACTION_TOGGLE_MENU}
    requires a != b && buttons == DefaultButton(a)
    ensures Down(buttons, DefaultButton(a))
    ensures !Down(buttons, DefaultButton(b))
  {
  }

  class KeyBindingSystem {
    var bindings: array<KeyBinding>

    ghost predicate Valid()
      reads this
    {
      bindings.Length == ACTION_COUNT
    }

    /** A zero-initialised table (static storage before Keybinds_Init). */
    constructor ()
      ensures Valid() && fresh(bindings)
      ensures forall a :: 0 <= a < ACTION_COUNT ==> bindings[a] == UNBOUND
    {
      bindings := new KeyBinding[ACTION_COUNT](_ => UNBOUND);
    }

    /** Keybinds_Init: every action gets its default button and its name. */
    method Init()
      requires Valid()
      modifies bindings
      ensures forall a :: 0 <= a < ACTION_COUNT ==>
                bindings[a] == KeyBinding(DefaultButton(a), Some(ActionName(a)))
    {
      bindings[ACTION_MOVE_FORWARD] := KeyBinding(PSP_CTRL_UP, Some(ACTION_NAMES[ACTION_MOVE_FORWARD]));
      bindings[ACTION_MOVE_BACKWARD] := KeyBinding(PSP_CTRL_DOWN, Some(ACTION_NAMES[ACTION_MOVE_BACKWARD]));
      bindings[ACTION_MOVE_LEFT] := KeyBinding(PSP_CTRL_LEFT, Some(ACTION_NAMES[ACTION_MOVE_LEFT]));
      bindings[ACTION_MOVE_RIGHT] := KeyBinding(PSP_CTRL_RIGHT, Some(ACTION_NAMES[ACTION_MOVE_RIGHT]));
      bindings[ACTION_MOVE_UP] := KeyBinding(PSP_CTRL_LTRIGGER, Some(ACTION_NAMES[ACTION_MOVE_UP]));
      bindings[ACTION_MOVE_DOWN] := KeyBinding(PSP_CTRL_RTRIGGER, Some(ACTION_NAMES[ACTION_MOVE_DOWN]));
      bindings[ACTION_MENU_UP] := KeyBinding(PSP_CTRL_UP, Some(ACTION_NAMES[ACTION_MENU_UP]));
      bindings[ACTION_MENU_DOWN] := KeyBinding(PSP_CTRL_DOWN, Some(ACTION_NAMES[ACTION_MENU_DOWN]));
      bindings[ACTION_MENU_SELECT] := KeyBinding(PSP_CTRL_CROSS, Some(ACTION_NAMES[ACTION_MENU_SELECT]));
      bindings[ACTION_MENU_BACK] := KeyBinding(PSP_CTRL_CIRCLE, Some(ACTION_NAMES[ACTION_MENU_BACK]));
      bindings[ACTION_TOGGLE_MENU] := KeyBinding(PSP_CTRL_START, Some(ACTION_NAMES[ACTION_TOGGLE_MENU]));
    }

    /**
     * Keybinds_SetBinding: rebinds a valid action, keeping its name; an
     * out-of-range action changes nothing.  Reading back gives the new
     * button, and every other action reads as before.
     */
    method SetBinding(action: int, button: bv32)
      requires Valid()
      modifies bindings
      ensures IsAction(action) ==>
                bindings[..] == old(bindings[..])[action := old(bindings[action]).(button := button)]
      ensures !IsAction(action) ==> bindings[..] == old(bindings[..])
      ensures IsAction(action) ==> GetBinding(action) == button
      ensures forall other :: other != action ==> GetBinding(other) == old(GetBinding(other))
    {
      if action < 0 || action >= ACTION_COUNT {
        return;
      }
      bindings[action] := bindings[action].(button := button);
    }

    /** Keybinds_GetBinding: the bound button bits, 0 for an out-of-range action. */
    function GetBinding(action: int): (button: bv32)
      reads this, bindings
      requires Valid()
      ensures !IsAction(action) ==> button == 0
      ensures IsAction(action) ==> button == bindings[action].button
    {
      if action < 0 || action >= ACTION_COUNT then 0 else bindings[action].button
    }

    /** Keybinds_IsActionDown: some bound button is set in the sample. */
    function IsActionDown(action: int, buttons: bv32): (down: bool)
      reads this, bindings
      requires Valid()
      ensures !IsAction(action) ==> !down
      ensures IsAction(action) ==> (down <==> Down(buttons, bindings[action].button))
    {
      if action < 0 || action >= ACTION_COUNT then false
      else Down(buttons, bindings[action].button)
    }

    /** Keybinds_IsActionHeld: an alias of IsActionDown, the same mask test. */
    function IsActionHeld(action: int, buttons: bv32): (held: bool)
      reads this, bindings
      requires Valid()
      ensures !IsAction(action) ==> !held
      ensures IsAction(action) ==> (held <==> Down(buttons, bindings[action].button))
    {
      IsActionDown(action, buttons)
    }
  }

  /**
   * An action is down exactly when the sample meets GetBinding's bits;
   * in particular an unbound (0) or out-of-range action is never down,
   * and "held" means the same as "down".
   */
  lemma DownIffBindingMet(ks: KeyBindingSystem, action: int, buttons: bv32)
    requires ks.Valid()
    ensures ks.IsActionDown(action, buttons) <==> Down(buttons, ks.GetBinding(action))
    ensures ks.GetBinding(action) == 0 ==> !ks.IsActionDown(action, buttons)
    ensures ks.IsActionHeld(action, buttons) == ks.IsActionDown(action, buttons)
  {
  }

  /** Every out-of-range action is handled softly by each lookup. */
  lemma OutOfRangeIsSoft(ks: KeyBindingSystem, action: int, buttons: bv32)
    requires ks.Valid() && !IsAction(action)
    ensures ks.GetBinding(action) == 0
    ensures !ks.IsActionDown(action, buttons) && !ks.IsActionHeld(action, buttons)
    ensures ActionName(action) == ""
  {
  }
}
