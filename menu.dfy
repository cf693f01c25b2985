/**
 * The menu state machine of src/menu.c.  The menu's fields, the registered
 * "current menu" pointer and the file's static state (status message, its
 * frame countdown, and the current and previous controller samples seen
 * by Menu_Update) are the fields of one `Menu` object; its update is
 * specified by the pure function `Step` on a snapshot `MenuView`.
 *
 * The scene operations the item actions call have no definition in the
 * repository, so an update returns the list of scene calls it made, and
 * the two results the actions read come in as `SceneResults`.
 */
module Menu {
  import opened Wrappers
  import opened Keybinds

  datatype MenuState = MenuNone | MenuMain | MenuOptions

  /** The item callbacks. */
  datatype ItemAction = StartGame | SaveGame | LoadGame | OpenOptions | GoBack

  /** A menu entry; an absent action is a NULL callback. */
  datatype MenuItem = MenuItem(text: string, action: Option<ItemAction>)

  const MAIN_MENU_ITEMS: seq<MenuItem> := [
    MenuItem("Start Game", Some(StartGame)),
    MenuItem("Save Game", Some(SaveGame)),
    MenuItem("Load Game", Some(LoadGame)),
    MenuItem("Options", Some(OpenOptions))
  ]

  const OPTIONS_MENU_ITEMS: seq<MenuItem> := [
    MenuItem("Keybindings", None),
    MenuItem("Back", Some(GoBack))
  ]

  /** The item list of a menu state; MENU_NONE has none (a NULL list of count 0). */
  function Items(state: MenuState): (items: seq<MenuItem>)
    ensures |items| == 0 <==> state == MenuNone
    ensures state == MenuMain ==> |items| == 4
    ensures state == MenuOptions ==> |items| == 2
  {
    match state
    case MenuNone => []
    case MenuMain => MAIN_MENU_ITEMS
    case MenuOptions => OPTIONS_MENU_ITEMS
  }

  /** The status buffer holds 64 characters including the terminating NUL. */
  const STATUS_CAPACITY: int := 64
  /** How long the Load action's messages stay on screen. */
  const STATUS_FRAMES: int := 180

  /** A call into the scene's save/load layer made by an item action. */
  datatype SceneCall = ResetToDefault | SaveScene | GetPopulatedSaveCount | LoadScene

  /** What the scene layer answers: the populated save count, and whether a load succeeds. */
  datatype SceneResults = SceneResults(populatedSaves: int, loadSucceeds: bool)

  /** The three menu buttons, as read from the key-binding table. */
  datatype Controls = Controls(down: bv32, up: bv32, select: bv32)

  /**
   * A press: the button is set in this sample and was clear in the previous
   * one.  Only a bound button can be pressed, and a repeated sample presses
   * nothing.
   */
  predicate Pressed(now: bv32, before: bv32, button: bv32)
    ensures Pressed(now, before, button) ==> button != 0 && now != before
  {
    (now & button) != 0 && (before & button) == 0
  }

  /** One item down, wrapping from the last to the first. */
  function NextItem(i: int, n: int): int
    requires n > 0
  {
    (i + 1) % n
  }

  /** One item up, wrapping from the first to the last. */
  function PrevItem(i: int, n: int): int
    requires n > 0
  {
    (i - 1 + n) % n
  }

  lemma ModOfSmall(x: int, n: int)
    requires 0 <= x < n
    ensures x % n == x
  {
  }

  lemma ModOfWrapped(x: int, n: int)
    requires 0 < n <= x < 2 * n
    ensures x % n == x - n
  {
    ModOfSmall(x - n, n);
    assert (x - n) % n == x % n;
  }

  lemma NextPrevValues(i: int, n: int)
    requires 0 <= i < n
    ensures NextItem(i, n) == (if i == n - 1 then 0 else i + 1)
    ensures PrevItem(i, n) == (if i == 0 then n - 1 else i - 1)
  {
    if i == n - 1 {
      ModOfWrapped(n, n);
    } else {
      ModOfSmall(i + 1, n);
    }
    if i == 0 {
      ModOfSmall(n - 1, n);
    } else {
      ModOfWrapped(i - 1 + n, n);
    }
  }

  /** Navigation stays in range, wraps at both ends, and Up undoes Down (and back). */
  lemma NavigationWraps(i: int, n: int)
    requires 0 <= i < n
    ensures NextItem(i, n) == (if i == n - 1 then 0 else i + 1)
    ensures PrevItem(i, n) == (if i == 0 then n - 1 else i - 1)
    ensures 0 <= NextItem(i, n) < n && 0 <= PrevItem(i, n) < n
    ensures PrevItem(NextItem(i, n), n) == i && NextItem(PrevItem(i, n), n) == i
  {
    NextPrevValues(i, n);
    NextPrevValues(NextItem(i, n), n);
    NextPrevValues(PrevItem(i, n), n);
  }

  /** A snapshot of everything the menu code keeps between calls. */
  datatype MenuView = MenuView(
    currentMenu: MenuState,
    selectedItem: int,
    isActive: bool,
    registered: bool,      // the static current-menu pointer is set (Menu_Init was called)
    statusMessage: string,
    statusFrames: int,
    pad: bv32,             // the sample read by the last active Menu_Update
    oldPad: bv32)          // the sample before that

  /**
   * The menu invariant: the selection indexes the current item list (it
   * is 0 in MENU_NONE) and the status message fits its buffer.
   */
  ghost predicate ValidView(v: MenuView) {
    && 0 <= v.selectedItem
    && (v.currentMenu == MenuNone ==> v.selectedItem == 0)
    && (v.currentMenu != MenuNone ==> v.selectedItem < |Items(v.currentMenu)|)
    && |v.statusMessage| < STATUS_CAPACITY
  }

  /**
   * Menu_Update divides by the item count on a navigation press, which is
   * zero in MENU_NONE: an active update there must not see one.
   */
  predicate Defined(v: MenuView, sample: bv32, c: Controls) {
    !(v.isActive && v.currentMenu == MenuNone &&
      (Pressed(sample, v.pad, c.down) || Pressed(sample, v.pad, c.up)))
  }

  /** The zero-initialised menu and static state, before Menu_Init. */
  const INITIAL_VIEW: MenuView := MenuView(MenuNone, 0, false, false, "", 0, 0, 0)

  /**
   * Menu_ShowStatus: a NULL message is ignored; otherwise the message,
   * cut to the 63 characters that fit before the NUL, and the frame count
   * are stored.
   */
  function ShowStatusSpec(v: MenuView, message: Option<string>, frames: int): (v': MenuView)
    ensures message.None? ==> v' == v
    ensures message.Some? ==>
              && |v'.statusMessage| < STATUS_CAPACITY
              && v'.statusMessage <= message.value
              && (|message.value| < STATUS_CAPACITY ==> v'.statusMessage == message.value)
              && v'.statusFrames == frames
              && v' == v.(statusMessage := v'.statusMessage, statusFrames := frames)
  {
    if message.None? then v
    else
      var m := message.value;
      v.(statusMessage := if |m| < STATUS_CAPACITY then m else m[..STATUS_CAPACITY - 1], statusFrames := frames)
  }

  /**
   * The status countdown of one active update: a positive counter drops by
   * one and the message is cleared when it reaches 0; otherwise nothing
   * changes.  Only the status fields are touched.
   */
  function Tick(v: MenuView): (t: MenuView)
    ensures v.statusFrames <= 0 ==> t == v
    ensures v.statusFrames > 0 ==> t.statusFrames == v.statusFrames - 1
    ensures v.statusFrames > 0 ==> (t.statusMessage == "" <==> t.statusFrames == 0 || v.statusMessage == "")
    ensures t == v.(statusFrames := t.statusFrames, statusMessage := t.statusMessage)
    ensures |t.statusMessage| <= |v.statusMessage|
  {
    if v.statusFrames > 0 then
      var f := v.statusFrames - 1;
      v.(statusFrames := f, statusMessage := if f == 0 then "" else v.statusMessage)
    else v
  }

  /** `k` active updates' worth of countdown. */
  function TickN(v: MenuView, k: nat): MenuView
    decreases k
  {
    if k == 0 then v else TickN(Tick(v), k - 1)
  }

  lemma {:induction false} TickNIdle(v: MenuView, k: nat)
    requires v.statusFrames <= 0
    ensures TickN(v, k) == v
    decreases k
  {
    if k > 0 {
      TickNIdle(Tick(v), k - 1);
    }
  }

  /**
   * A status message shown for `statusFrames` frames stays visible for
   * exactly that many active updates, and the counter stops at 0.
   */
  lemma {:induction false} StatusExpires(v: MenuView, k: nat)
    requires v.statusFrames > 0 && v.statusMessage != ""
    ensures TickN(v, k).statusMessage == "" <==> k >= v.statusFrames
    ensures TickN(v, k).statusFrames == if k >= v.statusFrames then 0 else v.statusFrames - k
    decreases k
  {
    if k > 0 {
      var t := Tick(v);
      if v.statusFrames == 1 {
        TickNIdle(t, k - 1);
      } else {
        StatusExpires(t, k - 1);
      }
    }
  }

  /** The effect of an item's callback, and the scene calls it makes. */
  function Act(v: MenuView, a: ItemAction, r: SceneResults): (res: (MenuView, seq<SceneCall>))
    ensures ValidView(v) ==> ValidView(res.0)
    ensures res.0.pad == v.pad && res.0.oldPad == v.oldPad && res.0.registered == v.registered
    ensures GetPopulatedSaveCount !in res.1 ==>
              res.0.statusMessage == v.statusMessage && res.0.statusFrames == v.statusFrames
  {
    match a
    case StartGame =>
      if v.registered then (v.(isActive := false), [ResetToDefault]) else (v, [])
    case OpenOptions =>
      if v.registered then (v.(currentMenu := MenuOptions, selectedItem := 0), []) else (v, [])
    case GoBack =>
      if v.registered then (v.(currentMenu := MenuMain, selectedItem := 0), []) else (v, [])
    case SaveGame =>
      (v, [SaveScene])
    case LoadGame =>
      if r.populatedSaves <= 0 then
        (ShowStatusSpec(v, Some("No saves found!"), STATUS_FRAMES), [GetPopulatedSaveCount])
      else if !r.loadSucceeds then
        (ShowStatusSpec(v, Some("Load failed"), STATUS_FRAMES), [GetPopulatedSaveCount, LoadScene])
      else
        (v, [GetPopulatedSaveCount, LoadScene])
  }

  /**
   * What each callback promises.  Start asks for a scene reset and hides
   * the menu; Options and Back switch menus at item 0; Save only saves;
   * Load asks for the save count, loads only when there are saves, and
   * reports an empty list or a failed load for 180 frames.
   */
  lemma ActionOutcomes(v: MenuView, r: SceneResults)
    requires v.registered
    ensures Act(v, StartGame, r) == (v.(isActive := false), [ResetToDefault])
    ensures var (o, calls) := Act(v, OpenOptions, r);
      calls == [] && o.currentMenu == MenuOptions && o.selectedItem == 0 && o.isActive == v.isActive
    ensures var (o, calls) := Act(v, GoBack, r);
      calls == [] && o.currentMenu == MenuMain && o.selectedItem == 0 && o.isActive == v.isActive
    ensures Act(v, SaveGame, r) == (v, [SaveScene])
    ensures var (o, calls) := Act(v, LoadGame, r);
      && (LoadScene in calls <==> r.populatedSaves > 0)
      && (r.populatedSaves <= 0 ==> o.statusMessage == "No saves found!" && o.statusFrames == STATUS_FRAMES)
      && (r.populatedSaves > 0 && !r.loadSucceeds ==> o.statusMessage == "Load failed" && o.statusFrames == STATUS_FRAMES)
      && (r.populatedSaves > 0 && r.loadSucceeds ==> o == v)
  {
  }

  /** Down then Up from the same selection, as Menu_Update applies them. */
  function Navigate(selected: int, n: int, down: bool, up: bool): (r: int)
    requires n > 0 || (!down && !up)
    requires n > 0 ==> 0 <= selected < n
    ensures n > 0 ==> 0 <= r < n
    ensures !down && !up ==> r == selected
    ensures down && up ==> r == selected
  {
    var s := if down then NextItem(selected, n) else selected;
    var r := if up then PrevItem(s, n) else s;
    if n > 0 then
      NavigationWraps(selected, n);
      NavigationWraps(s, n);
      r
    else r
  }

  /** The menu buttons as Menu_Update reads them from the key-binding table. */
  function MenuControls(keys: KeyBindingSystem): Controls
    reads keys, keys.bindings
    requires keys.Valid()
  {
    Controls(keys.GetBinding(ACTION_MENU_DOWN), keys.GetBinding(ACTION_MENU_UP), keys.GetBinding(ACTION_MENU_SELECT))
  }

  /** On a Select press, the highlighted item's callback, if it has one. */
  function Choose(u: MenuView, select: bool, r: SceneResults): (res: (MenuView, seq<SceneCall>))
    requires ValidView(u)
    ensures ValidView(res.0)
    ensures res.0.pad == u.pad && res.0.oldPad == u.oldPad && res.0.registered == u.registered
    ensures GetPopulatedSaveCount !in res.1 ==>
              res.0.statusMessage == u.statusMessage && res.0.statusFrames == u.statusFrames
  {
    var items := Items(u.currentMenu);
    if select && |items| > 0 && items[u.selectedItem].action.Some? then
      Act(u, items[u.selectedItem].action.value, r)
    else
      (u, [])
  }

  /**
   * Menu_Update on a snapshot, given this call's controller sample.  An
   * inactive menu changes nothing at all.  An active one counts the
   * status down, shifts the sample into its pad history, applies a Down
   * and then an Up press with wraparound, and on a Select press runs the
   * highlighted item's callback, if it has one.
   */
  function Step(v: MenuView, sample: bv32, c: Controls, r: SceneResults): (res: (MenuView, seq<SceneCall>))
    requires ValidView(v) && Defined(v, sample, c)
    ensures ValidView(res.0)
    ensures !v.isActive ==> res == (v, [])
    ensures v.isActive ==> res.0.pad == sample && res.0.oldPad == v.pad
    ensures res.0.registered == v.registered
    ensures v.isActive && GetPopulatedSaveCount !in res.1 ==>
              res.0.statusMessage == Tick(v).statusMessage && res.0.statusFrames == Tick(v).statusFrames
  {
    if !v.isActive then (v, [])
    else
      var items := Items(v.currentMenu);
      var n := |items|;
      var down, up := Pressed(sample, v.pad, c.down), Pressed(sample, v.pad, c.up);
      var sel := Navigate(v.selectedItem, n, down, up);
      var u := Tick(v).(oldPad := v.pad, pad := sample, selectedItem := sel);
      Choose(u, Pressed(sample, v.pad, c.select), r)
  }

  /**
   * Holding the buttons of the last sample fires nothing: only the
   * countdown runs and the pad history shifts.
   */
  lemma HeldSampleFiresNothing(v: MenuView, c: Controls, r: SceneResults)
    requires ValidView(v) && v.isActive
    ensures Defined(v, v.pad, c)
    ensures Step(v, v.pad, c, r) == (Tick(v).(oldPad := v.pad), [])
  {
  }

  /** Pressing Down and Up in the same sample leaves the selection where it was. */
  lemma DownAndUpCancel(v: MenuView, sample: bv32, c: Controls, r: SceneResults)
    requires ValidView(v) && v.isActive && v.currentMenu != MenuNone
    requires Pressed(sample, v.pad, c.down) && Pressed(sample, v.pad, c.up) && !Pressed(sample, v.pad, c.select)
    ensures Step(v, sample, c, r) == (Tick(v).(oldPad := v.pad, pad := sample), [])
  {
    NavigationWraps(v.selectedItem, |Items(v.currentMenu)|);
  }

  /** Selecting "Keybindings" (a NULL callback) changes nothing but the countdown and pad history. */
  lemma KeybindingsIsNoop(v: MenuView, sample: bv32, c: Controls, r: SceneResults)
    requires ValidView(v) && v.isActive && v.currentMenu == MenuOptions && v.selectedItem == 0
    requires !Pressed(sample, v.pad, c.down) && !Pressed(sample, v.pad, c.up) && Pressed(sample, v.pad, c.select)
    ensures Step(v, sample, c, r) == (Tick(v).(oldPad := v.pad, pad := sample), [])
  {
  }

  /** A Select press runs the highlighted item's callback on the updated snapshot. */
  lemma SelectRunsHighlighted(v: MenuView, sample: bv32, c: Controls, r: SceneResults)
    requires ValidView(v) && v.isActive && v.currentMenu == MenuMain
    requires !Pressed(sample, v.pad, c.down) && !Pressed(sample, v.pad, c.up) && Pressed(sample, v.pad, c.select)
    ensures Step(v, sample, c, r) ==
              Act(Tick(v).(oldPad := v.pad, pad := sample), MAIN_MENU_ITEMS[v.selectedItem].action.value, r)
  {
  }

  /** The held/released level of `button` across a run of samples. */
  function Levels(samples: seq<bv32>, button: bv32): (levels: seq<bool>)
    ensures |levels| == |samples|
    ensures forall i :: 0 <= i < |samples| ==> levels[i] == Down(samples[i], button)
  {
    seq(|samples|, i requires 0 <= i < |samples| => Down(samples[i], button))
  }

  /** The presses in a run of levels: each step from released to held, after level `before`. */
  function Rises(levels: seq<bool>, before: bool): nat {
    if levels == [] then 0
    else (if levels[0] && !before then 1 else 0) + Rises(levels[1..], levels[0])
  }

  /** Each counted rise is a Pressed test between consecutive samples. */
  lemma PressedIsRise(now: bv32, before: bv32, button: bv32)
    ensures Pressed(now, before, button) <==> Down(now, button) && !Down(before, button)
  {
  }

  /** A level held through a whole run rises once if it started released, else never. */
  lemma {:induction false} HeldRisesOnce(levels: seq<bool>, before: bool)
    requires |levels| > 0
    requires forall i :: 0 <= i < |levels| ==> levels[i]
    ensures Rises(levels, before) == if before then 0 else 1
  {
    var rest := levels[1..];
    if |rest| > 0 {
      assert forall i :: 0 <= i < |rest| ==> rest[i] == levels[i + 1];
      HeldRisesOnce(rest, levels[0]);
    }
    assert Rises(rest, levels[0]) == 0;
  }

  /**
   * Holding a button through any run of successive samples is a single
   * press: one if it was up before the run, none if it was already down.
   */
  lemma HeldButtonPressedOnce(samples: seq<bv32>, before: bv32, button: bv32)
    requires |samples| > 0
    requires forall i :: 0 <= i < |samples| ==> Down(samples[i], button)
    ensures Rises(Levels(samples, button), Down(before, button)) == if Down(before, button) then 0 else 1
  {
    HeldRisesOnce(Levels(samples, button), Down(before, button));
  }

  // ---------------------------------------------------------------------------
  // Runs of updates
  // ---------------------------------------------------------------------------

  /**
   * The menu is only ever active on a menu with items: the frame loop
   * opens MAIN, and the callbacks only switch to MAIN or OPTIONS.  While
   * this holds, Menu_Update never divides by a zero item count.
   */
  ghost predicate Shown(v: MenuView) {
    v.isActive ==> v.currentMenu != MenuNone
  }

  /**
   * A run of Menu_Update calls on a shown menu, one per sample: the final
   * snapshot, and the number of updates in which `button` was pressed while
   * the menu was active.
   */
  ghost function Run(v: MenuView, samples: seq<bv32>, c: Controls, r: SceneResults, button: bv32): (res: (MenuView, nat))
    requires ValidView(v) && Shown(v)
    ensures ValidView(res.0) && Shown(res.0)
    ensures res.1 <= |samples|
    decreases |samples|
  {
    if samples == [] then (v, 0)
    else
      var u := Step(v, samples[0], c, r).0;
      var rest := Run(u, samples[1..], c, r, button);
      (rest.0, rest.1 + (if v.isActive && Pressed(samples[0], v.pad, button) then 1 else 0))
  }

  /** Once an active update has seen the button down, holding it fires nothing more. */
  lemma {:induction false} HeldAfterActiveFiresNever(v: MenuView, samples: seq<bv32>, c: Controls, r: SceneResults, button: bv32)
    requires ValidView(v) && Shown(v)
    requires v.isActive ==> Down(v.pad, button)
    requires forall i :: 0 <= i < |samples| ==> Down(samples[i], button)
    ensures Run(v, samples, c, r, button).1 == 0
    decreases |samples|
  {
    if samples != [] {
      var u := Step(v, samples[0], c, r).0;
      assert u.isActive ==> v.isActive && u.pad == samples[0];
      var rest := samples[1..];
      assert forall i :: 0 <= i < |rest| ==> rest[i] == samples[i + 1];
      HeldAfterActiveFiresNever(u, rest, c, r, button);
    }
  }

  /**
   * Holding a button through a run of Menu_Update calls fires it at most
   * once: on the first update, when the menu is active and the button was
   * released in the sample before, and never afterwards.
   */
  lemma HeldButtonFiresOnce(v: MenuView, samples: seq<bv32>, c: Controls, r: SceneResults, button: bv32)
    requires ValidView(v) && Shown(v) && |samples| > 0
    requires forall i :: 0 <= i < |samples| ==> Down(samples[i], button)
    ensures Run(v, samples, c, r, button).1 == if v.isActive && !Down(v.pad, button) then 1 else 0
  {
    var u := Step(v, samples[0], c, r).0;
    assert u.isActive ==> v.isActive && u.pad == samples[0];
    var rest := samples[1..];
    assert forall i :: 0 <= i < |rest| ==> rest[i] == samples[i + 1];
    HeldAfterActiveFiresNever(u, rest, c, r, button);
  }

  /** The scene calls that hand the world to the scene layer to rewrite: a reset or a load. */
  predicate TouchesWorld(calls: seq<SceneCall>) {
    ResetToDefault in calls || LoadScene in calls
  }

  /**
   * An update hands the world over exactly when Select is pressed on MAIN
   * with Start Game highlighted (and the menu registered) or with Load
   * Game highlighted and saves present.
   */
  lemma WorldTouchedOnlyByStartOrLoad(v: MenuView, sample: bv32, c: Controls, r: SceneResults)
    requires ValidView(v) && Defined(v, sample, c)
    ensures TouchesWorld(Step(v, sample, c, r).1) <==>
              && v.isActive && v.currentMenu == MenuMain && Pressed(sample, v.pad, c.select)
              && var sel := Navigate(v.selectedItem, 4, Pressed(sample, v.pad, c.down), Pressed(sample, v.pad, c.up));
                 (sel == 0 && v.registered) || (sel == 2 && r.populatedSaves > 0)
  {
  }

  class Menu {
    var currentMenu: MenuState
    var selectedItem: int
    var isActive: bool
    var registered: bool
    var statusMessage: string
    var statusFrames: int
    var pad: bv32
    var oldPad: bv32

    function View(): MenuView
      reads this
    {
      MenuView(currentMenu, selectedItem, isActive, registered, statusMessage, statusFrames, pad, oldPad)
    }

    ghost predicate Valid()
      reads this
    {
      ValidView(View())
    }

    /** The zero-initialised globals and statics. */
    constructor ()
      ensures View() == INITIAL_VIEW && Valid()
    {
      currentMenu := MenuNone;
      selectedItem := 0;
      isActive := false;
      registered := false;
      statusMessage := "";
      statusFrames := 0;
      pad := 0;
      oldPad := 0;
    }

    /** Menu_Init: MENU_NONE, item 0, hidden, and registered as the current menu. */
    method Init()
      requires Valid()
      modifies this
      ensures Valid()
      ensures View() == old(View()).(currentMenu := MenuNone, selectedItem := 0, isActive := false, registered := true)
    {
      currentMenu := MenuNone;
      selectedItem := 0;
      isActive := false;
      registered := true;
    }

    /** Menu_Show: the given menu, at item 0, active. */
    method Show(state: MenuState)
      requires Valid()
      modifies this
      ensures Valid()
      ensures View() == old(View()).(currentMenu := state, selectedItem := 0, isActive := true)
    {
      currentMenu := state;
      selectedItem := 0;
      isActive := true;
    }

    /** Menu_Hide: only the active flag changes. */
    method Hide()
      requires Valid()
      modifies this
      ensures Valid()
      ensures View() == old(View()).(isActive := false)
    {
      isActive := false;
    }

    /** Menu_IsActive: whether the menu is shown. */
    function IsActive(): (active: bool)
      reads this
      ensures active <==> View().isActive
    {
      isActive
    }

    /** Menu_ShowStatus. */
    method ShowStatus(message: Option<string>, frames: int)
      requires Valid()
      modifies this
      ensures Valid()
      ensures View() == ShowStatusSpec(old(View()), message, frames)
    {
      if message.None? {
        return;
      }
      var m := message.value;
      statusMessage := if |m| < STATUS_CAPACITY then m else m[..STATUS_CAPACITY - 1];
      statusFrames := frames;
    }

    /** Menu_Action_Start. */
    method ActionStart() returns (calls: seq<SceneCall>)
      modifies this
      ensures (View(), calls) == Act(old(View()), StartGame, SceneResults(0, false))
    {
      calls := [];
      if registered {
        calls := [ResetToDefault];
        isActive := false;
      }
    }

    /** Menu_Action_Options. */
    method ActionOptions()
      modifies this
      ensures (View(), []) == Act(old(View()), OpenOptions, SceneResults(0, false))
    {
      if registered {
        currentMenu := MenuOptions;
        selectedItem := 0;
      }
    }

    /** Menu_Action_Back. */
    method ActionBack()
      modifies this
      ensures (View(), []) == Act(old(View()), GoBack, SceneResults(0, false))
    {
      if registered {
        currentMenu := MenuMain;
        selectedItem := 0;
      }
    }

    /** Menu_Action_Load, given the save count and the load outcome. */
    method ActionLoad(r: SceneResults) returns (calls: seq<SceneCall>)
      requires Valid()
      modifies this
      ensures (View(), calls) == Act(old(View()), LoadGame, r)
    {
      calls := [GetPopulatedSaveCount];
      if r.populatedSaves <= 0 {
        ShowStatus(Some("No saves found!"), STATUS_FRAMES);
        return;
      }
      calls := [GetPopulatedSaveCount, LoadScene];
      if !r.loadSucceeds {
        ShowStatus(Some("Load failed"), STATUS_FRAMES);
      }
    }

    /** The callback of an item, called through its function pointer. */
    method RunAction(a: ItemAction, r: SceneResults) returns (calls: seq<SceneCall>)
      requires Valid()
      modifies this
      ensures (View(), calls) == Act(old(View()), a, r)
    {
      match a
      case StartGame =>
        calls := ActionStart();
      case SaveGame =>
        // Menu_Action_Save
        calls := [SaveScene];
      case LoadGame =>
        calls := ActionLoad(r);
      case OpenOptions =>
        ActionOptions();
        calls := [];
      case GoBack =>
        ActionBack();
        calls := [];
    }

    /** The status countdown at the top of an active Menu_Update. */
    method CountDown()
      requires Valid()
      modifies this`statusFrames, this`statusMessage
      ensures Valid() && View() == Tick(old(View()))
    {
      if statusFrames > 0 {
        statusFrames := statusFrames - 1;
        if statusFrames == 0 {
          statusMessage := "";
        }
      }
    }

    /** A Down press, then an Up press, with wraparound over the current items. */
    method MoveSelection(down: bool, up: bool)
      requires Valid() && (currentMenu == MenuNone ==> !down && !up)
      modifies this`selectedItem
      ensures Valid()
      ensures View() == old(View()).(selectedItem := Navigate(old(selectedItem), |Items(currentMenu)|, down, up))
    {
      var itemCount := |Items(currentMenu)|;
      if down {
        selectedItem := NextItem(selectedItem, itemCount);
      }
      if up {
        selectedItem := PrevItem(selectedItem, itemCount);
      }
    }

    /** The selection test of Menu_Update: run the highlighted item's callback, if any. */
    method SelectItem(select: bool, r: SceneResults) returns (calls: seq<SceneCall>)
      requires Valid()
      modifies this
      ensures Valid()
      ensures (View(), calls) == Choose(old(View()), select, r)
    {
      var items := Items(currentMenu);
      calls := [];
      if select {
        if |items| > 0 && items[selectedItem].action.Some? {
          calls := RunAction(items[selectedItem].action.value, r);
        }
      }
    }

    /**
     * Menu_Update, with `sample` the controller state it reads and `r`
     * what the scene layer answers to an item action.
     */
    method Update(sample: bv32, keys: KeyBindingSystem, r: SceneResults) returns (calls: seq<SceneCall>)
      requires Valid() && keys.Valid() && Defined(View(), sample, MenuControls(keys))
      modifies this
      ensures Valid()
      ensures (View(), calls) == Step(old(View()), sample, MenuControls(keys), r)
    {
      if !isActive {
        return [];
      }
      CountDown();
      oldPad := pad;
      pad := sample;

      var downButton := keys.GetBinding(ACTION_MENU_DOWN);
      var upButton := keys.GetBinding(ACTION_MENU_UP);
      var selectButton := keys.GetBinding(ACTION_MENU_SELECT);

      MoveSelection(Pressed(pad, oldPad, downButton), Pressed(pad, oldPad, upButton));

      calls := SelectItem(Pressed(pad, oldPad, selectButton), r);
    }
  }
}
