/**
 * The frame loop of src/main.c: the START-edge menu toggle, the choice
 * between the menu update and the camera update, the camera update over
 * the world, and the camera lookup that gates rendering.
 *
 * Camera_UpdateControls (src/camera.c) is not part of this model: it is
 * the parameter `step`, giving slot `i`'s new camera from its old one.
 */
module Game {
  import opened Wrappers
  import opened Ecs
  import opened Keybinds
  import opened Menu
  import Scene

  /** The effect of Camera_UpdateControls on the camera of a slot. */
  type CameraStep = (int, CameraComponent) -> CameraComponent

  // ---------------------------------------------------------------------------
  // UpdateCamera
  // ---------------------------------------------------------------------------

  /** A slot the camera update visits: active, with a Camera and an Input. */
  predicate Controlled(e: Entity) {
    e.active && e.camera.Some? && e.input.Some?
  }

  /** Slot `i` after the camera update: only the camera of a controlled slot changes. */
  function CameraUpdated(i: int, e: Entity, step: CameraStep): Entity {
    if Controlled(e) then e.(camera := Some(step(i, e.camera.value))) else e
  }

  /**
   * UpdateCamera: every active slot owning a Camera and an Input gets its
   * camera updated, in place; every other slot is left as it was.
   */
  method UpdateCamera(w: World, step: CameraStep)
    requires w.Valid()
    modifies w.entities
    ensures w.Valid()
    ensures forall i :: 0 <= i < MAX_ENTITIES ==> w.entities[i] == CameraUpdated(i, old(w.entities[i]), step)
  {
    for i := 0 to MAX_ENTITIES
      invariant w.Valid()
      invariant forall j :: 0 <= j < i ==> w.entities[j] == CameraUpdated(j, old(w.entities[j]), step)
      invariant forall j :: i <= j < MAX_ENTITIES ==> w.entities[j] == old(w.entities[j])
    {
      if !w.entities[i].active {
        continue;
      }
      GetAgreesWithHas(w, i, COMPONENT_CAMERA);
      GetAgreesWithHas(w, i, COMPONENT_INPUT);
      if w.HasComponent(i, COMPONENT_CAMERA) && w.HasComponent(i, COMPONENT_INPUT) {
        var camera := w.GetComponent(i, COMPONENT_CAMERA);
        if camera.Some? {
          w.Store(i, CameraC(step(i, camera.value.camera)));
        }
      }
    }
  }

  // ---------------------------------------------------------------------------
  // RenderScene
  // ---------------------------------------------------------------------------

  /** A slot RenderScene can take its camera from. */
  predicate HasCamera(e: Entity) {
    e.active && e.camera.Some?
  }

  /** The lowest-index active slot owning a Camera, or -1 when there is none. */
  function FirstCamera(s: seq<Entity>): (r: int)
    ensures -1 <= r < |s|
    ensures r == -1 <==> forall j :: 0 <= j < |s| ==> !HasCamera(s[j])
    ensures r >= 0 ==> HasCamera(s[r]) && forall j :: 0 <= j < r ==> !HasCamera(s[j])
  {
    if s == [] then -1
    else if HasCamera(s[0]) then 0
    else
      var r := FirstCamera(s[1..]);
      if r == -1 then -1 else r + 1
  }

  /** A rendered 3D pass: the camera it is drawn with and the draw commands. */
  datatype View3D = View3D(camera: Camera3D, commands: seq<DrawCommand>)

  /**
   * RenderScene: with the camera of the lowest-index active slot owning a
   * Camera, every drawable entity is rendered; with no such slot nothing
   * is drawn.
   */
  method RenderScene(w: World) returns (view: Option<View3D>)
    requires w.Valid()
    ensures var k := FirstCamera(w.entities[..]);
            && (k == -1 ==> view.None?)
            && (k >= 0 ==> view == Some(View3D(w.entities[k].camera.value.camera, RenderSpec(w.entities[..]))))
  {
    var activeCamera: Option<CameraComponent> := None;
    for i := 0 to MAX_ENTITIES
      invariant forall j :: 0 <= j < i ==> !HasCamera(w.entities[j])
      invariant activeCamera.None?
    {
      if !w.entities[i].active {
        continue;
      }
      GetAgreesWithHas(w, i, COMPONENT_CAMERA);
      if w.HasComponent(i, COMPONENT_CAMERA) {
        var c := w.GetComponent(i, COMPONENT_CAMERA);
        activeCamera := Some(c.value.camera);
        assert FirstCamera(w.entities[..]) == i;
        break;
      }
    }
    if activeCamera.Some? {
      var commands := w.SystemRender();
      view := Some(View3D(activeCamera.value.camera, commands));
    } else {
      view := None;
    }
  }

  // ---------------------------------------------------------------------------
  // The frame step
  // ---------------------------------------------------------------------------

  /**
   * The START toggle: without a press nothing changes; a press hides an
   * active menu and opens an inactive one at MAIN, item 0.  The status and
   * the pad history are never touched.
   */
  function Toggle(v: MenuView, pressed: bool): (t: MenuView)
    ensures ValidView(v) ==> ValidView(t)
    ensures Shown(v) ==> Shown(t)
    ensures !pressed ==> t == v
    ensures pressed ==> Shown(t) && t.isActive == !v.isActive
    ensures pressed && v.isActive ==> t == v.(isActive := false)
    ensures pressed && !v.isActive ==> t.currentMenu == MenuMain && t.selectedItem == 0 && t.isActive
    ensures t.registered == v.registered && t.statusMessage == v.statusMessage && t.statusFrames == v.statusFrames
    ensures t.pad == v.pad && t.oldPad == v.oldPad
  {
    if !pressed then v
    else if v.isActive then v.(isActive := false)
    else v.(currentMenu := MenuMain, selectedItem := 0, isActive := true)
  }

  /**
   * While the menu is shown, Menu_Update is defined (it never divides by
   * a zero item count), and it keeps the menu shown.
   */
  lemma StepKeepsShown(v: MenuView, sample: bv32, c: Controls, r: SceneResults)
    requires ValidView(v) && Shown(v)
    ensures Defined(v, sample, c)
    ensures Shown(Step(v, sample, c, r).0)
  {
  }

  /**
   * What one frame reads: the controller for the toggle, the controller for
   * the menu, the scene layer's answers, the world as the scene layer leaves
   * it after a reset or a load, and the camera update.
   */
  datatype FrameInput = FrameInput(sample: bv32, menuSample: bv32, results: SceneResults,
                                   sceneWorld: seq<Entity>, step: CameraStep)

  /** The scene layer hands back a world of 256 well-formed slots. */
  ghost predicate SceneWorldOk(input: FrameInput) {
    |input.sceneWorld| == MAX_ENTITIES && AllWellFormed(input.sceneWorld)
  }

  /**
   * The update half of one frame (main.c's loop body up to rendering),
   * with `prevPad` the previous frame's sample.  The toggle fires on a
   * START edge; then exactly one of Menu_Update (menu active) and
   * UpdateCamera (menu hidden) runs.  A menu update that resets or loads
   * the scene leaves the world as the scene layer hands it back; any other
   * menu update leaves the world alone.
   */
  method RunFrame(w: World, menu: Menu, keys: KeyBindingSystem, prevPad: bv32, input: FrameInput)
    returns (calls: seq<SceneCall>)
    requires w.Valid() && menu.Valid() && keys.Valid() && Shown(menu.View()) && SceneWorldOk(input)
    modifies w`entityCount, w.entities, menu
    ensures w.Valid() && menu.Valid() && Shown(menu.View())
    ensures var v := Toggle(old(menu.View()), Pressed(input.sample, prevPad, keys.GetBinding(ACTION_TOGGLE_MENU)));
            if v.isActive then
              && (menu.View(), calls) == Step(v, input.menuSample, MenuControls(keys), input.results)
              && (TouchesWorld(calls) ==> w.entities[..] == input.sceneWorld)
              && (!TouchesWorld(calls) ==> w.entities[..] == old(w.entities[..]))
            else
              && menu.View() == v && calls == []
              && forall i :: 0 <= i < MAX_ENTITIES ==> w.entities[i] == CameraUpdated(i, old(w.entities[i]), input.step)
  {
    ToggleMenu(menu, keys, prevPad, input.sample);
    if menu.IsActive() {
      calls := MenuFrame(w, menu, keys, input);
    } else {
      UpdateCamera(w, input.step);
      calls := [];
    }
  }

  /**
   * The menu half of a frame: Menu_Update on the frame's menu sample, after
   * which a reset or a load leaves the world as the scene layer hands it back.
   */
  method MenuFrame(w: World, menu: Menu, keys: KeyBindingSystem, input: FrameInput)
    returns (calls: seq<SceneCall>)
    requires w.Valid() && menu.Valid() && keys.Valid() && Shown(menu.View()) && SceneWorldOk(input)
    modifies w`entityCount, w.entities, menu
    ensures w.Valid() && menu.Valid() && Shown(menu.View())
    ensures (menu.View(), calls) == Step(old(menu.View()), input.menuSample, MenuControls(keys), input.results)
    ensures TouchesWorld(calls) ==> w.entities[..] == input.sceneWorld
    ensures !TouchesWorld(calls) ==> w.entities[..] == old(w.entities[..])
  {
    StepKeepsShown(menu.View(), input.menuSample, MenuControls(keys), input.results);
    calls := menu.Update(input.menuSample, keys, input.results);
    if ResetToDefault in calls || LoadScene in calls {
      // Scene_ResetToDefault or Scene_Load rewrote the world
      w.Assign(input.sceneWorld);
    }
  }

  /** The toggle section of the frame loop: a START edge hides or shows the menu. */
  method ToggleMenu(menu: Menu, keys: KeyBindingSystem, prevPad: bv32, sample: bv32)
    requires menu.Valid() && keys.Valid()
    modifies menu
    ensures menu.Valid()
    ensures menu.View() == Toggle(old(menu.View()), Pressed(sample, prevPad, keys.GetBinding(ACTION_TOGGLE_MENU)))
  {
    var startButton := keys.GetBinding(ACTION_TOGGLE_MENU);
    if Pressed(sample, prevPad, startButton) {
      if menu.IsActive() {
        menu.Hide();
      } else {
        menu.Show(MenuMain);
      }
    }
  }

  /**
   * main from Keybinds_Init to ECS_Cleanup: set up the key table, the
   * menu and the test scene, run the frames with each frame's sample
   * becoming the next frame's previous sample, and clean the world up.
   */
  method RunGame(w: World, menu: Menu, keys: KeyBindingSystem, alloc: Scene.Allocations, frames: seq<FrameInput>)
    returns (calls: seq<SceneCall>)
    requires w.entities.Length == MAX_ENTITIES && menu.Valid() && keys.Valid()
    requires forall f :: 0 <= f < |frames| ==> SceneWorldOk(frames[f])
    modifies w`entityCount, w.entities, menu, keys.bindings
    ensures w.Valid() && w.entityCount == 0
    ensures forall i :: 0 <= i < MAX_ENTITIES ==> w.entities[i] == VACANT
    ensures menu.Valid() && menu.registered && Shown(menu.View())
    ensures forall a :: 0 <= a < ACTION_COUNT ==> keys.bindings[a] == KeyBinding(DefaultButton(a), Some(ActionName(a)))
  {
    keys.Init();
    menu.Init();
    Scene.SceneInit(w);
    Scene.CreateTestScene(w, alloc);

    var pad: bv32 := 0;
    calls := [];
    for f := 0 to |frames|
      invariant w.Valid() && menu.Valid() && menu.registered && Shown(menu.View())
      invariant forall a :: 0 <= a < ACTION_COUNT ==> keys.bindings[a] == KeyBinding(DefaultButton(a), Some(ActionName(a)))
      invariant f > 0 ==> pad == frames[f - 1].sample
    {
      var frameCalls := RunFrame(w, menu, keys, pad, frames[f]);
      calls := calls + frameCalls;
      pad := frames[f].sample;
    }

    w.Cleanup();
  }
}
