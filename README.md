# PSP-ECS core, modelled in Dafny

A model of the deterministic heart of PSP-ECS, a small raylib demo for the PSP. It has six modules:

- `Ecs` (`ecs.dfy`) models the entity/component store of `src/ecs.c`.
  - The world is a class with a fixed array of 256 entity slots and a live-entity count.
  - Each slot is an `Entity` value: an `active` flag, a `componentMask` bit set (`bv32`) and one `Option` per component kind: Transform = 0, Renderable = 1, Camera = 2, Input = 3.
  - `Option` replaces the C `void*` component pointers and their `malloc`/`free`.
  - Two invariants are kept by every operation. The first: mask bit `k` is set exactly when component `k` is present, and an inactive slot owns nothing. The second: the count equals the number of active slots.
  - The render system becomes the list of draw commands it issues, specified by a function of the slots.
- `Scene` (`scene.dfy`) models the default scene of `src/scene.c`. It is a fixed sequence of world operations, and its outcome on an empty world is stated exactly: slots 0, 1 and 2, their masks and their values.
- `Keybinds` (`keybinds.dfy`) models the 11-entry action-to-button table of `src/keybinds.c`, with its bounds-checked lookups and its bit-mask "down" test.
- `Menu` (`menu.dfy`) models the menu state machine of `src/menu.c`.
  - One `Menu` object holds three kinds of state: the `MenuSystem` fields, the registered current-menu pointer, and the file's static state. The static state is the status message, its countdown, and the two controller samples remembered by `Menu_Update`.
  - `Menu_Update` is proved equal to the pure function `Step` on a snapshot `MenuView`, and the menu's properties are proved about `Step`.
- `Game` (`game.dfy`) models the frame loop of `src/main.c`: the START-edge toggle, the choice between the menu update and the camera update, the camera update itself, and the camera lookup that gates rendering. The whole program runs from initialisation to `ECS_Cleanup` over a finite list of frames.
- `Wrappers` (`wrappers.dfy`) holds the `Option` type.

Controller samples, allocation outcomes and the answers of the scene persistence layer come in as parameters. That layer has no definition in the repository. The menu returns the list of scene calls it made.

## Model

| member | source | states |
|---|---|---|
| Ecs.DefaultComponent | src/ecs.c:79-128 | the instance a fresh add creates has the requested kind; its values are the `DEFAULT_*` constants: Transform at the origin with scale 1, a white unit Cube, the (10,10,10) perspective camera with speeds 5 and 2, an active Input |
| Ecs.HasBitIsShiftTest | src/ecs.c:150 | the per-kind bit test used by the model is the C test `mask & (1 << type) != 0` |
| Ecs.MaskAlgebra | src/ecs.c:131-132 | setting or clearing one kind's mask bit changes that kind's flag and no other, and testing the bit reads that flag |
| Ecs.MaskBitMatchesSlot | include/ecs.h:58-62 | in a well-formed slot, mask bit `k` is set exactly when component `k` is present |
| Ecs.Install | src/scene.c:28-38 | a write through a component pointer replaces that kind's component; the other kinds, the mask and the active flag are untouched |
| Ecs.Release | src/ecs.c:55-60 | freeing one pointer empties exactly that kind |
| Ecs.Attach | src/ecs.c:131-132 | installing a component into an empty kind and setting its bit keeps the slot well formed, makes the kind present and leaves the other kinds alone |
| Ecs.AddedSlot | src/ecs.c:72-132 | after an add on a live entity, the kind is present exactly when it already was or the allocation succeeded; the other kinds are unchanged and the slot stays well formed |
| Ecs.Detach | src/ecs.c:158-162 | removing a kind empties it, keeps the slot well formed and leaves the other kinds alone |
| Ecs.ActiveCountUpdate | src/ecs.c:62-64 | replacing one slot changes the active count by the change in that slot's flag |
| Ecs.ReplaceSlot | src/ecs.c:36-43 | a well-formed replacement keeps every slot well formed and moves the count by the change in the flag |
| Ecs.FullCountMeansAllActive | src/ecs.c:32-34 | a count of 256 means every slot is active, so the early -1 agrees with the search |
| Ecs.NoActiveMeansZeroCount | src/ecs.c:26-29 | a world with no active slot has count 0 |
| Ecs.FirstVacant | src/ecs.c:36-46 | first fit: the lowest inactive index, or -1 exactly when every slot is active |
| Ecs.FirstVacantFailsIffFull | src/ecs.c:32-46 | first fit fails exactly when the count says every slot is taken |
| Ecs.World.constructor | include/ecs.h:65-68 | zeroed static storage is a valid, empty world |
| Ecs.World.Init | src/ecs.c:26-29 | every slot becomes vacant and the count 0 |
| Ecs.World.CreateEntity | src/ecs.c:31-47 | returns the first-fit index; on -1 nothing changes; otherwise only that slot changes, to active with no components, and the count grows by one |
| Ecs.World.DestroyEntity | src/ecs.c:49-65 | a no-op for an invalid or inactive id; otherwise only that slot changes, to vacant, and the count drops by one; afterwards no kind is found or reported for the id |
| Ecs.World.AddComponent | src/ecs.c:67-135 | absent and no change for a dead id; the existing instance and no change when present (idempotent); absent and no change when allocation fails; otherwise the kind's default, installed with its bit set, in that slot only |
| Ecs.World.GetComponent | src/ecs.c:137-143 | absent for an invalid or inactive id; otherwise the slot's component of that kind |
| Ecs.World.HasComponent | src/ecs.c:145-151 | true only for a live id |
| Ecs.GetAgreesWithHas | src/ecs.c:137-151 | on a valid world, Get finds a component exactly when Has's mask test says it is there |
| Ecs.NotOwnedMeansAbsent | src/ecs.c:137-151 | a kind the entity does not own is neither found nor reported |
| Ecs.World.RemoveComponent | src/ecs.c:153-163 | when the live entity owns the kind, only that slot changes, by detaching the kind; otherwise nothing changes; afterwards the kind is neither found nor reported |
| Ecs.World.Store | src/scene.c:13-21 | a write through a pointer handed out by the world changes only that entity's component of that kind and keeps the world valid |
| Ecs.World.Assign | src/menu.c:51-80 | the world handed back by a scene reset or load: exactly the given well-formed slots, with the count matching them |
| Ecs.World.Cleanup | src/ecs.c:207-214 | every slot ends vacant and the count 0 |
| Ecs.World.SystemRender | src/ecs.c:165-205 | the commands issued are the render specification of the slots in ascending order |
| Ecs.RenderAppend | src/ecs.c:167 | rendering two runs of slots renders the first run, then the second |
| Ecs.RenderSlotOrder | src/ecs.c:167-204 | slot i's commands come after those of every lower slot and before those of every higher slot |
| Ecs.RenderSkipsUndrawable | src/ecs.c:168-171 | slots that are inactive, or lack a Transform or a Renderable, draw nothing |
| Ecs.Primitives | src/ecs.c:177-201 | two commands for a Cube or a Plane, the shape at the entity's position and then its outline; one grid for a Grid; nothing for a Sphere |
| Ecs.RenderSpec | src/ecs.c:167-204 | the slots issue at most two commands each |
| Ecs.EntityDrawByKind | src/ecs.c:177-201 | per kind: Cube is a filled cube and a black wire cube of the renderable's size; Grid is `DrawGrid(10, 5.0)`; Plane is a plane and a (80,80,80,255) wireframe of size (x, z); Sphere draws nothing |
| Scene.SceneInit | src/scene.c:3-5 | an empty world: all slots vacant, count 0 |
| Scene.AddedAndWritten | src/scene.c:24-38 | a fresh entity given two components and written where each add succeeded owns exactly the written components and is well formed |
| Scene.SpawnCamera | src/scene.c:9-21 | the camera block takes the first-fit slot and leaves it owning the scene camera and an Input, each present when its allocation succeeded; a failed create changes nothing |
| Scene.FillCamera | src/scene.c:10-21 | the adds and the guarded camera write turn a fresh slot into the camera entity, without changing the count |
| Scene.SpawnDrawable | src/scene.c:24-38 | a cube or grid block takes the first-fit slot and leaves it owning the given Transform and Renderable, each present when its allocation succeeded; a failed create changes nothing |
| Scene.FillDrawable | src/scene.c:25-38 | the adds and the two guarded writes turn a fresh slot into the drawable entity, without changing the count |
| Scene.CreateTestScene | src/scene.c:7-56 | adds at most three entities; on an empty world the count becomes 3 and slots 0, 1 and 2 are the camera, the cube and the grid |
| Scene.EmptySceneLayout | src/scene.c:9-55 | on an empty world the three creates return 0, 1 and 2 |
| Scene.DefaultSceneMasks | src/scene.c:10-43 | with all allocations succeeding, the camera's mask is exactly {Camera, Input}, and the cube's and the grid's are exactly {Transform, Renderable} |
| Scene.SceneCameraIsDefault | src/scene.c:14-20 | the scene writes the same camera values a fresh add installs |
| Keybinds.ActionName | src/keybinds.c:77-80 | the action's table name, and "" exactly for an out-of-range action |
| Keybinds.ActionNamesDistinct | src/keybinds.c:5-17 | different actions have different names |
| Keybinds.DefaultMenuButtonsDistinct | src/keybinds.c:39-52 | the default menu up, down, select and toggle buttons are distinct, so pressing one does not fire another |
| Keybinds.KeyBindingSystem.constructor | include/keybinds.h:29-31 | the zero-initialised table: every entry unbound with no name |
| Keybinds.KeyBindingSystem.Init | src/keybinds.c:19-53 | every action gets its default button and its name from the name table |
| Keybinds.KeyBindingSystem.SetBinding | src/keybinds.c:55-58 | a valid action reads back the new button and keeps its name; every other action reads as before; an invalid action changes nothing |
| Keybinds.KeyBindingSystem.GetBinding | src/keybinds.c:60-63 | 0 for an out-of-range action; otherwise the button stored for it |
| Keybinds.KeyBindingSystem.IsActionDown | src/keybinds.c:65-70 | false for an out-of-range action; otherwise true exactly when the sample shares a bit with the action's button |
| Keybinds.KeyBindingSystem.IsActionHeld | src/keybinds.c:72-75 | false for an out-of-range action; otherwise true exactly when the sample shares a bit with the action's button |
| Keybinds.DownIffBindingMet | src/keybinds.c:65-75 | an action is down exactly when the sample meets its binding; an action bound to 0 is never down; held is the same as down |
| Keybinds.OutOfRangeIsSoft | src/keybinds.c:55-80 | an out-of-range action has binding 0, is never down or held, and has name "" |
| Menu.Items | src/menu.c:102-111 | MAIN has 4 items, OPTIONS 2, and NONE none |
| Menu.NavigationWraps | src/menu.c:118-124 | Down and Up keep the selection in range, wrap at both ends, and each undoes the other |
| Menu.Navigate | src/menu.c:118-124 | the selection after a Down and then an Up stays in range, and stays put when neither or both are pressed |
| Menu.ShowStatusSpec | src/menu.c:35-40 | a NULL message changes nothing; otherwise the stored message is a prefix of the given one, shorter than the 64-byte buffer, equal to it when it fits, and the frame count is stored |
| Menu.Tick | src/menu.c:88-93 | a countdown at 0 changes nothing; otherwise it drops by one, the message is cleared exactly when it reaches 0, and no other field changes |
| Menu.TickNIdle | src/menu.c:88-93 | a countdown at 0 never changes |
| Menu.StatusExpires | src/menu.c:88-93 | a status shown for n frames stays visible for exactly n active updates, and the counter stops at 0 |
| Menu.Act | src/menu.c:49-83 | every callback keeps the menu invariant, the pad history and the registration; only Load touches the status |
| Menu.ActionOutcomes | src/menu.c:49-83 | Start resets the scene and hides the menu; Options and Back switch menus at item 0; Save only saves; Load loads only when there are saves, and reports no saves or a failed load for 180 frames |
| Menu.Choose | src/menu.c:127-131 | running the highlighted callback keeps the invariant, the pad history and the registration |
| Menu.Step | src/menu.c:85-132 | an inactive menu changes nothing; an active update keeps the invariant, shifts the sample into the pad history and counts the status down unless Load rewrote it |
| Menu.HeldSampleFiresNothing | src/menu.c:118-131 | repeating the previous sample fires no navigation or selection; only the countdown and the history move |
| Menu.DownAndUpCancel | src/menu.c:118-124 | pressing Down and Up together leaves the selection where it was |
| Menu.KeybindingsIsNoop | src/menu.c:24-27 | selecting "Keybindings", which has no callback, changes nothing but the countdown and the history |
| Menu.SelectRunsHighlighted | src/menu.c:127-131 | a Select press on MAIN runs the highlighted item's callback |
| Menu.Pressed | src/menu.c:118-127 | a press needs a non-zero button and a sample that differs from the previous one |
| Menu.PressedIsRise | src/menu.c:118 | a press is a released-to-held transition between consecutive samples |
| Menu.HeldRisesOnce | src/menu.c:127 | a level held through a run rises once if it started released, and never otherwise |
| Menu.HeldButtonPressedOnce | src/menu.c:118-131 | holding a button through any run of samples counts as a single press, or none if it was already held; this relates consecutive samples, and `Menu.HeldButtonFiresOnce` states the same through `Step` |
| Menu.Run | src/menu.c:85-132 | running `Step` over a list of samples keeps the menu invariant and the menu shown, and counts at most one firing per sample |
| Menu.HeldAfterActiveFiresNever | src/menu.c:118-131 | once the remembered sample already holds the button, holding it through any run of updates never fires it |
| Menu.HeldButtonFiresOnce | src/menu.c:118-131 | holding a button through a non-empty run of updates fires it exactly once when the menu is active and the button was released, and never otherwise |
| Menu.WorldTouchedOnlyByStartOrLoad | src/menu.c:49-83 | an update asks the scene layer to reset or load the world exactly when an active MAIN menu sees a Select press on Start while registered, or on Load while there are saves |
| Menu.Menu.constructor | src/menu.c:29-33 | the zero-initialised menu and static state |
| Menu.Menu.Init | src/menu.c:42-47 | state NONE, item 0, hidden, registered as the current menu; the static state is kept |
| Menu.Menu.IsActive | src/menu.c:194-196 | the menu's active flag |
| Menu.Menu.Show | src/menu.c:184-188 | the given state at item 0, active; nothing else changes |
| Menu.Menu.Hide | src/menu.c:190-192 | only the active flag is cleared |
| Menu.Menu.ShowStatus | src/menu.c:35-40 | the new state is the status specification applied to the old |
| Menu.Menu.ActionStart | src/menu.c:49-54 | the Start callback's specified effect and scene call |
| Menu.Menu.ActionOptions | src/menu.c:56-61 | the Options callback's specified effect |
| Menu.Menu.ActionBack | src/menu.c:63-68 | the Back callback's specified effect |
| Menu.Menu.ActionLoad | src/menu.c:74-83 | the Load callback's specified effect and scene calls |
| Menu.Menu.RunAction | src/menu.c:128-129 | calling an item's callback has the callback's specified effect |
| Menu.Menu.CountDown | src/menu.c:88-93 | the new state is one countdown tick of the old |
| Menu.Menu.MoveSelection | src/menu.c:118-124 | only the selection changes, to the navigated value |
| Menu.Menu.SelectItem | src/menu.c:127-131 | the new state and calls are the selection step of the old state |
| Menu.Menu.Update | src/menu.c:85-132 | the new state and scene calls are `Step` of the old state, the sample and the bound menu buttons |
| Game.UpdateCamera | src/main.c:42-56 | every active slot owning a Camera and an Input gets its camera updated, and every other slot is unchanged |
| Game.FirstCamera | src/main.c:61-68 | the lowest-index active slot owning a Camera, or -1 exactly when there is none |
| Game.RenderScene | src/main.c:58-78 | nothing is drawn without a camera; otherwise the whole render list is drawn with the first camera |
| Game.Toggle | src/main.c:113-120 | no press changes nothing; a press on an active menu only clears the active flag; a press on a hidden menu shows MAIN at item 0; the registration, status and pad history never change |
| Game.StepKeepsShown | src/main.c:115-124 | while the menu is shown at MAIN or OPTIONS, its update is defined and keeps it there |
| Game.ToggleMenu | src/main.c:113-120 | the menu after the toggle section is the toggle of the old menu on a START edge |
| Game.RunFrame | src/main.c:109-127 | after the toggle, exactly one of the menu update and the camera update (the menu is unchanged) runs; in a menu frame the world becomes the scene layer's world when the update reset or loaded the scene, and is unchanged otherwise |
| Game.MenuFrame | src/main.c:123-124 | the menu's new state and calls are `Step` of the old; the world is the scene layer's world after a reset or load call and unchanged otherwise |
| Game.RunGame | src/main.c:95-153 | after any run of frames and cleanup, the world is empty, the key table holds its defaults, and the menu is registered and never divides by zero |

## Left out

- Camera motion (`src/camera.c`) is not part of this model. `Camera_UpdateControls` is the parameter `step`, so its float math, its analog-stick test and its missing dead zone and pitch clamp are not modelled.
- `Scene_ResetToDefault`, `Scene_Save`, `Scene_Load` and `Scene_GetPopulatedSaveCount` have no definition in the repository. The menu records each call it makes, and the save count and load outcome come in as `SceneResults`.
  - The world that a reset or a load leaves behind is the frame input `sceneWorld`, required to be 256 well-formed slots. `Ecs.World.Assign` installs it.
  - Every `Scene_Load` call hands the world over, whether it reports success or failure, since the C code passes `&g_world` either way.
  - `Scene_Save` is treated as reading the world only.
- `Menu_Render`, the vertex calls inside `DrawPlaneWireframe`, and the HUD and drawing calls of the frame loop are left out. Rendering is the command list returned by `SystemRender`, and `RunGame` does not collect it per frame.
- Platform plumbing is left out: the exit callback and its thread, window and controller set-up, the frame time, and `sceCtrlReadBufferPositive`.
  - Each frame's two controller reads are parameters: `sample` for the toggle and `menuSample` for `Menu_Update`.
  - Only the `Buttons` word of a sample is modelled.
  - The `PSP_CTRL_*` values are those of the PSP SDK's `pspctrl.h`.
- The frame loop runs over a finite sequence of frames. `running` and `WindowShouldClose` are not modelled.
- `Keybinds_Save` and `Keybinds_Load` are empty stubs and are not modelled.
- `include/keybinds.h` declares `Keybinds_IsActionPressed`, but `src/keybinds.c` defines `Keybinds_IsActionDown`. The model follows the definition.
- `malloc` and `free` are replaced by `Option` fields. A failed allocation is the `allocOk` argument of `AddComponent` and the `Allocations` argument of the scene.
- `ECS_Init` on a populated world loses the component pointers without freeing them. The model has no heap, so that leak is not represented.
- Floats are `real`. They are only copied, never computed.
- Ecs.World.AddComponent, Ecs.World.GetComponent, Ecs.World.HasComponent and Ecs.World.RemoveComponent require `0 <= kind < 4`. The C code never range-checks the type before indexing, so out-of-range types are not modelled, and neither is the unreachable `default` branch of the add switch.
- Ecs.World.HasComponent: its own contract says only that a true answer names a live entity. Its agreement with the mask and with `GetComponent` is `Ecs.GetAgreesWithHas` together with `Ecs.HasBitIsShiftTest`.
- Ecs.World.AddComponent: its contract describes the returned component and the new slots, not `HasComponent`. That follows from `Ecs.GetAgreesWithHas`.
- Menu.Menu.Update requires that an active update in state NONE sees no Down or Up press. The C code divides by an item count of 0 there. The frame loop only ever shows MAIN or OPTIONS, so `Game.StepKeepsShown` discharges this precondition.
- The current-menu pointer is the flag `registered` on the one `Menu` object. The callbacks act on that object, which assumes, as `src/main.c` does, that `Menu_Update` is called on the registered menu.
- Scene.CreateTestScene: on a world that is not empty, only the bounds on the count are stated.
- Game.RunGame: its contract states the final world, key table and menu, not the scene calls it returns or the menu state frame by frame (each frame is specified by `Game.RunFrame`).
