/**
 * The default scene of src/scene.c: a camera, a cube and a ground grid,
 * built by a fixed sequence of world operations.
 */
module Scene {
  import opened Wrappers
  import opened Ecs

  /**
   * Whether each of the six component allocations of CreateTestScene
   * succeeds, in call order.
   */
  datatype Allocations = Allocations(
    camera: bool, input: bool,
    cubeTransform: bool, cubeRenderable: bool,
    gridTransform: bool, gridRenderable: bool)

  const ALL_SUCCEED: Allocations := Allocations(true, true, true, true, true, true)

  // Values the scene writes through the returned component pointers
  const SCENE_CAMERA: CameraComponent :=
    CameraComponent(
      Camera3D(Vector3(10.0, 10.0, 10.0), Vector3(0.0, 0.0, 0.0), Vector3(0.0, 1.0, 0.0), 45.0, Perspective),
      5.0, 2.0)
  const CUBE_TRANSFORM: TransformComponent :=
    TransformComponent(Vector3(0.0, 1.0, 0.0), Vector3(0.0, 0.0, 0.0), Vector3(1.0, 1.0, 1.0))
  const CUBE_RENDERABLE: RenderableComponent := RenderableComponent(Cube, WHITE, Vector3(2.0, 2.0, 2.0))
  const GRID_TRANSFORM: TransformComponent :=
    TransformComponent(Vector3(0.0, 0.0, 0.0), Vector3(0.0, 0.0, 0.0), Vector3(1.0, 1.0, 1.0))
  const GRID_RENDERABLE: RenderableComponent := RenderableComponent(Grid, WHITE, Vector3(1.0, 1.0, 1.0))

  /** The value when its allocation succeeded, absent otherwise. */
  function PresentIf<T>(present: bool, v: T): Option<T> {
    if present then Some(v) else None
  }

  /** A live slot owning exactly the given components, with the matching mask. */
  function Owning(t: Option<TransformComponent>, r: Option<RenderableComponent>,
                  c: Option<CameraComponent>, i: Option<InputComponent>): Entity
  {
    Entity(true, MaskOf(t.Some?, r.Some?, c.Some?, i.Some?), t, r, c, i)
  }

  /** The three slots the scene fills on an empty world, given the allocation outcomes. */
  function CameraSlot(a: Allocations): Entity {
    CameraSlotWith(a.camera, a.input)
  }
  function CubeSlot(a: Allocations): Entity {
    DrawableSlotWith(CUBE_TRANSFORM, CUBE_RENDERABLE, a.cubeTransform, a.cubeRenderable)
  }
  function GridSlot(a: Allocations): Entity {
    DrawableSlotWith(GRID_TRANSFORM, GRID_RENDERABLE, a.gridTransform, a.gridRenderable)
  }

  /** Scene_Init: an empty world. */
  method SceneInit(w: World)
    requires w.entities.Length == MAX_ENTITIES
    modifies w`entityCount, w.entities
    ensures w.Valid() && w.entityCount == 0 && AllVacant(w.entities[..])
  {
    w.Init();
  }

  /** Every slot unused, as after Scene_Init. */
  ghost predicate AllVacant(s: seq<Entity>) {
    forall i :: 0 <= i < |s| ==> s[i] == VACANT
  }

  /** A live, well-formed slot is determined by its component pointers. */
  lemma LiveSlotIsOwning(e: Entity)
    requires WellFormed(e) && e.active
    ensures e == Owning(e.transform, e.renderable, e.camera, e.input)
  {
  }

  /** A slot written twice holds the second value. */
  lemma UpdateTwice(s: seq<Entity>, i: int, a: Entity, b: Entity)
    requires 0 <= i < |s|
    ensures s[i := a][i := b] == s[i := b]
  {
  }

  /** A write through a component pointer, done only when the pointer is non-NULL. */
  function WriteIf(e: Entity, present: bool, c: Component): Entity {
    if present then Install(e, c) else e
  }

  /**
   * A fresh entity given the two components of kinds `k1` and `k2` (with
   * the allocation outcomes `a1` and `a2`), then written `c1` and `c2`
   * where the adds succeeded, owns exactly the components written.
   */
  lemma AddedAndWritten(k1: int, a1: bool, c1: Component, k2: int, a2: bool, c2: Component)
    requires 0 <= k1 < COMPONENT_COUNT && c1.Kind() == k1
    requires 0 <= k2 < COMPONENT_COUNT && c2.Kind() == k2 && k1 != k2
    ensures var added := AddedSlot(AddedSlot(SPAWNED, k1, a1), k2, a2);
            var e := WriteIf(WriteIf(added, a1, c1), a2, c2);
            && WellFormed(e) && e.active
            && Slot(e, k1) == PresentIf(a1, c1) && Slot(e, k2) == PresentIf(a2, c2)
            && forall k :: 0 <= k < COMPONENT_COUNT && k != k1 && k != k2 ==> Slot(e, k).None?
  {
    var e1 := AddedSlot(SPAWNED, k1, a1);
    var e2 := AddedSlot(e1, k2, a2);
    var e3 := WriteIf(e2, a1, c1);
    assert WellFormed(e3) && Slot(e3, k1) == PresentIf(a1, c1) && Slot(e3, k2).Some? == a2;
    var e4 := WriteIf(e3, a2, c2);
    assert WellFormed(e4) && Slot(e4, k1) == PresentIf(a1, c1) && Slot(e4, k2) == PresentIf(a2, c2);
  }

  /**
   * The camera block of Scene_CreateTestScene: create an entity, add a
   * Camera and an Input, and write the scene's camera values when the
   * camera was added.  A failed creation makes both adds no-ops.
   */
  method SpawnCamera(w: World, allocCamera: bool, allocInput: bool) returns (id: int)
    requires w.Valid()
    modifies w`entityCount, w.entities
    ensures w.Valid()
    ensures id == FirstVacant(old(w.entities[..]))
    ensures id == -1 ==> w.entities[..] == old(w.entities[..]) && w.entityCount == old(w.entityCount)
    ensures id != -1 ==>
              && w.entities[..] == old(w.entities[..])[id := CameraSlotWith(allocCamera, allocInput)]
              && w.entityCount == old(w.entityCount) + 1
  {
    id := w.CreateEntity();
    if id == -1 {
      var _ := w.AddComponent(id, COMPONENT_CAMERA, allocCamera);
      var _ := w.AddComponent(id, COMPONENT_INPUT, allocInput);
      return;
    }
    FillCamera(w, id, allocCamera, allocInput);
    UpdateTwice(old(w.entities[..]), id, SPAWNED, CameraSlotWith(allocCamera, allocInput));
  }

  /** The camera entity's slot, given the outcomes of its two allocations. */
  function CameraSlotWith(allocCamera: bool, allocInput: bool): Entity {
    Owning(None, None, PresentIf(allocCamera, SCENE_CAMERA), PresentIf(allocInput, DEFAULT_INPUT))
  }

  /** The adds and the write of the camera block, on the freshly created entity `id`. */
  method FillCamera(w: World, id: int, allocCamera: bool, allocInput: bool)
    requires w.Valid() && 0 <= id < MAX_ENTITIES && w.entities[id] == SPAWNED
    modifies w.entities
    ensures w.Valid() && w.entityCount == old(w.entityCount)
    ensures w.entities[..] == old(w.entities[..])[id := CameraSlotWith(allocCamera, allocInput)]
  {
    var camera := w.AddComponent(id, COMPONENT_CAMERA, allocCamera);
    var _ := w.AddComponent(id, COMPONENT_INPUT, allocInput);
    ghost var added := AddedSlot(AddedSlot(SPAWNED, COMPONENT_CAMERA, allocCamera), COMPONENT_INPUT, allocInput);
    assert w.entities[..] == old(w.entities[..])[id := added];
    assert camera.Some? == allocCamera;
    if camera.Some? {
      w.Store(id, CameraC(SCENE_CAMERA));
    }
    AddedAndWritten(COMPONENT_CAMERA, allocCamera, CameraC(SCENE_CAMERA), COMPONENT_INPUT, allocInput, DefaultComponent(COMPONENT_INPUT));
    ghost var e := WriteIf(WriteIf(added, allocCamera, CameraC(SCENE_CAMERA)), allocInput, DefaultComponent(COMPONENT_INPUT));
    assert WriteIf(added, allocCamera, CameraC(SCENE_CAMERA)) == e;
    LiveSlotIsOwning(e);
  }

  /**
   * The cube and grid blocks of Scene_CreateTestScene: create an entity,
   * add a Transform and a Renderable, and write the given values into
   * whichever of the two was added.
   */
  method SpawnDrawable(w: World, t: TransformComponent, r: RenderableComponent,
                       allocTransform: bool, allocRenderable: bool) returns (id: int)
    requires w.Valid()
    modifies w`entityCount, w.entities
    ensures w.Valid()
    ensures id == FirstVacant(old(w.entities[..]))
    ensures id == -1 ==> w.entities[..] == old(w.entities[..]) && w.entityCount == old(w.entityCount)
    ensures id != -1 ==>
              && w.entities[..] == old(w.entities[..])[id := DrawableSlotWith(t, r, allocTransform, allocRenderable)]
              && w.entityCount == old(w.entityCount) + 1
  {
    id := w.CreateEntity();
    if id == -1 {
      var _ := w.AddComponent(id, COMPONENT_TRANSFORM, allocTransform);
      var _ := w.AddComponent(id, COMPONENT_RENDERABLE, allocRenderable);
      return;
    }
    FillDrawable(w, id, t, r, allocTransform, allocRenderable);
    UpdateTwice(old(w.entities[..]), id, SPAWNED, DrawableSlotWith(t, r, allocTransform, allocRenderable));
  }

  /** A drawable entity's slot, given its values and the outcomes of its two allocations. */
  function DrawableSlotWith(t: TransformComponent, r: RenderableComponent,
                            allocTransform: bool, allocRenderable: bool): Entity {
    Owning(PresentIf(allocTransform, t), PresentIf(allocRenderable, r), None, None)
  }

  /** The adds and the writes of a cube or grid block, on the freshly created entity `id`. */
  method FillDrawable(w: World, id: int, t: TransformComponent, r: RenderableComponent,
                      allocTransform: bool, allocRenderable: bool)
    requires w.Valid() && 0 <= id < MAX_ENTITIES && w.entities[id] == SPAWNED
    modifies w.entities
    ensures w.Valid() && w.entityCount == old(w.entityCount)
    ensures w.entities[..] == old(w.entities[..])[id := DrawableSlotWith(t, r, allocTransform, allocRenderable)]
  {
    var transform := w.AddComponent(id, COMPONENT_TRANSFORM, allocTransform);
    var renderable := w.AddComponent(id, COMPONENT_RENDERABLE, allocRenderable);
    ghost var added := AddedSlot(AddedSlot(SPAWNED, COMPONENT_TRANSFORM, allocTransform), COMPONENT_RENDERABLE, allocRenderable);
    assert w.entities[..] == old(w.entities[..])[id := added];
    assert transform.Some? == allocTransform && renderable.Some? == allocRenderable;
    if transform.Some? {
      w.Store(id, TransformC(t));
    }
    ghost var written := WriteIf(added, allocTransform, TransformC(t));
    assert w.entities[..] == old(w.entities[..])[id := written];
    if renderable.Some? {
      w.Store(id, RenderableC(r));
    }
    ghost var e := WriteIf(written, allocRenderable, RenderableC(r));
    AddedAndWritten(COMPONENT_TRANSFORM, allocTransform, TransformC(t), COMPONENT_RENDERABLE, allocRenderable, RenderableC(r));
    LiveSlotIsOwning(e);
  }

  /**
   * Scene_CreateTestScene: a camera, a cube and a grid entity, in that
   * order.  Every write into a component is guarded by the add having
   * returned it, so failed creations or allocations only skip work.  On
   * an empty world the scene takes slots 0, 1 and 2.
   */
  method CreateTestScene(w: World, alloc: Allocations)
    requires w.Valid()
    modifies w`entityCount, w.entities
    ensures w.Valid()
    ensures old(w.entityCount) <= w.entityCount <= old(w.entityCount) + 3
    ensures AllVacant(old(w.entities[..])) ==>
              && w.entityCount == 3
              && w.entities[..] == old(w.entities[..])[0 := CameraSlot(alloc)][1 := CubeSlot(alloc)][2 := GridSlot(alloc)]
  {
    ghost var s0 := w.entities[..];
    if AllVacant(s0) {
      NoActiveMeansZeroCount(s0);
    }
    var cameraEntity := SpawnCamera(w, alloc.camera, alloc.input);
    ghost var s1 := w.entities[..];
    var cubeEntity := SpawnDrawable(w, CUBE_TRANSFORM, CUBE_RENDERABLE, alloc.cubeTransform, alloc.cubeRenderable);
    ghost var s2 := w.entities[..];
    var gridEntity := SpawnDrawable(w, GRID_TRANSFORM, GRID_RENDERABLE, alloc.gridTransform, alloc.gridRenderable);
    if AllVacant(s0) {
      EmptySceneLayout(s0, s1, s2, w.entities[..], cameraEntity, cubeEntity, gridEntity, alloc);
    }
  }

  /** The slot bookkeeping behind CreateTestScene's empty-world postcondition. */
  lemma EmptySceneLayout(s0: seq<Entity>, s1: seq<Entity>, s2: seq<Entity>, s3: seq<Entity>,
                         a: int, b: int, c: int, alloc: Allocations)
    requires |s0| == MAX_ENTITIES && AllVacant(s0)
    requires a == FirstVacant(s0) && a != -1 && s1 == s0[a := CameraSlot(alloc)]
    requires b == FirstVacant(s1) && (b == -1 ==> s2 == s1) && (b != -1 ==> s2 == s1[b := CubeSlot(alloc)])
    requires c == FirstVacant(s2) && (c == -1 ==> s3 == s2) && (c != -1 ==> s3 == s2[c := GridSlot(alloc)])
    ensures a == 0 && b == 1 && c == 2
    ensures s3 == s0[0 := CameraSlot(alloc)][1 := CubeSlot(alloc)][2 := GridSlot(alloc)]
  {
    assert a == 0;
    assert s1[0].active && !s1[1].active;
    assert b == 1;
    assert s2[0].active && s2[1].active && !s2[2].active;
    assert c == 2;
  }

  /**
   * With every allocation succeeding, the camera owns exactly Camera and
   * Input, and the cube and the grid own exactly Transform and Renderable.
   */
  lemma DefaultSceneMasks()
    ensures CameraSlot(ALL_SUCCEED).componentMask == Bit(COMPONENT_CAMERA) | Bit(COMPONENT_INPUT)
    ensures CubeSlot(ALL_SUCCEED).componentMask == Bit(COMPONENT_TRANSFORM) | Bit(COMPONENT_RENDERABLE)
    ensures GridSlot(ALL_SUCCEED).componentMask == Bit(COMPONENT_TRANSFORM) | Bit(COMPONENT_RENDERABLE)
  {
  }

  /** The scene's camera carries the same values as a freshly added camera. */
  lemma SceneCameraIsDefault()
    ensures CameraC(SCENE_CAMERA) == DefaultComponent(COMPONENT_CAMERA)
  {
  }
}
