/**
 * The entity/component store of src/ecs.c (types in include/ecs.h) and its
 * render system.
 *
 * The C world is a fixed array of 256 entity slots plus a live-entity count.
 * Each slot keeps an `active` flag, a `componentMask` bit set and one
 * `void*` pointer per component kind.  Here each pointer is an `Option` of
 * the component record it would point to, so ownership is structural: a
 * component belongs to exactly one slot and disappears with it.
 */
module Ecs {
  import opened Wrappers

  const MAX_ENTITIES: int := 256
  const COMPONENT_COUNT: int := 4

  // Component type ids (the ComponentType enumeration)
  const COMPONENT_TRANSFORM: int := 0
  const COMPONENT_RENDERABLE: int := 1
  const COMPONENT_CAMERA: int := 2
  const COMPONENT_INPUT: int := 3

  // ---------------------------------------------------------------------------
  // Component records.  Floats are only copied around, so they are reals here.
  // ---------------------------------------------------------------------------

  datatype Vector2 = Vector2(x: real, y: real)
  datatype Vector3 = Vector3(x: real, y: real, z: real)

  type Byte = b: int | 0 <= b < 256
  datatype Color = Color(r: Byte, g: Byte, b: Byte, a: Byte)

  const WHITE: Color := Color(255, 255, 255, 255)
  const BLACK: Color := Color(0, 0, 0, 255)
  /** Colour of the outline drawn around a plane. */
  const PLANE_WIRE_COLOR: Color := Color(80, 80, 80, 255)

  datatype TransformComponent = TransformComponent(position: Vector3, rotation: Vector3, scale: Vector3)

  datatype RenderableType = Cube | Sphere | Plane | Grid
  datatype RenderableComponent = RenderableComponent(kind: RenderableType, color: Color, size: Vector3)

  datatype Projection = Perspective | Orthographic
  datatype Camera3D = Camera3D(position: Vector3, target: Vector3, up: Vector3, fovy: real, projection: Projection)
  datatype CameraComponent = CameraComponent(camera: Camera3D, moveSpeed: real, lookSpeed: real)

  datatype InputComponent = InputComponent(active: bool)

  /** What a component pointer returned by the world points to, tagged by kind. */
  datatype Component =
    | TransformC(transform: TransformComponent)
    | RenderableC(renderable: RenderableComponent)
    | CameraC(camera: CameraComponent)
    | InputC(input: InputComponent)
  {
    function Kind(): (k: int)
      ensures 0 <= k < COMPONENT_COUNT
    {
      match this
      case TransformC(_) => COMPONENT_TRANSFORM
      case RenderableC(_) => COMPONENT_RENDERABLE
      case CameraC(_) => COMPONENT_CAMERA
      case InputC(_) => COMPONENT_INPUT
    }
  }

  // Defaults installed by a fresh AddComponent
  const DEFAULT_TRANSFORM: TransformComponent :=
    TransformComponent(Vector3(0.0, 0.0, 0.0), Vector3(0.0, 0.0, 0.0), Vector3(1.0, 1.0, 1.0))
  const DEFAULT_RENDERABLE: RenderableComponent :=
    RenderableComponent(Cube, WHITE, Vector3(1.0, 1.0, 1.0))
  const DEFAULT_CAMERA: CameraComponent :=
    CameraComponent(
      Camera3D(Vector3(10.0, 10.0, 10.0), Vector3(0.0, 0.0, 0.0), Vector3(0.0, 1.0, 0.0), 45.0, Perspective),
      5.0, 2.0)
  const DEFAULT_INPUT: InputComponent := InputComponent(true)

  function DefaultComponent(kind: int): (c: Component)
    requires 0 <= kind < COMPONENT_COUNT
    ensures c.Kind() == kind
  {
    if kind == COMPONENT_TRANSFORM then TransformC(DEFAULT_TRANSFORM)
    else if kind == COMPONENT_RENDERABLE then RenderableC(DEFAULT_RENDERABLE)
    else if kind == COMPONENT_CAMERA then CameraC(DEFAULT_CAMERA)
    else InputC(DEFAULT_INPUT)
  }

  // ---------------------------------------------------------------------------
  // Entity slots
  // ---------------------------------------------------------------------------

  datatype Entity = Entity(
    active: bool,
    componentMask: bv32,
    transform: Option<TransformComponent>,
    renderable: Option<RenderableComponent>,
    camera: Option<CameraComponent>,
    input: Option<InputComponent>)

  /** A free slot: inactive, empty mask, every component pointer NULL. */
  const VACANT: Entity := Entity(false, 0, None, None, None, None)
  /** A slot just handed out by CreateEntity. */
  const SPAWNED: Entity := Entity(true, 0, None, None, None, None)

  /** The mask bit of a component kind, spelled out per kind (see BitIsShift). */
  function Bit(kind: int): bv32
    requires 0 <= kind < COMPONENT_COUNT
  {
    if kind == COMPONENT_TRANSFORM then 0x1
    else if kind == COMPONENT_RENDERABLE then 0x2
    else if kind == COMPONENT_CAMERA then 0x4
    else 0x8
  }

  /** The mask test `mask & (1 << kind) != 0`, bit by bit (see HasBitIsShiftTest). */
  predicate HasBit(mask: bv32, kind: int)
    requires 0 <= kind < COMPONENT_COUNT
  {
    if kind == COMPONENT_TRANSFORM then mask & 0x1 != 0
    else if kind == COMPONENT_RENDERABLE then mask & 0x2 != 0
    else if kind == COMPONENT_CAMERA then mask & 0x4 != 0
    else mask & 0x8 != 0
  }

  /** Bit(kind) is the C mask bit `1 << type`. */
  lemma BitIsShift(kind: int)
    requires 0 <= kind < COMPONENT_COUNT
    ensures Bit(kind) == (1 as bv32) << kind
  {
  }

  /** HasBit is the C test `(mask & (1 << type)) != 0`. */
  lemma HasBitIsShiftTest(mask: bv32, kind: int)
    requires 0 <= kind < COMPONENT_COUNT
    ensures HasBit(mask, kind) == (mask & Bit(kind) != 0)
    ensures HasBit(mask, kind) == (mask & ((1 as bv32) << kind) != 0)
  {
    BitIsShift(kind);
  }

  /** The component pointer `components[kind]` of a slot. */
  function Slot(e: Entity, kind: int): (c: Option<Component>)
    requires 0 <= kind < COMPONENT_COUNT
    ensures c.Some? ==> c.value.Kind() == kind
  {
    if kind == COMPONENT_TRANSFORM then (if e.transform.Some? then Some(TransformC(e.transform.value)) else None)
    else if kind == COMPONENT_RENDERABLE then (if e.renderable.Some? then Some(RenderableC(e.renderable.value)) else None)
    else if kind == COMPONENT_CAMERA then (if e.camera.Some? then Some(CameraC(e.camera.value)) else None)
    else (if e.input.Some? then Some(InputC(e.input.value)) else None)
  }

  /** The mask with one bit per kind flag: transform, renderable, camera, input. */
  function MaskOf(t: bool, r: bool, c: bool, i: bool): bv32 {
    (if t then Bit(COMPONENT_TRANSFORM) else 0)
    | (if r then Bit(COMPONENT_RENDERABLE) else 0)
    | (if c then Bit(COMPONENT_CAMERA) else 0)
    | (if i then Bit(COMPONENT_INPUT) else 0)
  }

  /** Setting, clearing and testing one bit of a MaskOf mask acts on that flag alone. */
  lemma MaskAlgebra(t: bool, r: bool, c: bool, i: bool)
    ensures MaskOf(t, r, c, i) | Bit(COMPONENT_TRANSFORM) == MaskOf(true, r, c, i)
    ensures MaskOf(t, r, c, i) | Bit(COMPONENT_RENDERABLE) == MaskOf(t, true, c, i)
    ensures MaskOf(t, r, c, i) | Bit(COMPONENT_CAMERA) == MaskOf(t, r, true, i)
    ensures MaskOf(t, r, c, i) | Bit(COMPONENT_INPUT) == MaskOf(t, r, c, true)
    ensures MaskOf(t, r, c, i) & !Bit(COMPONENT_TRANSFORM) == MaskOf(false, r, c, i)
    ensures MaskOf(t, r, c, i) & !Bit(COMPONENT_RENDERABLE) == MaskOf(t, false, c, i)
    ensures MaskOf(t, r, c, i) & !Bit(COMPONENT_CAMERA) == MaskOf(t, r, false, i)
    ensures MaskOf(t, r, c, i) & !Bit(COMPONENT_INPUT) == MaskOf(t, r, c, false)
    ensures (MaskOf(t, r, c, i) & Bit(COMPONENT_TRANSFORM) != 0) == t
    ensures (MaskOf(t, r, c, i) & Bit(COMPONENT_RENDERABLE) != 0) == r
    ensures (MaskOf(t, r, c, i) & Bit(COMPONENT_CAMERA) != 0) == c
    ensures (MaskOf(t, r, c, i) & Bit(COMPONENT_INPUT) != 0) == i
  {
  }

  /** The mask that exactly records which component pointers of `e` are non-NULL. */
  function SlotMask(e: Entity): bv32 {
    MaskOf(e.transform.Some?, e.renderable.Some?, e.camera.Some?, e.input.Some?)
  }

  /**
   * The slot invariant: the mask bits are exactly the non-NULL component
   * pointers, and an inactive slot owns nothing.
   */
  ghost predicate WellFormed(e: Entity) {
    e.componentMask == SlotMask(e) && (!e.active ==> e == VACANT)
  }

  /** Stores `c` into the component pointer of its own kind. */
  function Install(e: Entity, c: Component): (e': Entity)
    ensures Slot(e', c.Kind()) == Some(c)
    ensures forall k :: 0 <= k < COMPONENT_COUNT && k != c.Kind() ==> Slot(e', k) == Slot(e, k)
    ensures e'.active == e.active && e'.componentMask == e.componentMask
    ensures Slot(e, c.Kind()).Some? ==> SlotMask(e') == SlotMask(e)
  {
    match c
    case TransformC(t) => e.(transform := Some(t))
    case RenderableC(r) => e.(renderable := Some(r))
    case CameraC(cam) => e.(camera := Some(cam))
    case InputC(i) => e.(input := Some(i))
  }

  /** Frees the component pointer `components[kind]` and sets it to NULL. */
  function Release(e: Entity, kind: int): (e': Entity)
    requires 0 <= kind < COMPONENT_COUNT
    ensures Slot(e', kind).None?
    ensures forall k :: 0 <= k < COMPONENT_COUNT && k != kind ==> Slot(e', k) == Slot(e, k)
    ensures e'.active == e.active && e'.componentMask == e.componentMask
  {
    if kind == COMPONENT_TRANSFORM then e.(transform := None)
    else if kind == COMPONENT_RENDERABLE then e.(renderable := None)
    else if kind == COMPONENT_CAMERA then e.(camera := None)
    else e.(input := None)
  }

  /** A fresh component installed and its mask bit set (the tail of AddComponent). */
  function Attach(e: Entity, c: Component): (e': Entity)
    requires WellFormed(e) && e.active && Slot(e, c.Kind()).None?
    ensures WellFormed(e') && e'.active
    ensures Slot(e', c.Kind()) == Some(c)
    ensures forall k :: 0 <= k < COMPONENT_COUNT && k != c.Kind() ==> Slot(e', k) == Slot(e, k)
    ensures e'.componentMask == e.componentMask | Bit(c.Kind())
  {
    MaskAlgebra(e.transform.Some?, e.renderable.Some?, e.camera.Some?, e.input.Some?);
    match c
    case TransformC(t) => e.(transform := Some(t), componentMask := e.componentMask | Bit(COMPONENT_TRANSFORM))
    case RenderableC(r) => e.(renderable := Some(r), componentMask := e.componentMask | Bit(COMPONENT_RENDERABLE))
    case CameraC(cam) => e.(camera := Some(cam), componentMask := e.componentMask | Bit(COMPONENT_CAMERA))
    case InputC(i) => e.(input := Some(i), componentMask := e.componentMask | Bit(COMPONENT_INPUT))
  }

  /**
   * The slot after AddComponent on a live entity: unchanged when the kind is
   * already present or the allocation fails, otherwise with the kind's
   * default instance attached.
   */
  function AddedSlot(e: Entity, kind: int, allocOk: bool): (e': Entity)
    requires WellFormed(e) && e.active && 0 <= kind < COMPONENT_COUNT
    ensures WellFormed(e') && e'.active
    ensures Slot(e', kind).Some? <==> Slot(e, kind).Some? || allocOk
    ensures forall k :: 0 <= k < COMPONENT_COUNT && k != kind ==> Slot(e', k) == Slot(e, k)
  {
    if Slot(e, kind).Some? || !allocOk then e else Attach(e, DefaultComponent(kind))
  }

  /** A component released and its mask bit cleared (RemoveComponent on a present kind). */
  function Detach(e: Entity, kind: int): (e': Entity)
    requires 0 <= kind < COMPONENT_COUNT
    requires WellFormed(e) && e.active
    ensures WellFormed(e') && e'.active
    ensures Slot(e', kind).None?
    ensures forall k :: 0 <= k < COMPONENT_COUNT && k != kind ==> Slot(e', k) == Slot(e, k)
  {
    MaskAlgebra(e.transform.Some?, e.renderable.Some?, e.camera.Some?, e.input.Some?);
    if kind == COMPONENT_TRANSFORM then
      e.(transform := None, componentMask := e.componentMask & !Bit(COMPONENT_TRANSFORM))
    else if kind == COMPONENT_RENDERABLE then
      e.(renderable := None, componentMask := e.componentMask & !Bit(COMPONENT_RENDERABLE))
    else if kind == COMPONENT_CAMERA then
      e.(camera := None, componentMask := e.componentMask & !Bit(COMPONENT_CAMERA))
    else
      e.(input := None, componentMask := e.componentMask & !Bit(COMPONENT_INPUT))
  }

  /** Mask bit `kind` is set exactly when component pointer `kind` is non-NULL. */
  lemma MaskBitMatchesSlot(e: Entity, kind: int)
    requires WellFormed(e) && 0 <= kind < COMPONENT_COUNT
    ensures HasBit(e.componentMask, kind) <==> Slot(e, kind).Some?
  {
    MaskAlgebra(e.transform.Some?, e.renderable.Some?, e.camera.Some?, e.input.Some?);
  }

  // ---------------------------------------------------------------------------
  // Counting and searching slots
  // ---------------------------------------------------------------------------

  /** The number of active slots. */
  function ActiveCount(s: seq<Entity>): (n: nat)
    ensures n <= |s|
  {
    if s == [] then 0 else (if s[0].active then 1 else 0) + ActiveCount(s[1..])
  }

  /** Replacing one slot changes the count by the change in that slot's flag. */
  lemma {:induction false} ActiveCountUpdate(s: seq<Entity>, i: int, e: Entity)
    requires 0 <= i < |s|
    ensures ActiveCount(s[i := e]) ==
            ActiveCount(s) - (if s[i].active then 1 else 0) + (if e.active then 1 else 0)
  {
    if i == 0 {
      assert s[i := e][1..] == s[1..];
    } else {
      assert s[i := e][1..] == s[1..][i - 1 := e];
      ActiveCountUpdate(s[1..], i - 1, e);
    }
  }

  /** A count reaching the number of slots means every slot is active. */
  lemma {:induction false} FullCountMeansAllActive(s: seq<Entity>)
    requires ActiveCount(s) >= |s|
    ensures forall j :: 0 <= j < |s| ==> s[j].active
  {
    if s != [] {
      FullCountMeansAllActive(s[1..]);
      assert forall j :: 1 <= j < |s| ==> s[j] == s[1..][j - 1];
    }
  }

  /** With no active slot the count is zero. */
  lemma {:induction false} NoActiveMeansZeroCount(s: seq<Entity>)
    requires forall j :: 0 <= j < |s| ==> !s[j].active
    ensures ActiveCount(s) == 0
  {
    if s != [] {
      NoActiveMeansZeroCount(s[1..]);
    }
  }

  /** The lowest-index inactive slot, or -1 when every slot is active (first fit). */
  function FirstVacant(s: seq<Entity>): (r: int)
    ensures -1 <= r < |s|
    ensures r == -1 <==> forall j :: 0 <= j < |s| ==> s[j].active
    ensures r >= 0 ==> !s[r].active && forall j :: 0 <= j < r ==> s[j].active
  {
    if s == [] then -1
    else if !s[0].active then 0
    else
      var r := FirstVacant(s[1..]);
      if r == -1 then -1 else r + 1
  }

  /** First fit fails exactly when the count says every slot is taken. */
  lemma {:induction false} FirstVacantFailsIffFull(s: seq<Entity>)
    ensures FirstVacant(s) == -1 <==> ActiveCount(s) == |s|
  {
    if s != [] {
      FirstVacantFailsIffFull(s[1..]);
      assert forall j :: 1 <= j < |s| ==> s[j] == s[1..][j - 1];
    }
  }

  /** Every slot of a run is well formed. */
  ghost predicate AllWellFormed(s: seq<Entity>) {
    forall i {:trigger WellFormed(s[i])} :: 0 <= i < |s| ==> WellFormed(s[i])
  }

  /**
   * Replacing one slot by a well-formed slot keeps the run well formed and
   * changes the count by the change in that slot's flag.
   */
  lemma ReplaceSlot(s: seq<Entity>, id: int, e: Entity)
    requires AllWellFormed(s) && 0 <= id < |s| && WellFormed(e)
    ensures AllWellFormed(s[id := e])
    ensures ActiveCount(s[id := e]) ==
            ActiveCount(s) - (if s[id].active then 1 else 0) + (if e.active then 1 else 0)
  {
    ActiveCountUpdate(s, id, e);
  }

  // ---------------------------------------------------------------------------
  // The world
  // ---------------------------------------------------------------------------

  class World {
    var entities: array<Entity>
    var entityCount: int

    /** Both invariants of the store: mask bits match pointers, and the count matches. */
    ghost predicate Valid()
      reads this, entities
    {
      && entities.Length == MAX_ENTITIES
      && AllWellFormed(entities[..])
      && entityCount == ActiveCount(entities[..])
    }

    /** Each slot of a valid world is well formed. */
    lemma SlotIsWellFormed(i: int)
      requires Valid() && 0 <= i < MAX_ENTITIES
      ensures WellFormed(entities[i])
    {
      assert entities[..][i] == entities[i];
    }

    /** `id` names an active slot (the guard at the top of most operations). */
    predicate IsLive(id: int)
      reads this, entities
      requires entities.Length == MAX_ENTITIES
    {
      0 <= id < MAX_ENTITIES && entities[id].active
    }

    /** The zero-initialised static storage of a world. */
    constructor ()
      ensures Valid() && fresh(entities) && entityCount == 0
      ensures forall i :: 0 <= i < MAX_ENTITIES ==> entities[i] == VACANT
    {
      entities := new Entity[MAX_ENTITIES](_ => VACANT);
      entityCount := 0;
      new;
      NoActiveMeansZeroCount(entities[..]);
    }

    /** ECS_Init: the whole world is zeroed. */
    method Init()
      requires entities.Length == MAX_ENTITIES
      modifies this`entityCount, entities
      ensures Valid() && entityCount == 0
      ensures forall i :: 0 <= i < MAX_ENTITIES ==> entities[i] == VACANT
    {
      forall i | 0 <= i < entities.Length {
        entities[i] := VACANT;
      }
      entityCount := 0;
      NoActiveMeansZeroCount(entities[..]);
    }

    /**
     * ECS_CreateEntity: first fit.  Fails with -1, changing nothing, when the
     * world is full; otherwise activates the lowest inactive slot with an
     * empty mask and no components and returns its index.
     */
    method CreateEntity() returns (id: int)
      requires Valid()
      modifies this`entityCount, entities
      ensures Valid()
      ensures id == FirstVacant(old(entities[..]))
      ensures id == -1 ==> entities[..] == old(entities[..]) && entityCount == old(entityCount)
      ensures id != -1 ==>
                && entities[..] == old(entities[..])[id := SPAWNED]
                && entityCount == old(entityCount) + 1
    {
      if entityCount >= MAX_ENTITIES {
        FullCountMeansAllActive(entities[..]);
        return -1;
      }
      for i := 0 to MAX_ENTITIES
        invariant forall j :: 0 <= j < i ==> entities[j].active
        invariant entities[..] == old(entities[..]) && entityCount == old(entityCount)
      {
        if !entities[i].active {
          ReplaceSlot(entities[..], i, SPAWNED);
          // activate, zero the mask and every component pointer
          entities[i] := SPAWNED;
          entityCount := entityCount + 1;
          return i;
        }
      }
      return -1;
    }

    /**
     * ECS_DestroyEntity: a no-op for an out-of-range or inactive id; otherwise
     * every component is released, the mask cleared, the slot deactivated and
     * the count decremented.  No other slot changes.
     */
    method DestroyEntity(id: int)
      requires Valid()
      modifies this`entityCount, entities
      ensures Valid()
      ensures !old(IsLive(id)) ==> entities[..] == old(entities[..]) && entityCount == old(entityCount)
      ensures old(IsLive(id)) ==>
                && entities[..] == old(entities[..])[id := VACANT]
                && entityCount == old(entityCount) - 1
      ensures forall k :: 0 <= k < COMPONENT_COUNT ==> GetComponent(id, k).None? && !HasComponent(id, k)
    {
      if id < 0 || id >= MAX_ENTITIES || !entities[id].active {
        return;
      }
      ghost var before := entities[..];
      for k := 0 to COMPONENT_COUNT
        invariant entities[id].active && entities[id].componentMask == before[id].componentMask
        invariant forall j :: 0 <= j < k ==> Slot(entities[id], j).None?
        invariant forall j :: k <= j < COMPONENT_COUNT ==> Slot(entities[id], j) == Slot(before[id], j)
        invariant forall j :: 0 <= j < MAX_ENTITIES && j != id ==> entities[j] == before[j]
        invariant entityCount == old(entityCount)
      {
        if Slot(entities[id], k).Some? {
          entities[id] := Release(entities[id], k);
        }
      }
      assert Slot(entities[id], COMPONENT_TRANSFORM).None? && Slot(entities[id], COMPONENT_RENDERABLE).None?;
      assert Slot(entities[id], COMPONENT_CAMERA).None? && Slot(entities[id], COMPONENT_INPUT).None?;
      entities[id] := entities[id].(active := false, componentMask := 0);
      entityCount := entityCount - 1;
      assert entities[id] == VACANT;
      assert entities[..] == before[id := VACANT];
      ReplaceSlot(before, id, VACANT);
    }

    /**
     * ECS_AddComponent.  Absent for an invalid or inactive id; the existing
     * instance, with nothing changed, when the kind is already present
     * (so adding is idempotent); absent with nothing changed when the
     * allocation fails (`allocOk` is false); otherwise the kind's default
     * instance, installed with its mask bit set.
     */
    method AddComponent(id: int, kind: int, allocOk: bool) returns (c: Option<Component>)
      requires Valid() && 0 <= kind < COMPONENT_COUNT
      modifies entities
      ensures Valid()
      ensures !old(IsLive(id)) ==> c.None? && entities[..] == old(entities[..])
      ensures old(IsLive(id)) && old(Slot(entities[id], kind)).Some? ==>
                c == old(Slot(entities[id], kind)) && entities[..] == old(entities[..])
      ensures old(IsLive(id)) && old(Slot(entities[id], kind)).None? && !allocOk ==>
                c.None? && entities[..] == old(entities[..])
      ensures old(IsLive(id)) && old(Slot(entities[id], kind)).None? && allocOk ==>
                && c == Some(DefaultComponent(kind))
                && entities[..] == old(entities[..])[id := Attach(old(entities[id]), DefaultComponent(kind))]
      ensures c.Some? ==> c == GetComponent(id, kind)
      ensures old(IsLive(id)) ==> entities[..] == old(entities[..])[id := AddedSlot(old(entities[id]), kind, allocOk)]
    {
      if id < 0 || id >= MAX_ENTITIES || !entities[id].active {
        return None;
      }
      SlotIsWellFormed(id);
      if Slot(entities[id], kind).Some? {
        assert entities[..][id := entities[id]] == entities[..];
        return Slot(entities[id], kind);
      }
      if !allocOk {
        // out of memory
        assert entities[..][id := entities[id]] == entities[..];
        return None;
      }
      var component := DefaultComponent(kind);
      // install the default instance and set its mask bit
      var e := Attach(entities[id], component);
      ReplaceSlot(entities[..], id, e);
      entities[id] := e;
      c := Some(component);
    }

    /** ECS_GetComponent: the component pointer, or absent for an invalid or inactive id. */
    function GetComponent(id: int, kind: int): (c: Option<Component>)
      reads this, entities
      requires entities.Length == MAX_ENTITIES && 0 <= kind < COMPONENT_COUNT
      ensures c.Some? ==> IsLive(id) && c.value.Kind() == kind
      ensures IsLive(id) ==> c == Slot(entities[id], kind)
    {
      if id < 0 || id >= MAX_ENTITIES || !entities[id].active then None
      else Slot(entities[id], kind)
    }

    /** ECS_HasComponent: the mask test, false for an invalid or inactive id. */
    function HasComponent(id: int, kind: int): (b: bool)
      reads this, entities
      requires entities.Length == MAX_ENTITIES && 0 <= kind < COMPONENT_COUNT
      ensures b ==> IsLive(id)
    {
      if id < 0 || id >= MAX_ENTITIES || !entities[id].active then false
      else HasBit(entities[id].componentMask, kind)
    }

    /**
     * ECS_RemoveComponent: when the entity is live and owns the kind, the
     * component is released and its mask bit cleared; otherwise nothing
     * changes.  Other kinds and other entities are untouched.
     */
    method RemoveComponent(id: int, kind: int)
      requires Valid() && 0 <= kind < COMPONENT_COUNT
      modifies entities
      ensures Valid()
      ensures old(IsLive(id)) && old(Slot(entities[id], kind)).Some? ==>
                entities[..] == old(entities[..])[id := Detach(old(entities[id]), kind)]
      ensures !(old(IsLive(id)) && old(Slot(entities[id], kind)).Some?) ==>
                entities[..] == old(entities[..])
      ensures GetComponent(id, kind).None? && !HasComponent(id, kind)
    {
      if id < 0 || id >= MAX_ENTITIES || !entities[id].active {
        return;
      }
      if Slot(entities[id], kind).Some? {
        var e := Detach(entities[id], kind);
        ReplaceSlot(entities[..], id, e);
        // free the component, NULL the pointer and clear the mask bit
        entities[id] := e;
      }
      NotOwnedMeansAbsent(this, id, kind);
    }

    /**
     * A write through a component pointer previously handed out by
     * AddComponent or GetComponent: the component of `c`'s kind becomes `c`.
     */
    method Store(id: int, c: Component)
      requires Valid() && IsLive(id) && Slot(entities[id], c.Kind()).Some?
      modifies entities
      ensures Valid()
      ensures entities[..] == old(entities[..])[id := Install(old(entities[id]), c)]
    {
      SlotIsWellFormed(id);
      var e := Install(entities[id], c);
      ReplaceSlot(entities[..], id, e);
      entities[id] := e;
    }

    /**
     * The world as a scene reset or load leaves it (those operations are
     * not part of this model): every slot replaced by the given well-formed
     * slots, and the count matching them.
     */
    method Assign(s: seq<Entity>)
      requires entities.Length == MAX_ENTITIES && |s| == MAX_ENTITIES && AllWellFormed(s)
      modifies this`entityCount, entities
      ensures Valid() && entities[..] == s
    {
      forall i | 0 <= i < MAX_ENTITIES {
        entities[i] := s[i];
      }
      entityCount := ActiveCount(s);
      assert entities[..] == s;
    }

    /** ECS_Cleanup: every active entity is destroyed. */
    method Cleanup()
      requires Valid()
      modifies this`entityCount, entities
      ensures Valid() && entityCount == 0
      ensures forall i :: 0 <= i < MAX_ENTITIES ==> entities[i] == VACANT
    {
      for i := 0 to MAX_ENTITIES
        invariant Valid()
        invariant forall j :: 0 <= j < i ==> entities[j] == VACANT
      {
        SlotIsWellFormed(i);
        if entities[i].active {
          DestroyEntity(i);
        }
      }
      NoActiveMeansZeroCount(entities[..]);
    }

    /**
     * System_Render: the draw commands of every active entity owning a
     * Transform and a Renderable, in ascending slot order.
     */
    method SystemRender() returns (cmds: seq<DrawCommand>)
      requires Valid()
      ensures cmds == RenderSpec(entities[..])
    {
      cmds := [];
      for i := 0 to MAX_ENTITIES
        invariant cmds == RenderSpec(entities[..i])
      {
        assert entities[..i + 1][..i] == entities[..i];
        if !entities[i].active {
          continue;
        }
        GetAgreesWithHas(this, i, COMPONENT_TRANSFORM);
        GetAgreesWithHas(this, i, COMPONENT_RENDERABLE);
        if HasComponent(i, COMPONENT_TRANSFORM) && HasComponent(i, COMPONENT_RENDERABLE) {
          var transform := GetComponent(i, COMPONENT_TRANSFORM);
          var renderable := GetComponent(i, COMPONENT_RENDERABLE);
          if transform.Some? && renderable.Some? {
            cmds := cmds + Primitives(transform.value.transform, renderable.value.renderable);
          }
        }
      }
      assert entities[..MAX_ENTITIES] == entities[..];
    }
  }

  /** A kind the entity does not own is neither found nor reported present. */
  lemma NotOwnedMeansAbsent(w: World, id: int, kind: int)
    requires w.Valid() && 0 <= kind < COMPONENT_COUNT
    requires w.IsLive(id) ==> Slot(w.entities[id], kind).None?
    ensures w.GetComponent(id, kind).None? && !w.HasComponent(id, kind)
  {
    GetAgreesWithHas(w, id, kind);
  }

  /** GetComponent finds a component exactly when HasComponent's mask test says so. */
  lemma GetAgreesWithHas(w: World, id: int, kind: int)
    requires w.Valid() && 0 <= kind < COMPONENT_COUNT
    ensures w.GetComponent(id, kind).Some? <==> w.HasComponent(id, kind)
  {
    if w.IsLive(id) {
      w.SlotIsWellFormed(id);
      MaskBitMatchesSlot(w.entities[id], kind);
    }
  }

  // ---------------------------------------------------------------------------
  // Render system
  // ---------------------------------------------------------------------------

  /** The raylib drawing calls System_Render issues. */
  datatype DrawCommand =
    | DrawCube(position: Vector3, width: real, height: real, length: real, color: Color)
    | DrawCubeWires(position: Vector3, width: real, height: real, length: real, color: Color)
    | DrawGrid(slices: int, spacing: real)
    | DrawPlane(center: Vector3, size: Vector2, color: Color)
    | DrawPlaneWireframe(center: Vector3, size: Vector2, color: Color)

  /**
   * The switch on the renderable's type for one entity: two commands for a
   * Cube or a Plane, the filled shape at the entity's position then its
   * outline; one for a Grid; none for a Sphere.
   */
  function Primitives(t: TransformComponent, r: RenderableComponent): (cmds: seq<DrawCommand>)
    ensures |cmds| == (if r.kind == Sphere then 0 else if r.kind == Grid then 1 else 2)
    ensures r.kind == Cube ==> cmds[0].DrawCube? && cmds[0].position == t.position && cmds[1].DrawCubeWires?
    ensures r.kind == Plane ==> cmds[0].DrawPlane? && cmds[0].center == t.position && cmds[1].DrawPlaneWireframe?
    ensures r.kind == Grid ==> cmds[0].DrawGrid?
  {
    match r.kind
    case Cube =>
      [DrawCube(t.position, r.size.x, r.size.y, r.size.z, r.color),
       DrawCubeWires(t.position, r.size.x, r.size.y, r.size.z, BLACK)]
    case Grid => [DrawGrid(10, 5.0)]
    case Plane =>
      var size := Vector2(r.size.x, r.size.z);
      [DrawPlane(t.position, size, r.color), DrawPlaneWireframe(t.position, size, PLANE_WIRE_COLOR)]
    case Sphere => []
  }

  /** An entity the render system draws: active, with a Transform and a Renderable. */
  predicate Drawable(e: Entity) {
    e.active && e.transform.Some? && e.renderable.Some?
  }

  function EntityDraw(e: Entity): seq<DrawCommand> {
    if Drawable(e) then Primitives(e.transform.value, e.renderable.value) else []
  }

  /**
   * The commands of a run of slots, slot by slot in ascending order; each
   * slot issues at most two.
   */
  function RenderSpec(s: seq<Entity>): (cmds: seq<DrawCommand>)
    ensures |cmds| <= 2 * |s|
  {
    if s == [] then [] else RenderSpec(s[..|s| - 1]) + EntityDraw(s[|s| - 1])
  }

  /** Rendering a concatenation of slot runs renders the first run before the second. */
  lemma {:induction false} RenderAppend(s: seq<Entity>, t: seq<Entity>)
    ensures RenderSpec(s + t) == RenderSpec(s) + RenderSpec(t)
  {
    if t == [] {
      assert s + t == s;
    } else {
      var u, last := t[..|t| - 1], t[|t| - 1];
      assert (s + t)[..|s + t| - 1] == s + u && (s + t)[|s + t| - 1] == last;
      assert t[..|t| - 1] == u;
      calc {
        RenderSpec(s + t);
        RenderSpec(s + u) + EntityDraw(last);
        { RenderAppend(s, u); }
        (RenderSpec(s) + RenderSpec(u)) + EntityDraw(last);
        RenderSpec(s) + (RenderSpec(u) + EntityDraw(last));
        RenderSpec(s) + RenderSpec(t);
      }
    }
  }

  /**
   * Slot order: the commands of slot i come after those of every lower slot
   * and before those of every higher slot.
   */
  lemma RenderSlotOrder(s: seq<Entity>, i: int)
    requires 0 <= i < |s|
    ensures RenderSpec(s) == RenderSpec(s[..i]) + EntityDraw(s[i]) + RenderSpec(s[i + 1..])
  {
    var front, back := s[..i + 1], s[i + 1..];
    assert s == front + back;
    RenderAppend(front, back);
    assert front[..|front| - 1] == s[..i] && front[|front| - 1] == s[i];
    assert RenderSpec(front) == RenderSpec(s[..i]) + EntityDraw(s[i]);
  }

  /** Slots that are inactive or lack a Transform or a Renderable draw nothing. */
  lemma {:induction false} RenderSkipsUndrawable(s: seq<Entity>)
    requires forall j :: 0 <= j < |s| ==> !Drawable(s[j])
    ensures RenderSpec(s) == []
  {
    if s != [] {
      RenderSkipsUndrawable(s[..|s| - 1]);
    }
  }

  /** What one drawable entity contributes, kind by kind. */
  lemma EntityDrawByKind(e: Entity)
    requires Drawable(e)
    ensures var t, r := e.transform.value, e.renderable.value;
            && (r.kind == Cube ==>
                  EntityDraw(e) ==
                  [DrawCube(t.position, r.size.x, r.size.y, r.size.z, r.color),
                   DrawCubeWires(t.position, r.size.x, r.size.y, r.size.z, BLACK)])
            && (r.kind == Grid ==> EntityDraw(e) == [DrawGrid(10, 5.0)])
            && (r.kind == Plane ==>
                  EntityDraw(e) ==
                  [DrawPlane(t.position, Vector2(r.size.x, r.size.z), r.color),
                   DrawPlaneWireframe(t.position, Vector2(r.size.x, r.size.z), PLANE_WIRE_COLOR)])
            && (r.kind == Sphere ==> EntityDraw(e) == [])
  {
  }
}
