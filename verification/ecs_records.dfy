/** The entity allocator of the ECS.cpp revision: one record per entity in
    a single `entities` array. The record type is declared in a header that
    is not part of this model; the fields used by the loader are
    `renderModel` (a model-cache index and a material id) and `position`
    (a float vector, opaque here). */
module EcsRecords {
  import opened Common

  /** `ComponentRenderModel{ modelIndex, materialId }` as the loader builds it. */
  datatype RenderModel = RenderModel(modelIndex: int, materialId: nat)

  /** A position component; its float coordinates are not modelled. */
  datatype Position = Position

  datatype Entity = Entity(renderModel: Option<RenderModel>, position: Option<Position>)

  /** A value-initialised entity record: no components. */
  function EmptyEntity(): Entity {
    Entity(None, None)
  }

  datatype Ecs = Ecs(nextEntity: int, entities: seq<Entity>)

  /** Ids and records are in step: the id handed out next is the index the
      next record will occupy. */
  predicate Valid(e: Ecs) {
    e.nextEntity == |e.entities|
  }

  /** `ECS::addEntity`: append one default record, return the counter before
      the increment. */
  function AddEntity(e: Ecs): (r: (Ecs, int))
    ensures r.1 == e.nextEntity && r.0.nextEntity == r.1 + 1
    ensures |r.0.entities| == |e.entities| + 1 && r.0.entities[..|e.entities|] == e.entities
    ensures r.0.entities[|e.entities|] == EmptyEntity()
    ensures Valid(e) ==> Valid(r.0) && 0 <= r.1 < |r.0.entities| && r.0.entities[r.1] == EmptyEntity()
  {
    (Ecs(e.nextEntity + 1, e.entities + [EmptyEntity()]), e.nextEntity)
  }

  /** Replaces the record at `id` (the `entities[id]` reference of the loader). */
  function Update(e: Ecs, id: int, x: Entity): (r: Ecs)
    requires 0 <= id < |e.entities|
    ensures r.nextEntity == e.nextEntity && |r.entities| == |e.entities|
    ensures r.entities[id] == x
    ensures forall k | 0 <= k < |e.entities| && k != id :: r.entities[k] == e.entities[k]
  {
    e.(entities := e.entities[id := x])
  }

  /** `n` successive calls of `addEntity`, with the ids they return. */
  function AddEntities(e: Ecs, n: nat): (r: (Ecs, seq<int>))
    ensures |r.1| == n
    decreases n
  {
    if n == 0 then (e, [])
    else
      var (e1, id) := AddEntity(e);
      var (e2, ids) := AddEntities(e1, n - 1);
      (e2, [id] + ids)
  }

  /** The ids of `n` calls are the consecutive integers starting at the
      counter, so they are strictly increasing and never repeat; the array
      grows by exactly `n` empty records and the invariant is kept. */
  lemma {:induction false} AddEntitiesConsecutive(e: Ecs, n: nat)
    ensures forall i | 0 <= i < n :: AddEntities(e, n).1[i] == e.nextEntity + i
    ensures AddEntities(e, n).0.nextEntity == e.nextEntity + n
    ensures |AddEntities(e, n).0.entities| == |e.entities| + n
    ensures AddEntities(e, n).0.entities[..|e.entities|] == e.entities
    ensures forall k | |e.entities| <= k < |e.entities| + n :: AddEntities(e, n).0.entities[k] == EmptyEntity()
    ensures Valid(e) ==> Valid(AddEntities(e, n).0)
    decreases n
  {
    if n > 0 {
      var e1 := AddEntity(e).0;
      AddEntitiesConsecutive(e1, n - 1);
      var r := AddEntities(e, n);
      var rest := AddEntities(e1, n - 1);
      assert r.1 == [e.nextEntity] + rest.1;
      assert r.0 == rest.0;
      assert r.0.entities[..|e.entities|] == rest.0.entities[..|e1.entities|][..|e.entities|];
      forall k | |e.entities| <= k < |e.entities| + n
        ensures r.0.entities[k] == EmptyEntity()
      {
        if k == |e.entities| {
          assert r.0.entities[k] == rest.0.entities[..|e1.entities|][k];
        }
      }
    }
  }
}
