/** The entity allocator and component records of the ECS as declared in
    ECS.h: one optional component per entity in each of two parallel
    arrays (`lights` and `movesInCircle`), plus the material records that
    the loader fills. Component payloads are opaque (`L`, `M`): their
    fields are floating-point data outside this model. */
module EcsHeader {
  import opened Common

  /** `ECS::nextEntity` (a C++ `int`) and the two component arrays. */
  datatype Ecs<L, M> = Ecs(nextEntity: int, lights: seq<Option<L>>, movesInCircle: seq<Option<M>>)

  /** A default-constructed ECS. */
  function Fresh<L, M>(): Ecs<L, M> {
    Ecs(0, [], [])
  }

  /** Both component arrays hold exactly one slot per handed-out id. */
  predicate Valid<L, M>(e: Ecs<L, M>) {
    e.nextEntity >= 0 && |e.lights| == e.nextEntity && |e.movesInCircle| == e.nextEntity
  }

  /** `addEntity`: an empty slot is appended to each array, the counter is
      returned and then incremented. Earlier slots are untouched. */
  function AddEntity<L, M>(e: Ecs<L, M>): (r: (Ecs<L, M>, int))
    ensures r.1 == e.nextEntity && r.0.nextEntity == r.1 + 1
    ensures |r.0.lights| == |e.lights| + 1 && r.0.lights[..|e.lights|] == e.lights && r.0.lights[|e.lights|].None?
    ensures |r.0.movesInCircle| == |e.movesInCircle| + 1 && r.0.movesInCircle[..|e.movesInCircle|] == e.movesInCircle
    ensures r.0.movesInCircle[|e.movesInCircle|].None?
    ensures Valid(e) ==> Valid(r.0)
  {
    (Ecs(e.nextEntity + 1, e.lights + [None], e.movesInCircle + [None]), e.nextEntity)
  }

  /** `n` consecutive `addEntity` calls: the final ECS and the ids returned. */
  function AddEntities<L, M>(e: Ecs<L, M>, n: nat): (r: (Ecs<L, M>, seq<int>))
    ensures |r.1| == n
    decreases n
  {
    if n == 0 then (e, [])
    else
      var (e1, id) := AddEntity(e);
      var (e2, ids) := AddEntities(e1, n - 1);
      (e2, [id] + ids)
  }

  /** `after` is `before` followed by `n` empty slots. */
  ghost predicate GrowsByEmpty<T>(before: seq<Option<T>>, after: seq<Option<T>>, n: nat) {
    |after| == |before| + n && after[..|before|] == before
    && forall k | |before| <= k < |after| :: after[k].None?
  }

  /** One empty slot and then `n - 1` more are `n` empty slots. */
  lemma GrowsByEmptyCons<T>(a: seq<Option<T>>, b: seq<Option<T>>, c: seq<Option<T>>, n: nat)
    requires 0 < n && b == a + [None] && GrowsByEmpty(b, c, n - 1)
    ensures GrowsByEmpty(a, c, n)
  {
    assert c[..|a|] == c[..|b|][..|a|];
    assert c[|a|] == c[..|b|][|a|];
  }

  /** The ids of `n` calls are the consecutive integers starting at the
      counter, so they are strictly increasing and never repeat; the arrays
      grow by exactly `n` empty slots and the invariant is kept. */
  lemma {:induction false} AddEntitiesConsecutive<L, M>(e: Ecs<L, M>, n: nat)
    ensures forall i | 0 <= i < n :: AddEntities(e, n).1[i] == e.nextEntity + i
    ensures AddEntities(e, n).0.nextEntity == e.nextEntity + n
    ensures GrowsByEmpty(e.lights, AddEntities(e, n).0.lights, n)
    ensures GrowsByEmpty(e.movesInCircle, AddEntities(e, n).0.movesInCircle, n)
    ensures Valid(e) ==> Valid(AddEntities(e, n).0)
    decreases n
  {
    if n > 0 {
      var e1 := AddEntity(e).0;
      AddEntitiesConsecutive(e1, n - 1);
      var r := AddEntities(e, n);
      var rest := AddEntities(e1, n - 1);
      assert r.1 == [e.nextEntity] + rest.1;
      assert r.0 == rest.0;
      GrowsByEmptyCons(e.lights, e1.lights, r.0.lights, n);
      GrowsByEmptyCons(e.movesInCircle, e1.movesInCircle, r.0.movesInCircle, n);
    }
  }

  /** From a fresh ECS, `n` calls return 0 .. n-1 without repetition and
      leave `n` empty slots in each array. */
  lemma FreshIdsAreZeroToN<L, M>(n: nat)
    ensures forall i | 0 <= i < n :: AddEntities(Fresh<L, M>(), n).1[i] == i
    ensures Distinct(AddEntities(Fresh<L, M>(), n).1)
    ensures Valid(AddEntities(Fresh<L, M>(), n).0) && AddEntities(Fresh<L, M>(), n).0.nextEntity == n
    ensures forall k | 0 <= k < n :: AddEntities(Fresh<L, M>(), n).0.lights[k].None?
    ensures forall k | 0 <= k < n :: AddEntities(Fresh<L, M>(), n).0.movesInCircle[k].None?
  {
    AddEntitiesConsecutive(Fresh<L, M>(), n);
  }

  /** C++ `bool` to `int` conversion, as in the `int use... = false`
      initialisers. */
  function BoolToInt(b: bool): int {
    if b then 1 else 0
  }

  /** `MaterialCbuffer` of ECS.h: four integer flags, in GPU constant order. */
  datatype MaterialCbuffer = MaterialCbuffer(
    useDiffuseTexture: int,
    useNormalTexture: int,
    useAlphaCutoutTexture: int,
    useSpecularTexture: int)

  /** A default-constructed `MaterialCbuffer`: every flag initialised from
      `false`. */
  function DefaultCbuffer(): MaterialCbuffer {
    MaterialCbuffer(BoolToInt(false), BoolToInt(false), BoolToInt(false), BoolToInt(false))
  }

  /** The flags in declaration order (diffuse, normal, alpha cut-out, specular). */
  function Flags(m: MaterialCbuffer): (f: seq<int>)
    ensures |f| == 4
  {
    [m.useDiffuseTexture, m.useNormalTexture, m.useAlphaCutoutTexture, m.useSpecularTexture]
  }

  /** A default `MaterialCbuffer` has every use-flag equal to 0, so the
      shader samples no texture for it. */
  lemma DefaultCbufferAllClear()
    ensures forall i | 0 <= i < 4 :: Flags(DefaultCbuffer())[i] == 0
  {
  }

  /** `Material` of ECS.h. */
  datatype Material = Material(
    name: string,
    diffuseTexture: string,
    normalTexture: string,
    alphaCutoutTexture: string,
    specularTexture: string,
    settings: MaterialCbuffer)

  /** A default-constructed `Material`: empty strings, default flags. */
  function DefaultMaterial(): Material {
    Material("", "", "", "", "", DefaultCbuffer())
  }
}
