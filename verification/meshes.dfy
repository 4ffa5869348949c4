/** Mesh loading: `processIndices` (the same in Application.cpp and
    main.cpp), the per-mesh buffer creation of `loadModel`, and the
    Application.cpp mesh loop that also creates one entity per mesh.
    Vertex attributes are floating-point data and are not modelled; a mesh
    contributes its material index, its vertex count and its faces. */
module Meshes {
  import opened Common
  import EcsRecords

  /** One triangulated `aiFace`: its three vertex indices (`uint32_t`). */
  datatype Face = Face(i0: nat, i1: nat, i2: nat)

  /** Index `k` (0, 1 or 2) of a face, i.e. `mIndices[k]`. */
  function Corner(f: Face, k: nat): nat
    requires k < 3
  {
    if k == 0 then f.i0 else if k == 1 then f.i1 else f.i2
  }

  /** Reference definition of the flat index array: the faces' indices, face
      after face. */
  function Flatten(faces: seq<Face>): (r: seq<nat>)
    ensures |r| == 3 * |faces|
    decreases |faces|
  {
    if |faces| == 0 then [] else [faces[0].i0, faces[0].i1, faces[0].i2] + Flatten(faces[1..])
  }

  /** Entry `3f + k` of the flat array is index `k` of face `f`. */
  lemma {:induction false} FlattenAt(faces: seq<Face>, f: nat, k: nat)
    requires f < |faces| && k < 3
    ensures Flatten(faces)[3 * f + k] == Corner(faces[f], k)
    decreases |faces|
  {
    if f > 0 {
      FlattenAt(faces[1..], f - 1, k);
      assert Flatten(faces)[3 * f + k] == Flatten(faces[1..])[3 * (f - 1) + k];
    }
  }

  /** The inverse of `Flatten`: consecutive triples regrouped into faces. */
  function Regroup(indices: seq<nat>): (faces: seq<Face>)
    requires |indices| % 3 == 0
    ensures 3 * |faces| == |indices|
    decreases |indices|
  {
    if |indices| == 0 then [] else [Face(indices[0], indices[1], indices[2])] + Regroup(indices[3..])
  }

  /** Flattening loses nothing: regrouping the flat array gives back the
      faces. */
  lemma {:induction false} RegroupFlatten(faces: seq<Face>)
    ensures Regroup(Flatten(faces)) == faces
    decreases |faces|
  {
    if |faces| > 0 {
      var flat := Flatten(faces);
      assert flat[3..] == Flatten(faces[1..]);
      RegroupFlatten(faces[1..]);
      assert faces == [Face(flat[0], flat[1], flat[2])] + faces[1..];
    }
  }

  /** Entry `i` of a flat array is corner `i % 3` of face `i / 3`. */
  lemma SplitIndex(i: nat, n: nat)
    requires i < 3 * n
    ensures i / 3 < n && i % 3 < 3 && i == 3 * (i / 3) + i % 3
  {
  }

  /** Two flat arrays that agree entry by entry with the faces are equal to
      `Flatten`: the pointwise description determines the array. */
  lemma FlattenUnique(faces: seq<Face>, indices: seq<nat>)
    requires |indices| == 3 * |faces|
    requires forall f, k | 0 <= f < |faces| && 0 <= k < 3 :: indices[3 * f + k] == Corner(faces[f], k)
    ensures indices == Flatten(faces)
  {
    var flat := Flatten(faces);
    forall i | 0 <= i < |indices|
      ensures indices[i] == flat[i]
    {
      var f, k := i / 3, i % 3;
      SplitIndex(i, |faces|);
      FlattenAt(faces, f, k);
    }
  }

  /** `processIndices`: the destination vector is pre-sized to three entries
      per face (zero-filled) and written through a running `index`; face
      `f`'s indices land at `3f`, `3f + 1` and `3f + 2`. */
  method ProcessIndices(faces: seq<Face>) returns (indices: seq<nat>)
    ensures |indices| == 3 * |faces|
    ensures forall f, k | 0 <= f < |faces| && 0 <= k < 3 :: indices[3 * f + k] == Corner(faces[f], k)
  {
    indices := seq(3 * |faces|, _ => 0);
    var face := 0;
    var index := 0;
    while face < |faces|
      invariant 0 <= face <= |faces| && index == 3 * face
      invariant |indices| == 3 * |faces|
      invariant forall f, k | 0 <= f < face && 0 <= k < 3 :: indices[3 * f + k] == Corner(faces[f], k)
    {
      indices := indices[index := faces[face].i0];
      index := index + 1;
      indices := indices[index := faces[face].i1];
      index := index + 1;
      indices := indices[index := faces[face].i2];
      index := index + 1;
      face := face + 1;
    }
  }

  /** `processIndices` computes the flat array, and the faces can be read
      back from it. */
  method ProcessIndicesFlattens(faces: seq<Face>) returns (indices: seq<nat>)
    ensures indices == Flatten(faces)
    ensures Regroup(indices) == faces
  {
    indices := ProcessIndices(faces);
    FlattenUnique(faces, indices);
    RegroupFlatten(faces);
  }

  const Uint32Modulus: nat := 0x1_0000_0000

  /** `data->mNumFaces * 3u`: an unsigned 32-bit product, so it wraps. */
  function IndexCount(numFaces: nat): (n: nat)
    requires numFaces < Uint32Modulus
    ensures n < Uint32Modulus
    ensures 3 * numFaces < Uint32Modulus ==> n == 3 * numFaces
  {
    (3 * numFaces) % Uint32Modulus
  }

  /** The part of an `aiMesh` the loader uses. */
  datatype MeshData = MeshData(materialIndex: nat, numVertices: nat, faces: seq<Face>)

  /** `Mesh` (ECS.h, main.cpp; Application.cpp calls the material field
      `defaultMaterialId`). */
  datatype Mesh = Mesh(materialId: nat, numVertices: nat, vertices: Handle, indexCount: nat, indices: Handle)

  /** The mesh a successful load builds: the vertex buffer is the first
      creation, the index buffer the second. */
  function Built(data: MeshData, base: nat): Mesh
    requires |data.faces| < Uint32Modulus
  {
    Mesh(data.materialIndex, data.numVertices, Obj(base), IndexCount(|data.faces|), Obj(base + 1))
  }

  /** The crash a failed buffer creation leads to in the Application.cpp
      loop: `SetPrivateData` called through the null buffer pointer. */
  const VertexBufferCrash := "null pointer: mesh.vertices->SetPrivateData"
  const IndexBufferCrash := "null pointer: mesh.indices->SetPrivateData"

  /** One mesh of the Application.cpp loop. Each buffer is given a debug
      name through `SetPrivateData` right after its creation, which
      dereferences the buffer pointer, so a failed creation of either buffer
      crashes there; the model ends the load with an error naming the
      crash. */
  function LoadMesh(dev: Device, data: MeshData): (r: Result<(Mesh, Device)>)
    requires |data.faces| < Uint32Modulus
    ensures r.Ok? <==> NoneFail(dev.failing, dev.issued, dev.issued + 2)
    ensures r.Ok? ==> r.value == (Built(data, dev.issued), Device(dev.issued + 2, dev.failing))
    ensures r.Err? ==> (r.message == VertexBufferCrash <==> dev.issued in dev.failing)
    ensures r.Err? ==> (r.message == IndexBufferCrash <==> dev.issued !in dev.failing)
  {
    var (d1, vb) := dev.Create();
    if vb.None? then Err(VertexBufferCrash)
    else
      var (d2, ib) := d1.Create();
      if ib.None? then Err(IndexBufferCrash)
      else Ok((Mesh(data.materialIndex, data.numVertices, vb.value, IndexCount(|data.faces|), ib.value), d2))
  }

  /** The mesh loop of Application.cpp `loadModel`: each mesh is pushed onto
      `modelCache`, then an entity is added whose render model names that
      cache entry and the mesh's material, and whose position is set. */
  method LoadMeshes(ecs: EcsRecords.Ecs, cache: seq<Mesh>, dev: Device, datas: seq<MeshData>)
    returns (r: Result<(EcsRecords.Ecs, seq<Mesh>, Device)>)
    requires EcsRecords.Valid(ecs)
    requires forall i | 0 <= i < |datas| :: |datas[i].faces| < Uint32Modulus
    ensures r.Ok? <==> NoneFail(dev.failing, dev.issued, dev.issued + 2 * |datas|)
    ensures r.Ok? ==> EcsRecords.Valid(r.value.0)
    ensures r.Ok? ==> |r.value.1| == |cache| + |datas| && r.value.1[..|cache|] == cache
    ensures r.Ok? ==> forall k | 0 <= k < |datas| :: r.value.1[|cache| + k] == Built(datas[k], dev.issued + 2 * k)
    ensures r.Ok? ==> |r.value.0.entities| == |ecs.entities| + |datas|
    ensures r.Ok? ==> forall e | 0 <= e < |ecs.entities| :: r.value.0.entities[e] == ecs.entities[e]
    ensures r.Ok? ==> forall k | 0 <= k < |datas| ::
              r.value.0.entities[|ecs.entities| + k] ==
              EcsRecords.Entity(Some(EcsRecords.RenderModel(|cache| + k, datas[k].materialIndex)), Some(EcsRecords.Position))
  {
    var e := ecs;
    var meshes := cache;
    var d := dev;
    var n := 0;
    while n < |datas|
      invariant 0 <= n <= |datas|
      invariant d == Device(dev.issued + 2 * n, dev.failing)
      invariant NoneFail(dev.failing, dev.issued, d.issued)
      invariant EcsRecords.Valid(e)
      invariant |meshes| == |cache| + n && meshes[..|cache|] == cache
      invariant forall k | 0 <= k < n :: meshes[|cache| + k] == Built(datas[k], dev.issued + 2 * k)
      invariant |e.entities| == |ecs.entities| + n
      invariant forall i | 0 <= i < |ecs.entities| :: e.entities[i] == ecs.entities[i]
      invariant forall k | 0 <= k < n ::
                  e.entities[|ecs.entities| + k] ==
                  EcsRecords.Entity(Some(EcsRecords.RenderModel(|cache| + k, datas[k].materialIndex)), Some(EcsRecords.Position))
    {
      var step := LoadMesh(d, datas[n]);
      if step.Err? {
        NoneFailSplit(dev.failing, dev.issued, d.issued, dev.issued + 2 * |datas|);
        NoneFailSplit(dev.failing, d.issued, d.issued + 2, dev.issued + 2 * |datas|);
        return Err(step.message);
      }
      NoneFailSplit(dev.failing, dev.issued, d.issued, d.issued + 2);
      meshes := meshes + [step.value.0];
      d := step.value.1;
      var (e1, id) := EcsRecords.AddEntity(e);
      e := EcsRecords.Update(e1, id, EcsRecords.Entity(Some(EcsRecords.RenderModel(|meshes| - 1, step.value.0.materialId)),
                                                       Some(EcsRecords.Position)));
      n := n + 1;
    }
    return Ok((e, meshes, d));
  }

  /** One mesh of the main.cpp loop as written. The buffers get no debug
      name, and the two debug-build checks both test the vertex buffer's
      result (`assert(SUCCEEDED(vbHR))` twice), so a failed index-buffer
      creation goes unnoticed and the mesh keeps a null index buffer. */
  function LoadMainMeshAsWritten(dev: Device, data: MeshData): (r: Result<(Mesh, Device)>)
    requires |data.faces| < Uint32Modulus
    ensures r.Ok? <==> dev.issued !in dev.failing
  {
    var (d1, vb) := dev.CreateUnchecked();
    if vb == Null then Err("assertion failed: SUCCEEDED(vbHR)")
    else
      var (d2, ib) := d1.CreateUnchecked();
      Ok((Mesh(data.materialIndex, data.numVertices, vb, IndexCount(|data.faces|), ib), d2))
  }

  /** The discrepancy: with the vertex buffer created and the index buffer
      failing, the as-written load succeeds with a null index buffer. */
  lemma MainMeshKeepsNullIndexBuffer(data: MeshData)
    requires |data.faces| < Uint32Modulus
    ensures var r := LoadMainMeshAsWritten(Device(0, {1}), data);
            r.Ok? && r.value.0.indices == Null && r.value.0.vertices == Obj(0)
  {
  }

  /** One mesh of the main.cpp loop with the second check testing the
      index buffer's result, as evidently intended. */
  function LoadMainMesh(dev: Device, data: MeshData): (r: Result<(Mesh, Device)>)
    requires |data.faces| < Uint32Modulus
    ensures r.Ok? <==> NoneFail(dev.failing, dev.issued, dev.issued + 2)
    ensures r.Ok? ==> r.value.0.vertices != Null && r.value.0.indices != Null
    ensures r.Ok? ==> r.value == (Built(data, dev.issued), Device(dev.issued + 2, dev.failing))
  {
    var (d1, vb) := dev.CreateUnchecked();
    if vb == Null then Err("assertion failed: SUCCEEDED(vbHR)")
    else
      var (d2, ib) := d1.CreateUnchecked();
      if ib == Null then Err("assertion failed: SUCCEEDED(ibHR)")
      else Ok((Mesh(data.materialIndex, data.numVertices, vb, IndexCount(|data.faces|), ib), d2))
  }

  /** The two agree whenever the index buffer is created, and then only. */
  lemma MainMeshAgreesUnlessIndexBufferFails(dev: Device, data: MeshData)
    requires |data.faces| < Uint32Modulus
    ensures LoadMainMesh(dev, data) == LoadMainMeshAsWritten(dev, data) <==>
            dev.issued in dev.failing || dev.issued + 1 !in dev.failing
  {
  }
}
