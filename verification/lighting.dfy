/** The light-volume geometry of Lighting.cpp: a unit cube of eight
    integer-valued positions and a table of 36 indices (twelve triangles),
    the three buffers built from them, and the calls `DrawPointLight`
    issues for one light. */
module Lighting {
  import opened Common
  import opened Context

  /** An `XMFLOAT3` whose components are all integers (here all ±1). */
  datatype Vec3 = Vec3(x: int, y: int, z: int)

  /** The `positions` table of the constructor. */
  function CubePositions(): seq<Vec3> {
    [Vec3(-1, -1, 1), Vec3(-1, -1, -1), Vec3(1, -1, -1), Vec3(1, -1, 1),
     Vec3(-1, 1, -1), Vec3(-1, 1, 1), Vec3(1, 1, 1), Vec3(1, 1, -1)]
  }

  /** The `indices` table of the constructor. */
  function CubeIndices(): seq<nat> {
    [0, 1, 2, 0, 2, 3,
     4, 5, 6, 4, 6, 7,
     0, 5, 4, 0, 4, 1,
     1, 4, 7, 1, 7, 2,
     2, 7, 6, 2, 6, 3,
     3, 6, 5, 3, 5, 0]
  }

  /** `sphereMesh.numindices`, set by hand to 36. */
  const NumIndices: nat := 36

  /** `sizeof(XMFLOAT3)`, `sizeof(uint32_t)` and `sizeof(Light)` (Lighting.h
      declares two `XMFLOAT3`s and two `float`s: eight 4-byte floats). */
  const Float3Bytes: nat := 12
  const Uint32Bytes: nat := 4
  const LightBytes: nat := 32

  /** The `ByteWidth` of the vertex, index and constant buffers. */
  function VertexBufferBytes(): nat { Float3Bytes * |CubePositions()| }
  function IndexBufferBytes(): nat { Uint32Bytes * NumIndices }
  function ConstantBufferBytes(): nat { LightBytes }

  /** The hand-set index count matches the table; the buffers hold the
      eight positions, the 36 indices and one light. */
  lemma BufferSizes()
    ensures |CubePositions()| == 8 && |CubeIndices()| == NumIndices && NumIndices == 3 * 12
    ensures VertexBufferBytes() == 12 * 8 && IndexBufferBytes() == 4 * 36 && ConstantBufferBytes() == 32
  {
  }

  predicate Unit(v: int) { v == 1 || v == -1 }

  /** Every coordinate of every position is ±1 and no position repeats:
      the eight positions are the eight corners of the cube. */
  lemma CornersOfCube()
    ensures forall i | 0 <= i < |CubePositions()| ::
              Unit(CubePositions()[i].x) && Unit(CubePositions()[i].y) && Unit(CubePositions()[i].z)
    ensures Distinct(CubePositions())
    ensures forall v: Vec3 | Unit(v.x) && Unit(v.y) && Unit(v.z) :: v in CubePositions()
  {
    var p := CubePositions();
    forall v: Vec3 | Unit(v.x) && Unit(v.y) && Unit(v.z)
      ensures v in p
    {
      if v.y == -1 {
        if v.x == -1 { assert v == p[0] || v == p[1]; }
        else { assert v == p[2] || v == p[3]; }
      } else {
        if v.x == -1 { assert v == p[4] || v == p[5]; }
        else { assert v == p[6] || v == p[7]; }
      }
    }
  }

  /** Vertex `k` (0, 1 or 2) of triangle `t`. */
  function Corner(t: nat, k: nat): Vec3
    requires t < 12 && k < 3
  {
    CubePositions()[CubeIndices()[3 * t + k]]
  }

  /** Every index addresses one of the eight positions, and every position
      is used by some triangle. */
  lemma IndicesInRangeAndCovering()
    ensures forall i | 0 <= i < |CubeIndices()| :: CubeIndices()[i] < |CubePositions()|
    ensures forall v | 0 <= v < |CubePositions()| :: v in CubeIndices()
  {
    var ix := CubeIndices();
    forall v | 0 <= v < 8
      ensures v in ix
    {
      var at := if v < 3 then v else if v == 3 then 5 else if v < 6 then v + 2 else if v == 6 then 8 else 11;
      assert ix[at] == v;
    }
  }

  /** The three vertices lie on one face of the cube: they agree on one
      coordinate, and that coordinate is ±1. */
  predicate OnOneFace(a: Vec3, b: Vec3, c: Vec3) {
    (a.x == b.x == c.x && Unit(a.x)) || (a.y == b.y == c.y && Unit(a.y)) || (a.z == b.z == c.z && Unit(a.z))
  }

  /** No triangle repeats a vertex (so none is degenerate) and every
      triangle lies on one face of the cube. */
  lemma TrianglesOnFaces()
    ensures forall t | 0 <= t < 12 ::
              CubeIndices()[3 * t] != CubeIndices()[3 * t + 1] && CubeIndices()[3 * t + 1] != CubeIndices()[3 * t + 2]
              && CubeIndices()[3 * t] != CubeIndices()[3 * t + 2]
    ensures forall t | 0 <= t < 12 :: OnOneFace(Corner(t, 0), Corner(t, 1), Corner(t, 2))
  {
    forall t | 0 <= t < 12
      ensures CubeIndices()[3 * t] != CubeIndices()[3 * t + 1] && CubeIndices()[3 * t + 1] != CubeIndices()[3 * t + 2]
              && CubeIndices()[3 * t] != CubeIndices()[3 * t + 2]
      ensures OnOneFace(Corner(t, 0), Corner(t, 1), Corner(t, 2))
    {
      if t < 6 { FirstSixGood(t); } else { LastSixGood(t); }
    }
  }

  lemma FirstSixGood(t: nat)
    requires t < 6
    ensures Good(t)
  {
    if t == 0 { assert Good(0); } else if t == 1 { assert Good(1); } else if t == 2 { assert Good(2); }
    else if t == 3 { assert Good(3); } else if t == 4 { assert Good(4); } else { assert Good(5); }
  }

  lemma LastSixGood(t: nat)
    requires 6 <= t < 12
    ensures Good(t)
  {
    if t == 6 { assert Good(6); } else if t == 7 { assert Good(7); } else if t == 8 { assert Good(8); }
    else if t == 9 { assert Good(9); } else if t == 10 { assert Good(10); } else { assert Good(11); }
  }

  /** The three facts of `TrianglesOnFaces` for triangle `t`. */
  predicate Good(t: nat)
    requires t < 12
  {
    CubeIndices()[3 * t] != CubeIndices()[3 * t + 1] && CubeIndices()[3 * t + 1] != CubeIndices()[3 * t + 2]
    && CubeIndices()[3 * t] != CubeIndices()[3 * t + 2]
    && OnOneFace(Corner(t, 0), Corner(t, 1), Corner(t, 2))
  }

  /** The light-volume objects: `sphereMesh` and `lightConstantBuffer`. */
  datatype Volume = Volume(vBuffer: Handle, iBuffer: Handle, numIndices: nat, constantBuffer: Handle)

  /** The `Lighting` constructor: three `CreateBuffer` calls whose results
      are not checked. */
  function Construct(dev: Device): (r: (Volume, Device))
    ensures r.1 == Device(dev.issued + 3, dev.failing)
    ensures r.0.numIndices == |CubeIndices()|
    ensures r.0.vBuffer == (if dev.issued in dev.failing then Null else Obj(dev.issued))
    ensures r.0.iBuffer == (if dev.issued + 1 in dev.failing then Null else Obj(dev.issued + 1))
    ensures r.0.constantBuffer == (if dev.issued + 2 in dev.failing then Null else Obj(dev.issued + 2))
  {
    var (d1, vb) := dev.CreateUnchecked();
    var (d2, ib) := d1.CreateUnchecked();
    var (d3, cb) := d2.CreateUnchecked();
    (Volume(vb, ib, NumIndices, cb), d3)
  }

  /** The destructor of `sphereMesh` calls `Release` through a null
      pointer, a crash, when either of its buffers is null. */
  predicate DestroyCrashes(v: Volume) {
    v.vBuffer == Null || v.iBuffer == Null
  }

  /** `delete lighting`: `Lighting` has no destructor of its own, so only
      its member `sphereMesh` releases anything, both buffers without a
      check; `lightConstantBuffer` is never released. */
  function Destroy(v: Volume): (released: seq<Handle>)
    ensures |released| == 2 && v.vBuffer in released && v.iBuffer in released
    ensures Null in released <==> DestroyCrashes(v)
    ensures v.constantBuffer != v.vBuffer && v.constantBuffer != v.iBuffer ==> v.constantBuffer !in released
  {
    [v.vBuffer, v.iBuffer]
  }

  /** For a freshly built volume, deleting it crashes exactly when one of
      the first two creations failed, and the constant buffer, when
      created, is never released. */
  lemma ConstructedVolumeTeardown(dev: Device)
    ensures var v := Construct(dev).0;
            DestroyCrashes(v) <==> !NoneFail(dev.failing, dev.issued, dev.issued + 2)
    ensures var v := Construct(dev).0;
            v.constantBuffer != Null ==> v.constantBuffer !in Destroy(v)
  {
  }

  /** `DrawPointLight`: upload the light, bind the constant buffer to slot 1
      of both stages, bind the cube's buffers and draw its indices. */
  function DrawPointLight(v: Volume, light: nat): seq<Call> {
    [Upload(v.constantBuffer, LightRecord(light)),
     SetVSConstantBuffers(1, [v.constantBuffer]),
     SetPSConstantBuffers(1, [v.constantBuffer]),
     SetVertexBuffer(v.vBuffer, Float3Bytes, 0),
     SetIndexBuffer(v.iBuffer),
     DrawIndexed(v.numIndices, 0, 0)]
  }

  /** The state a light's draw is issued with: the light is in the constant
      buffer, which is bound at slot 1 of both stages, and the cube's
      buffers are bound with a 12-byte stride. */
  predicate LightBound(b: Bindings, v: Volume, light: nat) {
    v.constantBuffer in b.uploads && b.uploads[v.constantBuffer] == LightRecord(light)
    && Slot(b.vsConstants, 1) == v.constantBuffer && Slot(b.psConstants, 1) == v.constantBuffer
    && b.vertexBuffer == v.vBuffer && b.vertexStride == Float3Bytes && b.vertexOffset == 0
    && b.indexBuffer == v.iBuffer
  }

  /** The context after one light: the light uploaded, the constant
      buffer at slot 1 of both stages, the cube's buffers bound, one draw
      issued with that state. */
  function AfterLight(c: Ctx, v: Volume, light: nat): Ctx {
    var b := c.state.(uploads := c.state.uploads[v.constantBuffer := LightRecord(light)],
                      vsConstants := SetRange(c.state.vsConstants, 1, [v.constantBuffer]),
                      psConstants := SetRange(c.state.psConstants, 1, [v.constantBuffer]),
                      vertexBuffer := v.vBuffer, vertexStride := Float3Bytes, vertexOffset := 0,
                      indexBuffer := v.iBuffer);
    Ctx(b, c.draws + [Draw(b, v.numIndices, 0, 0)], c.clears)
  }

  /** The first three calls of `DrawPointLight`: the upload and the two
      constant-buffer bindings. */
  function LightCalls(v: Volume, light: nat): seq<Call> {
    [Upload(v.constantBuffer, LightRecord(light)), SetVSConstantBuffers(1, [v.constantBuffer]),
     SetPSConstantBuffers(1, [v.constantBuffer])]
  }

  /** The last three calls: the cube's buffers and the draw. */
  function CubeCalls(v: Volume): seq<Call> {
    [SetVertexBuffer(v.vBuffer, Float3Bytes, 0), SetIndexBuffer(v.iBuffer), DrawIndexed(v.numIndices, 0, 0)]
  }

  lemma ExecLightCalls(c: Ctx, v: Volume, light: nat)
    ensures Exec(c, LightCalls(v, light)) ==
            c.(state := c.state.(uploads := c.state.uploads[v.constantBuffer := LightRecord(light)],
                                 vsConstants := SetRange(c.state.vsConstants, 1, [v.constantBuffer]),
                                 psConstants := SetRange(c.state.psConstants, 1, [v.constantBuffer])))
  {
    var x0, x1, x2 := Upload(v.constantBuffer, LightRecord(light)), SetVSConstantBuffers(1, [v.constantBuffer]),
                      SetPSConstantBuffers(1, [v.constantBuffer]);
    assert LightCalls(v, light) == [x0, x1, x2];
    ExecThree(c, x0, x1, x2);
    StepUpload(c, v.constantBuffer, LightRecord(light));
    var c1 := Step(c, x0);
    StepConstants(c1, 1, [v.constantBuffer]);
    StepConstants(Step(c1, x1), 1, [v.constantBuffer]);
  }

  /** The bindings after `CubeCalls`. */
  function CubeBound(b: Bindings, v: Volume): Bindings {
    b.(vertexBuffer := v.vBuffer, vertexStride := Float3Bytes, vertexOffset := 0, indexBuffer := v.iBuffer)
  }

  lemma ExecCubeCalls(c: Ctx, v: Volume)
    ensures Exec(c, CubeCalls(v)) ==
            Ctx(CubeBound(c.state, v), c.draws + [Draw(CubeBound(c.state, v), v.numIndices, 0, 0)], c.clears)
  {
    ExecBuffersAndDraw(c, v.vBuffer, Float3Bytes, 0, v.iBuffer, v.numIndices);
  }

  lemma ExecDrawPointLight(c: Ctx, v: Volume, light: nat)
    ensures Exec(c, DrawPointLight(v, light)) == AfterLight(c, v, light)
  {
    assert DrawPointLight(v, light) == LightCalls(v, light) + CubeCalls(v);
    ExecAppend(c, LightCalls(v, light), CubeCalls(v));
    ExecLightCalls(c, v, light);
    ExecCubeCalls(Exec(c, LightCalls(v, light)), v);
  }

  /** One light adds exactly one draw of all the cube's indices, issued
      with the light bound; pipeline state, render targets, shader
      resources and samplers are left as they were. */
  lemma DrawPointLightEffect(c: Ctx, v: Volume, light: nat)
    ensures |Exec(c, DrawPointLight(v, light)).draws| == |c.draws| + 1
    ensures Exec(c, DrawPointLight(v, light)).draws[..|c.draws|] == c.draws
    ensures Exec(c, DrawPointLight(v, light)).draws[|c.draws|].indexCount == v.numIndices
    ensures Exec(c, DrawPointLight(v, light)).draws[|c.draws|].startIndex == 0
    ensures Exec(c, DrawPointLight(v, light)).draws[|c.draws|].baseVertex == 0
    ensures LightBound(Exec(c, DrawPointLight(v, light)).draws[|c.draws|].at, v, light)
    ensures Exec(c, DrawPointLight(v, light)).draws[|c.draws|].at == Exec(c, DrawPointLight(v, light)).state
    ensures Exec(c, DrawPointLight(v, light)).state.pipe == c.state.pipe
    ensures Exec(c, DrawPointLight(v, light)).state.renderTargets == c.state.renderTargets
    ensures Exec(c, DrawPointLight(v, light)).state.depthView == c.state.depthView
    ensures Exec(c, DrawPointLight(v, light)).state.psResources == c.state.psResources
    ensures Exec(c, DrawPointLight(v, light)).state.psSamplers == c.state.psSamplers
    ensures Exec(c, DrawPointLight(v, light)).clears == c.clears
  {
    ExecDrawPointLight(c, v, light);
    var e := AfterLight(c, v, light);
    assert Slot(e.state.vsConstants, 1) == v.constantBuffer;
    assert Slot(e.state.psConstants, 1) == v.constantBuffer;
  }
}
