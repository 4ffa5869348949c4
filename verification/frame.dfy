/** `drawFrame` of main.cpp as the list of context calls it issues: the
    geometry pass into the G-buffer (one indexed draw per mesh) and the
    light-accumulation pass into the back buffer (one cube draw per light).
    The lemmas replay that list on an arbitrary context and state what
    every draw is issued with. ImGui and `Present` are not modelled. */
module Frame {
  import opened Common
  import opened Context
  import Pipeline
  import GBuffer
  import Lighting
  import Meshes
  import opened Materials
  import opened MainMaterials

  /** `sizeof(Vertex)`: four `XMFLOAT3` and one `XMFLOAT2`. */
  const VertexBytes: nat := 56

  /** Everything `drawFrame` reads. */
  datatype Scene = Scene(
    deferred: Pipeline.Pipeline,
    lighting: Pipeline.Pipeline,
    gbuffer: GBuffer.MainGBuffer,
    depthView: Handle,
    perFrame: Handle,
    perMaterial: Handle,
    meshes: seq<Meshes.Mesh>,
    materials: seq<MainMaterial>,
    textures: map<string, Texture>,
    gbufferSampler: Handle,
    volume: Lighting.Volume,
    lights: seq<nat>)

  function Rtvs(slots: seq<GBuffer.Slot>): (r: seq<Handle>)
    ensures |r| == |slots| && forall i | 0 <= i < |slots| :: r[i] == slots[i].rtv
  {
    seq(|slots|, i requires 0 <= i < |slots| => slots[i].rtv)
  }

  function Srvs(slots: seq<GBuffer.Slot>): (r: seq<Handle>)
    ensures |r| == |slots| && forall i | 0 <= i < |slots| :: r[i] == slots[i].srv
  {
    seq(|slots|, i requires 0 <= i < |slots| => slots[i].srv)
  }

  /** What the frame relies on: every mesh names a loaded material, and
      every enabled texture of a material is in the cache (`drawFrame`
      indexes both without checking). */
  predicate Drawable(s: Scene) {
    (forall i | 0 <= i < |s.meshes| :: s.meshes[i].materialId < |s.materials|)
    && forall i | 0 <= i < |s.materials| :: MainConsistent(s.materials[i], s.textures)
  }

  /** One `ClearRenderTargetView` per view, in order. */
  function ClearAll(views: seq<Handle>): (r: seq<Call>)
    ensures |r| == |views| && forall i | 0 <= i < |views| :: r[i] == ClearRenderTarget(views[i])
  {
    seq(|views|, i requires 0 <= i < |views| => ClearRenderTarget(views[i]))
  }

  lemma {:induction false} ExecClearAll(c: Ctx, views: seq<Handle>)
    ensures Exec(c, ClearAll(views)) == c.(clears := c.clears + views)
    decreases |views|
  {
    if |views| > 0 {
      ExecUnroll(c, ClearAll(views), 0);
      assert ClearAll(views)[1..] == ClearAll(views[1..]);
      ExecClearAll(Step(c, ClearRenderTarget(views[0])), views[1..]);
      assert c.clears + [views[0]] + views[1..] == c.clears + views;
    }
  }

  /** The start of the geometry pass: bind the deferred pipeline, upload
      the frame uniforms, clear every G-buffer target and the depth view,
      bind them, and bind the frame uniforms at slot 0 of both stages. */
  function Prologue(s: Scene): seq<Call> {
    var rtvs := Rtvs(s.gbuffer.slots);
    Pipeline.BindCalls(s.deferred) + [Upload(s.perFrame, FrameUniforms)] + ClearAll(rtvs)
    + [ClearDepthStencil(s.depthView), SetRenderTargets(rtvs, s.depthView),
       SetVSConstantBuffers(0, [s.perFrame]), SetPSConstantBuffers(0, [s.perFrame])]
  }

  /** The state every geometry draw needs: the deferred pipeline, the
      G-buffer targets with the depth view, the frame uniforms at slot 0. */
  predicate GeometryBound(b: Bindings, s: Scene) {
    b.pipe == Pipeline.Stage(s.deferred) && b.renderTargets == Rtvs(s.gbuffer.slots) && b.depthView == s.depthView
    && Slot(b.vsConstants, 0) == s.perFrame && Slot(b.psConstants, 0) == s.perFrame
  }

  /** Binding the pipeline and uploading the frame uniforms. */
  function PrologueHead(s: Scene): seq<Call> {
    Pipeline.BindCalls(s.deferred) + [Upload(s.perFrame, FrameUniforms)]
  }

  /** The four calls after the clears. */
  function PrologueTail(s: Scene): seq<Call> {
    [ClearDepthStencil(s.depthView), SetRenderTargets(Rtvs(s.gbuffer.slots), s.depthView),
     SetVSConstantBuffers(0, [s.perFrame]), SetPSConstantBuffers(0, [s.perFrame])]
  }

  lemma ExecPrologueHead(c: Ctx, s: Scene)
    ensures Exec(c, PrologueHead(s)) ==
            c.(state := c.state.(pipe := Pipeline.Stage(s.deferred), uploads := c.state.uploads[s.perFrame := FrameUniforms]))
  {
    var a := Pipeline.BindCalls(s.deferred);
    ExecAppend(c, a, [Upload(s.perFrame, FrameUniforms)]);
    Pipeline.BindEffect(s.deferred, c);
    ExecOne(Exec(c, a), Upload(s.perFrame, FrameUniforms));
  }

  lemma ExecPrologueTail(c: Ctx, s: Scene)
    ensures var e := Exec(c, PrologueTail(s));
            e.state == c.state.(renderTargets := Rtvs(s.gbuffer.slots), depthView := s.depthView,
                                vsConstants := SetRange(c.state.vsConstants, 0, [s.perFrame]),
                                psConstants := SetRange(c.state.psConstants, 0, [s.perFrame]))
            && e.draws == c.draws && e.clears == c.clears + [s.depthView]
  {
    var t := PrologueTail(s);
    assert t == [t[0], t[1]] + [t[2], t[3]];
    ExecAppend(c, [t[0], t[1]], [t[2], t[3]]);
    ExecTwo(c, t[0], t[1]);
    ExecTwo(Exec(c, [t[0], t[1]]), t[2], t[3]);
  }

  lemma ExecPrologue(c: Ctx, s: Scene)
    ensures GeometryBound(Exec(c, Prologue(s)).state, s)
    ensures s.perFrame in Exec(c, Prologue(s)).state.uploads
    ensures Exec(c, Prologue(s)).draws == c.draws
    ensures Exec(c, Prologue(s)).clears == c.clears + Rtvs(s.gbuffer.slots) + [s.depthView]
  {
    var h, cl, t := PrologueHead(s), ClearAll(Rtvs(s.gbuffer.slots)), PrologueTail(s);
    assert Prologue(s) == h + (cl + t);
    ExecAppend(c, h, cl + t);
    ExecPrologueHead(c, s);
    var c1 := Exec(c, h);
    ExecAppend(c1, cl, t);
    ExecClearAll(c1, Rtvs(s.gbuffer.slots));
    var c2 := Exec(c1, cl);
    ExecPrologueTail(c2, s);
  }

  /** The sampler and view calls for one material texture at `slot`: an
      enabled texture binds its sampler and view, a disabled one binds a
      null view and leaves the sampler as it was. */
  function TextureCalls(slot: nat, flag: int, path: string, textures: map<string, Texture>): seq<Call>
    requires flag != 0 ==> path in textures
  {
    if flag != 0 then [SetPSSamplers(slot, [textures[path].sampler]), SetPSResources(slot, [textures[path].srv])]
    else [SetPSResources(slot, [Null])]
  }

  lemma ExecTextureCalls(c: Ctx, slot: nat, flag: int, path: string, textures: map<string, Texture>)
    requires flag != 0 ==> path in textures
    ensures var e := Exec(c, TextureCalls(slot, flag, path, textures));
            e.draws == c.draws && e.clears == c.clears
            && Slot(e.state.psResources, slot) == (if flag != 0 then textures[path].srv else Null)
            && (flag != 0 ==> Slot(e.state.psSamplers, slot) == textures[path].sampler)
            && (forall k: nat | k != slot :: Slot(e.state.psResources, k) == Slot(c.state.psResources, k))
            && (forall k: nat | k != slot :: Slot(e.state.psSamplers, k) == Slot(c.state.psSamplers, k))
            && e.state == c.state.(psResources := e.state.psResources, psSamplers := e.state.psSamplers)
  {
    var calls := TextureCalls(slot, flag, path, textures);
    if flag != 0 {
      ExecUnroll(c, calls, 0);
      ExecUnroll(Step(c, calls[0]), calls, 1);
      assert calls[2..] == [];
    } else {
      ExecOne(c, calls[0]);
    }
  }

  /** The material flags as uploaded: the two `int`s of the block. */
  function Flags(m: MainMaterial): seq<int> {
    [m.useDiffuseTexture, m.useNormalTexture]
  }

  /** The calls for one mesh. */
  function MeshCalls(s: Scene, mesh: Meshes.Mesh, m: MainMaterial): seq<Call>
    requires MainConsistent(m, s.textures)
  {
    TextureCalls(0, m.useDiffuseTexture, m.diffuseTexture, s.textures)
    + TextureCalls(1, m.useNormalTexture, m.normalTexture, s.textures)
    + MaterialCalls(s, m) + MeshDrawCalls(mesh)
  }

  /** What a mesh's draw is issued with: the geometry-pass state, the
      material's textures in slots 0 and 1 (null views when disabled; no
      view survives from an earlier mesh), its flags in the material
      buffer at slot 1, and the mesh's buffers, drawing all its indices. */
  predicate MeshDrawn(d: Draw, s: Scene, mesh: Meshes.Mesh, m: MainMaterial)
    requires MainConsistent(m, s.textures)
  {
    GeometryBound(d.at, s)
    && Slot(d.at.psResources, 0) == (if m.useDiffuseTexture != 0 then s.textures[m.diffuseTexture].srv else Null)
    && Slot(d.at.psResources, 1) == (if m.useNormalTexture != 0 then s.textures[m.normalTexture].srv else Null)
    && (m.useDiffuseTexture != 0 ==> Slot(d.at.psSamplers, 0) == s.textures[m.diffuseTexture].sampler)
    && (m.useNormalTexture != 0 ==> Slot(d.at.psSamplers, 1) == s.textures[m.normalTexture].sampler)
    && s.perMaterial in d.at.uploads && d.at.uploads[s.perMaterial] == MaterialFlags(Flags(m))
    && Slot(d.at.psConstants, 1) == s.perMaterial
    && d.at.vertexBuffer == mesh.vertices && d.at.vertexStride == VertexBytes && d.at.vertexOffset == 0
    && d.at.indexBuffer == mesh.indices
    && d.indexCount == mesh.indexCount && d.startIndex == 0 && d.baseVertex == 0
  }

  /** The material-buffer upload and binding. */
  function MaterialCalls(s: Scene, m: MainMaterial): seq<Call> {
    [Upload(s.perMaterial, MaterialFlags(Flags(m))), SetPSConstantBuffers(1, [s.perMaterial])]
  }

  /** The mesh's buffers and its draw. */
  function MeshDrawCalls(mesh: Meshes.Mesh): seq<Call> {
    [SetVertexBuffer(mesh.vertices, VertexBytes, 0), SetIndexBuffer(mesh.indices), DrawIndexed(mesh.indexCount, 0, 0)]
  }

  lemma ExecMaterialCalls(c: Ctx, s: Scene, m: MainMaterial)
    ensures Exec(c, MaterialCalls(s, m)) ==
            c.(state := c.state.(uploads := c.state.uploads[s.perMaterial := MaterialFlags(Flags(m))],
                                 psConstants := SetRange(c.state.psConstants, 1, [s.perMaterial])))
  {
    var x0, x1 := Upload(s.perMaterial, MaterialFlags(Flags(m))), SetPSConstantBuffers(1, [s.perMaterial]);
    ExecTwo(c, x0, x1);
    StepUpload(c, s.perMaterial, MaterialFlags(Flags(m)));
    StepConstants(Step(c, x0), 1, [s.perMaterial]);
  }

  lemma ExecMeshDrawCalls(c: Ctx, mesh: Meshes.Mesh)
    ensures var b := c.state.(vertexBuffer := mesh.vertices, vertexStride := VertexBytes, vertexOffset := 0,
                              indexBuffer := mesh.indices);
            Exec(c, MeshDrawCalls(mesh)) == Ctx(b, c.draws + [Draw(b, mesh.indexCount, 0, 0)], c.clears)
  {
    ExecBuffersAndDraw(c, mesh.vertices, VertexBytes, 0, mesh.indices, mesh.indexCount);
  }

  /** The material's two textures: what slots 0 and 1 hold afterwards,
      with nothing but the shader views and samplers changed. */
  lemma ExecMaterialTextures(c: Ctx, s: Scene, m: MainMaterial)
    requires MainConsistent(m, s.textures)
    ensures var e := Exec(c, TextureCalls(0, m.useDiffuseTexture, m.diffuseTexture, s.textures)
                             + TextureCalls(1, m.useNormalTexture, m.normalTexture, s.textures));
            e.draws == c.draws && e.clears == c.clears
            && Slot(e.state.psResources, 0) == (if m.useDiffuseTexture != 0 then s.textures[m.diffuseTexture].srv else Null)
            && Slot(e.state.psResources, 1) == (if m.useNormalTexture != 0 then s.textures[m.normalTexture].srv else Null)
            && (m.useDiffuseTexture != 0 ==> Slot(e.state.psSamplers, 0) == s.textures[m.diffuseTexture].sampler)
            && (m.useNormalTexture != 0 ==> Slot(e.state.psSamplers, 1) == s.textures[m.normalTexture].sampler)
            && e.state == c.state.(psResources := e.state.psResources, psSamplers := e.state.psSamplers)
  {
    var t0 := TextureCalls(0, m.useDiffuseTexture, m.diffuseTexture, s.textures);
    var t1 := TextureCalls(1, m.useNormalTexture, m.normalTexture, s.textures);
    ExecAppend(c, t0, t1);
    ExecTextureCalls(c, 0, m.useDiffuseTexture, m.diffuseTexture, s.textures);
    ExecTextureCalls(Exec(c, t0), 1, m.useNormalTexture, m.normalTexture, s.textures);
  }

  /** One mesh adds one draw, issued as `MeshDrawn` says, and leaves the
      geometry-pass state in place. */
  lemma ExecMeshCalls(c: Ctx, s: Scene, mesh: Meshes.Mesh, m: MainMaterial)
    requires MainConsistent(m, s.textures) && GeometryBound(c.state, s)
    ensures var e := Exec(c, MeshCalls(s, mesh, m));
            GeometryBound(e.state, s) && e.clears == c.clears
            && |e.draws| == |c.draws| + 1
            && (forall i | 0 <= i < |c.draws| :: e.draws[i] == c.draws[i])
            && MeshDrawn(e.draws[|c.draws|], s, mesh, m)
  {
    var t := TextureCalls(0, m.useDiffuseTexture, m.diffuseTexture, s.textures)
             + TextureCalls(1, m.useNormalTexture, m.normalTexture, s.textures);
    var mc, dc := MaterialCalls(s, m), MeshDrawCalls(mesh);
    assert MeshCalls(s, mesh, m) == t + (mc + dc);
    ExecAppend(c, t, mc + dc);
    ExecMaterialTextures(c, s, m);
    var c2 := Exec(c, t);
    ExecAppend(c2, mc, dc);
    ExecMaterialCalls(c2, s, m);
    var c3 := Exec(c2, mc);
    ExecMeshDrawCalls(c3, mesh);
    assert Slot(c3.state.psConstants, 0) == Slot(c2.state.psConstants, 0);
  }

  /** The calls for a run of meshes, each with its material. */
  function GeometryCalls(s: Scene, meshes: seq<Meshes.Mesh>): seq<Call>
    requires forall i | 0 <= i < |meshes| :: meshes[i].materialId < |s.materials|
    requires forall i | 0 <= i < |s.materials| :: MainConsistent(s.materials[i], s.textures)
    decreases |meshes|
  {
    if |meshes| == 0 then []
    else MeshCalls(s, meshes[0], s.materials[meshes[0].materialId]) + GeometryCalls(s, meshes[1..])
  }

  /** The geometry pass issues one draw per mesh, in mesh order, each as
      `MeshDrawn` says for that mesh and its material. */
  lemma {:induction false} ExecGeometry(c: Ctx, s: Scene, meshes: seq<Meshes.Mesh>)
    requires forall i | 0 <= i < |meshes| :: meshes[i].materialId < |s.materials|
    requires forall i | 0 <= i < |s.materials| :: MainConsistent(s.materials[i], s.textures)
    requires GeometryBound(c.state, s)
    ensures var e := Exec(c, GeometryCalls(s, meshes));
            GeometryBound(e.state, s) && e.clears == c.clears
            && |e.draws| == |c.draws| + |meshes|
            && (forall i | 0 <= i < |c.draws| :: e.draws[i] == c.draws[i])
            && MeshesDrawn(e.draws, |c.draws|, s, meshes)
    decreases |meshes|
  {
    if |meshes| > 0 {
      var m := s.materials[meshes[0].materialId];
      ExecGeometryCons(c, s, meshes);
      ExecMeshCalls(c, s, meshes[0], m);
      var c1 := Exec(c, MeshCalls(s, meshes[0], m));
      ExecGeometry(c1, s, meshes[1..]);
      var e := Exec(c1, GeometryCalls(s, meshes[1..]));
      assert e.draws[|c.draws|] == c1.draws[|c.draws|];
      MeshesDrawnCons(e.draws, |c.draws|, |c1.draws|, s, meshes);
    }
  }

  /** Playing the calls of a run of meshes is playing the first mesh's
      calls and then the rest's. */
  lemma ExecGeometryCons(c: Ctx, s: Scene, meshes: seq<Meshes.Mesh>)
    requires 0 < |meshes|
    requires forall i | 0 <= i < |meshes| :: meshes[i].materialId < |s.materials|
    requires forall i | 0 <= i < |s.materials| :: MainConsistent(s.materials[i], s.textures)
    ensures var m := s.materials[meshes[0].materialId];
            Exec(c, GeometryCalls(s, meshes)) == Exec(Exec(c, MeshCalls(s, meshes[0], m)), GeometryCalls(s, meshes[1..]))
  {
    ExecAppend(c, MeshCalls(s, meshes[0], s.materials[meshes[0].materialId]), GeometryCalls(s, meshes[1..]));
  }

  /** Draws `at` onwards are the draws of `meshes`, in mesh order, each as
      `MeshDrawn` says for that mesh and its material. */
  predicate MeshesDrawn(draws: seq<Draw>, at: nat, s: Scene, meshes: seq<Meshes.Mesh>)
    requires forall i | 0 <= i < |meshes| :: meshes[i].materialId < |s.materials|
    requires forall i | 0 <= i < |s.materials| :: MainConsistent(s.materials[i], s.textures)
  {
    at + |meshes| <= |draws|
    && forall i | 0 <= i < |meshes| :: MeshDrawn(draws[at + i], s, meshes[i], s.materials[meshes[i].materialId])
  }

  /** The draw for the first mesh followed by the draws for the rest are the
      draws for the whole run. */
  lemma MeshesDrawnCons(draws: seq<Draw>, at: nat, next: nat, s: Scene, meshes: seq<Meshes.Mesh>)
    requires 0 < |meshes| && next == at + 1 && at < |draws|
    requires forall i | 0 <= i < |meshes| :: meshes[i].materialId < |s.materials|
    requires forall i | 0 <= i < |s.materials| :: MainConsistent(s.materials[i], s.textures)
    requires MeshDrawn(draws[at], s, meshes[0], s.materials[meshes[0].materialId])
    requires MeshesDrawn(draws, next, s, meshes[1..])
    ensures MeshesDrawn(draws, at, s, meshes)
  {
    forall i | 0 < i < |meshes|
      ensures MeshDrawn(draws[at + i], s, meshes[i], s.materials[meshes[i].materialId])
    {
      assert meshes[i] == meshes[1..][i - 1] && at + i == next + (i - 1);
    }
  }

  /** The draws of a run of lights, one `DrawPointLight` each. */
  function LightsCalls(v: Lighting.Volume, lights: seq<nat>): seq<Call>
    decreases |lights|
  {
    if |lights| == 0 then [] else Lighting.DrawPointLight(v, lights[0]) + LightsCalls(v, lights[1..])
  }

  /** The state every light draw needs: the lighting pipeline, the back
      buffer as the only target with no depth view, the G-buffer views in
      slots 0 .. and the G-buffer sampler in slot 0. */
  predicate LightPassBound(b: Bindings, s: Scene, rt: Handle) {
    b.pipe == Pipeline.Stage(s.lighting) && b.renderTargets == [rt] && b.depthView == Null
    && (forall k | 0 <= k < |s.gbuffer.slots| :: Slot(b.psResources, k) == s.gbuffer.slots[k].srv)
    && Slot(b.psSamplers, 0) == s.gbufferSampler
  }

  /** What a light's draw is issued with. */
  predicate LightDrawn(d: Draw, s: Scene, rt: Handle, light: nat) {
    LightPassBound(d.at, s, rt) && Lighting.LightBound(d.at, s.volume, light)
    && d.indexCount == s.volume.numIndices && d.startIndex == 0 && d.baseVertex == 0
  }

  /** The light loop issues one draw per light, in order. */
  lemma {:induction false} ExecLights(c: Ctx, s: Scene, rt: Handle, lights: seq<nat>)
    requires LightPassBound(c.state, s, rt)
    ensures var e := Exec(c, LightsCalls(s.volume, lights));
            LightPassBound(e.state, s, rt) && e.clears == c.clears
            && |e.draws| == |c.draws| + |lights|
            && (forall i | 0 <= i < |c.draws| :: e.draws[i] == c.draws[i])
            && LightsDrawn(e.draws, |c.draws|, s, rt, lights)
    decreases |lights|
  {
    if |lights| > 0 {
      var first := Lighting.DrawPointLight(s.volume, lights[0]);
      ExecAppend(c, first, LightsCalls(s.volume, lights[1..]));
      Lighting.DrawPointLightEffect(c, s.volume, lights[0]);
      var c1 := Exec(c, first);
      assert c1.draws[..|c.draws|] == c.draws;
      assert forall i | 0 <= i < |c.draws| :: c1.draws[i] == c.draws[i];
      ExecLights(c1, s, rt, lights[1..]);
      var e := Exec(c1, LightsCalls(s.volume, lights[1..]));
      assert e.draws[|c.draws|] == c1.draws[|c.draws|];
      LightsDrawnCons(e.draws, |c.draws|, |c1.draws|, s, rt, lights);
    }
  }

  /** Draws `at` onwards are the draws of `lights`, in order, each as
      `LightDrawn` says for that light. */
  predicate LightsDrawn(draws: seq<Draw>, at: nat, s: Scene, rt: Handle, lights: seq<nat>) {
    at + |lights| <= |draws|
    && forall j | 0 <= j < |lights| :: LightDrawn(draws[at + j], s, rt, lights[j])
  }

  /** The draw of light `j` in a run of light draws. */
  lemma LightsDrawnAt(draws: seq<Draw>, at: nat, s: Scene, rt: Handle, lights: seq<nat>, j: nat)
    requires LightsDrawn(draws, at, s, rt, lights) && j < |lights|
    ensures at + j < |draws| && LightDrawn(draws[at + j], s, rt, lights[j])
  {
  }

  /** The first light's draw followed by the draws for the rest are the
      draws for the whole run. */
  lemma LightsDrawnCons(draws: seq<Draw>, at: nat, next: nat, s: Scene, rt: Handle, lights: seq<nat>)
    requires 0 < |lights| && next == at + 1 && at < |draws|
    requires LightDrawn(draws[at], s, rt, lights[0])
    requires LightsDrawn(draws, next, s, rt, lights[1..])
    ensures LightsDrawn(draws, at, s, rt, lights)
  {
    forall j | 0 < j < |lights|
      ensures LightDrawn(draws[at + j], s, rt, lights[j])
    {
      assert lights[j] == lights[1..][j - 1] && at + j == next + (j - 1);
    }
  }

  /** The start of the light pass: clear and bind the back-buffer RTV,
      bind the lighting pipeline, the G-buffer views and the sampler. */
  function LightPrologue(s: Scene, rt: Handle): seq<Call> {
    LightTargetCalls(rt) + Pipeline.BindCalls(s.lighting) + LightInputCalls(s)
  }

  function LightTargetCalls(rt: Handle): seq<Call> {
    [ClearRenderTarget(rt), SetRenderTargets([rt], Null)]
  }

  function LightInputCalls(s: Scene): seq<Call> {
    [SetPSResources(0, Srvs(s.gbuffer.slots)), SetPSSamplers(0, [s.gbufferSampler])]
  }

  lemma ExecLightTargetCalls(c: Ctx, rt: Handle)
    ensures Exec(c, LightTargetCalls(rt)) ==
            c.(state := c.state.(renderTargets := [rt], depthView := Null), clears := c.clears + [rt])
  {
    ExecTwo(c, ClearRenderTarget(rt), SetRenderTargets([rt], Null));
    var c1 := Step(c, ClearRenderTarget(rt));
    assert c1 == c.(clears := c.clears + [rt]);
    assert Step(c1, SetRenderTargets([rt], Null)) == c1.(state := c.state.(renderTargets := [rt], depthView := Null));
  }

  lemma ExecLightInputCalls(c: Ctx, s: Scene)
    ensures Exec(c, LightInputCalls(s)) ==
            c.(state := c.state.(psResources := SetRange(c.state.psResources, 0, Srvs(s.gbuffer.slots)),
                                 psSamplers := SetRange(c.state.psSamplers, 0, [s.gbufferSampler])))
  {
    var x0, x1 := SetPSResources(0, Srvs(s.gbuffer.slots)), SetPSSamplers(0, [s.gbufferSampler]);
    ExecTwo(c, x0, x1);
    var c1 := Step(c, x0);
    assert c1 == c.(state := c.state.(psResources := SetRange(c.state.psResources, 0, Srvs(s.gbuffer.slots))));
  }

  lemma ExecLightPrologue(c: Ctx, s: Scene, rt: Handle)
    ensures LightPassBound(Exec(c, LightPrologue(s, rt)).state, s, rt)
    ensures Exec(c, LightPrologue(s, rt)).draws == c.draws
    ensures Exec(c, LightPrologue(s, rt)).clears == c.clears + [rt]
  {
    var a, b, t := LightTargetCalls(rt), Pipeline.BindCalls(s.lighting), LightInputCalls(s);
    assert LightPrologue(s, rt) == a + (b + t);
    ExecAppend(c, a, b + t);
    ExecLightTargetCalls(c, rt);
    var c1 := Exec(c, a);
    ExecAppend(c1, b, t);
    Pipeline.BindEffect(s.lighting, c1);
    var c2 := Exec(c1, b);
    ExecLightInputCalls(c2, s);
  }

  /** One null view per G-buffer slot. */
  function Nulls(n: nat): (r: seq<Handle>)
    ensures |r| == n && forall i | 0 <= i < n :: r[i] == Null
  {
    seq(n, _ => Null)
  }

  /** The geometry pass. */
  function GeometryPass(s: Scene): seq<Call>
    requires Drawable(s)
  {
    Prologue(s) + GeometryCalls(s, s.meshes)
  }

  /** The light pass, ending with every G-buffer view unbound. */
  function LightPass(s: Scene, rt: Handle): seq<Call> {
    LightPrologue(s, rt) + LightsCalls(s.volume, s.lights) + [SetPSResources(0, Nulls(|s.gbuffer.slots|))]
  }

  /** The whole frame's calls, given the back-buffer RTV. */
  function FrameCalls(s: Scene, rt: Handle): seq<Call>
    requires Drawable(s)
  {
    GeometryPass(s) + LightPass(s, rt)
  }

  lemma ExecGeometryPass(c: Ctx, s: Scene)
    requires Drawable(s)
    ensures var e := Exec(c, GeometryPass(s));
            e.clears == c.clears + Rtvs(s.gbuffer.slots) + [s.depthView]
            && |e.draws| == |c.draws| + |s.meshes|
            && (forall i | 0 <= i < |c.draws| :: e.draws[i] == c.draws[i])
            && MeshesDrawn(e.draws, |c.draws|, s, s.meshes)
  {
    ExecAppend(c, Prologue(s), GeometryCalls(s, s.meshes));
    ExecPrologue(c, s);
    ExecGeometry(Exec(c, Prologue(s)), s, s.meshes);
  }

  /** The light pass before its final unbinding: the back buffer cleared
      and one draw per light. */
  lemma ExecLightDraws(c: Ctx, s: Scene, rt: Handle)
    ensures var e := Exec(c, LightPrologue(s, rt) + LightsCalls(s.volume, s.lights));
            e.clears == c.clears + [rt]
            && |e.draws| == |c.draws| + |s.lights|
            && (forall i | 0 <= i < |c.draws| :: e.draws[i] == c.draws[i])
            && LightsDrawn(e.draws, |c.draws|, s, rt, s.lights)
  {
    var lp, ls := LightPrologue(s, rt), LightsCalls(s.volume, s.lights);
    ExecAppend(c, lp, ls);
    ExecLightPrologue(c, s, rt);
    ExecLights(Exec(c, lp), s, rt, s.lights);
  }

  /** Unbinding `n` shader resources nulls slots 0 .. n-1 and changes
      nothing else. */
  lemma ExecUnbind(c: Ctx, n: nat)
    ensures Exec(c, [SetPSResources(0, Nulls(n))]).draws == c.draws
    ensures Exec(c, [SetPSResources(0, Nulls(n))]).clears == c.clears
    ensures forall k | 0 <= k < n :: Slot(Exec(c, [SetPSResources(0, Nulls(n))]).state.psResources, k) == Null
  {
    ExecOne(c, SetPSResources(0, Nulls(n)));
  }

  lemma ExecLightPass(c: Ctx, s: Scene, rt: Handle)
    ensures var e := Exec(c, LightPass(s, rt));
            e.clears == c.clears + [rt]
            && |e.draws| == |c.draws| + |s.lights|
            && (forall i | 0 <= i < |c.draws| :: e.draws[i] == c.draws[i])
            && LightsDrawn(e.draws, |c.draws|, s, rt, s.lights)
            && forall k | 0 <= k < |s.gbuffer.slots| :: Slot(e.state.psResources, k) == Null
  {
    var body := LightPrologue(s, rt) + LightsCalls(s.volume, s.lights);
    var last := [SetPSResources(0, Nulls(|s.gbuffer.slots|))];
    assert LightPass(s, rt) == body + last;
    ExecAppend(c, body, last);
    ExecLightDraws(c, s, rt);
    ExecUnbind(Exec(c, body), |s.gbuffer.slots|);
  }

  /** Playing a frame on any context clears the G-buffer targets and the
      depth view, then the back buffer, and issues one draw per mesh and
      then one per light, keeping the draws issued before. */
  lemma FrameClearsAndCounts(c: Ctx, s: Scene, rt: Handle)
    requires Drawable(s)
    ensures var e := Exec(c, FrameCalls(s, rt));
            e.clears == c.clears + Rtvs(s.gbuffer.slots) + [s.depthView, rt]
            && |e.draws| == |c.draws| + |s.meshes| + |s.lights|
            && (forall i | 0 <= i < |c.draws| :: e.draws[i] == c.draws[i])
  {
    ExecAppend(c, GeometryPass(s), LightPass(s, rt));
    ExecGeometryPass(c, s);
    ExecLightPass(Exec(c, GeometryPass(s)), s, rt);
  }

  /** Draw `n + i` of the frame is mesh `i`'s, issued into the G-buffer
      with its own material's textures and flags. */
  lemma FrameDrawsMesh(c: Ctx, s: Scene, rt: Handle, i: nat)
    requires Drawable(s) && i < |s.meshes|
    ensures |Exec(c, FrameCalls(s, rt)).draws| == |c.draws| + |s.meshes| + |s.lights|
    ensures MeshDrawn(Exec(c, FrameCalls(s, rt)).draws[|c.draws| + i], s, s.meshes[i], s.materials[s.meshes[i].materialId])
  {
    ExecAppend(c, GeometryPass(s), LightPass(s, rt));
    ExecGeometryPass(c, s);
    var c1 := Exec(c, GeometryPass(s));
    ExecLightPass(c1, s, rt);
    assert Exec(c1, LightPass(s, rt)).draws[|c.draws| + i] == c1.draws[|c.draws| + i];
  }

  /** Draw `n + |meshes| + j` of the frame is light `j`'s, issued into the
      back buffer with the G-buffer views bound. */
  lemma FrameDrawsLight(c: Ctx, s: Scene, rt: Handle, j: nat)
    requires Drawable(s) && j < |s.lights|
    ensures |Exec(c, FrameCalls(s, rt)).draws| == |c.draws| + |s.meshes| + |s.lights|
    ensures LightDrawn(Exec(c, FrameCalls(s, rt)).draws[|c.draws| + |s.meshes| + j], s, rt, s.lights[j])
  {
    ExecFrameSplit(c, s, rt);
    var c1 := Exec(c, GeometryPass(s));
    ExecLightPass(c1, s, rt);
    LightsDrawnAt(Exec(c1, LightPass(s, rt)).draws, |c1.draws|, s, rt, s.lights, j);
  }

  /** A frame is its geometry pass, which issues one draw per mesh, and then
      its light pass. */
  lemma ExecFrameSplit(c: Ctx, s: Scene, rt: Handle)
    requires Drawable(s)
    ensures Exec(c, FrameCalls(s, rt)) == Exec(Exec(c, GeometryPass(s)), LightPass(s, rt))
    ensures |Exec(c, GeometryPass(s)).draws| == |c.draws| + |s.meshes|
  {
    ExecAppend(c, GeometryPass(s), LightPass(s, rt));
    ExecGeometryPass(c, s);
  }

  /** The frame ends with every G-buffer view unbound from the pixel
      shader, so the next frame can render into them. */
  lemma FrameUnbindsGBuffer(c: Ctx, s: Scene, rt: Handle)
    requires Drawable(s)
    ensures forall k | 0 <= k < |s.gbuffer.slots| :: Slot(Exec(c, FrameCalls(s, rt)).state.psResources, k) == Null
  {
    ExecAppend(c, GeometryPass(s), LightPass(s, rt));
    ExecLightPass(Exec(c, GeometryPass(s)), s, rt);
  }

  /** `drawFrame`: the back buffer is fetched from the swap chain and an RTV
      is created for it (each failure throws); the RTV is released once
      the frame is presented. */
  function DrawFrame(s: Scene, dev: Device, haveBackBuffer: bool): (r: Result<(seq<Call>, Handle, Device)>)
    requires Drawable(s)
    ensures r.Ok? <==> haveBackBuffer && dev.issued !in dev.failing
    ensures r.Err? ==> r.message in {"Failed to get a back buffer!", "Failed to create backbuffer RTV!"}
    ensures !haveBackBuffer ==> r == Err("Failed to get a back buffer!")
    ensures haveBackBuffer && dev.issued in dev.failing ==> r == Err("Failed to create backbuffer RTV!")
    ensures r.Ok? ==> r.value.1 == Obj(dev.issued) && r.value.2 == Device(dev.issued + 1, dev.failing)
    ensures r.Ok? ==> r.value.0 == FrameCalls(s, r.value.1)
  {
    if !haveBackBuffer then Err("Failed to get a back buffer!")
    else
      var (d1, rt) := dev.Create();
      if rt.None? then Err("Failed to create backbuffer RTV!")
      else Ok((FrameCalls(s, rt.value), rt.value, d1))
  }
}
