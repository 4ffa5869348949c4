/** Shutdown: `Resources::~Resources` (ECS.cpp) and `~Application`
    (main.cpp), as the sequence of events they produce. An event is either
    one `Release` through a COM pointer or one step that releases no device
    object of the model (shutting ImGui down, releasing the core device
    objects, destroying the window). Deleting the light volume releases the
    two buffers of its `sphereMesh`. A release through a null pointer is a
    crash; the model records it as a release of `Null`. */
module Teardown {
  import opened Common
  import Pipeline
  import GBuffer
  import Materials
  import Meshes
  import Lighting

  /** Which part of the destructor an event belongs to. */
  datatype Phase =
    | LightingPhase | PipelinePhase | TexturePhase | MeshPhase | ApplicationPhase
    | ImguiPhase | CorePhase | WindowPhase
    | SwapChainPhase | ContextPhase | DevicePhase | GBufferPhase

  datatype Event = Release(phase: Phase, h: Handle) | Step(phase: Phase)

  /** The position of a phase in `~Resources`. */
  function Rank(p: Phase): nat {
    match p
    case LightingPhase => 0
    case PipelinePhase => 1
    case TexturePhase => 2
    case MeshPhase => 3
    case ApplicationPhase => 4
    case ImguiPhase => 5
    case CorePhase => 6
    case WindowPhase => 7
    case _ => 8
  }

  /** The releases of a phase, one event per handle, in order. */
  function Tag(phase: Phase, hs: seq<Handle>): (ev: seq<Event>)
    ensures |ev| == |hs|
    ensures forall i | 0 <= i < |hs| :: ev[i] == Release(phase, hs[i])
  {
    seq(|hs|, i requires 0 <= i < |hs| => Release(phase, hs[i]))
  }

  /** The handles released by a sequence of events, in order. */
  function Released(ev: seq<Event>): seq<Handle>
    decreases |ev|
  {
    if |ev| == 0 then []
    else (if ev[0].Release? then [ev[0].h] else []) + Released(ev[1..])
  }

  lemma {:induction false} ReleasedAppend(a: seq<Event>, b: seq<Event>)
    ensures Released(a + b) == Released(a) + Released(b)
    decreases |a|
  {
    if |a| == 0 {
      assert a + b == b;
    } else {
      var head := if a[0].Release? then [a[0].h] else [];
      assert (a + b)[0] == a[0];
      assert (a + b)[1..] == a[1..] + b;
      assert Released(a + b) == head + Released(a[1..] + b);
      ReleasedAppend(a[1..], b);
      assert Released(a) == head + Released(a[1..]);
    }
  }

  lemma {:induction false} ReleasedTag(phase: Phase, hs: seq<Handle>)
    ensures Released(Tag(phase, hs)) == hs
    decreases |hs|
  {
    if |hs| > 0 {
      assert Tag(phase, hs)[1..] == Tag(phase, hs[1..]);
      ReleasedTag(phase, hs[1..]);
    }
  }

  /** `Step` events release nothing. */
  lemma {:induction false} ReleasedSteps(ev: seq<Event>)
    requires forall i | 0 <= i < |ev| :: ev[i].Step?
    ensures Released(ev) == []
    decreases |ev|
  {
    if |ev| > 0 {
      ReleasedSteps(ev[1..]);
    }
  }

  /** `delete texture`: `~Texture` (Texture.cpp) releases the SRV, the
      texture and the sampler, for each cache entry in iteration order. */
  function TextureReleases(cache: map<string, Materials.Texture>, order: seq<string>): seq<Handle>
    requires forall p | p in order :: p in cache
    decreases |order|
  {
    if |order| == 0 then []
    else
      var t := cache[order[0]];
      [t.srv, t.texture, t.sampler] + TextureReleases(cache, order[1..])
  }

  /** Some mesh holds a null buffer; `~Mesh` releases both buffers
      without a check, so freeing that mesh dereferences a null pointer. */
  predicate HasNullBuffer(meshes: seq<Meshes.Mesh>) {
    exists k | 0 <= k < |meshes| :: meshes[k].vertices == Null || meshes[k].indices == Null
  }

  /** Each mesh's vertex buffer, then its index buffer. */
  function MeshReleases(meshes: seq<Meshes.Mesh>): (r: seq<Handle>)
    ensures |r| == 2 * |meshes|
    ensures Null in r <==> HasNullBuffer(meshes)
    decreases |meshes|
  {
    if |meshes| == 0 then []
    else
      var rest := MeshReleases(meshes[1..]);
      assert HasNullBuffer(meshes[1..]) ==> HasNullBuffer(meshes) by {
        if HasNullBuffer(meshes[1..]) {
          var k :| 0 <= k < |meshes[1..]| && (meshes[1..][k].vertices == Null || meshes[1..][k].indices == Null);
          assert meshes[k + 1] == meshes[1..][k];
        }
      }
      assert HasNullBuffer(meshes) && meshes[0].vertices != Null && meshes[0].indices != Null
             ==> HasNullBuffer(meshes[1..]) by {
        if HasNullBuffer(meshes) && meshes[0].vertices != Null && meshes[0].indices != Null {
          var k :| 0 <= k < |meshes| && (meshes[k].vertices == Null || meshes[k].indices == Null);
          assert meshes[1..][k - 1] == meshes[k];
        }
      }
      [meshes[0].vertices, meshes[0].indices] + rest
  }

  /** The device objects the ECS resources hold (ECS.cpp revision): the two
      pipelines, the texture and model caches, and the application, whose
      only owning member is its `GeometryBuffer` (Application.h). */
  datatype Resources = Resources(light: Lighting.Volume, deferred: Pipeline.Pipeline, lighting: Pipeline.Pipeline,
                                 textureCache: map<string, Materials.Texture>,
                                 modelCache: seq<Meshes.Mesh>, gbuffer: GBuffer.AppGBuffer)

  /** `order` lists the texture cache's keys as its iteration visits them. */
  predicate Enumerates(cache: map<string, Materials.Texture>, order: seq<string>) {
    Distinct(order) && (forall p | p in order :: p in cache) && (forall p | p in cache :: p in order)
  }

  /** Every object the resources own, in teardown order. */
  function OwnedAll(res: Resources, order: seq<string>): seq<Handle>
    requires forall p | p in order :: p in res.textureCache
  {
    [res.light.vBuffer, res.light.iBuffer]
    + (Pipeline.Owned(res.deferred) + Pipeline.Owned(res.lighting)
       + TextureReleases(res.textureCache, order) + MeshReleases(res.modelCache)
       + GBuffer.AppOwned(res.gbuffer))
  }

  /** No live object is owned twice. */
  predicate UniqueLive(s: seq<Handle>) {
    forall i, j | 0 <= i < j < |s| :: s[i] != Null ==> s[i] != s[j]
  }

  /** The events of `~Resources`, given each phase's release list: the
      light volume's releases come first, the window is destroyed last, the
      core device objects just before it, after every release. */
  function Events(light: seq<Handle>, pipelines: seq<Handle>, textures: seq<Handle>, meshes: seq<Handle>, application: seq<Handle>): (ev: seq<Event>)
    ensures |ev| >= 3 + |light|
    ensures forall i | 0 <= i < |light| :: ev[i] == Release(LightingPhase, light[i])
    ensures ev[|ev| - 1] == Step(WindowPhase)
    ensures forall i | 0 <= i < |ev| - 1 :: ev[i] != Step(WindowPhase)
    ensures ev[|ev| - 2] == Step(CorePhase)
    ensures forall i | 0 <= i < |ev| && ev[i].Release? :: i < |ev| - 2
  {
    Tag(LightingPhase, light)
    + (Tag(PipelinePhase, pipelines)
    + (Tag(TexturePhase, textures)
    + (Tag(MeshPhase, meshes)
    + (Tag(ApplicationPhase, application)
    + [Step(ImguiPhase), Step(CorePhase), Step(WindowPhase)]))))
  }

  /** `Resources::~Resources`: the light volume, the deferred then the
      lighting pipeline, the texture cache, the model cache, the
      application, ImGui, the core device objects, the window. */
  function ResourcesTeardown(res: Resources, order: seq<string>): (ev: seq<Event>)
    requires forall p | p in order :: p in res.textureCache
    ensures |ev| >= 5 && ev[|ev| - 1] == Step(WindowPhase)
    ensures ev[0] == Release(LightingPhase, res.light.vBuffer) && ev[1] == Release(LightingPhase, res.light.iBuffer)
    ensures forall i | 0 <= i < |ev| - 1 :: ev[i] != Step(WindowPhase)
    ensures ev[|ev| - 2] == Step(CorePhase)
    ensures forall i | 0 <= i < |ev| && ev[i].Release? :: i < |ev| - 2
  {
    Events(Lighting.Destroy(res.light), Pipeline.Destroy(res.deferred) + Pipeline.Destroy(res.lighting),
           TextureReleases(res.textureCache, order), MeshReleases(res.modelCache),
           GBuffer.DestroyApp(res.gbuffer))
  }

  /** Phases never go back: every event's phase ranks at most as high as
      any later event's. */
  predicate Ordered(ev: seq<Event>) {
    forall i, j | 0 <= i < j < |ev| :: Rank(ev[i].phase) <= Rank(ev[j].phase)
  }

  /** A block of one phase in front of an ordered tail that starts no
      earlier keeps the events ordered. */
  lemma PrependBlock(a: seq<Event>, b: seq<Event>, r: nat)
    requires forall i | 0 <= i < |a| :: Rank(a[i].phase) == r
    requires Ordered(b) && forall j | 0 <= j < |b| :: Rank(b[j].phase) >= r
    ensures Ordered(a + b) && forall k | 0 <= k < |a + b| :: Rank((a + b)[k].phase) >= r
  {
    forall i, j | 0 <= i < j < |a + b|
      ensures Rank((a + b)[i].phase) <= Rank((a + b)[j].phase)
    {
      if j < |a| {
        assert (a + b)[i] == a[i] && (a + b)[j] == a[j];
      } else if i < |a| {
        assert (a + b)[i] == a[i] && (a + b)[j] == b[j - |a|];
      } else {
        assert (a + b)[i] == b[i - |a|] && (a + b)[j] == b[j - |a|];
      }
    }
  }

  /** The events are grouped by phase in the destructor's order: lighting,
      pipelines, textures, meshes, application, ImGui, core, window. */
  lemma EventsOrdered(light: seq<Handle>, pipelines: seq<Handle>, textures: seq<Handle>, meshes: seq<Handle>, application: seq<Handle>)
    ensures Ordered(Events(light, pipelines, textures, meshes, application))
  {
    var a := Tag(LightingPhase, light);
    var b := Tag(PipelinePhase, pipelines);
    var c := Tag(TexturePhase, textures);
    var d := Tag(MeshPhase, meshes);
    var e := Tag(ApplicationPhase, application);
    var f := [Step(ImguiPhase), Step(CorePhase), Step(WindowPhase)];
    assert Ordered(f);
    PrependBlock(e, f, 4);
    PrependBlock(d, e + f, 3);
    PrependBlock(c, d + (e + f), 2);
    PrependBlock(b, c + (d + (e + f)), 1);
    PrependBlock(a, b + (c + (d + (e + f))), 0);
    assert Events(light, pipelines, textures, meshes, application) == a + (b + (c + (d + (e + f))));
  }

  lemma TeardownOrdered(res: Resources, order: seq<string>)
    requires forall p | p in order :: p in res.textureCache
    ensures Ordered(ResourcesTeardown(res, order))
  {
    EventsOrdered(Lighting.Destroy(res.light), Pipeline.Destroy(res.deferred) + Pipeline.Destroy(res.lighting),
                  TextureReleases(res.textureCache, order), MeshReleases(res.modelCache),
                  GBuffer.DestroyApp(res.gbuffer));
  }

  /** The events release exactly the phases' lists, in phase order. */
  lemma EventsReleased(light: seq<Handle>, pipelines: seq<Handle>, textures: seq<Handle>, meshes: seq<Handle>, application: seq<Handle>)
    ensures Released(Events(light, pipelines, textures, meshes, application)) == light + (pipelines + textures + meshes + application)
  {
    var a := Tag(LightingPhase, light);
    var b := Tag(PipelinePhase, pipelines);
    var c := Tag(TexturePhase, textures);
    var d := Tag(MeshPhase, meshes);
    var e := Tag(ApplicationPhase, application);
    var f := [Step(ImguiPhase), Step(CorePhase), Step(WindowPhase)];
    ReleasedSteps(f);
    ReleasedTag(ApplicationPhase, application);
    ReleasedAppend(e, f);
    assert Released(e + f) == application;
    ReleasedTag(MeshPhase, meshes);
    ReleasedAppend(d, e + f);
    assert Released(d + (e + f)) == meshes + application;
    ReleasedTag(TexturePhase, textures);
    ReleasedAppend(c, d + (e + f));
    assert Released(c + (d + (e + f))) == textures + meshes + application;
    ReleasedTag(PipelinePhase, pipelines);
    ReleasedAppend(b, c + (d + (e + f)));
    var rest := b + (c + (d + (e + f)));
    assert Released(rest) == pipelines + textures + meshes + application;
    ReleasedTag(LightingPhase, light);
    ReleasedAppend(a, rest);
    assert Events(light, pipelines, textures, meshes, application) == a + rest;
  }

  /** For a live handle, the pipeline destructor releases it as often as
      the pipeline owns it (the skipped input layout is null). */
  lemma DestroyMatchesOwned(p: Pipeline.Pipeline, h: Handle)
    requires h != Null
    ensures Count(Pipeline.Destroy(p), h) == Count(Pipeline.Owned(p), h)
  {
    var o := Pipeline.Owned(p);
    assert o == [o[0]] + o[1..];
    CountAppend([o[0]], o[1..], h);
    if p.inputLayout != Null {
      assert Pipeline.Destroy(p) == o;
    } else {
      assert Pipeline.Destroy(p) == o[1..];
    }
  }

  /** For a live handle, the slot release list counts it as often as the
      slot table holds it. */
  lemma {:induction false} SlotReleasesMatchObjects(slots: seq<GBuffer.Slot>, h: Handle)
    requires h != Null
    ensures Count(GBuffer.SlotReleases(slots), h) == Count(GBuffer.SlotsObjects(slots), h)
    decreases |slots|
  {
    if |slots| > 0 {
      var s := slots[0];
      SlotReleasesMatchObjects(slots[1..], h);
      var a := if s.srv != Null then [s.srv] else [];
      var b := if s.rtv != Null then [s.rtv] else [];
      var c := if s.texture != Null then [s.texture] else [];
      assert GBuffer.SlotReleases(slots) == a + b + c + GBuffer.SlotReleases(slots[1..]);
      assert GBuffer.SlotsObjects(slots) == [s.srv, s.rtv, s.texture] + GBuffer.SlotsObjects(slots[1..]);
      CountAppend(a + b + c, GBuffer.SlotReleases(slots[1..]), h);
      CountAppend(a + b, c, h);
      CountAppend(a, b, h);
      CountAppend([s.srv, s.rtv, s.texture], GBuffer.SlotsObjects(slots[1..]), h);
      assert [s.srv, s.rtv, s.texture] == [s.srv] + [s.rtv] + [s.texture];
      CountAppend([s.srv] + [s.rtv], [s.texture], h);
      CountAppend([s.srv], [s.rtv], h);
    }
  }

  /** After the light volume, the releases of `~Resources` count each live
      object as often as the pipelines, caches and application own it. */
  lemma ReleasesAfterLight(res: Resources, order: seq<string>, h: Handle)
    requires forall p | p in order :: p in res.textureCache
    requires h != Null
    ensures var pd, pl := Pipeline.Destroy(res.deferred), Pipeline.Destroy(res.lighting);
            var tx, ms := TextureReleases(res.textureCache, order), MeshReleases(res.modelCache);
            Count(pd + pl + tx + ms + GBuffer.DestroyApp(res.gbuffer), h)
            == Count(Pipeline.Owned(res.deferred) + Pipeline.Owned(res.lighting) + tx + ms + GBuffer.AppOwned(res.gbuffer), h)
  {
    var pd, pl := Pipeline.Destroy(res.deferred), Pipeline.Destroy(res.lighting);
    var tx := TextureReleases(res.textureCache, order);
    var ms := MeshReleases(res.modelCache);
    var ga := GBuffer.DestroyApp(res.gbuffer);
    CountAppend(pd + pl + tx + ms, ga, h);
    CountAppend(pd + pl + tx, ms, h);
    CountAppend(pd + pl, tx, h);
    CountAppend(pd, pl, h);
    DestroyMatchesOwned(res.deferred, h);
    DestroyMatchesOwned(res.lighting, h);
    var g := res.gbuffer;
    assert ga == [g.sampler] + GBuffer.SlotReleases(g.slots);
    CountAppend([g.sampler], GBuffer.SlotReleases(g.slots), h);
    CountAppend([g.sampler], GBuffer.SlotsObjects(g.slots), h);
    SlotReleasesMatchObjects(g.slots, h);
    var po, plo := Pipeline.Owned(res.deferred), Pipeline.Owned(res.lighting);
    var go := GBuffer.AppOwned(g);
    CountAppend(po + plo + tx + ms, go, h);
    CountAppend(po + plo + tx, ms, h);
    CountAppend(po + plo, tx, h);
    CountAppend(po, plo, h);
  }

  /** The teardown releases every live object exactly as often as the
      resources own it: once each, when no live object is owned twice. */
  lemma ReleasesOwned(res: Resources, order: seq<string>, h: Handle)
    requires forall p | p in order :: p in res.textureCache
    requires h != Null
    ensures Count(Released(ResourcesTeardown(res, order)), h) == Count(OwnedAll(res, order), h)
    ensures UniqueLive(OwnedAll(res, order)) ==>
              Count(Released(ResourcesTeardown(res, order)), h) == (if h in OwnedAll(res, order) then 1 else 0)
  {
    var lv := Lighting.Destroy(res.light);
    var pd, pl := Pipeline.Destroy(res.deferred), Pipeline.Destroy(res.lighting);
    var tx := TextureReleases(res.textureCache, order);
    var ms := MeshReleases(res.modelCache);
    var ga := GBuffer.DestroyApp(res.gbuffer);
    var rel := pd + pl + tx + ms + ga;
    var own := Pipeline.Owned(res.deferred) + Pipeline.Owned(res.lighting) + tx + ms + GBuffer.AppOwned(res.gbuffer);
    EventsReleased(lv, pd + pl, tx, ms, ga);
    assert Released(ResourcesTeardown(res, order)) == lv + rel;
    assert OwnedAll(res, order) == lv + own;
    ReleasesAfterLight(res, order, h);
    CountAppend(lv, rel, h);
    CountAppend(lv, own, h);
    if UniqueLive(OwnedAll(res, order)) {
      CountUnique(OwnedAll(res, order), h);
    }
  }

  /** With no live object owned twice, `delete lighting` releases each live
      buffer of the light volume exactly once. */
  lemma LightBuffersReleasedOnce(res: Resources, order: seq<string>)
    requires forall p | p in order :: p in res.textureCache
    requires UniqueLive(OwnedAll(res, order))
    ensures var rel := Released(ResourcesTeardown(res, order));
            (res.light.vBuffer != Null ==> Count(rel, res.light.vBuffer) == 1)
            && (res.light.iBuffer != Null ==> Count(rel, res.light.iBuffer) == 1)
  {
    var o := OwnedAll(res, order);
    assert o[0] == res.light.vBuffer && o[1] == res.light.iBuffer;
    if res.light.vBuffer != Null { ReleasesOwned(res, order, res.light.vBuffer); }
    if res.light.iBuffer != Null { ReleasesOwned(res, order, res.light.iBuffer); }
  }

  /** With `order` enumerating the cache and no live object owned twice,
      every cached texture's three objects are released exactly once. */
  lemma EveryTextureDeletedOnce(res: Resources, order: seq<string>, p: string)
    requires Enumerates(res.textureCache, order) && UniqueLive(OwnedAll(res, order))
    requires p in res.textureCache
    ensures var t := res.textureCache[p];
            var rel := Released(ResourcesTeardown(res, order));
            (t.srv != Null ==> Count(rel, t.srv) == 1)
            && (t.texture != Null ==> Count(rel, t.texture) == 1)
            && (t.sampler != Null ==> Count(rel, t.sampler) == 1)
  {
    var t := res.textureCache[p];
    TextureListed(res.textureCache, order, p);
    var o := OwnedAll(res, order);
    assert t.srv in o && t.texture in o && t.sampler in o;
    if t.srv != Null { ReleasesOwned(res, order, t.srv); }
    if t.texture != Null { ReleasesOwned(res, order, t.texture); }
    if t.sampler != Null { ReleasesOwned(res, order, t.sampler); }
  }

  lemma {:induction false} TextureListed(cache: map<string, Materials.Texture>, order: seq<string>, p: string)
    requires forall q | q in order :: q in cache
    requires p in order
    ensures cache[p].srv in TextureReleases(cache, order)
    ensures cache[p].texture in TextureReleases(cache, order)
    ensures cache[p].sampler in TextureReleases(cache, order)
    decreases |order|
  {
    if order[0] != p {
      TextureListed(cache, order[1..], p);
    }
  }

  /** With no live object owned twice, each mesh's vertex and index buffer
      are released exactly once. */
  lemma EveryMeshReleasedOnce(res: Resources, order: seq<string>, k: nat)
    requires forall p | p in order :: p in res.textureCache
    requires UniqueLive(OwnedAll(res, order))
    requires k < |res.modelCache|
    ensures var m := res.modelCache[k];
            var rel := Released(ResourcesTeardown(res, order));
            (m.vertices != Null ==> Count(rel, m.vertices) == 1)
            && (m.indices != Null ==> Count(rel, m.indices) == 1)
  {
    var m := res.modelCache[k];
    MeshListed(res.modelCache, k);
    if m.vertices != Null { ReleasesOwned(res, order, m.vertices); }
    if m.indices != Null { ReleasesOwned(res, order, m.indices); }
  }

  lemma {:induction false} MeshListed(meshes: seq<Meshes.Mesh>, k: nat)
    requires k < |meshes|
    ensures meshes[k].vertices in MeshReleases(meshes) && meshes[k].indices in MeshReleases(meshes)
    decreases k
  {
    if k > 0 {
      MeshListed(meshes[1..], k - 1);
    }
  }

  /** The objects `~Application` of main.cpp releases itself. */
  datatype MainApp = MainApp(light: Lighting.Volume, textureCache: map<string, Materials.Texture>, loadedMesh: seq<Meshes.Mesh>,
                             lighting: Pipeline.Pipeline, deferred: Pipeline.Pipeline,
                             swapChain: Handle, context: Handle, device: Handle,
                             gbuffer: GBuffer.MainGBuffer)

  /** main.cpp `~Application` followed by the destructor of its
      `geometryBuffer` member, which C++ runs after the body: the texture
      cache, the meshes, the light volume, the lighting then the deferred
      pipeline, ImGui, the swap chain, the context, the device, the window,
      and only then the G-buffer's slot objects. */
  function MainTeardown(app: MainApp, order: seq<string>): (ev: seq<Event>)
    requires forall p | p in order :: p in app.textureCache
    ensures var d := |ev| - |GBuffer.DestroyMain(app.gbuffer)| - 2;
            0 <= d && ev[d] == Release(DevicePhase, app.device) && ev[d + 1] == Step(WindowPhase)
            && forall i | d + 1 < i < |ev| :: ev[i].Release? && ev[i].phase == GBufferPhase
    ensures var n := |TextureReleases(app.textureCache, order)| + |MeshReleases(app.loadedMesh)|;
            n + 1 < |ev| && ev[n] == Release(LightingPhase, app.light.vBuffer)
            && ev[n + 1] == Release(LightingPhase, app.light.iBuffer)
  {
    Tag(TexturePhase, TextureReleases(app.textureCache, order))
    + Tag(MeshPhase, MeshReleases(app.loadedMesh))
    + Tag(LightingPhase, Lighting.Destroy(app.light))
    + Tag(PipelinePhase, Pipeline.Destroy(app.lighting) + Pipeline.Destroy(app.deferred))
    + [Step(ImguiPhase), Release(SwapChainPhase, app.swapChain), Release(ContextPhase, app.context),
       Release(DevicePhase, app.device), Step(WindowPhase)]
    + Tag(GBufferPhase, GBuffer.DestroyMain(app.gbuffer))
  }

  /** A loaded mesh whose index buffer was never created (the as-written
      `loadMesh` of main.cpp keeps it) makes `~Application` release through
      a null pointer, in the mesh phase. */
  lemma MainTeardownReleasesNullBuffer(app: MainApp, order: seq<string>)
    requires forall p | p in order :: p in app.textureCache
    requires HasNullBuffer(app.loadedMesh)
    ensures Release(MeshPhase, Null) in MainTeardown(app, order)
  {
    var ms := MeshReleases(app.loadedMesh);
    var k :| 0 <= k < |ms| && ms[k] == Null;
    var m := Tag(MeshPhase, ms);
    assert m[k] == Release(MeshPhase, Null);
    assert Release(MeshPhase, Null) in Tag(TexturePhase, TextureReleases(app.textureCache, order)) + m;
  }

  /** In main.cpp every live G-buffer object is released after the device
      (the member destructor runs after the body). */
  lemma MainGBufferAfterDevice(app: MainApp, order: seq<string>, h: Handle)
    requires forall p | p in order :: p in app.textureCache
    requires h != Null && h in GBuffer.SlotsObjects(app.gbuffer.slots)
    ensures var ev := MainTeardown(app, order);
            exists i, j | 0 <= i < j < |ev| :: ev[i] == Release(DevicePhase, app.device) && ev[j] == Release(GBufferPhase, h)
  {
    var ev := MainTeardown(app, order);
    var g := GBuffer.DestroyMain(app.gbuffer);
    var d := |ev| - |g| - 2;
    assert h in g;
    var k :| 0 <= k < |g| && g[k] == h;
    assert ev[d + 2 + k] == Release(GBufferPhase, h) by {
      assert ev[|ev| - |g|..] == Tag(GBufferPhase, g);
    }
  }
}
