/** GraphicsPipeline: a bundle of shaders, fixed-function state objects,
    topology, viewport and scissor, created once from descriptors and bound
    to the context as a unit. Modelled after the ten-argument constructor in
    GraphicsPipeline.cpp (the header of the same name declares an older,
    seven-argument one, which no caller in this model uses). */
module Pipeline {
  import opened Common
  import opened Context

  /** One vertex attribute of an input layout (semantic name, byte offset). */
  datatype InputElement = InputElement(semantic: string, offset: nat)

  datatype Pipeline = Pipeline(
    topology: Topology,
    vertexShader: Handle,
    rasterizerState: Handle,
    pixelShader: Handle,
    inputLayout: Handle,
    depthStencilState: Handle,
    blendState: Handle,
    viewport: Viewport,
    scissor: Rect)

  /** The six COM objects a pipeline owns, input layout first. */
  function Owned(p: Pipeline): seq<Handle> {
    [p.inputLayout, p.vertexShader, p.rasterizerState, p.pixelShader, p.depthStencilState, p.blendState]
  }

  /** The constructor. Every `device->Create*` result is ignored by the
      source, so a failed creation leaves a null member rather than
      throwing. Requests go to the device in source order: vertex shader,
      pixel shader, input layout (only when descriptors are given),
      rasterizer, depth-stencil, blend. */
  function Construct(dev: Device, inputElementDescs: Option<seq<InputElement>>,
                     topology: Topology, viewport: Viewport, scissor: Rect): (r: (Pipeline, Device))
    ensures r.0.topology == topology && r.0.viewport == viewport && r.0.scissor == scissor
    ensures r.0.inputLayout == Null <==> inputElementDescs.None? || (dev.issued + 2) in dev.failing
    ensures r.1.failing == dev.failing
    ensures r.1.issued == dev.issued + (if inputElementDescs.Some? then 6 else 5)
    ensures forall h | h in Owned(r.0) :: h == Null || IssuedBetween(h, dev.issued, r.1.issued)
    ensures forall i, j | 0 <= i < j < 6 :: Owned(r.0)[i] != Null ==> Owned(r.0)[i] != Owned(r.0)[j]
  {
    var (d1, vs) := dev.CreateUnchecked();
    var (d2, ps) := d1.CreateUnchecked();
    var (d3, layout) := if inputElementDescs.Some? then d2.CreateUnchecked() else (d2, Null);
    var (d4, rs) := d3.CreateUnchecked();
    var (d5, dss) := d4.CreateUnchecked();
    var (d6, bs) := d5.CreateUnchecked();
    (Pipeline(topology, vs, rs, ps, layout, dss, bs, viewport, scissor), d6)
  }

  /** The destructor calls `Release` through a null pointer, a crash,
      exactly when one of the five members it releases without a check is
      null; only the input layout is tested first. */
  predicate DestroyCrashes(p: Pipeline) {
    p.vertexShader == Null || p.rasterizerState == Null || p.pixelShader == Null
    || p.depthStencilState == Null || p.blendState == Null
  }

  /** The destructor's `Release` calls, in order. The input layout is
      released only when non-null; the other five unconditionally. */
  function Destroy(p: Pipeline): (released: seq<Handle>)
    ensures p.inputLayout != Null ==> Count(released, p.inputLayout) >= 1
    ensures Null in released <==> DestroyCrashes(p)
    ensures p.inputLayout == Null ==> |released| == 5
    ensures forall h | h in released :: h in Owned(p)
  {
    (if p.inputLayout != Null then [p.inputLayout] else [])
    + [p.vertexShader, p.rasterizerState, p.pixelShader, p.depthStencilState, p.blendState]
  }

  /** No live member is shared with another member. */
  predicate LiveDistinct(p: Pipeline) {
    forall i, j | 0 <= i < j < 6 :: Owned(p)[i] != Null ==> Owned(p)[i] != Owned(p)[j]
  }

  /** With distinct live members, the destructor releases every live member
      exactly once and nothing else that is live. */
  lemma DestroyReleasesOnce(p: Pipeline, h: Handle)
    requires LiveDistinct(p)
    requires h != Null
    ensures Count(Destroy(p), h) == (if h in Owned(p) then 1 else 0)
  {
    var released := Destroy(p);
    var o := Owned(p);
    if p.inputLayout == Null {
      assert released == o[1..];
      assert h in o <==> h in released;
      forall i, j | 0 <= i < j < |released| && released[i] == h
        ensures released[j] != h
      {
        assert released[i] == o[i + 1] && released[j] == o[j + 1];
      }
    } else {
      assert released == o;
    }
    CountUnique(released, h);
  }

  /** The context calls `bind` issues, in source order. */
  function BindCalls(p: Pipeline): seq<Call> {
    [ SetTopology(p.topology),
      SetVertexShader(p.vertexShader),
      SetInputLayout(p.inputLayout),
      SetRasterizerState(p.rasterizerState),
      SetViewports([p.viewport]),
      SetScissorRects([p.scissor]),
      SetPixelShader(p.pixelShader),
      SetBlendState(p.blendState, [1.0, 1.0, 1.0, 1.0], 0xffff_ffff),
      SetDepthStencilState(p.depthStencilState, 0) ]
  }

  /** The pipeline stage a bound pipeline leaves on the context. */
  function Stage(p: Pipeline): PipelineStage {
    PipelineStage(p.topology, p.vertexShader, p.inputLayout, p.rasterizerState,
                  [p.viewport], [p.scissor], p.pixelShader,
                  p.blendState, [1.0, 1.0, 1.0, 1.0], 0xffff_ffff,
                  p.depthStencilState, 0)
  }

  /** `bind`: the whole pipeline stage is overwritten with this pipeline's
      state (one viewport, one scissor, blend factor (1,1,1,1), sample mask
      0xffffffff, stencil reference 0), nothing else on the context changes
      and nothing is drawn. */
  function Bind(p: Pipeline, c: Ctx): (r: Ctx)
    ensures r.state.pipe.topology == p.topology
    ensures r.state.pipe.vertexShader == p.vertexShader && r.state.pipe.pixelShader == p.pixelShader
    ensures r.state.pipe.inputLayout == p.inputLayout && r.state.pipe.rasterizerState == p.rasterizerState
    ensures r.state.pipe.viewports == [p.viewport] && r.state.pipe.scissors == [p.scissor]
    ensures r.state.pipe.blendState == p.blendState && r.state.pipe.blendFactor == [1.0, 1.0, 1.0, 1.0]
    ensures r.state.pipe.sampleMask == 0xffff_ffff
    ensures r.state.pipe.depthStencilState == p.depthStencilState && r.state.pipe.stencilRef == 0
    ensures r.state == c.state.(pipe := r.state.pipe)
    ensures r.draws == c.draws && r.clears == c.clears
  {
    var calls := BindCalls(p);
    var r := Exec(c, calls);
    BindEffect(p, c);
    r
  }

  lemma BindEffect(p: Pipeline, c: Ctx)
    ensures Exec(c, BindCalls(p)) == c.(state := c.state.(pipe := Stage(p)))
  {
    var s := BindCalls(p);
    assert s == s[..4] + s[4..];
    ExecAppend(c, s[..4], s[4..]);
    BindFirstHalf(p, c);
    BindSecondHalf(p, Exec(c, s[..4]));
  }

  /** Topology, vertex shader, input layout and rasterizer state. */
  lemma BindFirstHalf(p: Pipeline, c: Ctx)
    ensures Exec(c, BindCalls(p)[..4]) ==
            c.(state := c.state.(pipe := c.state.pipe.(topology := p.topology, vertexShader := p.vertexShader,
                                                      inputLayout := p.inputLayout, rasterizerState := p.rasterizerState)))
  {
    var s := BindCalls(p)[..4];
    var c1 := Step(c, s[0]);
    var c2 := Step(c1, s[1]);
    var c3 := Step(c2, s[2]);
    ExecUnroll(c, s, 0);
    ExecUnroll(c1, s, 1);
    ExecUnroll(c2, s, 2);
    ExecUnroll(c3, s, 3);
    assert s[4..] == [];
  }

  /** Viewport, scissor, pixel shader, blend and depth-stencil state. */
  lemma BindSecondHalf(p: Pipeline, c: Ctx)
    ensures Exec(c, BindCalls(p)[4..]) ==
            c.(state := c.state.(pipe := c.state.pipe.(viewports := [p.viewport], scissors := [p.scissor],
                                                      pixelShader := p.pixelShader, blendState := p.blendState,
                                                      blendFactor := [1.0, 1.0, 1.0, 1.0], sampleMask := 0xffff_ffff,
                                                      depthStencilState := p.depthStencilState, stencilRef := 0)))
  {
    var a := [SetViewports([p.viewport]), SetScissorRects([p.scissor])];
    var b := [SetPixelShader(p.pixelShader), SetBlendState(p.blendState, [1.0, 1.0, 1.0, 1.0], 0xffff_ffff),
              SetDepthStencilState(p.depthStencilState, 0)];
    assert BindCalls(p)[4..] == a + b;
    ExecAppend(c, a, b);
    ExecTwo(c, a[0], a[1]);
    ExecThree(Exec(c, a), b[0], b[1], b[2]);
  }

  /** Binding the same pipeline twice leaves the context as binding it once. */
  lemma BindIdempotent(p: Pipeline, c: Ctx)
    ensures Bind(p, Bind(p, c)) == Bind(p, c)
  {
  }

  /** After `bind(b)` no pipeline-controlled field remembers an earlier
      `bind(a)`: the result is the same as binding `b` alone. */
  lemma BindForgetsEarlier(a: Pipeline, b: Pipeline, c: Ctx)
    ensures Bind(b, Bind(a, c)) == Bind(b, c)
  {
  }
}
