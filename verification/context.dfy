/** The D3D11 immediate context as the renderer uses it: a record of the
    state that the `IASet*`, `VSSet*`, `RSSet*`, `PSSet*` and `OMSet*` calls
    write, a log of clears and a log of indexed draws, each draw remembering
    the state it was issued with. Every operation of the renderer is modelled
    as the list of context calls it issues; `Exec` plays such a list. */
module Context {
  import opened Common

  datatype Topology = TriangleList | TriangleStrip

  datatype Viewport = Viewport(topLeftX: real, topLeftY: real, width: real, height: real,
                               minDepth: real, maxDepth: real)

  /** A `D3D11_RECT` (fields are 32-bit `LONG`s in the source). */
  datatype Rect = Rect(left: int, top: int, right: int, bottom: int)

  /** What one Map / memcpy / Unmap sequence leaves in a dynamic constant
      buffer: the per-frame uniforms, a material's flag block or a light. */
  datatype Payload = FrameUniforms | MaterialFlags(flags: seq<int>) | LightRecord(light: nat)

  /** The part of the context that `GraphicsPipeline::bind` writes. */
  datatype PipelineStage = PipelineStage(
    topology: Topology,
    vertexShader: Handle,
    inputLayout: Handle,
    rasterizerState: Handle,
    viewports: seq<Viewport>,
    scissors: seq<Rect>,
    pixelShader: Handle,
    blendState: Handle,
    blendFactor: seq<real>,
    sampleMask: int,
    depthStencilState: Handle,
    stencilRef: int)

  /** Everything else a draw depends on. Slot tables are partial maps; a slot
      that was never written reads as `Null`, as on a fresh context. */
  datatype Bindings = Bindings(
    pipe: PipelineStage,
    renderTargets: seq<Handle>,
    depthView: Handle,
    psResources: map<nat, Handle>,
    psSamplers: map<nat, Handle>,
    vsConstants: map<nat, Handle>,
    psConstants: map<nat, Handle>,
    vertexBuffer: Handle,
    vertexStride: nat,
    vertexOffset: nat,
    indexBuffer: Handle,
    uploads: map<Handle, Payload>)

  datatype Draw = Draw(at: Bindings, indexCount: nat, startIndex: nat, baseVertex: int)

  datatype Ctx = Ctx(state: Bindings, draws: seq<Draw>, clears: seq<Handle>)

  datatype Call =
    | SetTopology(topology: Topology)
    | SetVertexShader(vs: Handle)
    | SetInputLayout(layout: Handle)
    | SetRasterizerState(rs: Handle)
    | SetViewports(viewports: seq<Viewport>)
    | SetScissorRects(rects: seq<Rect>)
    | SetPixelShader(ps: Handle)
    | SetBlendState(blend: Handle, factor: seq<real>, mask: int)
    | SetDepthStencilState(dss: Handle, stencilRef: int)
    | SetRenderTargets(views: seq<Handle>, depth: Handle)
    | ClearRenderTarget(view: Handle)
    | ClearDepthStencil(view: Handle)
    | SetPSResources(start: nat, views: seq<Handle>)
    | SetPSSamplers(start: nat, samplers: seq<Handle>)
    | SetVSConstantBuffers(start: nat, buffers: seq<Handle>)
    | SetPSConstantBuffers(start: nat, buffers: seq<Handle>)
    | SetVertexBuffer(buffer: Handle, stride: nat, offset: nat)
    | SetIndexBuffer(buffer: Handle)
    | Upload(buffer: Handle, payload: Payload)
    | DrawIndexed(indexCount: nat, startIndex: nat, baseVertex: int)

  /** Reads a slot table; unwritten slots hold `Null`. */
  function Slot(m: map<nat, Handle>, k: nat): Handle {
    if k in m then m[k] else Null
  }

  /** `XXSet*(start, |hs|, hs)`: slots start .. start+|hs|-1 receive hs in
      order, every other slot keeps its value. */
  function SetRange(m: map<nat, Handle>, start: nat, hs: seq<Handle>): (r: map<nat, Handle>)
    ensures forall k: nat :: Slot(r, k) == if start <= k < start + |hs| then hs[k - start] else Slot(m, k)
    decreases |hs|
  {
    if |hs| == 0 then m
    else SetRange(m[start := hs[0]], start + 1, hs[1..])
  }

  /** The effect of one context call. */
  function Step(c: Ctx, call: Call): Ctx {
    var b := c.state;
    var p := b.pipe;
    match call
    case SetTopology(t) => c.(state := b.(pipe := p.(topology := t)))
    case SetVertexShader(vs) => c.(state := b.(pipe := p.(vertexShader := vs)))
    case SetInputLayout(l) => c.(state := b.(pipe := p.(inputLayout := l)))
    case SetRasterizerState(rs) => c.(state := b.(pipe := p.(rasterizerState := rs)))
    case SetViewports(vps) => c.(state := b.(pipe := p.(viewports := vps)))
    case SetScissorRects(rs) => c.(state := b.(pipe := p.(scissors := rs)))
    case SetPixelShader(ps) => c.(state := b.(pipe := p.(pixelShader := ps)))
    case SetBlendState(bs, f, m) => c.(state := b.(pipe := p.(blendState := bs, blendFactor := f, sampleMask := m)))
    case SetDepthStencilState(dss, r) => c.(state := b.(pipe := p.(depthStencilState := dss, stencilRef := r)))
    case SetRenderTargets(vs, d) => c.(state := b.(renderTargets := vs, depthView := d))
    case ClearRenderTarget(v) => c.(clears := c.clears + [v])
    case ClearDepthStencil(v) => c.(clears := c.clears + [v])
    case SetPSResources(s, vs) => c.(state := b.(psResources := SetRange(b.psResources, s, vs)))
    case SetPSSamplers(s, ss) => c.(state := b.(psSamplers := SetRange(b.psSamplers, s, ss)))
    case SetVSConstantBuffers(s, bs) => c.(state := b.(vsConstants := SetRange(b.vsConstants, s, bs)))
    case SetPSConstantBuffers(s, bs) => c.(state := b.(psConstants := SetRange(b.psConstants, s, bs)))
    case SetVertexBuffer(vb, st, off) => c.(state := b.(vertexBuffer := vb, vertexStride := st, vertexOffset := off))
    case SetIndexBuffer(ib) => c.(state := b.(indexBuffer := ib))
    case Upload(buf, pl) => c.(state := b.(uploads := b.uploads[buf := pl]))
    case DrawIndexed(n, s, bv) => c.(draws := c.draws + [Draw(b, n, s, bv)])
  }

  /** Plays a list of calls in order. */
  function Exec(c: Ctx, calls: seq<Call>): Ctx
    decreases |calls|
  {
    if |calls| == 0 then c else Exec(Step(c, calls[0]), calls[1..])
  }

  /** Playing `a` then `b` is playing `a + b`. */
  lemma {:induction false} ExecAppend(c: Ctx, a: seq<Call>, b: seq<Call>)
    ensures Exec(c, a + b) == Exec(Exec(c, a), b)
    decreases |a|
  {
    if |a| == 0 {
      assert a + b == b;
    } else {
      assert (a + b)[0] == a[0];
      assert (a + b)[1..] == a[1..] + b;
      ExecAppend(Step(c, a[0]), a[1..], b);
    }
  }

  lemma ExecOne(c: Ctx, x: Call)
    ensures Exec(c, [x]) == Step(c, x)
  {
    assert [x][1..] == [];
  }

  /** `Step` on an upload and on a constant-buffer binding. */
  lemma StepUpload(c: Ctx, buf: Handle, pl: Payload)
    ensures Step(c, Upload(buf, pl)) == c.(state := c.state.(uploads := c.state.uploads[buf := pl]))
  {
  }

  lemma StepConstants(c: Ctx, start: nat, bs: seq<Handle>)
    ensures Step(c, SetVSConstantBuffers(start, bs)) == c.(state := c.state.(vsConstants := SetRange(c.state.vsConstants, start, bs)))
    ensures Step(c, SetPSConstantBuffers(start, bs)) == c.(state := c.state.(psConstants := SetRange(c.state.psConstants, start, bs)))
  {
  }

  /** Binding a vertex and an index buffer and drawing from the start of
      both: one draw, recorded with the new bindings. */
  lemma ExecBuffersAndDraw(c: Ctx, vb: Handle, stride: nat, offset: nat, ib: Handle, n: nat)
    ensures var b := c.state.(vertexBuffer := vb, vertexStride := stride, vertexOffset := offset, indexBuffer := ib);
            Exec(c, [SetVertexBuffer(vb, stride, offset), SetIndexBuffer(ib), DrawIndexed(n, 0, 0)])
            == Ctx(b, c.draws + [Draw(b, n, 0, 0)], c.clears)
  {
    var x0, x1, x2 := SetVertexBuffer(vb, stride, offset), SetIndexBuffer(ib), DrawIndexed(n, 0, 0);
    ExecThree(c, x0, x1, x2);
    StepBuffers(c, vb, stride, offset, ib);
    StepDraw(Step(Step(c, x0), x1), n);
  }

  /** `Step` on the two buffer bindings and on a draw. */
  lemma StepBuffers(c: Ctx, vb: Handle, stride: nat, offset: nat, ib: Handle)
    ensures Step(Step(c, SetVertexBuffer(vb, stride, offset)), SetIndexBuffer(ib))
            == c.(state := c.state.(vertexBuffer := vb, vertexStride := stride, vertexOffset := offset, indexBuffer := ib))
  {
  }

  lemma StepDraw(c: Ctx, n: nat)
    ensures Step(c, DrawIndexed(n, 0, 0)) == c.(draws := c.draws + [Draw(c.state, n, 0, 0)])
  {
  }

  lemma ExecCons(c: Ctx, x: Call, rest: seq<Call>)
    ensures Exec(c, [x] + rest) == Exec(Step(c, x), rest)
  {
    assert ([x] + rest)[0] == x;
    assert ([x] + rest)[1..] == rest;
  }

  lemma ExecTwo(c: Ctx, x0: Call, x1: Call)
    ensures Exec(c, [x0, x1]) == Step(Step(c, x0), x1)
  {
    ExecCons(c, x0, [x1]);
    assert [x0, x1] == [x0] + [x1];
    ExecOne(Step(c, x0), x1);
  }

  /** Playing a list of calls is stepping through them one at a time. */
  lemma ExecThree(c: Ctx, x0: Call, x1: Call, x2: Call)
    ensures Exec(c, [x0, x1, x2]) == Step(Step(Step(c, x0), x1), x2)
  {
    ExecCons(c, x0, [x1, x2]);
    assert [x0, x1, x2] == [x0] + [x1, x2];
    ExecCons(Step(c, x0), x1, [x2]);
    assert [x1, x2] == [x1] + [x2];
    ExecOne(Step(Step(c, x0), x1), x2);
  }

  /** One step of playing the suffix of `s` that starts at `k`. */
  lemma ExecUnroll(c: Ctx, s: seq<Call>, k: nat)
    requires k < |s|
    ensures Exec(c, s[k..]) == Exec(Step(c, s[k]), s[k + 1..])
  {
    assert s[k..][0] == s[k];
    assert s[k..][1..] == s[k + 1..];
  }

  /** A call that issues no draw. */
  predicate Quiet(call: Call) {
    !call.DrawIndexed?
  }

  /** Calls that issue no draw leave the draw log as it was. */
  lemma {:induction false} ExecQuiet(c: Ctx, calls: seq<Call>)
    requires forall i | 0 <= i < |calls| :: Quiet(calls[i])
    ensures Exec(c, calls).draws == c.draws
    decreases |calls|
  {
    if |calls| > 0 {
      ExecQuiet(Step(c, calls[0]), calls[1..]);
    }
  }

  /** The draw log only grows: earlier draws are never rewritten. */
  lemma {:induction false} ExecKeepsDraws(c: Ctx, calls: seq<Call>)
    ensures |Exec(c, calls).draws| >= |c.draws|
    ensures Exec(c, calls).draws[..|c.draws|] == c.draws
    decreases |calls|
  {
    if |calls| > 0 {
      var c1 := Step(c, calls[0]);
      assert |c1.draws| >= |c.draws| && c1.draws[..|c.draws|] == c.draws;
      ExecKeepsDraws(c1, calls[1..]);
    }
  }
}
