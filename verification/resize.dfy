/** `OnWindowResized` in its two revisions. Application.cpp recreates the
    depth target and every G-buffer slot at the new size (keeping each
    description's other fields, in particular the format) and resizes the
    viewport and scissor of both pipelines; any failed creation throws.
    main.cpp only creates a new depth SRV and resizes the deferred
    pipeline's viewport and scissor. The swap chain's `ResizeBuffers`
    result is ignored by both and is not modelled. */
module Resize {
  import opened Common
  import Pipeline
  import GBuffer

  const Uint32Modulus: nat := 0x1_0000_0000

  /** A `uint32_t` stored into a 32-bit `LONG` scissor field. */
  function ToLong(x: nat): (r: int)
    requires x < Uint32Modulus
    ensures -0x8000_0000 <= r < 0x8000_0000
    ensures r % Uint32Modulus == x
  {
    if x < 0x8000_0000 then x else x - Uint32Modulus
  }

  /** A pipeline after its viewport's width and height and its scissor's
      right and bottom are set to the window size. */
  function Fit(p: Pipeline.Pipeline, width: nat, height: nat): Pipeline.Pipeline
    requires width < Uint32Modulus && height < Uint32Modulus
  {
    p.(viewport := p.viewport.(width := width as real, height := height as real),
       scissor := p.scissor.(right := ToLong(width), bottom := ToLong(height)))
  }

  /** A pipeline covers a window of this size: viewport and scissor both. */
  predicate Covers(p: Pipeline.Pipeline, width: nat, height: nat)
    requires width < Uint32Modulus && height < Uint32Modulus
  {
    p.viewport.width == width as real && p.viewport.height == height as real
    && p.scissor.right == ToLong(width) && p.scissor.bottom == ToLong(height)
  }

  /** Two pipelines that differ at most in viewport size and scissor extent. */
  predicate SameExceptSize(a: Pipeline.Pipeline, b: Pipeline.Pipeline) {
    a.(viewport := b.viewport, scissor := b.scissor) == b
    && a.viewport.topLeftX == b.viewport.topLeftX && a.viewport.topLeftY == b.viewport.topLeftY
    && a.viewport.minDepth == b.viewport.minDepth && a.viewport.maxDepth == b.viewport.maxDepth
    && a.scissor.left == b.scissor.left && a.scissor.top == b.scissor.top
  }

  /** `Fit` sizes the pipeline to the window and changes nothing else. */
  lemma FitCovers(p: Pipeline.Pipeline, width: nat, height: nat)
    requires width < Uint32Modulus && height < Uint32Modulus
    ensures Covers(Fit(p, width, height), width, height)
    ensures SameExceptSize(p, Fit(p, width, height))
  {
  }

  /** Only the latest size counts: fitting twice is fitting once to the
      second size. */
  lemma FitLatestWins(p: Pipeline.Pipeline, w1: nat, h1: nat, w2: nat, h2: nat)
    requires w1 < Uint32Modulus && h1 < Uint32Modulus && w2 < Uint32Modulus && h2 < Uint32Modulus
    ensures Fit(Fit(p, w1, h1), w2, h2) == Fit(p, w2, h2)
  {
  }

  /** The depth texture and its view, with the size of the texture. */
  datatype DepthTarget = DepthTarget(format: GBuffer.Format, width: nat, height: nat, texture: Handle, view: Handle)

  /** What the Application.cpp resize touches. */
  datatype AppTargets = AppTargets(depth: DepthTarget, gbuffer: GBuffer.AppGBuffer,
                                   deferred: Pipeline.Pipeline, lighting: Pipeline.Pipeline)

  const SlotMessages: set<string> := {"Failed to create resized GBuffer texture!",
                                      "Failed to create resized GBuffer texture RTV!",
                                      "Failed to create resized GBuffer texture! SRV"}

  const DepthMessages: set<string> := {"Failed to create resized Depth Stencil texture!",
                                       "Failed to create resized Depth Stencil View!"}

  /** The resized slot whose texture is creation `at` fails with
      `message`: the message of the first of its three creations that
      fails. */
  predicate ResizedSlotFailsWith(failing: set<nat>, at: nat, message: string) {
    if at in failing then message == "Failed to create resized GBuffer texture!"
    else if at + 1 in failing then message == "Failed to create resized GBuffer texture RTV!"
    else at + 2 in failing && message == "Failed to create resized GBuffer texture! SRV"
  }

  /** One slot recreated from its own descriptions at the new size. */
  function ResizeSlot(dev: Device, s: GBuffer.Slot, width: nat, height: nat): (r: Result<(GBuffer.Slot, Device)>)
    ensures r.Ok? <==> NoneFail(dev.failing, dev.issued, dev.issued + 3)
    ensures r.Ok? ==> r.value == (GBuffer.Slot(s.format, width, height, Obj(dev.issued), Obj(dev.issued + 1), Obj(dev.issued + 2)),
                                  Device(dev.issued + 3, dev.failing))
    ensures r.Err? ==> r.message in SlotMessages
    ensures r.Err? ==> ResizedSlotFailsWith(dev.failing, dev.issued, r.message)
  {
    var (d1, texture) := dev.Create();
    if texture.None? then Err("Failed to create resized GBuffer texture!")
    else
      var (d2, rtv) := d1.Create();
      if rtv.None? then Err("Failed to create resized GBuffer texture RTV!")
      else
        var (d3, srv) := d2.Create();
        if srv.None? then Err("Failed to create resized GBuffer texture! SRV")
        else Ok((GBuffer.Slot(s.format, width, height, texture.value, rtv.value, srv.value), d3))
  }

  /** `slots` are `prev` recreated at `width` x `height` from creation `base`
      on, three objects per slot, each slot keeping its format. */
  predicate Recreated(slots: seq<GBuffer.Slot>, prev: seq<GBuffer.Slot>, width: nat, height: nat, base: nat) {
    |slots| == |prev|
    && forall i | 0 <= i < |prev| ::
         slots[i] == GBuffer.Slot(prev[i].format, width, height, Obj(base + 3 * i), Obj(base + 3 * i + 1), Obj(base + 3 * i + 2))
  }

  /** A recreated first slot in front of the recreated rest. */
  lemma RecreatedCons(first: GBuffer.Slot, rest: seq<GBuffer.Slot>, prev: seq<GBuffer.Slot>, width: nat, height: nat, base: nat)
    requires |prev| > 0
    requires first == GBuffer.Slot(prev[0].format, width, height, Obj(base), Obj(base + 1), Obj(base + 2))
    requires Recreated(rest, prev[1..], width, height, base + 3)
    ensures Recreated([first] + rest, prev, width, height, base)
  {
    var slots := [first] + rest;
    forall i | 1 <= i < |prev|
      ensures slots[i] == GBuffer.Slot(prev[i].format, width, height, Obj(base + 3 * i), Obj(base + 3 * i + 1), Obj(base + 3 * i + 2))
    {
      assert slots[i] == rest[i - 1] && prev[i] == prev[1..][i - 1];
      assert base + 3 + 3 * (i - 1) == base + 3 * i;
    }
  }

  /** The slot loop: slots recreated in order; the first failure throws. */
  function ResizeSlots(dev: Device, prev: seq<GBuffer.Slot>, width: nat, height: nat): (r: Result<(seq<GBuffer.Slot>, Device)>)
    ensures r.Ok? <==> NoneFail(dev.failing, dev.issued, dev.issued + 3 * |prev|)
    ensures r.Ok? ==> Recreated(r.value.0, prev, width, height, dev.issued)
    ensures r.Ok? ==> r.value.1 == Device(dev.issued + 3 * |prev|, dev.failing)
    ensures r.Err? ==> r.message in SlotMessages
    decreases |prev|
  {
    if |prev| == 0 then Ok(([], dev))
    else
      NoneFailSplit(dev.failing, dev.issued, dev.issued + 3, dev.issued + 3 * |prev|);
      var first := ResizeSlot(dev, prev[0], width, height);
      if first.Err? then Err(first.message)
      else
        var rest := ResizeSlots(first.value.1, prev[1..], width, height);
        if rest.Err? then Err(rest.message)
        else
          RecreatedCons(first.value.0, rest.value.0, prev, width, height, dev.issued);
          Ok(([first.value.0] + rest.value.0, rest.value.1))
  }

  /** The resize slot loop throws the message of the first slot whose
      creations fail, naming the first of that slot's three creations that
      fails. */
  lemma {:induction false} ResizeSlotsFailsAtFirstFailingSlot(dev: Device, prev: seq<GBuffer.Slot>, width: nat, height: nat, j: nat)
    requires j < |prev|
    requires GBuffer.FirstFailingSlot(dev.failing, dev.issued, j)
    ensures ResizeSlots(dev, prev, width, height).Err?
    ensures ResizedSlotFailsWith(dev.failing, dev.issued + 3 * j, ResizeSlots(dev, prev, width, height).message)
    decreases j
  {
    var first := ResizeSlot(dev, prev[0], width, height);
    if j > 0 {
      GBuffer.FirstFailingShift(dev.failing, dev.issued, j);
      ResizeSlotsFailsAtFirstFailingSlot(first.value.1, prev[1..], width, height, j - 1);
    }
  }

  /** The release calls of the slot loop, per slot: texture, RTV, SRV. */
  function ResizeReleases(prev: seq<GBuffer.Slot>): (released: seq<Handle>)
    ensures |released| == 3 * |prev|
    decreases |prev|
  {
    if |prev| == 0 then [] else [prev[0].texture, prev[0].rtv, prev[0].srv] + ResizeReleases(prev[1..])
  }

  /** The slot loop releases exactly the objects the slots held. */
  lemma {:induction false} ResizeReleasesAllSlotObjects(prev: seq<GBuffer.Slot>, h: Handle)
    ensures h in ResizeReleases(prev) <==> h in GBuffer.SlotsObjects(prev)
    decreases |prev|
  {
    if |prev| > 0 {
      ResizeReleasesAllSlotObjects(prev[1..], h);
      assert GBuffer.SlotsObjects(prev) == GBuffer.SlotObjects(prev[0]) + GBuffer.SlotsObjects(prev[1..]);
      assert ResizeReleases(prev) == [prev[0].texture, prev[0].rtv, prev[0].srv] + ResizeReleases(prev[1..]);
    }
  }

  /** Application.cpp `OnWindowResized`: the depth texture and view are
      released and recreated at the new size, the deferred pipeline is
      fitted, every slot is released and recreated, the lighting pipeline
      is fitted. The result carries the objects released, in order. */
  function ResizeApp(t: AppTargets, dev: Device, width: nat, height: nat): (r: Result<(AppTargets, Device, seq<Handle>)>)
    requires width < Uint32Modulus && height < Uint32Modulus
    ensures r.Ok? <==> NoneFail(dev.failing, dev.issued, dev.issued + 2 + 3 * |t.gbuffer.slots|)
    ensures r.Ok? ==> r.value.0.depth == DepthTarget(t.depth.format, width, height, Obj(dev.issued), Obj(dev.issued + 1))
    ensures r.Ok? ==> Recreated(r.value.0.gbuffer.slots, t.gbuffer.slots, width, height, dev.issued + 2)
    ensures r.Ok? ==> r.value.0.gbuffer.sampler == t.gbuffer.sampler
    ensures r.Ok? ==> r.value.0.deferred == Fit(t.deferred, width, height) && r.value.0.lighting == Fit(t.lighting, width, height)
    ensures r.Ok? ==> r.value.1 == Device(dev.issued + 2 + 3 * |t.gbuffer.slots|, dev.failing)
    ensures r.Ok? ==> r.value.2 == [t.depth.texture, t.depth.view] + ResizeReleases(t.gbuffer.slots)
    ensures r.Err? ==> r.message in DepthMessages + SlotMessages
    ensures dev.issued in dev.failing ==> r == Err("Failed to create resized Depth Stencil texture!")
    ensures dev.issued !in dev.failing && dev.issued + 1 in dev.failing ==> r == Err("Failed to create resized Depth Stencil View!")
    ensures r.Err? && NoneFail(dev.failing, dev.issued, dev.issued + 2) ==> r.message in SlotMessages
  {
    var (d1, texture) := dev.Create();
    if texture.None? then Err("Failed to create resized Depth Stencil texture!")
    else
      var (d2, view) := d1.Create();
      if view.None? then Err("Failed to create resized Depth Stencil View!")
      else
        NoneFailSplit(dev.failing, dev.issued, dev.issued + 2, dev.issued + 2 + 3 * |t.gbuffer.slots|);
        var deferred := Fit(t.deferred, width, height);
        var slots := ResizeSlots(d2, t.gbuffer.slots, width, height);
        if slots.Err? then Err(slots.message)
        else
          Ok((AppTargets(DepthTarget(t.depth.format, width, height, texture.value, view.value),
                         t.gbuffer.(slots := slots.value.0), deferred, Fit(t.lighting, width, height)),
              slots.value.1,
              [t.depth.texture, t.depth.view] + ResizeReleases(t.gbuffer.slots)))
  }

  /** Once the depth texture and view are made, a resize throws the
      message of the first slot whose creations fail. */
  lemma ResizeAppFailsAtFirstFailingSlot(t: AppTargets, dev: Device, width: nat, height: nat, j: nat)
    requires width < Uint32Modulus && height < Uint32Modulus
    requires j < |t.gbuffer.slots|
    requires NoneFail(dev.failing, dev.issued, dev.issued + 2)
    requires GBuffer.FirstFailingSlot(dev.failing, dev.issued + 2, j)
    ensures ResizeApp(t, dev, width, height).Err?
    ensures ResizedSlotFailsWith(dev.failing, dev.issued + 2 + 3 * j, ResizeApp(t, dev, width, height).message)
  {
    ResizeSlotsFailsAtFirstFailingSlot(Device(dev.issued + 2, dev.failing), t.gbuffer.slots, width, height, j);
  }

  /** Every render target and both pipelines match the window size. */
  predicate FitsWindow(t: AppTargets, width: nat, height: nat)
    requires width < Uint32Modulus && height < Uint32Modulus
  {
    t.depth.width == width && t.depth.height == height
    && (forall i | 0 <= i < |t.gbuffer.slots| :: t.gbuffer.slots[i].width == width && t.gbuffer.slots[i].height == height)
    && Covers(t.deferred, width, height) && Covers(t.lighting, width, height)
  }

  /** What a resize must not change: the number of slots and their formats,
      the sampler, the depth format, and every pipeline field other than
      the viewport size and scissor extent. */
  predicate SameLayout(a: AppTargets, b: AppTargets) {
    |a.gbuffer.slots| == |b.gbuffer.slots|
    && (forall i | 0 <= i < |a.gbuffer.slots| :: a.gbuffer.slots[i].format == b.gbuffer.slots[i].format)
    && a.gbuffer.sampler == b.gbuffer.sampler && a.depth.format == b.depth.format
    && SameExceptSize(a.deferred, b.deferred) && SameExceptSize(a.lighting, b.lighting)
  }

  /** A successful resize leaves everything at the window size and the
      layout as it was; the objects it releases are exactly the depth
      texture and view and the old slots' objects, and everything it
      installs is new. */
  lemma ResizeAppFits(t: AppTargets, dev: Device, width: nat, height: nat)
    requires width < Uint32Modulus && height < Uint32Modulus
    requires ResizeApp(t, dev, width, height).Ok?
    ensures var (u, d, released) := ResizeApp(t, dev, width, height).value;
            FitsWindow(u, width, height) && SameLayout(t, u)
            && (forall h :: h in released <==> h in [t.depth.texture, t.depth.view] || h in GBuffer.SlotsObjects(t.gbuffer.slots))
            && (forall h | h in GBuffer.SlotsObjects(u.gbuffer.slots) :: IssuedBetween(h, dev.issued, d.issued))
  {
    var (u, d, released) := ResizeApp(t, dev, width, height).value;
    FitCovers(t.deferred, width, height);
    FitCovers(t.lighting, width, height);
    forall h ensures h in released <==> h in [t.depth.texture, t.depth.view] || h in GBuffer.SlotsObjects(t.gbuffer.slots) {
      ResizeReleasesAllSlotObjects(t.gbuffer.slots, h);
    }
    forall h | h in GBuffer.SlotsObjects(u.gbuffer.slots)
      ensures IssuedBetween(h, dev.issued, d.issued)
    {
      GBuffer.SlotsObjectsMembership(u.gbuffer.slots, h);
      var i :| 0 <= i < |u.gbuffer.slots| && h in GBuffer.SlotObjects(u.gbuffer.slots[i]);
      assert 3 * i + 2 < 3 * |t.gbuffer.slots|;
    }
  }

  /** A run of resizes, one window size after another; the first failure
      throws. */
  function ResizeMany(t: AppTargets, dev: Device, sizes: seq<(nat, nat)>): Result<(AppTargets, Device)>
    requires forall i | 0 <= i < |sizes| :: sizes[i].0 < Uint32Modulus && sizes[i].1 < Uint32Modulus
    decreases |sizes|
  {
    if |sizes| == 0 then Ok((t, dev))
    else
      var r := ResizeApp(t, dev, sizes[0].0, sizes[0].1);
      if r.Err? then Err(r.message)
      else ResizeMany(r.value.0, r.value.1, sizes[1..])
  }

  lemma SameLayoutTransitive(a: AppTargets, b: AppTargets, c: AppTargets)
    requires SameLayout(a, b) && SameLayout(b, c)
    ensures SameLayout(a, c)
  {
  }

  /** However many times the window is resized, the G-buffer keeps its
      slots and their formats and the pipelines keep everything but their
      size; after the last resize everything matches the last size. */
  lemma {:induction false} ResizeManyKeepsLayout(t: AppTargets, dev: Device, sizes: seq<(nat, nat)>)
    requires forall i | 0 <= i < |sizes| :: sizes[i].0 < Uint32Modulus && sizes[i].1 < Uint32Modulus
    requires ResizeMany(t, dev, sizes).Ok?
    ensures SameLayout(t, ResizeMany(t, dev, sizes).value.0)
    ensures |sizes| > 0 ==> FitsWindow(ResizeMany(t, dev, sizes).value.0, sizes[|sizes| - 1].0, sizes[|sizes| - 1].1)
    decreases |sizes|
  {
    if |sizes| > 0 {
      var (w, h) := sizes[0];
      var r := ResizeApp(t, dev, w, h).value;
      ResizeAppFits(t, dev, w, h);
      var rest := sizes[1..];
      ResizeManyKeepsLayout(r.0, r.1, rest);
      SameLayoutTransitive(t, r.0, ResizeMany(r.0, r.1, rest).value.0);
      if |rest| > 0 {
        assert sizes[|sizes| - 1] == rest[|rest| - 1];
      }
    }
  }

  /** What the main.cpp resize touches: the depth texture and its SRV (the
      one shown in the debug window), the G-buffer and both pipelines. */
  datatype MainTargets = MainTargets(depthTexture: Handle, depthSrv: Handle, gbuffer: GBuffer.MainGBuffer,
                                     deferred: Pipeline.Pipeline, lighting: Pipeline.Pipeline)

  /** main.cpp `OnWindowResized`: a new SRV of the existing depth texture
      replaces the old one, which is not released (the result's last part
      lists such leaked objects); the deferred pipeline is fitted; the
      depth texture, the G-buffer and the lighting pipeline are left
      untouched. */
  function ResizeMain(t: MainTargets, dev: Device, width: nat, height: nat): (r: Result<(MainTargets, Device, seq<Handle>)>)
    requires width < Uint32Modulus && height < Uint32Modulus
    ensures r.Ok? <==> dev.issued !in dev.failing
    ensures r.Err? ==> r.message == "Failed to create depth texture SRV!"
    ensures r.Ok? ==> r.value.0.depthSrv == Obj(dev.issued) && r.value.1 == Device(dev.issued + 1, dev.failing)
    ensures r.Ok? ==> Covers(r.value.0.deferred, width, height) && SameExceptSize(t.deferred, r.value.0.deferred)
    ensures r.Ok? ==> r.value.0.depthTexture == t.depthTexture && r.value.0.gbuffer == t.gbuffer
                      && r.value.0.lighting == t.lighting
    ensures r.Ok? ==> r.value.2 == [t.depthSrv]
  {
    var (d1, srv) := dev.Create();
    if srv.None? then Err("Failed to create depth texture SRV!")
    else
      FitCovers(t.deferred, width, height);
      Ok((t.(depthSrv := srv.value, deferred := Fit(t.deferred, width, height)), d1, [t.depthSrv]))
  }

  /** In this revision a resize leaves the G-buffer at its old size: a slot
      created for another size no longer matches the deferred viewport
      the geometry pass now renders with. */
  lemma MainResizeKeepsGBufferSize(t: MainTargets, dev: Device, width: nat, height: nat, i: nat)
    requires width < Uint32Modulus && height < Uint32Modulus
    requires i < |t.gbuffer.slots| && t.gbuffer.slots[i].width != width
    requires ResizeMain(t, dev, width, height).Ok?
    ensures var u := ResizeMain(t, dev, width, height).value.0;
            u.gbuffer.slots[i].width == t.gbuffer.slots[i].width
            && u.deferred.viewport.width != u.gbuffer.slots[i].width as real
  {
  }
}
