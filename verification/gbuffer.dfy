/** The geometry buffer (G-buffer) of the deferred renderer: a fixed table of
    render-target slots, each a texture with a render-target view and a
    shader-resource view of one fixed format. Two revisions exist: main.cpp
    has three slots and no sampler of its own; Application.h adds a
    SPECULAR slot and owns the point sampler. */
module GBuffer {
  import opened Common
  import opened Context

  /** The DXGI formats the G-buffer and the depth buffer use. */
  datatype Format =
    | R16G16B16A16Float
    | R16G16B16A16Snorm
    | R8G8B8A8UnormSrgb
    | D24UnormS8Uint

  /** `GeometryBuffer::Buffer` of Application.h (main.cpp lacks `Specular`). */
  datatype Buffer = Position | Normal | Albedo | Specular

  /** The enumerator's value, i.e. its slot index. */
  function Index(b: Buffer): nat {
    match b
    case Position => 0
    case Normal => 1
    case Albedo => 2
    case Specular => 3
  }

  /** `formats[MAX_BUFFER]` of main.cpp. */
  function MainFormats(): seq<Format> {
    [R16G16B16A16Float, R16G16B16A16Snorm, R8G8B8A8UnormSrgb]
  }

  /** `formats[MAX_BUFFER]` of Application.h. */
  function AppFormats(): seq<Format> {
    [R16G16B16A16Float, R16G16B16A16Snorm, R8G8B8A8UnormSrgb, R16G16B16A16Float]
  }

  /** `MAX_BUFFER` of each revision: the enumerator that follows the last slot. */
  const MainMaxBuffer: nat := 3
  const AppMaxBuffer: nat := 4

  /** Each enumerator of the Application.h revision names the slot of its
      index, the table has one format per slot, and the main.cpp table is
      the same table without the SPECULAR slot. */
  lemma FormatTables()
    ensures |AppFormats()| == AppMaxBuffer && AppMaxBuffer == Index(Specular) + 1
    ensures |MainFormats()| == MainMaxBuffer && MainMaxBuffer == Index(Albedo) + 1
    ensures AppFormats()[Index(Position)] == R16G16B16A16Float
    ensures AppFormats()[Index(Normal)] == R16G16B16A16Snorm
    ensures AppFormats()[Index(Albedo)] == R8G8B8A8UnormSrgb
    ensures AppFormats()[Index(Specular)] == R16G16B16A16Float
    ensures AppFormats()[..MainMaxBuffer] == MainFormats()
    ensures forall b: Buffer, c: Buffer :: b != c ==> Index(b) != Index(c)
  {
  }

  /** One slot: the texture description fields that matter here and the
      three objects (`textures[i]`, `textureViews[i]`,
      `textureResourceViews[i]`). */
  datatype Slot = Slot(format: Format, width: nat, height: nat, texture: Handle, rtv: Handle, srv: Handle)

  /** The three objects of a slot, in the order the destructor releases them. */
  function SlotObjects(s: Slot): seq<Handle> {
    [s.srv, s.rtv, s.texture]
  }

  /** All objects of a slot table, slot by slot. */
  function SlotsObjects(slots: seq<Slot>): (hs: seq<Handle>)
    ensures |hs| == 3 * |slots|
    decreases |slots|
  {
    if |slots| == 0 then [] else SlotObjects(slots[0]) + SlotsObjects(slots[1..])
  }

  /** An object is in the flattened table iff some slot holds it. */
  lemma {:induction false} SlotsObjectsMembership(slots: seq<Slot>, h: Handle)
    ensures h in SlotsObjects(slots) <==> exists i | 0 <= i < |slots| :: h in SlotObjects(slots[i])
    decreases |slots|
  {
    if |slots| > 0 {
      SlotsObjectsMembership(slots[1..], h);
      if exists i | 0 <= i < |slots| :: h in SlotObjects(slots[i]) {
        var i :| 0 <= i < |slots| && h in SlotObjects(slots[i]);
        if i > 0 {
          assert slots[1..][i - 1] == slots[i];
        }
      }
      if exists i | 0 <= i < |slots[1..]| :: h in SlotObjects(slots[1..][i]) {
        var i :| 0 <= i < |slots[1..]| && h in SlotObjects(slots[1..][i]);
        assert slots[i + 1] == slots[1..][i];
      }
    }
  }

  /** The main.cpp `GeometryBuffer`. */
  datatype MainGBuffer = MainGBuffer(slots: seq<Slot>)

  /** The Application.h `GeometryBuffer`, which also owns the point sampler. */
  datatype AppGBuffer = AppGBuffer(slots: seq<Slot>, sampler: Handle)

  /** `glfwGetWindowSize` reports `int32_t` sizes that are stored into the
      `UINT` fields of the texture description. */
  function ToUint32(x: int): (r: nat)
    requires -0x8000_0000 <= x < 0x8000_0000
    ensures r < 0x1_0000_0000
    ensures x >= 0 ==> r == x
    ensures x < 0 ==> r == x + 0x1_0000_0000
  {
    x % 0x1_0000_0000
  }

  /** `slots` are slots `from ..` of a table made from `formats`, all of
      one size, slot `j` holding the objects with ids `base + stride * j`,
      `+ 1` and `+ 2` (texture, RTV, SRV). */
  predicate SlotsMade(slots: seq<Slot>, formats: seq<Format>, from: nat, width: nat, height: nat, base: nat, stride: nat)
    requires from <= |formats|
  {
    |slots| == |formats| - from &&
    forall j | 0 <= j < |slots| ::
      slots[j] == Slot(formats[from + j], width, height,
                       Obj(base + stride * j), Obj(base + stride * j + 1), Obj(base + stride * j + 2))
  }

  /** A slot made at `base` followed by the slots made after it. */
  lemma SlotsMadeCons(first: Slot, rest: seq<Slot>, formats: seq<Format>, from: nat, width: nat, height: nat,
                      base: nat, stride: nat)
    requires from < |formats|
    requires first == Slot(formats[from], width, height, Obj(base), Obj(base + 1), Obj(base + 2))
    requires SlotsMade(rest, formats, from + 1, width, height, base + stride, stride)
    ensures SlotsMade([first] + rest, formats, from, width, height, base, stride)
  {
    var slots := [first] + rest;
    forall j | 1 <= j < |slots|
      ensures slots[j] == Slot(formats[from + j], width, height,
                               Obj(base + stride * j), Obj(base + stride * j + 1), Obj(base + stride * j + 2))
    {
      assert slots[j] == rest[j - 1];
      assert base + stride * j == base + stride + stride * (j - 1);
    }
  }

  /** Only the object ids of `SlotsMade`. */
  predicate SlotsAt(slots: seq<Slot>, base: nat, stride: nat) {
    forall i | 0 <= i < |slots| ::
      slots[i].texture == Obj(base + stride * i) && slots[i].rtv == Obj(base + stride * i + 1)
      && slots[i].srv == Obj(base + stride * i + 2)
  }

  lemma SlotsMadeAt(slots: seq<Slot>, formats: seq<Format>, from: nat, width: nat, height: nat, base: nat, stride: nat)
    requires from <= |formats| && SlotsMade(slots, formats, from, width, height, base, stride)
    ensures SlotsAt(slots, base, stride)
  {
  }

  /** The slot whose texture is creation `at` fails with `message`: the
      message of the first of its three creations that fails. */
  predicate SlotFailsWith(failing: set<nat>, at: nat, message: string) {
    if at in failing then message == "Failed to create gbuffer texture!"
    else if at + 1 in failing then message == "Failed to create gbuffer RTV!"
    else at + 2 in failing && message == "Failed to create gbuffer SRV!"
  }

  /** Slot `j` counted from creation `base` is the first whose creations
      fail: the `3j` creations before it all succeed and one of its own
      three fails. */
  predicate FirstFailingSlot(failing: set<nat>, base: nat, j: nat) {
    NoneFail(failing, base, base + 3 * j) && !NoneFail(failing, base + 3 * j, base + 3 * j + 3)
  }

  /** A later slot is first to fail from the slot after `base` on too. */
  lemma FirstFailingShift(failing: set<nat>, base: nat, j: nat)
    requires 0 < j && FirstFailingSlot(failing, base, j)
    ensures NoneFail(failing, base, base + 3) && FirstFailingSlot(failing, base + 3, j - 1)
  {
    NoneFailSplit(failing, base, base + 3, base + 3 * j);
  }

  /** One slot: texture, render-target view and shader-resource view, each
      checked; the first failed creation throws with the source's message. */
  function CreateSlot(dev: Device, format: Format, width: nat, height: nat): (r: Result<(Slot, Device)>)
    ensures r.Ok? <==> NoneFail(dev.failing, dev.issued, dev.issued + 3)
    ensures r.Ok? ==> r.value.1 == Device(dev.issued + 3, dev.failing)
    ensures r.Ok? ==> r.value.0 == Slot(format, width, height, Obj(dev.issued), Obj(dev.issued + 1), Obj(dev.issued + 2))
    ensures r.Err? ==> r.message in {"Failed to create gbuffer texture!", "Failed to create gbuffer RTV!", "Failed to create gbuffer SRV!"}
    ensures r.Err? ==> SlotFailsWith(dev.failing, dev.issued, r.message)
  {
    var (d1, texture) := dev.Create();
    if texture.None? then Err("Failed to create gbuffer texture!")
    else
      var (d2, rtv) := d1.Create();
      if rtv.None? then Err("Failed to create gbuffer RTV!")
      else
        var (d3, srv) := d2.Create();
        if srv.None? then Err("Failed to create gbuffer SRV!")
        else Ok((Slot(format, width, height, texture.value, rtv.value, srv.value), d3))
  }

  /** Creates slots `i ..` of the table, in slot order; the first failure
      throws. */
  function CreateSlots(dev: Device, formats: seq<Format>, width: nat, height: nat, i: nat): (r: Result<(seq<Slot>, Device)>)
    requires i <= |formats|
    ensures r.Ok? <==> NoneFail(dev.failing, dev.issued, dev.issued + 3 * (|formats| - i))
    ensures r.Ok? ==> r.value.1 == Device(dev.issued + 3 * (|formats| - i), dev.failing)
    ensures r.Ok? ==> SlotsMade(r.value.0, formats, i, width, height, dev.issued, 3)
    ensures r.Err? ==> r.message in {"Failed to create gbuffer texture!", "Failed to create gbuffer RTV!", "Failed to create gbuffer SRV!"}
    decreases |formats| - i
  {
    if i == |formats| then Ok(([], dev))
    else
      var first := CreateSlot(dev, formats[i], width, height);
      NoneFailSplit(dev.failing, dev.issued, dev.issued + 3, dev.issued + 3 * (|formats| - i));
      if first.Err? then Err(first.message)
      else
        var rest := CreateSlots(first.value.1, formats, width, height, i + 1);
        if rest.Err? then Err(rest.message)
        else
          SlotsMadeCons(first.value.0, rest.value.0, formats, i, width, height, dev.issued, 3);
          Ok(([first.value.0] + rest.value.0, rest.value.1))
  }

  /** The slot loop throws the message of the first slot whose creations
      fail, naming the first of that slot's three creations that fails. */
  lemma {:induction false} CreateSlotsFailsAtFirstFailingSlot(dev: Device, formats: seq<Format>, width: nat, height: nat,
                                                             i: nat, j: nat)
    requires i <= |formats| && j < |formats| - i
    requires FirstFailingSlot(dev.failing, dev.issued, j)
    ensures CreateSlots(dev, formats, width, height, i).Err?
    ensures SlotFailsWith(dev.failing, dev.issued + 3 * j, CreateSlots(dev, formats, width, height, i).message)
    decreases j
  {
    var first := CreateSlot(dev, formats[i], width, height);
    if j > 0 {
      FirstFailingShift(dev.failing, dev.issued, j);
      CreateSlotsFailsAtFirstFailingSlot(first.value.1, formats, width, height, i + 1, j - 1);
    }
  }

  /** main.cpp `createGbuffers`. */
  function CreateMain(dev: Device, width: int, height: int): (r: Result<(MainGBuffer, Device)>)
    requires -0x8000_0000 <= width < 0x8000_0000 && -0x8000_0000 <= height < 0x8000_0000
    ensures r.Ok? <==> NoneFail(dev.failing, dev.issued, dev.issued + 9)
    ensures r.Ok? ==> r.value.1 == Device(dev.issued + 9, dev.failing)
    ensures r.Ok? ==> SlotsMade(r.value.0.slots, MainFormats(), 0, ToUint32(width), ToUint32(height), dev.issued, 3)
  {
    var r := CreateSlots(dev, MainFormats(), ToUint32(width), ToUint32(height), 0);
    if r.Err? then Err(r.message) else Ok((MainGBuffer(r.value.0), r.value.1))
  }

  /** One iteration of the Application.cpp slot loop as written: the slot's
      three objects, then a point sampler that replaces the buffer's
      current one. */
  function CreateSlotAndSampler(dev: Device, format: Format, width: nat, height: nat): (r: Result<(Slot, Handle, Device)>)
    ensures r.Ok? <==> NoneFail(dev.failing, dev.issued, dev.issued + 4)
    ensures r.Ok? ==> r.value.2 == Device(dev.issued + 4, dev.failing)
    ensures r.Ok? ==> r.value.0 == Slot(format, width, height, Obj(dev.issued), Obj(dev.issued + 1), Obj(dev.issued + 2))
    ensures r.Ok? ==> r.value.1 == Obj(dev.issued + 3)
  {
    var first := CreateSlot(dev, format, width, height);
    NoneFailSplit(dev.failing, dev.issued, dev.issued + 3, dev.issued + 4);
    if first.Err? then Err(first.message)
    else
      var (d, smp) := first.value.1.Create();
      if smp.None? then Err("Failed to create gbuffer sampler")
      else Ok((first.value.0, smp.value, d))
  }

  /** Slots `i ..` of the Application.cpp loop as written; `sampler` is the
      buffer's sampler before iteration `i`. */
  function CreateAppSlotsAsWritten(dev: Device, width: nat, height: nat, i: nat, sampler: Handle)
    : (r: Result<(seq<Slot>, Handle, Device)>)
    requires i <= AppMaxBuffer
    ensures r.Ok? <==> NoneFail(dev.failing, dev.issued, dev.issued + 4 * (AppMaxBuffer - i))
    ensures r.Ok? ==> r.value.2 == Device(dev.issued + 4 * (AppMaxBuffer - i), dev.failing)
    ensures r.Ok? ==> SlotsMade(r.value.0, AppFormats(), i, width, height, dev.issued, 4)
    ensures r.Ok? ==> r.value.1 == (if i == AppMaxBuffer then sampler else Obj(dev.issued + 4 * (AppMaxBuffer - i) - 1))
    decreases AppMaxBuffer - i
  {
    if i == AppMaxBuffer then Ok(([], sampler, dev))
    else
      var first := CreateSlotAndSampler(dev, AppFormats()[i], width, height);
      NoneFailSplit(dev.failing, dev.issued, dev.issued + 4, dev.issued + 4 * (AppMaxBuffer - i));
      if first.Err? then Err(first.message)
      else
        var rest := CreateAppSlotsAsWritten(first.value.2, width, height, i + 1, first.value.1);
        if rest.Err? then Err(rest.message)
        else
          SlotsMadeCons(first.value.0, rest.value.0, AppFormats(), i, width, height, dev.issued, 4);
          Ok(([first.value.0] + rest.value.0, rest.value.1, rest.value.2))
  }

  /** Application.cpp `createGbuffers` as written. */
  function CreateAppAsWritten(dev: Device, width: int, height: int): (r: Result<(AppGBuffer, Device)>)
    requires -0x8000_0000 <= width < 0x8000_0000 && -0x8000_0000 <= height < 0x8000_0000
    ensures r.Ok? <==> NoneFail(dev.failing, dev.issued, dev.issued + 16)
    ensures r.Ok? ==> r.value.1 == Device(dev.issued + 16, dev.failing)
    ensures r.Ok? ==> SlotsMade(r.value.0.slots, AppFormats(), 0, ToUint32(width), ToUint32(height), dev.issued, 4)
    ensures r.Ok? ==> r.value.0.sampler == Obj(dev.issued + 15)
  {
    var r := CreateAppSlotsAsWritten(dev, ToUint32(width), ToUint32(height), 0, Null);
    if r.Err? then Err(r.message) else Ok((AppGBuffer(r.value.0, r.value.1), r.value.2))
  }

  /** Everything an Application.h `GeometryBuffer` owns and will release. */
  function AppOwned(g: AppGBuffer): seq<Handle> {
    [g.sampler] + SlotsObjects(g.slots)
  }

  /** `h` is the buffer's sampler or one of its slots' objects. */
  predicate AppOwns(g: AppGBuffer, h: Handle) {
    h == g.sampler || exists i | 0 <= i < |g.slots| :: h in SlotObjects(g.slots[i])
  }

  lemma AppOwnsIsOwned(g: AppGBuffer, h: Handle)
    ensures AppOwns(g, h) <==> h in AppOwned(g)
  {
    SlotsObjectsMembership(g.slots, h);
  }

  lemma LeakedSamplerNotOwned(g: AppGBuffer, base: nat, j: nat)
    requires |g.slots| == AppMaxBuffer && SlotsAt(g.slots, base, 4) && g.sampler == Obj(base + 15) && j < 3
    ensures !AppOwns(g, Obj(base + 4 * j + 3))
  {
    forall i | 0 <= i < |g.slots|
      ensures Obj(base + 4 * j + 3) !in SlotObjects(g.slots[i])
    {
    }
  }

  /** The objects of a successful as-written `createGbuffers`, read off its
      contract: four slots at stride 4 and the last iteration's sampler. */
  lemma AsWrittenLayout(dev: Device, width: int, height: int)
    requires -0x8000_0000 <= width < 0x8000_0000 && -0x8000_0000 <= height < 0x8000_0000
    requires CreateAppAsWritten(dev, width, height).Ok?
    ensures NoneFail(dev.failing, dev.issued, dev.issued + 16)
    ensures var g := CreateAppAsWritten(dev, width, height).value.0;
            |g.slots| == AppMaxBuffer && SlotsAt(g.slots, dev.issued, 4) && g.sampler == Obj(dev.issued + 15)
  {
    var g := CreateAppAsWritten(dev, width, height).value.0;
    SlotsMadeAt(g.slots, AppFormats(), 0, ToUint32(width), ToUint32(height), dev.issued, 4);
  }

  /** As written, a successful `createGbuffers` creates three samplers that
      end up unowned: those of the first three iterations, each replaced by
      the next iteration's and never released. */
  lemma CreateAppAsWrittenLeaksSamplers(dev: Device, width: int, height: int, j: nat)
    requires -0x8000_0000 <= width < 0x8000_0000 && -0x8000_0000 <= height < 0x8000_0000
    requires CreateAppAsWritten(dev, width, height).Ok?
    requires j < 3
    ensures dev.issued + 4 * j + 3 !in dev.failing
    ensures !AppOwns(CreateAppAsWritten(dev, width, height).value.0, Obj(dev.issued + 4 * j + 3))
  {
    AsWrittenLayout(dev, width, height);
    assert dev.issued <= dev.issued + 4 * j + 3 < dev.issued + 16;
    LeakedSamplerNotOwned(CreateAppAsWritten(dev, width, height).value.0, dev.issued, j);
  }

  /** `createGbuffers` with the sampler created once, after the slot loop:
      the slots are made as in main.cpp, over the four-entry table. */
  function CreateApp(dev: Device, width: int, height: int): (r: Result<(AppGBuffer, Device)>)
    requires -0x8000_0000 <= width < 0x8000_0000 && -0x8000_0000 <= height < 0x8000_0000
    ensures r.Ok? <==> NoneFail(dev.failing, dev.issued, dev.issued + 13)
    ensures r.Ok? ==> r.value.1 == Device(dev.issued + 13, dev.failing)
    ensures r.Ok? ==> SlotsMade(r.value.0.slots, AppFormats(), 0, ToUint32(width), ToUint32(height), dev.issued, 3)
    ensures r.Ok? ==> r.value.0.sampler == Obj(dev.issued + 12)
  {
    var r := CreateSlots(dev, AppFormats(), ToUint32(width), ToUint32(height), 0);
    NoneFailSplit(dev.failing, dev.issued, dev.issued + 12, dev.issued + 13);
    if r.Err? then Err(r.message)
    else
      var (d, smp) := r.value.1.Create();
      if smp.None? then Err("Failed to create gbuffer sampler")
      else Ok((AppGBuffer(r.value.0, smp.value), d))
  }

  lemma SlotsAtOwnAll(g: AppGBuffer, base: nat)
    requires |g.slots| == AppMaxBuffer && SlotsAt(g.slots, base, 3) && g.sampler == Obj(base + 12)
    ensures forall k: nat | base <= k < base + 13 :: AppOwns(g, Obj(k))
  {
    forall k: nat | base <= k < base + 13
      ensures AppOwns(g, Obj(k))
    {
      var j := k - base;
      if j < 12 {
        var i := if j < 3 then 0 else if j < 6 then 1 else if j < 9 then 2 else 3;
        assert Obj(k) in SlotObjects(g.slots[i]);
      }
    }
  }

  /** With the sampler created once, every object `createGbuffers` creates
      is owned by the buffer and so released by its destructor. */
  lemma CreateAppOwnsEverything(dev: Device, width: int, height: int)
    requires -0x8000_0000 <= width < 0x8000_0000 && -0x8000_0000 <= height < 0x8000_0000
    requires CreateApp(dev, width, height).Ok?
    ensures forall k | dev.issued <= k < CreateApp(dev, width, height).value.1.issued ::
              AppOwns(CreateApp(dev, width, height).value.0, Obj(k))
  {
    var g := CreateApp(dev, width, height).value.0;
    SlotsMadeAt(g.slots, AppFormats(), 0, ToUint32(width), ToUint32(height), dev.issued, 3);
    SlotsAtOwnAll(g, dev.issued);
  }

  /** The release list of a slot table: for each slot, its SRV, RTV and
      texture, each only when non-null. */
  function SlotReleases(slots: seq<Slot>): (released: seq<Handle>)
    decreases |slots|
  {
    if |slots| == 0 then []
    else
      var s := slots[0];
      (if s.srv != Null then [s.srv] else []) + (if s.rtv != Null then [s.rtv] else [])
      + (if s.texture != Null then [s.texture] else []) + SlotReleases(slots[1..])
  }

  /** The slot release list holds exactly the non-null objects of the slots. */
  lemma {:induction false} SlotReleasesAreLiveObjects(slots: seq<Slot>, h: Handle)
    ensures h in SlotReleases(slots) <==> h != Null && h in SlotsObjects(slots)
    decreases |slots|
  {
    if |slots| > 0 {
      SlotReleasesAreLiveObjects(slots[1..], h);
      assert SlotsObjects(slots) == SlotObjects(slots[0]) + SlotsObjects(slots[1..]);
    }
  }

  /** The slot release list never repeats an object when no two live
      objects coincide. */
  lemma {:induction false} SlotReleasesCount(slots: seq<Slot>, h: Handle)
    requires h != Null
    requires forall i, j | 0 <= i < j < |SlotsObjects(slots)| :: SlotsObjects(slots)[i] != Null ==> SlotsObjects(slots)[i] != SlotsObjects(slots)[j]
    ensures Count(SlotReleases(slots), h) == (if h in SlotsObjects(slots) then 1 else 0)
    decreases |slots|
  {
    if |slots| > 0 {
      var all := SlotsObjects(slots);
      var s := slots[0];
      var rest := SlotsObjects(slots[1..]);
      assert all == SlotObjects(s) + rest;
      forall i, j | 0 <= i < j < |rest| && rest[i] != Null
        ensures rest[i] != rest[j]
      {
        assert rest[i] == all[i + 3] && rest[j] == all[j + 3];
      }
      SlotReleasesCount(slots[1..], h);
      var head := (if s.srv != Null then [s.srv] else []) + (if s.rtv != Null then [s.rtv] else [])
                  + (if s.texture != Null then [s.texture] else []);
      assert SlotReleases(slots) == head + SlotReleases(slots[1..]);
      CountAppend(head, SlotReleases(slots[1..]), h);
      var a := if s.srv != Null then [s.srv] else [];
      var b := if s.rtv != Null then [s.rtv] else [];
      var c := if s.texture != Null then [s.texture] else [];
      CountAppend(a + b, c, h);
      CountAppend(a, b, h);
      if h in SlotObjects(s) {
        assert h !in rest by {
          forall j | 0 <= j < |rest|
            ensures rest[j] != h
          {
            assert rest[j] == all[j + 3];
            if h == s.srv { assert all[0] == h; }
            else if h == s.rtv { assert all[1] == h; }
            else { assert all[2] == h; }
          }
        }
        SlotReleasesAreLiveObjects(slots[1..], h);
        CountAbsent(SlotReleases(slots[1..]), h);
        assert all[0] != Null ==> all[0] != all[1] && all[0] != all[2];
        assert all[1] != Null ==> all[1] != all[2];
      }
    }
  }

  /** `~GeometryBuffer` of main.cpp: the live slot objects only. */
  function DestroyMain(g: MainGBuffer): (released: seq<Handle>)
    ensures forall h :: h in released <==> h != Null && h in SlotsObjects(g.slots)
  {
    var r := SlotReleases(g.slots);
    forall h ensures h in r <==> h != Null && h in SlotsObjects(g.slots) {
      SlotReleasesAreLiveObjects(g.slots, h);
    }
    r
  }

  /** `~GeometryBuffer` of Application.h: the sampler first, released
      unconditionally (a call through a null pointer if it was never
      created), then the live slot objects. */
  function DestroyApp(g: AppGBuffer): (released: seq<Handle>)
    ensures |released| >= 1 && released[0] == g.sampler
    ensures forall h :: h in released[1..] <==> h != Null && h in SlotsObjects(g.slots)
  {
    var r := [g.sampler] + SlotReleases(g.slots);
    assert r[1..] == SlotReleases(g.slots);
    forall h ensures h in r[1..] <==> h != Null && h in SlotsObjects(g.slots) {
      SlotReleasesAreLiveObjects(g.slots, h);
    }
    r
  }

  /** No two live objects of an Application.h buffer coincide. */
  predicate AppLiveDistinct(g: AppGBuffer) {
    forall i, j | 0 <= i < j < |AppOwned(g)| :: AppOwned(g)[i] != Null ==> AppOwned(g)[i] != AppOwned(g)[j]
  }

  /** With distinct live objects and a live sampler, the destructor
      releases every owned object exactly once. */
  lemma DestroyAppReleasesOnce(g: AppGBuffer, h: Handle)
    requires AppLiveDistinct(g) && g.sampler != Null
    requires h != Null
    ensures Count(DestroyApp(g), h) == (if h in AppOwned(g) then 1 else 0)
  {
    var o := AppOwned(g);
    var objs := SlotsObjects(g.slots);
    assert o == [g.sampler] + objs;
    forall i, j | 0 <= i < j < |objs| && objs[i] != Null
      ensures objs[i] != objs[j]
    {
      assert objs[i] == o[i + 1] && objs[j] == o[j + 1];
    }
    SlotReleasesCount(g.slots, h);
    CountAppend([g.sampler], SlotReleases(g.slots), h);
    if h == g.sampler {
      assert h !in objs by {
        forall j | 0 <= j < |objs|
          ensures objs[j] != h
        {
          assert objs[j] == o[j + 1];
          assert o[0] != o[j + 1];
        }
      }
    }
  }

  /** `bind` of main.cpp and `bindBuffers` of Application.h: one
      `OMSetRenderTargets` call with every slot's RTV and the depth view. */
  function BindCalls(slots: seq<Slot>, depthView: Handle): seq<Call> {
    [SetRenderTargets(seq(|slots|, i requires 0 <= i < |slots| => slots[i].rtv), depthView)]
  }

  /** After binding, the output-merger targets are exactly the slot RTVs in
      slot order plus the given depth view; nothing else changes. */
  lemma BindTargetsAllSlots(slots: seq<Slot>, depthView: Handle, c: Ctx)
    ensures var r := Exec(c, BindCalls(slots, depthView));
            |r.state.renderTargets| == |slots| &&
            (forall i | 0 <= i < |slots| :: r.state.renderTargets[i] == slots[i].rtv) &&
            r.state.depthView == depthView &&
            r.state == c.state.(renderTargets := r.state.renderTargets, depthView := depthView) &&
            r.draws == c.draws && r.clears == c.clears
  {
    ExecOne(c, BindCalls(slots, depthView)[0]);
  }
}
