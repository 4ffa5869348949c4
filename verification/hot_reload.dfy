/** `RecompileShaders`, the shader hot reload (identical in Application.cpp
    and main.cpp): four shaders are compiled in order (deferred vertex,
    deferred pixel, light-accumulation vertex, light-accumulation pixel);
    the first failed compile ends the reload. The deferred pipeline's two
    shaders are swapped in as soon as both of its compiles succeed, before
    the lighting shaders are compiled. Shader objects are created without
    checking the result, and the old shaders are released through their
    pointers. The compiler is an oracle: one result per compile. */
module HotReload {
  import opened Common
  import Pipeline

  /** One `D3DCompileFromFile` call: it succeeds, or fails with or without
      an error blob (a compile error yields diagnostics; a missing file
      yields none, leaving `errors` null). */
  datatype Compile = Compiled | Failed(hasDiagnostics: bool)

  /** The reload either returns, with the pipelines, the device, the old
      shaders it released and the new shaders it created but installed
      nowhere, or it dereferences a null pointer. */
  datatype Outcome =
    | Done(deferred: Pipeline.Pipeline, lighting: Pipeline.Pipeline, dev: Device,
           released: seq<Handle>, leaked: seq<Handle>)
    | Crashed(reason: string)

  const NullErrors: string := "errors->GetBufferPointer() on a null error blob"
  const NullShader: string := "Release() through a null shader pointer"

  /** The number of compiles that succeed before the first failure (all of
      them when none fails). */
  function FirstFailure(compiles: seq<Compile>): (k: nat)
    ensures k <= |compiles|
    ensures forall i | 0 <= i < k :: compiles[i].Compiled?
    ensures k < |compiles| ==> compiles[k].Failed?
    decreases |compiles|
  {
    if |compiles| == 0 || compiles[0].Failed? then 0 else 1 + FirstFailure(compiles[1..])
  }

  /** A created shader that is installed nowhere; a failed creation leaves
      nothing behind. */
  function Leak(h: Handle): seq<Handle> {
    if h == Null then [] else [h]
  }

  /** The handle the device's `k`-th creation from now yields unchecked. */
  function Made(dev: Device, k: nat): Handle {
    if dev.issued + k in dev.failing then Null else Obj(dev.issued + k)
  }

  /** Both shaders of a pipeline are live (so they can be released). */
  predicate LiveShaders(p: Pipeline.Pipeline) {
    p.vertexShader != Null && p.pixelShader != Null
  }

  /** Two pipelines that differ at most in their two shaders. */
  predicate SameButShaders(a: Pipeline.Pipeline, b: Pipeline.Pipeline) {
    a.(vertexShader := b.vertexShader, pixelShader := b.pixelShader) == b
  }

  /** The failure branch after a compile: it prints the error blob's text
      and returns. As written the text is read before `errors` is tested
      for null; with `guarded` the read happens only when there is a blob. */
  function OnFailure(guarded: bool, c: Compile, o: Outcome): Outcome
    requires c.Failed?
  {
    if guarded || c.hasDiagnostics then o else Crashed(NullErrors)
  }

  /** The reload, with the null test of `errors` as written (`guarded`
      false) or moved before the read (`guarded` true). */
  function RecompileWith(guarded: bool, deferred: Pipeline.Pipeline, lighting: Pipeline.Pipeline,
                         dev: Device, compiles: seq<Compile>): Outcome
    requires |compiles| == 4
  {
    if compiles[0].Failed? then OnFailure(guarded, compiles[0], Done(deferred, lighting, dev, [], []))
    else
      var (d1, vs) := dev.CreateUnchecked();
      if compiles[1].Failed? then OnFailure(guarded, compiles[1], Done(deferred, lighting, d1, [], Leak(vs)))
      else
        var (d2, ps) := d1.CreateUnchecked();
        if !LiveShaders(deferred) then Crashed(NullShader)
        else
          var swapped := deferred.(vertexShader := vs, pixelShader := ps);
          var released := [deferred.vertexShader, deferred.pixelShader];
          if compiles[2].Failed? then OnFailure(guarded, compiles[2], Done(swapped, lighting, d2, released, []))
          else
            var (d3, lvs) := d2.CreateUnchecked();
            if compiles[3].Failed? then OnFailure(guarded, compiles[3], Done(swapped, lighting, d3, released, Leak(lvs)))
            else
              var (d4, lps) := d3.CreateUnchecked();
              if !LiveShaders(lighting) then Crashed(NullShader)
              else
                Done(swapped, lighting.(vertexShader := lvs, pixelShader := lps), d4,
                     released + [lighting.vertexShader, lighting.pixelShader], [])
  }

  /** `RecompileShaders` as written. */
  function RecompileAsWritten(deferred: Pipeline.Pipeline, lighting: Pipeline.Pipeline,
                              dev: Device, compiles: seq<Compile>): Outcome
    requires |compiles| == 4
  {
    RecompileWith(false, deferred, lighting, dev, compiles)
  }

  /** `RecompileShaders` with `errors` tested before it is read. With live
      shaders in both pipelines the reload always returns; a pipeline's
      shaders are replaced only when both of its compiles succeed, the
      deferred ones first (so a failed lighting compile leaves the new
      deferred shaders in place), and nothing but the shaders changes. */
  function Recompile(deferred: Pipeline.Pipeline, lighting: Pipeline.Pipeline,
                     dev: Device, compiles: seq<Compile>): (r: Outcome)
    requires |compiles| == 4
    ensures LiveShaders(deferred) && LiveShaders(lighting) ==> r.Done?
    ensures r.Done? ==> SameButShaders(deferred, r.deferred) && SameButShaders(lighting, r.lighting)
    ensures r.Done? ==> r.dev == Device(dev.issued + FirstFailure(compiles), dev.failing)
    ensures r.Done? && FirstFailure(compiles) < 2 ==> r.deferred == deferred && r.released == []
    ensures r.Done? && FirstFailure(compiles) >= 2 ==>
              r.deferred.vertexShader == Made(dev, 0) && r.deferred.pixelShader == Made(dev, 1)
              && |r.released| >= 2 && r.released[..2] == [deferred.vertexShader, deferred.pixelShader]
    ensures r.Done? && FirstFailure(compiles) < 4 ==> r.lighting == lighting
    ensures r.Done? && FirstFailure(compiles) == 4 ==>
              r.lighting.vertexShader == Made(dev, 2) && r.lighting.pixelShader == Made(dev, 3)
              && r.released == [deferred.vertexShader, deferred.pixelShader, lighting.vertexShader, lighting.pixelShader]
    ensures r.Done? ==> r.leaked == (if FirstFailure(compiles) % 2 == 1 then Leak(Made(dev, FirstFailure(compiles) - 1)) else [])
  {
    assert compiles == [compiles[0]] + compiles[1..];
    assert compiles[1..] == [compiles[1]] + compiles[2..];
    assert compiles[2..] == [compiles[2]] + compiles[3..];
    assert compiles[3..] == [compiles[3]] + compiles[4..];
    RecompileWith(true, deferred, lighting, dev, compiles)
  }

  /** The two versions agree unless the first failed compile leaves no
      error blob: then the version as written dereferences it. */
  lemma AsWrittenCrashesOnlyWithoutBlob(deferred: Pipeline.Pipeline, lighting: Pipeline.Pipeline,
                                        dev: Device, compiles: seq<Compile>)
    requires |compiles| == 4 && LiveShaders(deferred) && LiveShaders(lighting)
    ensures var k := FirstFailure(compiles);
            RecompileAsWritten(deferred, lighting, dev, compiles)
            == (if k < 4 && !compiles[k].hasDiagnostics then Crashed(NullErrors)
                else Recompile(deferred, lighting, dev, compiles))
  {
    assert compiles == [compiles[0]] + compiles[1..];
    assert compiles[1..] == [compiles[1]] + compiles[2..];
    assert compiles[2..] == [compiles[2]] + compiles[3..];
    assert compiles[3..] == [compiles[3]] + compiles[4..];
  }

  /** A concrete case: the deferred vertex shader's file cannot be opened.
      As written the reload crashes; as intended it returns with both
      pipelines untouched. */
  lemma MissingShaderFile(deferred: Pipeline.Pipeline, lighting: Pipeline.Pipeline, dev: Device)
    requires LiveShaders(deferred) && LiveShaders(lighting)
    ensures RecompileAsWritten(deferred, lighting, dev, [Failed(false), Compiled, Compiled, Compiled]) == Crashed(NullErrors)
    ensures Recompile(deferred, lighting, dev, [Failed(false), Compiled, Compiled, Compiled]) == Done(deferred, lighting, dev, [], [])
  {
  }

  /** Lighting shaders are never replaced unless the deferred ones were. */
  lemma LightingAfterDeferred(deferred: Pipeline.Pipeline, lighting: Pipeline.Pipeline, dev: Device, compiles: seq<Compile>)
    requires |compiles| == 4
    requires Recompile(deferred, lighting, dev, compiles).Done?
    requires Recompile(deferred, lighting, dev, compiles).lighting != lighting
    ensures FirstFailure(compiles) == 4
    ensures Recompile(deferred, lighting, dev, compiles).deferred.vertexShader == Made(dev, 0)
    ensures Recompile(deferred, lighting, dev, compiles).deferred.pixelShader == Made(dev, 1)
  {
  }
}
