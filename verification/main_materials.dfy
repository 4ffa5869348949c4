/** The material loop of main.cpp `loadModel`, the older loader: a material
    has only a diffuse and a normal texture, every present key is loaded
    (there is no `.dds` refusal), and a failed image load throws the
    decoder's failure reason as it is. */
module MainMaterials {
  import opened Common
  import opened Materials

  /** main.cpp `Material` with its `MaterialCbuffer` flags inlined (the two
      padding ints carry nothing). */
  datatype MainMaterial = MainMaterial(name: string, diffuseTexture: string, normalTexture: string,
                                       useDiffuseTexture: int, useNormalTexture: int)

  /** The keys of one `aiMaterial` main.cpp reads. */
  datatype MainKeys = MainKeys(name: Option<string>, diffuse: Option<string>, normals: Option<string>)

  /** One texture of the loop: a present key is joined to the base path,
      decoded (failure throws the decoder's reason), and a new `Texture` is
      stored at the full path, replacing and orphaning any earlier one. */
  function LoadPath(ld: Loader, key: Option<string>, base: string, env: Env): (r: Result<Loaded>)
    ensures r.Ok? ==> (r.value.enabled <==> key.Some?)
    ensures r.Ok? && !r.value.enabled ==> r.value == Loaded(ld, "", false)
    ensures r.Ok? && r.value.enabled ==>
              r.value.path == base + key.value && r.value.path in r.value.loader.cache
              && r.value.loader.cache[r.value.path] == Texture(r.value.path, Obj(ld.dev.issued), Obj(ld.dev.issued + 1), Obj(ld.dev.issued + 2))
    ensures r.Ok? ==> ld.cache.Keys <= r.value.loader.cache.Keys
    ensures r.Err? <==> key.Some? && (base + key.value !in env.loadable || !NoneFail(ld.dev.failing, ld.dev.issued, ld.dev.issued + 3))
    ensures r.Err? && base + key.value !in env.loadable ==> r.message == env.failureReason
  {
    match key
    case None => Ok(Loaded(ld, "", false))
    case Some(rel) =>
      var path := base + rel;
      if path !in env.loadable then Err(env.failureReason)
      else
        var t := NewTexture(ld.dev, path);
        if t.Err? then Err(t.message)
        else
          var orphaned := if path in ld.cache then ld.orphaned + [ld.cache[path]] else ld.orphaned;
          Ok(Loaded(Loader(ld.cache[path := t.value.0], t.value.1, orphaned), path, true))
  }

  /** On every path that is not `.dds` the two loaders reach the same
      outcome (only the failure message differs), so the later
      `loadTexture` changed exactly the `.dds` case. */
  lemma LoadPathAgreesOffDds(ld: Loader, key: Option<string>, base: string, env: Env)
    requires key.None? || base + key.value !in env.dds
    ensures LoadPath(ld, key, base, env).Ok? <==> LoadTexture(ld, key, base, env).Ok?
    ensures LoadPath(ld, key, base, env).Ok? ==> LoadPath(ld, key, base, env).value == LoadTexture(ld, key, base, env).value
  {
  }

  /** A decodable `.dds` path: main.cpp loads it, `loadTexture` declines it. */
  lemma DdsLoadedOnlyByMain(ld: Loader, rel: string, base: string, env: Env)
    requires base + rel in env.dds && base + rel in env.loadable
    requires NoneFail(ld.dev.failing, ld.dev.issued, ld.dev.issued + 3)
    ensures LoadPath(ld, Some(rel), base, env).Ok? && LoadPath(ld, Some(rel), base, env).value.enabled
    ensures LoadTexture(ld, Some(rel), base, env) == Ok(Loaded(ld, "", false))
  {
  }

  /** One material: named after the `aiMaterial` when it has a name, then
      the diffuse and the normal texture; a loaded texture sets its flag to
      `true` (1) and records its full path, a missing key leaves the default
      empty path and flag 0. */
  function LoadMainMaterial(ld: Loader, keys: MainKeys, base: string, env: Env): (r: Result<(MainMaterial, Loader)>)
    ensures r.Ok? ==> r.value.0.name == keys.name.GetOr("")
    ensures r.Ok? ==> (r.value.0.useDiffuseTexture == 1 <==> keys.diffuse.Some?)
    ensures r.Ok? ==> (r.value.0.useNormalTexture == 1 <==> keys.normals.Some?)
    ensures r.Ok? ==> r.value.0.useDiffuseTexture in {0, 1} && r.value.0.useNormalTexture in {0, 1}
    ensures r.Ok? && keys.diffuse.Some? ==> r.value.0.diffuseTexture == base + keys.diffuse.value
    ensures r.Ok? && keys.normals.Some? ==> r.value.0.normalTexture == base + keys.normals.value
    ensures r.Ok? && keys.diffuse.None? ==> r.value.0.diffuseTexture == ""
    ensures r.Ok? && keys.normals.None? ==> r.value.0.normalTexture == ""
    ensures r.Ok? ==> ld.cache.Keys <= r.value.1.cache.Keys
  {
    var d := LoadPath(ld, keys.diffuse, base, env);
    if d.Err? then Err(d.message)
    else
      var n := LoadPath(d.value.loader, keys.normals, base, env);
      if n.Err? then Err(n.message)
      else
        Ok((MainMaterial(keys.name.GetOr(""), d.value.path, n.value.path,
                         if d.value.enabled then 1 else 0, if n.value.enabled then 1 else 0),
            n.value.loader))
  }

  /** Both slots of a material are consistent with the cache: a flag is 0 or
      1, set exactly when its path is non-empty, and names a cached
      texture when set. This is what `drawFrame` needs to find the
      material's textures. */
  predicate MainConsistent(m: MainMaterial, cache: map<string, Texture>) {
    Consistent(m.diffuseTexture, m.useDiffuseTexture, cache) && Consistent(m.normalTexture, m.useNormalTexture, cache)
  }

  /** With a non-empty base path, a loaded material is consistent with the
      cache its load leaves, and stays so as the cache grows. */
  lemma LoadMainMaterialConsistent(ld: Loader, keys: MainKeys, base: string, env: Env, later: map<string, Texture>)
    requires base != "" && LoadMainMaterial(ld, keys, base, env).Ok?
    requires LoadMainMaterial(ld, keys, base, env).value.1.cache.Keys <= later.Keys
    ensures MainConsistent(LoadMainMaterial(ld, keys, base, env).value.0, later)
  {
    var d := LoadPath(ld, keys.diffuse, base, env).value;
    var n := LoadPath(d.loader, keys.normals, base, env).value;
    if d.enabled {
      assert |d.path| >= |base| > 0;
    }
    if n.enabled {
      assert |n.path| >= |base| > 0;
    }
  }

  /** The whole loop: materials are appended to `loadedMaterials` in scene
      order; the first failure ends the load. */
  method LoadMainMaterials(ld: Loader, mats: seq<MainMaterial>, keys: seq<MainKeys>, base: string, env: Env)
    returns (r: Result<(seq<MainMaterial>, Loader)>)
    requires base != ""
    requires forall i | 0 <= i < |mats| :: MainConsistent(mats[i], ld.cache)
    ensures r.Ok? ==> |r.value.0| == |mats| + |keys|
    ensures r.Ok? ==> forall i | 0 <= i < |mats| :: r.value.0[i] == mats[i]
    ensures r.Ok? ==> forall i | 0 <= i < |keys| :: r.value.0[|mats| + i].name == keys[i].name.GetOr("")
    ensures r.Ok? ==> forall i | 0 <= i < |keys| ::
              (r.value.0[|mats| + i].useDiffuseTexture == 1 <==> keys[i].diffuse.Some?)
              && (r.value.0[|mats| + i].useNormalTexture == 1 <==> keys[i].normals.Some?)
    ensures r.Ok? ==> forall i | 0 <= i < |r.value.0| :: MainConsistent(r.value.0[i], r.value.1.cache)
    ensures r.Ok? ==> ld.cache.Keys <= r.value.1.cache.Keys
  {
    var out := mats;
    var cur := ld;
    var n := 0;
    while n < |keys|
      invariant 0 <= n <= |keys|
      invariant |out| == |mats| + n
      invariant forall i | 0 <= i < |mats| :: out[i] == mats[i]
      invariant forall i | 0 <= i < n :: out[|mats| + i].name == keys[i].name.GetOr("")
      invariant forall i | 0 <= i < n ::
                  (out[|mats| + i].useDiffuseTexture == 1 <==> keys[i].diffuse.Some?)
                  && (out[|mats| + i].useNormalTexture == 1 <==> keys[i].normals.Some?)
      invariant forall i | 0 <= i < |out| :: MainConsistent(out[i], cur.cache)
      invariant ld.cache.Keys <= cur.cache.Keys
    {
      var step := LoadMainMaterial(cur, keys[n], base, env);
      if step.Err? {
        return Err(step.message);
      }
      LoadMainMaterialConsistent(cur, keys[n], base, env, step.value.1.cache);
      forall i | 0 <= i < |out|
        ensures MainConsistent(out[i], step.value.1.cache)
      {
        assert MainConsistent(out[i], cur.cache);
      }
      out := out + [step.value.0];
      cur := step.value.1;
      n := n + 1;
    }
    return Ok((out, cur));
  }
}
