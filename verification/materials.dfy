/** Material loading: `loadTexture` and the material part of `loadModel` in
    Application.cpp (four texture kinds, with a shininess and then a
    roughness texture standing in for a missing specular one), and the
    older diffuse/normal loader of main.cpp. The file system and the image
    decoder are an environment: which paths end in `.dds`, which paths
    decode, and the decoder's failure reason. */
module Materials {
  import opened Common
  import opened EcsHeader

  /** A `Texture` (Texture.h): the objects it owns. */
  datatype Texture = Texture(name: string, texture: Handle, srv: Handle, sampler: Handle)

  /** The texture whose first creation is number `at` fails with
      `message`: the message of the first of its three creations that
      fails. */
  predicate TextureFailsWith(failing: set<nat>, at: nat, message: string) {
    if at in failing then message == "Failed to create texture2D!"
    else if at + 1 in failing then message == "Failed to create SRV to texture2D!"
    else at + 2 in failing && message == "Failed to create gbuffer sampler"
  }

  /** `new Texture(...)`: the texture, its SRV and its sampler, each checked;
      the first failure throws. */
  function NewTexture(dev: Device, name: string): (r: Result<(Texture, Device)>)
    ensures r.Ok? <==> NoneFail(dev.failing, dev.issued, dev.issued + 3)
    ensures r.Ok? ==> r.value.0 == Texture(name, Obj(dev.issued), Obj(dev.issued + 1), Obj(dev.issued + 2))
    ensures r.Ok? ==> r.value.1 == Device(dev.issued + 3, dev.failing)
    ensures r.Err? ==> r.message in {"Failed to create texture2D!", "Failed to create SRV to texture2D!",
                                     "Failed to create gbuffer sampler"}
    ensures r.Err? ==> TextureFailsWith(dev.failing, dev.issued, r.message)
  {
    var (d1, texture) := dev.Create();
    if texture.None? then Err("Failed to create texture2D!")
    else
      var (d2, srv) := d1.Create();
      if srv.None? then Err("Failed to create SRV to texture2D!")
      else
        var (d3, sampler) := d2.Create();
        if sampler.None? then Err("Failed to create gbuffer sampler")
        else Ok((Texture(name, texture.value, srv.value, sampler.value), d3))
  }

  /** What the loader asks of the outside world: the paths whose
      extension is `.dds`, the paths the image decoder can load, and the
      reason it gives when it cannot. */
  datatype Env = Env(dds: set<string>, loadable: set<string>, failureReason: string)

  /** The loader's state: the texture cache, the device, and the textures
      that were dropped from the cache by a later load of the same path
      (still alive, owned by nobody). */
  datatype Loader = Loader(cache: map<string, Texture>, dev: Device, orphaned: seq<Texture>)

  /** The text `std::stringstream s(initial)` holds after `written` is
      streamed into it: the stream starts writing at position 0, so the
      written text replaces the initial one character by character, and
      what it does not reach stays. */
  function Overwrite(initial: string, written: string): (r: string)
    ensures |r| == if |written| < |initial| then |initial| else |written|
    ensures r[..|written|] == written
    ensures forall i | |written| <= i < |r| :: r[i] == initial[i]
  {
    if |written| < |initial| then written + initial[|written|..] else written
  }

  const LoadPrefix: string := "Failed to load texture "

  /** The message of a failed image load as Application.cpp builds it. */
  function ErrorMessageAsWritten(path: string, reason: string): string {
    Overwrite(LoadPrefix, path + " because " + reason)
  }

  /** The message as evidently intended: the prefix, the path, the reason. */
  function ErrorMessage(path: string, reason: string): (m: string)
    ensures |m| == |LoadPrefix| + |path| + |" because "| + |reason|
    ensures m[..|LoadPrefix|] == LoadPrefix
    ensures m[|LoadPrefix|..|LoadPrefix| + |path|] == path
  {
    LoadPrefix + path + " because " + reason
  }

  /** Unless the path happens to start with 'F', the message as written
      loses its "Failed to load texture " prefix: it starts with the path. */
  lemma AsWrittenDropsPrefix(path: string, reason: string)
    requires |path| > 0 && path[0] != 'F'
    ensures ErrorMessageAsWritten(path, reason)[0] == path[0]
    ensures ErrorMessageAsWritten(path, reason)[..|LoadPrefix|] != LoadPrefix
  {
    var w := path + " because " + reason;
    assert w[0] == path[0];
    assert |w| >= |LoadPrefix| ==> ErrorMessageAsWritten(path, reason)[..|LoadPrefix|][0] == path[0];
  }

  /** A concrete load failure: the thrown text is the path and the reason
      alone, with no sign that it is about a texture load. */
  lemma AsWrittenExample()
    ensures var path, reason := "assets/crytekSponza_fbx/textures/a.png", "can't fopen";
            ErrorMessageAsWritten(path, reason) == path + " because " + reason
            && ErrorMessageAsWritten(path, reason)[..|LoadPrefix|] != LoadPrefix
  {
    AsWrittenDropsPrefix("assets/crytekSponza_fbx/textures/a.png", "can't fopen");
  }

  /** The result of one `loadTexture` call: the loader and the two
      out-parameters (`outPath`, `outEnabled`). */
  datatype Loaded = Loaded(loader: Loader, path: string, enabled: bool)

  /** `loadTexture`: `key` is the material's relative path for the texture
      kind, if it has one. Flag and path are reset first; a missing key
      ends there. A `.dds` path is refused (path cleared, flag false). An
      undecodable image or a failed texture creation throws. Otherwise the
      texture is stored at the full path, replacing (and orphaning) any
      texture already there, and the flag is set. */
  function LoadTexture(ld: Loader, key: Option<string>, base: string, env: Env): (r: Result<Loaded>)
    ensures r.Ok? ==> (r.value.enabled <==> key.Some? && base + key.value !in env.dds)
    ensures r.Ok? && !r.value.enabled ==> r.value.path == "" && r.value.loader == ld
    ensures r.Ok? && r.value.enabled ==>
              r.value.path == base + key.value && r.value.path in r.value.loader.cache
              && r.value.loader.cache[r.value.path] == Texture(r.value.path, Obj(ld.dev.issued), Obj(ld.dev.issued + 1), Obj(ld.dev.issued + 2))
              && r.value.loader.dev == Device(ld.dev.issued + 3, ld.dev.failing)
    ensures r.Ok? ==> forall p | p in ld.cache && p != r.value.path :: p in r.value.loader.cache && r.value.loader.cache[p] == ld.cache[p]
    ensures r.Ok? ==> ld.cache.Keys <= r.value.loader.cache.Keys
    ensures r.Err? <==> key.Some? && base + key.value !in env.dds
                        && (base + key.value !in env.loadable || !NoneFail(ld.dev.failing, ld.dev.issued, ld.dev.issued + 3))
    ensures r.Err? && base + key.value !in env.loadable ==> r.message == ErrorMessageAsWritten(base + key.value, env.failureReason)
  {
    match key
    case None => Ok(Loaded(ld, "", false))
    case Some(rel) =>
      var path := base + rel;
      if path in env.dds then Ok(Loaded(ld, "", false))
      else if path !in env.loadable then Err(ErrorMessageAsWritten(path, env.failureReason))
      else
        var t := NewTexture(ld.dev, path);
        if t.Err? then Err(t.message)
        else
          var orphaned := if path in ld.cache then ld.orphaned + [ld.cache[path]] else ld.orphaned;
          Ok(Loaded(Loader(ld.cache[path := t.value.0], t.value.1, orphaned), path, true))
  }

  /** The overwritten message is what reaches the caller: a failed load of
      an image whose full path does not start with 'F' throws a text that
      starts with the path instead of "Failed to load texture ". */
  lemma LoadFailureLosesPrefix(ld: Loader, rel: string, base: string, env: Env)
    requires |base + rel| > 0 && (base + rel)[0] != 'F'
    requires base + rel !in env.dds && base + rel !in env.loadable
    ensures LoadTexture(ld, Some(rel), base, env).Err?
    ensures LoadTexture(ld, Some(rel), base, env).message[0] == (base + rel)[0]
    ensures LoadTexture(ld, Some(rel), base, env).message[..|LoadPrefix|] != LoadPrefix
  {
    AsWrittenDropsPrefix(base + rel, env.failureReason);
  }

  /** Every cached texture is named after its path and was created
      before the device's next creation. */
  predicate WellFormed(ld: Loader) {
    forall p | p in ld.cache :: ld.cache[p].name == p && ld.cache[p].texture.Obj? && ld.cache[p].texture.id < ld.dev.issued
  }

  /** `loadTexture` keeps the cache well formed. */
  lemma LoadTextureWellFormed(ld: Loader, key: Option<string>, base: string, env: Env)
    requires WellFormed(ld) && LoadTexture(ld, key, base, env).Ok?
    ensures WellFormed(LoadTexture(ld, key, base, env).value.loader)
  {
  }

  /** Loading a path that is already cached replaces its entry: the earlier
      texture leaves the cache and joins the orphans, so the cache
      destructor will never release it. */
  lemma ReloadOrphans(ld: Loader, rel: string, base: string, env: Env)
    requires WellFormed(ld) && base + rel in ld.cache
    requires LoadTexture(ld, Some(rel), base, env).Ok? && LoadTexture(ld, Some(rel), base, env).value.enabled
    ensures LoadTexture(ld, Some(rel), base, env).value.loader.orphaned == ld.orphaned + [ld.cache[base + rel]]
    ensures ld.cache[base + rel] !in LoadTexture(ld, Some(rel), base, env).value.loader.cache.Values
  {
  }

  /** `(bool&)flag = b` on an `int` flag: the store writes the low byte only
      (little-endian), the other three bytes keep their value. */
  function StoreBool(prior: int, b: bool): (r: int)
    ensures r % 256 == BoolToInt(b)
    ensures r - r % 256 == prior - prior % 256
  {
    prior - prior % 256 + BoolToInt(b)
  }

  /** Flags only ever receive such stores, starting from 0, so the upper
      bytes stay 0 and the `int` reads back as the `bool` stored. */
  lemma StoreBoolReadsBack(prior: int, b: bool)
    requires 0 <= prior < 256
    ensures StoreBool(prior, b) == BoolToInt(b)
    ensures StoreBool(prior, b) != 0 <==> b
  {
  }

  /** A texture slot of a material is consistent with the cache: its flag
      is 0 or 1, set exactly when its path is non-empty, and a set flag
      names a cached texture. */
  predicate Consistent(path: string, flag: int, cache: map<string, Texture>) {
    (flag == 0 || flag == 1) && (flag == 1 <==> path != "") && (flag == 1 ==> path in cache)
  }

  /** After a successful `loadTexture` into a slot, the slot is consistent
      with the new cache (the base path is a non-empty constant). */
  lemma LoadTextureConsistent(ld: Loader, key: Option<string>, base: string, env: Env, prior: int)
    requires base != "" && 0 <= prior < 256
    requires LoadTexture(ld, key, base, env).Ok?
    ensures Consistent(LoadTexture(ld, key, base, env).value.path,
                       StoreBool(prior, LoadTexture(ld, key, base, env).value.enabled),
                       LoadTexture(ld, key, base, env).value.loader.cache)
  {
    var r := LoadTexture(ld, key, base, env).value;
    if r.enabled {
      assert |r.path| >= |base| > 0;
    }
  }

  /** The texture keys of one `aiMaterial`, by kind. */
  datatype MaterialKeys = MaterialKeys(
    name: Option<string>,
    diffuse: Option<string>,
    normals: Option<string>,
    opacity: Option<string>,
    specular: Option<string>,
    shininess: Option<string>,
    roughness: Option<string>)

  /** The four texture slots of an ECS.h `Material`. */
  datatype Kind = DiffuseKind | NormalKind | AlphaCutoutKind | SpecularKind

  function SlotPath(m: Material, k: Kind): string {
    match k
    case DiffuseKind => m.diffuseTexture
    case NormalKind => m.normalTexture
    case AlphaCutoutKind => m.alphaCutoutTexture
    case SpecularKind => m.specularTexture
  }

  function SlotFlag(m: Material, k: Kind): int {
    match k
    case DiffuseKind => m.settings.useDiffuseTexture
    case NormalKind => m.settings.useNormalTexture
    case AlphaCutoutKind => m.settings.useAlphaCutoutTexture
    case SpecularKind => m.settings.useSpecularTexture
  }

  /** `m` with slot `k`'s path and flag replaced; name and other slots kept. */
  function WithSlot(m: Material, k: Kind, path: string, flag: int): (r: Material)
    ensures SlotPath(r, k) == path && SlotFlag(r, k) == flag && r.name == m.name
    ensures forall j: Kind | j != k :: SlotPath(r, j) == SlotPath(m, j) && SlotFlag(r, j) == SlotFlag(m, j)
  {
    match k
    case DiffuseKind => m.(diffuseTexture := path, settings := m.settings.(useDiffuseTexture := flag))
    case NormalKind => m.(normalTexture := path, settings := m.settings.(useNormalTexture := flag))
    case AlphaCutoutKind => m.(alphaCutoutTexture := path, settings := m.settings.(useAlphaCutoutTexture := flag))
    case SpecularKind => m.(specularTexture := path, settings := m.settings.(useSpecularTexture := flag))
  }

  /** The loader and the material being filled. */
  datatype Progress = Progress(loader: Loader, mat: Material)

  /** `loadTexture(..., mat.<slot>Texture, (bool&)mat.settings.use<Slot>Texture)`. */
  function LoadSlot(s: Progress, k: Kind, key: Option<string>, base: string, env: Env): (r: Result<Progress>)
    ensures r.Ok? ==> r.value.mat.name == s.mat.name
    ensures r.Ok? ==> forall j: Kind | j != k :: SlotPath(r.value.mat, j) == SlotPath(s.mat, j) && SlotFlag(r.value.mat, j) == SlotFlag(s.mat, j)
  {
    var r := LoadTexture(s.loader, key, base, env);
    if r.Err? then Err(r.message)
    else Ok(Progress(r.value.loader, WithSlot(s.mat, k, r.value.path, StoreBool(SlotFlag(s.mat, k), r.value.enabled))))
  }

  /** The specular slot and its two fallbacks: the shininess texture is
      tried only when no specular texture was enabled, the roughness one
      only when neither was. */
  function LoadSpecularChain(s: Progress, keys: MaterialKeys, base: string, env: Env): (r: Result<Progress>)
    ensures r.Ok? ==> r.value.mat.name == s.mat.name
  {
    var r1 := LoadSlot(s, SpecularKind, keys.specular, base, env);
    if r1.Err? || r1.value.mat.settings.useSpecularTexture != 0 then r1
    else
      var r2 := LoadSlot(r1.value, SpecularKind, keys.shininess, base, env);
      if r2.Err? || r2.value.mat.settings.useSpecularTexture != 0 then r2
      else LoadSlot(r2.value, SpecularKind, keys.roughness, base, env)
  }

  /** A default material named after the `aiMaterial`, if it has a name. */
  function NamedMaterial(keys: MaterialKeys): Material {
    DefaultMaterial().(name := keys.name.GetOr(""))
  }

  /** The body of `loadModel`'s material loop, up to the `push_back`. */
  function LoadMaterial(ld: Loader, keys: MaterialKeys, base: string, env: Env): (r: Result<Progress>)
    ensures r.Ok? ==> r.value.mat.name == keys.name.GetOr("")
  {
    var r1 := LoadSlot(Progress(ld, NamedMaterial(keys)), DiffuseKind, keys.diffuse, base, env);
    if r1.Err? then r1
    else
      var r2 := LoadSlot(r1.value, NormalKind, keys.normals, base, env);
      if r2.Err? then r2
      else
        var r3 := LoadSlot(r2.value, AlphaCutoutKind, keys.opacity, base, env);
        if r3.Err? then r3
        else LoadSpecularChain(r3.value, keys, base, env)
  }

  /** Whether a key would be enabled by `loadTexture` (present, not `.dds`). */
  predicate Usable(key: Option<string>, base: string, env: Env) {
    key.Some? && base + key.value !in env.dds
  }

  /** The first usable key among specular, shininess and roughness. */
  function SpecularSource(keys: MaterialKeys, base: string, env: Env): Option<string> {
    if Usable(keys.specular, base, env) then keys.specular
    else if Usable(keys.shininess, base, env) then keys.shininess
    else if Usable(keys.roughness, base, env) then keys.roughness
    else None
  }

  /** One load into a clear slot sets the flag exactly when the key is
      usable, and stores its full path or nothing. */
  lemma SlotStep(s: Progress, k: Kind, key: Option<string>, base: string, env: Env)
    requires SlotFlag(s.mat, k) == 0
    requires LoadSlot(s, k, key, base, env).Ok?
    ensures SlotFlag(LoadSlot(s, k, key, base, env).value.mat, k) == BoolToInt(Usable(key, base, env))
    ensures SlotPath(LoadSlot(s, k, key, base, env).value.mat, k) == (if Usable(key, base, env) then base + key.value else "")
  {
    StoreBoolReadsBack(0, Usable(key, base, env));
  }

  /** The specular chain, started on a clear slot, ends with the first
      usable key's path, or with a clear slot when there is none. */
  lemma ChainPicksFirstUsable(s: Progress, keys: MaterialKeys, base: string, env: Env)
    requires s.mat.settings.useSpecularTexture == 0
    requires LoadSpecularChain(s, keys, base, env).Ok?
    ensures LoadSpecularChain(s, keys, base, env).value.mat.settings.useSpecularTexture
            == BoolToInt(SpecularSource(keys, base, env).Some?)
    ensures LoadSpecularChain(s, keys, base, env).value.mat.specularTexture
            == (if SpecularSource(keys, base, env).Some? then base + SpecularSource(keys, base, env).value else "")
  {
    SlotStep(s, SpecularKind, keys.specular, base, env);
    var r1 := LoadSlot(s, SpecularKind, keys.specular, base, env).value;
    if !Usable(keys.specular, base, env) {
      SlotStep(r1, SpecularKind, keys.shininess, base, env);
      var r2 := LoadSlot(r1, SpecularKind, keys.shininess, base, env).value;
      if !Usable(keys.shininess, base, env) {
        SlotStep(r2, SpecularKind, keys.roughness, base, env);
      }
    }
  }

  /** A loaded material's specular slot holds the first usable of the
      specular, shininess and roughness textures, and the flag is set
      exactly when there is one. */
  lemma SpecularFallback(ld: Loader, keys: MaterialKeys, base: string, env: Env)
    requires LoadMaterial(ld, keys, base, env).Ok?
    ensures LoadMaterial(ld, keys, base, env).value.mat.settings.useSpecularTexture
            == BoolToInt(SpecularSource(keys, base, env).Some?)
    ensures LoadMaterial(ld, keys, base, env).value.mat.specularTexture
            == (if SpecularSource(keys, base, env).Some? then base + SpecularSource(keys, base, env).value else "")
  {
    var r1 := LoadSlot(Progress(ld, NamedMaterial(keys)), DiffuseKind, keys.diffuse, base, env).value;
    var r2 := LoadSlot(r1, NormalKind, keys.normals, base, env).value;
    var r3 := LoadSlot(r2, AlphaCutoutKind, keys.opacity, base, env).value;
    assert SlotFlag(r3.mat, SpecularKind) == 0;
    ChainPicksFirstUsable(r3, keys, base, env);
  }

  /** With a usable specular key the chain stops after its first load. */
  lemma ChainStopsAtSpecular(s: Progress, keys: MaterialKeys, base: string, env: Env)
    requires Usable(keys.specular, base, env)
    ensures LoadSpecularChain(s, keys, base, env) == LoadSlot(s, SpecularKind, keys.specular, base, env)
  {
    var r1 := LoadSlot(s, SpecularKind, keys.specular, base, env);
    if r1.Ok? {
      var t := LoadTexture(s.loader, keys.specular, base, env).value;
      assert t.enabled;
      assert StoreBool(SlotFlag(s.mat, SpecularKind), true) % 256 == 1;
    }
  }

  /** Once a specular texture is enabled the fallbacks are not attempted:
      the outcome does not depend on the shininess or roughness keys, not
      even when loading them would have failed. */
  lemma FallbacksSkipped(ld: Loader, keys: MaterialKeys, base: string, env: Env)
    requires Usable(keys.specular, base, env)
    ensures LoadMaterial(ld, keys, base, env) == LoadMaterial(ld, keys.(shininess := None, roughness := None), base, env)
  {
    var other := keys.(shininess := None, roughness := None);
    var r1 := LoadSlot(Progress(ld, NamedMaterial(keys)), DiffuseKind, keys.diffuse, base, env);
    if r1.Ok? {
      var r2 := LoadSlot(r1.value, NormalKind, keys.normals, base, env);
      if r2.Ok? {
        var r3 := LoadSlot(r2.value, AlphaCutoutKind, keys.opacity, base, env);
        if r3.Ok? {
          ChainStopsAtSpecular(r3.value, keys, base, env);
          ChainStopsAtSpecular(r3.value, other, base, env);
        }
      }
    }
  }

  /** One texture slot of a material is consistent with the cache. */
  predicate SlotConsistent(m: Material, k: Kind, cache: map<string, Texture>) {
    Consistent(SlotPath(m, k), SlotFlag(m, k), cache)
  }

  /** Every slot of a material is consistent with the cache: the shader
      samples a slot only when the draw can find its texture. */
  predicate MaterialConsistent(m: Material, cache: map<string, Texture>) {
    forall k: Kind :: SlotConsistent(m, k, cache)
  }

  /** Consistency survives any growth of the cache's key set. */
  lemma ConsistentGrows(m: Material, c1: map<string, Texture>, c2: map<string, Texture>)
    requires c1.Keys <= c2.Keys && MaterialConsistent(m, c1)
    ensures MaterialConsistent(m, c2)
  {
    forall k: Kind ensures SlotConsistent(m, k, c2) {
      assert SlotConsistent(m, k, c1);
    }
  }

  /** Loading one slot of a consistent material keeps it consistent with
      the grown cache. */
  lemma LoadSlotConsistent(s: Progress, k: Kind, key: Option<string>, base: string, env: Env)
    requires base != "" && MaterialConsistent(s.mat, s.loader.cache)
    requires LoadSlot(s, k, key, base, env).Ok?
    ensures MaterialConsistent(LoadSlot(s, k, key, base, env).value.mat, LoadSlot(s, k, key, base, env).value.loader.cache)
    ensures s.loader.cache.Keys <= LoadSlot(s, k, key, base, env).value.loader.cache.Keys
  {
    var r := LoadSlot(s, k, key, base, env).value;
    assert SlotConsistent(s.mat, k, s.loader.cache);
    LoadTextureConsistent(s.loader, key, base, env, SlotFlag(s.mat, k));
    forall j: Kind ensures SlotConsistent(r.mat, j, r.loader.cache) {
      if j != k {
        assert SlotConsistent(s.mat, j, s.loader.cache);
      }
    }
  }

  /** A fresh material has no slot enabled, so it is consistent with any cache. */
  lemma NamedMaterialConsistent(keys: MaterialKeys, cache: map<string, Texture>)
    ensures MaterialConsistent(NamedMaterial(keys), cache)
  {
    forall k: Kind ensures SlotConsistent(NamedMaterial(keys), k, cache) {
    }
  }

  /** The specular chain keeps a material consistent. */
  lemma ChainConsistent(s: Progress, keys: MaterialKeys, base: string, env: Env)
    requires base != "" && MaterialConsistent(s.mat, s.loader.cache)
    requires LoadSpecularChain(s, keys, base, env).Ok?
    ensures MaterialConsistent(LoadSpecularChain(s, keys, base, env).value.mat, LoadSpecularChain(s, keys, base, env).value.loader.cache)
    ensures s.loader.cache.Keys <= LoadSpecularChain(s, keys, base, env).value.loader.cache.Keys
  {
    LoadSlotConsistent(s, SpecularKind, keys.specular, base, env);
    var r1 := LoadSlot(s, SpecularKind, keys.specular, base, env).value;
    if r1.mat.settings.useSpecularTexture == 0 {
      LoadSlotConsistent(r1, SpecularKind, keys.shininess, base, env);
      var r2 := LoadSlot(r1, SpecularKind, keys.shininess, base, env).value;
      if r2.mat.settings.useSpecularTexture == 0 {
        LoadSlotConsistent(r2, SpecularKind, keys.roughness, base, env);
      }
    }
  }

  /** A material loaded by `loadModel` is consistent with the cache after
      its load, and the load only added cache keys. */
  lemma LoadMaterialConsistent(ld: Loader, keys: MaterialKeys, base: string, env: Env)
    requires base != "" && LoadMaterial(ld, keys, base, env).Ok?
    ensures MaterialConsistent(LoadMaterial(ld, keys, base, env).value.mat, LoadMaterial(ld, keys, base, env).value.loader.cache)
    ensures ld.cache.Keys <= LoadMaterial(ld, keys, base, env).value.loader.cache.Keys
  {
    var s0 := Progress(ld, NamedMaterial(keys));
    NamedMaterialConsistent(keys, ld.cache);
    LoadSlotConsistent(s0, DiffuseKind, keys.diffuse, base, env);
    var r1 := LoadSlot(s0, DiffuseKind, keys.diffuse, base, env).value;
    LoadSlotConsistent(r1, NormalKind, keys.normals, base, env);
    var r2 := LoadSlot(r1, NormalKind, keys.normals, base, env).value;
    LoadSlotConsistent(r2, AlphaCutoutKind, keys.opacity, base, env);
    var r3 := LoadSlot(r2, AlphaCutoutKind, keys.opacity, base, env).value;
    ChainConsistent(r3, keys, base, env);
  }

  /** One iteration of the material loop: `LoadMaterial`, together with
      what the loop needs to know about its outcome. */
  method LoadOne(ld: Loader, keys: MaterialKeys, base: string, env: Env) returns (r: Result<Progress>)
    requires base != ""
    ensures r.Ok? ==> r.value.mat.name == keys.name.GetOr("")
    ensures r.Ok? ==> MaterialConsistent(r.value.mat, r.value.loader.cache)
    ensures r.Ok? ==> ld.cache.Keys <= r.value.loader.cache.Keys
  {
    r := LoadMaterial(ld, keys, base, env);
    if r.Ok? {
      LoadMaterialConsistent(ld, keys, base, env);
    }
  }

  /** `loadModel`'s material loop: the materials of the scene are loaded in
      order and appended to `materialCache`; the first failure ends the
      load. On success the cache grew by one material per `aiMaterial`,
      each named after it, and every material, old and new, is consistent
      with the final texture cache. */
  method LoadMaterials(ld: Loader, mats: seq<Material>, keys: seq<MaterialKeys>, base: string, env: Env)
    returns (r: Result<(seq<Material>, Loader)>)
    requires base != ""
    requires forall i | 0 <= i < |mats| :: MaterialConsistent(mats[i], ld.cache)
    ensures r.Ok? ==> |r.value.0| == |mats| + |keys|
    ensures r.Ok? ==> forall i | 0 <= i < |mats| :: r.value.0[i] == mats[i]
    ensures r.Ok? ==> forall i | 0 <= i < |keys| :: r.value.0[|mats| + i].name == keys[i].name.GetOr("")
    ensures r.Ok? ==> forall i | 0 <= i < |r.value.0| :: MaterialConsistent(r.value.0[i], r.value.1.cache)
    ensures r.Ok? ==> ld.cache.Keys <= r.value.1.cache.Keys
  {
    var out := mats;
    var cur := ld;
    var n := 0;
    while n < |keys|
      invariant 0 <= n <= |keys|
      invariant |out| == |mats| + n
      invariant forall i | 0 <= i < |mats| :: out[i] == mats[i]
      invariant forall i | 0 <= i < n :: out[|mats| + i].name == keys[i].name.GetOr("")
      invariant forall i | 0 <= i < |out| :: MaterialConsistent(out[i], cur.cache)
      invariant ld.cache.Keys <= cur.cache.Keys
    {
      var step := LoadOne(cur, keys[n], base, env);
      if step.Err? {
        return Err(step.message);
      }
      forall i | 0 <= i < |out|
        ensures MaterialConsistent(out[i], step.value.loader.cache)
      {
        ConsistentGrows(out[i], cur.cache, step.value.loader.cache);
      }
      out := out + [step.value.mat];
      cur := step.value.loader;
      n := n + 1;
    }
    return Ok((out, cur));
  }
}
