# Cool Rendering Stuff — a Dafny model of the deferred renderer's core

This project models the resource and command logic of a small Direct3D 11
deferred renderer, and proves properties of that model. The renderer has:

- an entity-component store with a self-pruning system scheduler (`ECS`);
- graphics pipelines (`GraphicsPipeline`);
- a geometry buffer (G-buffer) of render targets;
- a light volume (`Lighting`);
- the application code that loads materials, textures and meshes, draws a
  frame, hot-reloads shaders, resizes on window changes and tears
  everything down.

It also models the integer part of the companion `BumpToNormal` tool: the
prompt loop and the wrapped texel indices of its stencil.

The renderer exists in two revisions, and the model keeps them apart:

- `main.cpp` is the older, monolithic application. Its G-buffer has three
  slots and its materials have two texture kinds.
- `Application.cpp`/`Application.h` with `ECS.cpp` is the newer one. Its
  G-buffer has four slots, plus a sampler. Its materials have four texture
  kinds, with a fallback chain for the specular map.

How the model represents the program:

- **GPU objects** are handles, `Handle = Null | Obj(id)`.
- **The device** is an oracle `Device(issued, failing)`. Creation number
  `k` fails exactly when `k in failing`.
  - A checked creation (`if (FAILED(...)) throw`) becomes an `Err` with the
    source's message.
  - An unchecked creation yields `Null`.
- **The immediate context** is a record of the pipeline state, the draws
  issued and the views cleared. Every rendering routine is modelled as the
  list of context calls it makes, and `Context.Exec` replays that list.
  Properties of a frame are stated about the replayed context: what each
  draw was issued with, and what was cleared and unbound.
- **The compiler, the image decoder and the model importer** are parameters
  of the model:
  - the shader compiler is one result per compile;
  - the image decoder is the set of loadable paths and a failure reason;
  - the importer's scene is lists of material keys and faces.

Modules, in dependency order:

- `Common`: handles, the device oracle, `Result`/`Option`, counting.
- `Context`: the D3D11 immediate context as a state machine.
- `Pipeline`: `GraphicsPipeline`.
- `GBuffer`: the two G-buffer layouts, their creation and destruction.
- `Lighting`: the light volume and `DrawPointLight`.
- `EcsRecords`: `ECS.cpp`'s entity records.
- `EcsHeader`: `ECS.h`'s parallel component vectors.
- `Scheduler`: `ECS::run`.
- `Materials`: `Application::loadTexture` and the material loop.
- `MainMaterials`: `main.cpp`'s material loop.
- `Meshes`: `processIndices` and the mesh loops.
- `Frame`: `drawFrame`.
- `Resize`: both `OnWindowResized`s.
- `HotReload`: `RecompileShaders`.
- `Teardown`: `~Resources` and `~Application`.
- `Bump`: `BumpToNormal`.

## Model

| member | source | states |
|---|---|---|
| Common.Device.Create | CoolRenderingStuff/Texture.cpp:18-21 | A checked creation always advances the creation counter. It yields `Obj(issued)` exactly when that creation does not fail, and nothing otherwise. |
| Common.Device.CreateUnchecked | CoolRenderingStuff/GraphicsPipeline.cpp:15-16 | An unchecked creation always advances the device by one and leaves a null pointer exactly when the creation fails. |
| Common.CountAppend | CoolRenderingStuff/ECS.cpp:24-47 | Release counts over a concatenated release list add up, which lets teardown counts be taken phase by phase. |
| Common.CountUnique | CoolRenderingStuff/ECS.cpp:24-47 | In a list without repeats every element occurs exactly once, so a destructor releasing a duplicate-free list releases each object once. |
| Context.ExecAppend | CoolRenderingStuff/main.cpp:1029-1133 | Replaying two call lists one after the other equals replaying their concatenation, so a frame can be reasoned about pass by pass. |
| Context.ExecKeepsDraws | CoolRenderingStuff/main.cpp:1029-1133 | Calls that are not draws never remove or alter a draw already issued. |
| Pipeline.Construct | CoolRenderingStuff/GraphicsPipeline.cpp:3-32 | The constructor creates five objects, or six with an input layout. The layout is null exactly when no input description is given or its creation fails. Topology, viewport and scissor are stored as given. Every owned object is fresh, and no two live ones coincide. |
| Pipeline.Destroy | CoolRenderingStuff/GraphicsPipeline.cpp:34-43 | The destructor releases only owned objects. It skips the input layout when that is null and releases it otherwise. It releases through a null pointer, which crashes, exactly when one of the other five members is null. |
| Pipeline.DestroyReleasesOnce | CoolRenderingStuff/GraphicsPipeline.cpp:34-43 | For a pipeline whose live objects are distinct, every live object is released exactly once and nothing else is released. |
| Pipeline.Bind | CoolRenderingStuff/GraphicsPipeline.cpp:45-64 | Binding sets every pipeline stage: shaders, layout, rasterizer, one viewport and scissor, blend factor all ones, sample mask 0xffffffff, depth-stencil with reference 0. It changes nothing outside the pipeline stages, issues no draw and clears nothing. |
| Pipeline.BindEffect | CoolRenderingStuff/GraphicsPipeline.cpp:45-64 | Replaying the nine context calls of `bind` in source order has exactly the effect of installing the pipeline's stage state. |
| Pipeline.BindIdempotent | CoolRenderingStuff/GraphicsPipeline.cpp:45-64 | Binding the same pipeline twice is the same as binding it once. |
| Pipeline.BindForgetsEarlier | CoolRenderingStuff/GraphicsPipeline.cpp:45-64 | Binding a pipeline erases every trace of the previously bound one. |
| GBuffer.FormatTables | CoolRenderingStuff/Application.h:32-45 | The newer layout has four slots: position and specular are RGBA16 float, normal is RGBA16 snorm, albedo is RGBA8 sRGB. The older three-slot layout of main.cpp is its prefix. Slot indices are distinct. |
| GBuffer.CreateSlot | CoolRenderingStuff/main.cpp:811-832 | One slot creates a texture, a render-target view and a shader-resource view, in that order. It fails exactly when one of the three creations fails, and the message names the first one that failed: "Failed to create gbuffer texture!", "… RTV!" or "… SRV!". |
| GBuffer.CreateSlots | CoolRenderingStuff/main.cpp:796-833 | The slot loop creates one slot per format, in order, with consecutive object ids. It succeeds exactly when none of the 3 × slots creations fails. |
| GBuffer.CreateSlotsFailsAtFirstFailingSlot | CoolRenderingStuff/Application.cpp:91-112 | When slot j is the first slot with a failing creation, the loop fails, and its message is the one for the first failing step of slot j. |
| GBuffer.CreateMain | CoolRenderingStuff/main.cpp:792-834 | main.cpp's `createGbuffers` makes three slots of the window size, reinterpreting the signed window size as unsigned, from nine consecutive creations. |
| GBuffer.ToUint32 | CoolRenderingStuff/Application.cpp:73-79 | A signed 32-bit window size stored in an unsigned field keeps non-negative values and wraps negative ones modulo 2^32. |
| GBuffer.CreateAppSlotsAsWritten | CoolRenderingStuff/Application.cpp:76-132 | As written, each iteration of the newer loop also creates a sampler into the same field, four creations per slot; the field keeps only the last one. |
| GBuffer.CreateAppAsWritten | CoolRenderingStuff/Application.cpp:72-133 | As written, 16 creations are made; the stored sampler is the last one. |
| GBuffer.CreateAppAsWrittenLeaksSamplers | CoolRenderingStuff/Application.cpp:114-131 | On success the samplers created by the first three iterations exist but are owned by nothing, so no destructor releases them. |
| GBuffer.CreateApp | CoolRenderingStuff/Application.cpp:72-133 | Corrected: the four slots and then one sampler, 13 creations in all. |
| GBuffer.CreateAppOwnsEverything | CoolRenderingStuff/Application.h:47-51 | Corrected: every object the creation made is owned by the G-buffer. |
| GBuffer.SlotsObjectsMembership | CoolRenderingStuff/Application.h:47-49 | An object belongs to the slot arrays exactly when it belongs to one of the slots. |
| GBuffer.SlotReleasesAreLiveObjects | CoolRenderingStuff/main.cpp:78-89 | The destructor's null-tested loop releases exactly the non-null objects of the slots. |
| GBuffer.SlotReleasesCount | CoolRenderingStuff/main.cpp:78-89 | With distinct live objects, each is released exactly once. |
| GBuffer.DestroyMain | CoolRenderingStuff/main.cpp:78-89 | main.cpp's G-buffer destructor releases exactly the live slot objects. |
| GBuffer.DestroyApp | CoolRenderingStuff/Application.h:53-66 | The newer destructor releases the sampler first and unconditionally, then exactly the live slot objects. |
| GBuffer.DestroyAppReleasesOnce | CoolRenderingStuff/Application.h:53-66 | With distinct live objects and a live sampler, everything owned is released once and nothing else. |
| GBuffer.BindTargetsAllSlots | CoolRenderingStuff/Application.h:68-70 | Binding the G-buffer makes all its render-target views, in slot order, the render targets, together with the given depth view. |
| Lighting.BufferSizes | CoolRenderingStuff/Lighting.cpp:9-63 | The volume has 8 positions and 36 indices. Its buffers are 12·8 bytes, 4·36 bytes and one light (32 bytes). |
| Lighting.CornersOfCube | CoolRenderingStuff/Lighting.cpp:9-18 | The eight positions are exactly the eight distinct corners of the cube [-1,1]^3. |
| Lighting.IndicesInRangeAndCovering | CoolRenderingStuff/Lighting.cpp:37-45 | Every index addresses one of the eight positions, and every position is used. |
| Lighting.TrianglesOnFaces | CoolRenderingStuff/Lighting.cpp:37-45 | The twelve triangles are non-degenerate, and each lies on one face of the cube. |
| Lighting.Construct | CoolRenderingStuff/Lighting.cpp:5-70 | The constructor creates the vertex, index and constant buffers unchecked. Each is null exactly when its creation fails. The index count is the index list's length. |
| Lighting.Destroy | CoolRenderingStuff/Lighting.h:24-27 | Deleting the light volume releases the cube's vertex buffer and index buffer, unchecked. It releases a null pointer, which crashes, exactly when one of them is null. The constant buffer is not released. |
| Lighting.ConstructedVolumeTeardown | CoolRenderingStuff/Lighting.h:19-33 | For a freshly constructed volume, deleting it crashes exactly when one of the two buffer creations failed. The live constant buffer is never released. |
| Lighting.DrawPointLight | CoolRenderingStuff/Lighting.cpp:73-88 | Drawing a light uploads it to the constant buffer, binds that buffer to both stages at slot 1 and binds the cube's buffers. It issues one indexed draw of all 36 indices. |
| Lighting.DrawPointLightEffect | CoolRenderingStuff/Lighting.cpp:73-88 | Drawing a light appends exactly one draw, bound to the light and the cube, and keeps earlier draws. The pipeline, render targets, depth view, shader resources, samplers and clears stay unchanged. |
| EcsRecords.AddEntity | CoolRenderingStuff/ECS.cpp:7-11 | Adding an entity appends one empty record and returns the previous counter. Validity is kept, so the returned id indexes the new record. |
| EcsRecords.Update | CoolRenderingStuff/Application.cpp:232-234 | Writing the entity at an id changes only that entity. |
| EcsRecords.AddEntitiesConsecutive | CoolRenderingStuff/ECS.cpp:7-11 | `n` additions return the `n` consecutive ids starting at the counter. They append exactly `n` empty records, keep the earlier ones and keep validity. |
| EcsHeader.AddEntity | CoolRenderingStuff/ECS.h:74-79 | The header revision appends an empty light and an empty circling component, keeps earlier components and returns the previous counter. |
| EcsHeader.AddEntitiesConsecutive | CoolRenderingStuff/ECS.h:74-79 | n additions return consecutive ids starting at the counter. They add n empty entries to both component vectors and keep earlier ones. |
| EcsHeader.FreshIdsAreZeroToN | CoolRenderingStuff/ECS.h:53 | From a fresh store, n additions return the distinct ids 0..n-1, and each indexes its components. |
| EcsHeader.DefaultCbufferAllClear | CoolRenderingStuff/ECS.h:32-38 | A default material's four texture flags are all off. |
| Scheduler.Run | CoolRenderingStuff/ECS.cpp:13-21 | One tick runs every system once, in order, threading the world through. The systems kept are exactly those whose call returned true, in their original order. |
| Scheduler.SelectIsOrderedSubsequence | CoolRenderingStuff/ECS.cpp:13-21 | The kept list is the ordered subsequence of the systems at the positions whose verdict was true. |
| Scheduler.SelectMembership | CoolRenderingStuff/ECS.cpp:13-21 | A system is kept exactly when some position holding it said true. |
| Scheduler.SelectDistinct | CoolRenderingStuff/ECS.cpp:13-21 | A duplicate-free system list stays duplicate-free. |
| Scheduler.RunThreadsWorld | CoolRenderingStuff/ECS.h:84-91 | Each system sees the world as the previous system left it. |
| Scheduler.KeptIffSaidTrue | CoolRenderingStuff/ECS.cpp:13-21 | A system survives a tick exactly when it ran and returned true. |
| Scheduler.AlwaysTrueRun | CoolRenderingStuff/ECS.cpp:13-21 | Systems that always return true are all kept, in order. |
| Scheduler.KeptIsStable | CoolRenderingStuff/ECS.cpp:13-21 | A list that one tick keeps from any world is the list after any number of ticks. |
| Scheduler.AlwaysTrueIsStable | CoolRenderingStuff/ECS.cpp:13-21 | Such a system list is unchanged after any number of ticks. |
| Scheduler.AbsentStaysAbsent | CoolRenderingStuff/ECS.cpp:13-21 | No tick ever adds a system. |
| Scheduler.DroppedForever | CoolRenderingStuff/ECS.cpp:13-21 | A system that returns false once is gone for every later tick. |
| Scheduler.SurvivorsSaidTrueEveryTick | CoolRenderingStuff/ECS.cpp:13-21 | After k ticks, a system is present exactly when it was present initially and said true at every one of the k ticks. |
| Materials.NewTexture | CoolRenderingStuff/Texture.cpp:2-58 | A texture creates a 2D texture, a view and a sampler. It fails exactly when one of the three fails, and then with the message of the first failing step (texture, view, sampler). |
| Materials.Overwrite | CoolRenderingStuff/Application.cpp:265-266 | Writing into a stream opened on an initial string overwrites it from the start: the written text comes first, then the unoverwritten tail of the initial string. |
| Materials.ErrorMessage | CoolRenderingStuff/Application.cpp:265-267 | Corrected: the message is "Failed to load texture ", then the path, then " because ", then the reason. |
| Materials.AsWrittenDropsPrefix | CoolRenderingStuff/Application.cpp:265-267 | As written, a message for a path of ordinary length starts with the path, not with "Failed to load texture ". |
| Materials.AsWrittenExample | CoolRenderingStuff/Application.cpp:265-267 | A concrete texture path and reason yield a message starting with the path. |
| Materials.LoadTexture | CoolRenderingStuff/Application.cpp:242-276 | Without a texture key, nothing is enabled or loaded. A DDS path is cleared and disabled. Otherwise the load succeeds exactly when the image decodes and the texture creates. The path is enabled and cached under the full path. Every other cache entry stays. A failed decode throws the message as written: the path and the reason written over the initial text. |
| Materials.LoadFailureLosesPrefix | CoolRenderingStuff/Application.cpp:263-267 | A failed load of an image whose full path does not start with 'F' throws a message that starts with the path and not with "Failed to load texture ". |
| Materials.LoadTextureWellFormed | CoolRenderingStuff/Application.cpp:270 | Loading keeps the cache's entries keyed by their own names. |
| Materials.ReloadOrphans | CoolRenderingStuff/Application.cpp:270 | Loading a path already in the cache replaces the entry without deleting the old texture: the old one is orphaned, cached nowhere. |
| Materials.StoreBool | CoolRenderingStuff/Application.cpp:162-169 | Writing a bool through `(bool&)` on an int flag sets its low byte to 0 or 1 and keeps the other bytes. |
| Materials.StoreBoolReadsBack | CoolRenderingStuff/Application.cpp:162-169 | On a flag whose upper bytes are clear, the written flag is non-zero exactly when the bool was true. |
| Materials.LoadTextureConsistent | CoolRenderingStuff/Application.cpp:242-276 | After a load, the enabled flag and the path agree: enabled exactly when a cached path was stored. |
| Materials.WithSlot | CoolRenderingStuff/ECS.h:40-47 | Setting one texture kind's path and flag leaves the name and every other kind untouched. |
| Materials.LoadSlot | CoolRenderingStuff/Application.cpp:162-165 | Loading one kind leaves the name and every other kind untouched. |
| Materials.SlotStep | CoolRenderingStuff/Application.cpp:162-165 | Loading a kind into a clear flag enables it exactly when its key is usable, storing the full path; otherwise it stores "". |
| Materials.ChainPicksFirstUsable | CoolRenderingStuff/Application.cpp:165-169 | The specular map is the first usable key among specular, shininess and roughness, or none. |
| Materials.SpecularFallback | CoolRenderingStuff/Application.cpp:150-172 | A loaded material's specular flag and path come from that first usable key. |
| Materials.ChainStopsAtSpecular | CoolRenderingStuff/Application.cpp:166-169 | With a usable specular key the fallbacks are never consulted. |
| Materials.FallbacksSkipped | CoolRenderingStuff/Application.cpp:166-169 | With a usable specular key, the material is the same whatever the shininess and roughness keys say. |
| Materials.LoadMaterial | CoolRenderingStuff/Application.cpp:150-171 | A material is named after its name key, or "" when it has none. |
| Materials.LoadMaterialConsistent | CoolRenderingStuff/Application.cpp:150-172 | Every enabled texture of a loaded material names a texture in the cache, and the cache only grows. |
| Materials.LoadMaterials | CoolRenderingStuff/Application.cpp:150-172 | The loop appends one material per key, in order, and keeps the earlier ones. All materials stay consistent with the final cache. |
| MainMaterials.LoadPath | CoolRenderingStuff/main.cpp:869-910 | main.cpp loads every keyed texture, DDS included, and throws the bare decoder reason when decoding fails. |
| MainMaterials.LoadPathAgreesOffDds | CoolRenderingStuff/main.cpp:869-910 | Off DDS paths the two revisions' texture loads agree. |
| MainMaterials.DdsLoadedOnlyByMain | CoolRenderingStuff/main.cpp:869-889 | A loadable DDS texture is enabled by main.cpp but skipped by the newer revision. |
| MainMaterials.LoadMainMaterial | CoolRenderingStuff/main.cpp:852-914 | A diffuse or normal flag is 1 exactly when its key exists, and its path is the full path; otherwise the flag is 0 and the path "". |
| MainMaterials.LoadMainMaterialConsistent | CoolRenderingStuff/main.cpp:852-914 | Enabled textures name cache entries, also in any larger cache. |
| MainMaterials.LoadMainMaterials | CoolRenderingStuff/main.cpp:852-915 | The loop appends one material per key, in order, with those flags. Every material is consistent with the final cache. |
| Meshes.FlattenAt | CoolRenderingStuff/Application.cpp:299-306 | Face f's corner k sits at index 3f + k of the flattened list. |
| Meshes.RegroupFlatten | CoolRenderingStuff/Application.cpp:299-306 | Regrouping the flattened indices in threes gives back the faces. |
| Meshes.FlattenUnique | CoolRenderingStuff/Application.cpp:299-306 | Any list with the face corners at positions 3f + k is the flattened list. |
| Meshes.ProcessIndices | CoolRenderingStuff/main.cpp:995-1002 | The index loop writes 3 × faces entries, corner k of face f at 3f + k. |
| Meshes.ProcessIndicesFlattens | CoolRenderingStuff/Application.cpp:299-306 | The loop's output is the flattened face list, and it regroups to the faces. |
| Meshes.IndexCount | CoolRenderingStuff/Application.cpp:185 | `mNumFaces * 3u` is a 32-bit count: exact when three times the faces fits in 32 bits. |
| Meshes.LoadMesh | CoolRenderingStuff/Application.cpp:176-235 | A mesh gets a vertex and an index buffer from two consecutive creations. It succeeds exactly when neither fails. Otherwise it stops at the null-pointer `SetPrivateData` call on the vertex buffer exactly when that creation failed, and on the index buffer otherwise. |
| Meshes.LoadMeshes | CoolRenderingStuff/Application.cpp:176-235 | The loop appends one mesh per scene mesh, in order, with consecutive buffer ids. It adds one entity per mesh, referring to that mesh, and keeps earlier meshes and entities. |
| Meshes.LoadMainMeshAsWritten | CoolRenderingStuff/main.cpp:944-962 | As written, only the vertex buffer's result is asserted, twice. A failed index buffer goes unnoticed. |
| Meshes.MainMeshKeepsNullIndexBuffer | CoolRenderingStuff/main.cpp:960-962 | When only the index-buffer creation fails, the mesh as written is accepted with a null index buffer. |
| Meshes.LoadMainMesh | CoolRenderingStuff/main.cpp:944-962 | Corrected: both results are checked, so a loaded mesh has two live buffers. |
| Meshes.MainMeshAgreesUnlessIndexBufferFails | CoolRenderingStuff/main.cpp:944-962 | The two versions agree exactly when the index-buffer creation does not fail on its own. |
| Frame.ExecClearAll | CoolRenderingStuff/main.cpp:1040-1043 | Clearing each view appends the views to the cleared list, in order, and changes nothing else. |
| Frame.ExecPrologue | CoolRenderingStuff/main.cpp:1030-1049 | Before the meshes, the deferred pipeline and G-buffer targets are bound, the per-frame constants uploaded and bound, and the G-buffer views then the depth view cleared. No draw is issued. |
| Frame.ExecTextureCalls | CoolRenderingStuff/main.cpp:1064-1084 | An enabled texture binds its sampler and view to the slot. A disabled one binds a null view and keeps the old sampler. |
| Frame.ExecMeshCalls | CoolRenderingStuff/main.cpp:1061-1095 | One mesh is issued as exactly one draw, bound to its material's textures, flags and buffers. |
| Frame.ExecGeometry | CoolRenderingStuff/main.cpp:1061-1096 | The mesh loop issues one draw per mesh, in order, each as its material dictates. |
| Frame.ExecLights | CoolRenderingStuff/main.cpp:1126-1129 | The light loop issues one draw per light, in order, under the lighting pass bindings. |
| Frame.ExecLightPrologue | CoolRenderingStuff/main.cpp:1117-1123 | The light pass clears the back-buffer view and binds it as the only target, without depth. It binds the lighting pipeline, the G-buffer views and the G-buffer sampler. |
| Frame.ExecLightPass | CoolRenderingStuff/main.cpp:1117-1133 | The light pass draws every light and then unbinds the G-buffer views. |
| Frame.FrameClearsAndCounts | CoolRenderingStuff/main.cpp:1029-1133 | A frame clears the G-buffer views, the depth view and the back buffer, in that order. It issues one draw per mesh plus one per light and keeps earlier draws. |
| Frame.FrameDrawsMesh | CoolRenderingStuff/main.cpp:1061-1096 | The frame's i-th draw is mesh i's, with its material bound. |
| Frame.FrameDrawsLight | CoolRenderingStuff/main.cpp:1126-1129 | The draw after all meshes plus j is light j's. |
| Frame.FrameUnbindsGBuffer | CoolRenderingStuff/main.cpp:1131-1133 | After a frame, no G-buffer view is bound as a shader resource, so the next frame can render into them. |
| Frame.DrawFrame | CoolRenderingStuff/main.cpp:1099-1113 | The frame fails exactly when the back buffer is missing or its view's creation fails. A missing back buffer gives the back-buffer message; otherwise a failed view creation gives the RTV message. On success it issues exactly the frame's calls against the new view. |
| Resize.ToLong | CoolRenderingStuff/Application.cpp:405-408 | Storing an unsigned size into a signed `LONG` gives the value congruent to it modulo 2^32. |
| Resize.FitCovers | CoolRenderingStuff/Application.cpp:405-408 | A resized pipeline's viewport and scissor cover the new window, and nothing else changes. |
| Resize.FitLatestWins | CoolRenderingStuff/Application.cpp:405-408 | Resizing twice is the same as resizing once to the later size. |
| Resize.ResizeSlot | CoolRenderingStuff/Application.cpp:424-439 | A slot is recreated at the new size in its old format. It fails exactly when one of the three creations fails, and then with the message of the first failing creation. |
| Resize.ResizeSlots | CoolRenderingStuff/Application.cpp:417-441 | All slots are recreated in order, with consecutive ids, at the new size and in their formats. |
| Resize.ResizeSlotsFailsAtFirstFailingSlot | CoolRenderingStuff/Application.cpp:417-439 | When slot j is the first whose creations fail, the slot loop fails with the message of that slot's first failing creation. |
| Resize.ResizeReleasesAllSlotObjects | CoolRenderingStuff/Application.cpp:419-421 | The resize releases exactly the old slot objects. |
| Resize.ResizeApp | CoolRenderingStuff/Application.cpp:380-447 | The newer resize releases the old depth texture and view, then recreates them, then recreates every G-buffer slot. It keeps the sampler and fits both pipelines to the new size. A failed depth texture or depth view gives that creation's message; once both exist, only a slot message is possible. |
| Resize.ResizeAppFailsAtFirstFailingSlot | CoolRenderingStuff/Application.cpp:392-439 | Once the depth texture and view are created, a resize fails with the message of the first failing slot's first failing creation. |
| Resize.ResizeAppFits | CoolRenderingStuff/Application.cpp:380-447 | After a resize, every target and both pipelines match the window, and every new object is fresh. |
| Resize.SameLayoutTransitive | CoolRenderingStuff/Application.cpp:380-447 | Keeping the layout (formats, slot count, sampler) composes across resizes. |
| Resize.ResizeManyKeepsLayout | CoolRenderingStuff/Application.cpp:380-447 | Any sequence of resizes keeps the layout and leaves everything fitting the last size. |
| Resize.ResizeMain | CoolRenderingStuff/main.cpp:1230-1269 | main.cpp's resize creates a new depth view and replaces the old one without releasing it. It fits only the deferred pipeline and leaves the depth texture and G-buffer as they were. |
| Resize.MainResizeKeepsGBufferSize | CoolRenderingStuff/main.cpp:1230-1269 | After main.cpp's resize, a G-buffer slot keeps its old width, so a slot made for another size no longer matches the deferred viewport the geometry pass renders with. |
| HotReload.FirstFailure | CoolRenderingStuff/Application.cpp:318-370 | The reload stops at the first failed compile; all compiles before it succeeded. |
| HotReload.RecompileAsWritten | CoolRenderingStuff/Application.cpp:318-375 | As written, the failure branch reads the error blob before testing it for null. |
| HotReload.Recompile | CoolRenderingStuff/main.cpp:1158-1228 | Corrected. With live shaders the reload returns. A pipeline's shaders are replaced, and its old ones released, only when both its compiles succeed, the deferred ones first. A shader created before a failed partner compile is leaked. Nothing else changes. |
| HotReload.AsWrittenCrashesOnlyWithoutBlob | CoolRenderingStuff/main.cpp:1166-1171 | The two versions differ exactly when the first failed compile leaves no error blob. |
| HotReload.MissingShaderFile | CoolRenderingStuff/main.cpp:1166-1171 | When the first shader file cannot be opened, the reload as written crashes, while the corrected one returns with nothing changed. |
| HotReload.LightingAfterDeferred | CoolRenderingStuff/Application.cpp:342-375 | The lighting shaders change only after all four compiles succeeded, with the deferred shaders replaced too. |
| Teardown.Tag | CoolRenderingStuff/ECS.cpp:24-47 | A phase's release events are its handles, in order. |
| Teardown.ReleasedAppend | CoolRenderingStuff/ECS.cpp:24-47 | The releases of consecutive phases concatenate. |
| Teardown.ReleasedTag | CoolRenderingStuff/ECS.cpp:24-47 | A phase releases exactly its handles. |
| Teardown.ReleasedSteps | CoolRenderingStuff/ECS.cpp:44-46 | Cleanup steps release no handle. |
| Teardown.Events | CoolRenderingStuff/ECS.cpp:24-47 | `~Resources` starts with the light volume's releases and ends with the core cleanup and then the window. The window is cleaned up exactly once, last. No object is released after the core is cleaned up. |
| Teardown.ResourcesTeardown | CoolRenderingStuff/ECS.cpp:24-47 | For the concrete resources, the first two events release the light volume's vertex and index buffers (`delete lighting`). Pipelines, textures, meshes and the application's G-buffer follow, and the window is last. |
| Teardown.EventsOrdered | CoolRenderingStuff/ECS.cpp:24-47 | Phases occur in the destructor's order, never returning to an earlier one. |
| Teardown.TeardownOrdered | CoolRenderingStuff/ECS.cpp:24-47 | The concrete teardown is phase-ordered. |
| Teardown.EventsReleased | CoolRenderingStuff/ECS.cpp:24-47 | The objects released are the light volume's, then the pipelines', the textures', the meshes' and the application's, in that order. |
| Teardown.DestroyMatchesOwned | CoolRenderingStuff/GraphicsPipeline.cpp:34-43 | Every live object a pipeline owns is released as often as it is owned. |
| Teardown.SlotReleasesMatchObjects | CoolRenderingStuff/Application.h:56-65 | Every live slot object is released as often as it occurs. |
| Teardown.ReleasesOwned | CoolRenderingStuff/ECS.cpp:24-47 | Each live object is released as often as it is owned. The owned objects include the light volume's two buffers. When all owned objects are distinct, each is released exactly once and nothing unowned is released. |
| Teardown.ReleasesAfterLight | CoolRenderingStuff/ECS.cpp:28-42 | After the light volume, each live object is released by the pipelines, textures, meshes and application as often as they own it. |
| Teardown.LightBuffersReleasedOnce | CoolRenderingStuff/ECS.cpp:26 | With no live object owned twice, each live buffer of the light volume is released exactly once by `~Resources`. |
| Teardown.EveryTextureDeletedOnce | CoolRenderingStuff/Texture.cpp:60-64 | Every cached texture's view, texture and sampler are released exactly once. |
| Teardown.TextureListed | CoolRenderingStuff/ECS.cpp:31-33 | Every enumerated texture's three objects are in the release list. |
| Teardown.EveryMeshReleasedOnce | CoolRenderingStuff/ECS.cpp:35-38 | Every cached mesh's two buffers are released exactly once. |
| Teardown.MeshReleases | CoolRenderingStuff/ECS.cpp:35-38 | Each mesh releases its two buffers. A null buffer is released, which crashes, exactly when some mesh holds one. |
| Teardown.MeshListed | CoolRenderingStuff/ECS.cpp:35-38 | Both buffers of every cached mesh are in the release list. |
| Teardown.MainTeardown | CoolRenderingStuff/main.cpp:375-402 | main.cpp's destructor releases the light volume's two buffers right after the textures and meshes (`delete lighting`). It releases the device and destroys the window before the G-buffer member's destructor runs. After the window, nothing but G-buffer objects is released. |
| Teardown.MainTeardownReleasesNullBuffer | CoolRenderingStuff/main.cpp:380-383 | A loaded mesh with a null buffer, which the as-written main.cpp loader can keep, makes main.cpp's destructor release through a null pointer. |
| Teardown.MainGBufferAfterDevice | CoolRenderingStuff/main.cpp:78-89 | Every live G-buffer object of main.cpp is released after the device. |
| Bump.Next | BumpToNormal/main.cpp:60 | `(x + 1) % width` is the next column, wrapping from the last to 0. |
| Bump.Prev | BumpToNormal/main.cpp:61 | `(width + (x - 1)) % width` in 64-bit unsigned arithmetic is the previous column, wrapping from 0 to the last, although `x - 1` wraps. |
| Bump.ModWrap | BumpToNormal/main.cpp:62 | For an index below n, the successor modulo n is the successor or 0. |
| Bump.PrevWrap | BumpToNormal/main.cpp:63 | For an index below n, the wrapped predecessor modulo n is the predecessor or n - 1. |
| Bump.TexelIdInRange | BumpToNormal/main.cpp:65-69 | Inside the image `y * width + x` does not wrap and is below width × height. |
| Bump.StencilAt | BumpToNormal/main.cpp:60-69 | The five texels read for a pixel are the pixel and its four wrapped neighbours, all inside the image. |
| Bump.RowMajor | BumpToNormal/main.cpp:65 | A row-major position gives its column and row back. |
| Bump.RowInside | BumpToNormal/main.cpp:54-58 | A position inside the image lies on one of its rows. |
| Bump.PixelStencil | BumpToNormal/main.cpp:54-69 | The stencil for position k is centred on k and reads only inside the image. |
| Bump.Convert | BumpToNormal/main.cpp:54-101 | The loops visit the width × height pixels in row-major order, once each, and every texel read is inside the image. |
| Bump.FirstStop | BumpToNormal/main.cpp:28-33 | Finds the first "quit" or empty token; every token before it is a file name. |
| Bump.Prompt | BumpToNormal/main.cpp:28-33 | Corrected: the files attempted are the tokens before the first "quit" or the end of input, in order. |
| Bump.AsWrittenAgreesWithQuit | BumpToNormal/main.cpp:28-33 | When the input contains "quit", the loop as written converts the same files. |
| Bump.EofRepeatsLastFile | BumpToNormal/main.cpp:31-33 | As written, at end of input every further iteration converts the last file again. |
| Bump.OneFileThenEof | BumpToNormal/main.cpp:28-33 | Input "normal.png" with no "quit": three iterations as written convert it three times; the corrected loop converts it once. |

## Left out

- Floating point: clear colours, blend factors, light data, camera maths and the normal computation of `BumpToNormal` are treated as opaque values or left out. Viewport extents are exact reals.
- Resize.FitCovers: the viewport size is the exact window size, while `static_cast<float>` rounds sizes above 2^24. The rounding is not modelled.
- I/O and foreign libraries are parameters of the model: file reading, the shader compiler's diagnostics text, stb_image decoding, assimp import and `std::filesystem` extension parsing. Console output and ImGui are left out.
- Window creation, GLFW callbacks, the fly camera, the random lights and the `Init` sequences are outside the core; the model starts from their results.
- `IDXGISwapChain::ResizeBuffers` and `Present`, and `Map`/`memcpy`, are modelled only as the upload of a value to a buffer.
- `processVertices` copies floating-point attributes and is left out; a vertex buffer is an opaque handle.
- The constructors of the constant buffers and the per-frame/per-material uniforms are left out. Neither revision ever releases them, nor the light volume's `lightConstantBuffer` (`~Mesh` releases only the cube's two buffers), so teardown does not list them.
- Lighting.Destroy: `~Mesh` (Lighting.h:24-27) releases both buffers without a null test, so a failed buffer creation crashes the teardown. The model lists it as a release of `Null`, states when it happens (`DestroyCrashes`) and does not stop the teardown there.
- EcsRecords.AddEntity: `nextEntity` is a C++ `int`, so the counter overflows after 2^31 - 1 entities. The model's counter is unbounded and that overflow is not modelled.
- EcsHeader.AddEntity: the same `int` counter `nextEntity` overflows after 2^31 - 1 entities. The model's counter is unbounded and that overflow is not modelled.
- Frame.DrawFrame: the back-buffer render-target view is released after `Present` (main.cpp:1155). `Frame.DrawFrame` returns that view and leaves that release out.
- Meshes.LoadMainMeshAsWritten: the model follows a debug build, where a failed `assert` aborts; the abort is an `Err` naming the assertion. In a release build the asserts vanish and a null vertex buffer would be kept too. The model does not state that case.
- Pipeline.Destroy: a `Release` through a null member crashes the program. The model lists it as a release of `Null`, states when it happens (`DestroyCrashes`) and does not stop the teardown there.
- Teardown.MeshReleases: a null mesh buffer crashes `~Resources` (ECS.cpp:36-37) and main.cpp's destructor (main.cpp:381-382) in the same way. It appears as a release of `Null`, and the events after it are still listed.
- Meshes.LoadMesh: the `SetPrivateData` call through a null buffer after a failed creation crashes; it is not an exception. The model ends the load with an `Err` naming that call.
- main.cpp never releases `depthTexture`, `depthStencilView`, `depthStencilSRV` or `gbufferSampler`. `Teardown.MainTeardown` does not list them, and the leak is not otherwise modelled.
- Meshes.IndexCount: `mNumFaces * 3u` is modelled modulo 2^32, but the buffer sizes derived from it (`sizeof(unsigned int) * numIndices`) are not.
- Bump.Convert: `width * height` in `new pixelData3[]` is an `int` product; the model requires both dimensions below 2^31 and does not model the overflow of that allocation size.
- Scheduler.Run: systems are pure functions from the world to a verdict and a new world; a system that mutates the system list during the tick is not modelled.
- The seven-argument `GraphicsPipeline` constructor overload declared in GraphicsPipeline.h has no definition, and it is not part of this model.

## Findings

| source | as written | input that shows it | evidently intended | confidence | as-written member | corrected member |
|---|---|---|---|---|---|---|
| CoolRenderingStuff/Application.cpp:114-131 | the G-buffer sampler is created inside the per-slot loop, into one field | any successful `createGbuffers`: 4 samplers are created and the first 3 are owned by nothing | one sampler, created once after the loop | high (not executed) | GBuffer.CreateAppAsWrittenLeaksSamplers | GBuffer.CreateAppOwnsEverything |
| CoolRenderingStuff/Application.cpp:265-266 | `std::stringstream errorString("Failed to load texture ")` then `<<` overwrites the initial text from position 0 | path "assets/crytekSponza_fbx/textures/a.png", reason "can't fopen": the message starts with the path | the message starts with "Failed to load texture " | high (not executed) | Materials.LoadFailureLosesPrefix | Materials.ErrorMessage |
| CoolRenderingStuff/main.cpp:1166-1171 | `errors->GetBufferPointer()` is called before `if (errors)` | a missing shader file: compile fails with no error blob | test `errors` before printing it | high (not executed) | HotReload.MissingShaderFile | HotReload.AsWrittenCrashesOnlyWithoutBlob |
| CoolRenderingStuff/main.cpp:960-962 | after creating the index buffer the code asserts `SUCCEEDED(vbHR)` again; `ibHF` is never checked | the vertex buffer's creation succeeds and the index buffer's fails | `assert(SUCCEEDED(ibHF))` | high (not executed) | Meshes.MainMeshKeepsNullIndexBuffer | Meshes.MainMeshAgreesUnlessIndexBufferFails |
| BumpToNormal/main.cpp:28-33 | `std::cin >> command` at end of input leaves `command` unchanged, and the loop tests only for "quit" and "" | input "normal.png" followed by end of input | stop at end of input | medium (not executed) | Bump.EofRepeatsLastFile | Bump.Prompt |
