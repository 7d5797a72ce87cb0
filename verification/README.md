# aurora: resource lifetimes and frame bookkeeping

This is a Dafny model of the resource-lifetime and frame-bookkeeping core of aurora, a small C++ Vulkan renderer. Every Vulkan, VMA, SDL, vk-bootstrap and Assimp call is replaced by three things:

- an abstract handle (`Gpu.Id`);
- a success or failure outcome supplied as a parameter;
- an allocator that is the set of live ids plus the next fresh id.

What remains is ordering, rollback and index arithmetic, and that is what the model states and proves.

The modules follow the source:

| module | file | models |
|---|---|---|
| `DeletionQueue` | `deletion_queue.dfy` | `DeletionQueue::add` and `delete_all`: last-in-first-out replay, then clear |
| `Gpu` | `gpu.dfy` | handles, the live-set allocator, layouts, aspects, formats and extents |
| `Commands` | `commands.dfy` | `full_image_range`, `transition_image` (as written and corrected), and the recorded-command type |
| `GpuImage` | `gpu_image.dfy` | `GPUImage::allocate` (two steps, no rollback) and `GPUImage::release` |
| `Engine` | `engine.dfy` | see below |
| `EngineRelease` | `engine_release.dfy` | the fixed destruction order of `Engine::release`, checked against the parent/child relation of the native objects |
| `Upload` | `upload.dfy` | the byte layout of a mesh upload: little-endian encoding, `memcpy` into the staging buffer, and the two buffer copies |
| `Assets` | `assets.dfy` | `App::create_mesh`, `destroy_mesh`, `create_material_from_file`, `destroy_material`, `destroy_scene` |
| `SceneLoader` | `scene_loader.dfy` | see below |
| `ForwardPass` | `forward_pass.dfy` | `ForwardPass::init` (creation order, closure registration, failure exits), `~ForwardPass`, and `render` as a command trace |
| `App` | `app.dfy` | see below |

The three larger modules cover:

- `Engine`: the two-slot frame pool, the per-frame object creation in `Engine::init`, the eleven native calls of `Engine::render_frame` with their short circuit, fences and semaphores, and `Engine::run`.
- `SceneLoader`: `App::create_scene_from_file`. That is:
  - the material and mesh loops with whole-scene rollback;
  - face flattening;
  - the stack-based node traversal.
- `App`: `App::init`, the event loop of `App::run` with its render-disable flag, and the teardown of `~App` followed by the member destructors in reverse declaration order.

Behaviour of the code worth knowing before reading the model (the model follows the code in each case):

- **No rollback in `GPUImage::allocate`.** It does not destroy the image when view creation fails: the image stays allocated. `GpuImage.Allocate` keeps the image, and `GpuImage.ReleaseUndoesAllocate` proves that `release` after any outcome restores the live set.
- **No slot-queue flush per frame.** `Engine::render_frame` never flushes the slot's deletion queue. `Engine::release` also never flushes the engine-wide or per-slot queues. `Engine.RenderFrame` leaves every queue untouched.
- **No swapchain generation counter.** engine.cpp creates and destroys the swapchain views without any generation or staleness check, so none is modelled.
- **`VK_SUBOPTIMAL_KHR` counts as failure.** `VKERR` treats any code other than `VK_SUCCESS` as failure, including this one, which Vulkan counts as a success. `Engine.OutOfDateFailsFrame` states this.

## Model

| member | source | states |
|---|---|---|
| DeletionQueue.Add | src/deletion_queue.hpp:11-14 | the action is appended at the back; every earlier entry keeps its place |
| DeletionQueue.Reverse | src/deletion_queue.hpp:18-21 | the reverse-iterator order: position i holds entry n-1-i |
| DeletionQueue.DeleteAll | src/deletion_queue.hpp:16-23 | the loop from `rbegin` to `rend` runs entry n-1-i at step i, runs a permutation of the queue, and leaves the queue empty |
| DeletionQueue.DeleteAllIsFlush | src/deletion_queue.hpp:16-23 | the loop agrees with the value-level flush |
| DeletionQueue.ReverseAppend | src/deletion_queue.hpp:18-21 | replaying a concatenation runs the later block first |
| DeletionQueue.ReverseIsPermutation | src/deletion_queue.hpp:18-21 | reverse replay is a permutation of the entries |
| DeletionQueue.FlushRunsEachOnce | src/deletion_queue.hpp:18-21 | every queued action runs exactly once (multiset equality) |
| DeletionQueue.FlushAdd | src/deletion_queue.hpp:11-23 | the action added last runs first, ahead of everything queued before it |
| DeletionQueue.FlushThreeIsLifo | src/deletion_queue.hpp:11-23 | `add(a); add(b); add(c)` then `delete_all` runs c, b, a |
| DeletionQueue.FlushTwiceRunsNothing | src/deletion_queue.hpp:22 | after a flush the queue is empty, so a second flush runs nothing and changes nothing |
| DeletionQueue.FlushEmptyIsNoOp | src/deletion_queue.hpp:16-23 | flushing an empty queue runs nothing and leaves it empty |
| DeletionQueue.AddAllAppends | src/deletion_queue.hpp:11-14 | adding a batch appends it in order |
| DeletionQueue.AddAfterFlushRunsOnlyNew | src/deletion_queue.hpp:11-23 | after a flush, the next flush runs only the actions added since, newest first |
| DeletionQueue.FlushOfTwoBatches | src/deletion_queue.hpp:11-23 | a queue built in two batches replays the second batch (reversed) before the first |
| Commands.FullImageRange | src/engine.cpp:418-427 | every mip level and every array layer from 0, for the given aspect |
| Commands.TransitionImageAsWritten | src/engine.cpp:391-416 | the barrier has the given image and layouts, the full range, and the all-commands write-to-read/write scope; its aspect is depth exactly when the OLD layout is depth-attachment-optimal |
| Commands.TransitionImage | src/engine.cpp:391-416 | the corrected helper: the same barrier, but the aspect is depth exactly when either layout is depth-attachment-optimal |
| Commands.DepthTransitionAsWrittenNamesColor | src/engine.cpp:395-397 | counterexample: UNDEFINED to DEPTH_ATTACHMENT_OPTIMAL gets the colour aspect as written and the depth aspect when corrected |
| Commands.CorrectionOnlyAffectsDepthTargets | src/engine.cpp:395-397 | the correction changes exactly the transitions that enter the depth-attachment layout from another layout |
| GpuImage.Allocate | src/gpu_image.hpp:19-69 | format and extent are recorded on every outcome. The image is 2D, 1 mip, 1 layer, device-local, with the caller's usage. The view is requested only when the image exists, for that image, over mip 0 / layer 0 with the caller's aspect. `ok` holds exactly when both calls succeed. Nothing is rolled back: the live set grows by exactly the handles the struct holds |
| GpuImage.Release | src/gpu_image.hpp:71-77 | destroys the view, then the image; exactly the struct's handles leave the live set |
| GpuImage.ReleaseUndoesAllocate | src/gpu_image.hpp:19-77 | zero net allocations: `release` after any outcome of `allocate` restores the live set |
| Engine.Init | src/engine.cpp:25-186 | the bootstrap chain, then five objects per slot for slots 0 and 1; true exactly when every step succeeds; the first failure stops the chain; success leaves slot 0 next and both fences signaled |
| Engine.RenderFrame | src/engine.cpp:216-323 | the slot index advances mod 2 before any fallible call, whatever happens. Only the used slot's fence changes. Rendered exactly when the fence was waitable and every call succeeded. A wait on an unsignaled fence never returns. A submitted frame's fence is pending on that frame, whether it then renders or its present fails. Any failure after the reset and before the submit (acquire, command-buffer reset, begin, end or submit) leaves the fence unsignaled |
| Engine.FrameShortCircuits | src/engine.cpp:216-323 | every call before the last one a frame made returned success, and a failed frame's last call did not |
| Engine.FrameSemaphorePairing | src/engine.cpp:230-320 | acquire signals the semaphore submit waits on; submit signals the semaphore present waits on and the fence waited and reset at the start |
| Engine.CommandBufferUsedOnlyAfterFenceReset | src/engine.cpp:221-308 | in any prefix a frame runs, the command buffer is used only after that slot's fence was waited and reset |
| Engine.OutOfDateFailsFrame | src/engine.cpp:231-320 | an out-of-date or suboptimal acquire or present never yields a rendered frame |
| Engine.FailedFrameBlocksSlotReuse | src/engine.cpp:218-308 | when the fence was waitable, the wait and reset succeeded, and any of acquire, command-buffer reset, begin, end or submit fails, the frame fails and the next use of that slot (two frames later) blocks forever |
| Engine.Run | src/engine.cpp:325-347 | no frame runs on a quit tick, and the loop goes on while ticks remain until a quit or a frame that does not render; every frame before the last rendered; the slots used start at the current index and step by one mod 2 |
| Engine.RunFollowsRenderFrame | src/engine.cpp:325-347 | each loop iteration is one `render_frame` on the current state: the first frame waits on the current slot's fence and has the outcome `render_frame` gives there; a run that stops at its first frame ends in that frame's state, and a run with no frame leaves the engine unchanged |
| Engine.RunStepOutcomes | src/engine.cpp:325-347 | after a rendered first frame, the run's outcomes and final state are that frame's followed by the run from the state it left |
| Engine.SlotsAlternate | src/engine.cpp:218-219 | frame k of a run uses slot (start + k) mod 2 |
| Engine.InitialIsGated | src/engine.cpp:175-181 | both fences start signaled, so the first wait on each slot returns at once |
| Engine.RenderedFrameKeepsGating | src/engine.cpp:216-323 | a rendered frame keeps the pool invariant: the next slot holds the fence of the frame two back |
| Engine.FramesWaitTwoBack | src/engine.cpp:216-347 | frame k of a run waits on the fence signaled by frame k-2's submission, or on the initially signaled fence |
| EngineRelease.ReleaseLayout | src/engine.cpp:188-214 | the release order: idle wait, then for each slot its semaphores, fence, command buffer and pool, then the views, the swapchain, the device, the surface, the messenger and the instance |
| EngineRelease.ReleaseIdleFirst | src/engine.cpp:188-214 | the device-idle wait comes first and only once |
| EngineRelease.ReleaseCoversOwned | src/engine.cpp:188-214 | every object the engine owns is destroyed |
| EngineRelease.ReleaseDistinct | src/engine.cpp:188-214 | no object is destroyed twice |
| EngineRelease.ReleaseEachOnce | src/engine.cpp:188-214 | each owned object is destroyed exactly once, and nothing else is destroyed |
| EngineRelease.ReleaseChildrenFirst | src/engine.cpp:188-214 | every object is destroyed before each object it depends on |
| EngineRelease.ReleaseIsCorrectTeardown | src/engine.cpp:188-214 | idle first, each owned object once, children before parents |
| Upload.DecodeEncodeWord | src/app.cpp:264-270 | a 32-bit word survives its little-endian byte encoding |
| Upload.EncodeDecodeWord | src/app.cpp:264-270 | four bytes survive decoding to a word and re-encoding |
| Upload.DecodeEncodeWords | src/app.cpp:264-270 | a word array survives encoding |
| Upload.DecodeEncodeVertex | src/app.cpp:264 | a vertex survives its 32-byte encoding |
| Upload.DecodeEncodeVertices | src/app.cpp:264 | the vertex array survives encoding |
| Upload.DecodeEncodeIndices | src/app.cpp:265-270 | the index array survives encoding |
| Upload.Memcpy | src/app.cpp:264-270 | the destination bytes in `[offset, offset + n)` become the source; every other byte is unchanged |
| Upload.CopyBuffer | src/app.cpp:272-297 | one copy region: destination bytes in the region come from the source at the region's offset; the rest are unchanged |
| Upload.WriteStaging | src/app.cpp:264-270 | whatever the staging buffer held, it ends up as the vertex bytes followed by the index bytes |
| Upload.UploadRoundTrip | src/app.cpp:264-297 | both copy regions fit; the vertex buffer then equals the vertex bytes and decodes to the vertices, and the index buffer likewise for the indices |
| Assets.UploadContents | src/app.cpp:264-297 | the two device buffers' contents decode to the input vertices and indices |
| Assets.FinishMesh | src/app.cpp:308-317 | success path: two fresh device buffers stay live and the staging buffer is freed; the index count is truncated to 32 bits; the buffers decode to the input |
| Assets.CreateMesh | src/app.cpp:220-318 | success exactly when all four calls succeed. Every failure path frees every buffer created before it. The staging, vertex and index requests are made in order, up to the first failing one, with sizes vsize + isize, vsize and isize |
| Assets.DestroyMesh | src/app.cpp:320-324 | exactly the mesh's two buffers leave the live set |
| Assets.CreateThenDestroyMesh | src/app.cpp:220-324 | creation followed by destruction restores the live set on every outcome |
| Assets.CreateMaterialFromFile | src/app.cpp:326-370 | success exactly when the image loads and the descriptor set is allocated. A failed set allocation destroys the image just loaded. On success the material holds the new image and view and the returned set, and the write points binding 0 at the sampler and view in the read-only layout |
| Assets.DestroyMaterial | src/app.cpp:372-375 | exactly the material's image and view leave the live set |
| Assets.DestroyMeshes | src/app.cpp:519-522 | every mesh's buffers leave the live set |
| Assets.DestroyMaterials | src/app.cpp:524-527 | every material's image and view leave the live set |
| Assets.DestroyScene | src/app.cpp:517-532 | the scene's resources leave the live set and the scene is left empty |
| Assets.DestroySceneTwice | src/app.cpp:517-532 | a second `destroy_scene` frees nothing and changes nothing |
| SceneLoader.MaterialPathsAt | src/app.cpp:397-441 | material k is loaded from the white fallback when it has no diffuse texture, otherwise from its diffuse texture name under the sponza directory |
| SceneLoader.FlattenFaces | src/app.cpp:473-480 | the index list is the in-order concatenation of the faces' index lists |
| SceneLoader.FlattenLength | src/app.cpp:473-480 | the index list's length is the total number of face indices |
| SceneLoader.FlattenPosition | src/app.cpp:473-480 | index j of face k lands at the total length of the faces before k, plus j |
| SceneLoader.StackOrderAppend | src/app.cpp:493-502 | nodes pushed onto the stack are visited before everything already on it |
| SceneLoader.PopOrder | src/app.cpp:496-509 | popping a node and pushing its children emits that node's own references first |
| SceneLoader.OrderCoversTree | src/app.cpp:493-510 | the stack order visits every mesh reference of the tree exactly once (multiset equality) |
| SceneLoader.Traverse | src/app.cpp:493-510 | the loop appends one object per mesh reference, in stack order; as many objects as the tree has references |
| SceneLoader.AddMaterial | src/app.cpp:397-443 | one material: appended on success; on failure the whole scene is destroyed and only the allocations from before the load stay live |
| SceneLoader.MaterialsOkAll | src/app.cpp:397-444 | the loop's success predicate holds exactly when every material's calls succeed |
| SceneLoader.MaterialStep | src/app.cpp:397-443 | material k extends the scene by one material holding the k-th descriptor set, or destroys the scene |
| SceneLoader.LoadMaterials | src/app.cpp:397-444 | success exactly when every material's calls succeed; the scene gains one material per imported material, holding the sets in order; failure stops at the first failing material with the scene destroyed; the texture files tried are listed in order |
| SceneLoader.AddMesh | src/app.cpp:446-491 | one mesh: appended with its material index and truncated index count, or the scene destroyed |
| SceneLoader.MeshesOkAll | src/app.cpp:446-491 | the loop's success predicate holds exactly when every mesh's calls succeed |
| SceneLoader.LoadMeshes | src/app.cpp:446-491 | success exactly when every mesh's calls succeed; one mesh per imported mesh, matching material index and index count; failure leaves the scene destroyed |
| SceneLoader.CreateSceneFromFile | src/app.cpp:377-515 | without a file or root node, returns false and touches nothing. True exactly when every material and mesh succeeds. Success appends the materials, meshes and traversal objects. Any other failure leaves the scene empty. Destroying the result always restores the live set from before, minus the original scene's resources |
| ForwardPass.ColorTargetRequest | src/forward_pass.cpp:13-27 | the colour target is R16G16B16A16 with the swapchain's width and height, depth 1, the colour aspect and colour-attachment usage |
| ForwardPass.DepthTargetRequest | src/forward_pass.cpp:35-48 | the depth target is D32 with the swapchain's width and height, depth 1, the depth aspect and depth-stencil usage only |
| ForwardPass.Init | src/forward_pass.cpp:9-237 | the closures of the objects created before the first failure are queued in creation order, and nothing else. True exactly when all seven creations succeed. A failure at the first image leaves the queue empty. The depth target is requested only after the colour target exists |
| ForwardPass.CreateAll | src/forward_pass.cpp:16-231 | the seven creations in order, stopping at the first failure, each success queuing its closure |
| ForwardPass.Register | src/forward_pass.cpp:16-32 | one creation appends one closure holding exactly the new handles; earlier closures are unchanged |
| ForwardPass.Destroy | src/forward_pass.hpp:35-38 | the destructor runs the closures newest first, empties the queue, and frees exactly the handles the closures own |
| ForwardPass.InitThenDestroy | src/forward_pass.cpp:9-237 | zero net allocations: after any outcome of `init`, destruction restores the live set |
| ForwardPass.DestroyAfterInitOrder | src/forward_pass.cpp:32-231 | after a full `init`, teardown runs the seven closures in reverse: the pipeline first, the render target last |
| ForwardPass.DestroyAfterFailedInit | src/forward_pass.cpp:16-231 | after a failed `init`, teardown destroys exactly the objects created before the failure, newest first |
| ForwardPass.Render | src/forward_pass.cpp:239-353 | the trace is seven prologue commands, four per object, and the end of rendering; `Render(p, s, AsWritten)` is the trace the program records, `Render(p, s, Corrected)` the same trace with the corrected aspect rule |
| ForwardPass.DrawsLayout | src/forward_pass.cpp:322-350 | command 4i+m of the draw loop is command m of object i's group |
| ForwardPass.RenderObjectGroup | src/forward_pass.cpp:322-350 | object i is drawn with its mesh's material's set, its mesh's vertex address, its mesh's index buffer, and its mesh's index count |
| ForwardPass.DrawsCounts | src/forward_pass.cpp:322-350 | the draw loop issues one indexed draw per object, in object order |
| ForwardPass.RenderDrawsEachObject | src/forward_pass.cpp:322-350 | the whole trace holds exactly one indexed draw per scene object, in object order, each with the index count of the object's mesh |
| ForwardPass.RenderBracketsDraws | src/forward_pass.cpp:241-352 | the colour target goes UNDEFINED to GENERAL, the depth target goes to DEPTH_ATTACHMENT_OPTIMAL (with the colour aspect as the program records it, the depth aspect under the corrected rule), and the colour target is cleared, all before the single begin-rendering. Render area and scissor cover the full target from (0, 0). A single end-rendering closes the trace, and every draw lies between the two |
| ForwardPass.RenderDepthBarrierAsWritten | src/forward_pass.cpp:247-252 | the program's depth barrier names the colour aspect of the D32 depth target, the corrected rule names the depth aspect, and that barrier is the only command in which the two traces differ |
| ForwardPass.InitThenRender | src/forward_pass.cpp:273-298 | a pass that `init` completed renders into the targets it created, which are live and fresh, over the swapchain's extent |
| App.Run | src/app.cpp:76-128 | `render_frame` is called exactly on the ticks that are not quits or failed refreshes and find rendering enabled. Only the last tick consumed can end the loop. A quit, a failed refresh on resize, or a failed frame each end it |
| App.FlagIsLastToggle | src/app.cpp:103-110 | the disable flag is set exactly when the last minimize/restore event was a minimize, or there was none and it started set |
| App.NoRenderWhileMinimized | src/app.cpp:103-119 | after a minimize, no tick calls `render_frame` until a restore |
| App.EnabledWithoutMinimize | src/app.hpp:25 | rendering starts enabled: without a minimize, every tick that is not a quit or failed refresh calls `render_frame` |
| App.Init | src/app.cpp:20-74 | true exactly when the engine, the forward pass, the UI pass, the sampler and the scene load all succeed. Every allocation is owned by something teardown reaches. On success the queue holds the sampler's closure and then the scene's. A failed init leaves the scene empty |
| App.InitSamplerAndScene | src/app.cpp:45-70 | the sampler's closure is queued when it is created. A failed load destroys what the loader left and queues nothing. A successful load queues the scene's closure after the sampler's |
| App.RunAppActions | src/app.hpp:57-61 | the application queue's closures free the sampler and, when queued, the scene's resources, leaving the scene empty |
| App.Teardown | src/app.hpp:57-61 | teardown starts with the device-idle wait and ends by dropping the empty application queue; the scene is emptied when the scene's closure was queued and left as it was otherwise |
| App.TeardownShape | src/app.hpp:15-61 | the device goes idle, the application queue runs newest first, the UI pass flushes, the forward pass queue runs newest first, the engine is destroyed, the empty application queue is dropped |
| App.TeardownOrder | src/app.cpp:58-69 | after a successful init, the scene is destroyed before the sampler, and the forward pass releases its pipeline first and its render target last |
| App.TeardownFreesEverything | src/app.hpp:57-61 | zero net allocations over the application's life: after init, whatever its outcome, teardown frees every allocation it made |
| App.AppClosuresFree | src/app.cpp:58-69 | after init, whatever its outcome, the application queue's closures free exactly the sampler and the scene's resources |
| App.TeardownEmptiesScene | src/app.cpp:58-69 | after init, whatever its outcome, teardown leaves the scene empty: either the scene's closure ran or the scene was never filled |

## Left out

- Native call bodies (Vulkan, VMA, SDL, vk-bootstrap, Assimp): each is an abstract handle plus a success flag or result code passed in as a parameter.
- `refresh_swapchain`, `start_frame`, `finish_frame`, `create_buffer`, `create_image`, `create_image_from_file` and `immediate_submit` are not part of this model. They are called from app.cpp and forward_pass.cpp but not defined in engine.cpp (engine.hpp only declares `immediate_submit`). Each is an outcome parameter, assumed to allocate nothing when it fails. `destroy_buffer` and `destroy_image` are not defined either, and engine.hpp declares neither; the model takes `destroy_buffer` to free exactly the buffer and `destroy_image` to be `GPUImage::release` (view, then image). Every zero-net-allocation result (`Assets.CreateThenDestroyMesh`, `Assets.DestroyScene`, `SceneLoader.CreateSceneFromFile`, `ForwardPass.InitThenDestroy`, `App.TeardownFreesEverything`) rests on these two assumptions.
- `App::render_frame` (the blit, its transitions and the UI pass's recording): it only calls the operations named above, whose bodies are not part of this model.
- `Engine::init`'s library bootstrap is only a chain of short-circuiting steps. Device selection, queue lookup and swapchain parameters are not modelled.
- The body of `~Engine` is not part of this model. In the application teardown the engine's destruction is one opaque event.
- The UI pass (imgui_pass.cpp, `build_ui`): only its queue flush appears, as one teardown event.
- Floating point: camera matrices, the viewport's height flip, clear colours, frame-time deltas. Vertex attributes are carried as 32-bit patterns and never interpreted.
- Shader file reading and the pipeline state fields of `ForwardPass::init`: file I/O and constant configuration. Creating each object is one fallible step.
- The debug-message callback, logging and `main`.
- Concurrency between CPU and GPU. A fence is signaled, unsignaled, or pending on a numbered frame.
- 64-bit `VkDeviceSize` and `size_t` overflow: sizes are unbounded integers. The 32-bit `index_count` truncation is modelled.
- Engine.Run: models a finite number of loop iterations, not the unbounded loop.
- App.Run: models a finite input of loop iterations, not the unbounded loop. The 100 ms delay and the UI event forwarding are omitted.
- SceneLoader.AddMesh, SceneLoader.LoadMeshes, SceneLoader.CreateSceneFromFile, App.Init and App.InitSamplerAndScene require every imported mesh to carry normals and a first texture-coordinate set as long as its positions. The importer flags (src/app.cpp:381-384) guarantee neither, and the vertex loop (src/app.cpp:461-468) reads both arrays unconditionally, so a mesh without them is a null dereference in the program; the model does not describe that crash.
- Duplicate definitions: the `DeletionQueue`, `Vertex` and `Mesh` in engine.hpp are not modelled separately. The deletion queue copy has the same body as deletion_queue.hpp, and the scene.hpp and gpu.hpp records are the ones app.cpp uses.

## Findings

| source | as written | input that shows it | evidently intended | confidence | as-written member | corrected member |
|---|---|---|---|---|---|---|
| src/engine.cpp:395-397 | the barrier's aspect is depth only when the old layout is DEPTH_ATTACHMENT_OPTIMAL | `ForwardPass::render` moves the D32 depth target from UNDEFINED to DEPTH_ATTACHMENT_OPTIMAL (src/forward_pass.cpp:247-252); the barrier names the colour aspect of a depth-only image | depth aspect whenever either layout is DEPTH_ATTACHMENT_OPTIMAL | medium; not executed | Commands.DepthTransitionAsWrittenNamesColor | Commands.TransitionImage |
