# Application framework of the "code structuring" three.js demo, in Dafny

This project models the small application framework of
`26-code-structuring-for-bigger-projects/src/Experience/` and the hover and
click logic of the raycaster demo, and proves properties of the model.

- **EventEmitter** (`event_emitter.dfy`): channels of handlers keyed by event
  name. `on` appends, `off` empties a channel, `trigger` runs the handlers in
  registration order. Its own source file is not part of this model, so it is
  modelled only as far as its call sites use it.
- **Resources** (`resources.dfy`): the asset loader and its completion
  barrier. `startLoading` dispatches one load per source whose `type` has a
  loader. Each success callback stores its file under the source's name and
  counts it. 'ready' fires on the callback that makes `loaded` equal `toLoad`.
  Callbacks arrive as a trace of `Completion` events in any order.
- **Time** (`time.dfy`): the frame clock over integer-millisecond readings of
  `Date.now()`, which are inputs.
- **Sizes** (`sizes.dfy`): the viewport watcher. The pixel ratio is clamped to 2,
  and every window notification triggers 'resize'.
- **SceneGraph** (`scene_graph.dfy`): the scene tree and the depth-first
  disposal walk of `destroy()`. Disposals are recorded as a call log and
  compared as multisets.
- **World** (`world.dfy`): content is built on 'ready' in the order floor,
  fox, environment. `update` reaches the fox only once it exists.
- **Experience** (`experience.dfy`): the singleton composition root. It wires
  the handlers, steps through browser callbacks (resize, animation frame,
  load success) and runs `destroy()`.
- **Raycaster** (`raycaster.dfy`): per-frame recolouring, the
  `currentIntersect` transitions with their "entered" and "left" log lines,
  and click dispatch by object identity.
- `effects.dfy` records the calls the framework makes into collaborators
  this model leaves opaque: camera, renderer, floor, fox, environment,
  controls, debug UI and three.js `dispose`. `options.dfy` holds `Option`,
  which stands for `null`.

Where the code behaves differently from what its names or comments
suggest, the model follows the code:

- With an empty source list, `toLoad` is 0, so everything counts as loaded
  from the start. But 'ready' is only triggered from a load callback, and an
  empty list dispatches no load. So 'ready' never fires and the world is never
  built (`Resources.EmptyNeverReady`; `Experience.RunKeepsLive` keeps the
  fox absent while `toLoad` is 0).
- The comment at `Time.js` line 13 presents 16 as a guard against a zero
  first delta, but the first tick overwrites it with `now - start`, which can
  be 0 (`Time.FirstDeltaCanBeZero`).
- `destroy()` does not deduplicate: a geometry shared by k meshes is disposed
  k times (`SceneGraph.DisposeMatchesTree`,
  `SceneGraph.SharedGeometryDisposedTwice`).
- The only guard against a second 'ready' is the equality
  `loaded === toLoad`. Since `loaded` only grows, 'ready' still fires at most
  once.
- A duplicate source name overwrites the stored item and still counts.

## Model

| member | source | states |
|---|---|---|
| EventEmitter.New | 26-code-structuring-for-bigger-projects/src/Experience/Utils/Resources.js:9 | a freshly constructed emitter invokes no handler for any event name |
| EventEmitter.On | 26-code-structuring-for-bigger-projects/src/Experience/Experience.js:39-46 | `on(name, h)` runs `h` after every handler already registered for `name`; other names are unaffected |
| EventEmitter.Off | 26-code-structuring-for-bigger-projects/src/Experience/Experience.js:60-61 | `off(name)` leaves no handler for `name`; other names keep their handlers |
| EventEmitter.Trigger | 26-code-structuring-for-bigger-projects/src/Experience/Utils/Resources.js:64 | `trigger(name)` invokes the handlers registered for `name`, in order, and none for an unregistered name; `New`, `On` and `Off` pin down what it sees after each operation |
| Resources.LoaderFor | 26-code-structuring-for-bigger-projects/src/Experience/Utils/Resources.js:31-56 | `gltfModel` is loaded by the GLTF loader, `texture` by the texture loader and `cubeTexture` by the cube-texture loader; every other type has no loader, since the switch has no default |
| Resources.RequestsFrom | 26-code-structuring-for-bigger-projects/src/Experience/Utils/Resources.js:29-58 | the loads dispatched for a suffix of the list are in list order, one per source with a known type, each with that source's loader and path |
| Resources.StartLoading | 26-code-structuring-for-bigger-projects/src/Experience/Utils/Resources.js:29-58 | `startLoading` makes at most one load per source, in list order, with the source's loader and path, and makes one for every source whose type has a loader |
| Resources.DispatchedFrom | 26-code-structuring-for-bigger-projects/src/Experience/Utils/Resources.js:30-56 | the sources with a dispatched load are exactly those with a known type; one unknown type makes them fewer than the sources |
| Resources.Init | 26-code-structuring-for-bigger-projects/src/Experience/Utils/Resources.js:14-16 | the constructor starts with no stored item, `loaded = 0` and `toLoad` equal to the list length, duplicates and unknown types included; `ReadyFiresOnce` runs callbacks from this state |
| Resources.SourceLoaded | 26-code-structuring-for-bigger-projects/src/Experience/Utils/Resources.js:59-65 | a callback stores the file under the source's name, adds exactly one to `loaded`, keeps `toLoad`, and triggers 'ready' exactly when `loaded` reaches `toLoad` |
| Resources.Run | 26-code-structuring-for-bigger-projects/src/Experience/Utils/Resources.js:59-64 | a trace of n callbacks raises `loaded` by exactly n, keeps `toLoad`, and yields one ready flag per callback |
| Resources.RunCounts | 26-code-structuring-for-bigger-projects/src/Experience/Utils/Resources.js:62-64 | the k-th callback of a trace triggers 'ready' exactly when it makes `loaded` equal `toLoad` |
| Resources.ReadyFiresOnce | 26-code-structuring-for-bigger-projects/src/Experience/Utils/Resources.js:15-64 | from the constructor's state, `toLoad` is the list length and `loaded` the number of callbacks; 'ready' fires only on callback number `sources.length`, so at most once and never while fewer callbacks have arrived |
| Resources.ValidTraceBound | 26-code-structuring-for-bigger-projects/src/Experience/Utils/Resources.js:29-58 | a trace of callbacks from dispatched loads, each calling back at most once, is no longer than the number of dispatched loads |
| Resources.ReadyIffAllLoaded | 26-code-structuring-for-bigger-projects/src/Experience/Utils/Resources.js:29-64 | over such a trace 'ready' fires if and only if the list is non-empty, every source has a known type and every load called back |
| Resources.EmptyNeverReady | 26-code-structuring-for-bigger-projects/src/Experience/Utils/Resources.js:15-30 | an empty source list dispatches nothing, so no callback runs and 'ready' is never triggered |
| Resources.UnknownKindNeverReady | 26-code-structuring-for-bigger-projects/src/Experience/Utils/Resources.js:31-56 | a source with an unknown type gets no load, and then 'ready' never fires for the batch |
| Resources.RunItems | 26-code-structuring-for-bigger-projects/src/Experience/Utils/Resources.js:59-62 | the keys of `items` are the earlier keys plus the names of the sources whose callbacks ran; each such name holds the file of its last callback; other entries are unchanged |
| Resources.DuplicatesStillCount | 26-code-structuring-for-bigger-projects/src/Experience/Utils/Resources.js:61-62 | the number of stored items never exceeds `loaded`, and equals it exactly when the callbacks' source names are pairwise distinct |
| Time.Init | 26-code-structuring-for-bigger-projects/src/Experience/Utils/Time.js:10-14 | the constructor starts with `current = start` = the reading, `elapsed` consistent with them (0), and `delta = 16` |
| Time.Tick | 26-code-structuring-for-bigger-projects/src/Experience/Utils/Time.js:21-27 | a tick moves `current` to the reading, keeps `start`, keeps `elapsed = current - start`, grows `elapsed` by exactly the new delta, and triggers 'tick' once |
| Time.Ticks | 26-code-structuring-for-bigger-projects/src/Experience/Utils/Time.js:21-25 | after each tick of a run, `delta` is the reading minus the previous reading (the first one minus the old `current`) and `elapsed` is the reading minus `start` |
| Time.ElapsedIsSumOfDeltas | 26-code-structuring-for-bigger-projects/src/Experience/Utils/Time.js:21-25 | after n >= 1 ticks, `elapsed` has grown by exactly the sum of the n computed deltas |
| Time.ElapsedFromStart | 26-code-structuring-for-bigger-projects/src/Experience/Utils/Time.js:10-25 | from the constructor's state, `elapsed` after n >= 1 ticks equals the sum of the n computed deltas, because the first delta is measured from `start` |
| Time.MonotoneClock | 26-code-structuring-for-bigger-projects/src/Experience/Utils/Time.js:22-25 | with non-decreasing readings, every computed delta is >= 0 and `elapsed` never decreases |
| Time.FirstDeltaCanBeZero | 26-code-structuring-for-bigger-projects/src/Experience/Utils/Time.js:10-23 | delta is 16 before the first tick, but a first tick in the same millisecond as construction sets it to 0 |
| Sizes.ClampPixelRatio | 26-code-structuring-for-bigger-projects/src/Experience/Utils/Sizes.js:10 | `Math.min(devicePixelRatio, 2)` is at most 2 and at most the device ratio, and is one of the two |
| Sizes.Read | 26-code-structuring-for-bigger-projects/src/Experience/Utils/Sizes.js:8-10 | width and height are the window's; the pixel ratio is the device ratio when that is <= 2, and 2 otherwise |
| Sizes.OnResize | 26-code-structuring-for-bigger-projects/src/Experience/Utils/Sizes.js:13-20 | a notification stores the state read from the window, whatever the old state was, and then triggers 'resize' once |
| Sizes.Notify | 26-code-structuring-for-bigger-projects/src/Experience/Utils/Sizes.js:13-20 | a run of notifications triggers one event per notification and leaves the state alone when there is none; `EveryNotificationTriggers` pins the events and the final state |
| Sizes.EveryNotificationTriggers | 26-code-structuring-for-bigger-projects/src/Experience/Utils/Sizes.js:13-20 | n notifications trigger 'resize' exactly n times, with no debounce; the state reflects the last notification with its ratio <= 2 |
| SceneGraph.MaterialDisposals | 26-code-structuring-for-bigger-projects/src/Experience/Experience.js:67-70 | exactly the material values that are truthy and have a `dispose` function are disposed, one disposal per such key |
| SceneGraph.NodeDisposals | 26-code-structuring-for-bigger-projects/src/Experience/Experience.js:64-71 | a non-Mesh node is left untouched; a Mesh first disposes its geometry, then its disposable material values |
| SceneGraph.Dispose | 26-code-structuring-for-bigger-projects/src/Experience/Experience.js:63-72 | `scene.traverse` visits a node before its children, so a mesh's geometry is the first thing disposed for its subtree; only geometries and material values are disposed; `DisposeMatchesTree` pins the multisets |
| SceneGraph.DisposeAll | 26-code-structuring-for-bigger-projects/src/Experience/Experience.js:63-72 | the children's subtrees, walked in order, dispose only geometries and material values, and an empty child list disposes nothing |
| SceneGraph.MaterialDisposalsMatch | 26-code-structuring-for-bigger-projects/src/Experience/Experience.js:67-70 | a material's loop disposes no geometry, and its disposed values are, as a multiset, its disposable values |
| SceneGraph.DisposeMatchesTree | 26-code-structuring-for-bigger-projects/src/Experience/Experience.js:63-72 | the walk disposes only geometries and material values; as multisets, one geometry per mesh in the tree (shared ones once per mesh) and one value per disposable material key |
| SceneGraph.DisposeAllMatchesTrees | 26-code-structuring-for-bigger-projects/src/Experience/Experience.js:63-72 | the same correspondence for the subtrees of a node's children, walked in order |
| SceneGraph.SharedGeometryDisposedTwice | 26-code-structuring-for-bigger-projects/src/Experience/Experience.js:63-65 | two meshes sharing one geometry get that geometry disposed twice |
| World.Init | 26-code-structuring-for-bigger-projects/src/Experience/World/World.js:7-19 | the world keeps the Experience it was given, has built nothing yet, and adds exactly one 'ready' handler to the resources' emitter |
| World.OnReady | 26-code-structuring-for-bigger-projects/src/Experience/World/World.js:13-18 | on 'ready', floor, fox and environment are created in that order, and their objects are added to the scene in that order |
| World.Update | 26-code-structuring-for-bigger-projects/src/Experience/World/World.js:21-23 | `update()` does nothing before the fox exists, and calls `fox.update` exactly once after |
| Experience.Construct | 26-code-structuring-for-bigger-projects/src/Experience/Experience.js:11-47 | with `instance` set, construction returns it and changes nothing; otherwise the new object becomes `instance`, and the world holds that same object through its nested construction; setup reads the sizes from the window and starts the clock at the reading; it starts with an empty scene, the given sources and an empty registry with `toLoad` equal to the list length; it makes the loads of `startLoading`; it wires one 'resize', one 'tick' and one 'ready' handler; debug is active exactly for the hash `#debug` |
| Experience.Resize | 26-code-structuring-for-bigger-projects/src/Experience/Experience.js:50-53 | `resize()` calls `camera.resize`, then `renderer.resize`; `ResizePropagatesOnce` shows a window resize reaches it exactly once |
| Experience.Update | 26-code-structuring-for-bigger-projects/src/Experience/Experience.js:54-58 | `update()` calls `camera.update` first and `renderer.update` last, and `fox.update` between them exactly when the fox exists; `FramePropagatesOnce` shows a frame reaches it exactly once |
| Experience.Destroy | 26-code-structuring-for-bigger-projects/src/Experience/Experience.js:59-76 | `destroy()` assigns no field: afterwards there is no 'resize' and no 'tick' handler, every other handler is kept, and everything else is as before; it makes four calls plus the walk, plus one when debug is active, and destroys the debug UI exactly when debug is active; `DestroyOrder` pins the order |
| Experience.RunHandler | 26-code-structuring-for-bigger-projects/src/Experience/Experience.js:39-46 | the 'resize' and 'tick' closures change no state; World's 'ready' closure (World/World.js:13-18) sets floor, fox and environment and appends their objects to the scene in that order; no handler changes anything but the world and the scene |
| Experience.RunHandlers | 26-code-structuring-for-bigger-projects/src/Experience/Utils/Resources.js:64 | a trigger's handlers change nothing but the world and the scene |
| Experience.Emit | 26-code-structuring-for-bigger-projects/src/Experience/Utils/Sizes.js:19 | triggering events changes nothing but the world and the scene |
| Experience.Step | 26-code-structuring-for-bigger-projects/src/Experience/Experience.js:37-46 | no browser callback changes the object's identity, its sources, its content, its dispatched loads, whether debug is active, or any emitter's handlers |
| Experience.Run | 26-code-structuring-for-bigger-projects/src/Experience/Experience.js:37-46 | a trace of callbacks keeps the source list, the dispatched loads and whether debug is active |
| Experience.RepeatedConstruction | 26-code-structuring-for-bigger-projects/src/Experience/Experience.js:14-17 | a second construction returns the first object, runs no setup, and leaves it with exactly one 'resize' and one 'tick' handler |
| Experience.ResizePropagatesOnce | 26-code-structuring-for-bigger-projects/src/Experience/Experience.js:39-53 | a window resize updates the sizes, then runs `resize()` once: `camera.resize`, then `renderer.resize` |
| Experience.FramePropagatesOnce | 26-code-structuring-for-bigger-projects/src/Experience/Experience.js:44-58 | a frame updates the clock, then runs `update()` once: `camera.update`, then `fox.update` only if the fox exists, then `renderer.update` |
| Experience.LoadBuildsWorldOnReady | 26-code-structuring-for-bigger-projects/src/Experience/World/World.js:13-18 | a load callback changes only the registry, the world and the scene; it stores its file under `sources[i].name` and counts it (Utils/Resources.js:61-62); when it makes `loaded` reach `toLoad` it creates floor, fox and environment and appends their objects to the scene in that order; otherwise it leaves the world and the scene alone |
| Experience.ReadyContentIsDisposed | 26-code-structuring-for-bigger-projects/src/Experience/World/World.js:13-18 | after the completing callback, the scene holds, on top of what it held, one geometry per mesh and one value per disposable key of the floor, fox and environment content: what the `destroy()` walk of `DestroyOrder` disposes |
| Experience.StepKeepsLive | 26-code-structuring-for-bigger-projects/src/Experience/World/World.js:13-23 | every callback keeps the instance wired, keeps its clock's `elapsed` equal to `current - start`, keeps its pixel ratio at most 2, and keeps its world gated: the content exists exactly when `0 < toLoad <= loaded` |
| Experience.RunKeepsLive | 26-code-structuring-for-bigger-projects/src/Experience/World/World.js:12-23 | along any trace of callbacks, the fox exists, and `update()` reaches it, exactly after the callback that completes the batch |
| Experience.EveryResizePropagates | 26-code-structuring-for-bigger-projects/src/Experience/Utils/Sizes.js:13-20 | n resize notifications give exactly n propagations, each `camera.resize` then `renderer.resize` |
| Experience.DestroyOrder | 26-code-structuring-for-bigger-projects/src/Experience/Experience.js:59-76 | `destroy()` removes 'resize' and 'tick' before any disposal; the walk disposes one geometry per mesh and each disposable material value; then controls and renderer are disposed; the debug UI is destroyed if and only if debug is active |
| Experience.NothingPropagatesAfterDestroy | 26-code-structuring-for-bigger-projects/src/Experience/Experience.js:59-61 | after `destroy()` neither a resize nor a frame reaches camera, world or renderer |
| Experience.DebugUiSurvivesRun | 26-code-structuring-for-bigger-projects/src/Experience/Experience.js:75 | whatever callbacks arrive in between, `destroy()` tears down a debug UI exactly when debug was active at the start |
| Experience.DebugUiFollowsHash | 26-code-structuring-for-bigger-projects/src/Experience/Utils/Debug.js:6-9 | over a whole session from construction to `destroy()`, the debug UI is destroyed exactly when the URL hash at construction was `#debug` |
| Raycaster.Hover | 20-raycaster/src/script.js:165-177 | `currentIntersect` becomes the first intersection if there is one, and null otherwise; "entered" is logged only on null to non-null, "left" only on non-null to null, at most one line per frame |
| Raycaster.Recolour | 20-raycaster/src/script.js:157-163 | every intersected object becomes blue; every tested object not intersected becomes red; other colours are unchanged |
| Raycaster.Frame | 20-raycaster/src/script.js:153-177 | after a frame every tested sphere is blue if intersected and red otherwise, and the hover state moves as `Hover` says |
| Raycaster.Click | 20-raycaster/src/script.js:83-99 | a click logs nothing when nothing is hovered; otherwise it logs exactly one line, chosen by the hovered object's identity, with "Banana" for any other object |
| Raycaster.HoverRun | 20-raycaster/src/script.js:165-177 | over a run of frames, at most one hover line per frame; the final `currentIntersect` is null when the last frame hit nothing and that frame's first intersection otherwise, whatever came before |
| Raycaster.ClickAfterFrame | 20-raycaster/src/script.js:83-99 | a click right after a frame logs nothing exactly when that frame hit nothing; otherwise it logs the line for the frame's first intersected object, "Banana" exactly for a non-sphere |
| Raycaster.ClickAfterRun | 20-raycaster/src/script.js:83-177 | after any non-empty run of frames a click logs what a click right after the last frame alone would log |
| Raycaster.EnterLeaveAlternate | 20-raycaster/src/script.js:165-177 | over any run of frames, "entered" and "left" alternate, starting with "entered" when nothing was hovered; the run ends with something hovered exactly when the number of lines is even if it started hovered and odd if it did not |

## Left out

- `Utils/EventEmitter.js` is not part of this model. Only `on`, `off(name)` and `trigger(name)` are modelled, as their call sites use them. Handler arguments, re-entrant triggers and per-handler removal are not modelled.
- Time.Tick: the `requestAnimationFrame` re-arming is not stated as a contract. Each `AnimationFrame` event of a trace stands for the callback the previous tick requested. Frames that stop arriving are simply a trace that ends.
- `Date.now()`, `window.innerWidth`, `window.innerHeight`, `window.devicePixelRatio` and `window.location.hash` are parameters. They are read once at each point where the source reads them. A clock that goes backwards is allowed; `Time.MonotoneClock` requires that it does not.
- Sizes.ClampPixelRatio: the device pixel ratio is a mathematical real. NaN and floating-point rounding are not modelled.
- Load failures: the source passes no error callback, so a failed load is just a load that never calls back. The model has that too: a trace may omit any dispatched load.
- The loaders, files, `THREE.Scene`, Camera, Renderer, Floor, Fox and Environment are opaque. They appear only as recorded calls, or as the objects they add to the scene (`World.Content`). The `sources` list is a parameter.
- `Environment.js` and `Debug.js`: the scene and GUI setup are not modelled. The nested `new Experience()` in Environment is not modelled either. Only `Debug.active` (the hash check) is used.
- `window.experience`, the canvas, and `this.experience = this` have no behaviour to state.
- Object identity is a number. A nested construction yields the singleton's number only. Its partially built state is not returned, because World reads only `scene` and `resources` from it, and the model passes the resources' emitter directly.
- `for...in` over a material is modelled as the material's given list of keys in enumeration order. Inherited enumerable properties are whatever that list contains.
- Calling `destroy()` twice is not treated specially: the model runs the same walk again.
- Raycaster: the raycast itself, mouse coordinates, the sine motion of the spheres, the resize listener, and the per-frame `controls.update` and `renderer.render` are not modelled. The intersection list of each frame is an input.
- Asynchrony as such: everything is a single-threaded trace of callbacks. No callback can run during construction.
