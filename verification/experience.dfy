/**
 * `Experience.js`: the composition root.  A module-level `instance` makes
 * the class a singleton; it is set before setup, so the `new Experience()`
 * that World runs during setup gets the same, partially built object back.
 * The constructor wires one 'resize' handler and one 'tick' handler;
 * `destroy()` removes them and then disposes what the scene holds.
 *
 * Object identity is a number; the instance's state is the `App` value the
 * first construction builds.  The host's readings (window, clock, URL hash)
 * and what the modules outside this model supply (`sources`, the content
 * Floor, Fox and Environment add) are parameters.
 */
module Experience {
  import opened Options
  import opened Effects
  import EventEmitter
  import Sizes
  import Time
  import Resources
  import SceneGraph
  import World

  /** A loaded file, opaque to the framework. */
  type Asset = nat

  /** What setup reads from the browser and from modules outside this model. */
  datatype Host = Host(
    window: Sizes.Window,
    now: int,
    hash: string,
    sources: seq<Resources.Source>,
    content: World.Content)

  /** The fields of a constructed Experience. */
  datatype App = App(
    id: nat,
    sizes: Sizes.Viewport,
    sizesEvents: EventEmitter.Emitter<Handler>,
    time: Time.Clock,
    timeEvents: EventEmitter.Emitter<Handler>,
    scene: SceneGraph.Object3D,
    sources: seq<Resources.Source>,
    requests: seq<Resources.Request>,
    resources: Resources.Registry<Asset>,
    resourceEvents: EventEmitter.Emitter<Handler>,
    world: World.World,
    debugActive: bool,
    content: World.Content)

  /** The module-level `instance` variable: the singleton's identity, once set. */
  datatype Global = Global(instance: Option<nat>)

  /**
   * The outcome of `new Experience()`: the module state afterwards, the object
   * the expression yields, the state setup built (only when setup ran), and
   * the collaborator calls setup made.
   */
  datatype Construction = Construction(global: Global, result: nat, built: Option<App>, calls: seq<Call>)

  /** The emitters the application triggers events on. */
  datatype Channel = SizesChannel | TimeChannel | ResourcesChannel

  /** What the browser delivers after construction. */
  datatype HostEvent =
    | WindowResized(window: Sizes.Window)
    | AnimationFrame(now: int)
    | LoadSucceeded(index: nat, file: Asset)

  /** `Debug` is active when the URL hash is exactly this. */
  const DebugHash := "#debug"

  const EmptyScene := SceneGraph.Object3D(SceneGraph.NonMesh, [])

  /** Exactly the handlers the application registers, one per channel it uses. */
  predicate Wired(app: App)
  {
    && EventEmitter.Trigger(app.sizesEvents, Sizes.ResizeEvent) == [ResizeHandler]
    && EventEmitter.Trigger(app.timeEvents, Time.TickEvent) == [TickHandler]
    && EventEmitter.Trigger(app.resourceEvents, Resources.ReadyEvent) == [ReadyHandler]
  }

  /** The world's content exists exactly when every source has been loaded (and there was one). */
  predicate Gated(app: App)
  {
    var built := 0 < app.resources.toLoad <= app.resources.loaded;
    app.world.floor == built && app.world.fox == built && app.world.environment == built
  }

  /**
   * The state of a constructed, not yet destroyed instance: wired, gated, the
   * clock's `elapsed` measured from `start`, and the pixel ratio clamped.
   */
  predicate Live(app: App)
  {
    && Wired(app) && Gated(app) && app.resources.toLoad == |app.sources|
    && Time.Consistent(app.time) && app.sizes.pixelRatio <= Sizes.MaxPixelRatio
  }

  /**
   * `new Experience()`.  With `instance` set, the existing object is returned,
   * nothing is set up and nothing changes.  Otherwise the fresh object `self`
   * becomes `instance` before setup runs, so World's nested construction
   * returns `self` without setting anything up again.
   */
  function Construct(g: Global, self: nat, host: Host): (c: Construction)
    ensures g.instance.Some? ==> c == Construction(g, g.instance.value, None, [])
    ensures g.instance.None? ==>
      && c.global == Global(Some(self)) && c.result == self
      && c.built.Some? && c.built.value.id == self
      && c.built.value.world.experience == self
      && Live(c.built.value)
      && c.built.value.sizes == Sizes.Read(host.window)
      && c.built.value.time == Time.Init(host.now)
      && c.built.value.scene == EmptyScene
      && c.built.value.sources == host.sources && c.built.value.content == host.content
      && c.built.value.resources == Resources.Init(host.sources)
      && c.built.value.requests == Resources.StartLoading(host.sources)
      && (c.built.value.debugActive <==> host.hash == DebugHash)
      && c.calls == [CameraCreated, RendererCreated] + (if host.hash == DebugHash then [DebugUiCreated] else [])
    decreases if g.instance.None? then 1 else 0
  {
    if g.instance.Some? then Construction(g, g.instance.value, None, [])
    else
      var g1 := Global(Some(self));
      var sizes := Sizes.Read(host.window);
      var time := Time.Init(host.now);
      var resources := Resources.Init<Asset>(host.sources);
      var requests := Resources.StartLoading(host.sources);
      // World's constructor runs `new Experience()` on a fresh object of its own.
      var nested := Construct(g1, self + 1, host);
      var (world, resourceEvents) := World.Init(nested.result, EventEmitter.New());
      var debugActive := host.hash == DebugHash;
      var sizesEvents := EventEmitter.On(EventEmitter.New(), Sizes.ResizeEvent, ResizeHandler);
      var timeEvents := EventEmitter.On(EventEmitter.New(), Time.TickEvent, TickHandler);
      var app := App(self, sizes, sizesEvents, time, timeEvents, EmptyScene, host.sources, requests,
                     resources, resourceEvents, world, debugActive, host.content);
      Construction(nested.global, self, Some(app),
                   [CameraCreated, RendererCreated] + (if debugActive then [DebugUiCreated] else []))
  }

  /** `resize()`: the camera, then the renderer. */
  function Resize(app: App): (calls: seq<Call>)
    ensures calls == [CameraResize, RendererResize]
  {
    [CameraResize, RendererResize]
  }

  /** `update()`: the camera, then the world, then the renderer. */
  function Update(app: App): (calls: seq<Call>)
    ensures |calls| >= 2 && calls[0] == CameraUpdate && calls[|calls| - 1] == RendererUpdate
    ensures FoxUpdate in calls <==> app.world.fox
    ensures |calls| == if app.world.fox then 3 else 2
  {
    [CameraUpdate] + World.Update(app.world) + [RendererUpdate]
  }

  function EmitterOf(app: App, ch: Channel): EventEmitter.Emitter<Handler>
  {
    match ch
    case SizesChannel => app.sizesEvents
    case TimeChannel => app.timeEvents
    case ResourcesChannel => app.resourceEvents
  }

  /** Handlers change nothing but the world and the scene. */
  predicate OnlyContentChanged(before: App, after: App)
  {
    after == before.(world := after.world, scene := after.scene)
    && after.world.experience == before.world.experience
  }

  /**
   * One registered closure, run.  The 'resize' and 'tick' closures change no
   * state; World's 'ready' closure builds the content and appends its objects
   * to the scene, floor first, then fox, then environment.
   */
  function RunHandler(app: App, h: Handler): (r: (App, seq<Call>))
    ensures OnlyContentChanged(app, r.0)
    ensures !h.ReadyHandler? ==> r.0 == app
    ensures h.ReadyHandler? ==>
      && r.0.world.floor && r.0.world.fox && r.0.world.environment
      && r.0.scene.kind == app.scene.kind
      && r.0.scene.children == app.scene.children + app.content.floor + app.content.fox + app.content.environment
  {
    match h
    case ResizeHandler => (app, Resize(app))
    case TickHandler => (app, Update(app))
    case ReadyHandler =>
      var (world, scene, calls) := World.OnReady(app.world, app.scene, app.content);
      (app.(world := world, scene := scene), calls)
  }

  /** The handlers of one `trigger`, in order, each seeing the state the previous one left. */
  function RunHandlers(app: App, hs: seq<Handler>): (r: (App, seq<Call>))
    ensures OnlyContentChanged(app, r.0)
    decreases |hs|
  {
    if hs == [] then (app, [])
    else
      var (app1, calls1) := RunHandler(app, hs[0]);
      var (app2, calls2) := RunHandlers(app1, hs[1..]);
      (app2, calls1 + calls2)
  }

  /** `trigger(name)` on one channel for each name, in order. */
  function Emit(app: App, ch: Channel, names: seq<string>): (r: (App, seq<Call>))
    ensures OnlyContentChanged(app, r.0)
    decreases |names|
  {
    if names == [] then (app, [])
    else
      var (app1, calls1) := RunHandlers(app, EventEmitter.Trigger(EmitterOf(app, ch), names[0]));
      var (app2, calls2) := Emit(app1, ch, names[1..]);
      (app2, calls1 + calls2)
  }

  /** Triggering one name runs exactly that name's handlers. */
  lemma EmitOne(app: App, ch: Channel, name: string)
    ensures Emit(app, ch, [name]) == RunHandlers(app, EventEmitter.Trigger(EmitterOf(app, ch), name))
  {
    var (app1, calls1) := RunHandlers(app, EventEmitter.Trigger(EmitterOf(app, ch), name));
    assert [name][1..] == [];
    assert Emit(app1, ch, []) == (app1, []);
    assert calls1 + [] == calls1;
  }

  /** A channel with one handler runs that handler alone. */
  lemma RunOne(app: App, h: Handler)
    ensures RunHandlers(app, [h]) == RunHandler(app, h)
  {
    var (app1, calls1) := RunHandler(app, h);
    assert [h][1..] == [];
    assert RunHandlers(app1, []) == (app1, []);
    assert calls1 + [] == calls1;
  }

  /** A load callback can only name a source of the list. */
  predicate Deliverable(sources: seq<Resources.Source>, ev: HostEvent)
  {
    ev.LoadSucceeded? ==> ev.index < |sources|
  }

  /** One browser callback: the component's own update, then the events it triggers. */
  function Step(app: App, ev: HostEvent): (r: (App, seq<Call>))
    requires Deliverable(app.sources, ev)
    ensures r.0.id == app.id && r.0.sources == app.sources && r.0.content == app.content
    ensures r.0.sizesEvents == app.sizesEvents && r.0.timeEvents == app.timeEvents
    ensures r.0.resourceEvents == app.resourceEvents
    ensures r.0.debugActive == app.debugActive && r.0.requests == app.requests
  {
    match ev
    case WindowResized(w) =>
      var (sizes, events) := Sizes.OnResize(app.sizes, w);
      Emit(app.(sizes := sizes), SizesChannel, events)
    case AnimationFrame(now) =>
      var (time, events) := Time.Tick(app.time, now);
      Emit(app.(time := time), TimeChannel, events)
    case LoadSucceeded(i, file) =>
      var (resources, events) := Resources.SourceLoaded(app.resources, app.sources[i], file);
      Emit(app.(resources := resources), ResourcesChannel, events)
  }

  /** A trace of browser callbacks. */
  function Run(app: App, evs: seq<HostEvent>): (r: (App, seq<Call>))
    requires forall k :: 0 <= k < |evs| ==> Deliverable(app.sources, evs[k])
    ensures r.0.sources == app.sources
    ensures r.0.debugActive == app.debugActive && r.0.requests == app.requests
    decreases |evs|
  {
    if evs == [] then (app, [])
    else
      var (app1, calls1) := Step(app, evs[0]);
      var (app2, calls2) := Run(app1, evs[1..]);
      (app2, calls1 + calls2)
  }

  /**
   * `destroy()`: both listeners are removed first, then the scene walk
   * disposes, then the controls and the renderer, then the debug UI when
   * debug is active.
   */
  function Destroy(app: App): (r: (App, seq<Call>))
    ensures EventEmitter.Trigger(r.0.sizesEvents, Sizes.ResizeEvent) == []
    ensures EventEmitter.Trigger(r.0.timeEvents, Time.TickEvent) == []
    ensures forall name :: name != Sizes.ResizeEvent ==>
      EventEmitter.Trigger(r.0.sizesEvents, name) == EventEmitter.Trigger(app.sizesEvents, name)
    ensures forall name :: name != Time.TickEvent ==>
      EventEmitter.Trigger(r.0.timeEvents, name) == EventEmitter.Trigger(app.timeEvents, name)
    ensures r.0 == app.(sizesEvents := r.0.sizesEvents, timeEvents := r.0.timeEvents)
    ensures DebugUiDestroyed in r.1 <==> app.debugActive
    ensures |r.1| == 4 + |SceneGraph.Dispose(app.scene)| + (if app.debugActive then 1 else 0)
  {
    var sizesEvents := EventEmitter.Off(app.sizesEvents, Sizes.ResizeEvent);
    var timeEvents := EventEmitter.Off(app.timeEvents, Time.TickEvent);
    (app.(sizesEvents := sizesEvents, timeEvents := timeEvents),
     [ListenerRemoved(Sizes.ResizeEvent), ListenerRemoved(Time.TickEvent)]
     + SceneGraph.Dispose(app.scene)
     + [ControlsDisposed, RendererDisposed]
     + (if app.debugActive then [DebugUiDestroyed] else []))
  }

  /**
   * Constructing again, however often and with whatever host, yields the
   * first instance and changes nothing, so that instance keeps exactly one
   * 'resize' and one 'tick' handler.
   */
  lemma RepeatedConstruction(self1: nat, host1: Host, self2: nat, host2: Host)
    ensures var first := Construct(Global(None), self1, host1);
      var second := Construct(first.global, self2, host2);
      && second.result == first.result == self1
      && second.global == first.global
      && second.built == None && second.calls == []
      && EventEmitter.Trigger(first.built.value.sizesEvents, Sizes.ResizeEvent) == [ResizeHandler]
      && EventEmitter.Trigger(first.built.value.timeEvents, Time.TickEvent) == [TickHandler]
  {
  }

  /** A window resize on a wired instance propagates once: camera, then renderer. */
  lemma ResizePropagatesOnce(app: App, w: Sizes.Window)
    requires Wired(app)
    ensures Step(app, WindowResized(w)) == (app.(sizes := Sizes.Read(w)), [CameraResize, RendererResize])
  {
    var app1 := app.(sizes := Sizes.Read(w));
    EmitOne(app1, SizesChannel, Sizes.ResizeEvent);
    RunOne(app1, ResizeHandler);
  }

  /**
   * A frame on a wired instance updates the clock, then propagates once:
   * camera, the fox only when it exists, renderer.
   */
  lemma FramePropagatesOnce(app: App, now: int)
    requires Wired(app)
    ensures Step(app, AnimationFrame(now)) == (app.(time := Time.Tick(app.time, now).0),
      [CameraUpdate] + (if app.world.fox then [FoxUpdate] else []) + [RendererUpdate])
  {
    var app1 := app.(time := Time.Tick(app.time, now).0);
    EmitOne(app1, TimeChannel, Time.TickEvent);
    RunOne(app1, TickHandler);
  }

  /**
   * A load callback on a wired instance builds the world exactly when it is
   * the callback that makes `loaded` reach `toLoad`.
   */
  lemma LoadBuildsWorldOnReady(app: App, i: nat, file: Asset)
    requires Wired(app) && i < |app.sources|
    ensures var r := Step(app, LoadSucceeded(i, file));
      && r.0 == app.(resources := r.0.resources, world := r.0.world, scene := r.0.scene)
      && r.0.resources.items == app.resources.items[app.sources[i].name := file]
      && r.0.resources.loaded == app.resources.loaded + 1
      && r.0.resources.toLoad == app.resources.toLoad
      && (app.resources.loaded + 1 == app.resources.toLoad ==>
            && r.1 == [FloorCreated, FoxCreated, EnvironmentCreated]
            && r.0.world.floor && r.0.world.fox && r.0.world.environment
            && r.0.scene.kind == app.scene.kind
            && r.0.scene.children
               == app.scene.children + app.content.floor + app.content.fox + app.content.environment)
      && (app.resources.loaded + 1 != app.resources.toLoad ==>
            r.1 == [] && r.0.world == app.world && r.0.scene == app.scene)
  {
    var (resources, events) := Resources.SourceLoaded(app.resources, app.sources[i], file);
    var app1 := app.(resources := resources);
    if events != [] {
      EmitOne(app1, ResourcesChannel, Resources.ReadyEvent);
      RunOne(app1, ReadyHandler);
    }
  }

  /** Every callback keeps an instance live: still wired, and its world still gated by 'ready'. */
  lemma StepKeepsLive(app: App, ev: HostEvent)
    requires Live(app) && Deliverable(app.sources, ev)
    ensures Live(Step(app, ev).0)
  {
    match ev
    case WindowResized(w) => ResizePropagatesOnce(app, w);
    case AnimationFrame(now) => FramePropagatesOnce(app, now);
    case LoadSucceeded(i, file) => LoadBuildsWorldOnReady(app, i, file);
  }

  /**
   * What 'ready' builds is what `destroy()` later disposes: after the
   * completing callback, the scene holds, besides what it held before, one
   * geometry per mesh and one value per disposable key of the floor, fox and
   * environment content; `DestroyOrder` shows the walk disposes exactly these.
   */
  lemma ReadyContentIsDisposed(app: App, i: nat, file: Asset)
    requires Wired(app) && i < |app.sources|
    requires app.resources.loaded + 1 == app.resources.toLoad
    ensures var after := Step(app, LoadSucceeded(i, file)).0;
      var added := app.content.floor + app.content.fox + app.content.environment;
      && SceneGraph.Geometries(after.scene) == SceneGraph.Geometries(app.scene) + SceneGraph.GeometriesAll(added)
      && SceneGraph.Values(after.scene) == SceneGraph.Values(app.scene) + SceneGraph.ValuesAll(added)
  {
    LoadBuildsWorldOnReady(app, i, file);
    var added := app.content.floor + app.content.fox + app.content.environment;
    var after := Step(app, LoadSucceeded(i, file)).0;
    assert after.scene.kind == app.scene.kind && after.scene.children == app.scene.children + added;
    SceneGraph.GeometriesAppend(app.scene.children, added);
    SceneGraph.ValuesAppend(app.scene.children, added);
    assert SceneGraph.GeometriesAll(after.scene.children)
      == SceneGraph.GeometriesAll(app.scene.children) + SceneGraph.GeometriesAll(added);
    assert SceneGraph.ValuesAll(after.scene.children)
      == SceneGraph.ValuesAll(app.scene.children) + SceneGraph.ValuesAll(added);
  }

  /**
   * Along any trace of callbacks, the world exists exactly when every source
   * has called back, so `update()` reaches the fox only after 'ready'.
   */
  lemma {:induction false} RunKeepsLive(app: App, evs: seq<HostEvent>)
    requires Live(app)
    requires forall k :: 0 <= k < |evs| ==> Deliverable(app.sources, evs[k])
    ensures Live(Run(app, evs).0)
    ensures var after := Run(app, evs).0;
      after.world.fox <==> 0 < after.resources.toLoad <= after.resources.loaded
    decreases |evs|
  {
    if evs != [] {
      StepKeepsLive(app, evs[0]);
      var app1 := Step(app, evs[0]).0;
      assert app1.sources == app.sources;
      RunKeepsLive(app1, evs[1..]);
    }
  }

  predicate AllResizes(evs: seq<HostEvent>)
  {
    forall k :: 0 <= k < |evs| ==> evs[k].WindowResized?
  }

  /** No debounce: n resize notifications give exactly n propagations, each camera then renderer. */
  lemma {:induction false} EveryResizePropagates(app: App, evs: seq<HostEvent>)
    requires Wired(app) && AllResizes(evs)
    ensures |Run(app, evs).1| == 2 * |evs|
    ensures forall k :: 0 <= k < |evs| ==>
      Run(app, evs).1[2 * k] == CameraResize && Run(app, evs).1[2 * k + 1] == RendererResize
    decreases |evs|
  {
    if evs != [] {
      ResizePropagatesOnce(app, evs[0].window);
      var app1 := Step(app, evs[0]).0;
      EveryResizePropagates(app1, evs[1..]);
      var calls := Run(app, evs).1;
      var rest := Run(app1, evs[1..]).1;
      assert calls == [CameraResize, RendererResize] + rest;
      forall k | 1 <= k < |evs|
        ensures calls[2 * k] == CameraResize && calls[2 * k + 1] == RendererResize
      {
        assert calls[2 * k] == rest[2 * (k - 1)];
        assert calls[2 * k + 1] == rest[2 * (k - 1) + 1];
      }
    }
  }

  /**
   * `destroy()` removes both listeners before anything is disposed; the walk
   * disposes each mesh's geometry once per mesh and each disposable material
   * value once per mesh and key; then controls and renderer; and the debug
   * UI is destroyed if and only if debug is active.
   */
  lemma DestroyOrder(app: App)
    ensures var calls := Destroy(app).1;
      var walk := calls[2..|calls| - (if app.debugActive then 3 else 2)];
      && |calls| >= 4
      && calls[0] == ListenerRemoved(Sizes.ResizeEvent) && calls[1] == ListenerRemoved(Time.TickEvent)
      && SceneGraph.OnlyDisposals(walk)
      && SceneGraph.DisposedGeometries(walk) == SceneGraph.Geometries(app.scene)
      && SceneGraph.DisposedValues(walk) == SceneGraph.Values(app.scene)
      && calls[2 + |walk|..] == [ControlsDisposed, RendererDisposed] + (if app.debugActive then [DebugUiDestroyed] else [])
      && (DebugUiDestroyed in calls <==> app.debugActive)
  {
    var walk := SceneGraph.Dispose(app.scene);
    SceneGraph.DisposeMatchesTree(app.scene);
    var head := [ListenerRemoved(Sizes.ResizeEvent), ListenerRemoved(Time.TickEvent)];
    var tail := [ControlsDisposed, RendererDisposed] + (if app.debugActive then [DebugUiDestroyed] else []);
    var calls := Destroy(app).1;
    assert calls == head + walk + tail;
    ThreePieces(head, walk, tail);
    assert calls[2..|calls| - (if app.debugActive then 3 else 2)] == walk;
  }

  /** A call log cut into a two-call head, a middle and a tail gives its pieces back. */
  lemma ThreePieces(head: seq<Call>, walk: seq<Call>, tail: seq<Call>)
    requires |head| == 2
    ensures var calls := head + walk + tail;
      && calls[0] == head[0] && calls[1] == head[1]
      && calls[2..|calls| - |tail|] == walk
      && calls[2 + |walk|..] == tail
      && (forall c :: c in calls <==> c in head || c in walk || c in tail)
  {
    var calls := head + walk + tail;
    assert calls[2..|calls| - |tail|] == walk;
    assert calls[2 + |walk|..] == tail;
  }

  /** No browser callback changes whether `destroy()` tears down a debug UI. */
  lemma {:induction false} DebugUiSurvivesRun(app: App, evs: seq<HostEvent>)
    requires forall k :: 0 <= k < |evs| ==> Deliverable(app.sources, evs[k])
    ensures DebugUiDestroyed in Destroy(Run(app, evs).0).1 <==> app.debugActive
  {
    assert Run(app, evs).0.debugActive == app.debugActive;
  }

  /**
   * Over a whole session, the debug UI `destroy()` tears down is the one the
   * URL hash asked for at construction.
   */
  lemma DebugUiFollowsHash(self: nat, host: Host, evs: seq<HostEvent>)
    requires forall k :: 0 <= k < |evs| ==> Deliverable(host.sources, evs[k])
    ensures var app := Construct(Global(None), self, host).built.value;
      DebugUiDestroyed in Destroy(Run(app, evs).0).1 <==> host.hash == DebugHash
  {
    var c := Construct(Global(None), self, host);
    assert c.built.Some? && c.built.value.sources == host.sources;
    assert c.built.value.debugActive <==> host.hash == DebugHash;
    DebugUiSurvivesRun(c.built.value, evs);
  }

  /** After `destroy()` neither a resize nor a frame propagates anything. */
  lemma NothingPropagatesAfterDestroy(app: App, w: Sizes.Window, now: int)
    ensures Step(Destroy(app).0, WindowResized(w)).1 == []
    ensures Step(Destroy(app).0, AnimationFrame(now)).1 == []
  {
    var d := Destroy(app).0;
    EmitOne(d.(sizes := Sizes.Read(w)), SizesChannel, Sizes.ResizeEvent);
    EmitOne(d.(time := Time.Tick(d.time, now).0), TimeChannel, Time.TickEvent);
  }
}
