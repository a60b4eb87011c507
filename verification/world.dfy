/**
 * `World/World.js`: the scene content, built only once the resources are
 * ready.  Floor, Fox and Environment are collaborators outside this model:
 * their construction is recorded as a call, and the objects they add to the
 * scene are given as `Content`.
 */
module World {
  import opened Effects
  import EventEmitter
  import SceneGraph
  import Resources

  /** The objects the Floor, Fox and Environment constructors add to the scene. */
  datatype Content = Content(
    floor: seq<SceneGraph.Object3D>,
    fox: seq<SceneGraph.Object3D>,
    environment: seq<SceneGraph.Object3D>)

  /**
   * `experience` is the identity of the Experience the world obtained; the
   * flags say whether `this.floor`, `this.fox`, `this.environment` are set.
   */
  datatype World = World(experience: nat, floor: bool, fox: bool, environment: bool)

  /**
   * The constructor, given the Experience its `new Experience()` returned and
   * the resources' emitter: nothing is built yet, and one 'ready' handler is
   * appended to the resources' emitter.
   */
  function Init(experience: nat, resourceEvents: EventEmitter.Emitter<Handler>)
    : (r: (World, EventEmitter.Emitter<Handler>))
    ensures r.0.experience == experience && !r.0.floor && !r.0.fox && !r.0.environment
    ensures EventEmitter.Trigger(r.1, Resources.ReadyEvent)
      == EventEmitter.Trigger(resourceEvents, Resources.ReadyEvent) + [ReadyHandler]
    ensures forall name :: name != Resources.ReadyEvent ==>
      EventEmitter.Trigger(r.1, name) == EventEmitter.Trigger(resourceEvents, name)
  {
    (World(experience, false, false, false), EventEmitter.On(resourceEvents, Resources.ReadyEvent, ReadyHandler))
  }

  /**
   * The 'ready' handler: creates floor, fox and environment in that order,
   * each adding its objects to the scene after those already there.
   */
  function OnReady(w: World, scene: SceneGraph.Object3D, content: Content)
    : (r: (World, SceneGraph.Object3D, seq<Call>))
    ensures r.0.experience == w.experience && r.0.floor && r.0.fox && r.0.environment
    ensures r.1.kind == scene.kind
    ensures r.1.children == scene.children + content.floor + content.fox + content.environment
    ensures r.2 == [FloorCreated, FoxCreated, EnvironmentCreated]
  {
    var scene1 := scene.(children := scene.children + content.floor);
    var scene2 := scene1.(children := scene1.children + content.fox);
    var scene3 := scene2.(children := scene2.children + content.environment);
    (World(w.experience, true, true, true), scene3, [FloorCreated, FoxCreated, EnvironmentCreated])
  }

  /** `update()`: calls `fox.update()` once if the fox exists, and nothing otherwise. */
  function Update(w: World): (calls: seq<Call>)
    ensures !w.fox ==> calls == []
    ensures w.fox ==> calls == [FoxUpdate]
  {
    if w.fox then [FoxUpdate] else []
  }
}
