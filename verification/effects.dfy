/**
 * The observable effects of the framework on the collaborators it does not
 * define itself (camera, renderer, floor, fox, environment, controls, debug UI,
 * three.js resources), and the identities of the handlers it registers.
 * A collaborator is modelled only by the record that one of its methods was
 * called.
 */
module Effects {

  /** One call into an opaque collaborator, in the order it happens. */
  datatype Call =
    | CameraCreated
    | RendererCreated
    | DebugUiCreated
    | CameraResize
    | RendererResize
    | CameraUpdate
    | FoxUpdate
    | RendererUpdate
    | FloorCreated
    | FoxCreated
    | EnvironmentCreated
    | ListenerRemoved(event: string)
    | GeometryDisposed(geometry: nat)
    | ValueDisposed(resource: nat)
    | ControlsDisposed
    | RendererDisposed
    | DebugUiDestroyed

  /** The closures the program registers with an event emitter. */
  datatype Handler =
    | ResizeHandler   // Experience: `() => this.resize()`
    | TickHandler     // Experience: `() => this.update()`
    | ReadyHandler    // World: builds floor, fox and environment
}
