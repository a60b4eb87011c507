/**
 * The publish/subscribe base class of `Sizes`, `Time` and `Resources`.
 * Its own source is not part of this model: it is modelled only as far as
 * its call sites use it.  `on` appends a handler to a named channel, `off`
 * empties a channel, and `trigger` invokes the channel's handlers in
 * registration order.
 */
module EventEmitter {

  /** The handlers of each event name, in registration order. */
  datatype Emitter<H> = Emitter(channels: map<string, seq<H>>)

  /** The handlers `trigger(name)` invokes, in the order it invokes them. */
  function Trigger<H>(e: Emitter<H>, name: string): (hs: seq<H>)
    ensures name !in e.channels ==> hs == []
    ensures name in e.channels ==> hs == e.channels[name]
  {
    if name in e.channels then e.channels[name] else []
  }

  /** A fresh emitter: triggering any name invokes nothing. */
  function New<H>(): (e: Emitter<H>)
    ensures forall name :: Trigger(e, name) == []
  {
    Emitter(map[])
  }

  /** `on(name, handler)`: the handler runs after every handler already there. */
  function On<H>(e: Emitter<H>, name: string, handler: H): (r: Emitter<H>)
    ensures Trigger(r, name) == Trigger(e, name) + [handler]
    ensures forall other :: other != name ==> Trigger(r, other) == Trigger(e, other)
  {
    Emitter(e.channels[name := Trigger(e, name) + [handler]])
  }

  /** `off(name)`: every handler of `name` is removed, other names keep theirs. */
  function Off<H>(e: Emitter<H>, name: string): (r: Emitter<H>)
    ensures Trigger(r, name) == []
    ensures forall other :: other != name ==> Trigger(r, other) == Trigger(e, other)
  {
    Emitter(e.channels - {name})
  }
}
